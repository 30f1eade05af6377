/** The source's append-in-a-loop: each element contributes zero or more results, in order. */
module Collecting {

  function Collect<T, U>(s: seq<T>, pick: T -> seq<U>): seq<U> {
    if s == [] then [] else pick(s[0]) + Collect(s[1..], pick)
  }

  lemma {:induction false} CollectAppend<T, U>(a: seq<T>, b: seq<T>, pick: T -> seq<U>)
    ensures Collect(a + b, pick) == Collect(a, pick) + Collect(b, pick)
  {
    if a == [] {
      assert a + b == b;
    } else {
      CollectAppend(a[1..], b, pick);
      assert (a + b)[1..] == a[1..] + b;
      var x, y, z := pick(a[0]), Collect(a[1..], pick), Collect(b, pick);
      assert x + (y + z) == (x + y) + z;
    }
  }

  /** One loop iteration: the prefix collected so far grows by what element `i` contributes. */
  lemma CollectStep<T, U>(s: seq<T>, i: nat, pick: T -> seq<U>)
    requires i < |s|
    ensures Collect(s[..i + 1], pick) == Collect(s[..i], pick) + pick(s[i])
  {
    CollectAppend(s[..i], [s[i]], pick);
    assert s[..i + 1] == s[..i] + [s[i]];
    assert Collect([s[i]], pick) == pick(s[i]) + Collect([], pick) == pick(s[i]);
  }

  lemma Whole<T>(s: seq<T>)
    ensures s[..|s|] == s
  {
  }

  lemma {:induction false} CollectOrigin<T, U>(s: seq<T>, pick: T -> seq<U>)
    ensures forall u :: u in Collect(s, pick) <==> exists x :: x in s && u in pick(x)
  {
    if s != [] {
      CollectOrigin(s[1..], pick);
      assert s == [s[0]] + s[1..];
      forall u ensures u in Collect(s, pick) <==> exists x :: x in s && u in pick(x) {
        assert u in Collect(s, pick) <==> u in pick(s[0]) || u in Collect(s[1..], pick);
        if u in Collect(s[1..], pick) {
          var x :| x in s[1..] && u in pick(x);
          assert x in s;
        }
      }
    }
  }

  /** Permuting the elements permutes what they contribute. */
  lemma {:induction false} CollectPermutes<T, U>(a: seq<T>, b: seq<T>, pick: T -> seq<U>)
    requires multiset(a) == multiset(b)
    ensures multiset(Collect(a, pick)) == multiset(Collect(b, pick))
  {
    if a == [] {
      assert |multiset(b)| == 0;
      assert b == [];
    } else {
      var i := RemoveAt(a, b);
      var x, y := b[..i], b[i + 1..];
      CollectPermutes(a[1..], x + y, pick);
      CollectAppend(x, y, pick);
      CollectAppend(x, [a[0]] + y, pick);
      assert ([a[0]] + y)[1..] == y;
    }
  }

  lemma RemoveAt<T>(a: seq<T>, b: seq<T>) returns (i: nat)
    requires a != [] && multiset(a) == multiset(b)
    ensures i < |b| && b == b[..i] + ([a[0]] + b[i + 1..])
    ensures multiset(a[1..]) == multiset(b[..i] + b[i + 1..])
  {
    assert a[0] in multiset(b);
    i :| 0 <= i < |b| && b[i] == a[0];
    assert a == [a[0]] + a[1..];
    assert b == b[..i] + ([a[0]] + b[i + 1..]);
    assert multiset(a[1..]) == multiset(a) - multiset{a[0]};
    assert multiset(b) == multiset(b[..i]) + (multiset{a[0]} + multiset(b[i + 1..]));
  }

  lemma MoveFirst<T>(a: seq<T>, i: nat) returns (rest: seq<T>)
    requires i < |a|
    ensures rest == a[..i] + a[i + 1..] && multiset(rest) + multiset{a[i]} == multiset(a)
  {
    rest := a[..i] + a[i + 1..];
    assert a == a[..i] + ([a[i]] + a[i + 1..]);
  }

  function Sum(values: seq<real>): real {
    if values == [] then 0.0 else values[0] + Sum(values[1..])
  }

  lemma {:induction false} SumAppend(a: seq<real>, b: seq<real>)
    ensures Sum(a + b) == Sum(a) + Sum(b)
  {
    if a == [] {
      assert a + b == b;
    } else {
      SumAppend(a[1..], b);
      assert (a + b)[1..] == a[1..] + b;
    }
  }

  lemma {:induction false} SumPermutes(a: seq<real>, b: seq<real>)
    requires multiset(a) == multiset(b)
    ensures Sum(a) == Sum(b)
  {
    if a == [] {
      assert |multiset(b)| == 0;
      assert b == [];
    } else {
      var i := RemoveAt(a, b);
      var x, y := b[..i], b[i + 1..];
      SumPermutes(a[1..], x + y);
      SumAppend(x, y);
      SumAppend(x, [a[0]] + y);
      assert ([a[0]] + y)[1..] == y;
    }
  }

  /** A sum lies between its length times any two bounds on its terms. */
  lemma {:induction false} SumBetween(values: seq<real>, lo: real, hi: real)
    requires forall v <- values :: lo <= v <= hi
    ensures lo * |values| as real <= Sum(values) <= hi * |values| as real
  {
    if values != [] {
      var rest := values[1..];
      assert forall v <- rest :: v in values;
      SumBetween(rest, lo, hi);
      assert values[0] in values;
      OneMore(lo, |rest| as real);
      OneMore(hi, |rest| as real);
      assert |values| as real == |rest| as real + 1.0;
    }
  }

  lemma OneMore(x: real, n: real)
    ensures x * (n + 1.0) == x * n + x
  {
  }
}
