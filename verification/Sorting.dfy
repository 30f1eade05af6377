/** Python's `sorted`: a stable sort, pinned down by what it promises rather than by how it works. */
module Sorting {

  ghost predicate TotalPreorder<T(!new)>(le: (T, T) -> bool) {
    && (forall x, y :: le(x, y) || le(y, x))
    && (forall x, y, z :: le(x, y) && le(y, z) ==> le(x, z))
  }

  ghost predicate Sorted<T>(s: seq<T>, le: (T, T) -> bool) {
    forall i, j :: 0 <= i < j < |s| ==> le(s[i], s[j])
  }

  predicate Tied<T>(x: T, y: T, le: (T, T) -> bool) {
    le(x, y) && le(y, x)
  }

  /** The elements of `s` that tie with `x`, in the order they have in `s`. */
  function Ties<T>(s: seq<T>, x: T, le: (T, T) -> bool): seq<T> {
    if s == [] then [] else (if Tied(x, s[0], le) then [s[0]] else []) + Ties(s[1..], x, le)
  }

  function Insert<T>(x: T, s: seq<T>, le: (T, T) -> bool): seq<T> {
    if s == [] then [x]
    else if le(x, s[0]) then [x] + s
    else [s[0]] + Insert(x, s[1..], le)
  }

  function StableSort<T>(s: seq<T>, le: (T, T) -> bool): seq<T> {
    if s == [] then [] else Insert(s[0], StableSort(s[1..], le), le)
  }

  lemma {:induction false} InsertPermutes<T>(x: T, s: seq<T>, le: (T, T) -> bool)
    ensures multiset(Insert(x, s, le)) == multiset{x} + multiset(s)
  {
    if s != [] && !le(x, s[0]) {
      InsertPermutes(x, s[1..], le);
      assert s == [s[0]] + s[1..];
    }
  }

  lemma {:induction false} InsertSorted<T(!new)>(x: T, s: seq<T>, le: (T, T) -> bool)
    requires TotalPreorder(le) && Sorted(s, le)
    ensures Sorted(Insert(x, s, le), le)
  {
    if s == [] {
    } else if le(x, s[0]) {
      forall j | 0 <= j < |s| ensures le(x, s[j]) {
        assert j == 0 || le(s[0], s[j]);
      }
    } else {
      var t := Insert(x, s[1..], le);
      InsertSorted(x, s[1..], le);
      InsertPermutes(x, s[1..], le);
      forall j | 0 <= j < |t| ensures le(s[0], t[j]) {
        assert t[j] in multiset(t);
        assert t[j] == x || t[j] in s[1..];
      }
    }
  }

  lemma {:induction false} InsertTies<T(!new)>(x: T, s: seq<T>, y: T, le: (T, T) -> bool)
    requires TotalPreorder(le) && Sorted(s, le)
    ensures Ties(Insert(x, s, le), y, le) == Ties([x], y, le) + Ties(s, y, le)
  {
    if s == [] {
    } else if le(x, s[0]) {
      assert ([x] + s)[1..] == s;
    } else {
      InsertTies(x, s[1..], y, le);
      var t := Insert(x, s[1..], le);
      assert ([s[0]] + t)[1..] == t;
      // x and s[0] cannot both tie with y: s[0] is strictly before x.
      assert !(Tied(y, x, le) && Tied(y, s[0], le));
      var h, u, v := if Tied(y, s[0], le) then [s[0]] else [], Ties([x], y, le), Ties(s[1..], y, le);
      hide *;
      assert h == [] || u == [];
      assert h + (u + v) == u + (h + v);
    }
  }

  lemma {:induction false} StableSortPermutes<T>(s: seq<T>, le: (T, T) -> bool)
    ensures multiset(StableSort(s, le)) == multiset(s) && |StableSort(s, le)| == |s|
  {
    if s != [] {
      StableSortPermutes(s[1..], le);
      InsertPermutes(s[0], StableSort(s[1..], le), le);
      assert s == [s[0]] + s[1..];
    }
    assert |multiset(StableSort(s, le))| == |multiset(s)|;
  }

  lemma {:induction false} StableSortSorts<T(!new)>(s: seq<T>, le: (T, T) -> bool)
    requires TotalPreorder(le)
    ensures Sorted(StableSort(s, le), le)
  {
    if s != [] {
      StableSortSorts(s[1..], le);
      InsertSorted(s[0], StableSort(s[1..], le), le);
    }
  }

  lemma {:induction false} StableSortKeepsTies<T(!new)>(s: seq<T>, y: T, le: (T, T) -> bool)
    requires TotalPreorder(le)
    ensures Ties(StableSort(s, le), y, le) == Ties(s, y, le)
  {
    if s != [] {
      StableSortKeepsTies(s[1..], y, le);
      StableSortSorts(s[1..], le);
      InsertTies(s[0], StableSort(s[1..], le), y, le);
    }
  }

  /** A sorted permutation of the input in which ties keep their input order. */
  lemma StableSortSpec<T(!new)>(s: seq<T>, le: (T, T) -> bool)
    requires TotalPreorder(le)
    ensures Sorted(StableSort(s, le), le)
    ensures multiset(StableSort(s, le)) == multiset(s)
    ensures |StableSort(s, le)| == |s|
    ensures forall y :: Ties(StableSort(s, le), y, le) == Ties(s, y, le)
  {
    StableSortPermutes(s, le);
    StableSortSorts(s, le);
    forall y ensures Ties(StableSort(s, le), y, le) == Ties(s, y, le) {
      StableSortKeepsTies(s, y, le);
    }
  }

  lemma {:induction false} TiesHead<T(!new)>(s: seq<T>, x: T, le: (T, T) -> bool)
    requires TotalPreorder(le) && Sorted(s, le)
    requires Ties(s, x, le) != []
    ensures s != [] && le(s[0], x)
  {
    if !Tied(x, s[0], le) {
      TiesHead(s[1..], x, le);
      assert le(s[0], s[1]);
    }
  }

  /** The promise determines the result: sorted sequences with equal ties are equal. */
  lemma {:induction false} SortedTiesUnique<T(!new)>(a: seq<T>, b: seq<T>, le: (T, T) -> bool)
    requires TotalPreorder(le) && Sorted(a, le) && Sorted(b, le)
    requires forall x :: Ties(a, x, le) == Ties(b, x, le)
    ensures a == b
  {
    if a == [] {
    } else {
      assert Ties(a, a[0], le)[0] == a[0];
      TiesHead(b, a[0], le);
      assert Ties(b, b[0], le)[0] == b[0];
      TiesHead(a, b[0], le);
      assert Ties(b, a[0], le)[0] == b[0];
      forall x ensures Ties(a[1..], x, le) == Ties(b[1..], x, le) {
        var h := if Tied(x, a[0], le) then [a[0]] else [];
        assert h + Ties(a[1..], x, le) == Ties(a, x, le) == Ties(b, x, le) == h + Ties(b[1..], x, le);
        assert (h + Ties(a[1..], x, le))[|h|..] == Ties(a[1..], x, le);
        assert (h + Ties(b[1..], x, le))[|h|..] == Ties(b[1..], x, le);
      }
      SortedTiesUnique(a[1..], b[1..], le);
      assert a == [a[0]] + a[1..] && b == [b[0]] + b[1..];
    }
  }

  lemma {:induction false} TiesAppend<T>(a: seq<T>, b: seq<T>, x: T, le: (T, T) -> bool)
    ensures Ties(a + b, x, le) == Ties(a, x, le) + Ties(b, x, le)
  {
    if a == [] {
      assert a + b == b;
    } else {
      TiesAppend(a[1..], b, x, le);
      assert (a + b)[1..] == a[1..] + b;
    }
  }

  lemma SameSortSameTies<T(!new)>(a: seq<T>, b: seq<T>, le: (T, T) -> bool)
    requires TotalPreorder(le)
    requires StableSort(a, le) == StableSort(b, le)
    ensures forall x :: Ties(a, x, le) == Ties(b, x, le)
  {
    StableSortSpec(a, le);
    StableSortSpec(b, le);
    forall x ensures Ties(a, x, le) == Ties(b, x, le) {
      assert Ties(StableSort(a, le), x, le) == Ties(a, x, le);
      assert Ties(StableSort(b, le), x, le) == Ties(b, x, le);
    }
  }

  /** Sorting a sequence whose second part is nowhere before its first sorts the parts. */
  lemma SortAppend<T(!new)>(a: seq<T>, b: seq<T>, le: (T, T) -> bool)
    requires TotalPreorder(le)
    requires forall x, y :: x in a && y in b ==> le(x, y)
    ensures StableSort(a + b, le) == StableSort(a, le) + StableSort(b, le)
  {
    var sa, sb := StableSort(a, le), StableSort(b, le);
    StableSortSpec(a, le);
    StableSortSpec(b, le);
    StableSortSpec(a + b, le);
    forall i, j | 0 <= i < j < |sa + sb| ensures le((sa + sb)[i], (sa + sb)[j]) {
      if i < |sa| <= j {
        assert sa[i] in multiset(sa) && sb[j - |sa|] in multiset(sb);
        assert sa[i] in a && sb[j - |sa|] in b;
      }
    }
    forall x ensures Ties(StableSort(a + b, le), x, le) == Ties(sa + sb, x, le) {
      TiesAppend(a, b, x, le);
      TiesAppend(sa, sb, x, le);
    }
    SortedTiesUnique(StableSort(a + b, le), sa + sb, le);
  }

  lemma FirstIsLeast<T(!new)>(a: seq<T>, b: seq<T>, le: (T, T) -> bool)
    requires TotalPreorder(le) && Sorted(a, le) && multiset(a) == multiset(b) && a != [] && b != []
    ensures b[0] in a && le(a[0], b[0])
  {
    assert b[0] in multiset(a);
    var i :| 0 <= i < |a| && a[i] == b[0];
    assert i == 0 || le(a[0], a[i]);
  }

  lemma DropFirst<T>(a: seq<T>)
    requires a != []
    ensures a == [a[0]] + a[1..] && multiset(a[1..]) == multiset(a) - multiset{a[0]}
    ensures forall x :: x in a[1..] ==> x in a
  {
    assert a == [a[0]] + a[1..];
  }

  lemma {:induction false} SortedPermutationsEqual<T(!new)>(a: seq<T>, b: seq<T>, le: (T, T) -> bool)
    requires TotalPreorder(le) && Sorted(a, le) && Sorted(b, le)
    requires multiset(a) == multiset(b)
    requires forall x, y :: x in a && y in a && Tied(x, y, le) ==> x == y
    ensures a == b
  {
    assert |a| == |multiset(a)| == |multiset(b)| == |b|;
    if a != [] {
      FirstIsLeast(a, b, le);
      FirstIsLeast(b, a, le);
      assert Tied(a[0], b[0], le);
      DropFirst(a);
      DropFirst(b);
      SortedPermutationsEqual(a[1..], b[1..], le);
    }
  }

  /** When ties are identical, the order of the input does not matter at all. */
  lemma SortIgnoresOrder<T(!new)>(a: seq<T>, b: seq<T>, le: (T, T) -> bool)
    requires TotalPreorder(le)
    requires multiset(a) == multiset(b)
    requires forall x, y :: x in a && y in a && Tied(x, y, le) ==> x == y
    ensures StableSort(a, le) == StableSort(b, le)
  {
    StableSortSpec(a, le);
    StableSortSpec(b, le);
    forall x | x in StableSort(a, le) ensures x in a {
      assert x in multiset(StableSort(a, le));
    }
    SortedPermutationsEqual(StableSort(a, le), StableSort(b, le), le);
  }
}
