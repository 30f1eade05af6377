/** Keying items by device index, first come first kept, and listing them in index order. */
module Indexing {
  import opened Telemetry
  import opened Sorting

  /** An insertion-ordered dictionary from index to the first item that has it. */
  function FirstPerIndex<T>(items: seq<T>, key: T -> Option<nat>): seq<(nat, T)> {
    if items == [] then []
    else
      var kept, last := FirstPerIndex(items[..|items| - 1], key), items[|items| - 1];
      match key(last)
      case None => kept
      case Some(i) => if HasIndex(kept, i) then kept else kept + [(i, last)]
  }

  predicate HasIndex<T>(entries: seq<(nat, T)>, i: nat) {
    exists k | 0 <= k < |entries| :: entries[k].0 == i
  }

  predicate IndexLe<T>(a: (nat, T), b: (nat, T)) {
    a.0 <= b.0
  }

  /** `sorted(indexed.items())`. */
  function ByIndex<T>(items: seq<T>, key: T -> Option<nat>): seq<(nat, T)> {
    StableSort(FirstPerIndex(items, key), IndexLe)
  }

  ghost predicate StrictlyIncreasing<T>(s: seq<(nat, T)>) {
    forall i, j :: 0 <= i < j < |s| ==> s[i].0 < s[j].0
  }

  lemma IndexLeIsPreorder<T(!new)>()
    ensures TotalPreorder<(nat, T)>(IndexLe)
  {
  }

  /** `x` is the first item whose key is `i`. */
  ghost predicate IsFirst<T(!new)>(items: seq<T>, key: T -> Option<nat>, i: nat, x: T) {
    exists p | 0 <= p < |items| ::
      items[p] == x && key(x) == Some(i) && forall q | 0 <= q < p :: key(items[q]) != Some(i)
  }

  ghost predicate DistinctIndexes<T>(s: seq<(nat, T)>) {
    forall i, j :: 0 <= i < j < |s| ==> s[i].0 != s[j].0
  }

  lemma {:induction false} FirstPerIndexSpec<T(!new)>(items: seq<T>, key: T -> Option<nat>)
    ensures DistinctIndexes(FirstPerIndex(items, key))
    ensures forall e <- FirstPerIndex(items, key) :: IsFirst(items, key, e.0, e.1)
    ensures forall p | 0 <= p < |items| && key(items[p]).Some? ::
      HasIndex(FirstPerIndex(items, key), key(items[p]).value)
  {
    if items != [] {
      var n := |items| - 1;
      var kept, last := FirstPerIndex(items[..n], key), items[n];
      FirstPerIndexSpec(items[..n], key);
      var all := FirstPerIndex(items, key);
      forall e | e in all ensures IsFirst(items, key, e.0, e.1) {
        if e in kept {
          var p :| 0 <= p < n && items[..n][p] == e.1 && key(e.1) == Some(e.0)
            && forall q | 0 <= q < p :: key(items[..n][q]) != Some(e.0);
          assert items[p] == e.1;
          assert forall q | 0 <= q < p :: items[q] == items[..n][q];
        } else {
          assert e == (key(last).value, last);
          forall q | 0 <= q < n ensures key(items[q]) != Some(e.0) {
            assert items[..n][q] == items[q];
          }
          assert items[n] == e.1;
        }
      }
      forall p | 0 <= p < |items| && key(items[p]).Some? ensures HasIndex(all, key(items[p]).value) {
        if p < n {
          assert items[..n][p] == items[p];
          var e :| e in kept && e.0 == key(items[p]).value;
          assert e in all;
        } else if !HasIndex(kept, key(last).value) {
          assert all[|all| - 1] == (key(last).value, last);
        } else {
          var e :| e in kept && e.0 == key(last).value;
          assert e in all;
        }
      }
    }
  }

  lemma SortedMembers<T(!new)>(s: seq<(nat, T)>)
    requires DistinctIndexes(s)
    ensures StrictlyIncreasing(StableSort(s, IndexLe))
    ensures forall e :: e in StableSort(s, IndexLe) <==> e in s
  {
    var t := StableSort(s, IndexLe);
    IndexLeIsPreorder<T>();
    StableSortSpec(s, IndexLe);
    assert forall e :: e in multiset(t) <==> e in multiset(s);
    assert forall e :: e in t <==> e in multiset(t);
    forall i, j | 0 <= i < j < |t| ensures t[i].0 < t[j].0 {
      assert IndexLe(t[i], t[j]);
      if t[i].0 == t[j].0 {
        TwiceInSorted(s, t, i, j);
      }
    }
  }

  lemma {:induction false} DistinctOccurOnce<T(!new)>(s: seq<(nat, T)>, e: (nat, T))
    requires DistinctIndexes(s)
    ensures multiset(s)[e] <= 1
  {
    if s != [] {
      assert s == [s[0]] + s[1..];
      DistinctOccurOnce(s[1..], e);
      if e == s[0] {
        assert e !in s[1..];
        assert multiset(s[1..])[e] == 0;
      }
    }
  }

  lemma TwiceInSorted<T(!new)>(s: seq<(nat, T)>, t: seq<(nat, T)>, i: nat, j: nat)
    requires multiset(s) == multiset(t) && i < j < |t| && t[i].0 == t[j].0
    ensures !DistinctIndexes(s)
  {
    assert t[i] in multiset(s) && t[j] in multiset(s);
    var p :| 0 <= p < |s| && s[p] == t[i];
    if t[i] != t[j] {
      var q :| 0 <= q < |s| && s[q] == t[j];
    } else {
      assert t == t[..j] + t[j..];
      assert t[i] in t[..j] && t[j] in t[j..];
      assert multiset(s)[t[i]] >= 2;
      if DistinctIndexes(s) {
        DistinctOccurOnce(s, t[i]);
      }
    }
  }

  /** The listing: strictly increasing, and exactly the first item of every index that occurs. */
  lemma ByIndexSpec<T(!new)>(items: seq<T>, key: T -> Option<nat>)
    ensures StrictlyIncreasing(ByIndex(items, key))
    ensures forall e :: e in ByIndex(items, key) <==> IsFirst(items, key, e.0, e.1)
  {
    FirstPerIndexSpec(items, key);
    SortedMembers(FirstPerIndex(items, key));
    forall e: (nat, T) | IsFirst(items, key, e.0, e.1) ensures e in ByIndex(items, key) {
      var p :| 0 <= p < |items| && items[p] == e.1 && key(e.1) == Some(e.0)
        && forall q | 0 <= q < p :: key(items[q]) != Some(e.0);
      var f :| f in FirstPerIndex(items, key) && f.0 == e.0;
      assert IsFirst(items, key, f.0, f.1);
      var r :| 0 <= r < |items| && items[r] == f.1 && key(f.1) == Some(f.0)
        && forall q | 0 <= q < r :: key(items[q]) != Some(f.0);
      assert p == r;
      assert f == e;
    }
  }

  lemma TailMember<T(!new)>(a: seq<(nat, T)>, e: (nat, T))
    requires StrictlyIncreasing(a) && a != []
    ensures e in a[1..] <==> e in a && e != a[0]
  {
    if e in a[1..] {
      var k :| 0 <= k < |a[1..]| && a[1..][k] == e;
      assert a[k + 1] == e;
    }
  }

  lemma {:induction false} SameMembersSameListing<T(!new)>(a: seq<(nat, T)>, b: seq<(nat, T)>)
    requires StrictlyIncreasing(a) && StrictlyIncreasing(b)
    requires forall e :: e in a <==> e in b
    ensures a == b
  {
    assert |b| > 0 ==> b[0] in b;
    if a == [] {
    } else {
      assert a[0] in b && b != [] && b[0] in a;
      var k :| 0 <= k < |b| && b[k] == a[0];
      var m :| 0 <= m < |a| && a[m] == b[0];
      assert k == 0;
      forall e ensures e in a[1..] <==> e in b[1..] {
        TailMember(a, e);
        TailMember(b, e);
      }
      SameMembersSameListing(a[1..], b[1..]);
    }
  }

  /** Items that share an index are the same item; unique indexes are a special case. */
  ghost predicate IndexDecides<T(!new)>(items: seq<T>, key: T -> Option<nat>) {
    forall x, y :: x in items && y in items && key(x).Some? && key(x) == key(y) ==> x == y
  }

  lemma FirstIffPresent<T(!new)>(items: seq<T>, key: T -> Option<nat>, i: nat, x: T)
    requires IndexDecides(items, key)
    ensures IsFirst(items, key, i, x) <==> x in items && key(x) == Some(i)
  {
    if x in items && key(x) == Some(i) {
      FirstPerIndexSpec(items, key);
      var e :| e in FirstPerIndex(items, key) && e.0 == i;
      assert IsFirst(items, key, e.0, e.1);
      assert e.1 in items && key(e.1) == Some(i);
    }
  }

  /** Then the listing does not depend on the order the items came in. */
  lemma ListingIgnoresOrder<T(!new)>(a: seq<T>, b: seq<T>, key: T -> Option<nat>)
    requires IndexDecides(a, key)
    requires forall x :: x in a <==> x in b
    ensures ByIndex(a, key) == ByIndex(b, key)
  {
    ByIndexSpec(a, key);
    ByIndexSpec(b, key);
    forall e ensures e in ByIndex(a, key) <==> e in ByIndex(b, key) {
      FirstIffPresent(a, key, e.0, e.1);
      FirstIffPresent(b, key, e.0, e.1);
    }
    SameMembersSameListing(ByIndex(a, key), ByIndex(b, key));
  }

  /** Items already in strictly increasing index order are listed as they are. */
  lemma CanonicalListing<T(!new)>(items: seq<T>, key: T -> Option<nat>, listed: seq<(nat, T)>)
    requires StrictlyIncreasing(listed) && |listed| == |items|
    requires forall p | 0 <= p < |items| :: listed[p].1 == items[p] && key(items[p]) == Some(listed[p].0)
    ensures ByIndex(items, key) == listed
  {
    ByIndexSpec(items, key);
    forall e ensures e in ByIndex(items, key) <==> e in listed {
      if e in listed {
        var p :| 0 <= p < |listed| && listed[p] == e;
        assert items[p] == e.1;
        assert IsFirst(items, key, e.0, e.1);
      }
      if IsFirst(items, key, e.0, e.1) {
        var p :| 0 <= p < |items| && items[p] == e.1 && key(e.1) == Some(e.0);
        assert listed[p] == e;
      }
    }
    SameMembersSameListing(ByIndex(items, key), listed);
  }
}
