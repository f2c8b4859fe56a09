/** `Array.prototype.sort` with a numeric comparator on balance entries.
    The JavaScript engine's sort is stable (ECMAScript 2019 onward), so the
    result is determined: ordered by amount, and entries of equal amount in
    their original relative order. It is modelled here as a stable insertion
    sort. */
module Ordering {
  import opened Ledger

  /** `(a, b) => b.amount - a.amount` sorts Descending,
      `(a, b) => a.amount - b.amount` sorts Ascending. */
  datatype Direction = Descending | Ascending

  /** An entry of amount `x` may stand before one of amount `y`. */
  predicate Precedes(x: real, y: real, d: Direction) {
    if d == Descending then x >= y else x <= y
  }

  predicate Sorted(s: seq<Entry>, d: Direction) {
    forall a, b :: 0 <= a < b < |s| ==> Precedes(s[a].amount, s[b].amount, d)
  }

  /** Inserts `x` before the first entry it may precede, so before every
      entry of equal amount. */
  function Insert(x: Entry, s: seq<Entry>, d: Direction): seq<Entry> {
    if s == [] || Precedes(x.amount, s[0].amount, d) then [x] + s
    else [s[0]] + Insert(x, s[1..], d)
  }

  function Sort(s: seq<Entry>, d: Direction): seq<Entry> {
    if s == [] then [] else Insert(s[0], Sort(s[1..], d), d)
  }

  /** The subsequence of entries whose amount is `v`. */
  function WithAmount(s: seq<Entry>, v: real): seq<Entry> {
    if s == [] then []
    else (if s[0].amount == v then [s[0]] else []) + WithAmount(s[1..], v)
  }

  lemma {:induction false} InsertFacts(x: Entry, s: seq<Entry>, d: Direction)
    requires Sorted(s, d)
    ensures Sorted(Insert(x, s, d), d)
    ensures multiset(Insert(x, s, d)) == multiset(s) + multiset{x}
  {
    if s != [] && !Precedes(x.amount, s[0].amount, d) {
      assert s == [s[0]] + s[1..];
      InsertFacts(x, s[1..], d);
      var r := Insert(x, s[1..], d);
      HeadPrecedes(s, x, r, d);
      ConsSorted(s[0], r, d);
      assert Insert(x, s, d) == [s[0]] + r;
    }
  }

  lemma ConsSorted(h: Entry, r: seq<Entry>, d: Direction)
    requires Sorted(r, d) && forall k :: 0 <= k < |r| ==> Precedes(h.amount, r[k].amount, d)
    ensures Sorted([h] + r, d)
  {
    var l := [h] + r;
    forall a, b | 0 <= a < b < |l| ensures Precedes(l[a].amount, l[b].amount, d) {
      assert l[b] == r[b - 1];
      if a > 0 { assert l[a] == r[a - 1]; }
    }
  }

  /** The head of a sorted list that `x` may not precede may precede every
      entry of a list made of `x` and the rest of the head's list. */
  lemma HeadPrecedes(s: seq<Entry>, x: Entry, r: seq<Entry>, d: Direction)
    requires s != [] && Sorted(s, d) && !Precedes(x.amount, s[0].amount, d)
    requires multiset(r) == multiset(s[1..]) + multiset{x}
    ensures forall k :: 0 <= k < |r| ==> Precedes(s[0].amount, r[k].amount, d)
  {
    forall k | 0 <= k < |r| ensures Precedes(s[0].amount, r[k].amount, d) {
      assert r[k] in multiset(r);
      if r[k] != x {
        assert r[k] in multiset(s[1..]);
        var k' :| 0 <= k' < |s[1..]| && s[1..][k'] == r[k];
        assert s[k' + 1] == r[k];
      }
    }
  }

  lemma {:induction false} InsertStable(x: Entry, s: seq<Entry>, d: Direction, v: real)
    ensures WithAmount(Insert(x, s, d), v)
         == (if x.amount == v then [x] else []) + WithAmount(s, v)
  {
    if s != [] && !Precedes(x.amount, s[0].amount, d) {
      var r := Insert(x, s[1..], d);
      InsertStable(x, s[1..], d, v);
      var head := if s[0].amount == v then [s[0]] else [];
      var mine := if x.amount == v then [x] else [];
      assert ([s[0]] + r)[1..] == r;
      assert WithAmount(Insert(x, s, d), v) == head + WithAmount(r, v);
      assert WithAmount(s, v) == head + WithAmount(s[1..], v);
      // s[0] lies strictly beyond x, so at most one of the two has amount v
      assert head == [] || mine == [];
    }
  }

  /** The sort orders the entries by amount in the requested direction, and
      is a permutation of its input. */
  lemma {:induction false} SortFacts(s: seq<Entry>, d: Direction)
    ensures Sorted(Sort(s, d), d)
    ensures multiset(Sort(s, d)) == multiset(s)
  {
    if s != [] {
      var r := Sort(s[1..], d);
      SortFacts(s[1..], d);
      InsertFacts(s[0], r, d);
      assert Sort(s, d) == Insert(s[0], r, d);
      HeadMultiset(s);
    }
  }

  lemma HeadMultiset(s: seq<Entry>)
    requires s != []
    ensures multiset(s) == multiset(s[1..]) + multiset{s[0]}
  {
    assert s == [s[0]] + s[1..];
  }

  /** Stability: for every amount, the entries carrying it keep their
      original relative order. */
  lemma {:induction false} SortStable(s: seq<Entry>, d: Direction, v: real)
    ensures WithAmount(Sort(s, d), v) == WithAmount(s, v)
  {
    if s != [] {
      SortStable(s[1..], d, v);
      InsertStable(s[0], Sort(s[1..], d), d, v);
    }
  }

  lemma SortKeepsIds(s: seq<Entry>, d: Direction)
    ensures |Sort(s, d)| == |s|
    ensures forall x :: x in Ids(Sort(s, d)) <==> x in Ids(s)
    ensures Keyed(s) ==> Keyed(Sort(s, d))
  {
    SortFacts(s, d);
    var r := Sort(s, d);
    assert |r| == |multiset(r)| == |multiset(s)| == |s|;
    PermutationIds(s, r);
    if Keyed(s) {
      PermutationKeyed(s, r);
    }
  }

  /** A permutation has the same ids. */
  lemma PermutationIds(s: seq<Entry>, r: seq<Entry>)
    requires multiset(r) == multiset(s)
    ensures forall x :: x in Ids(r) <==> x in Ids(s)
  {
    forall x ensures x in Ids(r) ==> x in Ids(s) {
      if x in Ids(r) {
        var k :| 0 <= k < |r| && Ids(r)[k] == x;
        assert r[k] in multiset(s);
        var k' :| 0 <= k' < |s| && s[k'] == r[k];
        assert Ids(s)[k'] == x;
      }
    }
    forall x ensures x in Ids(s) ==> x in Ids(r) {
      if x in Ids(s) {
        var k :| 0 <= k < |s| && Ids(s)[k] == x;
        assert s[k] in multiset(r);
        var k' :| 0 <= k' < |r| && r[k'] == s[k];
        assert Ids(r)[k'] == x;
      }
    }
  }

  /** Keyedness is a property of the multiset of entries. */
  lemma PermutationKeyed(s: seq<Entry>, r: seq<Entry>)
    requires Keyed(s) && multiset(r) == multiset(s)
    ensures Keyed(r)
  {
    forall a, b | 0 <= a < b < |r| ensures r[a].id != r[b].id {
      if r[a].id == r[b].id {
        assert r[a] in multiset(s) && r[b] in multiset(s);
        var a' :| 0 <= a' < |s| && s[a'] == r[a];
        var b' :| 0 <= b' < |s| && s[b'] == r[b];
        if a' == b' {
          // then r[a] == r[b], an entry occurring twice in r but once in s
          assert r[a] == r[b];
          OccursTwice(r, a, b);
          KeyedOccursOnce(s, a');
          assert false;
        }
      }
    }
  }

  lemma OccursTwice(r: seq<Entry>, a: int, b: int)
    requires 0 <= a < b < |r| && r[a] == r[b]
    ensures multiset(r)[r[a]] >= 2
  {
    var x := r[a];
    assert r == r[..a] + [x] + r[a + 1..b] + [x] + r[b + 1..];
    assert multiset(r) == multiset(r[..a]) + multiset{x} + multiset(r[a + 1..b]) + multiset{x} + multiset(r[b + 1..]);
  }

  lemma {:induction false} KeyedOccursOnce(s: seq<Entry>, k: int)
    requires Keyed(s) && 0 <= k < |s|
    ensures multiset(s)[s[k]] == 1
  {
    var x := s[k];
    assert s == s[..k] + [x] + s[k + 1..];
    assert multiset(s) == multiset(s[..k]) + multiset{x} + multiset(s[k + 1..]);
    assert x !in s[..k] by {
      forall j | 0 <= j < k ensures s[..k][j] != x { assert s[j].id != s[k].id; }
    }
    assert x !in s[k + 1..] by {
      forall j | k + 1 <= j < |s| ensures s[j] != x { assert s[j].id != s[k].id; }
    }
  }

  /** Sorting signed amounts ascending and then negating them is the same as
      negating first and sorting descending: the debtor list is the same
      whichever of the two the source writes. */
  lemma {:induction false} SortNegated(s: seq<Entry>)
    ensures Negated(Sort(s, Ascending)) == Sort(Negated(s), Descending)
  {
    if s != [] {
      SortNegated(s[1..]);
      assert Negated(s)[1..] == Negated(s[1..]);
      InsertNegated(s[0], Sort(s[1..], Ascending));
    }
  }

  lemma {:induction false} InsertNegated(x: Entry, s: seq<Entry>)
    ensures Negated(Insert(x, s, Ascending)) == Insert(Entry(x.id, -x.amount), Negated(s), Descending)
  {
    var nx := Entry(x.id, -x.amount);
    if s == [] || Precedes(x.amount, s[0].amount, Ascending) {
      assert Insert(x, s, Ascending) == [x] + s;
      NegatedCons(x, s);
      assert Insert(nx, Negated(s), Descending) == [nx] + Negated(s);
    } else {
      var r := Insert(x, s[1..], Ascending);
      assert Insert(x, s, Ascending) == [s[0]] + r;
      InsertNegated(x, s[1..]);
      NegatedCons(s[0], r);
      var ns := Negated(s);
      assert ns[1..] == Negated(s[1..]);
      assert ns[0] == Entry(s[0].id, -s[0].amount);
      assert Insert(nx, ns, Descending) == [ns[0]] + Insert(nx, ns[1..], Descending);
    }
  }
}
