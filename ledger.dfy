/** The per-person balance table that every variant builds: a JavaScript
    object `{ [personId]: number }`, seen through `Object.entries`, i.e. as
    the sequence of its (id, balance) entries in insertion order. */
module Ledger {
  import opened Money

  datatype Entry = Entry(id: string, amount: real)
  type Table = seq<Entry>

  /** An expense after conversion to the base currency: who paid, who
      shares it (duplicates allowed), and the converted amount. */
  datatype Posting = Posting(payer: string, sharers: seq<string>, amount: real)

  function Ids(t: Table): (r: seq<string>)
    ensures |r| == |t|
    ensures forall k :: 0 <= k < |t| ==> r[k] == t[k].id
  {
    seq(|t|, k requires 0 <= k < |t| => t[k].id)
  }

  lemma TailIds(t: Table, id: string)
    requires id in Ids(t) && t[0].id != id
    ensures id in Ids(t[1..])
  {
    var k :| 0 <= k < |t| && Ids(t)[k] == id;
    assert k > 0 && Ids(t[1..])[k - 1] == t[k].id;
  }

  /** No id occurs twice, as in the keys of a JavaScript object. */
  predicate Keyed(t: Table) {
    forall a, b :: 0 <= a < b < |t| ==> t[a].id != t[b].id
  }

  function Sum(t: Table): real {
    if t == [] then 0.0 else t[0].amount + Sum(t[1..])
  }

  /** `balances[id] = v`: overwrites the entry in place when the key exists,
      appends a new entry otherwise. */
  function Set(t: Table, id: string, v: real): (r: Table)
    ensures id in Ids(t) ==> Ids(r) == Ids(t)
    ensures id !in Ids(t) ==> r == t + [Entry(id, v)]
    ensures forall x :: Balance(r, x) == if x == id then v else Balance(t, x)
  {
    if t == [] then [Entry(id, v)]
    else if t[0].id == id then [Entry(id, v)] + t[1..]
    else [t[0]] + Set(t[1..], id, v)
  }

  /** `balances[id] += x` on an existing key. */
  function Add(t: Table, id: string, x: real): (r: Table)
    requires id in Ids(t)
    ensures Ids(r) == Ids(t)
    ensures Sum(r) == Sum(t) + x
  {
    if t[0].id == id then [Entry(id, t[0].amount + x)] + t[1..]
    else
      TailIds(t, id);
      [t[0]] + Add(t[1..], id, x)
  }

  /** The amount recorded for `id`, or 0 when it has no entry. */
  function Balance(t: Table, id: string): real {
    if t == [] then 0.0 else if t[0].id == id then t[0].amount else Balance(t[1..], id)
  }

  lemma {:induction false} AddBalance(t: Table, id: string, x: real, other: string)
    requires id in Ids(t)
    ensures Balance(Add(t, id, x), other)
         == if other == id then Balance(t, other) + x else Balance(t, other)
  {
    if t[0].id != id {
      TailIds(t, id);
      AddBalance(t[1..], id, x, other);
    }
  }

  // ---------------------------------------------------------------------------
  // Initialisation: `people.forEach(p => { balances[p.id] = 0 })`

  /** Sets every id of `ids`, in order, to 0 on top of `t`. */
  function ZeroFrom(t: Table, ids: seq<string>): Table
    decreases |ids|
  {
    if ids == [] then t else ZeroFrom(Set(t, ids[0], 0.0), ids[1..])
  }

  function Init(ids: seq<string>): Table {
    ZeroFrom([], ids)
  }

  method InitBalances(ids: seq<string>) returns (t: Table)
    ensures t == Init(ids)
  {
    t := [];
    var i := 0;
    while i < |ids|
      invariant 0 <= i <= |ids|
      invariant ZeroFrom(t, ids[i..]) == Init(ids)
    {
      assert ids[i..][1..] == ids[i + 1..];
      t := Set(t, ids[i], 0.0);
      i := i + 1;
    }
  }

  lemma {:induction false} ZeroFromLength(t: Table, ids: seq<string>)
    ensures |ZeroFrom(t, ids)| <= |t| + |ids|
    decreases |ids|
  {
    if ids != [] {
      ZeroFromLength(Set(t, ids[0], 0.0), ids[1..]);
      if ids[0] in Ids(t) {
        assert |Ids(Set(t, ids[0], 0.0))| == |Ids(t)|;
      }
    }
  }

  predicate AllZero(t: Table) {
    forall k :: 0 <= k < |t| ==> t[k].amount == 0.0
  }

  lemma {:induction false} SetZeroKeepsKeyedZero(t: Table, id: string)
    requires Keyed(t) && AllZero(t)
    ensures Keyed(Set(t, id, 0.0)) && AllZero(Set(t, id, 0.0))
    ensures forall x :: x in Ids(Set(t, id, 0.0)) <==> x in Ids(t) || x == id
  {
    var r := Set(t, id, 0.0);
    if id in Ids(t) {
      SetInPlace(t, id, 0.0);
    } else {
      assert Ids(r) == Ids(t) + [id];
      forall a, b | 0 <= a < b < |r| ensures r[a].id != r[b].id {
        if b == |t| { assert Ids(t)[a] == r[a].id; }
      }
    }
  }

  /** Overwriting an existing key changes that entry's amount only. */
  lemma {:induction false} SetInPlace(t: Table, id: string, v: real)
    requires id in Ids(t)
    ensures |Set(t, id, v)| == |t|
    ensures forall k :: 0 <= k < |t| ==> Set(t, id, v)[k].id == t[k].id
    ensures forall k :: 0 <= k < |t| ==> Set(t, id, v)[k].amount == t[k].amount || Set(t, id, v)[k].amount == v
  {
    if t[0].id != id {
      TailIds(t, id);
      SetInPlace(t[1..], id, v);
    }
  }

  lemma {:induction false} ZeroFromKeyedZero(t: Table, ids: seq<string>)
    requires Keyed(t) && AllZero(t)
    ensures Keyed(ZeroFrom(t, ids)) && AllZero(ZeroFrom(t, ids))
    ensures forall x :: x in Ids(ZeroFrom(t, ids)) <==> x in Ids(t) || x in ids
    decreases |ids|
  {
    if ids != [] {
      var t' := Set(t, ids[0], 0.0);
      SetZeroKeepsKeyedZero(t, ids[0]);
      ZeroFromKeyedZero(t', ids[1..]);
      var r := ZeroFrom(t', ids[1..]);
      assert ZeroFrom(t, ids) == r;
      forall x ensures x in Ids(r) <==> x in Ids(t) || x in ids {
        assert x in ids <==> x == ids[0] || x in ids[1..] by {
          assert ids == [ids[0]] + ids[1..];
        }
      }
    }
  }

  lemma {:induction false} ZeroFromDistinct(t: Table, ids: seq<string>)
    requires forall a, b :: 0 <= a < b < |ids| ==> ids[a] != ids[b]
    requires forall k :: 0 <= k < |ids| ==> ids[k] !in Ids(t)
    ensures Ids(ZeroFrom(t, ids)) == Ids(t) + ids
    decreases |ids|
  {
    if ids != [] {
      var t' := Set(t, ids[0], 0.0);
      assert t' == t + [Entry(ids[0], 0.0)];
      assert Ids(t') == Ids(t) + [ids[0]];
      forall k | 0 <= k < |ids[1..]| ensures ids[1..][k] !in Ids(t') {
        assert ids[1..][k] == ids[k + 1];
      }
      ZeroFromDistinct(t', ids[1..]);
      assert Ids(t) + [ids[0]] + ids[1..] == Ids(t) + ids;
    }
  }

  lemma {:induction false} SumAllZero(t: Table)
    requires AllZero(t)
    ensures Sum(t) == 0.0
  {
    if t != [] {
      SumAllZero(t[1..]);
    }
  }

  /** The freshly initialised table: one zero entry per distinct
      participant id, nobody else, no key twice; in participant order when
      the ids are distinct. */
  lemma InitFacts(ids: seq<string>)
    ensures Keyed(Init(ids)) && AllZero(Init(ids)) && Sum(Init(ids)) == 0.0
    ensures forall x :: x in Ids(Init(ids)) <==> x in ids
    ensures (forall a, b :: 0 <= a < b < |ids| ==> ids[a] != ids[b]) ==> Ids(Init(ids)) == ids
  {
    ZeroFromKeyedZero([], ids);
    SumAllZero(Init(ids));
    if forall a, b :: 0 <= a < b < |ids| ==> ids[a] != ids[b] {
      ZeroFromDistinct([], ids);
    }
  }

  // ---------------------------------------------------------------------------
  // Accumulation: `balances[payer] += amount;
  //                sharers.forEach(p => { balances[p] -= amount / sharers.length })`

  /** Every id of `ids` has an entry in `t`. */
  predicate AllIn(ids: seq<string>, t: Table) {
    forall k :: 0 <= k < |ids| ==> ids[k] in Ids(t)
  }

  lemma AllInTail(ids: seq<string>, t: Table, t': Table)
    requires ids != [] && AllIn(ids, t) && Ids(t') == Ids(t)
    ensures AllIn(ids[1..], t')
  {
    forall k | 0 <= k < |ids[1..]| ensures ids[1..][k] in Ids(t') {
      assert ids[1..][k] == ids[k + 1];
    }
  }

  /** Debits `share` from each id of `ids`, in order, counting duplicates. */
  function Debit(t: Table, ids: seq<string>, share: real): Table
    requires AllIn(ids, t)
    decreases |ids|
  {
    if ids == [] then t
    else
      AllInTail(ids, t, Add(t, ids[0], -share));
      Debit(Add(t, ids[0], -share), ids[1..], share)
  }

  predicate Known(t: Table, p: Posting) {
    p.payer in Ids(t) && |p.sharers| > 0 && AllIn(p.sharers, t)
  }

  /** `expense.amount / sharers.length`: what each sharer is debited. */
  function Share(p: Posting): real
    requires |p.sharers| > 0
  {
    p.amount / |p.sharers| as real
  }

  /** The sharers together are debited exactly the amount paid. */
  lemma ShareTimesSharers(p: Posting)
    requires |p.sharers| > 0
    ensures Times(|p.sharers|, Share(p)) == p.amount
  {
    TimesIsProduct(|p.sharers|, Share(p));
    ShareTimesCount(p.amount, |p.sharers| as real);
  }

  function Post(t: Table, p: Posting): (r: Table)
    requires Known(t, p)
    ensures Ids(r) == Ids(t)
  {
    DebitIds(Add(t, p.payer, p.amount), p.sharers, Share(p));
    Debit(Add(t, p.payer, p.amount), p.sharers, Share(p))
  }

  lemma {:induction false} DebitIds(t: Table, ids: seq<string>, share: real)
    requires AllIn(ids, t)
    ensures Ids(Debit(t, ids, share)) == Ids(t)
    decreases |ids|
  {
    if ids != [] {
      AllInTail(ids, t, Add(t, ids[0], -share));
      DebitIds(Add(t, ids[0], -share), ids[1..], share);
    }
  }

  /** `n * x` as repeated addition, so that the sum lemmas stay linear. */
  function Times(n: nat, x: real): real {
    if n == 0 then 0.0 else Times(n - 1, x) + x
  }

  lemma {:induction false} TimesIsProduct(n: nat, x: real)
    ensures Times(n, x) == n as real * x
  {
    if n > 0 {
      TimesIsProduct(n - 1, x);
    }
  }

  lemma {:induction false} DebitSum(t: Table, ids: seq<string>, share: real)
    requires AllIn(ids, t)
    ensures Sum(Debit(t, ids, share)) == Sum(t) - Times(|ids|, share)
    decreases |ids|
  {
    if ids != [] {
      var t' := Add(t, ids[0], -share);
      AllInTail(ids, t, t');
      DebitSum(t', ids[1..], share);
    }
  }

  /** One expense leaves the total of all balances unchanged: the payer is
      credited exactly what the sharers are debited in all, a repeated sharer
      being debited once per occurrence. */
  lemma PostSum(t: Table, p: Posting)
    requires Known(t, p)
    ensures Sum(Post(t, p)) == Sum(t)
  {
    var credited := Add(t, p.payer, p.amount);
    assert Sum(credited) == Sum(t) + p.amount;
    DebitSum(credited, p.sharers, Share(p));
    ShareTimesSharers(p);
  }

  /** Applies one expense: the body of `expenses.forEach(expense => ...)`. */
  method ApplyExpense(t: Table, p: Posting) returns (r: Table)
    requires Known(t, p)
    ensures r == Post(t, p)
  {
    var share := Share(p);
    r := Add(t, p.payer, p.amount);
    var i := 0;
    while i < |p.sharers|
      invariant 0 <= i <= |p.sharers|
      invariant AllIn(p.sharers, r)
      invariant Debit(r, p.sharers[i..], share) == Post(t, p)
    {
      DebitStep(r, p.sharers, i, share);
      r := Add(r, p.sharers[i], -share);
      i := i + 1;
    }
  }

  /** One turn of the loop over the sharers. */
  lemma DebitStep(t: Table, ids: seq<string>, i: int, share: real)
    requires 0 <= i < |ids| && AllIn(ids, t)
    ensures AllIn(ids, Add(t, ids[i], -share))
    ensures Debit(t, ids[i..], share) == Debit(Add(t, ids[i], -share), ids[i + 1..], share)
  {
    assert ids[i..][1..] == ids[i + 1..];
  }

  predicate AllKnown(t: Table, ps: seq<Posting>) {
    forall k :: 0 <= k < |ps| ==> Known(t, ps[k])
  }

  /** All expenses applied in input order. */
  function Accumulate(t: Table, ps: seq<Posting>): Table
    requires AllKnown(t, ps)
    decreases |ps|
  {
    if ps == [] then t
    else
      assert AllKnown(Post(t, ps[0]), ps[1..]) by {
        assert forall k :: 0 <= k < |ps[1..]| ==> ps[1..][k] == ps[k + 1];
      }
      Accumulate(Post(t, ps[0]), ps[1..])
  }

  /** The total of the posted amounts, added up in posting order. */
  function Paid(ps: seq<Posting>): real {
    if ps == [] then 0.0 else Paid(ps[..|ps| - 1]) + ps[|ps| - 1].amount
  }

  /** One turn of the loop over the expenses. */
  lemma AccumulateStep(t: Table, ps: seq<Posting>, i: int)
    requires 0 <= i < |ps| && AllKnown(t, ps[i..])
    ensures Known(t, ps[i]) && AllKnown(Post(t, ps[i]), ps[i + 1..])
    ensures Accumulate(t, ps[i..]) == Accumulate(Post(t, ps[i]), ps[i + 1..])
  {
    assert ps[i..][0] == ps[i] && ps[i..][1..] == ps[i + 1..];
  }

  lemma {:induction false} AccumulateIds(t: Table, ps: seq<Posting>)
    requires AllKnown(t, ps)
    ensures Ids(Accumulate(t, ps)) == Ids(t)
    decreases |ps|
  {
    if ps != [] {
      assert forall k :: 0 <= k < |ps[1..]| ==> ps[1..][k] == ps[k + 1];
      AccumulateIds(Post(t, ps[0]), ps[1..]);
    }
  }

  /** Zero-sum: processing any list of known-participant expenses leaves the
      sum of all balances where it started. */
  lemma {:induction false} AccumulateSum(t: Table, ps: seq<Posting>)
    requires AllKnown(t, ps)
    ensures Sum(Accumulate(t, ps)) == Sum(t)
    decreases |ps|
  {
    if ps != [] {
      PostSum(t, ps[0]);
      assert forall k :: 0 <= k < |ps[1..]| ==> ps[1..][k] == ps[k + 1];
      AccumulateSum(Post(t, ps[0]), ps[1..]);
    }
  }

  /** The balance table after every expense: keyed, one entry per distinct
      id, and zero-sum, since each expense credits its payer exactly what
      it debits its sharers, duplicates among the sharers included. */
  lemma PostedFacts(ids: seq<string>, ps: seq<Posting>)
    requires AllKnown(Init(ids), ps)
    ensures Keyed(Accumulate(Init(ids), ps))
    ensures |Accumulate(Init(ids), ps)| <= |ids|
    ensures forall x :: x in Ids(Accumulate(Init(ids), ps)) <==> x in ids
    ensures Sum(Accumulate(Init(ids), ps)) == 0.0
  {
    InitFacts(ids);
    ZeroFromLength([], ids);
    AccumulateIds(Init(ids), ps);
    AccumulateSum(Init(ids), ps);
    KeyedSameIds(Init(ids), Accumulate(Init(ids), ps));
  }

  lemma KeyedSameIds(t: Table, r: Table)
    requires Keyed(t) && Ids(r) == Ids(t)
    ensures Keyed(r)
  {
    forall a, b | 0 <= a < b < |r| ensures r[a].id != r[b].id {
      assert Ids(r)[a] == Ids(t)[a] && Ids(r)[b] == Ids(t)[b];
    }
  }

  // ---------------------------------------------------------------------------
  // Classification: `filter`, `map` and the creditor/debtor split

  /** `entries.filter(([_, b]) => b > bound)`. */
  function Above(t: Table, bound: real): Table {
    if t == [] then []
    else (if t[0].amount > bound then [t[0]] else []) + Above(t[1..], bound)
  }

  /** Nothing passes the upper filter when no entry is above the bound. */
  lemma {:induction false} AboveNone(t: Table, bound: real)
    requires forall k :: 0 <= k < |t| ==> t[k].amount <= bound
    ensures Above(t, bound) == []
  {
    if t != [] {
      assert forall k :: 0 <= k < |t[1..]| ==> t[1..][k] == t[k + 1];
      AboveNone(t[1..], bound);
    }
  }

  /** `entries.filter(([_, b]) => b < bound)`. */
  function Below(t: Table, bound: real): Table {
    if t == [] then []
    else (if t[0].amount < bound then [t[0]] else []) + Below(t[1..], bound)
  }

  /** With a bound of at least 0 an entry lands on at most one side. */
  lemma {:induction false} SplitLength(t: Table, bound: real)
    requires bound >= 0.0
    ensures |Above(t, bound)| + |Below(t, -bound)| <= |t|
  {
    if t != [] {
      SplitLength(t[1..], bound);
    }
  }

  /** In a keyed table the recorded amount of an id is that of its one entry. */
  lemma {:induction false} KeyedBalance(t: Table, e: Entry)
    requires Keyed(t) && e in t
    ensures Balance(t, e.id) == e.amount
  {
    if t[0] != e {
      assert e in t[1..];
      var k :| 0 <= k < |t[1..]| && t[1..][k] == e;
      assert t[k + 1] == e && t[0].id != t[k + 1].id;
      TailKeyed(t);
      KeyedBalance(t[1..], e);
    }
  }

  /** Every entry with its balance rounded to the cent by `Math.round`. */
  function Rounded(t: Table): (r: Table)
    ensures |r| == |t|
    ensures forall k :: 0 <= k < |t| ==> r[k] == Entry(t[k].id, Round2(t[k].amount))
  {
    seq(|t|, k requires 0 <= k < |t| => Entry(t[k].id, Round2(t[k].amount)))
  }

  /** Every entry with its amount negated (`-roundedBalance`). */
  function Negated(t: Table): (r: Table)
    ensures |r| == |t|
    ensures forall k :: 0 <= k < |t| ==> r[k] == Entry(t[k].id, -t[k].amount)
  {
    seq(|t|, k requires 0 <= k < |t| => Entry(t[k].id, -t[k].amount))
  }

  /** Writing an entry back commutes with negating the table. */
  lemma NegatedUpdate(t: Table, j: int, f: Entry)
    requires 0 <= j < |t|
    ensures Negated(t[j := f]) == Negated(t)[j := Entry(f.id, -f.amount)]
  {
    var l, r := Negated(t[j := f]), Negated(t)[j := Entry(f.id, -f.amount)];
    assert |l| == |r|;
    forall k | 0 <= k < |l| ensures l[k] == r[k] {
      if k != j { assert t[j := f][k] == t[k]; }
    }
  }

  /** Every entry with `Math.abs` applied to its amount. */
  function Absolute(t: Table): (r: Table)
    ensures |r| == |t|
    ensures forall k :: 0 <= k < |t| ==> r[k] == Entry(t[k].id, Abs(t[k].amount))
  {
    seq(|t|, k requires 0 <= k < |t| => Entry(t[k].id, Abs(t[k].amount)))
  }

  /** Rounding the table rounds each person's recorded amount. */
  lemma {:induction false} BalanceRounded(t: Table, who: string)
    ensures Balance(Rounded(t), who) == Round2(Balance(t, who))
  {
    if t == [] {
      assert (0.0 * 100.0 + 0.5).Floor == 0;
    } else {
      assert Rounded(t)[1..] == Rounded(t[1..]);
      BalanceRounded(t[1..], who);
    }
  }

  /** `r` is `t` with some entries left out and the others in their order. */
  predicate Subsequence(r: Table, t: Table)
    decreases |t|
  {
    r == [] || (t != [] && (Subsequence(r, t[1..]) || (r[0] == t[0] && Subsequence(r[1..], t[1..]))))
  }

  /** The filters keep exactly the entries past the bound, in table order,
      and keep the table keyed. */
  lemma FilterFacts(t: Table, bound: real)
    ensures forall e :: e in Above(t, bound) <==> e in t && e.amount > bound
    ensures forall e :: e in Below(t, bound) <==> e in t && e.amount < bound
    ensures Subsequence(Above(t, bound), t) && Subsequence(Below(t, bound), t)
    ensures Keyed(t) ==> Keyed(Above(t, bound)) && Keyed(Below(t, bound))
  {
    AboveFacts(t, bound);
    BelowFacts(t, bound);
    AboveInOrder(t, bound);
    BelowInOrder(t, bound);
  }

  lemma {:induction false} AboveInOrder(t: Table, bound: real)
    ensures Subsequence(Above(t, bound), t)
  {
    if t != [] {
      AboveInOrder(t[1..], bound);
      var r := Above(t, bound);
      if t[0].amount > bound {
        assert r[0] == t[0] && r[1..] == Above(t[1..], bound);
      } else {
        assert r == Above(t[1..], bound);
      }
    }
  }

  lemma {:induction false} AboveFacts(t: Table, bound: real)
    ensures forall e :: e in Above(t, bound) <==> e in t && e.amount > bound
    ensures Keyed(t) ==> Keyed(Above(t, bound))
  {
    if t != [] {
      AboveFacts(t[1..], bound);
      assert t == [t[0]] + t[1..];
      if Keyed(t) {
        TailKeyed(t);
        ConsKeyed(t[0], Above(t[1..], bound), t[1..]);
      }
    }
  }

  lemma {:induction false} BelowInOrder(t: Table, bound: real)
    ensures Subsequence(Below(t, bound), t)
  {
    if t != [] {
      BelowInOrder(t[1..], bound);
      var r := Below(t, bound);
      if t[0].amount < bound {
        assert r[0] == t[0] && r[1..] == Below(t[1..], bound);
      } else {
        assert r == Below(t[1..], bound);
      }
    }
  }

  lemma {:induction false} BelowFacts(t: Table, bound: real)
    ensures forall e :: e in Below(t, bound) <==> e in t && e.amount < bound
    ensures Keyed(t) ==> Keyed(Below(t, bound))
  {
    if t != [] {
      BelowFacts(t[1..], bound);
      assert t == [t[0]] + t[1..];
      if Keyed(t) {
        TailKeyed(t);
        ConsKeyed(t[0], Below(t[1..], bound), t[1..]);
      }
    }
  }

  lemma TailKeyed(s: seq<Entry>)
    requires s != [] && Keyed(s)
    ensures Keyed(s[1..]) && s[0].id !in Ids(s[1..])
  {
    forall k | 0 <= k < |s[1..]| ensures Ids(s[1..])[k] != s[0].id {
      assert s[k + 1].id != s[0].id;
    }
    forall a, b | 0 <= a < b < |s[1..]| ensures s[1..][a].id != s[1..][b].id {
      assert s[a + 1].id != s[b + 1].id;
    }
  }

  /** Putting back the head of a keyed table in front of a keyed selection of
      its tail gives a keyed table. */
  lemma ConsKeyed(x: Entry, sel: Table, rest: Table)
    requires Keyed([x] + rest) && Keyed(sel)
    requires forall e :: e in sel ==> e in rest
    ensures Keyed([x] + sel)
  {
    var r := [x] + sel;
    forall a, b | 0 <= a < b < |r| ensures r[a].id != r[b].id {
      if a == 0 {
        assert r[b] == sel[b - 1] && r[b] in rest;
        var k :| 0 <= k < |rest| && rest[k] == r[b];
        var xr := [x] + rest;
        assert xr[0] == x && xr[k + 1] == r[b];
        assert xr[0].id != xr[k + 1].id;
      } else {
        assert r[a] == sel[a - 1] && r[b] == sel[b - 1];
        assert sel[a - 1].id != sel[b - 1].id;
      }
    }
  }

  /** In a keyed table an id determines its entry. */
  lemma KeyedUnique(t: Table, e1: Entry, e2: Entry)
    requires Keyed(t) && e1 in t && e2 in t
    ensures e1.id == e2.id ==> e1 == e2
  {
    var i :| 0 <= i < |t| && t[i] == e1;
    var j :| 0 <= j < |t| && t[j] == e2;
    assert i != j ==> t[i].id != t[j].id;
  }

  /** `Above` with a positive bound and `Below` with its negation never
      share an id for a keyed table: nobody is both creditor and debtor. */
  lemma Disjoint(t: Table, bound: real)
    requires Keyed(t) && bound >= 0.0
    ensures forall x :: x in Ids(Above(t, bound)) ==> x !in Ids(Below(t, -bound))
  {
    AboveFacts(t, bound);
    BelowFacts(t, -bound);
    var up, down := Above(t, bound), Below(t, -bound);
    forall x | x in Ids(up) ensures x !in Ids(down) {
      var a :| 0 <= a < |up| && Ids(up)[a] == x;
      var ea := up[a];
      assert ea in up;
      forall b | 0 <= b < |down| ensures Ids(down)[b] != x {
        var eb := down[b];
        assert eb in down;
        assert eb != ea;
        KeyedUnique(t, ea, eb);
      }
    }
  }

  lemma NegatedFacts(t: Table)
    ensures Ids(Negated(t)) == Ids(t)
    ensures forall e :: e in Negated(t) <==> Entry(e.id, -e.amount) in t
    ensures Keyed(t) ==> Keyed(Negated(t))
  {
    var r := Negated(t);
    forall e ensures e in r <==> Entry(e.id, -e.amount) in t {
      if e in r {
        var k :| 0 <= k < |r| && r[k] == e;
        assert t[k] == Entry(e.id, -e.amount);
      }
      if Entry(e.id, -e.amount) in t {
        var k :| 0 <= k < |t| && t[k] == Entry(e.id, -e.amount);
        assert r[k] == e;
      }
    }
    assert Ids(r) == Ids(t);
  }

  /** On entries that are all negative, `Math.abs` is negation. */
  lemma AbsoluteOfNegative(t: Table)
    requires forall k :: 0 <= k < |t| ==> t[k].amount < 0.0
    ensures Absolute(t) == Negated(t)
  {
  }

  lemma AboveSnoc(s: Table, x: Entry, bound: real)
    ensures Above(s + [x], bound) == Above(s, bound) + (if x.amount > bound then [x] else [])
  {
    if s != [] {
      assert (s + [x])[1..] == s[1..] + [x];
      AboveSnoc(s[1..], x, bound);
    }
  }

  lemma BelowSnoc(s: Table, x: Entry, bound: real)
    ensures Below(s + [x], bound) == Below(s, bound) + (if x.amount < bound then [x] else [])
  {
    if s != [] {
      assert (s + [x])[1..] == s[1..] + [x];
      BelowSnoc(s[1..], x, bound);
    }
  }

  lemma NegatedCons(x: Entry, s: Table)
    ensures Negated([x] + s) == [Entry(x.id, -x.amount)] + Negated(s)
  {
  }

  lemma NegatedSnoc(s: Table, x: Entry)
    ensures Negated(s + [x]) == Negated(s) + [Entry(x.id, -x.amount)]
  {
  }
}
