/** The greedy creditor/debtor matching shared by all four settlement
    variants, as a specification function on the two sorted lists. Every
    variant's sweep loop is proved equal to `Sweep` under its own `Rule`, and
    the properties below are proved once, for every rule. */
module Greedy {
  import opened Money
  import opened Ledger

  /** A transfer: `from` (a debtor) pays `amount` to `to` (a creditor). */
  datatype Settlement = Settlement(from: string, to: string, amount: real)

  /** What distinguishes the sweeps: whether a party is passed over when its
      remainder is `<= 0.01` (inclusive) or `< 0.01`, and whether emitted
      amounts go through `Math.round(x * 100) / 100`. */
  datatype Rule = Rule(inclusive: bool, rounded: bool)

  predicate Closed(remaining: real, rule: Rule) {
    if rule.inclusive then remaining <= Epsilon else remaining < Epsilon
  }

  function Emitted(m: real, rule: Rule): real {
    if rule.rounded then Round2(m) else m
  }

  /** The list after `m` is settled against its front party: the front is
      dropped once closed, and otherwise keeps its remainder. */
  function After(s: seq<Entry>, m: real, rule: Rule): (r: seq<Entry>)
    requires s != []
    ensures |r| == |s| || |r| == |s| - 1
    ensures s[0].amount == m ==> |r| == |s| - 1
  {
    var rest := s[0].amount - m;
    if Closed(rest, rule) then s[1..] else [Entry(s[0].id, rest)] + s[1..]
  }

  /** The transfers the two-index sweep emits for creditors `cs` and
      debtors `ds`, both held as positive amounts: settle the smaller of
      the two front amounts, emit it when above the tolerance, and stop
      when either list runs out. */
  function Sweep(cs: seq<Entry>, ds: seq<Entry>, rule: Rule): seq<Settlement>
    decreases |cs| + |ds|
  {
    if cs == [] || ds == [] then []
    else
      var m := Min(cs[0].amount, ds[0].amount);
      (if m > Epsilon then [Settlement(ds[0].id, cs[0].id, Emitted(m, rule))] else [])
        + Sweep(After(cs, m, rule), After(ds, m, rule), rule)
  }

  /** One step of the sweep: the transfer it emits for the two fronts. */
  function Step(cs: seq<Entry>, ds: seq<Entry>, rule: Rule): seq<Settlement>
    requires cs != [] && ds != []
  {
    var m := Min(cs[0].amount, ds[0].amount);
    if m > Epsilon then [Settlement(ds[0].id, cs[0].id, Emitted(m, rule))] else []
  }

  lemma SweepUnfold(cs: seq<Entry>, ds: seq<Entry>, rule: Rule)
    requires cs != [] && ds != []
    ensures Sweep(cs, ds, rule) == Step(cs, ds, rule)
              + Sweep(After(cs, Min(cs[0].amount, ds[0].amount), rule), After(ds, Min(cs[0].amount, ds[0].amount), rule), rule)
  {
  }

  lemma AppendAssoc(a: seq<Settlement>, b: seq<Settlement>, c: seq<Settlement>)
    ensures (a + b) + c == a + (b + c)
  {
  }

  /** The index form of `After`: writing the remainder back at `i` and
      moving past `i` once it is closed leaves, from the new index on,
      exactly `After` of the old suffix. */
  lemma AdvanceFront(s: seq<Entry>, i: int, m: real, rule: Rule, s': seq<Entry>, i': int)
    requires 0 <= i < |s|
    requires s' == s[i := Entry(s[i].id, s[i].amount - m)]
    requires i' == if Closed(s[i].amount - m, rule) then i + 1 else i
    ensures |s'| == |s| && i <= i' <= |s'|
    ensures s'[i'..] == After(s[i..], m, rule)
  {
    assert s[i..][0] == s[i] && s[i..][1..] == s[i + 1..] == s'[i + 1..];
    if i' == i {
      assert s'[i..] == [s'[i]] + s'[i + 1..];
    }
  }

  /** What one turn of the two-index loop records for fronts `i`, `j`. */
  lemma StepAt(s: seq<Entry>, i: int, t: seq<Entry>, j: int, rule: Rule)
    requires 0 <= i < |s| && 0 <= j < |t|
    ensures Step(s[i..], t[j..], rule)
         == var m := Min(s[i].amount, t[j].amount);
            if m > Epsilon then [Settlement(t[j].id, s[i].id, Emitted(m, rule))] else []
  {
    assert s[i..][0] == s[i] && t[j..][0] == t[j];
  }

  /** One turn of the two-index loop, stated on the loop's invariant:
      if the transfers recorded so far followed by the sweep of the
      suffixes make up `goal`, they still do after the turn records its
      transfer, writes the remainders back and advances past the closed
      fronts. */
  lemma SweepTurn(s: seq<Entry>, i: int, t: seq<Entry>, j: int, rule: Rule, done: seq<Settlement>, goal: seq<Settlement>,
                  m: real, done': seq<Settlement>, e: Entry, i': int, f: Entry, j': int)
    requires 0 <= i < |s| && 0 <= j < |t|
    requires done + Sweep(s[i..], t[j..], rule) == goal
    requires m == Min(s[i].amount, t[j].amount)
    requires done' == done + if m > Epsilon then [Settlement(t[j].id, s[i].id, Emitted(m, rule))] else []
    requires e == Entry(s[i].id, s[i].amount - m) && f == Entry(t[j].id, t[j].amount - m)
    requires i' == if Closed(e.amount, rule) then i + 1 else i
    requires j' == if Closed(f.amount, rule) then j + 1 else j
    ensures i <= i' <= |s| && j <= j' <= |t| && (i < i' || j < j')
    ensures e.amount >= 0.0 && f.amount >= 0.0
    ensures done' + Sweep(s[i := e][i'..], t[j := f][j'..], rule) == goal
  {
    StepAt(s, i, t, j, rule);
    SweepUnfold(s[i..], t[j..], rule);
    assert s[i..][0] == s[i] && t[j..][0] == t[j];
    AdvanceFront(s, i, m, rule, s[i := e], i');
    AdvanceFront(t, j, m, rule, t[j := f], j');
    var step := Step(s[i..], t[j..], rule);
    var rest := Sweep(s[i := e][i'..], t[j := f][j'..], rule);
    assert done' == done + step;
    AppendAssoc(done, step, rest);
  }

  predicate Positive(s: seq<Entry>) {
    forall k :: 0 <= k < |s| ==> s[k].amount > 0.0
  }

  predicate AllCents(s: seq<Entry>) {
    forall k :: 0 <= k < |s| ==> IsCents(s[k].amount)
  }

  /** What `from` pays in all. */
  function PaidBy(ss: seq<Settlement>, who: string): real {
    if ss == [] then 0.0
    else (if ss[0].from == who then ss[0].amount else 0.0) + PaidBy(ss[1..], who)
  }

  /** What `to` receives in all. */
  function ReceivedBy(ss: seq<Settlement>, who: string): real {
    if ss == [] then 0.0
    else (if ss[0].to == who then ss[0].amount else 0.0) + ReceivedBy(ss[1..], who)
  }

  // ---------------------------------------------------------------------------

  /** Transfer count: at most one fewer than the number of parties, and none
      when either side is empty. */
  lemma {:induction false} SweepBound(cs: seq<Entry>, ds: seq<Entry>, rule: Rule)
    ensures cs == [] || ds == [] ==> Sweep(cs, ds, rule) == []
    ensures cs != [] && ds != [] ==> |Sweep(cs, ds, rule)| < |cs| + |ds|
    decreases |cs| + |ds|
  {
    if cs != [] && ds != [] {
      var m := Min(cs[0].amount, ds[0].amount);
      SweepBound(After(cs, m, rule), After(ds, m, rule), rule);
    }
  }

  lemma AfterIds(s: seq<Entry>, m: real, rule: Rule)
    requires s != []
    ensures forall x :: x in Ids(After(s, m, rule)) ==> x in Ids(s)
  {
    var r := After(s, m, rule);
    forall x | x in Ids(r) ensures x in Ids(s) {
      var k :| 0 <= k < |r| && Ids(r)[k] == x;
      if k > 0 || Closed(s[0].amount - m, rule) {
        var k' := if Closed(s[0].amount - m, rule) then k + 1 else k;
        assert Ids(s)[k'] == x;
      } else {
        assert Ids(s)[0] == x;
      }
    }
  }

  /** Every transfer goes from a debtor to a creditor; with disjoint sides,
      never from a party to itself. */
  lemma {:induction false} SweepEndpoints(cs: seq<Entry>, ds: seq<Entry>, rule: Rule)
    ensures forall k :: 0 <= k < |Sweep(cs, ds, rule)| ==>
              Sweep(cs, ds, rule)[k].from in Ids(ds) && Sweep(cs, ds, rule)[k].to in Ids(cs)
    ensures (forall x :: x in Ids(cs) ==> x !in Ids(ds)) ==>
              forall k :: 0 <= k < |Sweep(cs, ds, rule)| ==> Sweep(cs, ds, rule)[k].from != Sweep(cs, ds, rule)[k].to
    decreases |cs| + |ds|
  {
    if cs != [] && ds != [] {
      var m := Min(cs[0].amount, ds[0].amount);
      var cs', ds' := After(cs, m, rule), After(ds, m, rule);
      SweepEndpoints(cs', ds', rule);
      AfterIds(cs, m, rule);
      AfterIds(ds, m, rule);
      assert Ids(cs)[0] == cs[0].id && Ids(ds)[0] == ds[0].id;
    }
  }

  /** Every emitted amount is above the tolerance before rounding, so at
      least one cent after it; rounded amounts are whole cents. */
  lemma {:induction false} SweepAmounts(cs: seq<Entry>, ds: seq<Entry>, rule: Rule)
    ensures forall k :: 0 <= k < |Sweep(cs, ds, rule)| ==> Sweep(cs, ds, rule)[k].amount >= Epsilon
    ensures !rule.rounded ==> forall k :: 0 <= k < |Sweep(cs, ds, rule)| ==> Sweep(cs, ds, rule)[k].amount > Epsilon
    ensures rule.rounded ==> forall k :: 0 <= k < |Sweep(cs, ds, rule)| ==> IsCents(Sweep(cs, ds, rule)[k].amount)
    decreases |cs| + |ds|
  {
    if cs != [] && ds != [] {
      var m := Min(cs[0].amount, ds[0].amount);
      SweepAmounts(After(cs, m, rule), After(ds, m, rule), rule);
      if m > Epsilon && rule.rounded {
        RoundAboveEpsilon(m);
      }
    }
  }

  lemma AfterCents(s: seq<Entry>, m: real, rule: Rule)
    requires s != [] && AllCents(s) && IsCents(m)
    ensures AllCents(After(s, m, rule))
  {
    CentsDifference(s[0].amount, m);
  }

  /** On whole-cent inputs, as the cent-rounded balances are, every amount
      the sweep meets is already whole cents, so rounding what it emits
      changes nothing. */
  lemma {:induction false} RoundingIsIdentityOnCents(cs: seq<Entry>, ds: seq<Entry>, inclusive: bool)
    requires AllCents(cs) && AllCents(ds)
    ensures Sweep(cs, ds, Rule(inclusive, true)) == Sweep(cs, ds, Rule(inclusive, false))
    decreases |cs| + |ds|
  {
    if cs != [] && ds != [] {
      var r, u := Rule(inclusive, true), Rule(inclusive, false);
      var m := Min(cs[0].amount, ds[0].amount);
      AfterCents(cs, m, r);
      AfterCents(ds, m, r);
      RoundingIsIdentityOnCents(After(cs, m, r), After(ds, m, r), inclusive);
      RoundCentsIsIdentity(m);
      assert After(cs, m, r) == After(cs, m, u) && After(ds, m, r) == After(ds, m, u);
    }
  }

  /** Each transfer with its amount rounded to the cent. */
  function RoundedAmounts(ss: seq<Settlement>): (r: seq<Settlement>)
    ensures |r| == |ss|
    ensures forall k :: 0 <= k < |ss| ==> r[k] == Settlement(ss[k].from, ss[k].to, Round2(ss[k].amount))
  {
    seq(|ss|, k requires 0 <= k < |ss| => Settlement(ss[k].from, ss[k].to, Round2(ss[k].amount)))
  }

  /** Rounding touches nothing but the emitted amounts: the rounded sweep
      makes the same transfers as the unrounded one, each amount rounded to
      the cent. */
  lemma {:induction false} RoundedSweep(cs: seq<Entry>, ds: seq<Entry>, inclusive: bool)
    ensures Sweep(cs, ds, Rule(inclusive, true)) == RoundedAmounts(Sweep(cs, ds, Rule(inclusive, false)))
    decreases |cs| + |ds|
  {
    if cs != [] && ds != [] {
      var r, u := Rule(inclusive, true), Rule(inclusive, false);
      var m := Min(cs[0].amount, ds[0].amount);
      assert After(cs, m, r) == After(cs, m, u) && After(ds, m, r) == After(ds, m, u);
      RoundedSweep(After(cs, m, r), After(ds, m, r), inclusive);
      var tu := Sweep(After(cs, m, u), After(ds, m, u), u);
      if m > Epsilon {
        var h := Settlement(ds[0].id, cs[0].id, m);
        assert Sweep(cs, ds, u) == [h] + tu;
        RoundedCons(h, tu);
      }
    }
  }

  lemma RoundedCons(h: Settlement, ss: seq<Settlement>)
    ensures RoundedAmounts([h] + ss) == [Settlement(h.from, h.to, Round2(h.amount))] + RoundedAmounts(ss)
  {
    var l, r := RoundedAmounts([h] + ss), [Settlement(h.from, h.to, Round2(h.amount))] + RoundedAmounts(ss);
    assert |l| == |r|;
    forall k | 0 <= k < |l| ensures l[k] == r[k] {
      if k > 0 { assert ([h] + ss)[k] == ss[k - 1]; }
    }
  }

  lemma BalanceAbsent(s: seq<Entry>, x: string)
    requires x !in Ids(s)
    ensures Balance(s, x) == 0.0
  {
    if s != [] {
      assert Ids(s)[0] == s[0].id;
      assert x !in Ids(s[1..]) by {
        forall k | 0 <= k < |s[1..]| ensures Ids(s[1..])[k] != x { assert Ids(s)[k + 1] == s[k + 1].id; }
      }
      BalanceAbsent(s[1..], x);
    }
  }

  /** Settling `0 <= m <= front` keeps the list keyed and positive, lowers
      the front party's recorded amount by at least `m`, and leaves every
      other party's amount as it was. */
  lemma AfterBalance(s: seq<Entry>, m: real, rule: Rule)
    requires s != [] && Keyed(s) && Positive(s) && 0.0 <= m <= s[0].amount
    ensures Keyed(After(s, m, rule)) && Positive(After(s, m, rule))
    ensures forall x :: Balance(After(s, m, rule), x)
              <= if x == s[0].id then s[0].amount - m else Balance(s, x)
    ensures forall x :: x != s[0].id ==> Balance(After(s, m, rule), x) == Balance(s, x)
  {
    var rest := s[0].amount - m;
    if Closed(rest, rule) {
      assert After(s, m, rule) == s[1..];
      DropFront(s);
    } else {
      assert After(s, m, rule) == [Entry(s[0].id, rest)] + s[1..];
      KeepFront(s, rest);
    }
  }

  lemma DropFront(s: seq<Entry>)
    requires s != [] && Keyed(s) && Positive(s)
    ensures Keyed(s[1..]) && Positive(s[1..])
    ensures Balance(s[1..], s[0].id) == 0.0
    ensures forall x :: x != s[0].id ==> Balance(s[1..], x) == Balance(s, x)
  {
    TailKeyed(s);
    BalanceAbsent(s[1..], s[0].id);
    assert forall k :: 0 <= k < |s[1..]| ==> s[1..][k] == s[k + 1];
  }

  lemma KeepFront(s: seq<Entry>, v: real)
    requires s != [] && Keyed(s) && Positive(s) && v > 0.0
    ensures Keyed([Entry(s[0].id, v)] + s[1..]) && Positive([Entry(s[0].id, v)] + s[1..])
    ensures Balance([Entry(s[0].id, v)] + s[1..], s[0].id) == v
    ensures forall x :: x != s[0].id ==> Balance([Entry(s[0].id, v)] + s[1..], x) == Balance(s, x)
  {
    var r := [Entry(s[0].id, v)] + s[1..];
    assert r[1..] == s[1..];
    forall a, b | 0 <= a < b < |r| ensures r[a].id != r[b].id {
      assert r[b] == s[b];
      if a > 0 { assert r[a] == s[a]; }
    }
    forall k | 0 <= k < |r| ensures r[k].amount > 0.0 {
      if k > 0 { assert r[k] == s[k]; }
    }
  }

  /** Conservation for the unrounded sweep: no debtor pays more than it
      owes and no creditor receives more than it is owed. */
  lemma {:induction false} SweepConserves(cs: seq<Entry>, ds: seq<Entry>, inclusive: bool, who: string)
    requires Keyed(cs) && Keyed(ds) && Positive(cs) && Positive(ds)
    ensures PaidBy(Sweep(cs, ds, Rule(inclusive, false)), who) <= Balance(ds, who)
    ensures ReceivedBy(Sweep(cs, ds, Rule(inclusive, false)), who) <= Balance(cs, who)
    decreases |cs| + |ds|
  {
    var rule := Rule(inclusive, false);
    if cs == [] || ds == [] {
      assert Sweep(cs, ds, rule) == [];
      if cs != [] { PositiveBalance(cs, who); }
      if ds != [] { PositiveBalance(ds, who); }
    } else {
      var m := Min(cs[0].amount, ds[0].amount);
      var cs', ds' := After(cs, m, rule), After(ds, m, rule);
      AfterBalance(cs, m, rule);
      AfterBalance(ds, m, rule);
      SweepConserves(cs', ds', inclusive, who);
      var rest := Sweep(cs', ds', rule);
      var ss := Sweep(cs, ds, rule);
      if m > Epsilon {
        assert ss == [Settlement(ds[0].id, cs[0].id, m)] + rest;
        assert ss[1..] == rest;
      } else {
        assert ss == rest;
      }
    }
  }

  lemma PositiveBalance(s: seq<Entry>, who: string)
    requires Positive(s)
    ensures Balance(s, who) >= 0.0
  {
    if s != [] {
      assert Positive(s[1..]) by {
        forall k | 0 <= k < |s[1..]| ensures s[1..][k].amount > 0.0 { assert s[1..][k] == s[k + 1]; }
      }
      PositiveBalance(s[1..], who);
    }
  }
}
