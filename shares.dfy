/** Each person's balance in closed form: what they paid less the shares
    they were debited, summed over the expenses in order. */
module Shares {
  import opened Money
  import opened Ledger


  /** What debiting `share` from each of `ids` takes from `x`: one share
      for each time `x` occurs in `ids`. */
  function Deduction(x: string, ids: seq<string>, share: real): real {
    if ids == [] then 0.0 else (if ids[0] == x then share else 0.0) + Deduction(x, ids[1..], share)
  }

  lemma DeductionPair(x: string, y: string, z: string, share: real)
    ensures Deduction(x, [y, z], share) == (if x == y then share else 0.0) + (if x == z then share else 0.0)
  {
    assert [y, z][1..] == [z] && [z][1..] == [];
    assert Deduction(x, [y, z], share) == (if x == y then share else 0.0) + Deduction(x, [z], share);
    assert Deduction(x, [z], share) == (if x == z then share else 0.0) + Deduction(x, [], share);
  }

  /** Every expense has at least one sharer. */
  predicate Shared(ps: seq<Posting>) {
    forall k :: 0 <= k < |ps| ==> |ps[k].sharers| > 0
  }

  /** What one expense does to the balance of `x`: the amount when `x`
      paid it, less one share for each time `x` is among the sharers. */
  function Effect(p: Posting, x: string): real
    requires |p.sharers| > 0
  {
    (if p.payer == x then p.amount else 0.0) - Deduction(x, p.sharers, Share(p))
  }

  /** What all the expenses together do to the balance of `x`. */
  function Net(ps: seq<Posting>, x: string): real
    requires Shared(ps)
  {
    if ps == [] then 0.0 else Effect(ps[0], x) + Net(ps[1..], x)
  }

  /** Debiting `share` from each of `ids` lowers the balance of `x` by one
      share per occurrence of `x` and leaves everybody else's alone. */
  lemma {:induction false} DebitBalance(t: Table, ids: seq<string>, share: real, x: string)
    requires AllIn(ids, t)
    ensures Balance(Debit(t, ids, share), x) == Balance(t, x) - Deduction(x, ids, share)
    decreases |ids|
  {
    if ids != [] {
      var t' := Add(t, ids[0], -share);
      AllInTail(ids, t, t');
      DebitBalance(t', ids[1..], share, x);
      DebitStep(t, ids, share, x);
    }
  }

  /** The inductive step of `DebitBalance`: the first debit, then the rest. */
  lemma DebitStep(t: Table, ids: seq<string>, share: real, x: string)
    requires ids != [] && AllIn(ids, t) && AllIn(ids[1..], Add(t, ids[0], -share))
    requires Balance(Debit(Add(t, ids[0], -share), ids[1..], share), x)
          == Balance(Add(t, ids[0], -share), x) - Deduction(x, ids[1..], share)
    ensures Balance(Debit(t, ids, share), x) == Balance(t, x) - Deduction(x, ids, share)
  {
    AddBalance(t, ids[0], -share, x);
  }


  lemma PostBalance(t: Table, p: Posting, x: string)
    requires Known(t, p)
    ensures Balance(Post(t, p), x) == Balance(t, x) + Effect(p, x)
  {
    AddBalance(t, p.payer, p.amount, x);
    DebitBalance(Add(t, p.payer, p.amount), p.sharers, Share(p), x);
  }

  lemma {:induction false} AccumulateBalance(t: Table, ps: seq<Posting>, x: string)
    requires AllKnown(t, ps)
    ensures Shared(ps)
    ensures Balance(Accumulate(t, ps), x) == Balance(t, x) + Net(ps, x)
    decreases |ps|
  {
    assert Shared(ps) by {
      forall k | 0 <= k < |ps| ensures |ps[k].sharers| > 0 { assert Known(t, ps[k]); }
    }
    if ps != [] {
      var t' := Post(t, ps[0]);
      assert AllKnown(t', ps[1..]) by {
        assert forall k :: 0 <= k < |ps[1..]| ==> ps[1..][k] == ps[k + 1];
      }
      PostBalance(t, ps[0], x);
      AccumulateBalance(t', ps[1..], x);
    }
  }

  lemma {:induction false} ZeroBalance(t: Table, x: string)
    requires AllZero(t)
    ensures Balance(t, x) == 0.0
  {
    if t != [] {
      assert AllZero(t[1..]) by { assert forall k :: 0 <= k < |t[1..]| ==> t[1..][k] == t[k + 1]; }
      ZeroBalance(t[1..], x);
    }
  }

  /** After every expense, each person's balance is what they paid less
      the shares they were debited. */
  lemma PostedBalance(ids: seq<string>, ps: seq<Posting>, x: string)
    requires AllKnown(Init(ids), ps)
    ensures Shared(ps)
    ensures Balance(Accumulate(Init(ids), ps), x) == Net(ps, x)
  {
    InitFacts(ids);
    ZeroBalance(Init(ids), x);
    AccumulateBalance(Init(ids), ps, x);
  }

  /** An expense shared by its payer and one other person leaves the payer
      half the amount up and the other person half the amount down. */
  lemma EffectPair(p: Posting, other: string, x: string)
    requires p.payer != other && p.sharers == [p.payer, other]
    ensures Effect(p, x) == if x == p.payer then p.amount / 2.0 else if x == other then -(p.amount / 2.0) else 0.0
  {
    DeductionPair(x, p.payer, other, Share(p));
    assert Share(p) == p.amount / 2.0;
  }

  /** Three expenses of 0.02, paid by `a`, `b` and `c`, each shared by its
      payer and `d`. */
  function DeadZone(a: string, b: string, c: string, d: string): seq<Posting> {
    [Posting(a, [a, d], 0.02), Posting(b, [b, d], 0.02), Posting(c, [c, d], 0.02)]
  }

  /** Three people each pay 0.02 for an expense shared with one fourth
      person: each of the three ends 0.01 up and the fourth 0.03 down. */
  lemma DeadZoneNet(a: string, b: string, c: string, d: string, ps: seq<Posting>, x: string)
    requires a != b && a != c && b != c && d != a && d != b && d != c
    requires ps == DeadZone(a, b, c, d)
    ensures Shared(ps)
    ensures Net(ps, x) == if x == d then -0.03 else if x == a || x == b || x == c then 0.01 else 0.0
  {
    assert Shared(ps);
    EffectPair(ps[0], d, x);
    EffectPair(ps[1], d, x);
    EffectPair(ps[2], d, x);
    var q1, q2 := ps[1..], ps[2..];
    assert q1[0] == ps[1] && q1[1..] == q2 && q2[0] == ps[2] && q2[1..] == [];
    assert Net(ps, x) == Effect(ps[0], x) + Net(q1, x);
    assert Net(q1, x) == Effect(ps[1], x) + Net(q2, x);
    assert Net(q2, x) == Effect(ps[2], x);
  }
}
