/** The creditor/debtor split every variant performs on a balance table
    (`Object.entries(balances)` filtered at +-0.01 and sorted by amount,
    largest first) and the properties of sweeping the two lists, proved
    once for any keyed table and any sweep rule. */
module Matching {
  import opened Money
  import opened Ledger
  import opened Ordering
  import opened Greedy
  import opened Shares

  /** Entries above 0.01, largest first. */
  function Creditors(t: Table): Table {
    Sort(Above(t, Epsilon), Descending)
  }

  /** Entries below -0.01 holding the amount owed as a positive number,
      largest debt first. */
  function Debtors(t: Table): Table {
    Sort(Negated(Below(t, -Epsilon)), Descending)
  }

  /** The transfers a sweep under `rule` emits for table `t`. */
  function Plan(t: Table, rule: Rule): seq<Settlement> {
    Sweep(Creditors(t), Debtors(t), rule)
  }

  lemma SortedMembership(s: Table, d: Direction)
    ensures forall e :: e in Sort(s, d) <==> e in s
  {
    SortFacts(s, d);
    forall e ensures e in Sort(s, d) <==> e in s {
      assert e in Sort(s, d) <==> e in multiset(Sort(s, d));
    }
  }

  /** The creditor list holds exactly the entries above 0.01, each once, in
      non-increasing order of amount. */
  lemma CreditorsFacts(t: Table)
    requires Keyed(t)
    ensures forall e :: e in Creditors(t) <==> e in t && e.amount > Epsilon
    ensures Sorted(Creditors(t), Descending) && Keyed(Creditors(t)) && Positive(Creditors(t))
  {
    FilterFacts(t, Epsilon);
    SortFacts(Above(t, Epsilon), Descending);
    SortKeepsIds(Above(t, Epsilon), Descending);
    SortedMembership(Above(t, Epsilon), Descending);
    var c := Creditors(t);
    forall k | 0 <= k < |c| ensures c[k].amount > 0.0 {
      assert c[k] in c;
    }
  }

  /** The debtor list holds exactly the entries below -0.01, negated, each
      once, in non-increasing order of the amount owed. */
  lemma DebtorsFacts(t: Table)
    requires Keyed(t)
    ensures forall e :: e in Debtors(t) <==> Entry(e.id, -e.amount) in t && e.amount > Epsilon
    ensures Sorted(Debtors(t), Descending) && Keyed(Debtors(t)) && Positive(Debtors(t))
  {
    FilterFacts(t, -Epsilon);
    var n := Negated(Below(t, -Epsilon));
    NegatedFacts(Below(t, -Epsilon));
    SortFacts(n, Descending);
    SortKeepsIds(n, Descending);
    SortedMembership(n, Descending);
    var d := Debtors(t);
    forall e ensures e in d <==> Entry(e.id, -e.amount) in t && e.amount > Epsilon {
      assert e in d <==> e in n;
      assert e in n <==> Entry(e.id, -e.amount) in Below(t, -Epsilon);
    }
    forall k | 0 <= k < |d| ensures d[k].amount > 0.0 {
      assert d[k] in d;
    }
  }

  /** Nobody is both a creditor and a debtor. */
  lemma CreditorsDebtorsDisjoint(t: Table)
    requires Keyed(t)
    ensures forall x :: x in Ids(Creditors(t)) ==> x !in Ids(Debtors(t))
  {
    Disjoint(t, Epsilon);
    SortKeepsIds(Above(t, Epsilon), Descending);
    NegatedFacts(Below(t, -Epsilon));
    SortKeepsIds(Negated(Below(t, -Epsilon)), Descending);
  }

  /** Person by person: someone is a creditor for their whole balance
      exactly when it is above 0.01, and a debtor for its negation exactly
      when it is below -0.01. */
  lemma ClassifiedBalance(t: Table, who: string)
    requires Keyed(t)
    ensures Balance(Creditors(t), who) == if Balance(t, who) > Epsilon then Balance(t, who) else 0.0
    ensures Balance(Debtors(t), who) == if Balance(t, who) < -Epsilon then -Balance(t, who) else 0.0
  {
    ClassifiedCreditor(t, who);
    ClassifiedDebtor(t, who);
  }

  lemma ClassifiedCreditor(t: Table, who: string)
    requires Keyed(t)
    ensures Balance(Creditors(t), who) == if Balance(t, who) > Epsilon then Balance(t, who) else 0.0
  {
    CreditorsFacts(t);
    var v := Balance(t, who);
    if who in Ids(t) {
      var k :| 0 <= k < |t| && Ids(t)[k] == who;
      KeyedBalance(t, t[k]);
      assert t[k] == Entry(who, v);
      if v > Epsilon {
        KeyedBalance(Creditors(t), t[k]);
      } else {
        assert who !in Ids(Creditors(t)) by {
          forall a | 0 <= a < |Creditors(t)| ensures Ids(Creditors(t))[a] != who {
            var e := Creditors(t)[a];
            KeyedUnique(t, e, t[k]);
          }
        }
        BalanceAbsent(Creditors(t), who);
      }
    } else {
      BalanceAbsent(t, who);
      assert who !in Ids(Creditors(t)) by {
        forall a | 0 <= a < |Creditors(t)| ensures Ids(Creditors(t))[a] != who {
          assert Creditors(t)[a] in t;
        }
      }
      BalanceAbsent(Creditors(t), who);
    }
  }

  lemma ClassifiedDebtor(t: Table, who: string)
    requires Keyed(t)
    ensures Balance(Debtors(t), who) == if Balance(t, who) < -Epsilon then -Balance(t, who) else 0.0
  {
    DebtorsFacts(t);
    var v := Balance(t, who);
    if who in Ids(t) {
      var k :| 0 <= k < |t| && Ids(t)[k] == who;
      KeyedBalance(t, t[k]);
      assert t[k] == Entry(who, v);
      if v < -Epsilon {
        KeyedBalance(Debtors(t), Entry(who, -v));
      } else {
        assert who !in Ids(Debtors(t)) by {
          forall a | 0 <= a < |Debtors(t)| ensures Ids(Debtors(t))[a] != who {
            var e := Debtors(t)[a];
            KeyedUnique(t, Entry(e.id, -e.amount), t[k]);
          }
        }
        BalanceAbsent(Debtors(t), who);
      }
    } else {
      BalanceAbsent(t, who);
      assert who !in Ids(Debtors(t)) by {
        forall a | 0 <= a < |Debtors(t)| ensures Ids(Debtors(t))[a] != who {
          var e := Debtors(t)[a];
          assert Entry(e.id, -e.amount) in t;
        }
      }
      BalanceAbsent(Debtors(t), who);
    }
  }

  /** Sorting the negative entries ascending by signed amount and then
      taking `Math.abs` gives the debtor list. */
  lemma AbsoluteAscendingIsDebtors(t: Table)
    ensures Absolute(Sort(Below(t, -Epsilon), Ascending)) == Debtors(t)
    ensures Negated(Sort(Below(t, -Epsilon), Ascending)) == Debtors(t)
  {
    var s := Below(t, -Epsilon);
    FilterFacts(t, -Epsilon);
    SortedMembership(s, Ascending);
    forall k | 0 <= k < |Sort(s, Ascending)| ensures Sort(s, Ascending)[k].amount < 0.0 {
      assert Sort(s, Ascending)[k] in s;
    }
    AbsoluteOfNegative(Sort(s, Ascending));
    SortNegated(s);
  }

  // ---------------------------------------------------------------------------
  // The sweep over the split

  /** Transfer count: none when either list is empty, otherwise at most one
      fewer than the creditors and debtors together, and so fewer than the
      entries of the table. */
  lemma PlanCount(t: Table, rule: Rule)
    ensures Creditors(t) == [] || Debtors(t) == [] ==> Plan(t, rule) == []
    ensures Creditors(t) != [] && Debtors(t) != [] ==> |Plan(t, rule)| <= |Creditors(t)| + |Debtors(t)| - 1
    ensures |Plan(t, rule)| <= if t == [] then 0 else |t| - 1
  {
    SplitLength(t, Epsilon);
    SortKeepsIds(Above(t, Epsilon), Descending);
    SortKeepsIds(Negated(Below(t, -Epsilon)), Descending);
    SweepBound(Creditors(t), Debtors(t), rule);
  }

  /** A table with every entry inside the tolerance band produces nothing. */
  lemma PlanOfSmall(t: Table, rule: Rule)
    requires forall k :: 0 <= k < |t| ==> -Epsilon <= t[k].amount <= Epsilon
    ensures Plan(t, rule) == []
  {
    FilterFacts(t, Epsilon);
    SweepBound(Creditors(t), Debtors(t), rule);
  }

  /** Without a balance above 0.01 there is no creditor, and so no
      transfer, whatever the debts. */
  lemma NoCreditorsNoPlan(t: Table, rule: Rule)
    requires forall k :: 0 <= k < |t| ==> t[k].amount <= Epsilon
    ensures Creditors(t) == [] && Plan(t, rule) == []
  {
    AboveNone(t, Epsilon);
    PlanCount(t, rule);
  }

  /** The tolerance band does not close every debt: three people each pay
      0.02 for an expense shared with a fourth, who then owes 0.03 in all
      while each creditor is owed only 0.01. No balance is above 0.01, so
      no transfer is planned, from the balances or from their rounding. */
  lemma UnsettledDebt(ids: seq<string>, a: string, b: string, c: string, d: string, rule: Rule)
    requires a in ids && b in ids && c in ids && d in ids
    requires a != b && a != c && b != c && d != a && d != b && d != c
    ensures AllKnown(Init(ids), DeadZone(a, b, c, d))
    ensures Balance(Accumulate(Init(ids), DeadZone(a, b, c, d)), d) == -0.03
    ensures Balance(Rounded(Accumulate(Init(ids), DeadZone(a, b, c, d))), d) == -0.03
    ensures Plan(Accumulate(Init(ids), DeadZone(a, b, c, d)), rule) == []
    ensures Plan(Rounded(Accumulate(Init(ids), DeadZone(a, b, c, d))), rule) == []
  {
    var ps := DeadZone(a, b, c, d);
    InitFacts(ids);
    assert AllKnown(Init(ids), ps) by {
      forall k | 0 <= k < |ps| ensures Known(Init(ids), ps[k]) {
        assert AllIn(ps[k].sharers, Init(ids)) by {
          forall j | 0 <= j < |ps[k].sharers| ensures ps[k].sharers[j] in Ids(Init(ids)) { }
        }
      }
    }
    var t := Accumulate(Init(ids), ps);
    PostedFacts(ids, ps);
    forall k | 0 <= k < |t| ensures t[k].amount <= Epsilon {
      KeyedBalance(t, t[k]);
      PostedBalance(ids, ps, t[k].id);
      DeadZoneNet(a, b, c, d, ps, t[k].id);
    }
    NoCreditorsNoPlan(t, rule);
    RoundCentsIsIdentity(Epsilon);
    forall k | 0 <= k < |Rounded(t)| ensures Rounded(t)[k].amount <= Epsilon {
      RoundMonotone(t[k].amount, Epsilon);
    }
    NoCreditorsNoPlan(Rounded(t), rule);
    PostedBalance(ids, ps, d);
    DeadZoneNet(a, b, c, d, ps, d);
    BalanceRounded(t, d);
    assert IsCents(-0.03) by { assert -0.03 * 100.0 == -3 as real; }
    RoundCentsIsIdentity(-0.03);
  }

  /** Every transfer runs from a person whose balance is below -0.01 to a
      different person whose balance is above 0.01, both in the table. */
  lemma PlanParties(t: Table, rule: Rule)
    requires Keyed(t)
    ensures forall k :: 0 <= k < |Plan(t, rule)| ==>
              && Plan(t, rule)[k].from != Plan(t, rule)[k].to
              && Plan(t, rule)[k].from in Ids(t) && Plan(t, rule)[k].to in Ids(t)
              && Balance(t, Plan(t, rule)[k].from) < -Epsilon && Balance(t, Plan(t, rule)[k].to) > Epsilon
  {
    var cs, ds, ss := Creditors(t), Debtors(t), Plan(t, rule);
    CreditorsFacts(t);
    DebtorsFacts(t);
    CreditorsDebtorsDisjoint(t);
    SweepEndpoints(cs, ds, rule);
    forall k | 0 <= k < |ss|
      ensures Balance(t, ss[k].from) < -Epsilon && Balance(t, ss[k].to) > Epsilon
      ensures ss[k].from in Ids(t) && ss[k].to in Ids(t)
    {
      var a :| 0 <= a < |ds| && Ids(ds)[a] == ss[k].from;
      var b :| 0 <= b < |cs| && Ids(cs)[b] == ss[k].to;
      KeyedBalance(ds, ds[a]);
      KeyedBalance(cs, cs[b]);
      ClassifiedBalance(t, ss[k].from);
      ClassifiedBalance(t, ss[k].to);
      if ss[k].from !in Ids(t) { BalanceAbsent(t, ss[k].from); }
      if ss[k].to !in Ids(t) { BalanceAbsent(t, ss[k].to); }
    }
  }

  /** Without rounding, nobody pays more than they owe nor receives more
      than they are owed. */
  lemma PlanConserves(t: Table, inclusive: bool, who: string)
    requires Keyed(t)
    ensures PaidBy(Plan(t, Rule(inclusive, false)), who) <= if Balance(t, who) < -Epsilon then -Balance(t, who) else 0.0
    ensures ReceivedBy(Plan(t, Rule(inclusive, false)), who) <= if Balance(t, who) > Epsilon then Balance(t, who) else 0.0
  {
    CreditorsFacts(t);
    DebtorsFacts(t);
    SweepConserves(Creditors(t), Debtors(t), inclusive, who);
    ClassifiedBalance(t, who);
  }

  // ---------------------------------------------------------------------------
  // Whole cents

  lemma {:induction false} AboveCents(s: Table, bound: real)
    requires AllCents(s)
    ensures AllCents(Above(s, bound))
  {
    FilterFacts(s, bound);
    forall k | 0 <= k < |Above(s, bound)| ensures IsCents(Above(s, bound)[k].amount) {
      var e := Above(s, bound)[k];
      assert e in s;
      var j :| 0 <= j < |s| && s[j] == e;
    }
  }

  lemma {:induction false} BelowCents(s: Table, bound: real)
    requires AllCents(s)
    ensures AllCents(Below(s, bound))
  {
    FilterFacts(s, bound);
    forall k | 0 <= k < |Below(s, bound)| ensures IsCents(Below(s, bound)[k].amount) {
      var e := Below(s, bound)[k];
      assert e in s;
      var j :| 0 <= j < |s| && s[j] == e;
    }
  }

  lemma NegatedCents(s: Table)
    requires AllCents(s)
    ensures AllCents(Negated(s))
  {
    forall k | 0 <= k < |s| ensures IsCents(Negated(s)[k].amount) {
      CentsNegated(s[k].amount);
    }
  }

  lemma SortedCents(s: Table, d: Direction)
    requires AllCents(s)
    ensures AllCents(Sort(s, d))
  {
    SortedMembership(s, d);
    forall k | 0 <= k < |Sort(s, d)| ensures IsCents(Sort(s, d)[k].amount) {
      var e := Sort(s, d)[k];
      assert e in s;
      var j :| 0 <= j < |s| && s[j] == e;
    }
  }

  /** On a table of whole cents both lists are whole cents, and so rounding
      the emitted amounts changes nothing. */
  lemma PlanOfCents(t: Table, inclusive: bool)
    requires AllCents(t)
    ensures AllCents(Creditors(t)) && AllCents(Debtors(t))
    ensures Plan(t, Rule(inclusive, true)) == Plan(t, Rule(inclusive, false))
  {
    AboveCents(t, Epsilon);
    SortedCents(Above(t, Epsilon), Descending);
    BelowCents(t, -Epsilon);
    NegatedCents(Below(t, -Epsilon));
    SortedCents(Negated(Below(t, -Epsilon)), Descending);
    RoundingIsIdentityOnCents(Creditors(t), Debtors(t), inclusive);
  }
}
