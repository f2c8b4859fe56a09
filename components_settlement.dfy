/** `components/Settlement.tsx`: the `useMemo` computation. Converts
    inline by `amount * (rates[currency] || 1) / (rates[expense.currency] || 1)`
    with a base-currency shortcut, keeps balances unrounded and debts
    signed, rounds what it emits, and passes a party once its remainder is
    within 0.01 of zero inclusive (`<= 0.01`, `>= -0.01`). */
module ComponentsSettlement {
  import opened Money
  import opened Ledger
  import opened Ordering
  import opened Greedy
  import opened Matching
  import opened Shares

  datatype Participant = Participant(id: string, name: string)

  datatype Expense = Expense(
    id: string,
    description: string,
    amount: real,
    currency: string,
    paidBy: string,
    splitBetween: seq<string>,
    createdAt: int)

  type ExchangeRates = map<string, real>

  const SweepRule: Rule := Rule(true, true)

  function ParticipantIds(participants: seq<Participant>): (r: seq<string>)
    ensures |r| == |participants| && forall k :: 0 <= k < |participants| ==> r[k] == participants[k].id
  {
    seq(|participants|, k requires 0 <= k < |participants| => participants[k].id)
  }

  /** Every payer and every sharer is a participant, and every expense is
      split between at least one of them. */
  predicate ValidExpenses(participants: seq<Participant>, expenses: seq<Expense>) {
    forall e :: e in expenses ==>
      && e.paidBy in ParticipantIds(participants)
      && |e.splitBetween| > 0
      && forall k :: 0 <= k < |e.splitBetween| ==> e.splitBetween[k] in ParticipantIds(participants)
  }

  /** `amountInBaseCurrency`, written out identically in the `useMemo` body
      and in the `totalExpenses` reduce. */
  function InBase(e: Expense, rates: ExchangeRates, currency: string): real {
    if e.currency == currency then e.amount
    else e.amount * OrOne(Lookup(rates, currency)) / OrOne(Lookup(rates, e.currency))
  }

  function ToPosting(e: Expense, rates: ExchangeRates, currency: string): Posting {
    Posting(e.paidBy, e.splitBetween, InBase(e, rates, currency))
  }

  function Postings(expenses: seq<Expense>, rates: ExchangeRates, currency: string): (r: seq<Posting>)
    ensures |r| == |expenses| && forall k :: 0 <= k < |expenses| ==> r[k] == ToPosting(expenses[k], rates, currency)
  {
    seq(|expenses|, k requires 0 <= k < |expenses| => ToPosting(expenses[k], rates, currency))
  }

  lemma PostingsKnown(participants: seq<Participant>, expenses: seq<Expense>, rates: ExchangeRates, currency: string)
    requires ValidExpenses(participants, expenses)
    ensures AllKnown(Init(ParticipantIds(participants)), Postings(expenses, rates, currency))
  {
    InitFacts(ParticipantIds(participants));
    var ps := Postings(expenses, rates, currency);
    forall k | 0 <= k < |ps| ensures Known(Init(ParticipantIds(participants)), ps[k]) {
      assert expenses[k] in expenses;
    }
  }

  /** `balances` after the two `forEach` loops. */
  function Balances(participants: seq<Participant>, expenses: seq<Expense>, rates: ExchangeRates, currency: string): Table
    requires ValidExpenses(participants, expenses)
  {
    PostingsKnown(participants, expenses, rates, currency);
    Accumulate(Init(ParticipantIds(participants)), Postings(expenses, rates, currency))
  }

  /** The memoised `settlements`. */
  function Settlements(participants: seq<Participant>, expenses: seq<Expense>, rates: ExchangeRates, currency: string): seq<Settlement>
    requires ValidExpenses(participants, expenses)
  {
    Plan(Balances(participants, expenses, rates, currency), SweepRule)
  }

  /** The `totalExpenses` reduce. */
  function TotalExpenses(expenses: seq<Expense>, rates: ExchangeRates, currency: string): real
    decreases |expenses|
  {
    if expenses == [] then 0.0
    else TotalExpenses(expenses[..|expenses| - 1], rates, currency) + InBase(expenses[|expenses| - 1], rates, currency)
  }

  predicate NegativeFrom(s: Table, j: int)
    requires 0 <= j <= |s|
  {
    forall k :: j <= k < |s| ==> s[k].amount < 0.0
  }

  // ---------------------------------------------------------------------------
  // The code, step by step

  /** Lines 19-71: the `useMemo` body. */
  method ComputeSettlements(participants: seq<Participant>, expenses: seq<Expense>, rates: ExchangeRates, currency: string)
    returns (settlements: seq<Settlement>)
    requires ValidExpenses(participants, expenses)
    ensures settlements == Settlements(participants, expenses, rates, currency)
  {
    var balances := ComputeBalances(participants, expenses, rates, currency);
    var creditors := Sort(Above(balances, Epsilon), Descending);
    var debtors := Sort(Below(balances, -Epsilon), Ascending);
    SignedDebtors(balances);
    settlements := Sweep(creditors, debtors);
  }

  /** Lines 20-38: every participant at 0, then credit the payer and debit
      each `splitBetween` entry `perPerson`. */
  method ComputeBalances(participants: seq<Participant>, expenses: seq<Expense>, rates: ExchangeRates, currency: string)
    returns (balances: Table)
    requires ValidExpenses(participants, expenses)
    ensures balances == Balances(participants, expenses, rates, currency)
  {
    balances := InitBalances(ParticipantIds(participants));
    PostingsKnown(participants, expenses, rates, currency);
    ghost var ps := Postings(expenses, rates, currency);
    ghost var goal := Accumulate(balances, ps);
    var i := 0;
    assert ps[i..] == ps;
    while i < |expenses|
      invariant 0 <= i <= |expenses|
      invariant AllKnown(balances, ps[i..]) && Accumulate(balances, ps[i..]) == goal
    {
      var expense := expenses[i];
      var amountInBaseCurrency := InBase(expense, rates, currency);
      var posting := Posting(expense.paidBy, expense.splitBetween, amountInBaseCurrency);
      assert posting == ps[i];
      AccumulateStep(balances, ps, i);
      balances := ApplyExpense(balances, posting);
      i := i + 1;
    }
  }

  /** Lines 48-68: settle `Math.min(creditAmount, Math.abs(debtAmount))`,
      record it rounded when above 0.01, subtract it from the credit and add
      it to the debt, then advance `i` when the credit is at most 0.01 and
      `j` when the debt is at least -0.01. */
  method Sweep(cs: Table, ds: Table) returns (settlements: seq<Settlement>)
    requires forall k :: 0 <= k < |ds| ==> ds[k].amount < 0.0
    ensures settlements == Greedy.Sweep(cs, Negated(ds), SweepRule)
  {
    var creditors, debtors := cs, ds;
    settlements := [];
    var i, j := 0, 0;
    assert creditors[i..] == cs && Negated(debtors)[j..] == Negated(ds);
    ghost var goal := Greedy.Sweep(cs, Negated(ds), SweepRule);
    while i < |creditors| && j < |debtors|
      invariant |creditors| == |cs| && |debtors| == |ds|
      invariant 0 <= i <= |creditors| && 0 <= j <= |debtors|
      invariant NegativeFrom(debtors, j)
      invariant settlements + Greedy.Sweep(creditors[i..], Negated(debtors)[j..], SweepRule) == goal
      decreases |creditors| - i + |debtors| - j
    {
      var creditorId, creditAmount := creditors[i].id, creditors[i].amount;
      var debtorId, debtAmount := debtors[j].id, debtors[j].amount;
      var amount := Min(creditAmount, Abs(debtAmount));
      ghost var i0, j0, cs0, ds0, done := i, j, creditors, debtors, settlements;
      if amount > Epsilon {
        settlements := settlements + [Settlement(debtorId, creditorId, Round2(amount))];
      }
      var creditorLeft := Entry(creditorId, creditAmount - amount);
      var debtorLeft := Entry(debtorId, debtAmount + amount);
      creditors := creditors[i := creditorLeft];
      debtors := debtors[j := debtorLeft];
      if creditors[i].amount <= Epsilon {
        i := i + 1;
      }
      if debtors[j].amount >= -Epsilon {
        j := j + 1;
      }
      SignedTurn(cs0, i0, ds0, j0, done, goal, amount, settlements, creditorLeft, i, debtorLeft, j);
    }
    SweepBound(creditors[i..], Negated(debtors)[j..], SweepRule);
  }

  /** One turn of the index loop, on the loop's invariant: with the debts
      held signed, settling `m`, adding it to debt `j` and moving past a
      debt once it is at least -0.01 is one turn of the sweep on the debts
      negated. */
  lemma SignedTurn(s: Table, i: int, t: Table, j: int, done: seq<Settlement>, goal: seq<Settlement>,
                   m: real, done': seq<Settlement>, e: Entry, i': int, f: Entry, j': int)
    requires 0 <= i < |s| && 0 <= j < |t| && NegativeFrom(t, j)
    requires done + Greedy.Sweep(s[i..], Negated(t)[j..], SweepRule) == goal
    requires m == Min(s[i].amount, Abs(t[j].amount))
    requires done' == done + if m > Epsilon then [Settlement(t[j].id, s[i].id, Round2(m))] else []
    requires e == Entry(s[i].id, s[i].amount - m) && f == Entry(t[j].id, t[j].amount + m)
    requires i' == if e.amount <= Epsilon then i + 1 else i
    requires j' == if f.amount >= -Epsilon then j + 1 else j
    ensures i <= i' <= |s| && j <= j' <= |t| && (i < i' || j < j') && NegativeFrom(t[j := f], j')
    ensures e.amount >= 0.0 && f.amount <= 0.0
    ensures done' + Greedy.Sweep(s[i := e][i'..], Negated(t[j := f])[j'..], SweepRule) == goal
  {
    var n := Negated(t);
    var g := Entry(f.id, -f.amount);
    assert n[j] == Entry(t[j].id, Abs(t[j].amount));
    assert g == Entry(n[j].id, n[j].amount - m);
    NegatedUpdate(t, j, f);
    SweepTurn(s, i, n, j, SweepRule, done, goal, m, done', e, i', g, j');
  }

  // ---------------------------------------------------------------------------
  // Properties

  /** An expense in the display currency is taken at face value; otherwise
      its amount is worth as much at its own rate as the result at the
      display currency's rate, absent and zero rates counting as 1. */
  lemma ConversionFacts(e: Expense, rates: ExchangeRates, currency: string)
    ensures e.currency == currency ==> InBase(e, rates, currency) == e.amount
    ensures e.currency != currency ==>
              (InBase(e, rates, currency) * OrOne(Lookup(rates, e.currency)) == e.amount * OrOne(Lookup(rates, currency)))
    ensures OrOne(Lookup(rates, currency)) == OrOne(Lookup(rates, e.currency)) ==> InBase(e, rates, currency) == e.amount
  {
    if e.currency != currency {
      ScaledBack(e.amount, OrOne(Lookup(rates, currency)), OrOne(Lookup(rates, e.currency)), InBase(e, rates, currency));
    }
  }

  lemma ScaledBack(amount: real, t: real, f: real, r: real)
    requires f != 0.0 && r == amount * t / f
    ensures r * f == amount * t
    ensures t == f ==> r == amount
  {
  }

  /** Balances are keyed by participant, one entry per distinct id, and sum
      to zero. */
  lemma BalancesFacts(participants: seq<Participant>, expenses: seq<Expense>, rates: ExchangeRates, currency: string)
    requires ValidExpenses(participants, expenses)
    ensures Keyed(Balances(participants, expenses, rates, currency))
    ensures |Balances(participants, expenses, rates, currency)| <= |participants|
    ensures forall x :: x in Ids(Balances(participants, expenses, rates, currency)) <==> x in ParticipantIds(participants)
    ensures Sum(Balances(participants, expenses, rates, currency)) == 0.0
  {
    PostingsKnown(participants, expenses, rates, currency);
    PostedFacts(ParticipantIds(participants), Postings(expenses, rates, currency));
  }

  /** The signed debtor list: exactly the entries below -0.01, sorted
      ascending, most negative first; negated it is the debt list. */
  lemma SignedDebtors(t: Table)
    ensures var s := Sort(Below(t, -Epsilon), Ascending);
            && (forall e :: e in s <==> e in t && e.amount < -Epsilon)
            && Sorted(s, Ascending) && (forall k :: 0 <= k < |s| ==> s[k].amount < 0.0)
            && Negated(s) == Debtors(t)
  {
    var s := Sort(Below(t, -Epsilon), Ascending);
    FilterFacts(t, -Epsilon);
    SortFacts(Below(t, -Epsilon), Ascending);
    SortedMembership(Below(t, -Epsilon), Ascending);
    forall k | 0 <= k < |s| ensures s[k].amount < 0.0 {
      assert s[k] in s;
    }
    AbsoluteAscendingIsDebtors(t);
  }

  /** The split, person by person: a creditor for the balance exactly when
      it is above 0.01, a debtor for it exactly when it is below -0.01,
      never both; creditors in descending order. */
  lemma Classification(participants: seq<Participant>, expenses: seq<Expense>, rates: ExchangeRates, currency: string, who: string)
    requires ValidExpenses(participants, expenses)
    ensures var t := Balances(participants, expenses, rates, currency);
            && Balance(Creditors(t), who) == (if Balance(t, who) > Epsilon then Balance(t, who) else 0.0)
            && Balance(Debtors(t), who) == (if Balance(t, who) < -Epsilon then -Balance(t, who) else 0.0)
            && (who in Ids(Creditors(t)) ==> who !in Ids(Debtors(t)))
            && Sorted(Creditors(t), Descending)
  {
    var t := Balances(participants, expenses, rates, currency);
    BalancesFacts(participants, expenses, rates, currency);
    ClassifiedBalance(t, who);
    CreditorsDebtorsDisjoint(t);
    CreditorsFacts(t);
  }

  /** Loop count: the sweep ends after at most one fewer steps than there
      are creditors and debtors together, and fewer than the participants. */
  lemma SettlementCount(participants: seq<Participant>, expenses: seq<Expense>, rates: ExchangeRates, currency: string)
    requires ValidExpenses(participants, expenses)
    ensures var t := Balances(participants, expenses, rates, currency);
            Creditors(t) == [] || Debtors(t) == [] ==> Settlements(participants, expenses, rates, currency) == []
    ensures var t := Balances(participants, expenses, rates, currency);
            Creditors(t) != [] && Debtors(t) != [] ==>
              |Settlements(participants, expenses, rates, currency)| <= |Creditors(t)| + |Debtors(t)| - 1
    ensures participants != [] ==> |Settlements(participants, expenses, rates, currency)| < |participants|
  {
    BalancesFacts(participants, expenses, rates, currency);
    PlanCount(Balances(participants, expenses, rates, currency), SweepRule);
  }

  /** With no expenses nobody pays anybody. */
  lemma NoExpensesNoSettlements(participants: seq<Participant>, rates: ExchangeRates, currency: string)
    ensures Settlements(participants, [], rates, currency) == []
  {
    InitFacts(ParticipantIds(participants));
    PlanOfSmall(Balances(participants, [], rates, currency), SweepRule);
  }

  /** Balances are not always brought within 0.01: three people each pay
      0.02 in the target currency for an expense shared with a fourth, who
      is left owing 0.03 while no transfer is produced. */
  lemma ResidualDebt(participants: seq<Participant>, expenses: seq<Expense>, rates: ExchangeRates, currency: string,
                     a: string, b: string, c: string, d: string)
    requires a in ParticipantIds(participants) && b in ParticipantIds(participants) && c in ParticipantIds(participants) && d in ParticipantIds(participants)
    requires a != b && a != c && b != c && d != a && d != b && d != c
    requires |expenses| == 3
    requires expenses[0].paidBy == a && expenses[0].splitBetween == [a, d]
    requires expenses[1].paidBy == b && expenses[1].splitBetween == [b, d]
    requires expenses[2].paidBy == c && expenses[2].splitBetween == [c, d]
    requires forall k :: 0 <= k < 3 ==> expenses[k].amount == 0.02 && expenses[k].currency == currency
    ensures ValidExpenses(participants, expenses)
    ensures Balance(Balances(participants, expenses, rates, currency), d) == -0.03
    ensures Settlements(participants, expenses, rates, currency) == []
  {
    assert ValidExpenses(participants, expenses) by {
      forall e | e in expenses ensures e == expenses[0] || e == expenses[1] || e == expenses[2] { }
    }
    assert Postings(expenses, rates, currency) == DeadZone(a, b, c, d);
    UnsettledDebt(ParticipantIds(participants), a, b, c, d, SweepRule);
  }

  /** Every transfer runs from a participant whose balance is below -0.01
      to a different one whose balance is above 0.01, for at least one cent,
      in whole cents. */
  lemma SettlementParties(participants: seq<Participant>, expenses: seq<Expense>, rates: ExchangeRates, currency: string)
    requires ValidExpenses(participants, expenses)
    ensures var t, ss := Balances(participants, expenses, rates, currency), Settlements(participants, expenses, rates, currency);
            forall k :: 0 <= k < |ss| ==>
              && ss[k].from != ss[k].to
              && ss[k].from in ParticipantIds(participants) && ss[k].to in ParticipantIds(participants)
              && Balance(t, ss[k].from) < -Epsilon && Balance(t, ss[k].to) > Epsilon
              && ss[k].amount >= Epsilon && IsCents(ss[k].amount)
  {
    var t := Balances(participants, expenses, rates, currency);
    BalancesFacts(participants, expenses, rates, currency);
    PlanParties(t, SweepRule);
    SweepAmounts(Creditors(t), Debtors(t), SweepRule);
  }

  /** Each transfer is the cent-rounding of the corresponding transfer of
      the unrounded sweep, and in that sweep nobody pays more than they owe
      nor receives more than they are owed. */
  lemma SettlementRounding(participants: seq<Participant>, expenses: seq<Expense>, rates: ExchangeRates, currency: string, who: string)
    requires ValidExpenses(participants, expenses)
    ensures var t, ss := Balances(participants, expenses, rates, currency), Settlements(participants, expenses, rates, currency);
            var raw := Plan(t, Rule(true, false));
            && |ss| == |raw|
            && (forall k :: 0 <= k < |ss| ==> ss[k] == Settlement(raw[k].from, raw[k].to, Round2(raw[k].amount)))
            && PaidBy(raw, who) <= (if Balance(t, who) < -Epsilon then -Balance(t, who) else 0.0)
            && ReceivedBy(raw, who) <= (if Balance(t, who) > Epsilon then Balance(t, who) else 0.0)
  {
    var t := Balances(participants, expenses, rates, currency);
    BalancesFacts(participants, expenses, rates, currency);
    RoundedSweep(Creditors(t), Debtors(t), true);
    PlanConserves(t, true, who);
  }

  /** `totalExpenses` is the total of the converted amounts the balances
      are built from, by the same conversion rule. */
  lemma {:induction false} TotalIsPaid(expenses: seq<Expense>, rates: ExchangeRates, currency: string)
    ensures TotalExpenses(expenses, rates, currency) == Paid(Postings(expenses, rates, currency))
    decreases |expenses|
  {
    if expenses != [] {
      var n := |expenses| - 1;
      TotalIsPaid(expenses[..n], rates, currency);
      assert Postings(expenses[..n], rates, currency) == Postings(expenses, rates, currency)[..n];
    }
  }

  /** A group spending only in the display currency gets the same total and
      the same settlements whatever the rate table holds. */
  lemma SingleCurrencyIgnoresRates(participants: seq<Participant>, expenses: seq<Expense>,
                                   r1: ExchangeRates, r2: ExchangeRates, currency: string)
    requires ValidExpenses(participants, expenses)
    requires forall k :: 0 <= k < |expenses| ==> expenses[k].currency == currency
    ensures TotalExpenses(expenses, r1, currency) == TotalExpenses(expenses, r2, currency)
    ensures Settlements(participants, expenses, r1, currency) == Settlements(participants, expenses, r2, currency)
  {
    assert Postings(expenses, r1, currency) == Postings(expenses, r2, currency);
    TotalIsPaid(expenses, r1, currency);
    TotalIsPaid(expenses, r2, currency);
  }
}
