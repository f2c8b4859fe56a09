/** `app/components/Settlement.tsx`: converts by
    `(amount * fromRate) / baseRate` with no base-currency shortcut, keeps
    balances and emitted amounts unrounded, keeps debts signed and sorted
    ascending, and consumes both lists from the front with `shift()`. */
module AppSettlement {
  import opened Money
  import opened Ledger
  import opened Ordering
  import opened Greedy
  import opened Matching
  import opened Shares

  datatype Participant = Participant(id: string, name: string)

  datatype Expense = Expense(
    id: string,
    description: string,
    amount: real,
    currency: string,
    payerId: string,
    splitBetween: seq<string>)

  const SweepRule: Rule := Rule(false, false)

  function ParticipantIds(participants: seq<Participant>): (r: seq<string>)
    ensures |r| == |participants| && forall k :: 0 <= k < |participants| ==> r[k] == participants[k].id
  {
    seq(|participants|, k requires 0 <= k < |participants| => participants[k].id)
  }

  /** Every payer and every sharer is a participant, and every expense is
      split between at least one of them. */
  predicate ValidExpenses(participants: seq<Participant>, expenses: seq<Expense>) {
    forall e :: e in expenses ==>
      && e.payerId in ParticipantIds(participants)
      && |e.splitBetween| > 0
      && forall k :: 0 <= k < |e.splitBetween| ==> e.splitBetween[k] in ParticipantIds(participants)
  }

  /** `convertToBaseCurrency(amount, fromCurrency)`. */
  function ConvertToBaseCurrency(amount: real, from: string, currencies: seq<Currency>, base: string): real {
    (amount * RateOf(currencies, from)) / RateOf(currencies, base)
  }

  function ToPosting(e: Expense, currencies: seq<Currency>, base: string): Posting {
    Posting(e.payerId, e.splitBetween, ConvertToBaseCurrency(e.amount, e.currency, currencies, base))
  }

  function Postings(expenses: seq<Expense>, currencies: seq<Currency>, base: string): (r: seq<Posting>)
    ensures |r| == |expenses| && forall k :: 0 <= k < |expenses| ==> r[k] == ToPosting(expenses[k], currencies, base)
  {
    seq(|expenses|, k requires 0 <= k < |expenses| => ToPosting(expenses[k], currencies, base))
  }

  lemma PostingsKnown(participants: seq<Participant>, expenses: seq<Expense>, currencies: seq<Currency>, base: string)
    requires ValidExpenses(participants, expenses)
    ensures AllKnown(Init(ParticipantIds(participants)), Postings(expenses, currencies, base))
  {
    InitFacts(ParticipantIds(participants));
    var ps := Postings(expenses, currencies, base);
    forall k | 0 <= k < |ps| ensures Known(Init(ParticipantIds(participants)), ps[k]) {
      assert expenses[k] in expenses;
    }
  }

  /** What `calculateBalances()` returns. */
  function Balances(participants: seq<Participant>, expenses: seq<Expense>, currencies: seq<Currency>, base: string): Table
    requires ValidExpenses(participants, expenses)
  {
    PostingsKnown(participants, expenses, currencies, base);
    Accumulate(Init(ParticipantIds(participants)), Postings(expenses, currencies, base))
  }

  /** What `calculateSettlements()` returns. */
  function Settlements(participants: seq<Participant>, expenses: seq<Expense>, currencies: seq<Currency>, base: string): seq<Settlement>
    requires ValidExpenses(participants, expenses)
  {
    Plan(Balances(participants, expenses, currencies, base), SweepRule)
  }

  /** `expenses.reduce((sum, expense) => sum + convertToBaseCurrency(...), 0)`. */
  function TotalExpenses(expenses: seq<Expense>, currencies: seq<Currency>, base: string): real
    decreases |expenses|
  {
    if expenses == [] then 0.0
    else
      var last := expenses[|expenses| - 1];
      TotalExpenses(expenses[..|expenses| - 1], currencies, base)
        + ConvertToBaseCurrency(last.amount, last.currency, currencies, base)
  }

  predicate Negative(s: Table) {
    forall k :: 0 <= k < |s| ==> s[k].amount < 0.0
  }

  // ---------------------------------------------------------------------------
  // The code, step by step

  /** Lines 25-44: every participant at 0, then credit the payer
      `amountInBase` and debit each `splitBetween` entry `perPerson`. */
  method CalculateBalances(participants: seq<Participant>, expenses: seq<Expense>, currencies: seq<Currency>, base: string)
    returns (balances: Table)
    requires ValidExpenses(participants, expenses)
    ensures balances == Balances(participants, expenses, currencies, base)
  {
    balances := InitBalances(ParticipantIds(participants));
    PostingsKnown(participants, expenses, currencies, base);
    ghost var ps := Postings(expenses, currencies, base);
    ghost var goal := Accumulate(balances, ps);
    var i := 0;
    assert ps[i..] == ps;
    while i < |expenses|
      invariant 0 <= i <= |expenses|
      invariant AllKnown(balances, ps[i..]) && Accumulate(balances, ps[i..]) == goal
    {
      var expense := expenses[i];
      var amountInBase := ConvertToBaseCurrency(expense.amount, expense.currency, currencies, base);
      var posting := Posting(expense.payerId, expense.splitBetween, amountInBase);
      assert posting == ps[i];
      AccumulateStep(balances, ps, i);
      balances := ApplyExpense(balances, posting);
      i := i + 1;
    }
  }

  /** Lines 46-59: the creditors sorted descending and the signed debtors
      sorted ascending, most negative first, then the sweep. */
  method CalculateSettlements(participants: seq<Participant>, expenses: seq<Expense>, currencies: seq<Currency>, base: string)
    returns (settlements: seq<Settlement>)
    requires ValidExpenses(participants, expenses)
    ensures settlements == Settlements(participants, expenses, currencies, base)
  {
    var balances := CalculateBalances(participants, expenses, currencies, base);
    var creditors := Sort(Above(balances, Epsilon), Descending);
    var debtors := Sort(Below(balances, -Epsilon), Ascending);
    BalancesFacts(participants, expenses, currencies, base);
    CreditorsFacts(balances);
    SignedDebtors(balances);
    settlements := Drain(creditors, debtors);
  }

  /** Lines 61-85: settle the two front entries for
      `Math.min(creditAmount, Math.abs(debtAmount))`, record it unrounded
      when above 0.01, add it to the debt and subtract it from the credit,
      and `shift()` whichever entry has come within 0.01 of zero. The front
      credit never drops below 0 and the front debt never rises above 0. */
  method Drain(creditors: Table, debtors: Table) returns (settlements: seq<Settlement>)
    requires Positive(creditors) && Negative(debtors)
    ensures settlements == Sweep(creditors, Negated(debtors), SweepRule)
  {
    var creditorsArray, debtorsArray := creditors, debtors;
    settlements := [];
    ghost var goal := Sweep(creditors, Negated(debtors), SweepRule);
    while |creditorsArray| > 0 && |debtorsArray| > 0
      invariant Positive(creditorsArray) && Negative(debtorsArray)
      invariant settlements + Sweep(creditorsArray, Negated(debtorsArray), SweepRule) == goal
      decreases |creditorsArray| + |debtorsArray|
    {
      var creditorId, creditAmount := creditorsArray[0].id, creditorsArray[0].amount;
      var debtorId, debtAmount := debtorsArray[0].id, debtorsArray[0].amount;
      var settleAmount := Min(creditAmount, Abs(debtAmount));
      ghost var cs0, ds0, done := creditorsArray, debtorsArray, settlements;
      ghost var step := Step(cs0, Negated(ds0), SweepRule);
      StepValue(cs0, ds0, settleAmount);
      if settleAmount > Epsilon {
        settlements := settlements + [Settlement(debtorId, creditorId, settleAmount)];
      }
      assert settlements == done + step;
      creditorsArray := creditorsArray[0 := Entry(creditorId, creditAmount - settleAmount)];
      debtorsArray := debtorsArray[0 := Entry(debtorId, debtAmount + settleAmount)];
      if creditorsArray[0].amount < Epsilon {
        creditorsArray := creditorsArray[1..];
      }
      if Abs(debtorsArray[0].amount) < Epsilon {
        debtorsArray := debtorsArray[1..];
      }
      DrainStep(cs0, ds0, settleAmount, creditorsArray, debtorsArray);
      AppendAssoc(done, step, Sweep(creditorsArray, Negated(debtorsArray), SweepRule));
    }
    SweepBound(creditorsArray, Negated(debtorsArray), SweepRule);
  }

  /** What one turn of the `shift()` loop records. */
  lemma StepValue(cs: Table, ds: Table, m: real)
    requires cs != [] && ds != [] && Negative(ds)
    requires m == Min(cs[0].amount, Abs(ds[0].amount))
    ensures Step(cs, Negated(ds), SweepRule)
         == if m > Epsilon then [Settlement(ds[0].id, cs[0].id, m)] else []
  {
    assert Negated(ds)[0] == Entry(ds[0].id, Abs(ds[0].amount));
  }

  /** One turn of the `shift()` loop is one step of `Sweep` on the debts
      held as positive amounts; the front credit never drops below 0 and
      the front debt never rises above 0. */
  lemma DrainStep(cs: Table, ds: Table, m: real, cs': Table, ds': Table)
    requires cs != [] && ds != [] && Positive(cs) && Negative(ds)
    requires m == Min(cs[0].amount, Abs(ds[0].amount))
    requires cs' == if cs[0].amount - m < Epsilon then cs[0 := Entry(cs[0].id, cs[0].amount - m)][1..]
                    else cs[0 := Entry(cs[0].id, cs[0].amount - m)]
    requires ds' == if Abs(ds[0].amount + m) < Epsilon then ds[0 := Entry(ds[0].id, ds[0].amount + m)][1..]
                    else ds[0 := Entry(ds[0].id, ds[0].amount + m)]
    ensures 0.0 <= cs[0].amount - m && ds[0].amount + m <= 0.0
    ensures |cs'| < |cs| || |ds'| < |ds|
    ensures Positive(cs') && Negative(ds')
    ensures Sweep(cs, Negated(ds), SweepRule) == Step(cs, Negated(ds), SweepRule) + Sweep(cs', Negated(ds'), SweepRule)
  {
    assert Negated(ds)[0] == Entry(ds[0].id, Abs(ds[0].amount));
    SweepUnfold(cs, Negated(ds), SweepRule);
    AdvanceCredit(cs, m, cs');
    AdvanceDebt(ds, m, ds');
  }

  /** The credit list after one step is `After` of the old one. */
  lemma AdvanceCredit(cs: Table, m: real, cs': Table)
    requires cs != [] && Positive(cs)
    requires var u := cs[0 := Entry(cs[0].id, cs[0].amount - m)];
             cs' == if u[0].amount < Epsilon then u[1..] else u
    ensures cs' == After(cs, m, SweepRule) && Positive(cs')
  {
    var u := cs[0 := Entry(cs[0].id, cs[0].amount - m)];
    assert u[1..] == cs[1..];
    if cs' == u {
      assert u == [u[0]] + cs[1..];
    }
  }

  /** The signed debt list after one step, negated, is `After` of the old
      one negated. */
  lemma AdvanceDebt(ds: Table, m: real, ds': Table)
    requires ds != [] && Negative(ds) && ds[0].amount + m <= 0.0
    requires var u := ds[0 := Entry(ds[0].id, ds[0].amount + m)];
             ds' == if Abs(u[0].amount) < Epsilon then u[1..] else u
    ensures Negated(ds') == After(Negated(ds), m, SweepRule) && Negative(ds')
  {
    var u := ds[0 := Entry(ds[0].id, ds[0].amount + m)];
    assert Abs(u[0].amount) == -ds[0].amount - m;
    if Abs(u[0].amount) < Epsilon {
      assert u[1..] == ds[1..];
      DebtClosed(ds, m);
    } else {
      DebtOpen(ds, m);
    }
  }

  /** A debt settled to within 0.01 is dropped from the front. */
  lemma DebtClosed(ds: Table, m: real)
    requires ds != [] && Negative(ds) && -ds[0].amount - m < Epsilon
    ensures Negated(ds[1..]) == After(Negated(ds), m, SweepRule) && Negative(ds[1..])
  {
    var n := Negated(ds);
    assert n[0].amount - m == -ds[0].amount - m;
    assert n[1..] == Negated(ds[1..]);
    assert forall k :: 0 <= k < |ds[1..]| ==> ds[1..][k] == ds[k + 1];
  }

  /** A debt still beyond 0.01 keeps its remainder at the front. */
  lemma DebtOpen(ds: Table, m: real)
    requires ds != [] && Negative(ds) && -ds[0].amount - m >= Epsilon
    ensures Negated(ds[0 := Entry(ds[0].id, ds[0].amount + m)]) == After(Negated(ds), m, SweepRule)
    ensures Negative(ds[0 := Entry(ds[0].id, ds[0].amount + m)])
  {
    var n := Negated(ds);
    var u := ds[0 := Entry(ds[0].id, ds[0].amount + m)];
    assert n[0].amount - m == -ds[0].amount - m;
    assert After(n, m, SweepRule) == [Entry(ds[0].id, -ds[0].amount - m)] + n[1..];
    var l, r := Negated(u), [Entry(ds[0].id, -ds[0].amount - m)] + n[1..];
    assert |l| == |r|;
    forall k | 0 <= k < |l| ensures l[k] == r[k] {
      if k > 0 { assert r[k] == n[k] && u[k] == ds[k]; }
    }
  }

  // ---------------------------------------------------------------------------
  // Properties

  /** No shortcut, yet an amount already in the base currency comes back
      unchanged; otherwise the result is worth as much at the base rate as
      the amount at its own rate, absent and zero rates counting as 1. */
  lemma ConversionFacts(amount: real, from: string, currencies: seq<Currency>, base: string)
    ensures from == base ==> ConvertToBaseCurrency(amount, from, currencies, base) == amount
    ensures ConvertToBaseCurrency(amount, from, currencies, base) * RateOf(currencies, base)
         == amount * RateOf(currencies, from)
  {
    MultiplyThenDivide(amount, RateOf(currencies, from), RateOf(currencies, base),
                       ConvertToBaseCurrency(amount, from, currencies, base));
  }

  lemma MultiplyThenDivide(amount: real, f: real, b: real, r: real)
    requires b != 0.0 && r == (amount * f) / b
    ensures r * b == amount * f
    ensures f == b ==> r == amount
  {
  }

  /** Balances are keyed by participant, one entry per distinct id, and sum
      to zero. */
  lemma BalancesFacts(participants: seq<Participant>, expenses: seq<Expense>, currencies: seq<Currency>, base: string)
    requires ValidExpenses(participants, expenses)
    ensures Keyed(Balances(participants, expenses, currencies, base))
    ensures |Balances(participants, expenses, currencies, base)| <= |participants|
    ensures forall x :: x in Ids(Balances(participants, expenses, currencies, base)) <==> x in ParticipantIds(participants)
    ensures Sum(Balances(participants, expenses, currencies, base)) == 0.0
  {
    PostingsKnown(participants, expenses, currencies, base);
    PostedFacts(ParticipantIds(participants), Postings(expenses, currencies, base));
  }

  /** The signed debtor list: exactly the entries below -0.01, sorted
      ascending, most negative first; negated it is the debt list. */
  lemma SignedDebtors(t: Table)
    ensures var s := Sort(Below(t, -Epsilon), Ascending);
            && (forall e :: e in s <==> e in t && e.amount < -Epsilon)
            && Sorted(s, Ascending) && Negative(s) && Negated(s) == Debtors(t)
  {
    var s := Sort(Below(t, -Epsilon), Ascending);
    FilterFacts(t, -Epsilon);
    SortFacts(Below(t, -Epsilon), Ascending);
    SortedMembership(Below(t, -Epsilon), Ascending);
    forall k | 0 <= k < |s| ensures s[k].amount < 0.0 {
      assert s[k] in s;
    }
    AbsoluteAscendingIsDebtors(t);
  }

  /** The split, person by person: a creditor for the balance exactly when
      it is above 0.01, a debtor for it exactly when it is below -0.01,
      never both. */
  lemma Classification(participants: seq<Participant>, expenses: seq<Expense>, currencies: seq<Currency>, base: string, who: string)
    requires ValidExpenses(participants, expenses)
    ensures var t := Balances(participants, expenses, currencies, base);
            && Balance(Creditors(t), who) == (if Balance(t, who) > Epsilon then Balance(t, who) else 0.0)
            && Balance(Sort(Below(t, -Epsilon), Ascending), who) == (if Balance(t, who) < -Epsilon then Balance(t, who) else 0.0)
            && (who in Ids(Creditors(t)) ==> who !in Ids(Debtors(t)))
            && Sorted(Creditors(t), Descending)
  {
    var t := Balances(participants, expenses, currencies, base);
    BalancesFacts(participants, expenses, currencies, base);
    ClassifiedBalance(t, who);
    CreditorsDebtorsDisjoint(t);
    CreditorsFacts(t);
    SignedDebtors(t);
    NegatedBalance(Sort(Below(t, -Epsilon), Ascending), who);
  }

  lemma {:induction false} NegatedBalance(s: Table, who: string)
    ensures Balance(Negated(s), who) == -Balance(s, who)
  {
    if s != [] {
      assert Negated(s)[1..] == Negated(s[1..]);
      NegatedBalance(s[1..], who);
    }
  }

  /** Loop count: the sweep ends after at most one fewer steps than there
      are creditors and debtors together, and fewer than the participants. */
  lemma SettlementCount(participants: seq<Participant>, expenses: seq<Expense>, currencies: seq<Currency>, base: string)
    requires ValidExpenses(participants, expenses)
    ensures var t := Balances(participants, expenses, currencies, base);
            Creditors(t) == [] || Debtors(t) == [] ==> Settlements(participants, expenses, currencies, base) == []
    ensures var t := Balances(participants, expenses, currencies, base);
            Creditors(t) != [] && Debtors(t) != [] ==>
              |Settlements(participants, expenses, currencies, base)| <= |Creditors(t)| + |Debtors(t)| - 1
    ensures participants != [] ==> |Settlements(participants, expenses, currencies, base)| < |participants|
  {
    BalancesFacts(participants, expenses, currencies, base);
    PlanCount(Balances(participants, expenses, currencies, base), SweepRule);
  }

  /** With no expenses nobody pays anybody. */
  lemma NoExpensesNoSettlements(participants: seq<Participant>, currencies: seq<Currency>, base: string)
    ensures Settlements(participants, [], currencies, base) == []
  {
    InitFacts(ParticipantIds(participants));
    PlanOfSmall(Balances(participants, [], currencies, base), SweepRule);
  }

  /** Balances are not always brought within 0.01: three people each pay
      0.02 in the base currency for an expense shared with a fourth, who
      is left owing 0.03 while no transfer is produced. */
  lemma ResidualDebt(participants: seq<Participant>, expenses: seq<Expense>, currencies: seq<Currency>, base: string,
                     a: string, b: string, c: string, d: string)
    requires a in ParticipantIds(participants) && b in ParticipantIds(participants) && c in ParticipantIds(participants) && d in ParticipantIds(participants)
    requires a != b && a != c && b != c && d != a && d != b && d != c
    requires |expenses| == 3
    requires expenses[0].payerId == a && expenses[0].splitBetween == [a, d]
    requires expenses[1].payerId == b && expenses[1].splitBetween == [b, d]
    requires expenses[2].payerId == c && expenses[2].splitBetween == [c, d]
    requires forall k :: 0 <= k < 3 ==> expenses[k].amount == 0.02 && expenses[k].currency == base
    ensures ValidExpenses(participants, expenses)
    ensures Balance(Balances(participants, expenses, currencies, base), d) == -0.03
    ensures Settlements(participants, expenses, currencies, base) == []
  {
    assert ValidExpenses(participants, expenses) by {
      forall e | e in expenses ensures e == expenses[0] || e == expenses[1] || e == expenses[2] { }
    }
    forall k | 0 <= k < 3 ensures ToPosting(expenses[k], currencies, base).amount == 0.02 {
      ConversionFacts(0.02, base, currencies, base);
    }
    assert Postings(expenses, currencies, base) == DeadZone(a, b, c, d);
    UnsettledDebt(ParticipantIds(participants), a, b, c, d, SweepRule);
  }

  /** Every transfer runs from a participant whose balance is below -0.01
      to a different one whose balance is above 0.01, for more than 0.01;
      nobody pays more than they owe nor receives more than they are owed. */
  lemma SettlementParties(participants: seq<Participant>, expenses: seq<Expense>, currencies: seq<Currency>, base: string, who: string)
    requires ValidExpenses(participants, expenses)
    ensures var t, ss := Balances(participants, expenses, currencies, base), Settlements(participants, expenses, currencies, base);
            && (forall k :: 0 <= k < |ss| ==>
                  && ss[k].from != ss[k].to
                  && ss[k].from in ParticipantIds(participants) && ss[k].to in ParticipantIds(participants)
                  && Balance(t, ss[k].from) < -Epsilon && Balance(t, ss[k].to) > Epsilon
                  && ss[k].amount > Epsilon)
            && PaidBy(ss, who) <= (if Balance(t, who) < -Epsilon then -Balance(t, who) else 0.0)
            && ReceivedBy(ss, who) <= (if Balance(t, who) > Epsilon then Balance(t, who) else 0.0)
  {
    var t := Balances(participants, expenses, currencies, base);
    BalancesFacts(participants, expenses, currencies, base);
    PlanParties(t, SweepRule);
    SweepAmounts(Creditors(t), Debtors(t), SweepRule);
    PlanConserves(t, false, who);
  }

  /** `totalExpenses` is the total of the converted amounts the balances
      are built from. */
  lemma {:induction false} TotalIsPaid(expenses: seq<Expense>, currencies: seq<Currency>, base: string)
    ensures TotalExpenses(expenses, currencies, base) == Paid(Postings(expenses, currencies, base))
    decreases |expenses|
  {
    if expenses != [] {
      var n := |expenses| - 1;
      TotalIsPaid(expenses[..n], currencies, base);
      assert Postings(expenses[..n], currencies, base) == Postings(expenses, currencies, base)[..n];
    }
  }

  /** A group spending only in the base currency gets the same total and
      the same settlements whatever the currency list holds. */
  lemma SingleCurrencyIgnoresRates(participants: seq<Participant>, expenses: seq<Expense>,
                                   c1: seq<Currency>, c2: seq<Currency>, base: string)
    requires ValidExpenses(participants, expenses)
    requires forall k :: 0 <= k < |expenses| ==> expenses[k].currency == base
    ensures TotalExpenses(expenses, c1, base) == TotalExpenses(expenses, c2, base)
    ensures Settlements(participants, expenses, c1, base) == Settlements(participants, expenses, c2, base)
  {
    forall k | 0 <= k < |expenses|
      ensures ToPosting(expenses[k], c1, base) == ToPosting(expenses[k], c2, base)
    {
      ConversionFacts(expenses[k].amount, base, c1, base);
      ConversionFacts(expenses[k].amount, base, c2, base);
    }
    assert Postings(expenses, c1, base) == Postings(expenses, c2, base);
    TotalIsPaid(expenses, c1, base);
    TotalIsPaid(expenses, c2, base);
  }
}
