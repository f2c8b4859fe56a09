/** `utils/settlement.ts`: `calculateSettlements(people, expenses,
    exchangeRates, baseCurrency)`. Converts by `amount * (rate || 1)`,
    rounds every balance to the cent before classifying it, keeps debts as
    positive amounts, and sweeps with indices, passing a party once its
    remainder is below 0.01. */
module UtilsSettlement {
  import opened Money
  import opened Ledger
  import opened Ordering
  import opened Greedy
  import opened Matching
  import opened Shares

  datatype Person = Person(id: string, name: string)

  datatype Expense = Expense(
    id: string,
    payerId: string,
    amount: real,
    currency: string,
    description: string,
    participantIds: seq<string>,
    date: string)

  /** Currency code to multiplier into the base currency. */
  type ExchangeRate = map<string, real>

  /** How this variant closes a party and what it emits. */
  const SweepRule: Rule := Rule(false, true)

  function PersonIds(people: seq<Person>): (r: seq<string>)
    ensures |r| == |people| && forall k :: 0 <= k < |people| ==> r[k] == people[k].id
  {
    seq(|people|, k requires 0 <= k < |people| => people[k].id)
  }

  /** The checks the expense form performs before an expense reaches the
      engine, plus the requirement that every id names a participant. */
  predicate ValidExpenses(people: seq<Person>, expenses: seq<Expense>) {
    forall e :: e in expenses ==>
      && e.payerId in PersonIds(people)
      && |e.participantIds| > 0
      && forall k :: 0 <= k < |e.participantIds| ==> e.participantIds[k] in PersonIds(people)
  }

  /** `expense.currency === baseCurrency ? 1 : (exchangeRates[expense.currency] || 1)`. */
  function Rate(currency: string, rates: ExchangeRate, base: string): (r: real)
    ensures currency == base ==> r == 1.0
    ensures currency !in rates || rates[currency] == 0.0 ==> r == 1.0
    ensures currency != base && currency in rates && rates[currency] != 0.0 ==> r == rates[currency]
  {
    if currency == base then 1.0 else OrOne(Lookup(rates, currency))
  }

  /** `amountInBaseCurrency = expense.amount * rate`. */
  function InBase(e: Expense, rates: ExchangeRate, base: string): real {
    e.amount * Rate(e.currency, rates, base)
  }

  function ToPosting(e: Expense, rates: ExchangeRate, base: string): Posting {
    Posting(e.payerId, e.participantIds, InBase(e, rates, base))
  }

  function Postings(expenses: seq<Expense>, rates: ExchangeRate, base: string): (r: seq<Posting>)
    ensures |r| == |expenses| && forall k :: 0 <= k < |expenses| ==> r[k] == ToPosting(expenses[k], rates, base)
  {
    seq(|expenses|, k requires 0 <= k < |expenses| => ToPosting(expenses[k], rates, base))
  }

  lemma PostingsKnown(people: seq<Person>, expenses: seq<Expense>, rates: ExchangeRate, base: string)
    requires ValidExpenses(people, expenses)
    ensures AllKnown(Init(PersonIds(people)), Postings(expenses, rates, base))
  {
    InitFacts(PersonIds(people));
    var ps := Postings(expenses, rates, base);
    forall k | 0 <= k < |ps| ensures Known(Init(PersonIds(people)), ps[k]) {
      assert expenses[k] in expenses;
    }
  }

  /** The `balances` dictionary after both `forEach` loops. */
  function Balances(people: seq<Person>, expenses: seq<Expense>, rates: ExchangeRate, base: string): Table
    requires ValidExpenses(people, expenses)
  {
    PostingsKnown(people, expenses, rates, base);
    Accumulate(Init(PersonIds(people)), Postings(expenses, rates, base))
  }

  /** The settlements `calculateSettlements` returns: the sweep over the
      cent-rounded balances. */
  function Settlements(people: seq<Person>, expenses: seq<Expense>, rates: ExchangeRate, base: string): seq<Settlement>
    requires ValidExpenses(people, expenses)
  {
    Plan(Rounded(Balances(people, expenses, rates, base)), SweepRule)
  }

  // ---------------------------------------------------------------------------
  // The code, step by step

  method CalculateSettlements(people: seq<Person>, expenses: seq<Expense>, rates: ExchangeRate, base: string)
    returns (settlements: seq<Settlement>)
    requires ValidExpenses(people, expenses)
    ensures settlements == Settlements(people, expenses, rates, base)
  {
    var balances := CalculateBalances(people, expenses, rates, base);
    var creditors, debtors := Separate(balances);
    creditors := Sort(creditors, Descending);
    debtors := Sort(debtors, Descending);
    settlements := Match(creditors, debtors);
  }

  /** Lines 10-33: initialise every person to 0, then credit each payer and
      debit each participant. */
  method CalculateBalances(people: seq<Person>, expenses: seq<Expense>, rates: ExchangeRate, base: string)
    returns (balances: Table)
    requires ValidExpenses(people, expenses)
    ensures balances == Balances(people, expenses, rates, base)
  {
    balances := InitBalances(PersonIds(people));
    PostingsKnown(people, expenses, rates, base);
    ghost var ps := Postings(expenses, rates, base);
    ghost var goal := Accumulate(balances, ps);
    var i := 0;
    assert ps[i..] == ps;
    while i < |expenses|
      invariant 0 <= i <= |expenses|
      invariant AllKnown(balances, ps[i..]) && Accumulate(balances, ps[i..]) == goal
    {
      var expense := expenses[i];
      var amountInBaseCurrency := InBase(expense, rates, base);
      var posting := Posting(expense.payerId, expense.participantIds, amountInBaseCurrency);
      assert posting == ps[i];
      AccumulateStep(balances, ps, i);
      balances := ApplyExpense(balances, posting);
      i := i + 1;
    }
  }

  /** Lines 36-50: round each balance to the cent, then push it to
      `creditors` when above 0.01, or its negation to `debtors` when below
      -0.01. */
  method Separate(balances: Table) returns (creditors: Table, debtors: Table)
    ensures creditors == Above(Rounded(balances), Epsilon)
    ensures debtors == Negated(Below(Rounded(balances), -Epsilon))
  {
    creditors, debtors := [], [];
    ghost var rounded := Rounded(balances);
    var k := 0;
    while k < |balances|
      invariant 0 <= k <= |balances|
      invariant creditors == Above(rounded[..k], Epsilon)
      invariant debtors == Negated(Below(rounded[..k], -Epsilon))
    {
      var personId, balance := balances[k].id, balances[k].amount;
      var roundedBalance := Round2(balance);
      assert rounded[..k + 1] == rounded[..k] + [Entry(personId, roundedBalance)];
      AboveSnoc(rounded[..k], Entry(personId, roundedBalance), Epsilon);
      BelowSnoc(rounded[..k], Entry(personId, roundedBalance), -Epsilon);
      if roundedBalance > Epsilon {
        creditors := creditors + [Entry(personId, roundedBalance)];
      } else if roundedBalance < -Epsilon {
        NegatedSnoc(Below(rounded[..k], -Epsilon), Entry(personId, roundedBalance));
        debtors := debtors + [Entry(personId, -roundedBalance)];
      }
      k := k + 1;
    }
    assert rounded[..k] == rounded;
  }

  /** Lines 57-77: the two-index sweep. Each step settles
      `min(creditor, debtor)`, records it (rounded) when above 0.01,
      subtracts it from both, and moves past whichever party fell below
      0.01. */
  method Match(creditors: Table, debtors: Table) returns (settlements: seq<Settlement>)
    ensures settlements == Sweep(creditors, debtors, SweepRule)
  {
    var cs, ds := creditors, debtors;
    settlements := [];
    var i, j := 0, 0;
    assert cs[i..] == cs && ds[j..] == ds;
    while i < |cs| && j < |ds|
      invariant |cs| == |creditors| && |ds| == |debtors|
      invariant 0 <= i <= |cs| && 0 <= j <= |ds|
      invariant settlements + Sweep(cs[i..], ds[j..], SweepRule) == Sweep(creditors, debtors, SweepRule)
      decreases |cs| - i + |ds| - j
    {
      var creditor, debtor := cs[i], ds[j];
      var settlementAmount := Min(creditor.amount, debtor.amount);
      ghost var i0, j0, cs0, ds0, done := i, j, cs, ds, settlements;
      if settlementAmount > Epsilon {
        settlements := settlements + [Settlement(debtor.id, creditor.id, Round2(settlementAmount))];
      }
      var creditorLeft := Entry(creditor.id, creditor.amount - settlementAmount);
      var debtorLeft := Entry(debtor.id, debtor.amount - settlementAmount);
      cs := cs[i := creditorLeft];
      ds := ds[j := debtorLeft];
      if cs[i].amount < Epsilon {
        i := i + 1;
      }
      if ds[j].amount < Epsilon {
        j := j + 1;
      }
      SweepTurn(cs0, i0, ds0, j0, SweepRule, done, Sweep(creditors, debtors, SweepRule),
                settlementAmount, settlements, creditorLeft, i, debtorLeft, j);
    }
  }

  // ---------------------------------------------------------------------------
  // Properties

  /** Balances are keyed by person, one entry for each distinct person id,
      and sum to zero. */
  lemma BalancesFacts(people: seq<Person>, expenses: seq<Expense>, rates: ExchangeRate, base: string)
    requires ValidExpenses(people, expenses)
    ensures Keyed(Balances(people, expenses, rates, base))
    ensures |Balances(people, expenses, rates, base)| <= |people|
    ensures forall x :: x in Ids(Balances(people, expenses, rates, base)) <==> x in PersonIds(people)
    ensures Sum(Balances(people, expenses, rates, base)) == 0.0
  {
    PostingsKnown(people, expenses, rates, base);
    PostedFacts(PersonIds(people), Postings(expenses, rates, base));
  }

  /** `expense.currency === baseCurrency ? 1 : ...`: an expense in the base
      currency is taken at face value whatever the table says, and so is
      one whose currency is missing from the table or has rate 0. */
  lemma ConversionFacts(e: Expense, rates: ExchangeRate, base: string)
    ensures e.currency == base ==> InBase(e, rates, base) == e.amount
    ensures e.currency !in rates || rates[e.currency] == 0.0 ==> InBase(e, rates, base) == e.amount
  {
  }

  /** A group that spends only in the base currency settles the same way
      whatever rate table is in effect. */
  lemma SingleCurrencyIgnoresRates(people: seq<Person>, expenses: seq<Expense>, r1: ExchangeRate, r2: ExchangeRate, base: string)
    requires ValidExpenses(people, expenses)
    requires forall k :: 0 <= k < |expenses| ==> expenses[k].currency == base
    ensures Settlements(people, expenses, r1, base) == Settlements(people, expenses, r2, base)
  {
    forall k | 0 <= k < |expenses|
      ensures ToPosting(expenses[k], r1, base) == ToPosting(expenses[k], r2, base)
    {
      ConversionFacts(expenses[k], r1, base);
      ConversionFacts(expenses[k], r2, base);
    }
    assert Postings(expenses, r1, base) == Postings(expenses, r2, base);
  }

  lemma RoundedKeyed(t: Table)
    requires Keyed(t)
    ensures Keyed(Rounded(t)) && AllCents(Rounded(t))
  {
    assert Ids(Rounded(t)) == Ids(t);
    KeyedSameIds(t, Rounded(t));
    forall k | 0 <= k < |t| ensures IsCents(Rounded(t)[k].amount) {
      assert Rounded(t)[k].amount == Round2(t[k].amount);
    }
  }

  /** The split, person by person: someone is a creditor for their rounded
      balance exactly when it is above 0.01, a debtor for its negation
      exactly when it is below -0.01, and never both; both lists are in
      non-increasing order and in whole cents. */
  lemma Classification(people: seq<Person>, expenses: seq<Expense>, rates: ExchangeRate, base: string, who: string)
    requires ValidExpenses(people, expenses)
    ensures var r := Rounded(Balances(people, expenses, rates, base));
            && Balance(Creditors(r), who) == (if Round2(Balance(Balances(people, expenses, rates, base), who)) > Epsilon
                                              then Round2(Balance(Balances(people, expenses, rates, base), who)) else 0.0)
            && Balance(Debtors(r), who) == (if Round2(Balance(Balances(people, expenses, rates, base), who)) < -Epsilon
                                            then -Round2(Balance(Balances(people, expenses, rates, base), who)) else 0.0)
            && (who in Ids(Creditors(r)) ==> who !in Ids(Debtors(r)))
            && Sorted(Creditors(r), Descending) && Sorted(Debtors(r), Descending)
            && AllCents(Creditors(r)) && AllCents(Debtors(r))
  {
    var t := Balances(people, expenses, rates, base);
    BalancesFacts(people, expenses, rates, base);
    RoundedKeyed(t);
    BalanceRounded(t, who);
    ClassifiedBalance(Rounded(t), who);
    CreditorsDebtorsDisjoint(Rounded(t));
    CreditorsFacts(Rounded(t));
    DebtorsFacts(Rounded(t));
    PlanOfCents(Rounded(t), false);
  }

  /** Transfer count: none when either list is empty, otherwise at most one
      fewer than creditors and debtors together, and fewer than the people
      in the group. */
  lemma SettlementCount(people: seq<Person>, expenses: seq<Expense>, rates: ExchangeRate, base: string)
    requires ValidExpenses(people, expenses)
    ensures var r := Rounded(Balances(people, expenses, rates, base));
            Creditors(r) == [] || Debtors(r) == [] ==> Settlements(people, expenses, rates, base) == []
    ensures var r := Rounded(Balances(people, expenses, rates, base));
            Creditors(r) != [] && Debtors(r) != [] ==>
              |Settlements(people, expenses, rates, base)| <= |Creditors(r)| + |Debtors(r)| - 1
    ensures people == [] ==> Settlements(people, expenses, rates, base) == []
    ensures people != [] ==> |Settlements(people, expenses, rates, base)| < |people|
  {
    BalancesFacts(people, expenses, rates, base);
    PlanCount(Rounded(Balances(people, expenses, rates, base)), SweepRule);
  }

  /** With no expenses every balance is 0 and nobody pays anybody. */
  lemma NoExpensesNoSettlements(people: seq<Person>, rates: ExchangeRate, base: string)
    ensures Settlements(people, [], rates, base) == []
  {
    var t := Balances(people, [], rates, base);
    InitFacts(PersonIds(people));
    assert t == Init(PersonIds(people));
    RoundCentsIsIdentity(0.0);
    PlanOfSmall(Rounded(t), SweepRule);
  }

  /** Balances are not always brought within 0.01: three people each pay
      0.02 in the base currency for an expense shared with a fourth, who
      is left owing 0.03 while no transfer is produced. */
  lemma ResidualDebt(people: seq<Person>, expenses: seq<Expense>, rates: ExchangeRate, base: string,
                     a: string, b: string, c: string, d: string)
    requires a in PersonIds(people) && b in PersonIds(people) && c in PersonIds(people) && d in PersonIds(people)
    requires a != b && a != c && b != c && d != a && d != b && d != c
    requires |expenses| == 3
    requires expenses[0].payerId == a && expenses[0].participantIds == [a, d]
    requires expenses[1].payerId == b && expenses[1].participantIds == [b, d]
    requires expenses[2].payerId == c && expenses[2].participantIds == [c, d]
    requires forall k :: 0 <= k < 3 ==> expenses[k].amount == 0.02 && expenses[k].currency == base
    ensures ValidExpenses(people, expenses)
    ensures Balance(Rounded(Balances(people, expenses, rates, base)), d) == -0.03
    ensures Settlements(people, expenses, rates, base) == []
  {
    assert ValidExpenses(people, expenses) by {
      forall e | e in expenses ensures e == expenses[0] || e == expenses[1] || e == expenses[2] { }
    }
    assert Postings(expenses, rates, base) == DeadZone(a, b, c, d);
    UnsettledDebt(PersonIds(people), a, b, c, d, SweepRule);
  }

  /** Every transfer runs from a person whose rounded balance is below
      -0.01 to a different person whose rounded balance is above 0.01,
      both members of the group. */
  lemma SettlementParties(people: seq<Person>, expenses: seq<Expense>, rates: ExchangeRate, base: string)
    requires ValidExpenses(people, expenses)
    ensures var t, ss := Balances(people, expenses, rates, base), Settlements(people, expenses, rates, base);
            forall k :: 0 <= k < |ss| ==>
              && ss[k].from != ss[k].to
              && ss[k].from in PersonIds(people) && ss[k].to in PersonIds(people)
              && Round2(Balance(t, ss[k].from)) < -Epsilon && Round2(Balance(t, ss[k].to)) > Epsilon
  {
    var t, ss := Balances(people, expenses, rates, base), Settlements(people, expenses, rates, base);
    BalancesFacts(people, expenses, rates, base);
    RoundedKeyed(t);
    PlanParties(Rounded(t), SweepRule);
    assert Ids(Rounded(t)) == Ids(t);
    forall k | 0 <= k < |ss|
      ensures Round2(Balance(t, ss[k].from)) < -Epsilon && Round2(Balance(t, ss[k].to)) > Epsilon
    {
      BalanceRounded(t, ss[k].from);
      BalanceRounded(t, ss[k].to);
    }
  }

  /** Every transfer is a whole number of cents above 0.01: rounding the
      balances first makes every amount the sweep meets whole cents. */
  lemma SettlementAmounts(people: seq<Person>, expenses: seq<Expense>, rates: ExchangeRate, base: string)
    requires ValidExpenses(people, expenses)
    ensures var ss := Settlements(people, expenses, rates, base);
            forall k :: 0 <= k < |ss| ==> ss[k].amount > Epsilon && IsCents(ss[k].amount)
  {
    var r := Rounded(Balances(people, expenses, rates, base));
    BalancesFacts(people, expenses, rates, base);
    RoundedKeyed(Balances(people, expenses, rates, base));
    PlanOfCents(r, false);
    SweepAmounts(Creditors(r), Debtors(r), SweepRule);
    SweepAmounts(Creditors(r), Debtors(r), Rule(false, false));
  }

  /** Nobody pays more than their rounded debt, nor receives more than
      their rounded credit. */
  lemma SettlementConservation(people: seq<Person>, expenses: seq<Expense>, rates: ExchangeRate, base: string, who: string)
    requires ValidExpenses(people, expenses)
    ensures var v := Round2(Balance(Balances(people, expenses, rates, base), who));
            PaidBy(Settlements(people, expenses, rates, base), who) <= if v < -Epsilon then -v else 0.0
    ensures var v := Round2(Balance(Balances(people, expenses, rates, base), who));
            ReceivedBy(Settlements(people, expenses, rates, base), who) <= if v > Epsilon then v else 0.0
  {
    var t := Balances(people, expenses, rates, base);
    BalancesFacts(people, expenses, rates, base);
    RoundedKeyed(t);
    PlanOfCents(Rounded(t), false);
    PlanConserves(Rounded(t), false, who);
    BalanceRounded(t, who);
  }
}
