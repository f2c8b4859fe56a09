# Group-expense settlement, modelled in Dafny

The repository is a group-expense splitting app. Its only algorithmic part is the settlement engine, which appears in four near-duplicate variants. Each variant takes:

- the participants;
- the expenses, each with a payer, an amount, a currency and the people sharing it;
- a rate table and a base currency.

It returns the pairwise transfers that settle the group, in three steps:

1. It converts each expense into the base currency. A missing or zero rate counts as 1 (JavaScript's `rate || 1`).
2. It builds a signed balance per person: the payer is credited the converted amount and each sharer is debited `amount / sharers.length`.
3. It splits the balances into creditors (above 0.01) and debtors (below -0.01), sorts both by size, largest first, and runs a two-index sweep. Each step settles `min(credit, debt)`, emits it when above 0.01, and moves past whichever party has come within 0.01 of zero.

The second, smaller core is the `Calculator` class of `src/calculator.js`. It keeps a running `result` and a `history`, and `divide` has a divide-by-zero error path.

## Layout

| file | module | contents |
|---|---|---|
| `money.dfy` | `Money` | the 0.01 tolerance, `Math.round(x * 100) / 100`, `Math.min`, `Math.abs`, `v \|\| 1`, rate lookup in a currency list |
| `ledger.dfy` | `Ledger` | the balance dictionary as the sequence of its `Object.entries` in insertion order; initialisation; crediting and debiting; the two filters; the zero-sum proofs |
| `ordering.dfy` | `Ordering` | `Array.prototype.sort` with a numeric comparator, as a stable insertion sort: sorted, a permutation, stable |
| `greedy.dfy` | `Greedy` | `Sweep`, the one specification function for the two-index sweep, parameterised by a `Rule`. The rule says whether a party closes at `< 0.01` or `<= 0.01` and whether emitted amounts are rounded. Termination, count, endpoint, amount and conservation lemmas are proved once, for every rule |
| `shares.dfy` | `Shares` | each person's balance in closed form: what they paid less their shares, summed over the expenses |
| `matching.dfy` | `Matching` | the creditor/debtor split of a balance table and the sweep over it (`Plan`), with the per-person classification |
| `utils_settlement.dfy` | `UtilsSettlement` | `utils/settlement.ts` |
| `src_settlement_view.dfy` | `SrcSettlementView` | `src/components/SettlementView.tsx` |
| `app_settlement.dfy` | `AppSettlement` | `app/components/Settlement.tsx` |
| `components_settlement.dfy` | `ComponentsSettlement` | `components/Settlement.tsx` |
| `calculator.dfy` | `SrcCalculator` | `src/calculator.js` |

Each variant module works in two layers.

- **Code layer.** The source's loops are written as methods with `while` loops: the balance loop over the expenses, the loop over the sharers, the creditor/debtor split, and the sweep (by indices, or by `shift()` in the `app` variant). Each method is proved equal to a specification function.
- **Property layer.** The variant's properties are lemmas about those functions. Most of them are instances of the shared lemmas in `Greedy` and `Matching`.

What tells the variants apart is kept apart:

| variant | conversion | base-currency shortcut | balances rounded first | emitted amounts | sweep |
|---|---|---|---|---|---|
| `utils` | `amount * (rates[c] \|\| 1)` | yes | yes, to the cent | rounded | indices, `< 0.01` |
| `src` | `(amount / fromRate) * toRate` | yes | no | rounded, tagged with the base currency | indices, `< 0.01` |
| `app` | `(amount * fromRate) / baseRate` | no | no | unrounded | `shift()`, `< 0.01` and `Math.abs(debt) < 0.01` |
| `components` | `amount * (rates[cur] \|\| 1) / (rates[expense.currency] \|\| 1)` | yes | no | rounded | indices, `<= 0.01` and `>= -0.01` |

Three points of the code that the model keeps exactly as written:

- **Rounding.** `Math.round(x * 100) / 100` rounds halves toward positive infinity, so -0.005 rounds to -0 and 0.005 to 0.01. `Money.Round2` models that: `Floor(100x + 1/2) / 100`.
- **Conversion.** Each variant has its own conversion formula, and the model keeps each one. The `src` and `app` variants read a currency record's `rate` in opposite directions: `src` divides by it, `app` multiplies by it.
- **Non-positive rates.** `rate || 1` maps only `undefined` and `0` to 1. A negative rate passes through unchanged, in the code and in the model.

Amounts and rates are exact reals. Under this model, the sum of all balances is exactly 0.

## Residual balances

The transfers do not always bring every balance to within 0.01 of zero, in any of the four variants. Balances between -0.01 and 0.01 are passed over by the split, yet they still count towards the zero sum, so a debt can be left with nobody to pay it to.

Example: `a`, `b` and `c` each pay 0.02 in the base currency, and each expense is shared by its payer and `d`. Then `a`, `b` and `c` are each 0.01 up, `d` is 0.03 down, and no balance is above 0.01. No transfer is produced and `d` keeps owing 0.03. `Matching.UnsettledDebt` proves this for every sweep rule, with and without the cent rounding: from the balances the expenses produce, the plan is empty while `d` still owes 0.03. Each variant's `ResidualDebt` lemma proves it for that variant's own `Settlements`.

What does hold:

- the balances sum to exactly 0 (`PostedFacts` and each variant's `BalancesFacts`);
- each person's balance is what they paid less their shares (`Shares.PostedBalance`);
- no debtor pays more than they owe and no creditor receives more than they are owed (`PlanConserves`, `SettlementConservation`);
- a table whose balances all lie within ±0.01 produces no transfers (`PlanOfSmall`).

## Model

| member | source | states |
|---|---|---|
| Money.Round2 | utils/settlement.ts:43 | `Math.round(x * 100) / 100` is a whole number of cents within half a cent of `x`, ties going up |
| Money.RoundCentsIsIdentity | utils/settlement.ts:68 | rounding an amount that is already whole cents leaves it unchanged |
| Money.RoundMonotone | utils/settlement.ts:43 | cent rounding is monotone |
| Money.RoundAboveEpsilon | utils/settlement.ts:64-68 | an amount above 0.01 rounds to at least 0.01, so no emitted transfer rounds to zero |
| Money.Min | utils/settlement.ts:62 | `Math.min(a, b)` is one of `a`, `b` and at most both |
| Money.Abs | app/components/Settlement.tsx:65 | `Math.abs(x)` is non-negative and is `x` or `-x` |
| Money.OrOne | utils/settlement.ts:20 | `v \|\| 1` on a number that may be `undefined`: `undefined` and `0` give 1, any other number passes through, the result is never 0 |
| Money.FindRate | src/components/SettlementView.tsx:21 | `currencies.find(c => c.code === code)?.rate` is `undefined` exactly when no record has the code, and otherwise is the rate of the first record with it |
| Money.RateOf | src/components/SettlementView.tsx:21-22 | `find(...)?.rate \|\| 1` is never 0, so the conversions never divide by zero |
| Ledger.Set | utils/settlement.ts:14 | `balances[id] = v` overwrites an existing key in place (same keys, same order) and appends an absent key at the end. Afterwards `id` reads `v` and every other key reads what it read before |
| Ledger.Add | utils/settlement.ts:27 | `balances[id] += x` on an existing key keeps the keys and raises the total by `x` |
| Ledger.AddBalance | utils/settlement.ts:27-31 | `balances[id] += x` changes the balance of `id` by `x` and no one else's |
| Ledger.InitBalances | utils/settlement.ts:13-15 | the initialising `forEach` loop builds the table `Init` of the person ids |
| Ledger.InitFacts | utils/settlement.ts:12-15 | after initialisation every person has one zero entry and nobody else has one. No key occurs twice and the total is 0. With distinct ids the entries are in person order |
| Ledger.ShareTimesSharers | utils/settlement.ts:24-32 | the sharers together are debited exactly the expense amount, a repeated sharer counting once per occurrence |
| Ledger.DebitSum | utils/settlement.ts:30-32 | debiting `share` from each of `n` sharer ids lowers the total by `n` shares |
| Ledger.PostSum | utils/settlement.ts:23-32 | one expense leaves the total of all balances unchanged |
| Ledger.ApplyExpense | utils/settlement.ts:23-32 | the loop body for one expense credits the payer the amount and then debits each sharer its share, in order |
| Ledger.AccumulateSum | utils/settlement.ts:18-33 | processing every expense (all ids known) leaves the total of the balances where it started |
| Ledger.PostedFacts | utils/settlement.ts:10-33 | the finished balance table has one entry per distinct person, no key twice, and sums to exactly 0 |
| Ledger.BalanceRounded | utils/settlement.ts:43 | rounding every entry rounds each person's balance |
| Ledger.FilterFacts | src/components/SettlementView.tsx:52-58 | `filter(b > bound)` keeps exactly the entries above the bound, and `filter(b < bound)` exactly those below it, each as a subsequence in table order. A table with no repeated key stays that way |
| Ledger.AboveNone | src/components/SettlementView.tsx:52-55 | when no entry is above the bound, `filter(b > bound)` is empty |
| Ledger.SplitLength | utils/settlement.ts:45-49 | with the ±0.01 bounds the two filtered lists together are no longer than the table |
| Ledger.Disjoint | utils/settlement.ts:45-49 | nobody is both above 0.01 and below -0.01 |
| Shares.DebitBalance | utils/settlement.ts:30-32 | debiting each sharer lowers a person's balance by one share per occurrence among the sharers, and nobody else's |
| Shares.PostBalance | utils/settlement.ts:20-32 | one expense changes a person's balance by the amount if they paid it, less their shares |
| Shares.AccumulateBalance | utils/settlement.ts:18-33 | processing every expense changes a person's balance by the sum, over the expenses, of what they paid less their shares |
| Shares.PostedBalance | utils/settlement.ts:10-33 | from zero initial balances, each person's balance is exactly what they paid less their shares |
| Shares.EffectPair | utils/settlement.ts:24-32 | an expense shared by its payer and one other person leaves the payer half the amount up and the other half the amount down |
| Shares.DeadZoneNet | utils/settlement.ts:18-33 | three expenses of 0.02, each shared by its payer and a fourth person, leave each payer 0.01 up and the fourth person 0.03 down |
| Ordering.SortFacts | utils/settlement.ts:53-54 | the sort puts the entries in order of the comparator and is a permutation of its input |
| Ordering.SortStable | utils/settlement.ts:53-54 | entries of equal amount keep their original relative order (a stable sort) |
| Ordering.SortKeepsIds | utils/settlement.ts:53-54 | sorting keeps the length, the set of ids, and the absence of repeated keys |
| Ordering.SortNegated | src/components/SettlementView.tsx:57-60 | sorting signed balances ascending and then negating gives the same list as negating first and sorting descending |
| Greedy.SweepTurn | utils/settlement.ts:59-76 | one turn of the index loop preserves "recorded so far + `Sweep` of the suffixes = the whole sweep". The turn advances `i` or `j` or both, never moves either back, and leaves both remainders non-negative |
| Greedy.SweepBound | utils/settlement.ts:57-77 | no transfer when either list is empty; otherwise at most `\|creditors\| + \|debtors\| - 1` transfers |
| Greedy.SweepEndpoints | utils/settlement.ts:64-70 | every transfer goes from a debtor to a creditor, and never to the payer itself when nobody is on both sides |
| Greedy.SweepAmounts | utils/settlement.ts:64-70 | every emitted amount is at least 0.01. Unrounded, it is above 0.01. Rounded, it is a whole number of cents |
| Greedy.RoundingIsIdentityOnCents | utils/settlement.ts:43-68 | on whole-cent lists the rounded and unrounded sweeps emit the same transfers |
| Greedy.RoundedSweep | src/components/SettlementView.tsx:68-74 | rounding touches only the amounts: the rounded sweep is the unrounded one with each amount rounded to the cent |
| Greedy.AfterBalance | utils/settlement.ts:62-76 | settling `min` against the front party keeps every remainder positive and lowers the front party's amount by at least `min`. Every other party is unchanged |
| Greedy.SweepConserves | app/components/Settlement.tsx:61-85 | in the unrounded sweep no debtor pays more than it owes and no creditor receives more than it is owed |
| Matching.CreditorsFacts | src/components/SettlementView.tsx:52-55 | the creditor list holds exactly the entries above 0.01, each person once, in non-increasing order |
| Matching.DebtorsFacts | utils/settlement.ts:47-54 | the debtor list holds exactly the entries below -0.01, negated, each person once, in non-increasing order of the amount owed |
| Matching.CreditorsDebtorsDisjoint | utils/settlement.ts:45-49 | nobody is both a creditor and a debtor |
| Matching.ClassifiedBalance | src/components/SettlementView.tsx:52-60 | person by person: a creditor for the whole balance exactly when it is above 0.01, and a debtor for its negation exactly when it is below -0.01 |
| Matching.AbsoluteAscendingIsDebtors | src/components/SettlementView.tsx:57-60 | `Math.abs` of the ascending sort of the negative entries is the debtor list |
| Matching.PlanCount | utils/settlement.ts:57-77 | the transfer count is at most one fewer than the creditors and debtors together, and so fewer than the people |
| Matching.PlanOfSmall | utils/settlement.ts:45-49 | a table whose balances all lie within ±0.01 produces no transfers |
| Matching.NoCreditorsNoPlan | utils/settlement.ts:45-58 | with no balance above 0.01 there are no creditors, and the sweep produces no transfer |
| Matching.UnsettledDebt | utils/settlement.ts:10-77 | the balances of the three 0.02 expenses leave one person owing 0.03 (also after cent rounding), yet the plan is empty under every rule, rounded or not |
| Matching.PlanParties | utils/settlement.ts:64-70 | every transfer runs from someone below -0.01 to a different person above 0.01, both in the table |
| Matching.PlanConserves | app/components/Settlement.tsx:61-85 | unrounded, nobody pays more than their debt nor receives more than their credit |
| Matching.PlanOfCents | utils/settlement.ts:43-68 | on cent-rounded balances both lists are whole cents and rounding the emitted amounts changes nothing |
| UtilsSettlement.Rate | utils/settlement.ts:20 | the base currency has rate 1 whatever the table holds. An absent or zero rate is 1. Otherwise the rate is the table's |
| UtilsSettlement.CalculateSettlements | utils/settlement.ts:3-80 | the whole function returns `Settlements`: the sweep over the cent-rounded balances |
| UtilsSettlement.CalculateBalances | utils/settlement.ts:10-33 | the two `forEach` loops build `Balances` |
| UtilsSettlement.Separate | utils/settlement.ts:40-50 | the `Object.entries` loop pushes the rounded balance to `creditors` exactly when above 0.01, and its negation to `debtors` when below -0.01, in entry order |
| UtilsSettlement.Match | utils/settlement.ts:57-77 | the `while` loop returns `Sweep(creditors, debtors)` under this variant's rule (`< 0.01`, rounded) |
| UtilsSettlement.BalancesFacts | utils/settlement.ts:12-33 | balances: one entry per distinct person, no key twice, summing to 0 |
| UtilsSettlement.ConversionFacts | utils/settlement.ts:20-21 | an expense in the base currency, or in a currency with no or zero rate, is taken at face value |
| UtilsSettlement.SingleCurrencyIgnoresRates | utils/settlement.ts:18-21 | when every expense is in the base currency, the settlements do not depend on the rate table |
| UtilsSettlement.RoundedKeyed | utils/settlement.ts:41-43 | the rounded balances have distinct keys and are whole cents |
| UtilsSettlement.Classification | utils/settlement.ts:41-54 | someone is a creditor exactly when their rounded balance is above 0.01, and a debtor for its negation exactly when it is below -0.01. Nobody is both. Both lists are sorted non-increasing and in whole cents |
| UtilsSettlement.SettlementCount | utils/settlement.ts:57-77 | no transfers when either list is empty; otherwise at most `\|creditors\| + \|debtors\| - 1`, and fewer than the people |
| UtilsSettlement.NoExpensesNoSettlements | utils/settlement.ts:10-50 | with no expenses nobody pays anybody |
| UtilsSettlement.ResidualDebt | utils/settlement.ts:3-80 | three valid 0.02 expenses leave one person with a rounded balance of -0.03, and `calculateSettlements` returns no transfer |
| UtilsSettlement.SettlementParties | utils/settlement.ts:64-70 | every transfer goes from a person whose rounded balance is below -0.01 to a different person above 0.01, both in the group |
| UtilsSettlement.SettlementAmounts | utils/settlement.ts:62-70 | every transfer is more than 0.01 and a whole number of cents |
| UtilsSettlement.SettlementConservation | utils/settlement.ts:62-76 | nobody pays more than their rounded debt nor receives more than their rounded credit |
| SrcSettlementView.ConversionFacts | src/components/SettlementView.tsx:18-25 | the base currency comes back unchanged. Otherwise the result times the source rate equals the amount times the base rate, absent and zero rates counting as 1. Equal rates also give the amount back |
| SrcSettlementView.Tagged | src/components/SettlementView.tsx:71-76 | each transfer is reported with `currency: baseCurrency` and otherwise unchanged |
| SrcSettlementView.CalculateBalances | src/components/SettlementView.tsx:27-46 | `calculateBalances()` starts everyone at 0, credits the payer the converted amount and debits each `sharedBy` entry its share |
| SrcSettlementView.CalculateSettlements | src/components/SettlementView.tsx:48-87 | `calculateSettlements()` returns the tagged sweep over the unrounded balances |
| SrcSettlementView.Sweep | src/components/SettlementView.tsx:62-84 | the `while` loop returns the tagged `Sweep` under this variant's rule (`< 0.01`, rounded) |
| SrcSettlementView.BalancesFacts | src/components/SettlementView.tsx:27-46 | balances: one entry per distinct participant, no key twice, summing to 0 |
| SrcSettlementView.Classification | src/components/SettlementView.tsx:52-60 | creditors are exactly the balances above 0.01, in descending order. Debtors are exactly those below -0.01, as absolute values, in descending order. Nobody is both |
| SrcSettlementView.SettlementCount | src/components/SettlementView.tsx:62-84 | no transfers when either list is empty; otherwise at most `\|creditors\| + \|debtors\| - 1`, and fewer than the participants |
| SrcSettlementView.NoExpensesNoSettlements | src/components/SettlementView.tsx:27-87 | with no expenses nobody pays anybody |
| SrcSettlementView.ResidualDebt | src/components/SettlementView.tsx:27-87 | three valid 0.02 expenses leave one participant at -0.03, and `calculateSettlements()` returns no transfer |
| SrcSettlementView.SettlementParties | src/components/SettlementView.tsx:68-77 | every transfer goes from a debtor below -0.01 to a different creditor above 0.01, both participants. It is in the base currency and is a whole number of cents, at least 0.01 |
| SrcSettlementView.SettlementRounding | src/components/SettlementView.tsx:68-74 | each transfer is the cent-rounding of the matching unrounded transfer, and unrounded nobody pays or receives more than their balance |
| SrcSettlementView.TotalIsPaid | src/components/SettlementView.tsx:101-103 | `totalExpenses` is the total of the converted amounts the balances are built from |
| SrcSettlementView.SingleCurrencyIgnoresRates | src/components/SettlementView.tsx:18-25 | when every expense is in the base currency, the total and the settlements do not depend on the currency list |
| AppSettlement.ConversionFacts | app/components/Settlement.tsx:19-23 | there is no shortcut, yet a base-currency amount comes back unchanged. In general the result times the base rate equals the amount times the source rate |
| AppSettlement.CalculateBalances | app/components/Settlement.tsx:25-44 | `calculateBalances()` starts everyone at 0, credits the payer `amountInBase` and debits each `splitBetween` entry `perPerson` |
| AppSettlement.CalculateSettlements | app/components/Settlement.tsx:46-88 | `calculateSettlements()` returns the unrounded sweep over the balances |
| AppSettlement.Drain | app/components/Settlement.tsx:61-85 | the `shift()` loop returns `Sweep(creditors, negated debtors)` under this variant's rule (`< 0.01`, unrounded) |
| AppSettlement.DrainStep | app/components/Settlement.tsx:65-84 | in one turn the front credit stays at least 0 and the front debt at most 0. At least one front is shifted off, and the turn is one step of `Sweep` |
| AppSettlement.BalancesFacts | app/components/Settlement.tsx:25-44 | balances: one entry per distinct participant, no key twice, summing to 0 |
| AppSettlement.SignedDebtors | app/components/Settlement.tsx:54-56 | debtors are exactly the entries below -0.01, kept signed and sorted ascending, most negative first |
| AppSettlement.Classification | app/components/Settlement.tsx:50-56 | a creditor exactly when the balance is above 0.01 (sorted descending), a signed debtor exactly when below -0.01, never both |
| AppSettlement.SettlementCount | app/components/Settlement.tsx:61-85 | no transfers when either list is empty; otherwise at most `\|creditors\| + \|debtors\| - 1`, and fewer than the participants |
| AppSettlement.NoExpensesNoSettlements | app/components/Settlement.tsx:25-88 | with no expenses nobody pays anybody |
| AppSettlement.ResidualDebt | app/components/Settlement.tsx:25-88 | three valid 0.02 expenses leave one participant at -0.03, and `calculateSettlements()` returns no transfer |
| AppSettlement.SettlementParties | app/components/Settlement.tsx:65-73 | every transfer is more than 0.01 and goes from a debtor to a different creditor. No debtor pays more than its initial absolute balance, and no creditor receives more than its balance |
| AppSettlement.TotalIsPaid | app/components/Settlement.tsx:96-99 | `totalExpenses` is the total of the converted amounts the balances are built from |
| AppSettlement.SingleCurrencyIgnoresRates | app/components/Settlement.tsx:19-23 | when every expense is in the base currency, the total and the settlements do not depend on the currency list |
| ComponentsSettlement.ConversionFacts | components/Settlement.tsx:27-29 | an expense in the display currency is taken at face value. Otherwise the result times `rates[expense.currency] \|\| 1` equals the amount times `rates[currency] \|\| 1` |
| ComponentsSettlement.ComputeSettlements | components/Settlement.tsx:19-71 | the `useMemo` body returns the sweep over the unrounded balances |
| ComponentsSettlement.ComputeBalances | components/Settlement.tsx:20-38 | the balance loops start everyone at 0, credit the payer and debit each `splitBetween` entry `perPerson` |
| ComponentsSettlement.Sweep | components/Settlement.tsx:48-68 | the index loop over signed debts returns `Sweep(creditors, negated debtors)` under this variant's rule (`<= 0.01`, rounded) |
| ComponentsSettlement.SignedTurn | components/Settlement.tsx:53-67 | one turn preserves the loop invariant and advances `i` or `j` or both. The credit stays at least 0 and the debt at most 0. Debts from `j` on stay negative |
| ComponentsSettlement.BalancesFacts | components/Settlement.tsx:20-38 | balances: one entry per distinct participant, no key twice, summing to 0 |
| ComponentsSettlement.SignedDebtors | components/Settlement.tsx:44-46 | debtors are exactly the entries below -0.01, sorted ascending by signed balance, all negative |
| ComponentsSettlement.Classification | components/Settlement.tsx:41-46 | a creditor exactly when the balance is above 0.01 (sorted descending), a debtor exactly when below -0.01, never both |
| ComponentsSettlement.SettlementCount | components/Settlement.tsx:48-68 | no transfers when either list is empty; otherwise at most `\|creditors\| + \|debtors\| - 1`, and fewer than the participants |
| ComponentsSettlement.NoExpensesNoSettlements | components/Settlement.tsx:19-71 | with no expenses nobody pays anybody |
| ComponentsSettlement.ResidualDebt | components/Settlement.tsx:19-71 | three valid 0.02 expenses leave one participant at -0.03, and the `useMemo` body returns no transfer |
| ComponentsSettlement.SettlementParties | components/Settlement.tsx:53-61 | every transfer goes from a debtor below -0.01 to a different creditor above 0.01, both participants. It is a whole number of cents, at least 0.01 |
| ComponentsSettlement.SettlementRounding | components/Settlement.tsx:53-61 | each transfer is the cent-rounding of the matching unrounded transfer, and unrounded nobody pays or receives more than their balance |
| ComponentsSettlement.TotalIsPaid | components/Settlement.tsx:77-82 | `totalExpenses`, by the same conversion as the balances, is the total of the converted amounts |
| ComponentsSettlement.SingleCurrencyIgnoresRates | components/Settlement.tsx:26-38 | when every expense is in the display currency, the total and the settlements do not depend on the rate table |
| SrcCalculator.Calculator.constructor | src/calculator.js:8-11 | a new calculator has `result == 0` and an empty history |
| SrcCalculator.Calculator.Add | src/calculator.js:19-23 | `result` becomes `a + b` and is returned. Exactly one entry is appended and the earlier entries are unchanged |
| SrcCalculator.Calculator.Subtract | src/calculator.js:31-35 | `result` becomes `a - b` and is returned. Exactly one entry is appended and the earlier entries are unchanged |
| SrcCalculator.Calculator.Multiply | src/calculator.js:43-47 | `result` becomes `a * b` and is returned. Exactly one entry is appended and the earlier entries are unchanged |
| SrcCalculator.Calculator.Divide | src/calculator.js:56-63 | dividing by 0 fails and changes neither `result` nor the history. Otherwise `result` becomes `a / b`, is returned, and one entry is appended |
| SrcCalculator.Calculator.GetHistory | src/calculator.js:69-71 | returns the history and changes nothing |
| SrcCalculator.Calculator.Clear | src/calculator.js:76-79 | `result` is reset to 0 and the history to empty |
| SrcCalculator.Calculator.GetCurrentResult | src/calculator.js:85-87 | returns `result`, which is the result of the latest calculation, or 0 when the history is empty |

## Left out

- IEEE-754 arithmetic: amounts are exact reals, so no floating-point error, overflow or `-0` is modelled. The 0.01 tolerance and the cent rounding exist in the source to absorb that error.
- Unknown ids: every variant's `ValidExpenses` precondition requires every payer and sharer to be a participant, and every expense to have at least one sharer. For a payer or sharer who is not a participant, `undefined += x` or `undefined -= share` writes `NaN` into the dictionary, which exact reals cannot express. An expense with no sharers computes `amount / 0` but never uses it, since the loop over the sharers does not run: the payer is credited the amount, nobody is debited, and the balances sum to the amount instead of 0. The expense forms reject an empty sharer list (`app/components/ExpenseForm.tsx:32-35`, `src/components/ExpenseForm.tsx:42`, `components/ExpenseForm.tsx:26`), and the precondition mirrors that check. The participant requirement guards against `src/app/page.tsx`, which deletes a participant but keeps the expenses they shared.
- `Array.prototype.sort`: it is not source code of the repository, so each sort is a function (a stable insertion sort) rather than an in-place method. Stability is the engine's guarantee since ECMAScript 2019.
- `Object.entries` order: the balance dictionary is a sequence in insertion order. JavaScript lists array-index keys such as `"1"` first, in numeric order, and the model does not. In the `src` and `app` variants the ids come from `Date.now().toString()` (`src/app/page.tsx:22,36`, `app/page.tsx:45,61`). Those are array-index keys only up to 2^32 - 2 milliseconds after 1970, which is long past, so the two orders agree. Nothing in this repository calls `utils/settlement.ts` or `components/Settlement.tsx`. For those two variants the model assumes that the ids are not array-index keys.
- In-place mutation of shared objects: the source mutates `creditor.amount`, `creditors[i][1]` or `creditorsArray[0][1]` through references into the sorted arrays. The model writes the new entry back into a sequence. Aliasing between `creditors` and `creditorsArray` in the `app` variant (`[...creditors]` copies only the outer array) is not modelled, because nothing reads `creditors` afterwards.
- SrcSettlementView.SettlementRounding: conservation is proved for the unrounded transfers only. With rounding, each transfer may exceed its unrounded value by up to half a cent.
- ComponentsSettlement.SettlementRounding: conservation is proved for the unrounded transfers only, for the same reason.
- Formatting: `toFixed`, `toLocaleString`, the JSX, `getParticipantName` and `getCurrencySymbol` are display code.
- SrcCalculator.Calculator.GetHistory: returns the history as a value. The source returns the live array, which a caller could then mutate; that aliasing is not modelled.
- Calculator history entries are records `(a, op, b, result)` rather than the formatted strings `"a op b = result"`.
- `components/Settlement.tsx` runs its computation inside React's `useMemo`. The memoisation is not modelled, and the model recomputes.
- Exchange-rate fetching, persistence, the expense forms and the other presentation components are not part of this model. Rates enter as a given map or currency list.
- Expense dates: `components/Settlement.tsx` imports its `Expense` from `types/index.ts`, whose `createdAt` is a `Date` (`types/index.ts:13`). `utils/settlement.ts` takes `date: string` (`types/expense.ts:13`), as `src/types/index.ts:13` also declares. The model holds a `Date` as an integer and a date string as a string. Neither takes part in the computation.
- The default argument `baseCurrency = 'JPY'` of `calculateSettlements` (`utils/settlement.ts:7`): the model always takes `base` as an argument, so a call that omits it is modelled by passing `"JPY"`.
