# Currency-Wallet in Dafny

This project models the core of the Currency-Wallet system. A wallet holds
balances in currencies. The currencies are kept in the order they were added,
and each currency has a table of directional exchange rates. Commands come in
as text lines: `add currency`, `deposit`, `withdraw`, `set rate`, `convert`,
`show balance` and `show total`. A bank registry maps passports to
individuals, passports to their wallet ids, and wallet ids to wallets.

Modules, one concept each:

- `Wrappers`: `Option` (Java's `null`) and `Result` (a value or a thrown exception).
- `JavaText`: Java's `String.split` on a one-character separator, with the
  round trip `Split(Join(ws)) == ws`.
- `Currencies`: class `Currency` with its fixed symbol and ordering number
  and its mutable rate table.
- `Ledger`: the wallet as a value, the list of TreeMap entries in key order
  (which is insertion order). It has one function per wallet operation and
  the lemmas about them. Each function returns the state after the call
  together with the result or exception, because `setRate` and `convertTo`
  can throw after part of their work is committed.
- `Commands`: the interpreter of `start` as functions. It covers splitting,
  word counts, number parsing, dispatch, and the loop that stops at the first
  exception. It also proves that parsing inverts a command renderer.
- `WalletEngine`: class `WalletImpl` over its own fields. These are the
  `wallet` map from currency object to balance, the `currencies` map from
  symbol to currency object, and the `currencyNumber` counter. Every method
  is proved to end in the state, and with the result, that the `Ledger` or
  `Commands` function gives for the state it started in.
- `Banking`: class `RemoteBank` over its three maps.

Number parsing (`Double.parseDouble`) is a parameter `parse: string ->
Option<real>`, which is `None` where Java throws. Printing is modelled as the
list of `(amount, currency)` pairs that would be printed. Input lines are a
`seq<string>`.

`getTotal` divides each balance by that currency's own rate to the target
(`entry.getKey().getRate(target)`). It does not use the target's rate to that
currency. The model follows the code here.

## Model

| member | source | states |
|---|---|---|
| JavaText.SplitSpec | src/Ignatov/wallet/WalletImpl.java:46 | the words of `split` contain no separator; joined back they give the line minus a run of trailing separators; no separator gives the whole line as one word |
| JavaText.OnlySeparatorsSplitToNothing | src/Ignatov/wallet/WalletImpl.java:46-48 | a non-empty line made only of separators splits into no words, so reading the first word fails |
| JavaText.SplitJoin | src/Ignatov/wallet/WalletImpl.java:71 | splitting undoes joining, for separator-free words whose last word is not empty |
| JavaText.SplitHead | src/liptSoft/Ignatov/wallet/RemoteBank.java:33-34 | the first word of a split is the text before the first separator; an empty first word survives when something other than separators follows it |
| Currencies.Currency.constructor | src/Ignatov/wallet/Currency.java:20-25 | symbol and ordering number are the arguments; the rate table is exactly {symbol: 1.0} |
| Currencies.Currency.AddRate | src/Ignatov/wallet/Currency.java:32-34 | the rate to the target becomes the new value, overwriting the old one; every other rate is unchanged |
| Currencies.Currency.GetRate | src/Ignatov/wallet/Currency.java:41-43 | the stored rate, or None exactly when no rate to that symbol was ever stored |
| Currencies.Currency.GetCurrency | src/Ignatov/wallet/Currency.java:48-50 | the currency's symbol |
| Currencies.Currency.CompareTo | src/Ignatov/wallet/Currency.java:52-55 | negative, zero or positive exactly as the ordering number is smaller than, equal to or larger than the other's |
| Ledger.AddCurrencySpec | src/Ignatov/wallet/WalletImpl.java:130-139 | a known symbol changes nothing; a new one is appended last with balance 0 and a rate table holding only the self-rate 1; the existing entries are kept; the invariant holds; adding twice is adding once |
| Ledger.AddCurrencySizes | src/liptSoft/Ignatov/wallet/WalletTest.java:144-159 | for any two different symbols ruble and dollar, adding ruble, ruble, dollar gives wallets of sizes 1, 1, 2 |
| Ledger.InsertionOrderIsIterationOrder | src/liptSoft/Ignatov/wallet/WalletTest.java:279-295 | for any three different symbols, after adding ruble, dollar, euro, iteration yields ruble, dollar, euro |
| Ledger.ChangeAmountFrame | src/Ignatov/wallet/WalletImpl.java:214-223 | a balance change keeps the invariant, the symbols and their positions, every rate and every other balance |
| Ledger.DepositSpec | src/Ignatov/wallet/WalletImpl.java:125-128 | fails with NoSuchCurrency and no change exactly when the currency is not held; otherwise its balance grows by the amount and no other balance moves |
| Ledger.WithdrawSpec | src/Ignatov/wallet/WalletImpl.java:147-150 | fails with no change exactly when the currency is unknown or holds less than the amount (NotEnoughMoney exactly in the second case); otherwise its balance drops by the amount and stays non-negative |
| Ledger.DepositWithdrawRoundTrip | src/Ignatov/wallet/WalletImpl.java:214-223 | withdrawing what was just deposited restores the wallet when the balance was non-negative |
| Ledger.FirstCurrencyOperations | src/Ignatov/wallet/WalletImpl.java:119-123 | one-argument deposit, withdraw and total fail with EmptyWallet exactly on an empty wallet, and otherwise equal the two-argument forms on the currency whose ordering number is 1 |
| Ledger.ClearWalletEmpties | src/Ignatov/wallet/WalletImpl.java:189-195 | after clearing, the wallet is empty and every currency is unknown |
| Ledger.SetRateSpec | src/Ignatov/wallet/WalletImpl.java:152-157 | on success c1->c2 is r and c2->c1 is 1/r (for c1 = c2 the self-rate becomes 1/r); unknown c1 changes nothing; unknown c2 leaves c1->c2 = r written; balances, order and every other rate never change |
| Ledger.ConvertToFailures | src/Ignatov/wallet/WalletImpl.java:159-166 | unknown c1 or too little money changes nothing; unknown c2 or a missing c2->c1 rate throws after the withdrawal is committed |
| Ledger.ConvertToConserves | src/Ignatov/wallet/WalletImpl.java:159-166 | a successful conversion takes the amount from c1 and adds amount times rate(c2->c1) to c2 (for c1 = c2 both to the one balance); no other balance, no rate and no symbol changes |
| Ledger.ConvertStep | src/liptSoft/Ignatov/wallet/WalletTest.java:224-242 | converting 50 from a wallet of 100 rubles and 0 dollars with rate dollar->ruble 1/60 withdraws 50 rubles and deposits 50/60 dollars, and changes no rate |
| Ledger.ConvertScenario | src/liptSoft/Ignatov/wallet/WalletTest.java:224-242 | for any two different symbols: add ruble and dollar, rate ruble->dollar 60, deposit 100, convert 50: 50 rubles and 50/60 dollars |
| Ledger.ShowTotal | src/liptSoft/Ignatov/wallet/WalletTest.java:244-259 | 100 rubles and 80 dollars, with rate dollar->ruble 1/60, total 4900 rubles |
| Ledger.ShowScenario | src/liptSoft/Ignatov/wallet/WalletTest.java:244-259 | for any two different symbols: 100 rubles, 80 dollars, rate 60: the total in rubles is 4900 and the balance lists ruble then dollar |
| Ledger.TotalOfErrors | src/Ignatov/wallet/WalletImpl.java:207-210 | the total loop throws exactly when some entry has no rate, or a zero rate, to the target |
| Ledger.GetTotalFailures | src/Ignatov/wallet/WalletImpl.java:203-212 | `getTotal` fails exactly when the target is not held or some held currency, even with zero balance, has no usable rate to it |
| Ledger.GetTotalSingle | src/Ignatov/wallet/WalletImpl.java:203-212 | a wallet with one currency totals to its balance in that currency |
| Ledger.TotalOfAppend | src/Ignatov/wallet/WalletImpl.java:207-210 | the loop over two runs of entries succeeds exactly when it succeeds on each, and the sums add |
| Ledger.DepositRaisesTotal | src/Ignatov/wallet/WalletImpl.java:203-212 | depositing a into c raises the total in s by a / rate(c->s) |
| Ledger.ShowBalanceOrder | src/Ignatov/wallet/WalletImpl.java:168-171 | one printed line per held currency, in insertion order, each with that currency's balance |
| Commands.ApplySpec | src/Ignatov/wallet/WalletImpl.java:48-115 | every command keeps the invariant; a failing command other than set or convert changes nothing; show commands never change the wallet; only show commands print |
| Commands.RateCommandWords | src/Ignatov/wallet/WalletImpl.java:48-89 | only a line whose first word is `set` parses to a rate command, and only one starting with `convert` to a conversion |
| Commands.ExecLineSpec | src/Ignatov/wallet/WalletImpl.java:45-48 | a line that fails before its wallet call leaves the wallet as it was, with that error |
| Commands.UsageErrors | src/Ignatov/wallet/WalletImpl.java:48-113 | a usage error comes exactly from a command word with a wrong word count, and names the command (`show balance` / `show total` for those two) |
| Commands.UnknownCommands | src/Ignatov/wallet/WalletImpl.java:114 | a first word that names no command gives UnknownCommand with that word, and nothing else does |
| Commands.EmptyAndBlankLines | src/Ignatov/wallet/WalletImpl.java:45-48 | the empty line is the unknown command ""; a line of spaces fails on reading its first word |
| Commands.RateWord | src/Ignatov/wallet/WalletImpl.java:70-81 | the rate word must split on ':' into two numbers, numerator parsed first, and the rate set is their quotient |
| Commands.ShowOtherIsNoOp | src/Ignatov/wallet/WalletImpl.java:90-112 | `show` followed by a word other than balance or total does nothing |
| Commands.RunLinesAppend | src/Ignatov/wallet/WalletImpl.java:44-46 | running a + b is running a, then b from where a left off, unless a failed; no line after a failure runs |
| Commands.RunLinesKeepsInvariant | src/Ignatov/wallet/WalletImpl.java:44-116 | a whole run keeps the wallet invariant |
| Commands.RenderIsWords | src/Ignatov/wallet/WalletImpl.java:46 | a renderable command is written as non-empty words without spaces |
| Commands.ParseRender | src/Ignatov/wallet/WalletImpl.java:48-115 | parsing the words of a rendered command gives that command back, for a parser that reads back the printed form of the command's own numbers |
| Commands.ExecRenderedLine | src/Ignatov/wallet/WalletImpl.java:45-115 | a rendered command, written as one line, runs exactly that command, under the same read-back condition on its numbers |
| WalletEngine.WalletImpl.constructor | src/Ignatov/wallet/WalletImpl.java:13-17 | a new wallet satisfies the invariant and holds nothing |
| WalletEngine.WalletImpl.IsEmpty | src/Ignatov/wallet/WalletImpl.java:184-187 | true exactly when no currency is held |
| WalletEngine.WalletImpl.AddCurrency | src/Ignatov/wallet/WalletImpl.java:130-139 | the fields end as `Ledger.AddCurrency` describes; only fresh currency objects join the keys |
| WalletEngine.WalletImpl.ChangeAmount | src/Ignatov/wallet/WalletImpl.java:214-223 | state and result are those of `Ledger.ChangeAmount`; the key set is unchanged |
| WalletEngine.WalletImpl.Deposit | src/Ignatov/wallet/WalletImpl.java:125-128 | state and result are those of `Ledger.Deposit` |
| WalletEngine.WalletImpl.Withdraw | src/Ignatov/wallet/WalletImpl.java:147-150 | state and result are those of `Ledger.Withdraw` |
| WalletEngine.WalletImpl.CheckNonEmpty | src/Ignatov/wallet/WalletImpl.java:265-269 | throws EmptyWallet exactly when the wallet is empty |
| WalletEngine.WalletImpl.Entry | src/Ignatov/wallet/WalletImpl.java:122 | the key with ordering number i is the i-th entry of the TreeMap, with that entry's symbol, balance and rates |
| WalletEngine.WalletImpl.DepositFirst | src/Ignatov/wallet/WalletImpl.java:119-123 | state and result are those of `Ledger.DepositFirst` |
| WalletEngine.WalletImpl.WithdrawFirst | src/Ignatov/wallet/WalletImpl.java:141-145 | state and result are those of `Ledger.WithdrawFirst` |
| WalletEngine.WalletImpl.WriteRate | src/Ignatov/wallet/WalletImpl.java:154-155 | `addRate` on one key changes only that entry's rate table |
| WalletEngine.WalletImpl.SetRate | src/Ignatov/wallet/WalletImpl.java:152-157 | state and result are those of `Ledger.SetRate`, including the committed first write |
| WalletEngine.WalletImpl.ConvertTo | src/Ignatov/wallet/WalletImpl.java:159-166 | state and result are those of `Ledger.ConvertTo`, including the committed withdrawal |
| WalletEngine.WalletImpl.GetBalanceIn | src/Ignatov/wallet/WalletImpl.java:197-201 | the balance of a held currency, NoSuchCurrency otherwise, as `Ledger.GetBalanceIn` |
| WalletEngine.TotalStep | src/Ignatov/wallet/WalletImpl.java:207-210 | the turn over entry i extends the sum of the entries before it, and an exception there is the exception of the whole loop |
| WalletEngine.Accumulate | src/Ignatov/wallet/WalletImpl.java:207-210 | one turn of the loop on a key and its balance: the balance divided by the key's rate to the target is added, or UndefinedRate / NonFiniteRate is thrown, as `Ledger.AddEntry` |
| WalletEngine.WalletImpl.GetTotal | src/Ignatov/wallet/WalletImpl.java:203-212 | the loop computes `Ledger.GetTotal`, stopping at the first entry without a usable rate |
| WalletEngine.WalletImpl.ShowBalance | src/Ignatov/wallet/WalletImpl.java:168-171 | prints what `Ledger.ShowBalance` lists |
| WalletEngine.WalletImpl.ShowTotalIn | src/Ignatov/wallet/WalletImpl.java:173-176 | prints, or throws, what `Ledger.ShowTotalIn` gives |
| WalletEngine.WalletImpl.ShowTotalInFirst | src/Ignatov/wallet/WalletImpl.java:178-182 | prints, or throws, what `Ledger.ShowTotalInFirst` gives |
| WalletEngine.WalletImpl.ClearWallet | src/Ignatov/wallet/WalletImpl.java:189-195 | the fields end empty, as `Ledger.ClearWallet` |
| WalletEngine.WalletImpl.Apply | src/Ignatov/wallet/WalletImpl.java:48-115 | state, output and exception are those of `Commands.Apply` |
| WalletEngine.WalletImpl.ApplyChange | src/Ignatov/wallet/WalletImpl.java:56-69 | the deposit and withdraw branches end in the state and result of `Commands.Apply`, keeping the key set |
| WalletEngine.WalletImpl.ApplyRate | src/Ignatov/wallet/WalletImpl.java:70-89 | the set and convert branches end in the state and result of `Commands.Apply` |
| WalletEngine.WalletImpl.ApplyShow | src/Ignatov/wallet/WalletImpl.java:90-112 | the show branches print or throw what `Commands.Apply` gives, and `Commands.Apply` leaves the wallet as it is |
| WalletEngine.WalletImpl.ExecLine | src/Ignatov/wallet/WalletImpl.java:45-115 | state, output and exception are those of `Commands.ExecLine` |
| WalletEngine.WalletImpl.Start | src/Ignatov/wallet/WalletImpl.java:39-116 | the loop ends in the state, output and exception of `Commands.Start`: a non-empty wallet ignores its input; otherwise the lines run until one throws |
| WalletEngine.ConvertTest | src/liptSoft/Ignatov/wallet/WalletTest.java:224-242 | for any two different symbols, the convert test on a wallet object leaves 50 rubles and 50/60 dollars |
| Banking.Passport | src/liptSoft/Ignatov/wallet/RemoteBank.java:33-34 | an id has no passport exactly when it is non-empty and made only of ':' |
| Banking.PassportIsPrefix | src/liptSoft/Ignatov/wallet/RemoteBank.java:33-34 | the passport of `passport:rest` (or of a colon-free id) is the text before the first ':', including the empty passport when rest is not made only of ':' |
| Banking.RemoteBank.constructor | src/liptSoft/Ignatov/wallet/RemoteBank.java:16-18 | a new bank has three empty tables |
| Banking.RemoteBank.CreateWallet | src/liptSoft/Ignatov/wallet/RemoteBank.java:28-45 | null id gives null; an all-':' id throws; a known id returns its stored wallet and changes nothing; a new id stores a fresh empty wallet, added to the passport's id set only if that set existed (otherwise an empty set is made) |
| Banking.RemoteBank.GetWallet | src/liptSoft/Ignatov/wallet/RemoteBank.java:47-53 | null when the person or the id is null; otherwise the wallet stored under the id, whoever the person is |
| Banking.RemoteBank.CreateIndividual | src/liptSoft/Ignatov/wallet/RemoteBank.java:55-68 | true exactly for a non-null passport not yet seen; then the person is stored and the passport gets an id set if it had none; otherwise nothing changes and the first person stays |
| Banking.RemoteBank.GetIndividual | src/liptSoft/Ignatov/wallet/RemoteBank.java:70-76 | the person stored under the passport, or null |
| Banking.RemoteBank.GetAllIds | src/liptSoft/Ignatov/wallet/RemoteBank.java:77-84 | null for a null person or an unseen passport (not an empty set); a person without a passport throws; every listed id names a stored wallet of that passport |
| Banking.RemoteBank.IsExists | src/liptSoft/Ignatov/wallet/RemoteBank.java:86-92 | true exactly when the person and their passport are non-null and the passport is registered |
| Banking.OwnerScenario | src/liptSoft/Ignatov/wallet/BankTest.java:90-99 | an individual is created once; the wallet `passport:subId` is absent, then created, and created again as the same object; its id is then listed for the person |
| Banking.WalletBeforeOwner | src/liptSoft/Ignatov/wallet/RemoteBank.java:36-40 | a wallet created before its owner is never listed in the owner's ids |

## Left out

- RMI: `UnicastRemoteObject.exportObject`, the registry and `RemoteException` are network plumbing and are not modelled.
- Concurrency: every `putIfAbsent` and `add` on the concurrent maps and sets is one atomic step; interleavings are not modelled.
- Logging and formatting: `logBalance` and the `%.2f` formatting of `printBalance` are left out; printed lines are `(amount, currency)` pairs.
- Floating point: balances and rates are exact reals. Java doubles round, and a division by zero gives Infinity or NaN instead of throwing. Where an infinite or NaN value would arise the model stops with NonFiniteRate. This happens for a rate word with a zero denominator (before any lookup), for `setRate` with rate 0 (after the first write), and for a zero rate inside `getTotal`.
- `Double.parseDouble` is the parameter `parse`; its exact grammar is not modelled.
- `currencyNumber` is an unbounded integer; a wrap-around of Java's `int` after 2^31 additions is not modelled.
- `changeAmount` takes a `BiFunction` in the source; only the two functions the source passes (sum and difference) are modelled, as a flag.
- WalletEngine.WalletImpl.ConvertTo: the source looks up c1 a second time after the withdrawal. That lookup cannot fail, so it is not repeated.
- Banking.RemoteBank.GetAllIds: the source returns the live concurrent set, so later `createWallet` calls show through it; the model returns its value at the time of the call.
- Banking.RemoteBank.GetAllIds: the cast to `RemotePerson` (a `ClassCastException` for other `Person` implementations) is not modelled; every person is a `RemotePerson`.
- Banking.RemoteBank.CreateWallet: the source builds a `WalletImpl` before checking the id and drops it when the id is known; the model builds one only for a new id.
- The individual's stored name and surname are kept as given (possibly null); `RemotePerson` has no other behaviour.
- `WalletImpl(boolean logging)` and the `main` entry point of the tests only switch logging on, which is left out.
