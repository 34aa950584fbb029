/** The wallet engine of src/Ignatov/wallet/WalletImpl.java as functions on its
    abstract state: the entries of the `wallet` TreeMap in ascending key order,
    each carrying its currency's symbol, ordering number and rate table.

    Every operation returns the state after the call together with its result,
    because two operations of `WalletImpl` (`setRate`, `convertTo`) can fail after
    part of their work is already committed. */
module Ledger {
  import opened Wrappers

  /** One TreeMap entry: the currency (symbol, ordering number, rates) and its balance. */
  datatype Holding = Holding(symbol: string, order: int, rates: map<string, real>, balance: real)

  /** The entries of a wallet, in TreeMap (= insertion) order. */
  type Holdings = seq<Holding>

  /** What a `WalletException` says, plus the two failures that are not one. */
  datatype Error =
    | NoSuchCurrency(currency: string)            // "Expected that currency %s is in a wallet"
    | NotEnoughMoney                              // withdraw with balance < amount
    | EmptyWallet                                 // checkNonEmpty
    | UndefinedRate(from: string, to: string)     // getRequireNonNullRate
    | IllegalCommand(command: string, usage: string)
    | IllegalRate                                 // rate token is not <double>:<double>
    | NotADouble(token: string)                   // toDouble
    | UnknownCommand(word: string)
    | IndexOutOfBounds                            // Java's ArrayIndexOutOfBoundsException
    | NonFiniteRate                               // an infinite or NaN double would arise

  /** The state after a call, and what the call returned or threw. */
  datatype Effect<T> = Effect(after: Holdings, result: Result<T, Error>)

  /** A line `showBalance`/`showTotalIn` prints: an amount and a symbol. */
  datatype Printed = Printed(amount: real, currency: string)

  /** Invariant of a wallet: ordering numbers are 1, 2, ... in order, and no
      symbol is held twice (the TreeMap and the HashMap share their key set). */
  predicate WellFormed(h: Holdings) {
    && (forall i :: 0 <= i < |h| ==> h[i].order == i + 1)
    && (forall i, j :: 0 <= i < j < |h| ==> h[i].symbol != h[j].symbol)
  }

  /** The held symbols in iteration order. */
  function Symbols(h: Holdings): (r: seq<string>)
    ensures |r| == |h| && forall i :: 0 <= i < |h| ==> r[i] == h[i].symbol
  {
    seq(|h|, i requires 0 <= i < |h| => h[i].symbol)
  }

  /** Position of the first occurrence of `s` in `names`. */
  function IndexOf(names: seq<string>, s: string): (r: Option<nat>)
    ensures r.Some? ==> r.value < |names| && names[r.value] == s
    ensures r.Some? ==> forall j :: 0 <= j < r.value ==> names[j] != s
    ensures r.None? <==> s !in names
  {
    if names == [] then None
    else if names[0] == s then Some(0)
    else match IndexOf(names[1..], s)
      case None => None
      case Some(k) => Some(k + 1)
  }

  /** `currencies.get(s)`: the position of the entry with symbol `s`. */
  function Find(h: Holdings, s: string): (r: Option<nat>)
    ensures r.Some? ==> r.value < |h| && h[r.value].symbol == s
    ensures r.None? <==> s !in Symbols(h)
  {
    IndexOf(Symbols(h), s)
  }

  lemma FindInWellFormed(h: Holdings, k: nat)
    requires WellFormed(h) && k < |h|
    ensures Find(h, h[k].symbol) == Some(k)
  {
    assert Symbols(h)[k] == h[k].symbol;
  }

  /** Replacing one entry by one with the same symbol and number keeps the
      symbol order, every lookup, and the invariant. */
  lemma UpdateKeepsShape(h: Holdings, k: nat, hd: Holding)
    requires k < |h| && hd.symbol == h[k].symbol && hd.order == h[k].order
    ensures Symbols(h[k := hd]) == Symbols(h)
    ensures forall s :: Find(h[k := hd], s) == Find(h, s)
    ensures WellFormed(h) ==> WellFormed(h[k := hd])
  {
    assert Symbols(h[k := hd]) == Symbols(h);
  }

  /** `Currency.getRate` on one entry. */
  function GetRate(hd: Holding, target: string): Option<real> {
    if target in hd.rates then Some(hd.rates[target]) else None
  }

  /** The rate stored in `from`'s table for `to`, if `from` is held. */
  function RateBetween(h: Holdings, from: string, to: string): Option<real> {
    match Find(h, from)
    case None => None
    case Some(i) => GetRate(h[i], to)
  }

  function IsEmpty(h: Holdings): bool {
    |h| == 0
  }

  /** `addCurrency`: a new symbol gets balance 0, the next ordering number and
      a self-rate of 1.0; a known symbol changes nothing. */
  function AddCurrency(h: Holdings, s: string): Holdings {
    if Find(h, s).Some? then h else h + [Holding(s, |h| + 1, map[s := 1.0], 0.0)]
  }

  /** `changeAmount`: add to, or (when `requiredGreater`) subtract from, the
      balance of `s`; a withdrawal larger than the balance throws. */
  function ChangeAmount(h: Holdings, amount: real, s: string, requiredGreater: bool): Effect<()> {
    match Find(h, s)
    case None => Effect(h, Err(NoSuchCurrency(s)))
    case Some(k) =>
      if requiredGreater && h[k].balance < amount then Effect(h, Err(NotEnoughMoney))
      else
        var b := if requiredGreater then h[k].balance - amount else h[k].balance + amount;
        Effect(h[k := h[k].(balance := b)], Ok(()))
  }

  function Deposit(h: Holdings, amount: real, s: string): Effect<()> {
    ChangeAmount(h, amount, s, false)
  }

  function Withdraw(h: Holdings, amount: real, s: string): Effect<()> {
    ChangeAmount(h, amount, s, true)
  }

  /** `deposit(amount)`: into the first-inserted currency. */
  function DepositFirst(h: Holdings, amount: real): Effect<()> {
    if IsEmpty(h) then Effect(h, Err(EmptyWallet)) else Deposit(h, amount, h[0].symbol)
  }

  /** `withdraw(amount)`: from the first-inserted currency. */
  function WithdrawFirst(h: Holdings, amount: real): Effect<()> {
    if IsEmpty(h) then Effect(h, Err(EmptyWallet)) else Withdraw(h, amount, h[0].symbol)
  }

  /** `setRate`: write `c1 -> c2 = r` into c1's table, THEN look up c2 and write
      `c2 -> c1 = 1/r`. An unknown c2 therefore leaves the first write in place.
      With r = 0 `WalletImpl.setRate` would store an infinite reciprocal; the model stops
      there with NonFiniteRate. */
  function SetRate(h: Holdings, c1: string, c2: string, r: real): Effect<()> {
    match Find(h, c1)
    case None => Effect(h, Err(NoSuchCurrency(c1)))
    case Some(i) =>
      var h1 := h[i := h[i].(rates := h[i].rates[c2 := r])];
      match Find(h1, c2)
      case None => Effect(h1, Err(NoSuchCurrency(c2)))
      case Some(j) =>
        if r == 0.0 then Effect(h1, Err(NonFiniteRate))
        else Effect(h1[j := h1[j].(rates := h1[j].rates[c1 := 1.0 / r])], Ok(()))
  }

  /** What `amount` units bring in at `rate` units per unit. */
  function Converted(rate: real, amount: real): real {
    rate * amount
  }

  /** `convertTo`: withdraw `amount` of c1 (not undone on a later failure),
      then deposit `rate(c2 -> c1) * amount` into c2. */
  function ConvertTo(h: Holdings, amount: real, c1: string, c2: string): Effect<()> {
    var w := Withdraw(h, amount, c1);
    if w.result.Err? then w
    else
      match Find(w.after, c2)
      case None => Effect(w.after, Err(NoSuchCurrency(c2)))
      case Some(j) =>
        match GetRate(w.after[j], c1)
        case None => Effect(w.after, Err(UndefinedRate(c1, c2)))
        case Some(rate) => Deposit(w.after, Converted(rate, amount), c2)
  }

  /** `getBalanceIn`. */
  function GetBalanceIn(h: Holdings, s: string): Result<real, Error> {
    match Find(h, s)
    case None => Err(NoSuchCurrency(s))
    case Some(k) => Ok(h[k].balance)
  }

  /** The loop of `getTotal` over the entries `h`, in order: each balance is
      divided by that entry's rate to `s`; the first entry without one throws.
      A zero rate would give an infinite or NaN double: NonFiniteRate. */
  function TotalOf(h: Holdings, s: string): Result<real, Error> {
    if h == [] then Ok(0.0)
    else
      match TotalOf(h[..|h| - 1], s)
      case Err(e) => Err(e)
      case Ok(sum) => AddEntry(h[|h| - 1], s, sum)
  }

  /** One turn of the loop of `getTotal`: the entry's balance divided by its
      rate to `s`, added to the sum so far. */
  function AddEntry(entry: Holding, s: string, sum: real): Result<real, Error> {
    match GetRate(entry, s)
    case None => Err(UndefinedRate(s, entry.symbol))
    case Some(rate) =>
      if rate == 0.0 then Err(NonFiniteRate) else Ok(sum + entry.balance / rate)
  }

  /** `getTotal`: the target currency must be held, then the loop runs. */
  function GetTotal(h: Holdings, s: string): Result<real, Error> {
    if Find(h, s).None? then Err(NoSuchCurrency(s)) else TotalOf(h, s)
  }

  /** What `showBalance` prints, in iteration order. */
  function ShowBalance(h: Holdings): seq<Printed> {
    seq(|h|, i requires 0 <= i < |h| => Printed(h[i].balance, h[i].symbol))
  }

  /** What `showTotalIn(s)` prints. */
  function ShowTotalIn(h: Holdings, s: string): Result<seq<Printed>, Error> {
    match GetTotal(h, s)
    case Err(e) => Err(e)
    case Ok(t) => Ok([Printed(t, s)])
  }

  /** `showTotalIn()`: the total in the first-inserted currency. */
  function ShowTotalInFirst(h: Holdings): Result<seq<Printed>, Error> {
    if IsEmpty(h) then Err(EmptyWallet) else ShowTotalIn(h, h[0].symbol)
  }

  /** `clearWallet`. */
  function ClearWallet(h: Holdings): Holdings {
    []
  }

  // ---------------------------------------------------------------------------
  // Properties

  /** Adding a currency keeps the invariant and every existing entry, appends
      exactly when the symbol is new (balance 0, next number, a rate table
      holding only the self-rate 1), and is idempotent. */
  lemma AddCurrencySpec(h: Holdings, s: string)
    requires WellFormed(h)
    ensures WellFormed(AddCurrency(h, s))
    ensures s in Symbols(AddCurrency(h, s))
    ensures s in Symbols(h) ==> AddCurrency(h, s) == h
    ensures AddCurrency(h, s)[..|h|] == h
    ensures s !in Symbols(h) ==>
      && Symbols(AddCurrency(h, s)) == Symbols(h) + [s]
      && GetBalanceIn(AddCurrency(h, s), s) == Ok(0.0)
      && RateBetween(AddCurrency(h, s), s, s) == Some(1.0)
      && AddCurrency(h, s)[|h|].rates == map[s := 1.0]
    ensures AddCurrency(AddCurrency(h, s), s) == AddCurrency(h, s)
  {
    if s !in Symbols(h) {
      AppendCurrency(h, s);
    }
  }

  /** The new entry `AddCurrency` appends for a new symbol. */
  lemma AppendCurrency(h: Holdings, s: string)
    requires WellFormed(h) && s !in Symbols(h)
    ensures var a := h + [Holding(s, |h| + 1, map[s := 1.0], 0.0)];
      && AddCurrency(h, s) == a
      && WellFormed(a)
      && Symbols(a) == Symbols(h) + [s]
      && Find(a, s) == Some(|h|)
      && a[..|h|] == h
  {
    var a := h + [Holding(s, |h| + 1, map[s := 1.0], 0.0)];
    assert a[..|h|] == h;
    assert Symbols(a)[|h|] == s;
    FindInWellFormed(a, |h|);
    assert Symbols(a) == Symbols(h) + [s];
  }

  /** The adds of `WalletTest.testAddCurrency` (ruble, ruble, dollar, for any
      two different symbols): sizes 1, 1, 2. */
  lemma AddCurrencySizes(ruble: string, dollar: string)
    requires ruble != dollar
    ensures |AddCurrency([], ruble)| == 1
    ensures |AddCurrency(AddCurrency([], ruble), ruble)| == 1
    ensures |AddCurrency(AddCurrency(AddCurrency([], ruble), ruble), dollar)| == 2
  {
    var h1 := AddCurrency([], ruble);
    assert Symbols(h1) == [ruble];
    assert Find(h1, ruble).Some?;
  }

  /** Currencies come out in the order they were added (`WalletTest.testCurrencyOrder`,
      for any three different symbols). */
  lemma InsertionOrderIsIterationOrder(ruble: string, dollar: string, euro: string)
    requires ruble != dollar && dollar != euro && ruble != euro
    ensures Symbols(AddCurrency(AddCurrency(AddCurrency([], ruble), dollar), euro))
         == [ruble, dollar, euro]
  {
    var h1 := AddCurrency([], ruble);
    assert Symbols(h1) == [ruble];
    var h2 := AddCurrency(h1, dollar);
    assert Symbols(h2) == [ruble, dollar];
    var h3 := AddCurrency(h2, euro);
    assert Symbols(h3) == Symbols(h2) + [euro];
  }

  /** Balance updates touch one entry's balance and nothing else. */
  lemma ChangeAmountFrame(h: Holdings, amount: real, s: string, requiredGreater: bool)
    requires WellFormed(h)
    ensures var e := ChangeAmount(h, amount, s, requiredGreater);
      && WellFormed(e.after)
      && Symbols(e.after) == Symbols(h)
      && (forall t :: Find(e.after, t) == Find(h, t))
      && (forall t :: t != s ==> GetBalanceIn(e.after, t) == GetBalanceIn(h, t))
      && (forall a, b :: RateBetween(e.after, a, b) == RateBetween(h, a, b))
  {
    var e := ChangeAmount(h, amount, s, requiredGreater);
    if e.result.Ok? {
      var k := Find(h, s).value;
      UpdateKeepsShape(h, k, e.after[k]);
    }
  }

  /** `deposit(a, c)`: fails, changing nothing, exactly when `c` is not held;
      otherwise balance(c) grows by `a` and every other balance is unchanged. */
  lemma DepositSpec(h: Holdings, amount: real, s: string)
    requires WellFormed(h)
    ensures var e := Deposit(h, amount, s);
      && (e.result.Err? <==> s !in Symbols(h))
      && (e.result.Err? ==> e.after == h && e.result.error == NoSuchCurrency(s))
      && (e.result.Ok? ==> GetBalanceIn(e.after, s) == Ok(GetBalanceIn(h, s).value + amount))
      && (forall t :: t != s ==> GetBalanceIn(e.after, t) == GetBalanceIn(h, t))
      && Symbols(e.after) == Symbols(h)
  {
    ChangeAmountFrame(h, amount, s, false);
    var e := Deposit(h, amount, s);
    if e.result.Ok? {
      FindInWellFormed(e.after, Find(h, s).value);
    }
  }

  /** `withdraw(a, c)`: fails, changing nothing, when `c` is not held or holds
      less than `a`; otherwise balance(c) drops by `a` and is not negative. */
  lemma WithdrawSpec(h: Holdings, amount: real, s: string)
    requires WellFormed(h)
    ensures var e := Withdraw(h, amount, s);
      && (e.result.Err? <==> s !in Symbols(h) || GetBalanceIn(h, s).value < amount)
      && (e.result.Err? ==> e.after == h)
      && (e.result == Err(NotEnoughMoney) <==> s in Symbols(h) && GetBalanceIn(h, s).value < amount)
      && (e.result.Ok? ==>
            && GetBalanceIn(e.after, s) == Ok(GetBalanceIn(h, s).value - amount)
            && GetBalanceIn(e.after, s).value >= 0.0)
      && (forall t :: t != s ==> GetBalanceIn(e.after, t) == GetBalanceIn(h, t))
      && Symbols(e.after) == Symbols(h)
  {
    ChangeAmountFrame(h, amount, s, true);
    var e := Withdraw(h, amount, s);
    if e.result.Ok? {
      FindInWellFormed(e.after, Find(h, s).value);
    }
  }

  /** Withdrawing what was just deposited restores the wallet, provided the
      balance was not negative to begin with. */
  lemma DepositWithdrawRoundTrip(h: Holdings, amount: real, s: string)
    requires WellFormed(h) && s in Symbols(h) && GetBalanceIn(h, s).value >= 0.0
    ensures Withdraw(Deposit(h, amount, s).after, amount, s) == Effect(h, Ok(()))
  {
    var k := Find(h, s).value;
    var d := Deposit(h, amount, s).after;
    assert d[k].symbol == s;
    FindInWellFormed(d, k);
    assert d[k := d[k].(balance := d[k].balance - amount)] == h;
  }

  /** The one-argument deposit, withdraw and total fail with EmptyWallet
      exactly on an empty wallet, and otherwise are the two-argument forms on
      the currency whose ordering number is 1. */
  lemma FirstCurrencyOperations(h: Holdings, amount: real)
    requires WellFormed(h)
    ensures DepositFirst(h, amount).result == Err(EmptyWallet) <==> IsEmpty(h)
    ensures WithdrawFirst(h, amount).result == Err(EmptyWallet) <==> IsEmpty(h)
    ensures ShowTotalInFirst(h) == Err(EmptyWallet) <==> IsEmpty(h)
    ensures !IsEmpty(h) ==> h[0].order == 1 && Symbols(h)[0] == h[0].symbol
    ensures !IsEmpty(h) ==> DepositFirst(h, amount).result.Ok?
    ensures forall k :: 0 <= k < |h| && h[k].order == 1 ==>
      && DepositFirst(h, amount) == Deposit(h, amount, h[k].symbol)
      && WithdrawFirst(h, amount) == Withdraw(h, amount, h[k].symbol)
      && ShowTotalInFirst(h) == ShowTotalIn(h, h[k].symbol)
  {
    if !IsEmpty(h) {
      FindInWellFormed(h, 0);
      var s := h[0].symbol;
      if TotalOf(h, s) == Err(EmptyWallet) {
        TotalOfErrors(h, s);
      }
    }
  }

  /** `clearWallet` leaves a wallet for which `isEmpty` holds. */
  lemma ClearWalletEmpties(h: Holdings)
    ensures IsEmpty(ClearWallet(h)) && WellFormed(ClearWallet(h))
    ensures forall s :: GetBalanceIn(ClearWallet(h), s) == Err(NoSuchCurrency(s))
  {
  }

  /** `setRate(c1, c2, r)`: on success c1 -> c2 is r and c2 -> c1 is 1/r (for
      c1 = c2 the second write wins: the self-rate becomes 1/r); an unknown c1
      changes nothing; an unknown c2 leaves c1 -> c2 = r written. Balances,
      the symbol order and every rate other than c1 -> c2 and c2 -> c1 never change. */
  lemma SetRateSpec(h: Holdings, c1: string, c2: string, r: real)
    requires WellFormed(h)
    ensures var e := SetRate(h, c1, c2, r);
      && WellFormed(e.after)
      && Symbols(e.after) == Symbols(h)
      && (forall t :: GetBalanceIn(e.after, t) == GetBalanceIn(h, t))
      && (e.result.Ok? <==> c1 in Symbols(h) && c2 in Symbols(h) && r != 0.0)
      && (c1 !in Symbols(h) ==> e == Effect(h, Err(NoSuchCurrency(c1))))
      && (c1 in Symbols(h) && c2 !in Symbols(h) ==>
            e.result == Err(NoSuchCurrency(c2)) && RateBetween(e.after, c1, c2) == Some(r))
      && (e.result.Ok? && c1 != c2 ==>
            RateBetween(e.after, c1, c2) == Some(r) && RateBetween(e.after, c2, c1) == Some(1.0 / r))
      && (e.result.Ok? && c1 == c2 ==> RateBetween(e.after, c1, c1) == Some(1.0 / r))
      && (forall a, b :: (a != c1 || b != c2) && (a != c2 || b != c1) ==>
            RateBetween(e.after, a, b) == RateBetween(h, a, b))
  {
    if c1 in Symbols(h) {
      var i := Find(h, c1).value;
      var h1 := h[i := h[i].(rates := h[i].rates[c2 := r])];
      WriteRateSpec(h, i, c2, r);
      if c2 in Symbols(h) && r != 0.0 {
        var j := Find(h1, c2).value;
        WriteRateSpec(h1, j, c1, 1.0 / r);
      }
    }
  }

  /** Writing one rate into the k-th entry's table keeps the invariant, every
      lookup and every balance, and changes that one rate only. */
  lemma WriteRateSpec(h: Holdings, k: nat, target: string, r: real)
    requires WellFormed(h) && k < |h|
    ensures var h1 := h[k := h[k].(rates := h[k].rates[target := r])];
      && WellFormed(h1)
      && Symbols(h1) == Symbols(h)
      && (forall t :: Find(h1, t) == Find(h, t))
      && (forall t :: GetBalanceIn(h1, t) == GetBalanceIn(h, t))
      && RateBetween(h1, h[k].symbol, target) == Some(r)
      && (forall a, b :: a != h[k].symbol || b != target ==> RateBetween(h1, a, b) == RateBetween(h, a, b))
  {
    var h1 := h[k := h[k].(rates := h[k].rates[target := r])];
    UpdateKeepsShape(h, k, h1[k]);
    FindInWellFormed(h, k);
    forall t ensures GetBalanceIn(h1, t) == GetBalanceIn(h, t) {
    }
  }

  /** `convertTo(a, c1, c2)` failing: without funds (or with c1 unknown)
      nothing changes; with c2 unknown or the rate c2 -> c1 missing it throws
      AFTER the withdrawal has been committed. The symbol order never changes. */
  lemma ConvertToFailures(h: Holdings, amount: real, c1: string, c2: string)
    requires WellFormed(h)
    ensures var e := ConvertTo(h, amount, c1, c2);
      && WellFormed(e.after)
      && Symbols(e.after) == Symbols(h)
      && (c1 !in Symbols(h) ==> e == Effect(h, Err(NoSuchCurrency(c1))))
      && (c1 in Symbols(h) && GetBalanceIn(h, c1).value < amount ==>
            e == Effect(h, Err(NotEnoughMoney)))
      && (c1 in Symbols(h) && GetBalanceIn(h, c1).value >= amount ==>
            && (c2 !in Symbols(h) ==>
                  e == Effect(Withdraw(h, amount, c1).after, Err(NoSuchCurrency(c2))))
            && (c2 in Symbols(h) && RateBetween(h, c2, c1).None? ==>
                  e == Effect(Withdraw(h, amount, c1).after, Err(UndefinedRate(c1, c2))))
            && (c2 in Symbols(h) && RateBetween(h, c2, c1).Some? ==> e.result == Ok(())))
  {
    var w := Withdraw(h, amount, c1);
    WithdrawSpec(h, amount, c1);
    ChangeAmountFrame(h, amount, c1, true);
    if w.result.Ok? && c2 in Symbols(h) {
      var j := Find(w.after, c2).value;
      assert RateBetween(w.after, c2, c1) == GetRate(w.after[j], c1);
      if RateBetween(h, c2, c1).Some? {
        var rate := RateBetween(h, c2, c1).value;
        ChangeAmountFrame(w.after, Converted(rate, amount), c2, false);
      }
    }
  }

  /** `convertTo(a, c1, c2)` succeeding: c1 loses `a`, c2 gains
      `a * rate(c2 -> c1)` (for c1 = c2 both happen to the one balance), no
      other balance moves, and no rate and no symbol changes. */
  lemma ConvertToConserves(h: Holdings, amount: real, c1: string, c2: string)
    requires WellFormed(h)
    requires c1 in Symbols(h) && GetBalanceIn(h, c1).value >= amount
    requires c2 in Symbols(h) && RateBetween(h, c2, c1).Some?
    ensures var e := ConvertTo(h, amount, c1, c2);
      && e.result == Ok(())
      && (c1 != c2 ==>
            && GetBalanceIn(e.after, c1) == Ok(GetBalanceIn(h, c1).value - amount)
            && GetBalanceIn(e.after, c2) ==
                 Ok(GetBalanceIn(h, c2).value + Converted(RateBetween(h, c2, c1).value, amount)))
      && (c1 == c2 ==>
            GetBalanceIn(e.after, c1) ==
              Ok(GetBalanceIn(h, c1).value - amount + Converted(RateBetween(h, c1, c1).value, amount)))
      && (forall t :: t != c1 && t != c2 ==> GetBalanceIn(e.after, t) == GetBalanceIn(h, t))
      && (forall x, y :: RateBetween(e.after, x, y) == RateBetween(h, x, y))
      && Symbols(e.after) == Symbols(h)
  {
    var w := Withdraw(h, amount, c1);
    WithdrawSpec(h, amount, c1);
    ChangeAmountFrame(h, amount, c1, true);
    assert w.result.Ok?;
    var j := Find(w.after, c2).value;
    assert Find(w.after, c2) == Some(j);
    var rate := RateBetween(h, c2, c1).value;
    assert GetRate(w.after[j], c1) == Some(rate);
    var e := Deposit(w.after, Converted(rate, amount), c2);
    assert ConvertTo(h, amount, c1, c2) == e;
    DepositSpec(w.after, Converted(rate, amount), c2);
    ChangeAmountFrame(w.after, Converted(rate, amount), c2, false);
  }

  /** Lookups in a wallet of two entries with different symbols. */
  lemma FindInPair(x: Holding, y: Holding)
    requires x.symbol != y.symbol
    ensures Symbols([x, y]) == [x.symbol, y.symbol]
    ensures Find([x, y], x.symbol) == Some(0) && Find([x, y], y.symbol) == Some(1)
  {
    assert Symbols([x, y]) == [x.symbol, y.symbol];
    assert Symbols([x, y])[1..] == [y.symbol];
  }

  /** The first steps of `WalletTest.testConvert`: ruble and dollar added, rate
      ruble -> dollar 60 set, 100 deposited into the first currency. */
  lemma ConvertSetup(ruble: string, dollar: string)
    requires ruble != dollar
    ensures var h0 := AddCurrency(AddCurrency([], ruble), dollar);
      var h1 := SetRate(h0, ruble, dollar, 60.0).after;
      DepositFirst(h1, 100.0).after ==
        [Holding(ruble, 1, map[ruble := 1.0, dollar := 60.0], 100.0),
         Holding(dollar, 2, map[dollar := 1.0, ruble := 1.0 / 60.0], 0.0)]
  {
    var r0 := Holding(ruble, 1, map[ruble := 1.0], 0.0);
    var d0 := Holding(dollar, 2, map[dollar := 1.0], 0.0);
    assert Symbols([r0]) == [ruble];
    assert AddCurrency([], ruble) == [r0];
    assert AddCurrency([r0], dollar) == [r0, d0];
    var r1 := r0.(rates := map[ruble := 1.0, dollar := 60.0]);
    var d1 := d0.(rates := map[dollar := 1.0, ruble := 1.0 / 60.0]);
    FindInPair(r0, d0);
    FindInPair(r1, d0);
    assert SetRate([r0, d0], ruble, dollar, 60.0).after == [r1, d1];
    FindInPair(r1, d1);
  }

  /** The conversion step of `WalletTest.testConvert`, on the wallet its first steps leave. */
  lemma ConvertStep(ruble: string, dollar: string)
    requires ruble != dollar
    ensures ConvertTo([Holding(ruble, 1, map[ruble := 1.0, dollar := 60.0], 100.0),
                       Holding(dollar, 2, map[dollar := 1.0, ruble := 1.0 / 60.0], 0.0)],
                      50.0, ruble, dollar) ==
      Effect([Holding(ruble, 1, map[ruble := 1.0, dollar := 60.0], 50.0),
              Holding(dollar, 2, map[dollar := 1.0, ruble := 1.0 / 60.0], 50.0 / 60.0)], Ok(()))
  {
    var r2 := Holding(ruble, 1, map[ruble := 1.0, dollar := 60.0], 100.0);
    var d2 := Holding(dollar, 2, map[dollar := 1.0, ruble := 1.0 / 60.0], 0.0);
    var r3 := r2.(balance := 50.0);
    FindInPair(r2, d2);
    assert Withdraw([r2, d2], 50.0, ruble) == Effect([r3, d2], Ok(()));
    FindInPair(r3, d2);
    assert GetRate(d2, ruble) == Some(1.0 / 60.0);
    assert Converted(1.0 / 60.0, 50.0) == 50.0 / 60.0;
  }

  /** The conversion of `WalletTest.testConvert`: 100 rubles, rate
      ruble -> dollar 60, convert 50 rubles: 50 rubles and 50/60 dollars
      (for any two different symbols in the roles of ruble and dollar). */
  lemma ConvertScenario(ruble: string, dollar: string)
    requires ruble != dollar
    ensures var h0 := AddCurrency(AddCurrency([], ruble), dollar);
      var h1 := SetRate(h0, ruble, dollar, 60.0).after;
      var h2 := DepositFirst(h1, 100.0).after;
      var e := ConvertTo(h2, 50.0, ruble, dollar);
      && e.result == Ok(())
      && GetBalanceIn(e.after, ruble) == Ok(50.0)
      && GetBalanceIn(e.after, dollar) == Ok(50.0 / 60.0)
  {
    ConvertSetup(ruble, dollar);
    ConvertStep(ruble, dollar);
    FindInPair(Holding(ruble, 1, map[ruble := 1.0, dollar := 60.0], 50.0),
               Holding(dollar, 2, map[dollar := 1.0, ruble := 1.0 / 60.0], 50.0 / 60.0));
  }

  /** The first steps of `WalletTest.testShow`: ruble added and 100 deposited into it,
      dollar added with 80, rate ruble -> dollar 60 set. */
  lemma ShowSetup(ruble: string, dollar: string)
    requires ruble != dollar
    ensures var h1 := DepositFirst(AddCurrency([], ruble), 100.0).after;
      var h2 := Deposit(AddCurrency(h1, dollar), 80.0, dollar).after;
      SetRate(h2, ruble, dollar, 60.0).after ==
        [Holding(ruble, 1, map[ruble := 1.0, dollar := 60.0], 100.0),
         Holding(dollar, 2, map[dollar := 1.0, ruble := 1.0 / 60.0], 80.0)]
  {
    var r0 := Holding(ruble, 1, map[ruble := 1.0], 0.0);
    assert Symbols([r0]) == [ruble];
    assert AddCurrency([], ruble) == [r0];
    var r1 := r0.(balance := 100.0);
    assert DepositFirst([r0], 100.0).after == [r1];
    assert Symbols([r1]) == [ruble];
    var d0 := Holding(dollar, 2, map[dollar := 1.0], 0.0);
    assert AddCurrency([r1], dollar) == [r1, d0];
    var d1 := d0.(balance := 80.0);
    FindInPair(r1, d0);
    assert Deposit([r1, d0], 80.0, dollar).after == [r1, d1];
    var r3 := r1.(rates := map[ruble := 1.0, dollar := 60.0]);
    FindInPair(r1, d1);
    FindInPair(r3, d1);
  }

  /** The total of the final wallet of `WalletTest.testShow` in rubles: 100 + 80 / (1/60). */
  lemma ShowTotal(ruble: string, dollar: string)
    requires ruble != dollar
    ensures TotalOf([Holding(ruble, 1, map[ruble := 1.0, dollar := 60.0], 100.0),
                     Holding(dollar, 2, map[dollar := 1.0, ruble := 1.0 / 60.0], 80.0)], ruble)
      == Ok(4900.0)
  {
    var r3 := Holding(ruble, 1, map[ruble := 1.0, dollar := 60.0], 100.0);
    var d3 := Holding(dollar, 2, map[dollar := 1.0, ruble := 1.0 / 60.0], 80.0);
    assert [r3, d3][..1] == [r3];
    assert [r3][..0] == [];
    assert TotalOf([r3], ruble) == Ok(100.0);
    assert GetRate(d3, ruble) == Some(1.0 / 60.0);
  }

  /** `WalletTest.testShow`: 100 rubles, 80 dollars, rate ruble -> dollar 60.
      Showing the total (in rubles, the first currency) and the balance
      throws nothing; the total is 100 + 80 / (1/60) = 4900 rubles (for any two
      different symbols in the roles of ruble and dollar). */
  lemma ShowScenario(ruble: string, dollar: string)
    requires ruble != dollar
    ensures var h1 := DepositFirst(AddCurrency([], ruble), 100.0).after;
      var h2 := Deposit(AddCurrency(h1, dollar), 80.0, dollar).after;
      var h3 := SetRate(h2, ruble, dollar, 60.0).after;
      && ShowTotalInFirst(h3) == Ok([Printed(4900.0, ruble)])
      && ShowBalance(h3) == [Printed(100.0, ruble), Printed(80.0, dollar)]
  {
    ShowSetup(ruble, dollar);
    ShowTotal(ruble, dollar);
    FindInPair(Holding(ruble, 1, map[ruble := 1.0, dollar := 60.0], 100.0),
               Holding(dollar, 2, map[dollar := 1.0, ruble := 1.0 / 60.0], 80.0));
  }

  /** When `TotalOf` fails, and with what: the first entry (in order) with no
      rate to `s` gives UndefinedRate, a zero rate gives NonFiniteRate. */
  lemma {:induction false} TotalOfErrors(h: Holdings, s: string)
    ensures TotalOf(h, s).Err? <==>
      exists i :: 0 <= i < |h| && (GetRate(h[i], s).None? || GetRate(h[i], s) == Some(0.0))
    ensures TotalOf(h, s).Err? ==>
      TotalOf(h, s).error.UndefinedRate? || TotalOf(h, s).error == NonFiniteRate
  {
    if h != [] {
      var front := h[..|h| - 1];
      TotalOfErrors(front, s);
      if TotalOf(front, s).Err? {
        var i :| 0 <= i < |front| && (GetRate(front[i], s).None? || GetRate(front[i], s) == Some(0.0));
        assert h[i] == front[i];
      } else {
        forall i | 0 <= i < |h| - 1 ensures GetRate(h[i], s).Some? && GetRate(h[i], s) != Some(0.0) {
          assert h[i] == front[i];
        }
      }
    }
  }

  /** `getTotal(c)` throws exactly when `c` is not held or some held currency,
      even one with a zero balance, has no (usable) rate to `c`. */
  lemma GetTotalFailures(h: Holdings, s: string)
    ensures GetTotal(h, s).Err? <==>
      || s !in Symbols(h)
      || exists i :: 0 <= i < |h| && (GetRate(h[i], s).None? || GetRate(h[i], s) == Some(0.0))
    ensures s !in Symbols(h) ==> GetTotal(h, s) == Err(NoSuchCurrency(s))
  {
    TotalOfErrors(h, s);
  }

  /** A wallet holding only `c`, with its self-rate 1, totals to its balance. */
  lemma GetTotalSingle(hd: Holding)
    requires GetRate(hd, hd.symbol) == Some(1.0)
    ensures GetTotal([hd], hd.symbol) == Ok(hd.balance)
  {
    TotalOfOne(hd, hd.symbol);
    assert Symbols([hd]) == [hd.symbol];
  }

  /** The loop over two consecutive runs of entries succeeds exactly when it
      succeeds over each, and then the totals add up. */
  lemma {:induction false} TotalOfAppend(a: Holdings, b: Holdings, s: string)
    ensures TotalOf(a + b, s).Ok? <==> TotalOf(a, s).Ok? && TotalOf(b, s).Ok?
    ensures TotalOf(a + b, s).Ok? ==>
      TotalOf(a + b, s).value == TotalOf(a, s).value + TotalOf(b, s).value
    decreases |b|
  {
    if b == [] {
      assert a + b == a;
    } else {
      var bf := b[..|b| - 1];
      assert (a + b)[..|a + b| - 1] == a + bf;
      assert (a + b)[|a + b| - 1] == b[|b| - 1];
      TotalOfAppend(a, bf, s);
    }
  }

  /** Once the loop has thrown on a prefix, later entries do not matter. */
  lemma {:induction false} TotalOfStopsAtError(a: Holdings, b: Holdings, s: string)
    requires TotalOf(a, s).Err?
    ensures TotalOf(a + b, s) == TotalOf(a, s)
    decreases |b|
  {
    if b == [] {
      assert a + b == a;
    } else {
      var bf := b[..|b| - 1];
      assert (a + b)[..|a + b| - 1] == a + bf;
      TotalOfStopsAtError(a, bf, s);
    }
  }

  lemma TotalOfOne(hd: Holding, s: string)
    ensures TotalOf([hd], s) == match GetRate(hd, s)
      case None => Err(UndefinedRate(s, hd.symbol))
      case Some(rate) => if rate == 0.0 then Err(NonFiniteRate) else Ok(hd.balance / rate)
  {
    assert [hd][..0] == [];
  }

  /** Replacing one entry by another with the same rates and `delta` more
      money moves the total by `delta`, divided by that rate. */
  lemma TotalOfReplace(pre: Holdings, x: Holding, y: Holding, post: Holdings, s: string, delta: real)
    requires TotalOf(pre + [x] + post, s).Ok?
    requires GetRate(x, s) == GetRate(y, s) && y.balance == x.balance + delta
    ensures GetRate(x, s).Some? && GetRate(x, s).value != 0.0
    ensures TotalOf(pre + [y] + post, s) ==
      Ok(TotalOf(pre + [x] + post, s).value + delta / GetRate(x, s).value)
  {
    TotalOfAppend(pre + [x], post, s);
    TotalOfAppend(pre, [x], s);
    TotalOfOne(x, s);
    TotalOfOne(y, s);
    TotalOfAppend(pre, [y], s);
    TotalOfAppend(pre + [y], post, s);
    DivideSplit(x.balance, delta, GetRate(x, s).value);
  }

  lemma DivideSplit(x: real, d: real, r: real)
    requires r != 0.0
    ensures (x + d) / r == x / r + d / r
  {
  }

  /** Depositing `a` into `c` raises the total in `s` by `a / rate(c -> s)`. */
  lemma DepositRaisesTotal(h: Holdings, amount: real, c: string, s: string)
    requires WellFormed(h) && GetTotal(h, s).Ok? && c in Symbols(h)
    ensures RateBetween(h, c, s).Some? && RateBetween(h, c, s).value != 0.0
    ensures GetTotal(Deposit(h, amount, c).after, s) ==
      Ok(GetTotal(h, s).value + amount / RateBetween(h, c, s).value)
  {
    var k := Find(h, c).value;
    var y := h[k].(balance := h[k].balance + amount);
    assert Deposit(h, amount, c).after == h[k := y];
    UpdateKeepsShape(h, k, y);
    TotalOfUpdate(h, k, y, s, amount);
  }

  /** `TotalOfReplace` for an update in place. */
  lemma TotalOfUpdate(h: Holdings, k: nat, y: Holding, s: string, delta: real)
    requires k < |h| && TotalOf(h, s).Ok?
    requires GetRate(h[k], s) == GetRate(y, s) && y.balance == h[k].balance + delta
    ensures GetRate(h[k], s).Some? && GetRate(h[k], s).value != 0.0
    ensures TotalOf(h[k := y], s) == Ok(TotalOf(h, s).value + delta / GetRate(h[k], s).value)
  {
    assert h == h[..k] + [h[k]] + h[k + 1..];
    assert h[k := y] == h[..k] + [y] + h[k + 1..];
    TotalOfReplace(h[..k], h[k], y, h[k + 1..], s, delta);
  }

  /** `showBalance` lists every held currency once, in insertion order. */
  lemma ShowBalanceOrder(h: Holdings)
    requires WellFormed(h)
    ensures |ShowBalance(h)| == |h|
    ensures forall i :: 0 <= i < |h| ==>
      ShowBalance(h)[i].currency == Symbols(h)[i] &&
      Ok(ShowBalance(h)[i].amount) == GetBalanceIn(h, Symbols(h)[i])
  {
    forall i | 0 <= i < |h|
      ensures Ok(ShowBalance(h)[i].amount) == GetBalanceIn(h, Symbols(h)[i])
    {
      FindInWellFormed(h, i);
    }
  }
}
