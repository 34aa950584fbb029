/** `WalletImpl` (src/Ignatov/wallet/WalletImpl.java) as a class over its own
    fields: the `wallet` TreeMap from currency to balance, the `currencies`
    HashMap from symbol to currency, and the `currencyNumber` counter.

    Each method is proved against the functions of `Ledger` and `Commands`:
    `View()` reads the fields as the list of TreeMap entries in key order, and
    every method ends in the state, and with the result or exception, that the
    corresponding function describes. */
module WalletEngine {
  import opened Wrappers
  import opened Currencies
  import opened Ledger
  import JavaText
  import Commands

  /** The entries of a TreeMap whose keys, in ascending order, are `cs`. */
  ghost function Entries(cs: seq<Currency>, w: map<Currency, real>): (r: Holdings)
    reads cs
    ensures |r| == |cs|
    ensures forall i :: 0 <= i < |cs| ==>
      r[i] == Holding(cs[i].symbol, cs[i].orderingNumber, cs[i].rates, if cs[i] in w then w[cs[i]] else 0.0)
  {
    seq(|cs|, i reads cs requires 0 <= i < |cs| =>
      Holding(cs[i].symbol, cs[i].orderingNumber, cs[i].rates, if cs[i] in w then w[cs[i]] else 0.0))
  }

  /** How the fields of a wallet fit together: both maps hold the same
      currencies, one per symbol, and the i-th key of the TreeMap (in `order`)
      carries ordering number i + 1, so `n` keys have been added. */
  predicate Consistent(order: seq<Currency>, wallet: map<Currency, real>,
                       currencies: map<string, Currency>, n: int)
  {
    && n == |order|
    && (forall i :: 0 <= i < |order| ==> order[i] in wallet && order[i].orderingNumber == i + 1)
    && (forall c :: c in wallet ==> c in order)
    && (forall s :: s in currencies ==> currencies[s] in wallet && currencies[s].symbol == s)
    && (forall c :: c in wallet ==> c.symbol in currencies && currencies[c.symbol] == c)
  }

  /** In a consistent wallet the entries obey the ledger's invariant, and
      `currencies.get(s)` is the key at the position `Find` returns. */
  lemma EntriesFind(order: seq<Currency>, wallet: map<Currency, real>,
                    currencies: map<string, Currency>, n: int, s: string)
    requires Consistent(order, wallet, currencies, n)
    ensures WellFormed(Entries(order, wallet))
    ensures s in currencies <==> Find(Entries(order, wallet), s).Some?
    ensures s in currencies ==> order[Find(Entries(order, wallet), s).value] == currencies[s]
  {
    var v := Entries(order, wallet);
    forall i, j | 0 <= i < j < |v| ensures v[i].symbol != v[j].symbol {
      assert currencies[order[i].symbol] == order[i];
      assert currencies[order[j].symbol] == order[j];
    }
    if s in currencies {
      var c := currencies[s];
      assert c in order;
      var i :| 0 <= i < |order| && order[i] == c;
      FindInWellFormed(v, i);
    }
    if Find(v, s).Some? {
      assert order[Find(v, s).value] in wallet;
    }
  }

  /** A new currency with the next number keeps the wallet consistent. */
  lemma ConsistentAdd(order: seq<Currency>, wallet: map<Currency, real>,
                      currencies: map<string, Currency>, n: int, c: Currency)
    requires Consistent(order, wallet, currencies, n)
    requires c !in wallet && c.symbol !in currencies && c.orderingNumber == n + 1
    ensures Consistent(order + [c], wallet[c := 0.0], currencies[c.symbol := c], n + 1)
  {
    var o := order + [c];
    assert forall x :: x in order ==> x in o;
  }

  /** Keys at different positions are different currencies. */
  lemma ConsistentDistinct(order: seq<Currency>, wallet: map<Currency, real>,
                           currencies: map<string, Currency>, n: int)
    requires Consistent(order, wallet, currencies, n)
    ensures forall i, j :: 0 <= i < |order| && 0 <= j < |order| && i != j ==> order[i] != order[j]
  {
  }

  /** A new greatest key adds one entry at the end. */
  lemma EntriesAppend(cs: seq<Currency>, w: map<Currency, real>, c: Currency, b: real)
    requires forall i :: 0 <= i < |cs| ==> cs[i] != c
    ensures Entries(cs + [c], w[c := b]) ==
      Entries(cs, w) + [Holding(c.symbol, c.orderingNumber, c.rates, b)]
  {
    var cs', w' := cs + [c], w[c := b];
    assert forall i :: 0 <= i < |cs| ==> cs'[i] == cs[i];
  }

  /** Storing a new balance under the k-th key changes the k-th entry's balance only. */
  lemma EntriesUpdate(cs: seq<Currency>, w: map<Currency, real>, k: nat, b: real)
    requires k < |cs|
    requires forall i :: 0 <= i < |cs| && i != k ==> cs[i] != cs[k]
    ensures Entries(cs, w[cs[k] := b]) == Entries(cs, w)[k := Entries(cs, w)[k].(balance := b)]
  {
  }

  /** `changeAmount` on the fields, when it throws, does what `Ledger.ChangeAmount`
      does on the entries. */
  lemma ChangeAmountRefused(order: seq<Currency>, wallet: map<Currency, real>,
                            currencies: map<string, Currency>, n: int,
                            amount: real, s: string, requiredGreater: bool)
    requires Consistent(order, wallet, currencies, n)
    ensures s !in currencies ==>
      Ledger.ChangeAmount(Entries(order, wallet), amount, s, requiredGreater) ==
        Effect(Entries(order, wallet), Err(NoSuchCurrency(s)))
    ensures s in currencies && requiredGreater && wallet[currencies[s]] < amount ==>
      Ledger.ChangeAmount(Entries(order, wallet), amount, s, requiredGreater) ==
        Effect(Entries(order, wallet), Err(NotEnoughMoney))
  {
    EntriesFind(order, wallet, currencies, n, s);
  }

  /** `changeAmount` on the fields, when it stores the new balance `b`, does
      what `Ledger.ChangeAmount` does on the entries and keeps the fields consistent. */
  lemma ChangeAmountStored(order: seq<Currency>, wallet: map<Currency, real>,
                           currencies: map<string, Currency>, n: int,
                           amount: real, s: string, requiredGreater: bool, b: real)
    requires Consistent(order, wallet, currencies, n)
    requires s in currencies && !(requiredGreater && wallet[currencies[s]] < amount)
    requires b == if requiredGreater then wallet[currencies[s]] - amount else wallet[currencies[s]] + amount
    ensures Consistent(order, wallet[currencies[s] := b], currencies, n)
    ensures wallet[currencies[s] := b].Keys == wallet.Keys
    ensures Ledger.ChangeAmount(Entries(order, wallet), amount, s, requiredGreater).result == Ok(())
    ensures Ledger.ChangeAmount(Entries(order, wallet), amount, s, requiredGreater).after ==
      Entries(order, wallet[currencies[s] := b])
  {
    ConsistentStore(order, wallet, currencies, n, currencies[s], b);
    EntriesFind(order, wallet, currencies, n, s);
    var k := Find(Entries(order, wallet), s).value;
    ConsistentDistinct(order, wallet, currencies, n);
    EntriesUpdate(order, wallet, k, b);
  }

  /** A new balance for a held currency keeps the fields consistent. */
  lemma ConsistentStore(order: seq<Currency>, wallet: map<Currency, real>,
                        currencies: map<string, Currency>, n: int, c: Currency, b: real)
    requires Consistent(order, wallet, currencies, n) && c in wallet
    ensures Consistent(order, wallet[c := b], currencies, n)
    ensures wallet[c := b].Keys == wallet.Keys
  {
  }

  /** `addCurrency` on the fields does what `Ledger.AddCurrency` does on the entries. */
  lemma AddCurrencyEntries(order: seq<Currency>, wallet: map<Currency, real>,
                           currencies: map<string, Currency>, n: int, c: Currency)
    requires Consistent(order, wallet, currencies, n)
    requires c !in wallet && c.symbol !in currencies && c.orderingNumber == n + 1
    requires c.rates == map[c.symbol := 1.0]
    ensures Consistent(order + [c], wallet[c := 0.0], currencies[c.symbol := c], n + 1)
    ensures Entries(order + [c], wallet[c := 0.0]) == Ledger.AddCurrency(Entries(order, wallet), c.symbol)
  {
    ConsistentAdd(order, wallet, currencies, n, c);
    EntriesFind(order, wallet, currencies, n, c.symbol);
    EntriesAppend(order, wallet, c, 0.0);
  }

  /** Every key of a consistent wallet sits in `order` at its ordering number minus one. */
  lemma KeyPosition(order: seq<Currency>, wallet: map<Currency, real>,
                    currencies: map<string, Currency>, n: int, c: Currency)
    requires Consistent(order, wallet, currencies, n) && c in wallet
    ensures 1 <= c.orderingNumber <= n && order[c.orderingNumber - 1] == c
  {
    assert c in order;
  }

  /** One turn of the `getTotal` loop over the i-th entry, given the sum of
      the entries before it; an error there is the error of the whole loop. */
  lemma TotalStep(v: Holdings, i: nat, s: string, sum: real)
    requires 1 <= i <= |v| && TotalOf(v[..i - 1], s) == Ok(sum)
    ensures TotalOf(v[..i], s) == AddEntry(v[i - 1], s, sum)
    ensures AddEntry(v[i - 1], s, sum).Err? ==> TotalOf(v, s) == AddEntry(v[i - 1], s, sum)
  {
    assert v[..i][..i - 1] == v[..i - 1];
    if TotalOf(v[..i], s).Err? {
      assert v[..i] + v[i..] == v;
      TotalOfStopsAtError(v[..i], v[i..], s);
    }
  }

  /** The body of the `getTotal` loop on one key and its balance. */
  method Accumulate(c: Currency, balance: real, s: string, sum: real) returns (r: Result<real, Error>)
    ensures r == AddEntry(Holding(c.symbol, c.orderingNumber, c.rates, balance), s, sum)
  {
    var rate := c.GetRate(s);
    if rate.None? {
      return Err(UndefinedRate(s, c.GetCurrency()));
    }
    if rate.value == 0.0 {
      return Err(NonFiniteRate);
    }
    r := Ok(sum + balance / rate.value);
  }

  /** One turn of the loop of `start`: how the outcome of the whole run,
      known as `printed` followed by the run of the remaining lines from `h`,
      reads once line i has run and left the wallet at `h2`. */
  lemma RunStep(run: Commands.Session, h: Holdings, lines: seq<string>, i: nat,
                parse: Commands.Parser, printed: seq<Printed>, h2: Holdings)
    requires i < |lines| && Commands.ExecLine(h, lines[i], parse).after == h2
    requires var rest := Commands.RunLines(h, lines[i..], parse);
      run == Commands.Session(rest.after, printed + rest.printed, rest.failure)
    ensures var e := Commands.ExecLine(h, lines[i], parse);
      e.result.Err? ==> run == Commands.Session(h2, printed, Some(e.result.error))
    ensures var e := Commands.ExecLine(h, lines[i], parse);
      var rest := Commands.RunLines(h2, lines[i + 1..], parse);
      e.result.Ok? ==> run == Commands.Session(rest.after, (printed + e.result.value) + rest.printed, rest.failure)
  {
    assert lines[i..][0] == lines[i] && lines[i..][1..] == lines[i + 1..];
    var e := Commands.ExecLine(h, lines[i], parse);
    if e.result.Ok? {
      var rest := Commands.RunLines(h2, lines[i + 1..], parse);
      assert printed + (e.result.value + rest.printed) == (printed + e.result.value) + rest.printed;
    } else {
      assert printed + [] == printed;
    }
  }

  class WalletImpl {
    /** The TreeMap ordered by `Currency.compareTo`: currency -> balance. */
    var wallet: map<Currency, real>
    /** symbol -> currency. */
    var currencies: map<string, Currency>
    /** How many currencies have been added since the last clear. */
    var currencyNumber: int
    /** The keys of `wallet` in ascending order. */
    ghost var order: seq<Currency>

    ghost predicate Valid()
      reads this
    {
      Consistent(order, wallet, currencies, currencyNumber)
    }

    /** The wallet as the list of its TreeMap entries. */
    ghost function View(): Holdings
      reads this, wallet.Keys
      requires Valid()
    {
      Entries(order, wallet)
    }

    /** An empty wallet. */
    constructor ()
      ensures Valid()
      ensures View() == []
    {
      wallet := map[];
      currencies := map[];
      currencyNumber := 0;
      order := [];
    }

    /** `isEmpty`: no currency has been added since the last clear. */
    function IsEmpty(): (r: bool)
      reads this, wallet.Keys
      requires Valid()
      ensures r <==> Ledger.IsEmpty(View())
    {
      currencyNumber == 0
    }

    /** `addCurrency`. */
    method AddCurrency(s: string)
      requires Valid()
      modifies this
      ensures Valid() && fresh(wallet.Keys - old(wallet.Keys))
      ensures View() == Ledger.AddCurrency(old(View()), s)
    {
      if s in currencies {
        EntriesFind(order, wallet, currencies, currencyNumber, s);
        return;
      }
      ghost var o, w, n := order, wallet, currencyNumber;
      ghost var v := Entries(o, w);
      currencyNumber := currencyNumber + 1;
      var c := new Currency(s, currencyNumber);
      wallet := wallet[c := 0.0];
      currencies := currencies[s := c];
      order := order + [c];
      assert Entries(o, w) == v;
      AddCurrencyEntries(o, w, old(currencies), n, c);
    }

    /** `changeAmount`: add `amount` to, or (when `requiredGreater`) take it
        from, the balance of `s`. */
    method ChangeAmount(amount: real, s: string, requiredGreater: bool) returns (r: Result<(), Error>)
      requires Valid()
      modifies this
      ensures Valid() && wallet.Keys == old(wallet.Keys)
      ensures View() == Ledger.ChangeAmount(old(View()), amount, s, requiredGreater).after
      ensures r == Ledger.ChangeAmount(old(View()), amount, s, requiredGreater).result
    {
      ChangeAmountRefused(order, wallet, currencies, currencyNumber, amount, s, requiredGreater);
      if s !in currencies {
        return Err(NoSuchCurrency(s));
      }
      var c := currencies[s];
      var oldAmount := wallet[c];
      if requiredGreater && oldAmount < amount {
        return Err(NotEnoughMoney);
      }
      ghost var w := wallet;
      ghost var v := Entries(order, w);
      var b := if requiredGreater then oldAmount - amount else oldAmount + amount;
      wallet := wallet[c := b];
      assert Entries(order, w) == v;
      ChangeAmountStored(order, w, currencies, currencyNumber, amount, s, requiredGreater, b);
      r := Ok(());
    }

    /** `deposit(amount, s)`. */
    method Deposit(amount: real, s: string) returns (r: Result<(), Error>)
      requires Valid()
      modifies this
      ensures Valid() && wallet.Keys == old(wallet.Keys)
      ensures View() == Ledger.Deposit(old(View()), amount, s).after
      ensures r == Ledger.Deposit(old(View()), amount, s).result
    {
      r := ChangeAmount(amount, s, false);
    }

    /** `withdraw(amount, s)`. */
    method Withdraw(amount: real, s: string) returns (r: Result<(), Error>)
      requires Valid()
      modifies this
      ensures Valid() && wallet.Keys == old(wallet.Keys)
      ensures View() == Ledger.Withdraw(old(View()), amount, s).after
      ensures r == Ledger.Withdraw(old(View()), amount, s).result
    {
      r := ChangeAmount(amount, s, true);
    }

    /** `checkNonEmpty`. */
    method CheckNonEmpty() returns (r: Result<(), Error>)
      requires Valid()
      ensures r.Err? <==> Ledger.IsEmpty(View())
      ensures r.Err? ==> r.error == EmptyWallet
    {
      if IsEmpty() {
        return Err(EmptyWallet);
      }
      return Ok(());
    }

    /** The key of the i-th entry of the TreeMap (counting from 1): the
        currency with ordering number i. */
    method Entry(i: int) returns (c: Currency)
      requires Valid() && 1 <= i <= currencyNumber
      ensures c in wallet && c == order[i - 1]
      ensures c.symbol == View()[i - 1].symbol && wallet[c] == View()[i - 1].balance
      ensures c.rates == View()[i - 1].rates
      ensures Holding(c.symbol, c.orderingNumber, c.rates, wallet[c]) == View()[i - 1]
    {
      assert order[i - 1] in wallet && order[i - 1].orderingNumber == i;
      c :| c in wallet && c.orderingNumber == i;
      KeyPosition(order, wallet, currencies, currencyNumber, c);
    }

    /** `deposit(amount)`: into the first key of the TreeMap. */
    method DepositFirst(amount: real) returns (r: Result<(), Error>)
      requires Valid()
      modifies this
      ensures Valid() && wallet.Keys == old(wallet.Keys)
      ensures View() == Ledger.DepositFirst(old(View()), amount).after
      ensures r == Ledger.DepositFirst(old(View()), amount).result
    {
      r := CheckNonEmpty();
      if r.Err? {
        return;
      }
      var first := Entry(1);
      ghost var h := View();
      assert Ledger.DepositFirst(h, amount) == Ledger.Deposit(h, amount, first.symbol);
      r := Deposit(amount, first.symbol);
    }

    /** `withdraw(amount)`: from the first key of the TreeMap. */
    method WithdrawFirst(amount: real) returns (r: Result<(), Error>)
      requires Valid()
      modifies this
      ensures Valid() && wallet.Keys == old(wallet.Keys)
      ensures View() == Ledger.WithdrawFirst(old(View()), amount).after
      ensures r == Ledger.WithdrawFirst(old(View()), amount).result
    {
      r := CheckNonEmpty();
      if r.Err? {
        return;
      }
      var first := Entry(1);
      ghost var h := View();
      assert Ledger.WithdrawFirst(h, amount) == Ledger.Withdraw(h, amount, first.symbol);
      r := Withdraw(amount, first.symbol);
    }

    /** `c.addRate(target, rate)` on the k-th key: only that entry's rate
        table changes. */
    method WriteRate(c: Currency, ghost k: nat, target: string, rate: real)
      requires Valid() && k < |order| && order[k] == c
      modifies c
      ensures Valid() && unchanged(this)
      ensures View() == old(View())[k := old(View())[k].(rates := old(View())[k].rates[target := rate])]
    {
      ghost var v := View();
      ConsistentDistinct(order, wallet, currencies, currencyNumber);
      c.AddRate(target, rate);
      assert forall m :: 0 <= m < |order| && m != k ==> order[m].rates == old(order[m].rates);
    }

    /** `setRate`: the rate c1 -> c2 is written before c2 is looked up. */
    method SetRate(c1: string, c2: string, rate: real) returns (r: Result<(), Error>)
      requires Valid()
      modifies wallet.Keys
      ensures Valid()
      ensures View() == Ledger.SetRate(old(View()), c1, c2, rate).after
      ensures r == Ledger.SetRate(old(View()), c1, c2, rate).result
    {
      EntriesFind(order, wallet, currencies, currencyNumber, c1);
      EntriesFind(order, wallet, currencies, currencyNumber, c2);
      if c1 !in currencies {
        return Err(NoSuchCurrency(c1));
      }
      var from := currencies[c1];
      WriteRate(from, Find(View(), c1).value, c2, rate);
      if c2 !in currencies {
        return Err(NoSuchCurrency(c2));
      }
      if rate == 0.0 {
        return Err(NonFiniteRate);
      }
      var to := currencies[c2];
      EntriesFind(order, wallet, currencies, currencyNumber, c2);
      WriteRate(to, Find(View(), c2).value, c1, 1.0 / rate);
      r := Ok(());
    }

    /** `convertTo`: the withdrawal stays even when a later step throws. (`WalletImpl.convertTo`
        looks c1 up once more after the withdrawal; that lookup cannot
        fail and is not repeated here.) */
    method ConvertTo(amount: real, c1: string, c2: string) returns (r: Result<(), Error>)
      requires Valid()
      modifies this
      ensures Valid() && wallet.Keys == old(wallet.Keys)
      ensures View() == Ledger.ConvertTo(old(View()), amount, c1, c2).after
      ensures r == Ledger.ConvertTo(old(View()), amount, c1, c2).result
    {
      r := Withdraw(amount, c1);
      if r.Err? {
        return;
      }
      EntriesFind(order, wallet, currencies, currencyNumber, c2);
      if c2 !in currencies {
        return Err(NoSuchCurrency(c2));
      }
      var target := currencies[c2];
      var rate := target.GetRate(c1);
      if rate.None? {
        return Err(UndefinedRate(c1, c2));
      }
      r := Deposit(Converted(rate.value, amount), c2);
    }

    /** `getBalanceIn`. */
    function GetBalanceIn(s: string): (r: Result<real, Error>)
      reads this, wallet.Keys
      requires Valid()
      ensures r == Ledger.GetBalanceIn(View(), s)
    {
      EntriesFind(order, wallet, currencies, currencyNumber, s);
      if s !in currencies then Err(NoSuchCurrency(s)) else Ok(wallet[currencies[s]])
    }

    /** `getTotal`: the loop over the TreeMap entries in order, dividing each
        balance by that currency's rate to `s`. */
    method GetTotal(s: string) returns (r: Result<real, Error>)
      requires Valid()
      ensures r == Ledger.GetTotal(View(), s)
    {
      EntriesFind(order, wallet, currencies, currencyNumber, s);
      if s !in currencies {
        return Err(NoSuchCurrency(s));
      }
      ghost var v := View();
      assert Ledger.GetTotal(v, s) == TotalOf(v, s);
      var sum := 0.0;
      var i := 1;
      while i <= currencyNumber
        invariant 1 <= i <= currencyNumber + 1
        invariant View() == v
        invariant TotalOf(v[..i - 1], s) == Ok(sum)
      {
        var c := Entry(i);
        var t := Accumulate(c, wallet[c], s, sum);
        TotalStep(v, i, s, sum);
        if t.Err? {
          assert t == Ledger.GetTotal(v, s);
          return t;
        }
        sum := t.value;
        i := i + 1;
      }
      assert v[..i - 1] == v;
      r := Ok(sum);
    }

    /** `showBalance`: one line per entry, in TreeMap order. */
    method ShowBalance() returns (out: seq<Printed>)
      requires Valid()
      ensures out == Ledger.ShowBalance(View())
    {
      ghost var v := View();
      out := [];
      var i := 1;
      while i <= currencyNumber
        invariant 1 <= i <= currencyNumber + 1
        invariant View() == v
        invariant |out| == i - 1
        invariant forall k :: 0 <= k < i - 1 ==> out[k] == Printed(v[k].balance, v[k].symbol)
      {
        var c := Entry(i);
        out := out + [Printed(wallet[c], c.GetCurrency())];
        i := i + 1;
      }
    }

    /** `showTotalIn(s)`. */
    method ShowTotalIn(s: string) returns (r: Result<seq<Printed>, Error>)
      requires Valid()
      ensures r == Ledger.ShowTotalIn(View(), s)
    {
      var total := GetTotal(s);
      if total.Err? {
        return Err(total.error);
      }
      return Ok([Printed(total.value, s)]);
    }

    /** `showTotalIn()`: in the first key's currency. */
    method ShowTotalInFirst() returns (r: Result<seq<Printed>, Error>)
      requires Valid()
      ensures r == Ledger.ShowTotalInFirst(View())
    {
      var check := CheckNonEmpty();
      if check.Err? {
        return Err(EmptyWallet);
      }
      var first := Entry(1);
      r := ShowTotalIn(first.GetCurrency());
    }

    /** `clearWallet`: both maps emptied and the counter reset. */
    method ClearWallet()
      requires Valid()
      modifies this
      ensures Valid() && wallet.Keys == {}
      ensures View() == Ledger.ClearWallet(old(View()))
    {
      wallet := map[];
      currencies := map[];
      currencyNumber := 0;
      order := [];
    }

    /** The wallet call of one parsed command of `start`, and what it prints. */
    method Apply(cmd: Commands.Command) returns (r: Result<seq<Printed>, Error>)
      requires Valid()
      modifies this, wallet.Keys
      ensures Valid() && fresh(wallet.Keys - old(wallet.Keys))
      ensures View() == Commands.Apply(old(View()), cmd).after
      ensures r == Commands.Apply(old(View()), cmd).result
    {
      if cmd.AddCurrencyCmd? {
        AddCurrency(cmd.currency);
        r := Ok([]);
      } else if cmd.DepositCmd? || cmd.WithdrawCmd? {
        r := ApplyChange(cmd);
      } else if cmd.SetRateCmd? || cmd.ConvertCmd? {
        r := ApplyRate(cmd);
      } else {
        r := ApplyShow(cmd);
      }
    }

    /** The `deposit` and `withdraw` branches of the `switch` of `start`. */
    method ApplyChange(cmd: Commands.Command) returns (r: Result<seq<Printed>, Error>)
      requires Valid() && (cmd.DepositCmd? || cmd.WithdrawCmd?)
      modifies this
      ensures Valid() && wallet.Keys == old(wallet.Keys)
      ensures View() == Commands.Apply(old(View()), cmd).after
      ensures r == Commands.Apply(old(View()), cmd).result
    {
      var done: Result<(), Error>;
      match cmd {
      case DepositCmd(a, None) =>
        done := DepositFirst(a);
      case DepositCmd(a, Some(c)) =>
        done := Deposit(a, c);
      case WithdrawCmd(a, None) =>
        done := WithdrawFirst(a);
      case WithdrawCmd(a, Some(c)) =>
        done := Withdraw(a, c);
      }
      r := if done.Err? then Err(done.error) else Ok([]);
    }

    /** The `set` and `convert` branches of the `switch` of `start`. */
    method ApplyRate(cmd: Commands.Command) returns (r: Result<seq<Printed>, Error>)
      requires Valid() && (cmd.SetRateCmd? || cmd.ConvertCmd?)
      modifies this, wallet.Keys
      ensures Valid() && fresh(wallet.Keys - old(wallet.Keys))
      ensures View() == Commands.Apply(old(View()), cmd).after
      ensures r == Commands.Apply(old(View()), cmd).result
    {
      var done: Result<(), Error>;
      if cmd.SetRateCmd? {
        if cmd.denominator == 0.0 {
          return Err(NonFiniteRate);
        }
        done := SetRate(cmd.c1, cmd.c2, cmd.numerator / cmd.denominator);
      } else {
        done := ConvertTo(cmd.amount, cmd.c1, cmd.c2);
      }
      r := if done.Err? then Err(done.error) else Ok([]);
    }

    /** The `show` branches of the `switch` of `start`: they print and change nothing. */
    method ApplyShow(cmd: Commands.Command) returns (r: Result<seq<Printed>, Error>)
      requires Valid() && (cmd.ShowBalanceCmd? || cmd.ShowTotalCmd? || cmd.ShowOther?)
      ensures Commands.Apply(View(), cmd) == Effect(View(), r)
    {
      match cmd {
      case ShowBalanceCmd =>
        var out := ShowBalance();
        r := Ok(out);
      case ShowTotalCmd(None) =>
        r := ShowTotalInFirst();
      case ShowTotalCmd(Some(c)) =>
        r := ShowTotalIn(c);
      case ShowOther(_) =>
        r := Ok([]);
      }
    }

    /** One iteration of the loop of `start`: split the line, pick the
        command, then call the wallet. */
    method ExecLine(line: string, parse: Commands.Parser) returns (r: Result<seq<Printed>, Error>)
      requires Valid()
      modifies this, wallet.Keys
      ensures Valid() && fresh(wallet.Keys - old(wallet.Keys))
      ensures View() == Commands.ExecLine(old(View()), line, parse).after
      ensures r == Commands.ExecLine(old(View()), line, parse).result
    {
      var words := JavaText.Split(line, ' ');
      var parsed := Commands.ParseWords(words, parse);
      if parsed.Err? {
        return Err(parsed.error);
      }
      r := Apply(parsed.value);
    }

    /** `start`: a wallet that already holds a currency returns at once;
        otherwise the lines run one by one until the input ends or a line
        throws, which ends the run with that exception. */
    method Start(lines: seq<string>, parse: Commands.Parser)
      returns (printed: seq<Printed>, failure: Option<Error>)
      requires Valid()
      modifies this, wallet.Keys
      ensures Valid() && fresh(wallet.Keys - old(wallet.Keys))
      ensures var run := Commands.Start(old(View()), lines, parse);
        View() == run.after && printed == run.printed && failure == run.failure
    {
      printed, failure := [], None;
      if !IsEmpty() {
        return;
      }
      ghost var run := Commands.RunLines(View(), lines, parse);
      var i := 0;
      while i < |lines|
        invariant Valid() && fresh(wallet.Keys - old(wallet.Keys))
        invariant 0 <= i <= |lines|
        invariant var rest := Commands.RunLines(View(), lines[i..], parse);
          run == Commands.Session(rest.after, printed + rest.printed, rest.failure)
      {
        ghost var v := View();
        var r := ExecLine(lines[i], parse);
        RunStep(run, v, lines, i, parse, printed, View());
        if r.Err? {
          return printed, Some(r.error);
        }
        printed := printed + r.value;
        i := i + 1;
      }
    }
  }

  /** `WalletTest.testConvert` on a wallet object: after it, 50 rubles and
      50/60 dollars are held. */
  method ConvertTest(rubleSymbol: string, dollarSymbol: string)
    returns (ruble: Result<real, Error>, dollar: Result<real, Error>)
    requires rubleSymbol != dollarSymbol
    ensures ruble == Ok(50.0) && dollar == Ok(50.0 / 60.0)
  {
    var w := new WalletImpl();
    w.AddCurrency(rubleSymbol);
    w.AddCurrency(dollarSymbol);
    var r := w.SetRate(rubleSymbol, dollarSymbol, 60.0);
    r := w.DepositFirst(100.0);
    r := w.ConvertTo(50.0, rubleSymbol, dollarSymbol);
    ConvertScenario(rubleSymbol, dollarSymbol);
    ruble := w.GetBalanceIn(rubleSymbol);
    dollar := w.GetBalanceIn(dollarSymbol);
  }
}
