/** The command interpreter of `WalletImpl.start`
    (src/Ignatov/wallet/WalletImpl.java) as functions on the ledger state.

    A line is split on single spaces; the first word picks the command; the
    word count is checked, then the numbers are parsed, and only then does the
    wallet operation run (Java evaluates the arguments of each call before the
    call). The first exception ends the whole run. Number parsing
    (`Double.parseDouble`) is a parameter: `None` where Java would throw. */
module Commands {
  import opened Wrappers
  import opened JavaText
  import opened Ledger

  /** `Double.parseDouble`, abstracted: None where Java throws NumberFormatException. */
  type Parser = string -> Option<real>

  /** What a well-formed line asks for. */
  datatype Command =
    | AddCurrencyCmd(currency: string)
    | DepositCmd(amount: real, into: Option<string>)
    | WithdrawCmd(amount: real, from: Option<string>)
    | SetRateCmd(c1: string, c2: string, numerator: real, denominator: real)
    | ConvertCmd(amount: real, c1: string, c2: string)
    | ShowBalanceCmd
    | ShowTotalCmd(target: Option<string>)
    | ShowOther(word: string)   // `show` followed by any other word: does nothing

  const ShowUsage: string := "Have a look at usages of 'show balance' and 'show total' commands"

  /** The first words that name a command. */
  const Keywords: set<string> := {"add", "deposit", "withdraw", "set", "convert", "show"}

  /** `toDouble`. */
  function ToDouble(token: string, parse: Parser): Result<real, Error> {
    match parse(token)
    case None => Err(NotADouble(token))
    case Some(x) => Ok(x)
  }

  /** The rate word `<double>:<double>`: it must split on ':' into exactly two
      pieces; the numerator is parsed before the denominator. */
  function ParseRate(token: string, parse: Parser): Result<(real, real), Error> {
    var parts := Split(token, ':');
    if |parts| != 2 then Err(IllegalRate)
    else
      match ToDouble(parts[0], parse)
      case Err(e) => Err(e)
      case Ok(n) =>
        match ToDouble(parts[1], parse)
        case Err(e) => Err(e)
        case Ok(d) => Ok((n, d))
  }

  /** The `switch` of `start` on the words of one line, up to the wallet call.
      The second word of `add`/`set`, the fourth of `convert` and the third of
      `show total` are not looked at. */
  function ParseWords(words: seq<string>, parse: Parser): Result<Command, Error> {
    if |words| == 0 then Err(IndexOutOfBounds)
    else
      var n := |words|;
      var w := words[0];
      if w == "add" then
        if n == 3 then Ok(AddCurrencyCmd(words[2]))
        else Err(IllegalCommand("add", "add currency <currency>"))
      else if w == "deposit" || w == "withdraw" then
        if n == 2 || n == 3 then
          match ToDouble(words[1], parse)
          case Err(e) => Err(e)
          case Ok(a) =>
            var target := if n == 3 then Some(words[2]) else None;
            Ok(if w == "deposit" then DepositCmd(a, target) else WithdrawCmd(a, target))
        else if w == "deposit" then Err(IllegalCommand("deposit", "deposit <amount> [currency]"))
        else Err(IllegalCommand("withdraw", "withdraw <amount> [currency]"))
      else if w == "set" then
        if n == 5 then
          match ParseRate(words[4], parse)
          case Err(e) => Err(e)
          case Ok(r) => Ok(SetRateCmd(words[2], words[3], r.0, r.1))
        else Err(IllegalCommand("set", "set rate <currency 1> <currency 2> <rate>"))
      else if w == "convert" then
        if n == 5 then
          match ToDouble(words[1], parse)
          case Err(e) => Err(e)
          case Ok(a) => Ok(ConvertCmd(a, words[2], words[4]))
        else Err(IllegalCommand("convert", "convert <amount> <currency 1> to <currency 2>"))
      else if w == "show" then
        if n == 1 then Err(IllegalCommand("show", ShowUsage))
        else if words[1] == "balance" then
          if n == 2 then Ok(ShowBalanceCmd) else Err(IllegalCommand("show balance", "show balance"))
        else if words[1] == "total" then
          if n == 2 then Ok(ShowTotalCmd(None))
          else if n == 4 then Ok(ShowTotalCmd(Some(words[3])))
          else Err(IllegalCommand("show total", "show total in [currency]"))
        else Ok(ShowOther(words[1]))
      else Err(UnknownCommand(w))
  }

  /** A wallet call that prints nothing. */
  function Silent(e: Effect<()>): Effect<seq<Printed>> {
    Effect(e.after, match e.result case Ok(_) => Ok([]) case Err(x) => Err(x))
  }

  /** The wallet call a command makes, and what it prints. The rate of `set` is
      numerator / denominator; a zero denominator would give an infinite or NaN
      double and stops with NonFiniteRate. */
  function Apply(h: Holdings, cmd: Command): Effect<seq<Printed>> {
    match cmd
    case AddCurrencyCmd(c) => Effect(AddCurrency(h, c), Ok([]))
    case DepositCmd(a, None) => Silent(DepositFirst(h, a))
    case DepositCmd(a, Some(c)) => Silent(Deposit(h, a, c))
    case WithdrawCmd(a, None) => Silent(WithdrawFirst(h, a))
    case WithdrawCmd(a, Some(c)) => Silent(Withdraw(h, a, c))
    case SetRateCmd(c1, c2, n, d) =>
      if d == 0.0 then Effect(h, Err(NonFiniteRate)) else Silent(SetRate(h, c1, c2, n / d))
    case ConvertCmd(a, c1, c2) => Silent(ConvertTo(h, a, c1, c2))
    case ShowBalanceCmd => Effect(h, Ok(ShowBalance(h)))
    case ShowTotalCmd(None) => Effect(h, ShowTotalInFirst(h))
    case ShowTotalCmd(Some(c)) => Effect(h, ShowTotalIn(h, c))
    case ShowOther(_) => Effect(h, Ok([]))
  }

  /** One iteration of the `while` loop of `start`. */
  function ExecLine(h: Holdings, line: string, parse: Parser): Effect<seq<Printed>> {
    match ParseWords(Split(line, ' '), parse)
    case Err(e) => Effect(h, Err(e))
    case Ok(cmd) => Apply(h, cmd)
  }

  /** The outcome of a run: the final state, everything printed, and the
      exception that ended it, if any. */
  datatype Session = Session(after: Holdings, printed: seq<Printed>, failure: Option<Error>)

  /** The loop of `start` over the remaining input lines. */
  function RunLines(h: Holdings, lines: seq<string>, parse: Parser): Session
    decreases |lines|
  {
    if lines == [] then Session(h, [], None)
    else
      var e := ExecLine(h, lines[0], parse);
      match e.result
      case Err(x) => Session(e.after, [], Some(x))
      case Ok(out) =>
        var rest := RunLines(e.after, lines[1..], parse);
        Session(rest.after, out + rest.printed, rest.failure)
  }

  /** `start`: a wallet that already holds a currency ignores its input. */
  function Start(h: Holdings, lines: seq<string>, parse: Parser): Session {
    if !IsEmpty(h) then Session(h, [], None) else RunLines(h, lines, parse)
  }

  // ---------------------------------------------------------------------------
  // Properties

  /** What every command promises about its effect `e` on `h`: the wallet
      invariant holds after it; a failed command changes the wallet only if it
      is `set` or `convert` (whose first write stays); the `show` commands never
      change it; and only the `show` commands print. */
  predicate Behaves(h: Holdings, cmd: Command, e: Effect<seq<Printed>>) {
    && WellFormed(e.after)
    && (e.result.Err? && !cmd.SetRateCmd? && !cmd.ConvertCmd? ==> e.after == h)
    && (cmd.ShowBalanceCmd? || cmd.ShowTotalCmd? || cmd.ShowOther? ==> e.after == h)
    && (!cmd.ShowBalanceCmd? && !cmd.ShowTotalCmd? && e.result.Ok? ==> e.result.value == [])
  }

  /** `deposit` and `withdraw`, with or without a currency word. */
  lemma ApplyChangeSpec(h: Holdings, cmd: Command)
    requires WellFormed(h) && (cmd.DepositCmd? || cmd.WithdrawCmd?)
    ensures Behaves(h, cmd, Apply(h, cmd))
  {
    var withdraw := cmd.WithdrawCmd?;
    var a := cmd.amount;
    var t := if withdraw then cmd.from else cmd.into;
    if t.Some? {
      ChangeAmountFrame(h, a, t.value, withdraw);
    } else if !IsEmpty(h) {
      ChangeAmountFrame(h, a, h[0].symbol, withdraw);
    }
  }

  /** `set rate` and `convert`. */
  lemma ApplyRateSpec(h: Holdings, cmd: Command)
    requires WellFormed(h) && (cmd.SetRateCmd? || cmd.ConvertCmd?)
    ensures Behaves(h, cmd, Apply(h, cmd))
  {
    if cmd.SetRateCmd? {
      if cmd.denominator != 0.0 { SetRateSpec(h, cmd.c1, cmd.c2, cmd.numerator / cmd.denominator); }
    } else {
      ConvertToFailures(h, cmd.amount, cmd.c1, cmd.c2);
    }
  }

  /** Every command behaves as `Behaves` says. */
  lemma ApplySpec(h: Holdings, cmd: Command)
    requires WellFormed(h)
    ensures Behaves(h, cmd, Apply(h, cmd))
  {
    if cmd.AddCurrencyCmd? {
      AddCurrencySpec(h, cmd.currency);
    } else if cmd.DepositCmd? || cmd.WithdrawCmd? {
      ApplyChangeSpec(h, cmd);
    } else if cmd.SetRateCmd? || cmd.ConvertCmd? {
      ApplyRateSpec(h, cmd);
    }
  }

  /** `ExecLine` keeps the invariant; a line that fails before its wallet call,
      or whose command is not `set` or `convert`, leaves the wallet as it was. */
  lemma ExecLineSpec(h: Holdings, line: string, parse: Parser)
    requires WellFormed(h)
    ensures var e := ExecLine(h, line, parse);
      && WellFormed(e.after)
      && (ParseWords(Split(line, ' '), parse).Err? ==>
            e == Effect(h, Err(ParseWords(Split(line, ' '), parse).error)))
      && (var ws := Split(line, ' ');
          e.result.Err? && (ws == [] || (ws[0] != "set" && ws[0] != "convert")) ==> e.after == h)
  {
    var ws := Split(line, ' ');
    var p := ParseWords(ws, parse);
    if p.Ok? {
      ApplySpec(h, p.value);
      RateCommandWords(ws, parse);
    }
  }

  /** Only a line starting with `set` parses to a `set` command, and only one
      starting with `convert` to a `convert` command. */
  lemma RateCommandWords(words: seq<string>, parse: Parser)
    requires ParseWords(words, parse).Ok?
    ensures ParseWords(words, parse).value.SetRateCmd? ==> words[0] == "set"
    ensures ParseWords(words, parse).value.ConvertCmd? ==> words[0] == "convert"
  {
  }

  /** The word counts each command accepts (for `show`, depending on its second word). */
  predicate WrongWordCount(words: seq<string>)
    requires |words| >= 1
  {
    var n := |words|;
    || (words[0] == "add" && n != 3)
    || (words[0] in {"deposit", "withdraw"} && n !in {2, 3})
    || (words[0] in {"set", "convert"} && n != 5)
    || (words[0] == "show" &&
         (n == 1 || (words[1] == "balance" && n != 2) || (words[1] == "total" && n !in {2, 4})))
  }

  /** A usage error is raised exactly for a wrong word count, and names the
      command (`show balance`/`show total` for those two). */
  lemma UsageErrors(words: seq<string>, parse: Parser)
    requires |words| >= 1
    ensures var r := ParseWords(words, parse);
      (r.Err? && r.error.IllegalCommand?) <==> words[0] in Keywords && WrongWordCount(words)
    ensures var r := ParseWords(words, parse);
      r.Err? && r.error.IllegalCommand? ==>
        r.error.command == if words[0] == "show" && |words| > 1 then "show " + words[1] else words[0]
  {
  }

  /** A first word that is not a command name is reported as unknown, and
      nothing else is. */
  lemma UnknownCommands(words: seq<string>, parse: Parser)
    requires |words| >= 1
    ensures var r := ParseWords(words, parse);
      (r.Err? && r.error.UnknownCommand?) <==> words[0] !in Keywords
    ensures words[0] !in Keywords ==> ParseWords(words, parse) == Err(UnknownCommand(words[0]))
  {
  }

  /** The empty line is an unknown command (`"".split(" ")` is `[""]`); a line
      of spaces only splits into no words at all, so reading the first word fails. */
  lemma EmptyAndBlankLines(h: Holdings, line: string, parse: Parser)
    ensures ExecLine(h, "", parse) == Effect(h, Err(UnknownCommand("")))
    ensures line != "" && AllSep(line, ' ') ==> ExecLine(h, line, parse) == Effect(h, Err(IndexOutOfBounds))
  {
    assert Split("", ' ') == [""];
    if line != "" && AllSep(line, ' ') {
      OnlySeparatorsSplitToNothing(line, ' ');
    }
  }

  /** `set rate c1 c2 <n>:<d>`: the rate word must split on ':' into exactly two
      numbers, and the rate set is their quotient. */
  lemma RateWord(h: Holdings, line: string, parse: Parser)
    requires var ws := Split(line, ' '); |ws| == 5 && ws[0] == "set"
    ensures var ws := Split(line, ' ');
      var parts := Split(ws[4], ':');
      && (|parts| != 2 ==> ExecLine(h, line, parse) == Effect(h, Err(IllegalRate)))
      && (|parts| == 2 && parse(parts[0]).None? ==>
            ExecLine(h, line, parse) == Effect(h, Err(NotADouble(parts[0]))))
      && (|parts| == 2 && parse(parts[0]).Some? && parse(parts[1]).None? ==>
            ExecLine(h, line, parse) == Effect(h, Err(NotADouble(parts[1]))))
      && (|parts| == 2 && parse(parts[0]).Some? && parse(parts[1]).Some? && parse(parts[1]).value != 0.0 ==>
            ExecLine(h, line, parse) ==
              Silent(SetRate(h, ws[2], ws[3], parse(parts[0]).value / parse(parts[1]).value)))
  {
    var ws := Split(line, ' ');
    var rate := ParseRate(ws[4], parse);
    assert ParseWords(ws, parse) ==
      match rate
      case Err(e) => Err(e)
      case Ok(r) => Ok(SetRateCmd(ws[2], ws[3], r.0, r.1));
  }

  /** `show` followed by anything but `balance` or `total` does nothing. */
  lemma ShowOtherIsNoOp(h: Holdings, line: string, parse: Parser)
    requires var ws := Split(line, ' ');
      |ws| >= 2 && ws[0] == "show" && ws[1] != "balance" && ws[1] != "total"
    ensures ExecLine(h, line, parse) == Effect(h, Ok([]))
  {
  }

  /** The step of `RunLinesAppend` on sessions: prefixing the output `out` of
      a successful first line commutes with appending the run of `b`. */
  lemma SessionsCompose(out: seq<Printed>, s: Session, u: Session, t: Session)
    requires u == if s.failure.Some? then s else Session(t.after, s.printed + t.printed, t.failure)
    ensures var x := Session(s.after, out + s.printed, s.failure);
      Session(u.after, out + u.printed, u.failure) ==
        if x.failure.Some? then x else Session(t.after, x.printed + t.printed, t.failure)
  {
    assert out + (s.printed + t.printed) == (out + s.printed) + t.printed;
  }

  /** Running `a + b` is running `a`, then, unless `a` failed, running `b` from
      where `a` left the wallet; lines after a failure are never executed. */
  lemma {:induction false} RunLinesAppend(h: Holdings, a: seq<string>, b: seq<string>, parse: Parser)
    ensures var s := RunLines(h, a, parse);
      RunLines(h, a + b, parse) ==
        if s.failure.Some? then s
        else
          var t := RunLines(s.after, b, parse);
          Session(t.after, s.printed + t.printed, t.failure)
    decreases |a|
  {
    if a == [] {
      assert a + b == b;
    } else {
      assert (a + b)[0] == a[0] && (a + b)[1..] == a[1..] + b;
      var e := ExecLine(h, a[0], parse);
      if e.result.Ok? {
        RunLinesAppend(e.after, a[1..], b, parse);
        var s := RunLines(e.after, a[1..], parse);
        SessionsCompose(e.result.value, s, RunLines(e.after, a[1..] + b, parse), RunLines(s.after, b, parse));
      }
    }
  }

  /** A run keeps the wallet invariant from beginning to end. */
  lemma {:induction false} RunLinesKeepsInvariant(h: Holdings, lines: seq<string>, parse: Parser)
    requires WellFormed(h)
    ensures WellFormed(RunLines(h, lines, parse).after)
    decreases |lines|
  {
    if lines != [] {
      ExecLineSpec(h, lines[0], parse);
      RunLinesKeepsInvariant(ExecLine(h, lines[0], parse).after, lines[1..], parse);
    }
  }

  // ---------------------------------------------------------------------------
  // Writing commands back out

  /** A currency word: non-empty and free of spaces. */
  predicate IsWord(s: string) {
    s != "" && ' ' !in s
  }

  /** A printed number: a word that also contains no ':'. */
  predicate IsNumeral(s: string) {
    IsWord(s) && ':' !in s
  }

  /** The canonical line words of a command, numbers printed by `show`. */
  function Render(cmd: Command, show: real -> string): seq<string> {
    match cmd
    case AddCurrencyCmd(c) => ["add", "currency", c]
    case DepositCmd(a, None) => ["deposit", show(a)]
    case DepositCmd(a, Some(c)) => ["deposit", show(a), c]
    case WithdrawCmd(a, None) => ["withdraw", show(a)]
    case WithdrawCmd(a, Some(c)) => ["withdraw", show(a), c]
    case SetRateCmd(c1, c2, n, d) => ["set", "rate", c1, c2, show(n) + ":" + show(d)]
    case ConvertCmd(a, c1, c2) => ["convert", show(a), c1, "to", c2]
    case ShowBalanceCmd => ["show", "balance"]
    case ShowTotalCmd(None) => ["show", "total"]
    case ShowTotalCmd(Some(c)) => ["show", "total", "in", c]
    case ShowOther(w) => ["show", w]
  }

  /** The currencies and numbers of `cmd` can be written as words. */
  predicate Renderable(cmd: Command, show: real -> string) {
    match cmd
    case AddCurrencyCmd(c) => IsWord(c)
    case DepositCmd(a, t) => IsNumeral(show(a)) && (t.Some? ==> IsWord(t.value))
    case WithdrawCmd(a, t) => IsNumeral(show(a)) && (t.Some? ==> IsWord(t.value))
    case SetRateCmd(c1, c2, n, d) => IsWord(c1) && IsWord(c2) && IsNumeral(show(n)) && IsNumeral(show(d))
    case ConvertCmd(a, c1, c2) => IsNumeral(show(a)) && IsWord(c1) && IsWord(c2)
    case ShowBalanceCmd => true
    case ShowTotalCmd(t) => t.Some? ==> IsWord(t.value)
    case ShowOther(w) => IsWord(w) && w != "balance" && w != "total"
  }

  /** The numbers a command carries, which the renderer prints. */
  function Numbers(cmd: Command): set<real> {
    match cmd
    case DepositCmd(a, _) => {a}
    case WithdrawCmd(a, _) => {a}
    case SetRateCmd(_, _, n, d) => {n, d}
    case ConvertCmd(a, _, _) => {a}
    case _ => {}
  }

  lemma RenderIsWords(cmd: Command, show: real -> string)
    requires Renderable(cmd, show)
    ensures |Render(cmd, show)| >= 1
    ensures forall k :: 0 <= k < |Render(cmd, show)| ==> IsWord(Render(cmd, show)[k])
  {
    if cmd.SetRateCmd? {
      var w := show(cmd.numerator) + ":" + show(cmd.denominator);
      assert ' ' !in w by {
        forall i | 0 <= i < |w| ensures w[i] != ' ' {
          if i < |show(cmd.numerator)| {
            assert w[i] == show(cmd.numerator)[i];
          } else if i > |show(cmd.numerator)| {
            assert w[i] == show(cmd.denominator)[i - |show(cmd.numerator)| - 1];
          }
        }
      }
    }
  }

  /** Parsing undoes rendering, given a number printer whose output for the
      command's own numbers the parser reads back. */
  lemma ParseRender(cmd: Command, parse: Parser, show: real -> string)
    requires Renderable(cmd, show)
    requires forall x :: x in Numbers(cmd) ==> parse(show(x)) == Some(x)
    ensures ParseWords(Render(cmd, show), parse) == Ok(cmd)
  {
    if cmd.DepositCmd? || cmd.WithdrawCmd? || cmd.ConvertCmd? {
      assert cmd.amount in Numbers(cmd);
    }
    if cmd.SetRateCmd? {
      assert cmd.numerator in Numbers(cmd) && cmd.denominator in Numbers(cmd);
      var n, d := show(cmd.numerator), show(cmd.denominator);
      assert Join([n, d], ':') == n + ":" + d;
      SplitJoin([n, d], ':');
    }
  }

  /** A rendered command, written out as one line, runs that command. */
  lemma ExecRenderedLine(h: Holdings, cmd: Command, parse: Parser, show: real -> string)
    requires Renderable(cmd, show)
    requires forall x :: x in Numbers(cmd) ==> parse(show(x)) == Some(x)
    ensures ExecLine(h, Join(Render(cmd, show), ' '), parse) == Apply(h, cmd)
  {
    RenderIsWords(cmd, show);
    SplitJoin(Render(cmd, show), ' ');
    ParseRender(cmd, parse, show);
  }
}
