/** `parseMainArgs` as a function of the registry and the argument vector:
    register the implicit help command, normalize and scan the tokens after
    the program name, resolve the command, and fall back to the default
    action when none was resolved. */
module MainParse {
  import opened Outcomes
  import opened Text
  import opened Declarations
  import opened Tokenizer
  import opened OptionScanner
  import opened ScanTrace
  import opened CommandResolver

  /** The help command registered when the program declares none. */
  const HelpCommand := Command("help", "help [cmd]", "display help for [cmd]", "", [Arg(false, "cmd", "")], [], Help)

  lemma HelpSlots()
    ensures WellFormedSyntax(["help", "[cmd]"])
    ensures Slots(["help", "[cmd]"]) == [Arg(false, "cmd", "")]
  {
    var words := ["help", "[cmd]"];
    assert words[1..] == ["[cmd]"] && words[1..][1..] == [];
    assert SlotOf("[cmd]") == Arg(false, "cmd", "");
  }

  /** `HelpCommand` is what `NewCommand("help [cmd]", ...)` declares, with the
      library's help action attached. */
  lemma HelpCommandDeclared()
    ensures var words := Split("help [cmd]", WordSeparators);
      && WellFormedSyntax(words)
      && HelpCommand == Command(words[0], "help [cmd]", "display help for [cmd]", "", Slots(words), [], NoAction).(action := Help)
  {
    assert "help [cmd]" == "help" + " " + "[cmd]";
    TwoWordSyntax("help", "[cmd]");
    HelpSlots();
  }

  /** The command table with the implicit help command. */
  function WithHelp(commands: map<string, Command>): map<string, Command>
  {
    if "help" in commands then commands else commands["help" := HelpCommand]
  }

  /** Help is added only when absent: a declared help command is kept. */
  lemma {:induction false} WithHelpAddsOnlyIfAbsent(commands: map<string, Command>)
    ensures "help" in WithHelp(commands)
    ensures "help" in commands ==> WithHelp(commands) == commands
    ensures "help" !in commands ==> WithHelp(commands)["help"] == HelpCommand
    ensures forall k :: k in commands ==> k in WithHelp(commands) && WithHelp(commands)[k] == commands[k]
    ensures WithHelp(commands).Keys == commands.Keys + {"help"}
    ensures CommandsValid(commands) ==> CommandsValid(WithHelp(commands))
  {
  }

  /** The fallback when no command was resolved: the action of "*" if that
      command exists, otherwise that of "help"; a missing action runs nothing. */
  function Fallback(commands: map<string, Command>, unknown: seq<string>): seq<Invocation>
  {
    if "*" in commands then
      (if commands["*"].action == NoAction then [] else [Invocation("*", unknown)])
    else if "help" in commands then
      (if commands["help"].action == NoAction then [] else [Invocation("help", unknown)])
    else []
  }

  /** What `parseMainArgs` leaves behind. */
  datatype MainOutcome = MainOutcome(
    exe: string,
    args: seq<string>,
    unknown: seq<string>,
    options: map<string, OptionDecl>,
    commands: map<string, Command>,
    selected: Option<string>,
    invoked: seq<Invocation>)

  /** `parseMainArgs(argv)`; `base` stands for `path.Base`. */
  function ParseMain(commands: map<string, Command>, options: map<string, OptionDecl>, argv: seq<string>,
                     base: string -> string, orders: nat -> seq<string>): Result<MainOutcome>
  {
    var table := WithHelp(commands);
    if |argv| == 0 then Err(Panic(NoProgramName))
    else
      match Normalize(argv[1..])
      case Err(e) => Err(e)
      case Ok(tokens) =>
        match ScanOptions(options, tokens, orders)
        case Err(e) => Err(e)
        case Ok(s) =>
          match ResolveArgs(table, s.args, s.unknown)
          case Err(e) => Err(e)
          case Ok(res) =>
            Ok(MainOutcome(base(argv[0]), s.args, s.unknown, s.options, res.commands, res.selected,
              res.invoked + (if res.selected.None? then Fallback(res.commands, s.unknown) else [])))
  }

  // The stages of `ParseMain`, one lemma per way it ends.

  lemma {:induction false} MainStopsAtNormalize(commands: map<string, Command>, options: map<string, OptionDecl>, argv: seq<string>,
                             base: string -> string, orders: nat -> seq<string>)
    requires |argv| > 0 && Normalize(argv[1..]).Err?
    ensures ParseMain(commands, options, argv, base, orders) == Err(Normalize(argv[1..]).error)
  {
  }

  lemma {:induction false} MainStopsAtScan(commands: map<string, Command>, options: map<string, OptionDecl>, argv: seq<string>,
                        base: string -> string, orders: nat -> seq<string>, tokens: seq<string>)
    requires |argv| > 0 && Normalize(argv[1..]) == Ok(tokens) && ScanOptions(options, tokens, orders).Err?
    ensures ParseMain(commands, options, argv, base, orders) == Err(ScanOptions(options, tokens, orders).error)
  {
  }

  lemma {:induction false} MainStopsAtResolve(commands: map<string, Command>, options: map<string, OptionDecl>, argv: seq<string>,
                           base: string -> string, orders: nat -> seq<string>, tokens: seq<string>, s: Scan)
    requires |argv| > 0 && Normalize(argv[1..]) == Ok(tokens) && ScanOptions(options, tokens, orders) == Ok(s)
    requires ResolveArgs(WithHelp(commands), s.args, s.unknown).Err?
    ensures ParseMain(commands, options, argv, base, orders) == Err(ResolveArgs(WithHelp(commands), s.args, s.unknown).error)
  {
  }

  lemma {:induction false} MainCompletes(commands: map<string, Command>, options: map<string, OptionDecl>, argv: seq<string>,
                      base: string -> string, orders: nat -> seq<string>, tokens: seq<string>, s: Scan, res: Resolution)
    requires |argv| > 0 && Normalize(argv[1..]) == Ok(tokens) && ScanOptions(options, tokens, orders) == Ok(s)
    requires ResolveArgs(WithHelp(commands), s.args, s.unknown) == Ok(res)
    ensures ParseMain(commands, options, argv, base, orders)
      == Ok(MainOutcome(base(argv[0]), s.args, s.unknown, s.options, res.commands, res.selected,
              res.invoked + (if res.selected.None? then Fallback(res.commands, s.unknown) else [])))
  {
  }

  /** The program name is present and the tokens after it normalize and
      scan without error. */
  predicate Scanned(options: map<string, OptionDecl>, argv: seq<string>, orders: nat -> seq<string>)
  {
    |argv| > 0 && Normalize(argv[1..]).Ok? && ScanOptions(options, Normalize(argv[1..]).value, orders).Ok?
  }

  function ScanOf(options: map<string, OptionDecl>, argv: seq<string>, orders: nat -> seq<string>): Scan
    requires Scanned(options, argv, orders)
  {
    ScanOptions(options, Normalize(argv[1..]).value, orders).value
  }

  /** Every way `parseMainArgs` fails, stage by stage: no program name, a
      token too short to normalize, a failure of the option scan that the
      tokens justify, or, once scanned, help, an unknown option or a missing
      argument from `parseArgs`. */
  lemma {:induction false} MainErrors(commands: map<string, Command>, options: map<string, OptionDecl>, argv: seq<string>,
                   base: string -> string, orders: nat -> seq<string>)
    requires ParseMain(commands, options, argv, base, orders).Err?
    ensures var e := ParseMain(commands, options, argv, base, orders).error;
      || (|argv| == 0 && e == Panic(NoProgramName))
      || (|argv| > 0 && Normalize(argv[1..]).Err? && e == Panic(ShortToken))
      || (|argv| > 0 && Normalize(argv[1..]).Ok? && !Scanned(options, argv, orders)
            && FailureJustified(options, Normalize(argv[1..]).value, orders, e))
      || (Scanned(options, argv, orders) && (e == HelpRequested || e.UnknownOption? || e.MissingArgument?))
  {
    if |argv| > 0 {
      NormalizeShape(argv[1..]);
      if Normalize(argv[1..]).Ok? {
        var tokens := Normalize(argv[1..]).value;
        if ScanOptions(options, tokens, orders).Err? {
          ScanOptionsFails(options, tokens, orders);
        } else {
          var s := ScanOptions(options, tokens, orders).value;
          var table := WithHelp(commands);
          if SelectCommand(table, s.args).Some? {
            var k := SelectCommand(table, s.args).value;
            BindCorrect(table[k].args, s.args[1..]);
          }
        }
      }
    }
  }

  /** Help is reported exactly when the tokens scan, no command is
      selected, and "-h" or "--help" is among the unknown tokens. */
  lemma {:induction false} MainHelp(commands: map<string, Command>, options: map<string, OptionDecl>, argv: seq<string>,
                 base: string -> string, orders: nat -> seq<string>)
    ensures ParseMain(commands, options, argv, base, orders) == Err(HelpRequested) <==>
      && Scanned(options, argv, orders)
      && SelectCommand(WithHelp(commands), ScanOf(options, argv, orders).args).None?
      && HelpWanted(ScanOf(options, argv, orders).unknown)
  {
    if ParseMain(commands, options, argv, base, orders) == Err(HelpRequested) {
      MainErrors(commands, options, argv, base, orders);
      var s := ScanOf(options, argv, orders);
      var table := WithHelp(commands);
      if SelectCommand(table, s.args).Some? {
        var k := SelectCommand(table, s.args).value;
        BindCorrect(table[k].args, s.args[1..]);
      }
    }
  }

  /** An unknown option is reported exactly when the tokens scan, there is
      no positional token, there is no help flag, and the option is the
      first unknown token. */
  lemma {:induction false} MainUnknownOption(commands: map<string, Command>, options: map<string, OptionDecl>, argv: seq<string>,
                          base: string -> string, orders: nat -> seq<string>, flag: string)
    ensures ParseMain(commands, options, argv, base, orders) == Err(UnknownOption(flag)) <==>
      && Scanned(options, argv, orders)
      && ScanOf(options, argv, orders).args == []
      && !HelpWanted(ScanOf(options, argv, orders).unknown)
      && |ScanOf(options, argv, orders).unknown| > 0
      && ScanOf(options, argv, orders).unknown[0] == flag
  {
    if ParseMain(commands, options, argv, base, orders) == Err(UnknownOption(flag)) {
      MainErrors(commands, options, argv, base, orders);
      var s := ScanOf(options, argv, orders);
      var table := WithHelp(commands);
      if SelectCommand(table, s.args).Some? {
        var k := SelectCommand(table, s.args).value;
        BindCorrect(table[k].args, s.args[1..]);
      }
    }
  }

  /** A missing argument is reported exactly when the tokens scan, a
      command is selected, and the named slot is its first required slot
      left without a token. */
  lemma {:induction false} MainMissingArgument(commands: map<string, Command>, options: map<string, OptionDecl>, argv: seq<string>,
                            base: string -> string, orders: nat -> seq<string>, name: string)
    ensures ParseMain(commands, options, argv, base, orders) == Err(MissingArgument(name)) <==>
      && Scanned(options, argv, orders)
      && var s := ScanOf(options, argv, orders);
         var k := SelectCommand(WithHelp(commands), s.args);
         && k.Some?
         && exists m: nat :: FirstMissing(WithHelp(commands)[k.value].args, s.args[1..], 0, m)
              && WithHelp(commands)[k.value].args[m].name == name
  {
    if ParseMain(commands, options, argv, base, orders).Err? {
      MainErrors(commands, options, argv, base, orders);
    }
    if Scanned(options, argv, orders) {
      var s := ScanOf(options, argv, orders);
      var table := WithHelp(commands);
      if SelectCommand(table, s.args).Some? {
        var k := SelectCommand(table, s.args).value;
        var slots, tokens := table[k].args, s.args[1..];
        BindCorrect(slots, tokens);
      }
    }
  }

  /** A required-value option that the scan of the normalized tokens reaches
      ends the run when the token after it is missing, empty or option-like,
      with the scan's own failure. */
  lemma {:induction false} MainValueMissing(commands: map<string, Command>, options: map<string, OptionDecl>, argv: seq<string>,
                         base: string -> string, orders: nat -> seq<string>, tokens: seq<string>, roles: seq<Role>, k: string)
    requires |argv| > 0 && Normalize(argv[1..]) == Ok(tokens)
    requires Reached(options, tokens, orders, roles) && |roles| < |tokens|
    requires k in options && RequiredAt(options, tokens, orders, |roles|, k)
    ensures var j := |roles|; j + 1 == |tokens| ==> ParseMain(commands, options, argv, base, orders) == Err(Panic(ValuePastEnd))
    ensures var j := |roles|; j + 1 < |tokens| && tokens[j + 1] == "" ==>
      ParseMain(commands, options, argv, base, orders) == Err(Panic(EmptyValue))
    ensures var j := |roles|; j + 1 < |tokens| && LooksLikeOption(tokens[j + 1]) ==>
      ParseMain(commands, options, argv, base, orders) == Err(OptionMissingArgument(options[k].flags, tokens[j + 1]))
  {
    ScanOptionsMissingValue(options, tokens, orders, roles, k);
    if ScanOptions(options, tokens, orders).Err? {
      MainStopsAtScan(commands, options, argv, base, orders, tokens);
    }
  }

  /** An unknown option that the scan reaches, followed by an empty token,
      ends the run with the lookahead fault. */
  lemma {:induction false} MainEmptyLookahead(commands: map<string, Command>, options: map<string, OptionDecl>, argv: seq<string>,
                           base: string -> string, orders: nat -> seq<string>, tokens: seq<string>, roles: seq<Role>)
    requires |argv| > 0 && Normalize(argv[1..]) == Ok(tokens)
    requires Reached(options, tokens, orders, roles) && |roles| + 1 < |tokens|
    requires UnmatchedAt(options, tokens, orders, |roles|) && tokens[|roles| + 1] == ""
    ensures ParseMain(commands, options, argv, base, orders) == Err(Panic(EmptyLookahead))
  {
    ScanOptionsEmptyLookahead(options, tokens, orders, roles);
    MainStopsAtScan(commands, options, argv, base, orders, tokens);
  }

  /** Without a resolved command the table is just the registry plus help,
      and exactly the fallback runs: "*" in preference to help. */
  lemma {:induction false} MainFallback(commands: map<string, Command>, options: map<string, OptionDecl>, argv: seq<string>,
                     base: string -> string, orders: nat -> seq<string>)
    requires ParseMain(commands, options, argv, base, orders).Ok?
    requires ParseMain(commands, options, argv, base, orders).value.selected.None?
    ensures var out := ParseMain(commands, options, argv, base, orders).value;
      && out.commands == WithHelp(commands)
      && |out.invoked| <= 1
      && (forall n :: 0 <= n < |out.invoked| ==> out.invoked[n] == Invocation(if "*" in commands then "*" else "help", out.unknown))
      && ("*" in commands ==> (|out.invoked| == 1 <==> commands["*"].action != NoAction))
      && ("*" !in commands ==> (|out.invoked| == 1 <==> WithHelp(commands)["help"].action != NoAction))
      && ("*" !in commands && "help" !in commands ==> out.invoked == [Invocation("help", out.unknown)])
  {
    var table := WithHelp(commands);
    var tokens := Normalize(argv[1..]).value;
    var s := ScanOptions(options, tokens, orders).value;
    if SelectCommand(table, s.args).Some? {
      ResolveSelection(table, s.args, s.unknown);
    } else {
      ResolveUnselected(table, s.args, s.unknown);
    }
  }

  /** A resolved command keeps the rest of the table as registered (with
      help added when absent). */
  lemma {:induction false} MainSelected(commands: map<string, Command>, options: map<string, OptionDecl>, argv: seq<string>,
                     base: string -> string, orders: nat -> seq<string>)
    requires ParseMain(commands, options, argv, base, orders).Ok?
    requires ParseMain(commands, options, argv, base, orders).value.selected.Some?
    ensures var out := ParseMain(commands, options, argv, base, orders).value;
      var k := out.selected.value;
      && |out.args| > 0 && k in WithHelp(commands)
      && (k == out.args[0] || (out.args[0] !in WithHelp(commands) && k == "*"))
      && out.commands.Keys == WithHelp(commands).Keys
      && (forall c :: c in WithHelp(commands) && c != k ==> out.commands[c] == WithHelp(commands)[c])
      && out.commands[k] == WithHelp(commands)[k].(args := Filled(WithHelp(commands)[k].args, out.args[1..]))
      && |out.invoked| == (if WithHelp(commands)[k].action == NoAction then 0 else 1)
  {
    var table := WithHelp(commands);
    var tokens := Normalize(argv[1..]).value;
    var s := ScanOptions(options, tokens, orders).value;
    ResolveSelection(table, s.args, s.unknown);
    var k := SelectCommand(table, s.args).value;
    ResolveBinding(table, s.args, s.unknown, k);
  }

  /** The whole pipeline keeps the command table well formed, and no "--"
      reaches the positional or unknown tokens. */
  lemma {:induction false} MainKeepsValid(commands: map<string, Command>, options: map<string, OptionDecl>, argv: seq<string>,
                       base: string -> string, orders: nat -> seq<string>)
    requires CommandsValid(commands)
    requires ParseMain(commands, options, argv, base, orders).Ok?
    ensures var out := ParseMain(commands, options, argv, base, orders).value;
      && CommandsValid(out.commands)
      && "--" !in out.args && "--" !in out.unknown
      && out.options.Keys == options.Keys
  {
    var table := WithHelp(commands);
    var tokens := Normalize(argv[1..]).value;
    var s := ScanOptions(options, tokens, orders).value;
    SeparatorsDropped(options, tokens, orders);
    ScanOptionsTraced(options, tokens, orders);
    ResolveKeepsValid(table, s.args, s.unknown);
  }

  function Identity(s: string): string { s }
  function NoOrder(i: nat): seq<string> { [] }

  /** A program with nothing declared, run with no arguments, runs the
      implicit help command. */
  lemma MainRunsHelp()
    ensures ParseMain(map[], map[], ["prog"], Identity, NoOrder)
      == Ok(MainOutcome("prog", [], [], map[], map["help" := HelpCommand], None, [Invocation("help", [])]))
  {
    var argv := ["prog"];
    assert argv[1..] == [];
    assert Normalize([]) == Ok([]);
    assert ScanOptions(map[], [], NoOrder) == Ok(Scan([], [], map[], []));
    var table := map["help" := HelpCommand];
    assert WithHelp(map[]) == table;
    assert ResolveArgs(table, [], []) == Ok(Resolution(None, table, []));
    assert Fallback(table, []) == [Invocation("help", [])];
    assert Identity(argv[0]) == "prog";
    var empty: seq<Invocation> := [];
    assert empty + [Invocation("help", [])] == [Invocation("help", [])];
    assert ParseMain(map[], map[], argv, Identity, NoOrder)
      == Ok(MainOutcome("prog", [], [], map[], table, None, empty + Fallback(table, [])));
  }
}
