/** `parseArgs` and `outputHelpIfNecessary`: choosing the command named by the
    positional arguments, binding the remaining tokens to its argument slots,
    and recording the run of its action. */
module CommandResolver {
  import opened Outcomes
  import opened Text
  import opened Declarations

  /** One run of a command's action, with the unknown tokens it receives. */
  datatype Invocation = Invocation(command: string, unknown: seq<string>)

  /** The outcome of a successful `parseArgs`: the selected command (None for
      Go's nil), the command table after binding, and the actions it ran. */
  datatype Resolution = Resolution(selected: Option<string>, commands: map<string, Command>, invoked: seq<Invocation>)

  /** Every command is stored under its own name and lists its required
      slots before its optional ones. */
  predicate CommandsValid(commands: map<string, Command>)
  {
    forall k :: k in commands ==> commands[k].name == k && RequiredFirst(commands[k].args)
  }

  /** `outputHelpIfNecessary` exits with help when one of these is present. */
  predicate HelpWanted(unknown: seq<string>)
  {
    "--help" in unknown || "-h" in unknown
  }

  /** The command lookup: the first positional argument by name, else the
      wildcard "*", else nothing; with no positional argument, nothing. */
  function SelectCommand(commands: map<string, Command>, args: seq<string>): Option<string>
  {
    if |args| == 0 then None
    else if args[0] in commands then Some(args[0])
    else if "*" in commands then Some("*")
    else None
  }

  // ---------------------------------------------------------------------
  // Binding positional tokens to slots

  /** The binding loop from slot `i` on, with `bound` the slots already done:
      a slot takes the next token if one is left; a required slot with no
      token left is an error; an optional one keeps its old value. */
  function BindFrom(slots: seq<Arg>, tokens: seq<string>, i: nat, bound: seq<Arg>): Result<seq<Arg>>
    requires i <= |slots|
    decreases |slots| - i
  {
    if i == |slots| then Ok(bound)
    else if i < |tokens| then BindFrom(slots, tokens, i + 1, bound + [slots[i].(value := tokens[i])])
    else if slots[i].required then Err(MissingArgument(slots[i].name))
    else BindFrom(slots, tokens, i + 1, bound + [slots[i]])
  }

  function Bind(slots: seq<Arg>, tokens: seq<string>): Result<seq<Arg>>
  {
    BindFrom(slots, tokens, 0, [])
  }

  /** Reference definition of the bound slots: slot `j` holds token `j` when
      there is one and is unchanged otherwise; tokens beyond the slots are
      ignored. */
  function Filled(slots: seq<Arg>, tokens: seq<string>): seq<Arg>
  {
    seq(|slots|, j requires 0 <= j < |slots| => if j < |tokens| then slots[j].(value := tokens[j]) else slots[j])
  }

  /** Slot `m` is the first required slot from `i` on that gets no token. */
  predicate FirstMissing(slots: seq<Arg>, tokens: seq<string>, i: nat, m: nat)
  {
    && i <= m < |slots| && |tokens| <= m && slots[m].required
    && forall j :: i <= j < m && |tokens| <= j ==> !slots[j].required
  }

  lemma {:induction false} BindFromCorrect(slots: seq<Arg>, tokens: seq<string>, i: nat, bound: seq<Arg>)
    requires i <= |slots|
    ensures var r := BindFrom(slots, tokens, i, bound);
      && (r.Ok? <==> forall j :: i <= j < |slots| && |tokens| <= j ==> !slots[j].required)
      && (r.Ok? ==> r.value == bound + Filled(slots, tokens)[i..])
      && (r.Err? ==> exists m: nat :: FirstMissing(slots, tokens, i, m) && r.error == MissingArgument(slots[m].name))
    decreases |slots| - i
  {
    var full := Filled(slots, tokens);
    if i == |slots| {
      assert bound + full[i..] == bound;
    } else {
      var next := if i < |tokens| then slots[i].(value := tokens[i]) else slots[i];
      assert full[i] == next;
      assert full[i..] == [next] + full[i + 1..];
      if i < |tokens| || !slots[i].required {
        BindFromCorrect(slots, tokens, i + 1, bound + [next]);
        var r := BindFrom(slots, tokens, i + 1, bound + [next]);
        if r.Err? {
          var m: nat :| FirstMissing(slots, tokens, i + 1, m) && r.error == MissingArgument(slots[m].name);
          assert FirstMissing(slots, tokens, i, m);
        }
      } else {
        assert FirstMissing(slots, tokens, i, i);
      }
    }
  }

  /** `parseArgs`' binding loop: it fails exactly when a required slot is
      reached with no token left, naming the first such slot; otherwise the
      slots are `Filled`. */
  lemma {:induction false} BindCorrect(slots: seq<Arg>, tokens: seq<string>)
    ensures var r := Bind(slots, tokens);
      && (r.Ok? <==> forall j :: |tokens| <= j < |slots| ==> !slots[j].required)
      && (r.Ok? ==> r.value == Filled(slots, tokens))
      && (r.Err? ==> exists m: nat :: FirstMissing(slots, tokens, 0, m) && r.error == MissingArgument(slots[m].name))
  {
    BindFromCorrect(slots, tokens, 0, []);
    assert [] + Filled(slots, tokens)[0..] == Filled(slots, tokens);
  }

  /** Binding changes values only: names and kinds stay, so the slot order
      invariant is kept. */
  lemma {:induction false} FilledKeepsShape(slots: seq<Arg>, tokens: seq<string>)
    requires RequiredFirst(slots)
    ensures var f := Filled(slots, tokens);
      && |f| == |slots|
      && (forall j :: 0 <= j < |f| ==> f[j].name == slots[j].name && f[j].required == slots[j].required)
      && RequiredFirst(f)
  {
  }

  /** With required slots first, binding succeeds exactly when there are at
      least as many tokens as required slots. */
  lemma {:induction false} BindEnoughTokens(slots: seq<Arg>, tokens: seq<string>, required: nat)
    requires RequiredFirst(slots) && required <= |slots|
    requires forall j :: 0 <= j < |slots| ==> (slots[j].required <==> j < required)
    ensures Bind(slots, tokens).Ok? <==> required <= |tokens|
  {
    BindCorrect(slots, tokens);
    if required > |tokens| {
      assert slots[|tokens|].required;
    }
  }

  // ---------------------------------------------------------------------
  // parseArgs

  /** `parseArgs(args, unknown)`. With a selected command its first token is
      dropped (even when the wildcard was selected), the rest is bound and
      the action, if any, runs once with `unknown`. Without one, help is
      checked first, then unknown options with no positional argument. */
  function ResolveArgs(commands: map<string, Command>, args: seq<string>, unknown: seq<string>): Result<Resolution>
  {
    match SelectCommand(commands, args)
    case None =>
      if HelpWanted(unknown) then Err(HelpRequested)
      else if |args| == 0 && |unknown| > 0 then Err(UnknownOption(unknown[0]))
      else Ok(Resolution(None, commands, []))
    case Some(k) =>
      var cmd := commands[k];
      match Bind(cmd.args, args[1..])
      case Err(e) => Err(e)
      case Ok(bound) =>
        Ok(Resolution(Some(k), commands[k := cmd.(args := bound)],
          if cmd.action == NoAction then [] else [Invocation(k, unknown)]))
  }

  /** Selection order: the command named by the first argument, else "*";
      a selected command is never reported as help or an unknown option. */
  lemma {:induction false} ResolveSelection(commands: map<string, Command>, args: seq<string>, unknown: seq<string>)
    ensures var r := ResolveArgs(commands, args, unknown);
      && (r.Ok? && r.value.selected.Some? ==>
            var k := r.value.selected.value;
            k in commands && |args| > 0 && (k == args[0] || (args[0] !in commands && k == "*")))
      && (|args| > 0 && (args[0] in commands || "*" in commands) ==>
            (r.Ok? && r.value.selected.Some?) || r.error.MissingArgument?)
  {
    if |args| > 0 && (args[0] in commands || "*" in commands) {
      var k := SelectCommand(commands, args).value;
      BindCorrect(commands[k].args, args[1..]);
    }
  }

  /** With no command selected: help wins, then a stray unknown option when
      there was no positional argument, otherwise Go's nil with nothing run. */
  lemma {:induction false} ResolveUnselected(commands: map<string, Command>, args: seq<string>, unknown: seq<string>)
    requires |args| == 0 || (args[0] !in commands && "*" !in commands)
    ensures var r := ResolveArgs(commands, args, unknown);
      && (r == Err(HelpRequested) <==> HelpWanted(unknown))
      && (!HelpWanted(unknown) && |args| == 0 && |unknown| > 0 ==> r == Err(UnknownOption(unknown[0])))
      && (!HelpWanted(unknown) && (|args| > 0 || |unknown| == 0) ==> r == Ok(Resolution(None, commands, [])))
  {
  }

  /** Binding for a selected command: only that command changes, its slots
      take `args[1..]` left to right, and its action runs exactly once when it
      has one; the error names the first required slot left without a token. */
  lemma {:induction false} ResolveBinding(commands: map<string, Command>, args: seq<string>, unknown: seq<string>, k: string)
    requires SelectCommand(commands, args) == Some(k)
    ensures k in commands && |args| > 0
    ensures var r := ResolveArgs(commands, args, unknown);
      var cmd := commands[k];
      var tokens := args[1..];
      && (r.Ok? <==> forall j :: |tokens| <= j < |cmd.args| ==> !cmd.args[j].required)
      && (r.Ok? ==>
            && r.value.selected == Some(k)
            && r.value.commands == commands[k := cmd.(args := Filled(cmd.args, tokens))]
            && |r.value.invoked| == (if cmd.action == NoAction then 0 else 1)
            && (forall n :: 0 <= n < |r.value.invoked| ==> r.value.invoked[n] == Invocation(k, unknown)))
      && (r.Err? ==> exists m: nat :: FirstMissing(cmd.args, tokens, 0, m) && r.error == MissingArgument(cmd.args[m].name))
  {
    BindCorrect(commands[k].args, args[1..]);
  }

  /** `parseArgs` keeps the command table well formed. */
  lemma {:induction false} ResolveKeepsValid(commands: map<string, Command>, args: seq<string>, unknown: seq<string>)
    requires CommandsValid(commands)
    requires ResolveArgs(commands, args, unknown).Ok?
    ensures CommandsValid(ResolveArgs(commands, args, unknown).value.commands)
  {
    match SelectCommand(commands, args)
    case None =>
    case Some(k) =>
      BindCorrect(commands[k].args, args[1..]);
      FilledKeepsShape(commands[k].args, args[1..]);
  }

  // ---------------------------------------------------------------------
  // Examples (cli_test.go, TestParseArgs)

  const Tcp := Command("tcp", "tcp <port>", "capture TCP packets on <port>", "", [Arg(true, "port", "")], [], NoAction)

  lemma TcpWords(syntax: string)
    requires syntax == Tcp.syntax
    ensures Split(syntax, WordSeparators) == ["tcp", "<port>"]
  {
    assert syntax == "tcp" + " " + "<port>";
    TwoWordSyntax("tcp", "<port>");
  }

  lemma TcpSlots()
    ensures WellFormedSyntax(["tcp", "<port>"]) && Slots(["tcp", "<port>"]) == Tcp.args
  {
    OneSlotSyntax("tcp", "<port>");
    assert SlotOf("<port>") == Arg(true, "port", "");
  }

  /** `Tcp` is what `NewCommand("tcp <port>", ...)` declares. */
  lemma TcpDeclared(syntax: string)
    requires syntax == Tcp.syntax
    ensures var words := Split(syntax, WordSeparators);
      && WellFormedSyntax(words)
      && Tcp == Command(words[0], syntax, Tcp.description, "", Slots(words), [], NoAction)
  {
    TcpWords(syntax);
    TcpSlots();
  }

  /** "help" names no command and there is no wildcard: nil. */
  lemma ResolveHelpWord()
    ensures ResolveArgs(map["tcp" := Tcp], ["help"], []) == Ok(Resolution(None, map["tcp" := Tcp], []))
  {
    assert "help" != "tcp";
  }

  /** "tcp 8080" selects tcp and binds port to "8080". */
  lemma ResolveTcp()
    ensures var r := ResolveArgs(map["tcp" := Tcp], ["tcp", "8080"], []);
      && r.Ok? && r.value.selected == Some("tcp")
      && r.value.commands["tcp"].args == [Arg(true, "port", "8080")]
  {
    var tokens := ["tcp", "8080"][1..];
    assert tokens == ["8080"];
    BindCorrect(Tcp.args, tokens);
  }

  /** Under the wildcard the first positional argument is still dropped. */
  lemma ResolveWildcardDropsFirst()
    ensures var star := Command("*", "* [name]", "", "", [Arg(false, "name", "")], [], Handler(0));
      ResolveArgs(map["*" := star], ["deploy"], ["-v"])
        == Ok(Resolution(Some("*"), map["*" := star], [Invocation("*", ["-v"])]))
  {
    var star := Command("*", "* [name]", "", "", [Arg(false, "name", "")], [], Handler(0));
    var args := ["deploy"];
    assert args[0] != "*";
    assert SelectCommand(map["*" := star], args) == Some("*");
    assert args[1..] == [];
    assert Bind(star.args, []) == Ok(star.args) by {
      assert [] + [star.args[0]] == star.args;
      assert BindFrom(star.args, [], 1, star.args) == Ok(star.args);
    }
    assert star.(args := star.args) == star;
    var table := map["*" := star];
    assert table["*" := star] == table;
  }
}
