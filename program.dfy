/** The `Program` object: the registry of options, commands and topics that
    the declaration calls fill in, and the parse entry points that update it
    in place. Go's `*Command` handles are modelled by command names. */
module Cli {
  import opened Outcomes
  import opened Text
  import opened Declarations
  import opened Tokenizer
  import opened OptionScanner
  import opened CommandResolver
  import opened MainParse

  /** Every option is stored under its own flag spec. */
  predicate OptionsKeyed(options: map<string, OptionDecl>)
  {
    forall k :: k in options ==> options[k].flags == k
  }

  class Program {
    var commands: map<string, Command>
    var options: map<string, OptionDecl>
    var topics: map<string, Topic>
    var exe: string
    var args: seq<string>
    /** The actions run so far, in order. */
    var invoked: seq<Invocation>

    predicate Valid()
      reads this
    {
      CommandsValid(commands) && OptionsKeyed(options)
    }

    /** `New()`: empty registry. */
    constructor()
      ensures Valid()
      ensures commands == map[] && options == map[] && topics == map[]
      ensures exe == "" && args == [] && invoked == []
    {
      commands := map[];
      options := map[];
      topics := map[];
      exe := "";
      args := [];
      invoked := [];
    }

    /** `Program.Option`: declare (or redeclare) the option with this flag spec. */
    method AddOption(flags: string, description: string, defaults: seq<string>)
      requires Valid()
      modifies this
      ensures Valid()
      ensures options == old(options)[flags := NewOption(flags, description, defaults)]
      ensures commands == old(commands) && topics == old(topics)
      ensures exe == old(exe) && args == old(args) && invoked == old(invoked)
    {
      options := options[flags := NewOption(flags, description, defaults)];
    }

    /** `Program.Command`: declare a command under the first word of its syntax
        and return that name as the handle; a malformed syntax is fatal. */
    method AddCommand(syntax: string, description: string) returns (r: Result<string>)
      requires Valid()
      modifies this
      ensures Valid()
      ensures var words := Split(syntax, WordSeparators);
        && (r.Ok? <==> WellFormedSyntax(words))
        && (r.Ok? ==>
              && r.value == words[0]
              && commands == old(commands)[words[0] := Command(words[0], syntax, description, "", Slots(words), [], NoAction)])
        && (r.Err? ==> ExpectedArgs(words).Err? && r.error == ExpectedArgs(words).error && commands == old(commands))
      ensures options == old(options) && topics == old(topics)
      ensures exe == old(exe) && args == old(args) && invoked == old(invoked)
    {
      var c := NewCommand(syntax, description);
      match c
      case Err(e) =>
        r := Err(e);
      case Ok(cmd) =>
        commands := commands[cmd.name := cmd];
        r := Ok(cmd.name);
    }

    /** `Program.Topic`: declare (or redeclare) a help topic. */
    method AddTopic(name: string, description: string)
      requires Valid()
      modifies this
      ensures Valid()
      ensures topics == old(topics)[name := Topic(name, description, "")]
      ensures commands == old(commands) && options == old(options)
      ensures exe == old(exe) && args == old(args) && invoked == old(invoked)
    {
      topics := topics[name := Topic(name, description, "")];
    }

    /** `Command.SetAction` on the command registered as `name`. */
    method SetAction(name: string, action: Action)
      requires Valid() && name in commands
      modifies this
      ensures Valid()
      ensures commands == old(commands)[name := old(commands)[name].(action := action)]
      ensures options == old(options) && topics == old(topics)
      ensures exe == old(exe) && args == old(args) && invoked == old(invoked)
    {
      commands := commands[name := commands[name].(action := action)];
    }

    /** `Command.Option`: the option goes to the command's own list only, never
        to the program's options that the scan consults. */
    method AddCommandOption(name: string, flags: string, description: string, defaults: seq<string>)
      requires Valid() && name in commands
      modifies this
      ensures Valid()
      ensures commands == old(commands)[name := old(commands)[name].(options := old(commands)[name].options + [NewOption(flags, description, defaults)])]
      ensures options == old(options) && topics == old(topics)
      ensures exe == old(exe) && args == old(args) && invoked == old(invoked)
    {
      var c := commands[name];
      commands := commands[name := c.(options := c.options + [NewOption(flags, description, defaults)])];
    }

    /** `optionFor`: the loop over the options map, in visiting order `order`. */
    method OptionFor(arg: string, order: seq<string>) returns (r: Option<string>)
      ensures r == FirstMatch(options, order, arg)
    {
      var j := 0;
      while j < |order|
        invariant 0 <= j <= |order|
        invariant FirstMatch(options, order[j..], arg) == FirstMatch(options, order, arg)
      {
        assert order[j..][1..] == order[j + 1..];
        if order[j] in options && Matches(options[order[j]], arg) {
          return Some(order[j]);
        }
        j := j + 1;
      }
      return None;
    }

    /** `outputHelpIfNecessary`: whether the help exit is taken. */
    method OutputHelpIfNecessary(unknown: seq<string>) returns (help: bool)
      ensures help == HelpWanted(unknown)
    {
      var j := 0;
      while j < |unknown|
        invariant 0 <= j <= |unknown|
        invariant "--help" !in unknown[..j] && "-h" !in unknown[..j]
      {
        if unknown[j] == "--help" || unknown[j] == "-h" {
          return true;
        }
        assert unknown[..j + 1] == unknown[..j] + [unknown[j]];
        j := j + 1;
      }
      assert unknown[..j] == unknown;
      return false;
    }

    /** `parseOptions`: the index loop over the normalized tokens. It writes the
        bound values into the options in place and returns the positional and
        the unknown tokens. */
    method ParseOptions(argv: seq<string>, orders: nat -> seq<string>) returns (r: Result<(seq<string>, seq<string>)>)
      requires Valid()
      modifies this
      ensures var s := ScanOptions(old(options), argv, orders);
        && (r.Ok? <==> s.Ok?)
        && (r.Ok? ==> r.value == (s.value.args, s.value.unknown) && options == s.value.options)
        && (r.Err? ==> r.error == s.error)
      ensures r.Ok? ==> Valid()
      ensures commands == old(commands) && topics == old(topics)
      ensures exe == old(exe) && args == old(args) && invoked == old(invoked)
    {
      var literal := false;
      var positional: seq<string> := [];
      var unknown: seq<string> := [];
      ghost var roles: seq<Role> := [];
      var i := 0;
      while i < |argv|
        invariant i <= |argv|
        invariant ScanFrom(argv, orders, i, literal, Scan(positional, unknown, options, roles)) == ScanOptions(old(options), argv, orders)
        invariant OptionsKeyed(options)
        invariant commands == old(commands) && topics == old(topics)
        invariant exe == old(exe) && args == old(args) && invoked == old(invoked)
        decreases |argv| - i
      {
        var arg := argv[i];
        if arg == "--" {
          literal := true;
          roles := roles + [Separator];
          i := i + 1;
          continue;
        }
        if literal {
          positional := positional + [arg];
          roles := roles + [Positional];
          i := i + 1;
          continue;
        }
        var found := OptionFor(arg, orders(i));
        if found.Some? {
          var k := found.value;
          var o := options[k];
          if o.required {
            if i + 1 == |argv| {
              return Err(Panic(ValuePastEnd));
            }
            var t := argv[i + 1];
            if t == "" {
              return Err(Panic(EmptyValue));
            }
            if t[0] == '-' && t != "-" {
              return Err(OptionMissingArgument(o.flags, t));
            }
            options := options[k := o.(value := t)];
            roles := roles + [Flag(k), FlagValue(k)];
            i := i + 2;
          } else if o.optional && i + 1 < |argv| && IsValue(argv[i + 1]) {
            options := options[k := o.(value := argv[i + 1])];
            roles := roles + [Flag(k), FlagValue(k)];
            i := i + 2;
          } else {
            options := options[k := o.(value := "true")];
            roles := roles + [Flag(k)];
            i := i + 1;
          }
          continue;
        }
        if LooksLikeOption(arg) {
          if i + 1 < |argv| && argv[i + 1] == "" {
            return Err(Panic(EmptyLookahead));
          }
          if i + 1 < |argv| && argv[i + 1][0] != '-' {
            unknown := unknown + [arg, argv[i + 1]];
            roles := roles + [UnknownFlag, UnknownValue];
            i := i + 2;
          } else {
            unknown := unknown + [arg];
            roles := roles + [UnknownFlag];
            i := i + 1;
          }
          continue;
        }
        positional := positional + [arg];
        roles := roles + [Positional];
        i := i + 1;
      }
      return Ok((positional, unknown));
    }

    /** `parseArgs`: select the command, bind its slots from the tokens after
        the first, and run its action. */
    method ParseArgs(argv: seq<string>, unknown: seq<string>) returns (r: Result<Option<string>>)
      requires Valid()
      modifies this
      ensures var res := ResolveArgs(old(commands), argv, unknown);
        && (r.Ok? <==> res.Ok?)
        && (r.Ok? ==> r.value == res.value.selected && commands == res.value.commands
                      && invoked == old(invoked) + res.value.invoked)
        && (r.Err? ==> r.error == res.error)
      ensures r.Ok? ==> Valid()
      ensures options == old(options) && topics == old(topics)
      ensures exe == old(exe) && args == old(args)
    {
      var key: Option<string> := None;
      if |argv| > 0 {
        var name := argv[0];
        if name in commands {
          key := Some(name);
        } else if "*" in commands {
          key := Some("*");
        } else {
          var help := OutputHelpIfNecessary(unknown);
          if help {
            return Err(HelpRequested);
          }
        }
      } else {
        var help := OutputHelpIfNecessary(unknown);
        if help {
          return Err(HelpRequested);
        }
        if |unknown| > 0 {
          return Err(UnknownOption(unknown[0]));
        }
      }
      assert key == SelectCommand(commands, argv);
      if key.Some? {
        var k := key.value;
        var cmd := commands[k];
        ghost var tokens := argv[1..];
        var rest := argv[1..];
        var bound: seq<Arg> := [];
        var i := 0;
        while i < |cmd.args|
          invariant 0 <= i <= |cmd.args|
          invariant rest == if i <= |tokens| then tokens[i..] else []
          invariant BindFrom(cmd.args, tokens, i, bound) == Bind(cmd.args, tokens)
        {
          var slot := cmd.args[i];
          if |rest| > 0 {
            bound := bound + [slot.(value := rest[0])];
            rest := rest[1..];
          } else {
            if slot.required {
              return Err(MissingArgument(slot.name));
            }
            bound := bound + [slot];
          }
          i := i + 1;
        }
        ResolveKeepsValid(commands, argv, unknown);
        commands := commands[k := cmd.(args := bound)];
        if cmd.action != NoAction {
          invoked := invoked + [Invocation(k, unknown)];
        }
      }
      return Ok(key);
    }

    /** The implicit help command of `parseMainArgs`, added only when absent. */
    method AddHelpIfAbsent()
      requires Valid()
      modifies this
      ensures Valid()
      ensures commands == WithHelp(old(commands))
      ensures options == old(options) && topics == old(topics)
      ensures exe == old(exe) && args == old(args) && invoked == old(invoked)
    {
      WithHelpAddsOnlyIfAbsent(commands);
      if "help" !in commands {
        // the command NewCommand("help [cmd]", ...) declares (HelpCommandDeclared)
        commands := commands["help" := HelpCommand];
      }
    }

    /** The default action of `parseMainArgs` when no command was resolved. */
    method RunFallback(unknown: seq<string>)
      modifies this
      ensures invoked == old(invoked) + Fallback(commands, unknown)
      ensures commands == old(commands) && options == old(options) && topics == old(topics)
      ensures exe == old(exe) && args == old(args)
    {
      if "*" in commands {
        if commands["*"].action != NoAction {
          invoked := invoked + [Invocation("*", unknown)];
        }
      } else if "help" in commands {
        if commands["help"].action != NoAction {
          invoked := invoked + [Invocation("help", unknown)];
        }
      }
    }

    /** `parseMainArgs(argv)`: `base` stands for `path.Base`, `orders` for the
        visiting orders of the option lookups. */
    method ParseMainArgs(argv: seq<string>, base: string -> string, orders: nat -> seq<string>) returns (r: Result<Option<string>>)
      requires Valid()
      modifies this
      ensures var m := ParseMain(old(commands), old(options), argv, base, orders);
        && (r.Ok? <==> m.Ok?)
        && (r.Ok? ==>
              && r.value == m.value.selected
              && exe == m.value.exe && args == m.value.args
              && options == m.value.options && commands == m.value.commands
              && invoked == old(invoked) + m.value.invoked)
        && (r.Err? ==> r.error == m.error)
      ensures r.Ok? ==> Valid()
      ensures topics == old(topics)
    {
      AddHelpIfAbsent();
      if |argv| == 0 {
        return Err(Panic(NoProgramName));
      }
      exe := base(argv[0]);
      var normalized := NormalizeArgs(argv[1..]);
      if normalized.Err? {
        MainStopsAtNormalize(old(commands), old(options), argv, base, orders);
        return Err(normalized.error);
      }
      var tokens := normalized.value;
      var scanned := ParseOptions(tokens, orders);
      if scanned.Err? {
        MainStopsAtScan(old(commands), old(options), argv, base, orders, tokens);
        return Err(scanned.error);
      }
      ghost var s := ScanOptions(old(options), tokens, orders).value;
      args := scanned.value.0;
      var unknown := scanned.value.1;
      r := ParseArgs(args, unknown);
      if r.Err? {
        MainStopsAtResolve(old(commands), old(options), argv, base, orders, tokens, s);
        return;
      }
      ghost var res := ResolveArgs(WithHelp(old(commands)), s.args, s.unknown).value;
      if r.value.None? {
        RunFallback(unknown);
      }
      MainCompletes(old(commands), old(options), argv, base, orders, tokens, s, res);
    }
  }
}
