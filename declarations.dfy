/** The declared entities of the library (options, positional argument slots,
    commands, help topics) and the two mini-language parsers that build them:
    `NewOption` for flag specs such as "-c, --config <path>" and
    `NewCommand` / `parseExpectedArgs` for command syntaxes such as "tcp <port>". */
module Declarations {
  import opened Outcomes
  import opened Text

  /** A declared option. `value` is what the last parse bound to it. */
  datatype OptionDecl = OptionDecl(
    flags: string,
    description: string,
    required: bool,   // the flag spec contains '<'
    optional: bool,   // the flag spec contains '['
    isBool: bool,     // the flag spec contains "-no-"
    short: string,
    long: string,
    name: string,
    value: string,
    default: string)

  /** A positional argument slot of a command. */
  datatype Arg = Arg(required: bool, name: string, value: string)

  /** The callback registered with `SetAction`, as an abstract token.
      `Help` is the library's own `HelpAction`. */
  datatype Action = NoAction | Handler(id: nat) | Help

  datatype Command = Command(
    name: string,
    syntax: string,
    description: string,
    body: string,
    args: seq<Arg>,
    options: seq<OptionDecl>,
    action: Action)

  datatype Topic = Topic(name: string, description: string, body: string)

  /** The character class of the regular expression `[ ,|]+` used for flag specs. */
  const OptionSeparators: set<char> := {' ', ',', '|'}

  /** The character class of the regular expression ` +` used for command syntaxes. */
  const WordSeparators: set<char> := {' '}

  // ---------------------------------------------------------------------
  // Options

  /** The canonical option name: the long alias with every "--" and then
      every "no-" removed. */
  function CanonicalName(long: string): string
  {
    RemoveAll(RemoveAll(long, "--"), "no-")
  }

  /** A long alias with no dash after its leading "--" is named by the rest. */
  lemma {:induction false} CanonicalPlainName(long: string)
    requires |long| >= 2 && long[..2] == "--" && '-' !in long[2..]
    ensures CanonicalName(long) == long[2..]
  {
    var w := long[2..];
    MissingChar(w, "--", '-');
    RemoveAllShrinks(w, "--");
    MissingChar(w, "no-", '-');
    RemoveAllShrinks(w, "no-");
  }

  /** `NewOption`: the flag kinds are independent substring tests, the aliases
      are the first two pieces of the spec split at separator runs. */
  function NewOption(flags: string, description: string, defaults: seq<string>): OptionDecl
  {
    var pieces := Split(flags, OptionSeparators);
    OptionDecl(
      flags := flags,
      description := description,
      required := Contains(flags, "<"),
      optional := Contains(flags, "["),
      isBool := Contains(flags, "-no-"),
      short := pieces[0],
      long := if |pieces| > 1 then pieces[1] else "",
      name := if |pieces| > 1 then CanonicalName(pieces[1]) else "",
      value := "",
      default := if |defaults| == 1 then defaults[0] else "")
  }

  /** What `NewOption` derives from a flag spec, in terms of the spec's text. */
  lemma {:induction false} NewOptionDerivation(flags: string, description: string, defaults: seq<string>)
    ensures var o := NewOption(flags, description, defaults);
      && (o.required <==> '<' in flags)
      && (o.optional <==> '[' in flags)
      && (o.isBool <==> exists i :: OccursAt(flags, "-no-", i))
      && o.short == flags[..Leading(flags, OptionSeparators)]
      && NoSeparator(o.short, OptionSeparators)
      && NoSeparator(o.long, OptionSeparators)
      && (NoSeparator(flags, OptionSeparators) ==> o.short == flags && o.long == "" && o.name == "")
      && (!NoSeparator(flags, OptionSeparators) ==>
            var rest := flags[Leading(flags, OptionSeparators)..];
            var tail := rest[RunLength(rest, OptionSeparators)..];
            && o.long == tail[..Leading(tail, OptionSeparators)]
            && o.name == CanonicalName(o.long))
      && o.value == ""
      && o.default == (if |defaults| == 1 then defaults[0] else "")
  {
    ContainsChar(flags, '<');
    ContainsChar(flags, '[');
    ContainsAt(flags, "-no-");
    SplitHead(flags, OptionSeparators);
    if NoSeparator(flags, OptionSeparators) {
      assert Leading(flags, OptionSeparators) == |flags|;
    } else {
      var rest := flags[Leading(flags, OptionSeparators)..];
      var tail := rest[RunLength(rest, OptionSeparators)..];
      SplitHead(tail, OptionSeparators);
      assert Split(flags, OptionSeparators) == [flags[..Leading(flags, OptionSeparators)]] + Split(tail, OptionSeparators);
    }
  }

  // ---------------------------------------------------------------------
  // Command syntax

  predicate RequiredWord(w: string) { |w| > 0 && w[0] == '<' }

  predicate OptionalWord(w: string) { |w| > 0 && w[0] == '[' }

  /** A word that `parseExpectedArgs` can read without a runtime fault. */
  predicate WellFormedWord(w: string)
  {
    |w| > 0 && ((w[0] == '<' || w[0] == '[') ==> |w| >= 2)
  }

  /** A command syntax, split into words, that declares without error:
      every word readable and no required slot after an optional one. */
  predicate WellFormedSyntax(words: seq<string>)
  {
    && (forall i :: 0 <= i < |words| ==> WellFormedWord(words[i]))
    && (forall i, j :: 0 <= i < j < |words| && OptionalWord(words[i]) ==> !RequiredWord(words[j]))
  }

  /** The slot a bracketed word declares: its first and last characters are
      dropped whatever they are. */
  function SlotOf(w: string): Arg
    requires |w| >= 2
  {
    Arg(w[0] == '<', w[1..|w| - 1], "")
  }

  /** The reference list of slots: one per word starting with '<' or '[', in
      order; other words (the command name among them) declare nothing. */
  function Slots(words: seq<string>): seq<Arg>
    requires forall i :: 0 <= i < |words| ==> WellFormedWord(words[i])
  {
    if words == [] then []
    else
      var w := words[0];
      assert WellFormedWord(w);
      (if RequiredWord(w) || OptionalWord(w) then [SlotOf(w)] else []) + Slots(words[1..])
  }

  /** Every required slot comes before every optional one. */
  predicate RequiredFirst(args: seq<Arg>)
  {
    forall i, j :: 0 <= i < j < |args| && args[j].required ==> args[i].required
  }

  /** The first optional slot, as the inner loop of `parseExpectedArgs` finds it. */
  function FirstOptional(args: seq<Arg>): (r: Option<nat>)
    ensures r.None? <==> forall j :: 0 <= j < |args| ==> args[j].required
    ensures r.Some? ==> r.value < |args| && !args[r.value].required
                        && forall j :: 0 <= j < r.value ==> args[j].required
  {
    if args == [] then None
    else if !args[0].required then Some(0)
    else match FirstOptional(args[1..])
      case None => None
      case Some(j) => Some(j + 1)
  }

  /** `parseExpectedArgs` continued from the slots `acc` already appended. */
  function ExpectedArgsFrom(words: seq<string>, acc: seq<Arg>): Result<seq<Arg>>
  {
    if words == [] then Ok(acc)
    else
      var w := words[0];
      if |w| == 0 then Err(Panic(EmptyWord))
      else if w[0] == '<' then
        match FirstOptional(acc)
        case Some(j) => Err(InvalidDeclaration(w, acc[j].name))
        case None =>
          if |w| < 2 then Err(Panic(ShortSlot))
          else ExpectedArgsFrom(words[1..], acc + [SlotOf(w)])
      else if w[0] == '[' then
        if |w| < 2 then Err(Panic(ShortSlot))
        else ExpectedArgsFrom(words[1..], acc + [SlotOf(w)])
      else ExpectedArgsFrom(words[1..], acc)
  }

  /** `parseExpectedArgs` on the words of a syntax, with no slots yet. */
  function ExpectedArgs(words: seq<string>): Result<seq<Arg>>
  {
    ExpectedArgsFrom(words, [])
  }

  /** The slots still to come may follow `acc` without error. */
  predicate Admissible(acc: seq<Arg>, words: seq<string>)
  {
    && WellFormedSyntax(words)
    && (FirstOptional(acc).Some? ==> forall j :: 0 <= j < |words| ==> !RequiredWord(words[j]))
  }

  /** The slots after reading one more word. */
  function Extend(acc: seq<Arg>, w: string): seq<Arg>
    requires WellFormedWord(w)
  {
    if RequiredWord(w) || OptionalWord(w) then acc + [SlotOf(w)] else acc
  }

  lemma {:induction false} FirstOptionalExtend(acc: seq<Arg>, w: string)
    requires WellFormedWord(w)
    ensures FirstOptional(Extend(acc, w)).Some? <==> FirstOptional(acc).Some? || OptionalWord(w)
  {
    var acc' := Extend(acc, w);
    if RequiredWord(w) || OptionalWord(w) {
      assert acc'[|acc|] == SlotOf(w);
      assert forall j :: 0 <= j < |acc| ==> acc'[j] == acc[j];
    }
  }

  lemma {:induction false} AdmissibleStep(acc: seq<Arg>, words: seq<string>)
    requires words != [] && WellFormedWord(words[0])
    requires !(RequiredWord(words[0]) && FirstOptional(acc).Some?)
    ensures Admissible(acc, words) <==> Admissible(Extend(acc, words[0]), words[1..])
  {
    var w, rest := words[0], words[1..];
    FirstOptionalExtend(acc, w);
    assert forall j :: 0 <= j < |rest| ==> rest[j] == words[j + 1];
    if Admissible(Extend(acc, w), rest) {
      forall i, j | 0 <= i < j < |words| && OptionalWord(words[i])
        ensures !RequiredWord(words[j])
      {
        if i > 0 { assert OptionalWord(rest[i - 1]); }
      }
      if FirstOptional(acc).Some? {
        forall j | 0 <= j < |words| ensures !RequiredWord(words[j]) {
          if j > 0 { assert words[j] == rest[j - 1]; }
        }
      }
    }
    if Admissible(acc, words) && OptionalWord(w) {
      forall j | 0 <= j < |rest| ensures !RequiredWord(rest[j]) {
        assert rest[j] == words[j + 1];
      }
    }
  }

  /** One word of `parseExpectedArgs`: it either stops the declaration with
      an error or extends the slots read so far. */
  lemma {:induction false} ExpectedArgsFromStep(words: seq<string>, acc: seq<Arg>)
    requires words != []
    ensures var w := words[0];
      if !WellFormedWord(w) || (RequiredWord(w) && FirstOptional(acc).Some?)
      then ExpectedArgsFrom(words, acc).Err?
      else ExpectedArgsFrom(words, acc) == ExpectedArgsFrom(words[1..], Extend(acc, w))
  {
  }

  lemma {:induction false} SlotsExtend(acc: seq<Arg>, words: seq<string>)
    requires words != [] && forall i :: 0 <= i < |words| ==> WellFormedWord(words[i])
    ensures Extend(acc, words[0]) + Slots(words[1..]) == acc + Slots(words)
  {
    var w := words[0];
    assert WellFormedWord(w);
    var tail := words[1..];
    forall i | 0 <= i < |tail| ensures WellFormedWord(tail[i]) {
      assert tail[i] == words[i + 1];
    }
    var rest := Slots(tail);
    if RequiredWord(w) || OptionalWord(w) {
      var head := [SlotOf(w)];
      assert Slots(words) == head + rest;
      assert (acc + head) + rest == acc + (head + rest);
    } else {
      assert Slots(words) == [] + rest;
      assert [] + rest == rest;
    }
  }

  lemma {:induction false} ExpectedArgsFromCorrect(words: seq<string>, acc: seq<Arg>)
    ensures ExpectedArgsFrom(words, acc).Ok? <==> Admissible(acc, words)
    ensures Admissible(acc, words) ==> ExpectedArgsFrom(words, acc) == Ok(acc + Slots(words))
  {
    if words != [] {
      var w := words[0];
      ExpectedArgsFromStep(words, acc);
      if !WellFormedWord(w) || (RequiredWord(w) && FirstOptional(acc).Some?) {
        assert !Admissible(acc, words);
      } else {
        AdmissibleStep(acc, words);
        ExpectedArgsFromCorrect(words[1..], Extend(acc, w));
        if Admissible(acc, words) {
          SlotsExtend(acc, words);
        }
      }
    } else {
      assert acc + Slots(words) == acc;
    }
  }

  /** Declaration keeps every required slot before every optional one. */
  lemma {:induction false} ExpectedArgsFromOrdered(words: seq<string>, acc: seq<Arg>)
    requires RequiredFirst(acc)
    requires ExpectedArgsFrom(words, acc).Ok?
    ensures RequiredFirst(ExpectedArgsFrom(words, acc).value)
  {
    if words != [] {
      var w := words[0];
      if w[0] == '<' || w[0] == '[' {
        var acc' := acc + [SlotOf(w)];
        assert RequiredFirst(acc') by {
          if w[0] == '<' {
            assert forall j :: 0 <= j < |acc| ==> acc[j].required;
          }
        }
        ExpectedArgsFromOrdered(words[1..], acc');
      } else {
        ExpectedArgsFromOrdered(words[1..], acc);
      }
    }
  }

  /** `parseExpectedArgs` succeeds exactly on well-formed syntaxes; it then
      yields the reference slot list, required slots first. In particular
      "<x>" anywhere after "[y]" is rejected. */
  lemma {:induction false} ExpectedArgsCorrect(words: seq<string>)
    ensures ExpectedArgs(words).Ok? <==> WellFormedSyntax(words)
    ensures WellFormedSyntax(words) ==>
      ExpectedArgs(words) == Ok(Slots(words)) && RequiredFirst(Slots(words))
  {
    ExpectedArgsFromCorrect(words, []);
    if WellFormedSyntax(words) {
      ExpectedArgsFromOrdered(words, []);
      assert [] + Slots(words) == Slots(words);
    }
  }

  /** The slots of consecutive stretches of words concatenate. */
  lemma {:induction false} SlotsAppend(a: seq<string>, b: seq<string>)
    requires forall i :: 0 <= i < |a| ==> WellFormedWord(a[i])
    requires forall i :: 0 <= i < |b| ==> WellFormedWord(b[i])
    ensures forall i :: 0 <= i < |a + b| ==> WellFormedWord((a + b)[i])
    ensures Slots(a + b) == Slots(a) + Slots(b)
  {
    assert forall i :: 0 <= i < |a + b| ==> (a + b)[i] == if i < |a| then a[i] else b[i - |a|];
    if a != [] {
      assert (a + b)[0] == a[0] && (a + b)[1..] == a[1..] + b;
      assert forall i :: 0 <= i < |a[1..]| ==> a[1..][i] == a[i + 1];
      SlotsAppend(a[1..], b);
    } else {
      assert a + b == b;
    }
  }

  /** Words without an optional slot declare required slots only. */
  lemma {:induction false} SlotsRequired(words: seq<string>)
    requires forall i :: 0 <= i < |words| ==> WellFormedWord(words[i]) && !OptionalWord(words[i])
    ensures forall j :: 0 <= j < |Slots(words)| ==> Slots(words)[j].required
  {
    if words != [] {
      assert forall i :: 0 <= i < |words[1..]| ==> words[1..][i] == words[i + 1];
      SlotsRequired(words[1..]);
    }
  }

  /** Words that declare without error are read straight through, each
      bracketed one appending its slot. */
  lemma {:induction false} ExpectedArgsFromPrefix(words: seq<string>, acc: seq<Arg>, m: nat)
    requires m <= |words|
    requires forall i :: 0 <= i < m ==> WellFormedWord(words[i])
    requires forall i, j :: 0 <= i < j < m && OptionalWord(words[i]) ==> !RequiredWord(words[j])
    requires FirstOptional(acc).Some? ==> forall j :: 0 <= j < m ==> !RequiredWord(words[j])
    ensures ExpectedArgsFrom(words, acc) == ExpectedArgsFrom(words[m..], acc + Slots(words[..m]))
  {
    if m == 0 {
      assert words[..0] == [] && words[0..] == words;
      assert acc + [] == acc;
    } else {
      var w, rest := words[0], words[1..];
      assert w == words[..m][0];
      ExpectedArgsFromStep(words, acc);
      FirstOptionalExtend(acc, w);
      forall i, j | 0 <= i < j < m - 1 && OptionalWord(rest[i]) ensures !RequiredWord(rest[j]) {
        assert rest[i] == words[i + 1] && rest[j] == words[j + 1];
      }
      if FirstOptional(Extend(acc, w)).Some? {
        forall j | 0 <= j < m - 1 ensures !RequiredWord(rest[j]) {
          assert rest[j] == words[j + 1];
        }
      }
      ExpectedArgsFromPrefix(rest, Extend(acc, w), m - 1);
      assert rest[m - 1..] == words[m..];
      var prefix := words[..m];
      assert prefix[1..] == rest[..m - 1];
      SlotsExtend(acc, prefix);
    }
  }

  /** The first optional slot after a run of required ones. */
  lemma {:induction false} FirstOptionalAfter(front: seq<Arg>, x: Arg, back: seq<Arg>)
    requires forall j :: 0 <= j < |front| ==> front[j].required
    requires !x.required
    ensures FirstOptional(front + [x] + back) == Some(|front|)
  {
    var slots := front + [x] + back;
    assert slots[|front|] == x;
    assert forall j :: 0 <= j < |front| ==> slots[j] == front[j];
  }

  /** The slots of `words[..m]`, cut at the word `words[o]`. */
  lemma {:induction false} SlotsAround(words: seq<string>, o: nat, m: nat)
    requires o < m <= |words|
    requires forall i :: 0 <= i < m ==> WellFormedWord(words[i])
    requires OptionalWord(words[o])
    ensures forall i :: 0 <= i < |words[..m]| ==> WellFormedWord(words[..m][i])
    ensures forall i :: 0 <= i < |words[..o]| ==> WellFormedWord(words[..o][i])
    ensures Slots(words[..m]) == Slots(words[..o]) + [SlotOf(words[o])] + Slots(words[o + 1..m])
  {
    var before, after := words[..o], words[o + 1..m];
    assert words[..m] == before + [words[o]] + after;
    assert forall i :: 0 <= i < |before| ==> before[i] == words[i];
    assert forall i :: 0 <= i < |after| ==> after[i] == words[o + 1 + i];
    SlotsAppend(before, [words[o]]);
    SlotsAppend(before + [words[o]], after);
    assert Slots([words[o]]) == [SlotOf(words[o])] + [];
  }

  /** Among the slots of `words[..m]`, the first optional one is that of
      the first optional word `words[o]`. */
  lemma {:induction false} FirstOptionalSlot(words: seq<string>, o: nat, m: nat)
    requires o < m <= |words|
    requires forall i :: 0 <= i < m ==> WellFormedWord(words[i])
    requires OptionalWord(words[o]) && forall i :: 0 <= i < o ==> !OptionalWord(words[i])
    ensures forall i :: 0 <= i < |words[..m]| ==> WellFormedWord(words[..m][i])
    ensures var slots := Slots(words[..m]);
      FirstOptional(slots).Some? && slots[FirstOptional(slots).value] == SlotOf(words[o])
  {
    SlotsAround(words, o, m);
    var before := words[..o];
    assert forall i :: 0 <= i < |before| ==> before[i] == words[i];
    SlotsRequired(before);
    FirstOptionalAfter(Slots(before), SlotOf(words[o]), Slots(words[o + 1..m]));
  }

  /** `parseExpectedArgs` rejects the first required slot `words[m]` that
      follows an optional one, naming it and the first optional slot
      `words[o]` declared before it, as long as every word before it is
      readable. */
  lemma {:induction false} ExpectedArgsRejects(words: seq<string>, o: nat, m: nat)
    requires o < m < |words|
    requires forall i :: 0 <= i < m ==> WellFormedWord(words[i])
    requires OptionalWord(words[o]) && forall i :: 0 <= i < o ==> !OptionalWord(words[i])
    requires RequiredWord(words[m]) && forall i :: o < i < m ==> !RequiredWord(words[i])
    ensures WellFormedWord(words[o]) && ExpectedArgs(words) == Err(InvalidDeclaration(words[m], SlotOf(words[o]).name))
  {
    forall i, j | 0 <= i < j < m && OptionalWord(words[i]) ensures !RequiredWord(words[j]) {
      assert o <= i;
    }
    ExpectedArgsFromPrefix(words, [], m);
    FirstOptionalSlot(words, o, m);
    assert [] + Slots(words[..m]) == Slots(words[..m]);
    assert words[m..][0] == words[m];
  }

  /** Otherwise `parseExpectedArgs` stops at the first unreadable word with
      the fault of its slice: an empty word faults on its first character,
      a lone '<' or '[' on the bracket slice. */
  lemma {:induction false} ExpectedArgsFaults(words: seq<string>, m: nat)
    requires m < |words|
    requires forall i :: 0 <= i < m ==> WellFormedWord(words[i])
    requires forall i, j :: 0 <= i < j < m && OptionalWord(words[i]) ==> !RequiredWord(words[j])
    requires !WellFormedWord(words[m])
    requires RequiredWord(words[m]) ==> forall i :: 0 <= i < m ==> !OptionalWord(words[i])
    ensures ExpectedArgs(words) == Err(Panic(if words[m] == "" then EmptyWord else ShortSlot))
  {
    ExpectedArgsFromPrefix(words, [], m);
    assert words[m..][0] == words[m];
    if RequiredWord(words[m]) {
      assert forall i :: 0 <= i < m ==> words[..m][i] == words[i];
      SlotsRequired(words[..m]);
      assert [] + Slots(words[..m]) == Slots(words[..m]);
    }
  }

  /** The inner loop of `parseExpectedArgs`: look for an optional slot among
      those already declared. */
  method FindOptional(args: seq<Arg>) returns (r: Option<nat>)
    ensures r == FirstOptional(args)
  {
    var k := 0;
    while k < |args|
      invariant 0 <= k <= |args|
      invariant forall j :: 0 <= j < k ==> args[j].required
    {
      if !args[k].required {
        return Some(k);
      }
      k := k + 1;
    }
    return None;
  }

  /** `parseExpectedArgs`: appends one slot per bracketed word, refusing a
      required slot once an optional one has been declared. */
  method ParseExpectedArgs(words: seq<string>) returns (r: Result<seq<Arg>>)
    ensures r == ExpectedArgs(words)
  {
    var args: seq<Arg> := [];
    var i := 0;
    while i < |words|
      invariant 0 <= i <= |words|
      invariant ExpectedArgsFrom(words[i..], args) == ExpectedArgs(words)
    {
      var w := words[i];
      assert words[i..][0] == w && words[i..][1..] == words[i + 1..];
      if |w| == 0 {
        return Err(Panic(EmptyWord));
      }
      if w[0] == '<' {
        var prev := FindOptional(args);
        if prev.Some? {
          return Err(InvalidDeclaration(w, args[prev.value].name));
        }
        if |w| < 2 {
          return Err(Panic(ShortSlot));
        }
        args := args + [SlotOf(w)];
      } else if w[0] == '[' {
        if |w| < 2 {
          return Err(Panic(ShortSlot));
        }
        args := args + [SlotOf(w)];
      }
      i := i + 1;
    }
    return Ok(args);
  }

  /** A syntax of a command name and one slot, one space apart, splits into
      those two words. */
  lemma {:induction false} TwoWordSyntax(name: string, slot: string)
    requires NoSeparator(name, WordSeparators) && NoSeparator(slot, WordSeparators)
    ensures Split(name + " " + slot, WordSeparators) == [name, slot]
  {
    SplitPair(name, " ", slot, WordSeparators);
  }

  /** A command name and one bracketed word declare exactly that word's slot. */
  lemma {:induction false} OneSlotSyntax(name: string, slot: string)
    requires NoSeparator(name, WordSeparators) && NoSeparator(slot, WordSeparators)
    requires |name| > 0 && !RequiredWord(name) && !OptionalWord(name)
    requires |slot| >= 2 && (RequiredWord(slot) || OptionalWord(slot))
    ensures var words := Split(name + " " + slot, WordSeparators);
      && words == [name, slot]
      && WellFormedSyntax(words)
      && Slots(words) == [SlotOf(slot)]
  {
    TwoWordSyntax(name, slot);
    var words := [name, slot];
    assert words[1..] == [slot] && words[1..][1..] == [];
    assert WellFormedWord(name) && WellFormedWord(slot);
    assert Slots([slot]) == [SlotOf(slot)] + Slots([]);
    assert Slots(words) == [] + Slots([slot]);
  }

  /** `NewCommand`: the first word of the syntax is the command's name, and
      every word, the name included, goes to `parseExpectedArgs`. */
  method NewCommand(syntax: string, description: string) returns (r: Result<Command>)
    ensures var words := Split(syntax, WordSeparators);
      && (r.Ok? <==> WellFormedSyntax(words))
      && (r.Ok? ==> r.value == Command(words[0], syntax, description, "", Slots(words), [], NoAction)
                    && RequiredFirst(r.value.args))
      && (r.Err? ==> ExpectedArgs(words).Err? && r.error == ExpectedArgs(words).error)
  {
    var words := Split(syntax, WordSeparators);
    ExpectedArgsCorrect(words);
    var args := ParseExpectedArgs(words);
    match args
    case Err(e) => return Err(e);
    case Ok(slots) => return Ok(Command(words[0], syntax, description, "", slots, [], NoAction));
  }
}
