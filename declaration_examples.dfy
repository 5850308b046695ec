/** Concrete declarations, matching the behaviour the repository's tests
    check (cli_test.go, TestOptions and TestCommands). */
module DeclarationExamples {
  import opened Outcomes
  import opened Text
  import opened Declarations

  /** A flag spec without separators is a short alias only. */
  lemma ShortOnlyOption()
    ensures var o := NewOption("-v", "display version information", []);
      && o.short == "-v" && o.long == "" && o.name == ""
      && !o.required && !o.optional && !o.isBool
  {
    NewOptionDerivation("-v", "display version information", []);
    MissingChar("-v", "-no-", 'n');
  }

  const VersionFlags := "-v, --version"
  const Version := OptionDecl(VersionFlags, "display option", false, false, false, "-v", "--version", "version", "", "")

  lemma VersionChars()
    ensures '<' !in VersionFlags && '[' !in VersionFlags
    ensures CanonicalName("--version") == "version"
  {
    assert "--version"[..2] == "--" && "--version"[2..] == "version";
    CanonicalPlainName("--version");
  }

  lemma VersionPieces()
    ensures Split(VersionFlags, OptionSeparators) == ["-v", "--version"]
  {
    assert VersionFlags == "-v" + ", " + "--version";
    SplitPair("-v", ", ", "--version", OptionSeparators);
  }

  /** "-no-" cannot occur: the only 'n' follows an 'o'. */
  lemma VersionNotBool()
    ensures !Contains(VersionFlags, "-no-")
  {
    assert VersionFlags[..12] == "-v, --versio" && VersionFlags[13..] == "";
    MissingPair(VersionFlags, "-no-", 12);
  }

  /** "-v, --version": a plain option named "version" with both aliases. */
  lemma VersionDeclaration()
    ensures NewOption(VersionFlags, "display option", []) == Version
    ensures NewOption(VersionFlags, "display version information", [])
      == Version.(description := "display version information")
  {
    VersionPieces();
    VersionChars();
    ContainsChar(VersionFlags, '<');
    ContainsChar(VersionFlags, '[');
    VersionNotBool();
  }

  const ConfigFlags := "-c, --config <path>"
  const Config := OptionDecl(ConfigFlags, "set configuration file", true, false, false, "-c", "--config", "config", "", "")

  /** The value markers of the two config specs. */
  predicate ConfigSlot(slot: string) { slot == "<path>" || slot == "[path]" }

  lemma ConfigPieces(flags: string, slot: string)
    requires ConfigSlot(slot) && flags == "-c, --config " + slot
    ensures Split(flags, OptionSeparators) == ["-c", "--config", slot]
  {
    assert flags == "-c" + ", " + ("--config" + " " + slot);
    SplitTriple("-c", ", ", "--config", " ", slot, OptionSeparators);
  }

  lemma ConfigName()
    ensures CanonicalName("--config") == "config"
  {
    assert "--config"[..2] == "--" && "--config"[2..] == "config";
    CanonicalPlainName("--config");
  }

  lemma ConfigNotBool(flags: string, slot: string)
    requires ConfigSlot(slot) && flags == "-c, --config " + slot
    ensures !Contains(flags, "-no-")
  {
    assert flags[..8] == "-c, --co" && flags[7] == 'o';
    assert flags[9..] == "fig " + slot;
    MissingPair(flags, "-no-", 8);
  }

  lemma ConfigChars(flags: string, slot: string)
    requires ConfigSlot(slot) && flags == "-c, --config " + slot
    ensures '<' in flags <==> slot[0] == '<'
    ensures '[' in flags <==> slot[0] == '['
  {
    assert flags[13] == slot[0];
    assert flags == "-c, --config " + [slot[0]] + slot[1..];
    assert '<' !in "-c, --config " && '[' !in "-c, --config ";
    assert '<' !in slot[1..] && '[' !in slot[1..];
  }

  /** "-c, --config <path>": an option named "config" that requires a value;
      with "[path]" instead, its value is optional. */
  lemma ConfigDeclaration(flags: string, slot: string)
    requires ConfigSlot(slot) && flags == "-c, --config " + slot
    ensures NewOption(flags, "set configuration file", [])
      == Config.(flags := flags, required := slot == "<path>", optional := slot == "[path]")
  {
    ConfigPieces(flags, slot);
    ConfigNotBool(flags, slot);
    ConfigChars(flags, slot);
    ContainsChar(flags, '<');
    ContainsChar(flags, '[');
    ConfigName();
  }

  lemma NoTestsChars()
    ensures '<' !in "-T, --no-tests" && '[' !in "-T, --no-tests"
    ensures OccursAt("-T, --no-tests", "-no-", 5)
  {
    assert "-T, --no-tests"[5..9] == "-no-";
  }

  lemma NoTestsWithoutDashes()
    ensures RemoveAll("--no-tests", "--") == "no-tests"
  {
    MissingChar("tests", "--", '-');
    RemoveAllShrinks("tests", "--");
    assert RemoveAll("-tests", "--") == "-tests" by {
      assert "-tests"[..2][1] == 't' && "-tests"[1..] == "tests";
    }
    assert RemoveAll("o-tests", "--") == "o-tests" by {
      assert "o-tests"[..2][0] == 'o' && "o-tests"[1..] == "-tests";
    }
    assert RemoveAll("no-tests", "--") == "no-tests" by {
      assert "no-tests"[..2][0] == 'n' && "no-tests"[1..] == "o-tests";
    }
    assert "--no-tests"[..2] == "--" && "--no-tests"[2..] == "no-tests";
  }

  lemma NoTestsWithoutNo()
    ensures RemoveAll("no-tests", "no-") == "tests"
  {
    assert "no-tests"[..3] == "no-" && "no-tests"[3..] == "tests";
    MissingChar("tests", "no-", 'n');
    RemoveAllShrinks("tests", "no-");
  }

  lemma NoTestsCanonical()
    ensures CanonicalName("--no-tests") == "tests"
  {
    NoTestsWithoutDashes();
    NoTestsWithoutNo();
  }

  lemma NoTestsPieces()
    ensures Split("-T, --no-tests", OptionSeparators) == ["-T", "--no-tests"]
  {
    assert "-T, --no-tests" == "-T" + ", " + "--no-tests";
    SplitPair("-T", ", ", "--no-tests", OptionSeparators);
  }

  /** "-T, --no-tests": a boolean option named "tests". */
  lemma NegatedOption()
    ensures var o := NewOption("-T, --no-tests", "ignore tests", []);
      && o.short == "-T" && o.long == "--no-tests" && o.name == "tests"
      && !o.required && !o.optional && o.isBool
  {
    NoTestsPieces();
    NoTestsChars();
    ContainsChar("-T, --no-tests", '<');
    ContainsChar("-T, --no-tests", '[');
    ContainsAt("-T, --no-tests", "-no-");
    NoTestsCanonical();
  }

  /** The two value markers are independent tests: a spec may carry both. */
  lemma RequiredAndOptional()
    ensures var o := NewOption("-r <a> [b]", "", []);
      o.required && o.optional
  {
    assert "-r <a> [b]"[3] == '<' && "-r <a> [b]"[7] == '[';
    ContainsChar("-r <a> [b]", '<');
    ContainsChar("-r <a> [b]", '[');
  }

  lemma FooSlot(slot: string)
    requires slot == "<bar>" || slot == "[bar]"
    ensures Split("foo" + " " + slot, WordSeparators) == ["foo", slot]
    ensures WellFormedSyntax(["foo", slot]) && Slots(["foo", slot]) == [Arg(slot == "<bar>", "bar", "")]
  {
    OneSlotSyntax("foo", slot);
    assert SlotOf(slot) == Arg(slot == "<bar>", "bar", "") by {
      assert slot[1..|slot| - 1] == "bar";
    }
  }

  /** "foo <bar>" and "foo [bar]": command foo with one slot named bar,
      required or optional as its bracket says. */
  lemma SlotCommand(syntax: string, slot: string)
    requires (slot == "<bar>" || slot == "[bar]") && syntax == "foo " + slot
    ensures Split(syntax, WordSeparators) == ["foo", slot]
    ensures ExpectedArgs(["foo", slot]) == Ok([Arg(slot == "<bar>", "bar", "")])
  {
    assert syntax == "foo" + " " + slot;
    FooSlot(slot);
    ExpectedArgsCorrect(["foo", slot]);
  }

  /** A required slot after an optional one is rejected, naming both. */
  lemma RequiredAfterOptional()
    ensures ExpectedArgs(["x", "[a]", "<b>"]) == Err(InvalidDeclaration("<b>", "a"))
  {
    var words := ["x", "[a]", "<b>"];
    assert words[1..] == ["[a]", "<b>"] && words[1..][1..] == ["<b>"];
    assert SlotOf("[a]") == Arg(false, "a", "");
    assert ExpectedArgsFrom(words, []) == ExpectedArgsFrom(["<b>"], [Arg(false, "a", "")]);
  }
}
