/** Concrete runs of `parseOptions`, matching the behaviour the repository's
    tests check (cli_test.go, TestParseOptions) and the value rules of
    required options. */
module ScanExamples {
  import opened Outcomes
  import opened Declarations
  import opened OptionScanner
  import opened Text
  import opened DeclarationExamples

  const FooFlags := "-f, --foo"
  const Foo := OptionDecl(FooFlags, "add a foo", false, false, false, "-f", "--foo", "foo", "", "")

  /** Visiting orders of the lookups: every lookup sees the one declared option. */
  function NoOrder(i: nat): seq<string> { [] }
  function FooOrder(i: nat): seq<string> { [FooFlags] }
  function ConfigOrder(i: nat): seq<string> { [ConfigFlags] }

  lemma FooFlagsChars()
    ensures '<' !in FooFlags && '[' !in FooFlags && 'n' !in FooFlags
    ensures CanonicalName("--foo") == "foo"
  {
    assert "--foo"[..2] == "--" && "--foo"[2..] == "foo";
    CanonicalPlainName("--foo");
  }

  lemma FooPieces()
    ensures Split(FooFlags, OptionSeparators) == ["-f", "--foo"]
  {
    assert FooFlags == "-f" + ", " + "--foo";
    SplitPair("-f", ", ", "--foo", OptionSeparators);
  }

  /** `NewOption("-f, --foo", "add a foo", "")`, the declaration of TestParseOptions. */
  lemma FooDeclaration()
    ensures NewOption(FooFlags, "add a foo", [""]) == Foo
  {
    FooPieces();
    FooFlagsChars();
    ContainsChar(FooFlags, '<');
    ContainsChar(FooFlags, '[');
    MissingChar(FooFlags, "-no-", 'n');
  }

  lemma ScanPlainWord()
    ensures ScanOptions(map[], ["help"], NoOrder) == Ok(Scan(["help"], [], map[], [Positional]))
  {
    var argv := ["help"];
    var init := Scan([], [], map[], []);
    var fin := Scan(["help"], [], map[], [Positional]);
    assert argv[0][0] == 'h';
    assert argv[0] != "--";
    assert NoOrder(0) == [];
    assert FirstMatch(map[], NoOrder(0), "help") == None;
    assert !LooksLikeOption("help");
    assert init.(args := init.args + ["help"], roles := init.roles + [Positional]) == fin;
    assert ScanFrom(argv, NoOrder, 1, false, fin) == Ok(fin);
    assert ScanFrom(argv, NoOrder, 0, false, init) == ScanFrom(argv, NoOrder, 1, false, fin);
  }

  lemma ScanUndeclaredOption()
    ensures ScanOptions(map[], ["--foo"], NoOrder) == Ok(Scan([], ["--foo"], map[], [UnknownFlag]))
  {
    var argv := ["--foo"];
    var init := Scan([], [], map[], []);
    var fin := Scan([], ["--foo"], map[], [UnknownFlag]);
    assert argv[0] != "--" by { assert |argv[0]| == 5; }
    assert FirstMatch(map[], NoOrder(0), "--foo") == None;
    assert LooksLikeOption("--foo");
    assert init.(unknown := init.unknown + ["--foo"], roles := init.roles + [UnknownFlag]) == fin;
    assert ScanFrom(argv, NoOrder, 1, false, fin) == Ok(fin);
    assert ScanFrom(argv, NoOrder, 0, false, init) == ScanFrom(argv, NoOrder, 1, false, fin);
  }

  /** Once "-f, --foo" is declared, "--foo" binds it and is no longer unknown. */
  lemma ScanDeclaredOption()
    ensures ScanOptions(map[FooFlags := Foo], ["--foo"], FooOrder)
      == Ok(Scan([], [], map[FooFlags := Foo.(value := "true")], [Flag(FooFlags)]))
  {
    var argv := ["--foo"];
    var init := Scan([], [], map[FooFlags := Foo], []);
    var fin := Bound(init, FooFlags, "true", [Flag(FooFlags)]);
    assert fin == Scan([], [], map[FooFlags := Foo.(value := "true")], [Flag(FooFlags)]);
    assert argv[0] != "--" by { assert |argv[0]| == 5; }
    assert FirstMatch(init.options, FooOrder(0), "--foo") == Some(FooFlags);
    assert ScanFrom(argv, FooOrder, 1, false, fin) == Ok(fin);
    assert ScanFrom(argv, FooOrder, 0, false, init) == ScanFrom(argv, FooOrder, 1, false, fin);
  }

  /** An unknown option takes a following plain word along with it. */
  lemma ScanUnknownTakesValue()
    ensures ScanOptions(map[], ["--bar", "x", "y"], NoOrder)
      == Ok(Scan(["y"], ["--bar", "x"], map[], [UnknownFlag, UnknownValue, Positional]))
  {
    var argv := ["--bar", "x", "y"];
    var init := Scan([], [], map[], []);
    var mid := Scan([], ["--bar", "x"], map[], [UnknownFlag, UnknownValue]);
    var fin := Scan(["y"], ["--bar", "x"], map[], [UnknownFlag, UnknownValue, Positional]);
    assert argv[0] != "--" by { assert |argv[0]| == 5; }
    assert argv[1][0] == 'x' && argv[2][0] == 'y';
    assert argv[2] != "--";
    assert FirstMatch(map[], NoOrder(0), "--bar") == None;
    assert FirstMatch(map[], NoOrder(2), "y") == None;
    assert !LooksLikeOption("y");
    assert init.(unknown := init.unknown + ["--bar", "x"], roles := init.roles + [UnknownFlag, UnknownValue]) == mid;
    assert mid.(args := mid.args + ["y"], roles := mid.roles + [Positional]) == fin;
    assert ScanFrom(argv, NoOrder, 3, false, fin) == Ok(fin);
    assert ScanFrom(argv, NoOrder, 2, false, mid) == ScanFrom(argv, NoOrder, 3, false, fin);
    assert ScanFrom(argv, NoOrder, 0, false, init) == ScanFrom(argv, NoOrder, 2, false, mid);
  }

  /** After "--" even a declared option's alias is a positional argument. */
  lemma ScanLiteral()
    ensures ScanOptions(map[FooFlags := Foo], ["--", "--foo"], FooOrder)
      == Ok(Scan(["--foo"], [], map[FooFlags := Foo], [Separator, Positional]))
  {
    var argv := ["--", "--foo"];
    var init := Scan([], [], map[FooFlags := Foo], []);
    var mid := Scan([], [], map[FooFlags := Foo], [Separator]);
    var fin := Scan(["--foo"], [], map[FooFlags := Foo], [Separator, Positional]);
    assert argv[1] != "--" by { assert |argv[1]| == 5; }
    assert init.(roles := init.roles + [Separator]) == mid;
    assert mid.(args := mid.args + ["--foo"], roles := mid.roles + [Positional]) == fin;
    assert ScanFrom(argv, FooOrder, 2, true, fin) == Ok(fin);
    assert ScanFrom(argv, FooOrder, 1, true, mid) == ScanFrom(argv, FooOrder, 2, true, fin);
    assert ScanFrom(argv, FooOrder, 0, false, init) == ScanFrom(argv, FooOrder, 1, true, mid);
  }

  /** A required option binds the token after it. */
  lemma ScanRequiredBinds()
    ensures ScanOptions(map[ConfigFlags := Config], ["--config", "a.toml"], ConfigOrder)
      == Ok(Scan([], [], map[ConfigFlags := Config.(value := "a.toml")], [Flag(ConfigFlags), FlagValue(ConfigFlags)]))
  {
    var argv := ["--config", "a.toml"];
    var init := Scan([], [], map[ConfigFlags := Config], []);
    var fin := Bound(init, ConfigFlags, "a.toml", [Flag(ConfigFlags), FlagValue(ConfigFlags)]);
    assert fin == Scan([], [], map[ConfigFlags := Config.(value := "a.toml")], [Flag(ConfigFlags), FlagValue(ConfigFlags)]);
    assert argv[0] != "--" by { assert |argv[0]| == 8; }
    assert argv[1][0] == 'a';
    assert FirstMatch(init.options, ConfigOrder(0), "--config") == Some(ConfigFlags);
    assert ScanFrom(argv, ConfigOrder, 2, false, fin) == Ok(fin);
    assert ScanFrom(argv, ConfigOrder, 0, false, init) == ScanFrom(argv, ConfigOrder, 2, false, fin);
  }

  /** A required option followed by another option is an error. */
  lemma ScanRequiredRejectsOption()
    ensures ScanOptions(map[ConfigFlags := Config], ["--config", "--x"], ConfigOrder)
      == Err(OptionMissingArgument(ConfigFlags, "--x"))
  {
    var argv := ["--config", "--x"];
    var init := Scan([], [], map[ConfigFlags := Config], []);
    assert argv[0] != "--" by { assert |argv[0]| == 8; }
    assert argv[1][0] == '-' && argv[1] != "-";
    assert FirstMatch(init.options, ConfigOrder(0), "--config") == Some(ConfigFlags);
  }

  /** The bound check before the value lookup can never fire, so a required
      option given as the last token reads past the end of the slice. */
  lemma ScanRequiredLast()
    ensures ScanOptions(map[ConfigFlags := Config], ["--config"], ConfigOrder) == Err(Panic(ValuePastEnd))
  {
    var argv := ["--config"];
    var init := Scan([], [], map[ConfigFlags := Config], []);
    assert argv[0] != "--" by { assert |argv[0]| == 8; }
    assert FirstMatch(init.options, ConfigOrder(0), "--config") == Some(ConfigFlags);
  }

  /** `optionFor` (cli_test.go, TestOptionFor): nothing before the declaration,
      then both aliases and nothing else. */
  lemma LookupVersion()
    ensures FirstMatch(map[], [], "-v") == None
    ensures FirstMatch(map[VersionFlags := Version], [VersionFlags], "-v") == Some(VersionFlags)
    ensures FirstMatch(map[VersionFlags := Version], [VersionFlags], "--version") == Some(VersionFlags)
    ensures FirstMatch(map[VersionFlags := Version], [VersionFlags], "-f") == None
    ensures FirstMatch(map[VersionFlags := Version], [VersionFlags], "--foo") == None
  {
    assert "-f"[1] != "-v"[1];
    assert "--foo"[2] != "--version"[2];
    assert |"--foo"| != |"-v"|;
  }

  /** A short-only option has an empty long alias, so it matches an empty token. */
  lemma {:induction false} ShortOnlyMatchesEmpty(flags: string, description: string)
    requires NoSeparator(flags, OptionSeparators)
    ensures Matches(NewOption(flags, description, []), "")
  {
    NewOptionDerivation(flags, description, []);
  }
}
