/** What `parseOptions` guarantees, stated over the trace of roles the scan
    assigns to the token positions: the positional and unknown lists are the
    tokens of those roles in input order, every "--" is dropped, everything
    after the first "--" is positional, options consume values exactly as
    the source's three branches decide, and unmatched options keep their
    values. */
module ScanTrace {
  import opened Outcomes
  import opened Declarations
  import opened OptionScanner

  /** The tokens whose role is Positional, in input order. */
  function ArgsOf(argv: seq<string>, roles: seq<Role>): seq<string>
    requires |roles| <= |argv|
  {
    if roles == [] then []
    else
      var n := |roles| - 1;
      ArgsOf(argv, roles[..n]) + (if roles[n] == Positional then [argv[n]] else [])
  }

  predicate IsUnknownRole(r: Role)
  {
    r == UnknownFlag || r == UnknownValue
  }

  /** The tokens recorded as unknown, in input order. */
  function UnknownOf(argv: seq<string>, roles: seq<Role>): seq<string>
    requires |roles| <= |argv|
  {
    if roles == [] then []
    else
      var n := |roles| - 1;
      UnknownOf(argv, roles[..n]) + (if IsUnknownRole(roles[n]) then [argv[n]] else [])
  }

  /** The value of option `k` after the tokens with the given roles: the
      value token of its last match, "true" if that match took no value, 
      and `initial` if it never matched. */
  function BoundValue(argv: seq<string>, roles: seq<Role>, k: string, initial: string): string
    requires |roles| <= |argv|
  {
    if roles == [] then initial
    else
      var n := |roles| - 1;
      if roles[n] == FlagValue(k) then argv[n]
      else if roles[n] == Flag(k) then "true"
      else BoundValue(argv, roles[..n], k, initial)
  }

  /** The role of position `j` is the one the source's branches give it. */
  predicate RoleAt(o0: map<string, OptionDecl>, argv: seq<string>, orders: nat -> seq<string>, roles: seq<Role>, j: nat)
    requires j < |roles| <= |argv|
  {
    var t := argv[j];
    var lit := "--" in argv[..j];
    var found := FirstMatch(o0, orders(j), t);
    && (roles[j] == Separator <==> t == "--")
    && (lit && t != "--" ==> roles[j] == Positional)
    && (roles[j].Flag? ==>
          && !lit && found == Some(roles[j].key)
          && (o0[roles[j].key].required ==> j + 1 < |roles| && roles[j + 1] == FlagValue(roles[j].key))
          && (o0[roles[j].key].optional && j + 1 < |argv| && IsValue(argv[j + 1]) ==>
                j + 1 < |roles| && roles[j + 1] == FlagValue(roles[j].key)))
    && (roles[j].FlagValue? ==>
          && 0 < j && roles[j - 1] == Flag(roles[j].key) && IsValue(t) && roles[j].key in o0
          && (o0[roles[j].key].required || o0[roles[j].key].optional))
    && (roles[j] == UnknownFlag ==>
          && !lit && found.None? && LooksLikeOption(t)
          && (j + 1 < |argv| && argv[j + 1] != "" && argv[j + 1][0] != '-' ==>
                j + 1 < |roles| && roles[j + 1] == UnknownValue))
    && (roles[j] == UnknownValue ==> 0 < j && roles[j - 1] == UnknownFlag && t != "" && t[0] != '-')
    && (roles[j] == Positional ==> t != "--" && (lit || (found.None? && !LooksLikeOption(t))))
  }

  predicate Trace(o0: map<string, OptionDecl>, argv: seq<string>, orders: nat -> seq<string>, roles: seq<Role>)
  {
    |roles| <= |argv| && forall j :: 0 <= j < |roles| ==> RoleAt(o0, argv, orders, roles, j)
  }

  /** Every option is its declaration with the value the trace binds. */
  predicate Values(o0: map<string, OptionDecl>, argv: seq<string>, roles: seq<Role>, options: map<string, OptionDecl>)
    requires |roles| <= |argv|
  {
    && options.Keys == o0.Keys
    && forall k :: k in o0 ==> options[k] == o0[k].(value := BoundValue(argv, roles, k, o0[k].value))
  }

  /** The scan state after `i` tokens agrees with its trace. */
  predicate Inv(o0: map<string, OptionDecl>, argv: seq<string>, orders: nat -> seq<string>, i: nat, literal: bool, acc: Scan)
  {
    && i <= |argv| && |acc.roles| == i
    && Trace(o0, argv, orders, acc.roles)
    && acc.args == ArgsOf(argv, acc.roles)
    && acc.unknown == UnknownOf(argv, acc.roles)
    && (literal <==> "--" in argv[..i])
    && Values(o0, argv, acc.roles, acc.options)
  }

  // ---------------------------------------------------------------------
  // Extending a trace

  lemma {:induction false} Snoc(argv: seq<string>, roles: seq<Role>, r: Role)
    requires |roles| < |argv|
    ensures ArgsOf(argv, roles + [r]) == ArgsOf(argv, roles) + (if r == Positional then [argv[|roles|]] else [])
    ensures UnknownOf(argv, roles + [r]) == UnknownOf(argv, roles) + (if IsUnknownRole(r) then [argv[|roles|]] else [])
  {
    assert (roles + [r])[..|roles|] == roles;
  }

  lemma {:induction false} SnocValue(argv: seq<string>, roles: seq<Role>, r: Role, k: string, initial: string)
    requires |roles| < |argv|
    ensures BoundValue(argv, roles + [r], k, initial) ==
      (if r == FlagValue(k) then argv[|roles|] else if r == Flag(k) then "true" else BoundValue(argv, roles, k, initial))
  {
    assert (roles + [r])[..|roles|] == roles;
  }

  lemma {:induction false} LiteralSnoc(argv: seq<string>, i: nat)
    requires i < |argv|
    ensures "--" in argv[..i + 1] <==> "--" in argv[..i] || argv[i] == "--"
  {
    assert argv[..i + 1] == argv[..i] + [argv[i]];
  }

  lemma {:induction false} RoleAtStable(o0: map<string, OptionDecl>, argv: seq<string>, orders: nat -> seq<string>, roles: seq<Role>, ext: seq<Role>, j: nat)
    requires j < |roles| && |roles + ext| <= |argv|
    requires RoleAt(o0, argv, orders, roles, j)
    ensures RoleAt(o0, argv, orders, roles + ext, j)
  {
    var roles' := roles + ext;
    assert roles'[j] == roles[j];
    assert 0 < j ==> roles'[j - 1] == roles[j - 1];
    assert j + 1 < |roles| ==> roles'[j + 1] == roles[j + 1];
  }

  lemma {:induction false} ExtendTrace(o0: map<string, OptionDecl>, argv: seq<string>, orders: nat -> seq<string>, roles: seq<Role>, ext: seq<Role>)
    requires Trace(o0, argv, orders, roles) && |roles + ext| <= |argv|
    requires forall j :: |roles| <= j < |roles + ext| ==> RoleAt(o0, argv, orders, roles + ext, j)
    ensures Trace(o0, argv, orders, roles + ext)
  {
    forall j | 0 <= j < |roles| ensures RoleAt(o0, argv, orders, roles + ext, j) {
      RoleAtStable(o0, argv, orders, roles, ext, j);
    }
  }

  /** The option map of an invariant state differs from the declared one only
      in values, so lookups agree. */
  lemma {:induction false} LookupAgrees(o0: map<string, OptionDecl>, argv: seq<string>, orders: nat -> seq<string>, i: nat, literal: bool, acc: Scan, arg: string)
    requires Inv(o0, argv, orders, i, literal, acc)
    ensures FirstMatch(acc.options, orders(i), arg) == FirstMatch(o0, orders(i), arg)
  {
    FirstMatchIgnoresValues(o0, acc.options, orders(i), arg);
  }

  /** A role that binds nothing leaves every value as it was. */
  lemma {:induction false} ValuesKeep(o0: map<string, OptionDecl>, argv: seq<string>, roles: seq<Role>, options: map<string, OptionDecl>, ext: seq<Role>)
    requires |roles| + |ext| <= |argv| && 1 <= |ext| <= 2
    requires forall j :: 0 <= j < |ext| ==> !ext[j].Flag? && !ext[j].FlagValue?
    requires Values(o0, argv, roles, options)
    ensures Values(o0, argv, roles + ext, options)
  {
    forall k | k in o0
      ensures BoundValue(argv, roles + ext, k, o0[k].value) == BoundValue(argv, roles, k, o0[k].value)
    {
      SnocValue(argv, roles, ext[0], k, o0[k].value);
      if |ext| == 2 {
        SnocValue(argv, roles + [ext[0]], ext[1], k, o0[k].value);
        assert roles + ext == roles + [ext[0]] + [ext[1]];
      } else {
        assert roles + ext == roles + [ext[0]];
      }
    }
  }

  /** Binding `v` to `k` with the roles `ext` keeps the values in step with
      the trace. */
  lemma {:induction false} ValuesBind(o0: map<string, OptionDecl>, argv: seq<string>, roles: seq<Role>, options: map<string, OptionDecl>, k: string, v: string, ext: seq<Role>)
    requires |roles| + |ext| <= |argv| && k in options
    requires (ext == [Flag(k)] && v == "true") || (ext == [Flag(k), FlagValue(k)] && v == argv[|roles| + 1])
    requires Values(o0, argv, roles, options)
    ensures Values(o0, argv, roles + ext, options[k := options[k].(value := v)])
  {
    var options' := options[k := options[k].(value := v)];
    forall k' | k' in o0
      ensures options'[k'] == o0[k'].(value := BoundValue(argv, roles + ext, k', o0[k'].value))
    {
      SnocValue(argv, roles, Flag(k), k', o0[k'].value);
      if |ext| == 2 {
        SnocValue(argv, roles + [Flag(k)], FlagValue(k), k', o0[k'].value);
        assert roles + ext == roles + [Flag(k)] + [FlagValue(k)];
      }
    }
  }

  lemma {:induction false} StepSeparator(o0: map<string, OptionDecl>, argv: seq<string>, orders: nat -> seq<string>, i: nat, literal: bool, acc: Scan)
    requires Inv(o0, argv, orders, i, literal, acc) && i < |argv| && argv[i] == "--"
    ensures Inv(o0, argv, orders, i + 1, true, acc.(roles := acc.roles + [Separator]))
  {
    var roles' := acc.roles + [Separator];
    Snoc(argv, acc.roles, Separator);
    LiteralSnoc(argv, i);
    assert RoleAt(o0, argv, orders, roles', i);
    ExtendTrace(o0, argv, orders, acc.roles, [Separator]);
    ValuesKeep(o0, argv, acc.roles, acc.options, [Separator]);
  }

  lemma {:induction false} StepPositional(o0: map<string, OptionDecl>, argv: seq<string>, orders: nat -> seq<string>, i: nat, literal: bool, acc: Scan)
    requires Inv(o0, argv, orders, i, literal, acc) && i < |argv| && argv[i] != "--"
    requires literal || (FirstMatch(acc.options, orders(i), argv[i]).None? && !LooksLikeOption(argv[i]))
    ensures Inv(o0, argv, orders, i + 1, literal, acc.(args := acc.args + [argv[i]], roles := acc.roles + [Positional]))
  {
    var roles' := acc.roles + [Positional];
    Snoc(argv, acc.roles, Positional);
    LiteralSnoc(argv, i);
    LookupAgrees(o0, argv, orders, i, literal, acc, argv[i]);
    assert RoleAt(o0, argv, orders, roles', i);
    ExtendTrace(o0, argv, orders, acc.roles, [Positional]);
    ValuesKeep(o0, argv, acc.roles, acc.options, [Positional]);
  }

  lemma {:induction false} StepUnknown(o0: map<string, OptionDecl>, argv: seq<string>, orders: nat -> seq<string>, i: nat, literal: bool, acc: Scan)
    requires Inv(o0, argv, orders, i, literal, acc) && i < |argv| && argv[i] != "--" && !literal
    requires FirstMatch(acc.options, orders(i), argv[i]).None? && LooksLikeOption(argv[i])
    requires !(i + 1 < |argv| && argv[i + 1] != "" && argv[i + 1][0] != '-')
    ensures Inv(o0, argv, orders, i + 1, literal, acc.(unknown := acc.unknown + [argv[i]], roles := acc.roles + [UnknownFlag]))
  {
    var roles' := acc.roles + [UnknownFlag];
    Snoc(argv, acc.roles, UnknownFlag);
    LiteralSnoc(argv, i);
    LookupAgrees(o0, argv, orders, i, literal, acc, argv[i]);
    assert RoleAt(o0, argv, orders, roles', i);
    ExtendTrace(o0, argv, orders, acc.roles, [UnknownFlag]);
    ValuesKeep(o0, argv, acc.roles, acc.options, [UnknownFlag]);
  }

  /** The roles an unknown option and the value it swallows take. */
  lemma {:induction false} UnknownPairRoles(o0: map<string, OptionDecl>, argv: seq<string>, orders: nat -> seq<string>, roles: seq<Role>)
    requires Trace(o0, argv, orders, roles) && |roles| + 1 < |argv|
    requires argv[|roles|] != "--" && "--" !in argv[..|roles|]
    requires FirstMatch(o0, orders(|roles|), argv[|roles|]).None? && LooksLikeOption(argv[|roles|])
    requires argv[|roles| + 1] != "" && argv[|roles| + 1][0] != '-'
    ensures Trace(o0, argv, orders, roles + [UnknownFlag, UnknownValue])
  {
    var i := |roles|;
    var roles' := roles + [UnknownFlag, UnknownValue];
    LiteralSnoc(argv, i);
    assert RoleAt(o0, argv, orders, roles', i);
    assert RoleAt(o0, argv, orders, roles', i + 1);
    ExtendTrace(o0, argv, orders, roles, [UnknownFlag, UnknownValue]);
  }

  lemma {:induction false} StepUnknownPair(o0: map<string, OptionDecl>, argv: seq<string>, orders: nat -> seq<string>, i: nat, literal: bool, acc: Scan)
    requires Inv(o0, argv, orders, i, literal, acc) && i < |argv| && argv[i] != "--" && !literal
    requires FirstMatch(acc.options, orders(i), argv[i]).None? && LooksLikeOption(argv[i])
    requires i + 1 < |argv| && argv[i + 1] != "" && argv[i + 1][0] != '-'
    ensures Inv(o0, argv, orders, i + 2, literal,
      acc.(unknown := acc.unknown + [argv[i], argv[i + 1]], roles := acc.roles + [UnknownFlag, UnknownValue]))
  {
    var mid := acc.roles + [UnknownFlag];
    var roles' := acc.roles + [UnknownFlag, UnknownValue];
    assert roles' == mid + [UnknownValue];
    Snoc(argv, acc.roles, UnknownFlag);
    Snoc(argv, mid, UnknownValue);
    LiteralSnoc(argv, i);
    LiteralSnoc(argv, i + 1);
    LookupAgrees(o0, argv, orders, i, literal, acc, argv[i]);
    UnknownPairRoles(o0, argv, orders, acc.roles);
    ValuesKeep(o0, argv, acc.roles, acc.options, [UnknownFlag, UnknownValue]);
    assert acc.unknown + [argv[i], argv[i + 1]] == acc.unknown + [argv[i]] + [argv[i + 1]];
  }

  lemma {:induction false} StepFlag(o0: map<string, OptionDecl>, argv: seq<string>, orders: nat -> seq<string>, i: nat, literal: bool, acc: Scan, k: string)
    requires Inv(o0, argv, orders, i, literal, acc) && i < |argv| && argv[i] != "--" && !literal
    requires FirstMatch(acc.options, orders(i), argv[i]) == Some(k)
    requires !acc.options[k].required
    requires !(acc.options[k].optional && i + 1 < |argv| && IsValue(argv[i + 1]))
    ensures Inv(o0, argv, orders, i + 1, literal, Bound(acc, k, "true", [Flag(k)]))
  {
    var roles' := acc.roles + [Flag(k)];
    Snoc(argv, acc.roles, Flag(k));
    LiteralSnoc(argv, i);
    LookupAgrees(o0, argv, orders, i, literal, acc, argv[i]);
    assert RoleAt(o0, argv, orders, roles', i);
    ExtendTrace(o0, argv, orders, acc.roles, [Flag(k)]);
    ValuesBind(o0, argv, acc.roles, acc.options, k, "true", [Flag(k)]);
  }

  lemma {:induction false} StepFlagValue(o0: map<string, OptionDecl>, argv: seq<string>, orders: nat -> seq<string>, i: nat, literal: bool, acc: Scan, k: string)
    requires Inv(o0, argv, orders, i, literal, acc) && i < |argv| && argv[i] != "--" && !literal
    requires FirstMatch(acc.options, orders(i), argv[i]) == Some(k)
    requires acc.options[k].required || acc.options[k].optional
    requires i + 1 < |argv| && IsValue(argv[i + 1])
    ensures Inv(o0, argv, orders, i + 2, literal, Bound(acc, k, argv[i + 1], [Flag(k), FlagValue(k)]))
  {
    var mid := acc.roles + [Flag(k)];
    var roles' := acc.roles + [Flag(k), FlagValue(k)];
    assert roles' == mid + [FlagValue(k)];
    Snoc(argv, acc.roles, Flag(k));
    Snoc(argv, mid, FlagValue(k));
    LiteralSnoc(argv, i);
    LiteralSnoc(argv, i + 1);
    LookupAgrees(o0, argv, orders, i, literal, acc, argv[i]);
    assert RoleAt(o0, argv, orders, roles', i);
    assert RoleAt(o0, argv, orders, roles', i + 1);
    ExtendTrace(o0, argv, orders, acc.roles, [Flag(k), FlagValue(k)]);
    ValuesBind(o0, argv, acc.roles, acc.options, k, argv[i + 1], [Flag(k), FlagValue(k)]);
  }

  // ---------------------------------------------------------------------
  // The whole scan

  /** A finished scan agrees with a trace through all of its input. */
  predicate Traced(o0: map<string, OptionDecl>, argv: seq<string>, orders: nat -> seq<string>, s: Scan)
  {
    && |s.roles| == |argv|
    && Trace(o0, argv, orders, s.roles)
    && s.args == ArgsOf(argv, s.roles)
    && s.unknown == UnknownOf(argv, s.roles)
    && Values(o0, argv, s.roles, s.options)
  }

  lemma {:induction false} ScanFromTraced(o0: map<string, OptionDecl>, argv: seq<string>, orders: nat -> seq<string>, i: nat, literal: bool, acc: Scan)
    requires Inv(o0, argv, orders, i, literal, acc)
    requires ScanFrom(argv, orders, i, literal, acc).Ok?
    ensures Traced(o0, argv, orders, ScanFrom(argv, orders, i, literal, acc).value)
    decreases |argv| - i
  {
    if i < |argv| {
      var arg := argv[i];
      if arg == "--" {
        StepSeparator(o0, argv, orders, i, literal, acc);
        ScanFromTraced(o0, argv, orders, i + 1, true, acc.(roles := acc.roles + [Separator]));
      } else if literal {
        StepPositional(o0, argv, orders, i, literal, acc);
        ScanFromTraced(o0, argv, orders, i + 1, literal, acc.(args := acc.args + [arg], roles := acc.roles + [Positional]));
      } else {
        match FirstMatch(acc.options, orders(i), arg)
        case Some(k) =>
          var o := acc.options[k];
          if o.required || (o.optional && i + 1 < |argv| && IsValue(argv[i + 1])) {
            StepFlagValue(o0, argv, orders, i, literal, acc, k);
            ScanFromTraced(o0, argv, orders, i + 2, literal, Bound(acc, k, argv[i + 1], [Flag(k), FlagValue(k)]));
          } else {
            StepFlag(o0, argv, orders, i, literal, acc, k);
            ScanFromTraced(o0, argv, orders, i + 1, literal, Bound(acc, k, "true", [Flag(k)]));
          }
        case None =>
          if LooksLikeOption(arg) {
            if i + 1 < |argv| && argv[i + 1] != "" && argv[i + 1][0] != '-' {
              StepUnknownPair(o0, argv, orders, i, literal, acc);
              ScanFromTraced(o0, argv, orders, i + 2, literal,
                acc.(unknown := acc.unknown + [arg, argv[i + 1]], roles := acc.roles + [UnknownFlag, UnknownValue]));
            } else {
              StepUnknown(o0, argv, orders, i, literal, acc);
              ScanFromTraced(o0, argv, orders, i + 1, literal, acc.(unknown := acc.unknown + [arg], roles := acc.roles + [UnknownFlag]));
            }
          } else {
            StepPositional(o0, argv, orders, i, literal, acc);
            ScanFromTraced(o0, argv, orders, i + 1, literal, acc.(args := acc.args + [arg], roles := acc.roles + [Positional]));
          }
      }
    }
  }

  /** Every successful `parseOptions` has a trace: positional and unknown
      tokens are the tokens of their roles, in input order and at disjoint
      positions, and every option holds the value its last match bound. */
  lemma {:induction false} ScanOptionsTraced(o0: map<string, OptionDecl>, argv: seq<string>, orders: nat -> seq<string>)
    requires ScanOptions(o0, argv, orders).Ok?
    ensures Traced(o0, argv, orders, ScanOptions(o0, argv, orders).value)
  {
    var init := Scan([], [], o0, []);
    assert Values(o0, argv, [], o0) by {
      forall k | k in o0 ensures o0[k] == o0[k].(value := o0[k].value) { }
    }
    assert Inv(o0, argv, orders, 0, false, init);
    ScanFromTraced(o0, argv, orders, 0, false, init);
  }

  // ---------------------------------------------------------------------
  // Consequences

  /** A token never seen in a positional role is not among the arguments. */
  lemma {:induction false} ArgsOfExcludes(argv: seq<string>, roles: seq<Role>, x: string)
    requires |roles| <= |argv|
    requires forall j :: 0 <= j < |roles| && roles[j] == Positional ==> argv[j] != x
    ensures x !in ArgsOf(argv, roles)
  {
    if roles != [] {
      var n := |roles| - 1;
      assert forall j :: 0 <= j < n ==> roles[..n][j] == roles[j];
      ArgsOfExcludes(argv, roles[..n], x);
    }
  }

  /** A token never seen in an unknown role is not among the unknown tokens. */
  lemma {:induction false} UnknownOfExcludes(argv: seq<string>, roles: seq<Role>, x: string)
    requires |roles| <= |argv|
    requires forall j :: 0 <= j < |roles| && IsUnknownRole(roles[j]) ==> argv[j] != x
    ensures x !in UnknownOf(argv, roles)
  {
    if roles != [] {
      var n := |roles| - 1;
      assert forall j :: 0 <= j < n ==> roles[..n][j] == roles[j];
      UnknownOfExcludes(argv, roles[..n], x);
    }
  }

  /** A bound value is the initial one, "true", or a token in a value role. */
  lemma {:induction false} BoundValueSource(argv: seq<string>, roles: seq<Role>, k: string, initial: string)
    requires |roles| <= |argv|
    ensures var v := BoundValue(argv, roles, k, initial);
      v == initial || v == "true" || exists j :: 0 <= j < |roles| && roles[j] == FlagValue(k) && argv[j] == v
  {
    if roles != [] {
      var n := |roles| - 1;
      if roles[n] != FlagValue(k) && roles[n] != Flag(k) {
        BoundValueSource(argv, roles[..n], k, initial);
        var v := BoundValue(argv, roles[..n], k, initial);
        if j :| 0 <= j < n && roles[..n][j] == FlagValue(k) && argv[j] == v {
          assert roles[j] == FlagValue(k);
        }
      }
    }
  }

  /** Without any role of option `k`, its value is the initial one. */
  lemma {:induction false} BoundValueUntouched(argv: seq<string>, roles: seq<Role>, k: string, initial: string)
    requires |roles| <= |argv|
    requires forall j :: 0 <= j < |roles| ==> roles[j] != Flag(k) && roles[j] != FlagValue(k)
    ensures BoundValue(argv, roles, k, initial) == initial
  {
    if roles != [] {
      var n := |roles| - 1;
      assert forall j :: 0 <= j < n ==> roles[..n][j] == roles[j];
      BoundValueUntouched(argv, roles[..n], k, initial);
    }
  }

  /** No "--" token is ever a positional argument, an unknown token or an
      option value: every one of them is dropped. */
  lemma {:induction false} SeparatorsDropped(o0: map<string, OptionDecl>, argv: seq<string>, orders: nat -> seq<string>)
    requires ScanOptions(o0, argv, orders).Ok?
    ensures var s := ScanOptions(o0, argv, orders).value;
      && "--" !in s.args && "--" !in s.unknown
      && forall k :: k in s.options && s.options[k].value == "--" ==> k in o0 && o0[k].value == "--"
  {
    var s := ScanOptions(o0, argv, orders).value;
    ScanOptionsTraced(o0, argv, orders);
    forall j | 0 <= j < |s.roles| && s.roles[j] != Separator ensures argv[j] != "--" {
      assert RoleAt(o0, argv, orders, s.roles, j);
    }
    ArgsOfExcludes(argv, s.roles, "--");
    UnknownOfExcludes(argv, s.roles, "--");
    forall k | k in s.options && s.options[k].value == "--" ensures k in o0 && o0[k].value == "--" {
      BoundValueSource(argv, s.roles, k, o0[k].value);
    }
  }

  /** Literal mode: after a "--", every token other than "--" is positional. */
  lemma {:induction false} LiteralAfterSeparator(o0: map<string, OptionDecl>, argv: seq<string>, orders: nat -> seq<string>, s: Scan, m: nat, j: nat)
    requires ScanOptions(o0, argv, orders) == Ok(s)
    requires m < j < |argv| && argv[m] == "--" && argv[j] != "--"
    ensures j < |s.roles| && s.roles[j] == Positional
  {
    ScanOptionsTraced(o0, argv, orders);
    assert argv[..j][m] == "--";
    assert RoleAt(o0, argv, orders, s.roles, j);
  }

  /** An option that never matched keeps its declaration and its old value. */
  lemma {:induction false} UnmatchedKeepsValue(o0: map<string, OptionDecl>, argv: seq<string>, orders: nat -> seq<string>, s: Scan, k: string)
    requires ScanOptions(o0, argv, orders) == Ok(s) && k in o0
    requires forall j :: 0 <= j < |s.roles| ==> s.roles[j] != Flag(k)
    ensures k in s.options && s.options[k] == o0[k]
  {
    ScanOptionsTraced(o0, argv, orders);
    forall j | 0 <= j < |s.roles| ensures s.roles[j] != FlagValue(k) {
      assert RoleAt(o0, argv, orders, s.roles, j);
    }
    BoundValueUntouched(argv, s.roles, k, o0[k].value);
  }

  /** A matched option is a declared one with the token as an alias. It
      consumes the next token exactly when it requires a value, or when its
      value is optional and the next token exists, is non-empty and does not
      start with '-' (a bare "-" counts as a value); a boolean option
      consumes nothing. A consumed value always passes that test. */
  lemma {:induction false} FlagConsumption(o0: map<string, OptionDecl>, argv: seq<string>, orders: nat -> seq<string>, s: Scan, j: nat, k: string)
    requires ScanOptions(o0, argv, orders) == Ok(s)
    requires j < |s.roles| && s.roles[j] == Flag(k)
    ensures |s.roles| == |argv| && k in o0 && Matches(o0[k], argv[j])
    ensures (j + 1 < |argv| && s.roles[j + 1] == FlagValue(k))
        <==> (o0[k].required || (o0[k].optional && j + 1 < |argv| && IsValue(argv[j + 1])))
    ensures o0[k].required ==> j + 1 < |argv| && IsValue(argv[j + 1])
  {
    ScanOptionsTraced(o0, argv, orders);
    assert RoleAt(o0, argv, orders, s.roles, j);
    if j + 1 < |argv| {
      assert RoleAt(o0, argv, orders, s.roles, j + 1);
    }
  }

  /** An option-like token outside literal mode that is not "--" and matches
      no declared alias is recorded as unknown, and it takes the next token
      along exactly when that token is non-empty and does not start with '-'. */
  lemma {:induction false} UnknownRecorded(o0: map<string, OptionDecl>, argv: seq<string>, orders: nat -> seq<string>, s: Scan, j: nat)
    requires ScanOptions(o0, argv, orders) == Ok(s)
    requires j < |argv| && "--" !in argv[..j] && argv[j] != "--"
    requires LooksLikeOption(argv[j]) && FirstMatch(o0, orders(j), argv[j]).None?
    ensures |s.roles| == |argv| && s.roles[j] == UnknownFlag
    ensures (j + 1 < |argv| && s.roles[j + 1] == UnknownValue) <==> (j + 1 < |argv| && argv[j + 1] != "" && argv[j + 1][0] != '-')
  {
    ScanOptionsTraced(o0, argv, orders);
    assert RoleAt(o0, argv, orders, s.roles, j);
    if j + 1 < |argv| {
      assert RoleAt(o0, argv, orders, s.roles, j + 1);
    }
  }

  // ---------------------------------------------------------------------
  // Failures

  /** Token `j` is read outside literal mode and matches the declared option
      `k`, which requires a value. */
  predicate RequiredAt(o0: map<string, OptionDecl>, argv: seq<string>, orders: nat -> seq<string>, j: nat, k: string)
    requires j < |argv|
  {
    "--" !in argv[..j] && argv[j] != "--" && FirstMatch(o0, orders(j), argv[j]) == Some(k) && o0[k].required
  }

  /** Token `j` is read outside literal mode, is option-like and matches no
      declared option. */
  predicate UnmatchedAt(o0: map<string, OptionDecl>, argv: seq<string>, orders: nat -> seq<string>, j: nat)
    requires j < |argv|
  {
    "--" !in argv[..j] && argv[j] != "--" && FirstMatch(o0, orders(j), argv[j]).None? && LooksLikeOption(argv[j])
  }

  /** The tokens that account for a failure of `parseOptions`: a required
      option followed by an option-like token, by nothing or by an empty
      token, or an unknown option followed by an empty token. No other
      failure can arise. */
  predicate FailureJustified(o0: map<string, OptionDecl>, argv: seq<string>, orders: nat -> seq<string>, e: Failure)
  {
    match e
    case OptionMissingArgument(flags, got) =>
      exists j: nat, k: string :: j + 1 < |argv| && k in o0 && RequiredAt(o0, argv, orders, j, k)
        && argv[j + 1] == got && got != "" && got[0] == '-' && got != "-" && flags == o0[k].flags
    case Panic(site) =>
      || (site == ValuePastEnd && exists k: string :: k in o0 && |argv| > 0 && RequiredAt(o0, argv, orders, |argv| - 1, k))
      || (site == EmptyValue && exists j: nat, k: string :: j + 1 < |argv| && k in o0 && RequiredAt(o0, argv, orders, j, k) && argv[j + 1] == "")
      || (site == EmptyLookahead && exists j: nat :: j + 1 < |argv| && UnmatchedAt(o0, argv, orders, j) && argv[j + 1] == "")
    case _ => false
  }

  /** The declaration behind a key of an invariant state. */
  lemma {:induction false} DeclarationAgrees(o0: map<string, OptionDecl>, argv: seq<string>, orders: nat -> seq<string>, i: nat, literal: bool, acc: Scan, k: string)
    requires Inv(o0, argv, orders, i, literal, acc) && k in acc.options
    ensures k in o0 && acc.options[k].required == o0[k].required
    ensures acc.options[k].optional == o0[k].optional && acc.options[k].flags == o0[k].flags
  {
  }

  lemma {:induction false} ScanFromFails(o0: map<string, OptionDecl>, argv: seq<string>, orders: nat -> seq<string>, i: nat, literal: bool, acc: Scan)
    requires Inv(o0, argv, orders, i, literal, acc)
    requires ScanFrom(argv, orders, i, literal, acc).Err?
    ensures FailureJustified(o0, argv, orders, ScanFrom(argv, orders, i, literal, acc).error)
    decreases |argv| - i
  {
    var arg := argv[i];
    if arg == "--" {
      StepSeparator(o0, argv, orders, i, literal, acc);
      ScanFromFails(o0, argv, orders, i + 1, true, acc.(roles := acc.roles + [Separator]));
    } else if literal {
      StepPositional(o0, argv, orders, i, literal, acc);
      ScanFromFails(o0, argv, orders, i + 1, literal, acc.(args := acc.args + [arg], roles := acc.roles + [Positional]));
    } else {
      LookupAgrees(o0, argv, orders, i, literal, acc, arg);
      match FirstMatch(acc.options, orders(i), arg)
      case Some(k) =>
        DeclarationAgrees(o0, argv, orders, i, literal, acc, k);
        var o := acc.options[k];
        if o.required && (i + 1 == |argv| || !IsValue(argv[i + 1])) {
          assert RequiredAt(o0, argv, orders, i, k);
        } else if o.required || (o.optional && i + 1 < |argv| && IsValue(argv[i + 1])) {
          StepFlagValue(o0, argv, orders, i, literal, acc, k);
          ScanFromFails(o0, argv, orders, i + 2, literal, Bound(acc, k, argv[i + 1], [Flag(k), FlagValue(k)]));
        } else {
          StepFlag(o0, argv, orders, i, literal, acc, k);
          ScanFromFails(o0, argv, orders, i + 1, literal, Bound(acc, k, "true", [Flag(k)]));
        }
      case None =>
        if LooksLikeOption(arg) {
          if i + 1 < |argv| && argv[i + 1] == "" {
            assert UnmatchedAt(o0, argv, orders, i);
          } else if i + 1 < |argv| && argv[i + 1][0] != '-' {
            StepUnknownPair(o0, argv, orders, i, literal, acc);
            ScanFromFails(o0, argv, orders, i + 2, literal,
              acc.(unknown := acc.unknown + [arg, argv[i + 1]], roles := acc.roles + [UnknownFlag, UnknownValue]));
          } else {
            StepUnknown(o0, argv, orders, i, literal, acc);
            ScanFromFails(o0, argv, orders, i + 1, literal, acc.(unknown := acc.unknown + [arg], roles := acc.roles + [UnknownFlag]));
          }
        } else {
          StepPositional(o0, argv, orders, i, literal, acc);
          ScanFromFails(o0, argv, orders, i + 1, literal, acc.(args := acc.args + [arg], roles := acc.roles + [Positional]));
        }
    }
  }

  /** Every failure of `parseOptions` is accounted for by the tokens: a
      required option whose next token is option-like (`optionMissingArgument`),
      missing (the index past the end) or empty, or an unknown option followed
      by an empty token. The unknown-option, missing-argument and help exits
      never come from this stage. */
  lemma {:induction false} ScanOptionsFails(o0: map<string, OptionDecl>, argv: seq<string>, orders: nat -> seq<string>)
    requires ScanOptions(o0, argv, orders).Err?
    ensures FailureJustified(o0, argv, orders, ScanOptions(o0, argv, orders).error)
  {
    var init := Scan([], [], o0, []);
    assert Values(o0, argv, [], o0) by {
      forall k | k in o0 ensures o0[k] == o0[k].(value := o0[k].value) { }
    }
    assert Inv(o0, argv, orders, 0, false, init);
    ScanFromFails(o0, argv, orders, 0, false, init);
  }

  // ---------------------------------------------------------------------
  // Reaching a position

  /** The option map after the tokens with the given roles. */
  function ValuesOf(o0: map<string, OptionDecl>, argv: seq<string>, roles: seq<Role>): map<string, OptionDecl>
    requires |roles| <= |argv|
  {
    map k | k in o0 :: o0[k].(value := BoundValue(argv, roles, k, o0[k].value))
  }

  /** The scan state after the tokens with the given roles. */
  function StateOf(o0: map<string, OptionDecl>, argv: seq<string>, roles: seq<Role>): Scan
    requires |roles| <= |argv|
  {
    Scan(ArgsOf(argv, roles), UnknownOf(argv, roles), ValuesOf(o0, argv, roles), roles)
  }

  /** The scan gets through the first `|roles|` tokens with these roles: they
      form a trace, and no unknown option among them is followed by the empty
      token its lookahead would fault on. */
  predicate Reached(o0: map<string, OptionDecl>, argv: seq<string>, orders: nat -> seq<string>, roles: seq<Role>)
  {
    && Trace(o0, argv, orders, roles)
    && forall j :: 0 <= j < |roles| && roles[j] == UnknownFlag && j + 1 < |argv| ==> argv[j + 1] != ""
  }

  /** A position inside a reached prefix that the scan arrives at is not the
      second token of a pair. */
  lemma {:induction false} NotContinuation(o0: map<string, OptionDecl>, argv: seq<string>, orders: nat -> seq<string>, roles: seq<Role>, i: nat, literal: bool, acc: Scan)
    requires Trace(o0, argv, orders, roles) && i < |roles|
    requires Inv(o0, argv, orders, i, literal, acc) && acc.roles == roles[..i]
    ensures !roles[i].FlagValue? && roles[i] != UnknownValue
  {
    assert RoleAt(o0, argv, orders, roles, i);
    if 0 < i {
      assert RoleAt(o0, argv, orders, acc.roles, i - 1);
      assert acc.roles[i - 1] == roles[i - 1];
    }
  }

  /** From any state on a reached prefix, the scan arrives at the end of the
      prefix in the state the roles determine. */
  lemma {:induction false} ScanFromPrefix(o0: map<string, OptionDecl>, argv: seq<string>, orders: nat -> seq<string>, roles: seq<Role>, i: nat, literal: bool, acc: Scan)
    requires Reached(o0, argv, orders, roles) && i <= |roles|
    requires Inv(o0, argv, orders, i, literal, acc) && acc.roles == roles[..i]
    ensures Inv(o0, argv, orders, |roles|, "--" in argv[..|roles|], StateOf(o0, argv, roles))
    ensures ScanFrom(argv, orders, i, literal, acc) == ScanFrom(argv, orders, |roles|, "--" in argv[..|roles|], StateOf(o0, argv, roles))
    decreases |roles| - i
  {
    if i == |roles| {
      assert roles[..i] == roles;
      assert acc.options == ValuesOf(o0, argv, roles);
    } else {
      assert RoleAt(o0, argv, orders, roles, i);
      NotContinuation(o0, argv, orders, roles, i, literal, acc);
      assert roles[..i + 1] == roles[..i] + [roles[i]];
      var arg := argv[i];
      if arg == "--" {
        StepSeparator(o0, argv, orders, i, literal, acc);
        ScanFromPrefix(o0, argv, orders, roles, i + 1, true, acc.(roles := acc.roles + [Separator]));
      } else if literal {
        StepPositional(o0, argv, orders, i, literal, acc);
        ScanFromPrefix(o0, argv, orders, roles, i + 1, literal, acc.(args := acc.args + [arg], roles := acc.roles + [Positional]));
      } else {
        LookupAgrees(o0, argv, orders, i, literal, acc, arg);
        match FirstMatch(acc.options, orders(i), arg)
        case Some(k) =>
          DeclarationAgrees(o0, argv, orders, i, literal, acc, k);
          assert roles[i] == Flag(k);
          var o := acc.options[k];
          if o.required || (o.optional && i + 1 < |argv| && IsValue(argv[i + 1])) {
            assert RoleAt(o0, argv, orders, roles, i + 1);
            assert roles[..i + 2] == roles[..i] + [Flag(k), FlagValue(k)];
            StepFlagValue(o0, argv, orders, i, literal, acc, k);
            ScanFromPrefix(o0, argv, orders, roles, i + 2, literal, Bound(acc, k, argv[i + 1], [Flag(k), FlagValue(k)]));
          } else {
            StepFlag(o0, argv, orders, i, literal, acc, k);
            ScanFromPrefix(o0, argv, orders, roles, i + 1, literal, Bound(acc, k, "true", [Flag(k)]));
          }
        case None =>
          if LooksLikeOption(arg) {
            assert roles[i] == UnknownFlag;
            if i + 1 < |argv| && argv[i + 1] != "" && argv[i + 1][0] != '-' {
              assert RoleAt(o0, argv, orders, roles, i + 1);
              assert roles[..i + 2] == roles[..i] + [UnknownFlag, UnknownValue];
              StepUnknownPair(o0, argv, orders, i, literal, acc);
              ScanFromPrefix(o0, argv, orders, roles, i + 2, literal,
                acc.(unknown := acc.unknown + [arg, argv[i + 1]], roles := acc.roles + [UnknownFlag, UnknownValue]));
            } else {
              StepUnknown(o0, argv, orders, i, literal, acc);
              ScanFromPrefix(o0, argv, orders, roles, i + 1, literal, acc.(unknown := acc.unknown + [arg], roles := acc.roles + [UnknownFlag]));
            }
          } else {
            assert roles[i] == Positional;
            StepPositional(o0, argv, orders, i, literal, acc);
            ScanFromPrefix(o0, argv, orders, roles, i + 1, literal, acc.(args := acc.args + [arg], roles := acc.roles + [Positional]));
          }
      }
    }
  }

  /** `parseOptions` gets through every reached prefix: its result is that of
      the loop continued from the end of the prefix, in the state the roles
      determine. */
  lemma {:induction false} ScanReaches(o0: map<string, OptionDecl>, argv: seq<string>, orders: nat -> seq<string>, roles: seq<Role>)
    requires Reached(o0, argv, orders, roles)
    ensures Inv(o0, argv, orders, |roles|, "--" in argv[..|roles|], StateOf(o0, argv, roles))
    ensures ScanOptions(o0, argv, orders) == ScanFrom(argv, orders, |roles|, "--" in argv[..|roles|], StateOf(o0, argv, roles))
  {
    var init := Scan([], [], o0, []);
    assert Values(o0, argv, [], o0) by {
      forall k | k in o0 ensures o0[k] == o0[k].(value := o0[k].value) { }
    }
    assert Inv(o0, argv, orders, 0, false, init);
    assert roles[..0] == [];
    ScanFromPrefix(o0, argv, orders, roles, 0, false, init);
  }

  /** A required-value option the scan reaches decides the scan's fate by the
      token after it: nothing there indexes past the end, an empty token
      faults on its first character, and an option-like token is reported
      by `optionMissingArgument` with the option's flags and that token.
      Any other token is bound and the scan goes on past the pair. */
  lemma {:induction false} ScanOptionsMissingValue(o0: map<string, OptionDecl>, argv: seq<string>, orders: nat -> seq<string>, roles: seq<Role>, k: string)
    requires Reached(o0, argv, orders, roles) && |roles| < |argv|
    requires k in o0 && RequiredAt(o0, argv, orders, |roles|, k)
    ensures var j := |roles|; j + 1 == |argv| ==> ScanOptions(o0, argv, orders) == Err(Panic(ValuePastEnd))
    ensures var j := |roles|; j + 1 < |argv| && argv[j + 1] == "" ==> ScanOptions(o0, argv, orders) == Err(Panic(EmptyValue))
    ensures var j := |roles|; j + 1 < |argv| && LooksLikeOption(argv[j + 1]) ==>
      ScanOptions(o0, argv, orders) == Err(OptionMissingArgument(o0[k].flags, argv[j + 1]))
    ensures var j := |roles|; j + 1 < |argv| && IsValue(argv[j + 1]) ==>
      Reached(o0, argv, orders, roles + [Flag(k), FlagValue(k)])
  {
    var j := |roles|;
    var acc := StateOf(o0, argv, roles);
    ScanReaches(o0, argv, orders, roles);
    LookupAgrees(o0, argv, orders, j, false, acc, argv[j]);
    DeclarationAgrees(o0, argv, orders, j, false, acc, k);
    if j + 1 < |argv| && IsValue(argv[j + 1]) {
      StepFlagValue(o0, argv, orders, j, false, acc, k);
    }
  }

  /** An unknown option the scan reaches, followed by an empty token, faults
      on that token's first character. */
  lemma {:induction false} ScanOptionsEmptyLookahead(o0: map<string, OptionDecl>, argv: seq<string>, orders: nat -> seq<string>, roles: seq<Role>)
    requires Reached(o0, argv, orders, roles) && |roles| + 1 < |argv|
    requires UnmatchedAt(o0, argv, orders, |roles|) && argv[|roles| + 1] == ""
    ensures ScanOptions(o0, argv, orders) == Err(Panic(EmptyLookahead))
  {
    var j := |roles|;
    var acc := StateOf(o0, argv, roles);
    ScanReaches(o0, argv, orders, roles);
    LookupAgrees(o0, argv, orders, j, false, acc, argv[j]);
  }
}
