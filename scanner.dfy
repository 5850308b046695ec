/** `optionFor` and `parseOptions`: one left-to-right scan over the
    normalized tokens that binds declared options, collects positional
    arguments and collects unknown option-like tokens.

    Go visits the entries of a map in an unspecified order that may differ
    from one loop to the next. The lookup made for the token at position `i`
    therefore takes the visiting order `orders(i)` as a parameter; every
    behaviour of the Go program is the behaviour of the model for some choice
    of `orders`. */
module OptionScanner {
  import opened Outcomes
  import opened Declarations

  // ---------------------------------------------------------------------
  // optionFor

  predicate Matches(o: OptionDecl, arg: string)
  {
    o.short == arg || o.long == arg
  }

  /** `order` lists every key of `options` (the visiting order of a range loop). */
  predicate Enumerates(order: seq<string>, options: map<string, OptionDecl>)
  {
    (forall k :: k in options ==> k in order) && (forall j :: 0 <= j < |order| ==> order[j] in options)
  }

  /** `optionFor`: the first option, in visiting order, whose short or long
      alias is `arg`. */
  function FirstMatch(options: map<string, OptionDecl>, order: seq<string>, arg: string): (r: Option<string>)
    ensures r.Some? ==> r.value in options && r.value in order && Matches(options[r.value], arg)
    ensures r.None? ==> forall j :: 0 <= j < |order| && order[j] in options ==> !Matches(options[order[j]], arg)
  {
    if order == [] then None
    else if order[0] in options && Matches(options[order[0]], arg) then Some(order[0])
    else
      var r := FirstMatch(options, order[1..], arg);
      assert forall j :: 1 <= j < |order| ==> order[j] == order[1..][j - 1];
      r
  }

  /** With a visiting order that covers the map, `optionFor` finds nothing
      exactly when no declared option has `arg` as an alias. */
  lemma {:induction false} FirstMatchCorrect(options: map<string, OptionDecl>, order: seq<string>, arg: string)
    requires Enumerates(order, options)
    ensures FirstMatch(options, order, arg).None? <==> forall k :: k in options ==> !Matches(options[k], arg)
  {
    if FirstMatch(options, order, arg).None? {
      forall k | k in options ensures !Matches(options[k], arg) {
        assert k in order;
      }
    }
  }

  /** Every matching option is the answer for some visiting order: with
      colliding aliases the model, like Go, may return any of them. */
  lemma {:induction false} AnyMatchPossible(options: map<string, OptionDecl>, order: seq<string>, k: string, arg: string)
    requires k in options && Matches(options[k], arg)
    ensures FirstMatch(options, [k] + order, arg) == Some(k)
  {
  }

  /** Two option maps that differ only in bound values. */
  predicate SameDeclarations(o0: map<string, OptionDecl>, o1: map<string, OptionDecl>)
  {
    && o0.Keys == o1.Keys
    && forall k :: k in o0 ==> o1[k] == o0[k].(value := o1[k].value)
  }

  /** Binding values never changes what `optionFor` finds. */
  lemma {:induction false} FirstMatchIgnoresValues(o0: map<string, OptionDecl>, o1: map<string, OptionDecl>, order: seq<string>, arg: string)
    requires SameDeclarations(o0, o1)
    ensures FirstMatch(o0, order, arg) == FirstMatch(o1, order, arg)
  {
    if order != [] {
      FirstMatchIgnoresValues(o0, o1, order[1..], arg);
    }
  }

  // ---------------------------------------------------------------------
  // parseOptions

  /** What the scan made of one token position. */
  datatype Role =
    | Separator             // a "--" (every one is dropped)
    | Positional            // appended to the positional arguments
    | Flag(key: string)     // a declared option, the key of `options` it matched
    | FlagValue(key: string) // the value consumed by the option just before
    | UnknownFlag           // an option-like token that matched nothing
    | UnknownValue          // the token an unknown option took along with it

  /** The scan's results so far; `roles` is the trace of what every token
      already read became. */
  datatype Scan = Scan(args: seq<string>, unknown: seq<string>, options: map<string, OptionDecl>, roles: seq<Role>)

  /** An option-like token for the unknown-option test: two or more
      characters and a leading '-'. */
  predicate LooksLikeOption(t: string)
  {
    |t| > 1 && t[0] == '-'
  }

  /** A token a value-taking option accepts: non-empty and either not
      starting with '-' or exactly "-". */
  predicate IsValue(t: string)
  {
    |t| > 0 && (t[0] != '-' || t == "-")
  }

  /** Bind `v` to option `k` and record the roles of the consumed tokens. */
  function Bound(acc: Scan, k: string, v: string, rs: seq<Role>): Scan
    requires k in acc.options
  {
    acc.(options := acc.options[k := acc.options[k].(value := v)], roles := acc.roles + rs)
  }

  /** The loop of `parseOptions` from token `i` on. */
  function ScanFrom(argv: seq<string>, orders: nat -> seq<string>, i: nat, literal: bool, acc: Scan): Result<Scan>
    requires i <= |argv|
    decreases |argv| - i
  {
    if i == |argv| then Ok(acc)
    else
      var arg := argv[i];
      if arg == "--" then
        ScanFrom(argv, orders, i + 1, true, acc.(roles := acc.roles + [Separator]))
      else if literal then
        ScanFrom(argv, orders, i + 1, literal, acc.(args := acc.args + [arg], roles := acc.roles + [Positional]))
      else
        match FirstMatch(acc.options, orders(i), arg)
        case Some(k) =>
          var o := acc.options[k];
          if o.required then
            if i + 1 == |argv| then Err(Panic(ValuePastEnd))
            else
              var t := argv[i + 1];
              if t == "" then Err(Panic(EmptyValue))
              else if t[0] == '-' && t != "-" then Err(OptionMissingArgument(o.flags, t))
              else ScanFrom(argv, orders, i + 2, literal, Bound(acc, k, t, [Flag(k), FlagValue(k)]))
          else if o.optional && i + 1 < |argv| && IsValue(argv[i + 1]) then
            ScanFrom(argv, orders, i + 2, literal, Bound(acc, k, argv[i + 1], [Flag(k), FlagValue(k)]))
          else
            ScanFrom(argv, orders, i + 1, literal, Bound(acc, k, "true", [Flag(k)]))
        case None =>
          if LooksLikeOption(arg) then
            if i + 1 < |argv| && argv[i + 1] == "" then Err(Panic(EmptyLookahead))
            else if i + 1 < |argv| && argv[i + 1][0] != '-' then
              ScanFrom(argv, orders, i + 2, literal,
                acc.(unknown := acc.unknown + [arg, argv[i + 1]], roles := acc.roles + [UnknownFlag, UnknownValue]))
            else
              ScanFrom(argv, orders, i + 1, literal, acc.(unknown := acc.unknown + [arg], roles := acc.roles + [UnknownFlag]))
          else
            ScanFrom(argv, orders, i + 1, literal, acc.(args := acc.args + [arg], roles := acc.roles + [Positional]))
  }

  /** `parseOptions(argv)` against the declared options. */
  function ScanOptions(options: map<string, OptionDecl>, argv: seq<string>, orders: nat -> seq<string>): Result<Scan>
  {
    ScanFrom(argv, orders, 0, false, Scan([], [], options, []))
  }
}
