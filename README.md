# A verified model of the `cli` argument parser

This project models the argument-parsing engine of the Go package `cli`
(`cli.go`) in Dafny and proves what it does. The package is a small
commander-style library. A program declares options (`-c, --config <path>`),
commands (`tcp <port>`) and help topics. `parseMainArgs` then takes the
process arguments through four steps:

1. `normalize` splits clustered short flags and `--key=value` tokens.
2. `parseOptions` scans the tokens once. It separates positional arguments
   from unknown option-like tokens and writes values into the declared options.
3. `parseArgs` picks the command, binds its argument slots and runs its action.
4. `parseMainArgs` adds an implicit `help` command and runs the fallback action
   when no command was picked.

Layout, one module per file, following the stages of the source:

- `outcomes.dfy` (`Outcomes`): option and result types, and the failure kinds.
  Every `os.Exit` of the source is a `Failure` value: `MissingArgument`,
  `OptionMissingArgument`, `UnknownOption`, `HelpRequested` (exit 0) and
  `InvalidDeclaration`. Every Go runtime fault (slice out of range, index past
  the end) is `Panic(site)`, naming the faulting expression.
- `text.dfy` (`Text`): substring tests, `strings.Replace(s, p, "", -1)`, and the
  split at runs of a character class that `regexp.Split` performs for ` +` and
  `[ ,|]+`.
- `declarations.dfy` (`Declarations`): `Option`, `Arg`, `Command` and `Topic`
  as datatypes, plus `NewOption`, `parseExpectedArgs` and `NewCommand`.
- `tokenizer.dfy` (`Tokenizer`): `normalize`, as a function with its rewrite
  lemmas and as the loop method proved equal to it.
- `scanner.dfy` (`OptionScanner`): `optionFor`, and `parseOptions` as a
  recursive function over the token index.
- `scan_trace.dfy` (`ScanTrace`): what a successful scan guarantees.
  - Every token gets a role: separator, positional, flag, flag value, unknown
    or unknown value.
  - The result lists and the option values are read off those roles.
  - A second lemma accounts for every failure of the scan.
- `resolver.dfy` (`CommandResolver`): `parseArgs`, covering command selection,
  slot binding and the invoked actions.
- `main_parse.dfy` (`MainParse`): `parseMainArgs` as a function of the
  declarations and the process arguments.
- `program.dfy` (`Cli`): the `Program` object as a class. Its command, option
  and topic maps are fields that the registry methods update. Its parsing
  methods run the source's loops and are each proved equal to the functions
  above.
- `normalize_examples.dfy`, `declaration_examples.dfy`, `scan_examples.dfy`:
  the cases of `cli_test.go`, and the quirks of the code, shown on small
  inputs.

Go maps are iterated in an unspecified order. `optionFor` returns the first
option it visits whose short or long alias equals the token. The model takes
the visiting order as a parameter: `orders(i)` is the order used for the token
at position `i`. The orders that a Go `range` loop can produce are exactly
those with `forall i :: Enumerates(orders(i), options)`: every key is
visited. The model also admits orders that skip keys, so that a declared
alias can be treated as unknown, which Go never does. The lemmas hold for
every order, so they hold in particular for the orders Go produces. Where
enumeration matters, it is a premise: `FirstMatchCorrect` is an example. For
aliases that collide, `AnyMatchPossible` shows that every matching option
can be returned.

The model follows the code where the code is surprising:

- Every `--` is dropped, not only the first.
- `parseArgs` drops the first positional argument even when it selected the
  wildcard command `*`.
- A required-value option given as the last token is not reported as missing
  its argument. The bound check at cli.go:300 can never fire, so cli.go:303
  indexes past the end. The model gives `Panic(ValuePastEnd)`
  (`ScanOptionsMissingValue`).
- Tokens shorter than two characters panic in `normalize`, and `normalize` is
  not idempotent: `--port=8` becomes `--port`, `8`, and normalizing again
  panics on `8` (`NotIdempotent`).
- `Required` and `Optional` can both hold.
- A short-only option matches the empty token.
- Command-local options never reach `optionFor`.
- An optional slot with no token keeps its previous value.

## Model

| member | source | states |
|---|---|---|
| Tokenizer.NormalizeArgs | cli.go:199-216 | the loop returns exactly the flat-map `Normalize` of its input, including the panic on a short token |
| Tokenizer.NormalizeAppend | cli.go:201-214 | normalizing a concatenation is the concatenation of the normalized parts (the first failure wins): the rewrite is a flat map |
| Tokenizer.NormalizeTokenShape | cli.go:202-213 | a token rewrites without a fault iff it has at least two characters, and then into at least one token; the only fault is the short slice |
| Tokenizer.NormalizeShape | cli.go:199-216 | a list normalizes iff every token has at least two characters, the output is never shorter than the input, and the only fault is the short slice |
| Tokenizer.TokenFixedPoint | cli.go:202-213 | a token is its own rewrite iff it has at least two characters, is not a cluster of two or more short flags, and is not a `--` token holding `=` |
| Tokenizer.NormalizeFixedPoint | cli.go:199-216 | a list normalizes to itself iff every token is its own rewrite in that sense |
| Tokenizer.ClusterStable | cli.go:202-206 | the short flags split off a cluster normalize to themselves: one pass splits a cluster completely |
| Tokenizer.EqualsRule | cli.go:207-210 | a `--` token holding `=` becomes two tokens: the part before the first `=` (which holds no `=`) and the rest; joined by `=` they give the token back |
| Tokenizer.ClusterFixedPoint | cli.go:202-206 | a single short flag `-x` is its own rewrite |
| Tokenizer.NotIdempotent | cli.go:202-213 | normalizing a normalized list can fail: `--port=8` gives `--port 8`, and `8` then panics |
| NormalizeExamples.NormalizeWord | cli_test.go:89-92 | `help` is unchanged |
| NormalizeExamples.NormalizeShortFlag | cli_test.go:94-97 | `-v` is unchanged |
| NormalizeExamples.NormalizeLongFlag | cli_test.go:99-102 | `--version` is unchanged |
| NormalizeExamples.NormalizeCluster | cli_test.go:104-109 | `-abc` gives `-a -b -c` |
| NormalizeExamples.NormalizeSeparateValue | cli_test.go:111-115 | `--port 8080` is unchanged |
| NormalizeExamples.NormalizeJoinedValue | cli_test.go:117-121 | `--port=8080` gives `--port 8080` |
| Text.SplitHead | cli.go:493-494 | the first piece of a separator-run split is the text before the first separator, and there is one piece iff there is no separator |
| Text.SplitJoin | cli.go:493 | the pieces, joined, give the text with its separators removed: the split loses nothing else |
| Text.RemoveAllShrinks | cli.go:497 | removing every occurrence of a pattern never lengthens the text, and does nothing when the pattern does not occur |
| Declarations.CanonicalPlainName | cli.go:497 | a long alias `--w` with no dash in `w` names its option `w` |
| Declarations.NewOptionDerivation | cli.go:486-503 | `required` iff the spec holds `<`; `optional` iff it holds `[`; `isBool` iff `-no-` occurs; `short` is the text before the first separator; `long` is the text after the first separator run up to the next separator (empty when there is no separator); `name` is `long` without `--` and `no-`; the default is the single default given, else empty |
| Declarations.FirstOptional | cli.go:447-451 | the index of the first optional slot, with every slot before it required; none iff every slot is required |
| Declarations.FindOptional | cli.go:447-451 | the scan over the declared slots finds exactly `FirstOptional` |
| Declarations.ExpectedArgsFromCorrect | cli.go:442-458 | from any slots already declared, parsing the remaining words succeeds iff they are admissible, and then appends exactly their slots |
| Declarations.ExpectedArgsFromOrdered | cli.go:446-453 | parsing keeps every required slot before every optional one |
| Declarations.ExpectedArgsCorrect | cli.go:442-458 | the syntax words declare without error iff every word is readable and no `<x>` follows a `[y]`; the slots are then those of the `<…>`/`[…]` words in order, names stripped of their first and last character, required ones first |
| Declarations.ParseExpectedArgs | cli.go:442-458 | the loop over the words computes `ExpectedArgs` |
| Declarations.ExpectedArgsRejects | cli.go:444-453 | when every word before it is readable, the first `<x>` after the first `[y]` is rejected with `InvalidDeclaration` naming the word `<x>` and the slot `y` |
| Declarations.ExpectedArgsFaults | cli.go:443-455 | otherwise, the first unreadable word faults: an empty word on its first character, a lone `<` or `[` on the bracket slice |
| Declarations.TwoWordSyntax | cli.go:411 | a command name and one more word, one space apart, split into those two words |
| Declarations.OneSlotSyntax | cli.go:408-415 | a command name followed by one bracketed word declares exactly that word's slot |
| Declarations.NewCommand | cli.go:408-415 | the command name is the first space-separated word; the slots come from all the words, the name included; the declaration fails iff the syntax is not well formed, with the error `parseExpectedArgs` reports |
| DeclarationExamples.ShortOnlyOption | cli_test.go:17-24 | `-v` is a short alias only: no long alias, no name, no value kind, not boolean |
| DeclarationExamples.VersionDeclaration | cli_test.go:26-33 | `-v, --version` is the plain option `Version`: aliases `-v` and `--version`, named `version`, no value kind, not boolean |
| DeclarationExamples.ConfigDeclaration | cli_test.go:35-51 | `-c, --config <path>` is the option `Config`: aliases `-c` and `--config`, named `config`, value required; with `[path]` the value is optional and not required |
| DeclarationExamples.NegatedOption | cli_test.go:53-60 | `-T, --no-tests` is a boolean option with aliases `-T`/`--no-tests`, named `tests` |
| DeclarationExamples.RequiredAndOptional | cli.go:490-491 | a spec holding both `<` and `[` is both required and optional |
| DeclarationExamples.SlotCommand | cli_test.go:69-83 | `foo <bar>` and `foo [bar]` split into the name `foo` and one word, which declares the slot `bar`, required or optional as its bracket says |
| DeclarationExamples.RequiredAfterOptional | cli.go:444-452 | `x [a] <b>` is rejected, naming the word `<b>` and the slot `a` |
| OptionScanner.FirstMatch | cli.go:265-272 | a found key is declared, is in the visiting order and has the token as short or long alias; nothing found means no visited option has it |
| OptionScanner.FirstMatchCorrect | cli.go:265-272 | when the order visits every option: nothing is found iff no declared option has the token as an alias |
| OptionScanner.AnyMatchPossible | cli.go:266-268 | any matching option is returned under an order that visits it first |
| OptionScanner.FirstMatchIgnoresValues | cli.go:267 | the lookup depends on the aliases only, not on the values bound so far |
| ScanExamples.LookupVersion | cli_test.go:124-142 | with nothing declared `-v` is not found; after `-v, --version`, `-v` and `--version` are found and `-f`, `--foo` are not |
| ScanExamples.ShortOnlyMatchesEmpty | cli.go:494-498 | an option declared without a long alias matches the empty token |
| ScanTrace.ScanFromTraced | cli.go:282-339 | from any state that agrees with a trace, a successful scan ends in a state that agrees with a trace through all the tokens |
| ScanTrace.ScanOptionsTraced | cli.go:278-341 | every successful scan has a trace: a role per token as the source's branches assign it; the positional and unknown lists are the tokens of those roles in input order, at disjoint positions; every option holds what its last match bound, or its old value |
| ScanTrace.SeparatorsDropped | cli.go:285-288 | no `--` is ever a positional argument, an unknown token or a newly bound option value |
| ScanTrace.LiteralAfterSeparator | cli.go:285-292 | after a `--`, every token other than `--` is positional |
| ScanTrace.UnmatchedKeepsValue | cli.go:296-323 | an option that never matched keeps its declaration and value |
| ScanTrace.FlagConsumption | cli.go:296-323 | a matched option is a declared one with the token as an alias. It takes the next token iff it requires a value, or its value is optional and the next token exists, is non-empty and does not start with `-` (a bare `-` counts). A required option's value always passes that test |
| ScanTrace.UnknownRecorded | cli.go:325-336 | an option-like token before any `--` that matches nothing is unknown; it takes the next token along iff that token is non-empty and does not start with `-` |
| ScanTrace.ScanFromFails | cli.go:282-339 | from any state that agrees with a trace, a failing scan fails for a reason the tokens account for |
| ScanTrace.ScanOptionsFails | cli.go:296-336 | a scan fails only when a required option is followed by an option-like token (`optionMissingArgument` with its flags and that token), by nothing or by an empty token, or when an unknown option is followed by an empty token |
| ScanTrace.ScanReaches | cli.go:282-339 | for every prefix of roles that forms a trace and passes no unknown option followed by an empty token, the scan gets through that prefix, and the state there (positional and unknown tokens, option values) is the one the roles determine |
| ScanTrace.ScanOptionsMissingValue | cli.go:297-306 | a required-value option the scan reaches fails the scan when the next token is missing (index past the end), empty (fault on its first character) or option-like (`optionMissingArgument` with the option's flags and that token); any other next token is bound and the scan goes on past the pair |
| ScanTrace.ScanOptionsEmptyLookahead | cli.go:324-333 | an unknown option the scan reaches, followed by an empty token, faults on that token's first character |
| ScanExamples.FooDeclaration | cli_test.go:158 | `-f, --foo` with default `""` is the boolean option `Foo` |
| ScanExamples.ScanPlainWord | cli_test.go:146-150 | `help` is a positional argument |
| ScanExamples.ScanUndeclaredOption | cli_test.go:152-156 | undeclared `--foo` is unknown |
| ScanExamples.ScanDeclaredOption | cli_test.go:158-163 | declared `--foo` leaves both lists empty and sets the value to `true` |
| ScanExamples.ScanUnknownTakesValue | cli.go:329-334 | an unknown option takes the following word along; the word after that is positional |
| ScanExamples.ScanLiteral | cli.go:285-292 | after `--` a declared alias is positional and binds nothing |
| ScanExamples.ScanRequiredBinds | cli.go:298-307 | `--config a.toml` binds `a.toml` |
| ScanExamples.ScanRequiredRejectsOption | cli.go:304-306 | `--config --x` fails with the option's flags and `--x` |
| ScanExamples.ScanRequiredLast | cli.go:299-303 | `--config` as the last token panics past the end instead of reporting the missing argument |
| CommandResolver.BindFromCorrect | cli.go:243-253 | binding from any slot succeeds iff no required slot from there on lacks a token; it then yields the reference filling; otherwise it fails naming the first such slot |
| CommandResolver.BindCorrect | cli.go:241-253 | slots are filled left to right from the tokens, extra tokens are ignored, and an unfilled slot keeps its value; binding yields `MissingArgument` naming the first required slot left without a token, iff there is one |
| CommandResolver.FilledKeepsShape | cli.go:243-246 | binding changes only values: names, kinds and the required-first order stay |
| CommandResolver.BindEnoughTokens | cli.go:243-252 | with the required slots first, binding succeeds iff there are at least as many tokens as required slots |
| CommandResolver.ResolveSelection | cli.go:223-230 | the selected command is the one named by the first argument, else `*`; a selectable command is never reported as help or an unknown option |
| CommandResolver.ResolveBinding | cli.go:241-257 | for the selected command: success iff its required slots have tokens after the first argument; then only its slots change, bound as `Filled`, and its action is invoked once with the unknown tokens, if it has one; else the first missing required slot is reported |
| CommandResolver.ResolveKeepsValid | cli.go:241-247 | a successful resolution keeps every command under its own name with required slots first |
| CommandResolver.TcpDeclared | cli_test.go:172 | the `tcp` command of the test is what `NewCommand("tcp <port>", …)` declares; `Tcp` leaves out the command option `-h, --host` that the test then adds, which binding does not read |
| CommandResolver.ResolveHelpWord | cli_test.go:176-178 | `help` with neither a help nor a `*` command gives nil |
| CommandResolver.ResolveTcp | cli_test.go:180-186 | `tcp 8080` selects `tcp` and binds `port` to `8080` |
| CommandResolver.ResolveWildcardDropsFirst | cli.go:227-242 | through `*`, the first argument is dropped before binding and the action runs with the unknown tokens |
| MainParse.HelpCommandDeclared | cli.go:111-112 | the implicit help command is what `NewCommand("help [cmd]", …)` declares, with the help action |
| MainParse.WithHelpAddsOnlyIfAbsent | cli.go:110-114 | `help` is added only when absent; every other command is untouched; validity is kept |
| MainParse.MainErrors | cli.go:108-146 | a run fails only for want of a program name, on a token too short to normalize, on a scan failure the tokens account for, or, once the tokens are scanned, with help, an unknown option or a missing argument |
| MainParse.MainValueMissing | cli.go:297-306 | a run (the scan is called at cli.go:117) whose normalized tokens reach a required-value option followed by nothing, an empty token or an option-like token ends with that scan failure |
| MainParse.MainEmptyLookahead | cli.go:324-333 | a run (the scan is called at cli.go:117) whose normalized tokens reach an unknown option followed by an empty token ends with the lookahead fault |
| MainParse.MainHelp | cli.go:222-232 | help is reported iff the tokens scan, no command is selected, and `-h` or `--help` is among the unknown tokens |
| MainParse.MainUnknownOption | cli.go:233-238 | an unknown option is reported iff the tokens scan, there is no positional argument and no help flag, and it is the first unknown token |
| MainParse.MainMissingArgument | cli.go:241-253 | a missing argument is reported iff the tokens scan, a command is selected, and the named slot is its first required slot left without a token |
| MainParse.MainFallback | cli.go:126-138 | when no command is selected, at most one fallback action runs: that of `*` if declared, else that of `help`; with neither declared, the implicit help runs |
| MainParse.MainSelected | cli.go:123-145 | with a command selected, only that command's slots change and its action runs at most once |
| MainParse.MainKeepsValid | cli.go:108-146 | a successful run keeps the command table valid, never returns `--` as an argument or unknown token, and keeps the set of declared options |
| MainParse.MainRunsHelp | cli.go:108-138 | a program with no declarations, run with no arguments, runs the implicit help command |
| Cli.Program.constructor | cli.go:27-30 | a new program has empty command, option and topic tables |
| Cli.Program.AddOption | cli.go:84-88 | `Program.Option` stores `NewOption(flags, …)` under its flag spec; nothing else changes |
| Cli.Program.AddCommand | cli.go:90-96 | `Program.Command` stores the declared command under its name and returns that name, or fails as the declaration does and changes nothing |
| Cli.Program.AddTopic | cli.go:98-102 | `Program.Topic` stores the topic under its name |
| Cli.Program.SetAction | cli.go:465-468 | only the named command's action changes |
| Cli.Program.AddCommandOption | cli.go:436-440 | `Command.Option` appends to the command's own options; the program's options stay as they are |
| Cli.Program.OptionFor | cli.go:265-272 | the loop over the options returns `FirstMatch` for the visiting order |
| Cli.Program.OutputHelpIfNecessary | cli.go:391-398 | help is wanted iff `--help` or `-h` is among the tokens |
| Cli.Program.ParseOptions | cli.go:278-341 | the index loop returns the positional and unknown tokens and leaves the option values exactly as `ScanOptions` of the old options says, or fails as it does |
| Cli.Program.ParseArgs | cli.go:222-259 | selection and the binding loop leave the commands and invoked actions as `ResolveArgs` says, or fail as it does |
| Cli.Program.AddHelpIfAbsent | cli.go:109-114 | the command table becomes `WithHelp` of the old one |
| Cli.Program.RunFallback | cli.go:126-138 | the fallback actions are appended to the invoked actions |
| Cli.Program.ParseMainArgs | cli.go:108-146 | the object ends up (base name, arguments, options, commands, invoked actions) as `ParseMain` of its old declarations says, or fails as it does |

## Left out

- `terminal.go`: colour and cursor output, stderr logging and the indent counter, which only affects output.
- `executeSubCommand` (cli.go:149-194) and the `Execs` branch of `parseMainArgs` (cli.go:140-142): they spawn child processes.
- `help`, `HelpAction` and `HelpPrinter` (cli.go:400-404, 526-650): they only print text. The implicit help command carries the abstract `Help` action.
- The bodies of the error reporters (cli.go:343-381): only the kind of failure and its arguments are kept.
- `unknownArgument` (cli.go:370-373) is never called by the parsing code.
- `SetVersion` (cli.go:52-77): it prints, and with one argument its `fallthrough` indexes `command[1]`, which is out of range.
- `SetName`, `SetDesciption`, `SetHelp`, `Command.SetBody`, `Topic.SetDescription` and `Topic.SetBody`: plain field setters that parsing never reads.
- `Parse` (cli.go:104-106): it only reads `os.Args`, which is `ParseMainArgs`'s parameter here.
- `path.Base(argv[0])`: the parameter `base`.
- Go's map iteration order: the parameter `orders`. It is not restricted to orders that visit every key; the lemmas hold for all orders.
- Bytes and runes: tokens are sequences of characters. The byte slices `arg[0:1]` and `arg[0:2]` and the rune loop at cli.go:203 therefore all work on characters here, and the difference for multi-byte characters is not modelled.
- Actions: each is an abstract token, and running one is recorded as an `Invocation` of the command with the unknown tokens; what the callback does is not modelled.
- `*Command`, `*Option` and `*Arg` pointers: the model keeps values in maps keyed as the source keys them. A handle a caller holds to a command is its name, and aliasing between handles is not modelled.
- Cli.Program.ParseOptions: after a failure, the option values bound before the failing token are not described, because the source exits or panics there.
- Cli.Program.ParseArgs: after a failure, the slot values bound before the missing one are not described, for the same reason.
- Cli.Program.ParseMainArgs: after a failure, only the topics are described (the process ends there).
- Cli.Program.AddHelpIfAbsent: it stores the help command as a value. `HelpCommandDeclared` proves that value equal to what `NewCommand("help [cmd]", …)` declares.
