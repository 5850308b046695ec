/** Result values that stand for the library's fatal exits.
    Every call of `os.Exit` in the parser, and every Go runtime fault that the
    parser can hit, becomes an `Err` carrying one `Failure`. */
module Outcomes {

  datatype Option<+T> = None | Some(value: T)

  /** Where a Go runtime panic (a slice or index out of range) happens. */
  datatype PanicSite =
    | ShortToken        // normalize: arg[0:2] on a token shorter than two characters
    | ValuePastEnd      // parseOptions: argv[i] after a required option that was the last token
    | EmptyValue        // parseOptions: arg[0:1] on the empty token after a required option
    | EmptyLookahead    // parseOptions: argv[i+1][0:1] on an empty token after an unknown option
    | EmptyWord         // parseExpectedArgs: arg[0:1] on an empty word of a command syntax
    | ShortSlot         // parseExpectedArgs: arg[1:len(arg)-1] on the one-character word "<" or "["
    | NoProgramName     // parseMainArgs: argv[0] of an empty argument vector

  datatype Failure =
    | MissingArgument(name: string)                  // a required command argument is absent
    | OptionMissingArgument(flags: string, got: string)  // a required option value looks like an option
    | UnknownOption(flag: string)                    // option-like tokens and no command word
    | HelpRequested                                  // -h or --help among the unknown tokens (exit 0)
    | InvalidDeclaration(arg: string, after: string) // <arg> declared after the optional [after]
    | Panic(site: PanicSite)

  datatype Result<+T> = Ok(value: T) | Err(error: Failure)
}
