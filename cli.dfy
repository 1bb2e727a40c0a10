/** What the command-line front ends of the scripts decide: show the usage
    text, stop with an error message, or run with a file and options. */
module Cli {
  import opened Results

  datatype Command<O> = ShowHelp | Fail(message: string) | Run(file: string, options: O)

  /** `args[++i]`: the argument after index `i`, or `undefined` past the end. */
  function NextArg(args: seq<string>, i: nat): Option<string> {
    if i + 1 < |args| then Some(args[i + 1]) else None
  }

  /** `arg.startsWith("--")`. */
  predicate IsLongFlag(arg: string) {
    "--" <= arg
  }

  /** `!x` for a string that may be `undefined`: absent or empty. */
  predicate Falsy(x: Option<string>) {
    x.None? || x.value == ""
  }
}
