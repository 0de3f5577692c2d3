/** Verbosity levels and the gate in front of every diagnostic message. */
module Logging {

  const LevelError: int := 5
  const LevelDebug: int := 1

  /** The session's threshold chosen on the command line: `-v`/`--verbose`
      lowers it to the debug level, otherwise only errors pass. */
  function Verbosity(verbose: bool): (threshold: int)
    ensures LevelError >= threshold
    ensures LevelDebug >= threshold <==> verbose
  {
    if verbose then LevelDebug else LevelError
  }

  /** `debug(level, msg)`: the message is written iff its level reaches the
      threshold.  The result is what reaches standard error. */
  function Debug<M>(level: int, msg: M, threshold: int): (out: seq<M>)
    ensures |out| <= 1
    ensures out != [] <==> level >= threshold
    ensures out != [] ==> out[0] == msg
  {
    if level >= threshold then [msg] else []
  }
}
