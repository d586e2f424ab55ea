/** How a run of the cleanup script ends, and why it stops early. */
module Outcomes {

  /**
   * Why a run stops before completing. Each one ends the script with exit
   * status 1: a `sys.exit(1)` in the script, or an exception it does not catch.
   */
  datatype Failure =
    | NoInstallFound  // the locator returned None (or an empty path)
    | InvalidChoice   // the menu answer was not 1, 2 or 3
    | Unlistable      // listing the chosen folder raised (missing, or not a folder)
    | DeclinedRisk    // the user would not proceed inside a protected folder
    | EndOfInput      // input() raised EOFError: no response left to read

  /** What the locator hands back: an install folder, or the reason there is none. */
  datatype Search = Found(path: string) | Failed(reason: Failure)

  /** The end of a run: completed on the given folder, or stopped early. */
  datatype Outcome = Completed(folder: string) | Aborted(reason: Failure)

  /**
   * The process exit status: 0 after "Script completed." and the closing key
   * press (`sys.exit(0)`), 1 for every `sys.exit(1)` and every uncaught
   * exception.
   */
  function ExitCode(o: Outcome): (code: int)
    ensures code == 0 || code == 1
    ensures code == 0 <==> o.Completed?
  {
    if o.Completed? then 0 else 1
  }
}
