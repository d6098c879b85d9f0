/** The closed set of commands the dev session's handler consumes (src/hot_reload/mod.rs:25-32). */
module Commands {

  /** A filesystem path, as text. */
  type Path = string

  datatype Command =
    | Start
    | Stop
    | Rebuild
    | SendCommand(text: string)
    | WaitUntilExit
    | Bootstrap(path: Path)

  /** `text` is submitted to the child as a complete line. */
  predicate EndsWithNewline(text: string) {
    |text| > 0 && text[|text| - 1] == '\n'
  }

  /** Every text sent to the child by `cmds` is newline-terminated. */
  predicate SendsWholeLines(cmds: seq<Command>) {
    forall i :: 0 <= i < |cmds| && cmds[i].SendCommand? ==> EndsWithNewline(cmds[i].text)
  }
}
