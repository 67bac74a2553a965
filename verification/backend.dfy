/**
 * The storage backend interface as the dispatcher sees it: opaque handles
 * compared by identity, the calls it can issue, and an oracle standing for
 * whatever the concrete backends answer.
 */
module Backend {
  import opened Php

  /** A backend object; two handles are the same backend iff `===` holds. */
  datatype Handle = Handle(id: nat)

  /** The path argument of `delete` and of registry resolution: one path or an array of paths. */
  datatype PathArg = Single(path: string) | Several(paths: seq<string>)

  /** The `$length` argument of `passthrough`: `false` means "to the end". */
  datatype Length = ToEnd | Count(n: int)

  /** One call of the backend interface, with its arguments. */
  datatype Call =
    | CopyFromDFSToDFS(src: string, dst: string)
    | CopyFromDFS(dfsSrc: string, localDst: OptionalPath)
    | CopyToDFS(localSrc: string, dfsDst: OptionalPath)
    | Delete(target: PathArg)
    | Passthrough(path: string, startOffset: int, length: Length)
    | GetContents(path: string)
    | CreateFileOnDFS(path: string, contents: Value)
    | RenameOnDFS(oldPath: string, newPath: string)
    | ExistsOnDFS(path: string)
    | GetDfsFileSize(path: string)

  /** A call issued to a particular backend. */
  datatype Event = Event(backend: Handle, call: Call)

  /**
   * The backends' answers: given the calls already issued during the current
   * dispatcher operation and the next call, the value that call returns.
   */
  type Responder = (seq<Event>, Event) -> Value

  /** The result of a dispatcher operation together with the calls it issued, in order. */
  datatype Outcome = Outcome(result: Value, trace: seq<Event>)

  /** Issue `call` on backend `h` after the calls in `prior`. */
  function Issue(respond: Responder, prior: seq<Event>, h: Handle, call: Call): Outcome
  {
    var e := Event(h, call);
    Outcome(respond(prior, e), prior + [e])
  }
}
