/**
 * The dispatching backend: it implements the backend interface itself by
 * asking the registry which backend owns a path and forwarding the call
 * there. Copy and rename between two different backends are decomposed
 * into a read on the source backend and a create (and, for rename, a
 * delete) on the backends involved.
 *
 * Every operation returns its result together with the ordered list of
 * backend calls it issued; `respond` supplies the backends' answers.
 */
module DfsDispatcher {
  import opened Php
  import opened Backend
  import opened DfsRegistry

  /** The dispatcher owns exactly one registry. */
  datatype Dispatcher = Dispatcher(registry: Registry)

  predicate WellFormed(d: Dispatcher) {
    DfsRegistry.Valid(d.registry)
  }

  /** The private `getHandler($path)`: delegates to the registry. */
  function HandlerFor(d: Dispatcher, arg: PathArg): (h: Handle)
    requires WellFormed(d)
    ensures ResolvesTo(d.registry, arg, h)
  {
    GetHandler(d.registry, arg)
  }

  /** Resolve `route` and issue `call` there, as the first and only backend call. */
  function Forward(d: Dispatcher, respond: Responder, route: PathArg, call: Call): (o: Outcome)
    requires WellFormed(d)
  {
    Issue(respond, [], HandlerFor(d, route), call)
  }

  /**
   * `copyFromDFSToDFS`: a native copy when both paths live on the same
   * backend, otherwise a read on the source's backend whose result, whatever
   * it is, is written with a create on the destination's backend.
   */
  function CopyFromDFSToDFS(d: Dispatcher, respond: Responder, src: string, dst: string): (o: Outcome)
    requires WellFormed(d)
    ensures var hs := GetHandler(d.registry, Single(src));
            var hd := GetHandler(d.registry, Single(dst));
            hs == hd ==>
              && |o.trace| == 1
              && o.trace[0] == Event(hs, Call.CopyFromDFSToDFS(src, dst))
              && o.result == respond([], o.trace[0])
    ensures var hs := GetHandler(d.registry, Single(src));
            var hd := GetHandler(d.registry, Single(dst));
            hs != hd ==>
              && |o.trace| == 2
              && o.trace[0] == Event(hs, Call.GetContents(src))
              && o.trace[1] == Event(hd, Call.CreateFileOnDFS(dst, respond([], o.trace[0])))
              && o.result == respond(o.trace[..1], o.trace[1])
  {
    var hs := HandlerFor(d, Single(src));
    var hd := HandlerFor(d, Single(dst));
    if hs == hd then
      Issue(respond, [], hs, Call.CopyFromDFSToDFS(src, dst))
    else
      var read := Issue(respond, [], hs, Call.GetContents(src));
      Issue(respond, read.trace, hd, Call.CreateFileOnDFS(dst, read.result))
  }

  /** `copyFromDFS`: routed on the DFS source path; `dst` is passed on as given. */
  function CopyFromDFS(d: Dispatcher, respond: Responder, src: string, dst: OptionalPath): (o: Outcome)
    requires WellFormed(d)
    ensures |o.trace| == 1
    ensures ResolvesTo(d.registry, Single(src), o.trace[0].backend)
    ensures o.trace[0].call == Call.CopyFromDFS(src, dst)
    ensures o.result == respond([], o.trace[0])
  {
    Forward(d, respond, Single(src), Call.CopyFromDFS(src, dst))
  }

  /**
   * `copyToDFS`: routed on `dst` when it is truthy (not omitted, `""` or
   * `"0"`), otherwise on `src`; both arguments are passed on as given.
   */
  function CopyToDFS(d: Dispatcher, respond: Responder, src: string, dst: OptionalPath): (o: Outcome)
    requires WellFormed(d)
    ensures |o.trace| == 1
    ensures Truthy(dst) ==> o.trace[0].backend == GetHandler(d.registry, Single(dst.path))
    ensures !Truthy(dst) ==> o.trace[0].backend == GetHandler(d.registry, Single(src))
    ensures o.trace[0].call == Call.CopyToDFS(src, dst)
    ensures o.result == respond([], o.trace[0])
  {
    Forward(d, respond, Single(OrElse(dst, src)), Call.CopyToDFS(src, dst))
  }

  /**
   * `delete`: the whole argument, path or array, is resolved once and handed
   * unchanged to that one backend.
   */
  function Delete(d: Dispatcher, respond: Responder, target: PathArg): (o: Outcome)
    requires WellFormed(d)
    ensures |o.trace| == 1
    ensures ResolvesTo(d.registry, target, o.trace[0].backend)
    ensures o.trace[0].call == Call.Delete(target)
    ensures o.result == respond([], o.trace[0])
  {
    Forward(d, respond, target, Call.Delete(target))
  }

  /** `passthrough`: routed on the path, offset and length passed on as given. */
  function Passthrough(d: Dispatcher, respond: Responder, path: string, startOffset: int, length: Length): (o: Outcome)
    requires WellFormed(d)
    ensures |o.trace| == 1
    ensures ResolvesTo(d.registry, Single(path), o.trace[0].backend)
    ensures o.trace[0].call == Call.Passthrough(path, startOffset, length)
    ensures o.result == respond([], o.trace[0])
  {
    Forward(d, respond, Single(path), Call.Passthrough(path, startOffset, length))
  }

  /** `passthrough($filePath)` with both optional arguments left out. */
  function PassthroughWithDefaults(d: Dispatcher, respond: Responder, path: string): (o: Outcome)
    requires WellFormed(d)
    ensures |o.trace| == 1
    ensures ResolvesTo(d.registry, Single(path), o.trace[0].backend)
    ensures o.trace[0].call == Call.Passthrough(path, 0, ToEnd)
    ensures o.result == respond([], o.trace[0])
  {
    Passthrough(d, respond, path, 0, ToEnd)
  }

  /** `getContents`: routed on the path; a failed read comes back as whatever the backend returned. */
  function GetContents(d: Dispatcher, respond: Responder, path: string): (o: Outcome)
    requires WellFormed(d)
    ensures |o.trace| == 1
    ensures ResolvesTo(d.registry, Single(path), o.trace[0].backend)
    ensures o.trace[0].call == Call.GetContents(path)
    ensures o.result == respond([], o.trace[0])
  {
    Forward(d, respond, Single(path), Call.GetContents(path))
  }

  /** `createFileOnDFS`: routed on the path, contents passed on as given. */
  function CreateFileOnDFS(d: Dispatcher, respond: Responder, path: string, contents: Value): (o: Outcome)
    requires WellFormed(d)
    ensures |o.trace| == 1
    ensures ResolvesTo(d.registry, Single(path), o.trace[0].backend)
    ensures o.trace[0].call == Call.CreateFileOnDFS(path, contents)
    ensures o.result == respond([], o.trace[0])
  {
    Forward(d, respond, Single(path), Call.CreateFileOnDFS(path, contents))
  }

  /**
   * `renameOnDFS`: a native rename when both paths live on the same backend;
   * otherwise read, create on the new path's backend, and delete the old
   * path only if the create returned exactly `true`.
   */
  function RenameOnDFS(d: Dispatcher, respond: Responder, oldPath: string, newPath: string): (o: Outcome)
    requires WellFormed(d)
    ensures var ho := GetHandler(d.registry, Single(oldPath));
            var hn := GetHandler(d.registry, Single(newPath));
            ho == hn ==>
              && |o.trace| == 1
              && o.trace[0] == Event(ho, Call.RenameOnDFS(oldPath, newPath))
              && o.result == respond([], o.trace[0])
    ensures var ho := GetHandler(d.registry, Single(oldPath));
            var hn := GetHandler(d.registry, Single(newPath));
            ho != hn ==>
              && 2 <= |o.trace| <= 3
              && o.trace[0] == Event(ho, Call.GetContents(oldPath))
              && o.trace[1] == Event(hn, Call.CreateFileOnDFS(newPath, respond([], o.trace[0])))
              && (!IsStrictlyTrue(respond(o.trace[..1], o.trace[1])) ==>
                    |o.trace| == 2 && o.result == Bool(false))
              && (IsStrictlyTrue(respond(o.trace[..1], o.trace[1])) ==>
                    && |o.trace| == 3
                    && o.trace[2] == Event(ho, Call.Delete(Single(oldPath)))
                    && o.result == respond(o.trace[..2], o.trace[2]))
  {
    var ho := HandlerFor(d, Single(oldPath));
    var hn := HandlerFor(d, Single(newPath));
    if ho == hn then
      Issue(respond, [], ho, Call.RenameOnDFS(oldPath, newPath))
    else
      var read := Issue(respond, [], ho, Call.GetContents(oldPath));
      var created := Issue(respond, read.trace, hn, Call.CreateFileOnDFS(newPath, read.result));
      assert created.trace[..1] == read.trace;
      if !IsStrictlyTrue(created.result) then
        Outcome(Bool(false), created.trace)
      else
        var deleted := Issue(respond, created.trace, ho, Call.Delete(Single(oldPath)));
        assert deleted.trace[..1] == read.trace && deleted.trace[1] == created.trace[1];
        deleted
  }

  /** `existsOnDFS`: routed on the path. */
  function ExistsOnDFS(d: Dispatcher, respond: Responder, path: string): (o: Outcome)
    requires WellFormed(d)
    ensures |o.trace| == 1
    ensures ResolvesTo(d.registry, Single(path), o.trace[0].backend)
    ensures o.trace[0].call == Call.ExistsOnDFS(path)
    ensures o.result == respond([], o.trace[0])
  {
    Forward(d, respond, Single(path), Call.ExistsOnDFS(path))
  }

  /** `getDfsFileSize`: routed on the path. */
  function GetDfsFileSize(d: Dispatcher, respond: Responder, path: string): (o: Outcome)
    requires WellFormed(d)
    ensures |o.trace| == 1
    ensures ResolvesTo(d.registry, Single(path), o.trace[0].backend)
    ensures o.trace[0].call == Call.GetDfsFileSize(path)
    ensures o.result == respond([], o.trace[0])
  {
    Forward(d, respond, Single(path), Call.GetDfsFileSize(path))
  }
}
