/** Properties relating the dispatcher's composite operations to each other and to the registry. */
module DispatcherProperties {
  import opened Php
  import opened Backend
  import opened DfsRegistry
  import opened RegistryProperties
  import opened DfsDispatcher

  /** Every call in `trace` goes to a backend the registry enumerates. */
  predicate StaysInRegistry(reg: Registry, trace: seq<Event>) {
    forall i :: 0 <= i < |trace| ==> trace[i].backend in GetAllHandlers(reg)
  }

  /** Same backend: the native copy is the only call; nothing is read or created by the dispatcher. */
  lemma SameBackendCopyIsNative(d: Dispatcher, respond: Responder, src: string, dst: string)
    requires WellFormed(d)
    requires GetHandler(d.registry, Single(src)) == GetHandler(d.registry, Single(dst))
    ensures var o := DfsDispatcher.CopyFromDFSToDFS(d, respond, src, dst);
            forall i :: 0 <= i < |o.trace| ==>
              o.trace[i].call == Call.CopyFromDFSToDFS(src, dst)
  {
  }

  /**
   * Different backends: the native copy is never used, and the destination is
   * created with exactly what the source read returned.
   */
  lemma CrossBackendCopyBridgesContents(d: Dispatcher, respond: Responder, src: string, dst: string)
    requires WellFormed(d)
    requires GetHandler(d.registry, Single(src)) != GetHandler(d.registry, Single(dst))
    ensures var o := DfsDispatcher.CopyFromDFSToDFS(d, respond, src, dst);
            && (forall i :: 0 <= i < |o.trace| ==> !o.trace[i].call.CopyFromDFSToDFS?)
            && o.trace[1].call.contents == respond([], o.trace[0])
  {
  }

  /**
   * Different backends, failed read: the `false` the source backend returned
   * is written to the destination as its contents, unchecked.
   */
  lemma CrossBackendCopyForwardsFailedRead(d: Dispatcher, respond: Responder, src: string, dst: string)
    requires WellFormed(d)
    requires GetHandler(d.registry, Single(src)) != GetHandler(d.registry, Single(dst))
    requires respond([], Event(GetHandler(d.registry, Single(src)), Call.GetContents(src))) == Bool(false)
    ensures var o := DfsDispatcher.CopyFromDFSToDFS(d, respond, src, dst);
            o.trace[1] == Event(GetHandler(d.registry, Single(dst)), Call.CreateFileOnDFS(dst, Bool(false)))
  {
  }

  /**
   * Different backends: rename begins exactly like a cross-backend copy, and
   * when that copy's create is not exactly `true` the rename stops there and
   * reports `false`.
   */
  lemma RenameAcrossBackendsBeginsWithCopy(d: Dispatcher, respond: Responder, oldPath: string, newPath: string)
    requires WellFormed(d)
    requires GetHandler(d.registry, Single(oldPath)) != GetHandler(d.registry, Single(newPath))
    ensures var c := DfsDispatcher.CopyFromDFSToDFS(d, respond, oldPath, newPath);
            var r := DfsDispatcher.RenameOnDFS(d, respond, oldPath, newPath);
            && r.trace[..2] == c.trace
            && (!IsStrictlyTrue(c.result) ==> r.trace == c.trace && r.result == Bool(false))
  {
  }

  /**
   * Different backends: the old path is deleted if and only if the create on
   * the new backend returned exactly `true`, and then only once, on the old
   * path's backend, as the last call.
   */
  lemma RenameDeletesSourceIffCreated(d: Dispatcher, respond: Responder, oldPath: string, newPath: string)
    requires WellFormed(d)
    requires GetHandler(d.registry, Single(oldPath)) != GetHandler(d.registry, Single(newPath))
    ensures var r := DfsDispatcher.RenameOnDFS(d, respond, oldPath, newPath);
            var created := respond(r.trace[..1], r.trace[1]);
            && ((exists i :: 0 <= i < |r.trace| && r.trace[i].call.Delete?) <==> IsStrictlyTrue(created))
            && (forall i :: 0 <= i < |r.trace| && r.trace[i].call.Delete? ==>
                  i == |r.trace| - 1 && r.trace[i] == Event(GetHandler(d.registry, Single(oldPath)), Call.Delete(Single(oldPath))))
  {
    var r := DfsDispatcher.RenameOnDFS(d, respond, oldPath, newPath);
    if IsStrictlyTrue(respond(r.trace[..1], r.trace[1])) {
      assert r.trace[2].call.Delete?;
    }
  }

  /** A copy only ever calls backends the registry holds. */
  lemma CopyStaysInRegistry(d: Dispatcher, respond: Responder, src: string, dst: string)
    requires WellFormed(d)
    ensures StaysInRegistry(d.registry, DfsDispatcher.CopyFromDFSToDFS(d, respond, src, dst).trace)
  {
    var c := DfsDispatcher.CopyFromDFSToDFS(d, respond, src, dst);
    var hs := GetHandler(d.registry, Single(src));
    var hd := GetHandler(d.registry, Single(dst));
    ResolvedHandlerIsListed(d.registry, Single(src));
    ResolvedHandlerIsListed(d.registry, Single(dst));
    if hs == hd {
      assert c.trace == [Event(hs, Call.CopyFromDFSToDFS(src, dst))];
    } else {
      assert c.trace[0].backend == hs && c.trace[1].backend == hd;
    }
  }

  /** A rename only ever calls the backends owning its two paths. */
  lemma RenameCallsOwningBackends(d: Dispatcher, respond: Responder, oldPath: string, newPath: string)
    requires WellFormed(d)
    ensures var r := DfsDispatcher.RenameOnDFS(d, respond, oldPath, newPath);
            forall i :: 0 <= i < |r.trace| ==>
              r.trace[i].backend in {GetHandler(d.registry, Single(oldPath)), GetHandler(d.registry, Single(newPath))}
  {
    var r := DfsDispatcher.RenameOnDFS(d, respond, oldPath, newPath);
    var ho := GetHandler(d.registry, Single(oldPath));
    var hn := GetHandler(d.registry, Single(newPath));
    if ho != hn {
      assert r.trace[0].backend == ho && r.trace[1].backend == hn;
      assert |r.trace| == 3 ==> r.trace[2].backend == ho;
    }
  }

  /** A rename only ever calls backends the registry holds. */
  lemma RenameStaysInRegistry(d: Dispatcher, respond: Responder, oldPath: string, newPath: string)
    requires WellFormed(d)
    ensures StaysInRegistry(d.registry, DfsDispatcher.RenameOnDFS(d, respond, oldPath, newPath).trace)
  {
    RenameCallsOwningBackends(d, respond, oldPath, newPath);
    ResolvedHandlerIsListed(d.registry, Single(oldPath));
    ResolvedHandlerIsListed(d.registry, Single(newPath));
  }

  /** A delete only ever calls a backend the registry holds. */
  lemma DeleteStaysInRegistry(d: Dispatcher, respond: Responder, target: PathArg)
    requires WellFormed(d)
    ensures StaysInRegistry(d.registry, DfsDispatcher.Delete(d, respond, target).trace)
  {
    var o := DfsDispatcher.Delete(d, respond, target);
    ResolutionIsUnique(d.registry, target, o.trace[0].backend, GetHandler(d.registry, target));
    ResolvedHandlerIsListed(d.registry, target);
  }
}
