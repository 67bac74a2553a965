/**
 * Concrete configurations taken from the repository's unit tests, with the
 * routing decisions those tests exercise.
 */
module Scenarios {
  import opened Php
  import opened Backend
  import opened DfsRegistry
  import opened RegistryProperties
  import opened DfsDispatcher

  const DefaultBackend: Handle := Handle(0)
  const CustomBackend1: Handle := Handle(1)
  const CustomBackend2: Handle := Handle(2)

  /** The registry test's setup: two keys, the first a substring of the second. */
  const NestedKeys: Registry :=
    Registry(DefaultBackend, [("path/to/", CustomBackend1), ("otherpath/to/", CustomBackend2)])

  /** A path containing `path/to/` anywhere, not only at its start, resolves to the first key's backend. */
  lemma NestedKeysFirstKeyWins(p: string, at: nat)
    requires OccursAt(p, "path/to/", at)
    ensures GetHandler(NestedKeys, Single(p)) == CustomBackend1
  {
    EarliestMatchingKeyWins(NestedKeys, Single(p), 0);
  }

  /** The three paths of the registry test all resolve to the first key's backend. */
  lemma RegistryTestPathOne()
    ensures GetHandler(NestedKeys, Single("path/to/file")) == CustomBackend1
  {
    NestedKeysFirstKeyWins("path/to/file", 0);
  }

  lemma RegistryTestPathTwo()
    ensures GetHandler(NestedKeys, Single("otherpath/to/file")) == CustomBackend1
  {
    NestedKeysFirstKeyWins("otherpath/to/file", 5);
  }

  lemma RegistryTestPathThree()
    ensures GetHandler(NestedKeys, Single("differentpath/to/file")) == CustomBackend1
  {
    NestedKeysFirstKeyWins("differentpath/to/file", 9);
  }

  /** The dispatcher test's setup: `one://` goes to the custom backend, everything else to the default. */
  const OneScheme: Dispatcher := Dispatcher(Registry(DefaultBackend, [("one://", CustomBackend1)]))

  lemma OneSchemePath(rest: string)
    ensures GetHandler(OneScheme.registry, Single("one://" + rest)) == CustomBackend1
  {
    assert OccursAt("one://" + rest, "one://", 0);
    EarliestMatchingKeyWins(OneScheme.registry, Single("one://" + rest), 0);
  }

  lemma TwoSchemePath(rest: string)
    requires ':' !in rest
    ensures GetHandler(OneScheme.registry, Single("two://" + rest)) == DefaultBackend
  {
    var p := "two://" + rest;
    assert forall m :: 6 <= m < |p| ==> p[m] == rest[m - 6];
    AnchoredOccurrence(p, "one://", 3, 3);
    assert p[0] != 'o';
    NoMatchGivesDefault(OneScheme.registry, Single(p));
  }

  /** Both paths on `one://`: a single native copy on the custom backend. */
  lemma CopySameBackendTest(respond: Responder, srcName: string, dstName: string)
    ensures var src := "one://" + srcName;
            var dst := "one://" + dstName;
            DfsDispatcher.CopyFromDFSToDFS(OneScheme, respond, src, dst).trace
            == [Event(CustomBackend1, Call.CopyFromDFSToDFS(src, dst))]
  {
    OneSchemePath(srcName);
    OneSchemePath(dstName);
  }

  /** `one://` to `two://`: read on the custom backend, create with those contents on the default one. */
  lemma CopyCrossBackendTest(respond: Responder, srcName: string, dstName: string)
    requires ':' !in dstName
    ensures var src := "one://" + srcName;
            var dst := "two://" + dstName;
            var read := Event(CustomBackend1, Call.GetContents(src));
            DfsDispatcher.CopyFromDFSToDFS(OneScheme, respond, src, dst).trace
            == [read, Event(DefaultBackend, Call.CreateFileOnDFS(dst, respond([], read)))]
  {
    OneSchemePath(srcName);
    TwoSchemePath(dstName);
  }

  /** `copyFromDFS` with the destination omitted is routed on the source. */
  lemma CopyFromDFSTest(respond: Responder, srcName: string)
    ensures var src := "one://" + srcName;
            DfsDispatcher.CopyFromDFS(OneScheme, respond, src, Omitted).trace
            == [Event(CustomBackend1, Call.CopyFromDFS(src, Omitted))]
  {
    var src := "one://" + srcName;
    var o := DfsDispatcher.CopyFromDFS(OneScheme, respond, src, Omitted);
    OneSchemePath(srcName);
    ResolutionIsUnique(OneScheme.registry, Single(src), o.trace[0].backend, CustomBackend1);
  }

  /** `copyToDFS` is routed on its destination, and on its source when the destination is `"0"`. */
  lemma CopyToDFSTest(respond: Responder, localPath: string, name: string)
    ensures var dst := "one://" + name;
            DfsDispatcher.CopyToDFS(OneScheme, respond, localPath, Given(dst)).trace
            == [Event(CustomBackend1, Call.CopyToDFS(localPath, Given(dst)))]
    ensures var src := "one://" + name;
            DfsDispatcher.CopyToDFS(OneScheme, respond, src, Given("0")).trace
            == [Event(CustomBackend1, Call.CopyToDFS(src, Given("0")))]
  {
    OneSchemePath(name);
  }

  /** A mixed array is not split per backend: the custom backend gets one delete with every path. */
  lemma DeleteMixedArrayTest(respond: Responder)
    ensures var paths := ["one://file1", "one://file2", "two://file3", "two://file4", "one://file5"];
            DfsDispatcher.Delete(OneScheme, respond, Several(paths)).trace
            == [Event(CustomBackend1, Call.Delete(Several(paths)))]
  {
    var paths := ["one://file1", "one://file2", "two://file3", "two://file4", "one://file5"];
    var arg := Several(paths);
    var o := DfsDispatcher.Delete(OneScheme, respond, arg);
    assert OccursAt(paths[0], "one://", 0);
    EarliestMatchingKeyWins(OneScheme.registry, arg, 0);
    ResolutionIsUnique(OneScheme.registry, arg, o.trace[0].backend, CustomBackend1);
  }

  /** `one://` to `two://` rename whose create succeeds: read, create, then delete the old path. */
  lemma RenameCrossBackendTest(respond: Responder, oldName: string, newName: string)
    requires ':' !in newName
    requires var read := Event(CustomBackend1, Call.GetContents("one://" + oldName));
             var create := Event(DefaultBackend, Call.CreateFileOnDFS("two://" + newName, respond([], read)));
             respond([read], create) == Bool(true)
    ensures var oldPath := "one://" + oldName;
            var newPath := "two://" + newName;
            var read := Event(CustomBackend1, Call.GetContents(oldPath));
            var create := Event(DefaultBackend, Call.CreateFileOnDFS(newPath, respond([], read)));
            DfsDispatcher.RenameOnDFS(OneScheme, respond, oldPath, newPath).trace
            == [read, create, Event(CustomBackend1, Call.Delete(Single(oldPath)))]
  {
    OneSchemePath(oldName);
    TwoSchemePath(newName);
    var r := DfsDispatcher.RenameOnDFS(OneScheme, respond, "one://" + oldName, "two://" + newName);
    assert r.trace[..1] == [r.trace[0]];
  }
}
