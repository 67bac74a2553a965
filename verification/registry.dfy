/**
 * The path-keyed backend registry: an ordered list of (key, backend) pairs
 * plus a default backend. A path is served by the backend of the first
 * registered key that occurs anywhere in it, and by the default otherwise.
 */
module DfsRegistry {
  import opened Wrappers
  import opened Php
  import opened Backend

  /** Keys in registration order (PHP array order) and the fallback backend. */
  datatype Registry = Registry(defaultHandler: Handle, pathHandlers: seq<(string, Handle)>)

  /** A value supplied to the constructor as a path handler. */
  datatype Candidate = IsBackend(handle: Handle) | NotBackend(className: string)

  /** PHP's InvalidArgumentException, with its message. */
  datatype InvalidArgument = InvalidArgument(message: string)

  const NotABackendSuffix: string := " does not implement eZDFSFileHandlerDFSBackendInterface"

  /** Entry `i` is the first candidate that is not a backend. */
  ghost predicate FirstNonBackend(entries: seq<(string, Candidate)>, i: nat) {
    && i < |entries|
    && entries[i].1.NotBackend?
    && forall j :: 0 <= j < i ==> entries[j].1.IsBackend?
  }

  /** The constructor's validation loop over the path handlers, in order. */
  function CheckHandlers(entries: seq<(string, Candidate)>): (r: Result<seq<(string, Handle)>, InvalidArgument>)
    ensures r.Ok? <==> forall i :: 0 <= i < |entries| ==> entries[i].1.IsBackend?
    ensures r.Ok? ==> |r.value| == |entries|
    ensures r.Ok? ==> forall i :: 0 <= i < |entries| ==> r.value[i] == (entries[i].0, entries[i].1.handle)
    ensures r.Err? ==> exists i: nat :: FirstNonBackend(entries, i)
                                    && r.error.message == entries[i].1.className + NotABackendSuffix
  {
    if |entries| == 0 then Ok([])
    else
      match entries[0].1
      case NotBackend(c) =>
        assert FirstNonBackend(entries, 0);
        Err(InvalidArgument(c + NotABackendSuffix))
      case IsBackend(h) =>
        match CheckHandlers(entries[1..])
        case Err(e) =>
          assert forall i: nat :: FirstNonBackend(entries[1..], i) ==>
                   FirstNonBackend(entries, i + 1) && entries[1..][i] == entries[i + 1];
          Err(e)
        case Ok(rest) => Ok([(entries[0].0, h)] + rest)
  }

  /**
   * The constructor: fails on the first path handler that is not a backend,
   * and otherwise stores the default and the key/handler pairs unchanged.
   */
  function New(defaultHandler: Handle, pathHandlers: seq<(string, Candidate)>): (r: Result<Registry, InvalidArgument>)
    ensures r.Ok? <==> forall i :: 0 <= i < |pathHandlers| ==> pathHandlers[i].1.IsBackend?
    ensures r.Ok? ==> r.value.defaultHandler == defaultHandler && |r.value.pathHandlers| == |pathHandlers|
    ensures r.Ok? ==> forall i :: 0 <= i < |pathHandlers| ==>
                        r.value.pathHandlers[i] == (pathHandlers[i].0, pathHandlers[i].1.handle)
    ensures r.Err? ==> exists i: nat :: FirstNonBackend(pathHandlers, i)
                                     && r.error.message == pathHandlers[i].1.className + NotABackendSuffix
  {
    match CheckHandlers(pathHandlers)
    case Err(e) => Err(e)
    case Ok(entries) => Ok(Registry(defaultHandler, entries))
  }

  /** Every key is non-empty; `strstr` with an empty needle differs between PHP versions. */
  predicate Valid(reg: Registry) {
    forall i :: 0 <= i < |reg.pathHandlers| ==> reg.pathHandlers[i].0 != ""
  }

  /** Reference meaning of "key matches the argument": it occurs in the path, or in some element of the array. */
  ghost predicate Occurs(key: string, arg: PathArg) {
    match arg
    case Single(p) => Contains(p, key)
    case Several(ps) => exists k :: 0 <= k < |ps| && Contains(ps[k], key)
  }

  /** The inner `foreach ($path as $p)` loop: does some element contain `key`? */
  function AnyContains(ps: seq<string>, key: string): (b: bool)
    requires key != ""
    ensures b <==> exists k :: 0 <= k < |ps| && Contains(ps[k], key)
  {
    if |ps| == 0 then false
    else if StrStr(ps[0], key) != None then true
    else
      var b := AnyContains(ps[1..], key);
      assert forall k :: 1 <= k < |ps| ==> ps[k] == ps[1..][k - 1];
      b
  }

  /** The `is_array` branch of one iteration of the outer loop. */
  function Hits(key: string, arg: PathArg): (b: bool)
    requires key != ""
    ensures b <==> Occurs(key, arg)
  {
    match arg
    case Single(p) => StrStr(p, key) != None
    case Several(ps) => AnyContains(ps, key)
  }

  /**
   * The outer `foreach` over the keys, started at position `from`: the
   * position at which it returns, or `|entries|` when it falls through.
   */
  function MatchIndexFrom(entries: seq<(string, Handle)>, arg: PathArg, from: nat): (k: nat)
    requires forall i :: 0 <= i < |entries| ==> entries[i].0 != ""
    requires from <= |entries|
    ensures from <= k <= |entries|
    ensures forall j :: from <= j < k ==> !Occurs(entries[j].0, arg)
    ensures k < |entries| ==> Occurs(entries[k].0, arg)
    decreases |entries| - from
  {
    if from == |entries| then from
    else if Hits(entries[from].0, arg) then from
    else MatchIndexFrom(entries, arg, from + 1)
  }

  /** Position of the key that wins for `arg`, or `|reg.pathHandlers|` if none matches. */
  function MatchIndex(reg: Registry, arg: PathArg): nat
    requires Valid(reg)
  {
    MatchIndexFrom(reg.pathHandlers, arg, 0)
  }

  /** Key `i` matches `arg` and no earlier key does. */
  ghost predicate FirstMatch(reg: Registry, arg: PathArg, i: nat) {
    && i < |reg.pathHandlers|
    && Occurs(reg.pathHandlers[i].0, arg)
    && forall j :: 0 <= j < i ==> !Occurs(reg.pathHandlers[j].0, arg)
  }

  /** No key matches `arg`. */
  ghost predicate NoMatch(reg: Registry, arg: PathArg) {
    forall j :: 0 <= j < |reg.pathHandlers| ==> !Occurs(reg.pathHandlers[j].0, arg)
  }

  /** Reference resolution: the first matching key's handler, else the default. */
  ghost predicate ResolvesTo(reg: Registry, arg: PathArg, h: Handle) {
    || (exists i: nat :: FirstMatch(reg, arg, i) && h == reg.pathHandlers[i].1)
    || (NoMatch(reg, arg) && h == reg.defaultHandler)
  }

  /** `getHandler($path)`: total, never throws. */
  function GetHandler(reg: Registry, arg: PathArg): (h: Handle)
    requires Valid(reg)
    ensures ResolvesTo(reg, arg, h)
  {
    var k := MatchIndex(reg, arg);
    if k < |reg.pathHandlers| then
      assert FirstMatch(reg, arg, k);
      reg.pathHandlers[k].1
    else
      reg.defaultHandler
  }

  /** PHP's `array_values` on the key/handler map. */
  function Handlers(entries: seq<(string, Handle)>): (hs: seq<Handle>)
    ensures |hs| == |entries|
    ensures forall i :: 0 <= i < |entries| ==> hs[i] == entries[i].1
  {
    if |entries| == 0 then [] else [entries[0].1] + Handlers(entries[1..])
  }

  /** `getAllHandlers()`: the keyed handlers in registration order, then the default. */
  function GetAllHandlers(reg: Registry): (hs: seq<Handle>)
    ensures |hs| == |reg.pathHandlers| + 1
    ensures forall i :: 0 <= i < |reg.pathHandlers| ==> hs[i] == reg.pathHandlers[i].1
    ensures hs[|reg.pathHandlers|] == reg.defaultHandler
  {
    Handlers(reg.pathHandlers) + [reg.defaultHandler]
  }
}
