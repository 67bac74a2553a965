/** Properties of path resolution and handler enumeration in the registry. */
module RegistryProperties {
  import opened Php
  import opened Backend
  import opened DfsRegistry

  /** The reference resolution picks exactly one backend: resolution is deterministic. */
  lemma {:induction false} ResolutionIsUnique(reg: Registry, arg: PathArg, h1: Handle, h2: Handle)
    requires ResolvesTo(reg, arg, h1) && ResolvesTo(reg, arg, h2)
    ensures h1 == h2
  {
    forall i: nat, j: nat | FirstMatch(reg, arg, i) && FirstMatch(reg, arg, j)
      ensures i == j
    {
      assert !(i < j) by { assert Occurs(reg.pathHandlers[i].0, arg); }
      assert !(j < i) by { assert Occurs(reg.pathHandlers[j].0, arg); }
    }
    forall i: nat | FirstMatch(reg, arg, i)
      ensures !NoMatch(reg, arg)
    {
      assert Occurs(reg.pathHandlers[i].0, arg);
    }
  }

  /** When key `i` is the earliest key occurring in the path, its handler is returned. */
  lemma EarliestMatchingKeyWins(reg: Registry, arg: PathArg, i: nat)
    requires Valid(reg)
    requires FirstMatch(reg, arg, i)
    ensures GetHandler(reg, arg) == reg.pathHandlers[i].1
  {
    ResolutionIsUnique(reg, arg, GetHandler(reg, arg), reg.pathHandlers[i].1);
  }

  /** A later key never beats an earlier one: the winner is registered no later than any matching key. */
  lemma MatchingKeyBoundsWinner(reg: Registry, arg: PathArg, i: nat)
    requires Valid(reg)
    requires i < |reg.pathHandlers| && Occurs(reg.pathHandlers[i].0, arg)
    ensures MatchIndex(reg, arg) <= i
    ensures exists k: nat :: k <= i && FirstMatch(reg, arg, k) && GetHandler(reg, arg) == reg.pathHandlers[k].1
  {
    var k := MatchIndex(reg, arg);
    assert FirstMatch(reg, arg, k);
    EarliestMatchingKeyWins(reg, arg, k);
  }

  /** When no key occurs in the path, the default backend is returned: resolution never fails. */
  lemma NoMatchGivesDefault(reg: Registry, arg: PathArg)
    requires Valid(reg)
    requires NoMatch(reg, arg)
    ensures GetHandler(reg, arg) == reg.defaultHandler
  {
    ResolutionIsUnique(reg, arg, GetHandler(reg, arg), reg.defaultHandler);
  }

  /** The handler returned by `getHandler` is one that `getAllHandlers` lists. */
  lemma ResolvedHandlerIsListed(reg: Registry, arg: PathArg)
    requires Valid(reg)
    ensures GetHandler(reg, arg) in GetAllHandlers(reg)
  {
    var all := GetAllHandlers(reg);
    var k := MatchIndex(reg, arg);
    if k < |reg.pathHandlers| {
      assert FirstMatch(reg, arg, k);
      EarliestMatchingKeyWins(reg, arg, k);
      assert all[k] == GetHandler(reg, arg);
    } else {
      NoMatchGivesDefault(reg, arg);
      assert all[|reg.pathHandlers|] == GetHandler(reg, arg);
    }
  }

  /** The keys' loop stops at the same place for two arguments that the same keys match. */
  lemma {:induction false} MatchIndexFromAgrees(entries: seq<(string, Handle)>, a: PathArg, b: PathArg, from: nat)
    requires forall i :: 0 <= i < |entries| ==> entries[i].0 != ""
    requires from <= |entries|
    requires forall i :: 0 <= i < |entries| ==> (Occurs(entries[i].0, a) <==> Occurs(entries[i].0, b))
    ensures MatchIndexFrom(entries, a, from) == MatchIndexFrom(entries, b, from)
    decreases |entries| - from
  {
    if from < |entries| && !Hits(entries[from].0, a) {
      MatchIndexFromAgrees(entries, a, b, from + 1);
    }
  }

  /** Two arguments matched by the same registered keys resolve to the same backend. */
  lemma SameKeysSameHandler(reg: Registry, a: PathArg, b: PathArg)
    requires Valid(reg)
    requires forall i :: 0 <= i < |reg.pathHandlers| ==>
               (Occurs(reg.pathHandlers[i].0, a) <==> Occurs(reg.pathHandlers[i].0, b))
    ensures MatchIndex(reg, a) == MatchIndex(reg, b)
    ensures GetHandler(reg, a) == GetHandler(reg, b)
  {
    MatchIndexFromAgrees(reg.pathHandlers, a, b, 0);
  }

  /** An empty array of paths resolves to the default backend. */
  lemma EmptyArrayGivesDefault(reg: Registry)
    requires Valid(reg)
    ensures GetHandler(reg, Several([])) == reg.defaultHandler
  {
    NoMatchGivesDefault(reg, Several([]));
  }

  /** A one-element array `[p]` resolves like the scalar `p`. */
  lemma SingletonArrayLikeScalar(reg: Registry, p: string)
    requires Valid(reg)
    ensures GetHandler(reg, Several([p])) == GetHandler(reg, Single(p))
  {
    forall i | 0 <= i < |reg.pathHandlers|
      ensures Occurs(reg.pathHandlers[i].0, Several([p])) <==> Occurs(reg.pathHandlers[i].0, Single(p))
    {
      assert [p][0] == p;
    }
    SameKeysSameHandler(reg, Several([p]), Single(p));
  }

  /** Array resolution does not depend on the order (or repetition) of the elements. */
  lemma ArrayOrderIrrelevant(reg: Registry, ps: seq<string>, qs: seq<string>)
    requires Valid(reg)
    requires forall p :: p in ps <==> p in qs
    ensures GetHandler(reg, Several(ps)) == GetHandler(reg, Several(qs))
  {
    forall i | 0 <= i < |reg.pathHandlers|
      ensures Occurs(reg.pathHandlers[i].0, Several(ps)) <==> Occurs(reg.pathHandlers[i].0, Several(qs))
    {
      var key := reg.pathHandlers[i].0;
      if k :| 0 <= k < |ps| && Contains(ps[k], key) {
        assert ps[k] in qs;
        var m :| 0 <= m < |qs| && qs[m] == ps[k];
      }
      if k :| 0 <= k < |qs| && Contains(qs[k], key) {
        assert qs[k] in ps;
        var m :| 0 <= m < |ps| && ps[m] == qs[k];
      }
    }
    SameKeysSameHandler(reg, Several(ps), Several(qs));
  }

  /**
   * Arrays are resolved key-major: the winning key is the earliest key that
   * any element would select on its own, whichever element that is.
   */
  lemma ArrayTakesEarliestElementMatch(reg: Registry, ps: seq<string>)
    requires Valid(reg)
    requires |ps| > 0
    ensures forall k :: 0 <= k < |ps| ==> MatchIndex(reg, Several(ps)) <= MatchIndex(reg, Single(ps[k]))
    ensures exists k :: 0 <= k < |ps| && MatchIndex(reg, Several(ps)) == MatchIndex(reg, Single(ps[k]))
  {
    var n := |reg.pathHandlers|;
    var m := MatchIndex(reg, Several(ps));
    forall k | 0 <= k < |ps|
      ensures m <= MatchIndex(reg, Single(ps[k]))
    {
      var mk := MatchIndex(reg, Single(ps[k]));
      if mk < m {
        assert Occurs(reg.pathHandlers[mk].0, Several(ps));
      }
    }
    if m < n {
      var k :| 0 <= k < |ps| && Contains(ps[k], reg.pathHandlers[m].0);
      MatchingKeyBoundsWinner(reg, Single(ps[k]), m);
    } else {
      assert MatchIndex(reg, Several(ps)) == MatchIndex(reg, Single(ps[0]));
    }
  }

  /** A registry built successfully enumerates exactly the supplied handlers, then the default. */
  lemma NewThenGetAllHandlers(defaultHandler: Handle, pathHandlers: seq<(string, Candidate)>)
    requires New(defaultHandler, pathHandlers).Ok?
    ensures var hs := GetAllHandlers(New(defaultHandler, pathHandlers).value);
            && |hs| == |pathHandlers| + 1
            && (forall i :: 0 <= i < |pathHandlers| ==> hs[i] == pathHandlers[i].1.handle)
            && hs[|pathHandlers|] == defaultHandler
  {
  }
}
