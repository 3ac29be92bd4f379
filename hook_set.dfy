/**
 * HookSet: the hooks a class or an object exposes, one per name (Hook equality
 * and hashing go by name alone), each a position in the hook store.
 */
module HookSets {
  import opened Base
  import opened HookStore

  type HookSet = map<Name, nat>

  /** Every hook of the set exists in the store under the name it is filed under. */
  predicate Attached(s: seq<HookRec>, hs: HookSet)
  {
    forall n :: n in hs ==> hs[n] < |s| && s[hs[n]].name == n
  }

  /** The store t keeps every hook of s under its name (hooks are never removed or renamed). */
  predicate Extends(s: seq<HookRec>, t: seq<HookRec>)
  {
    |s| <= |t| && forall i :: 0 <= i < |s| ==> t[i].name == s[i].name
  }

  lemma AttachedExtends(s: seq<HookRec>, t: seq<HookRec>, hs: HookSet)
    requires Attached(s, hs) && Extends(s, t)
    ensures Attached(t, hs)
  {
    forall n | n in hs ensures hs[n] < |t| && t[hs[n]].name == n {
      assert s[hs[n]].name == n;
    }
  }

  /** HookSet#[]: the hook filed under a name, or IndexError "No such hook". */
  function Get(hs: HookSet, name: Name): (r: Result<nat>)
    ensures r.Ok? <==> name in hs
    ensures r.Ok? ==> r.value == hs[name]
    ensures r.Err? ==> r.error == NoSuchHook(name)
  {
    if name in hs then Ok(hs[name]) else Err(NoSuchHook(name))
  }

  /** HookSet#length: the number of hooks, the wildcard hook not counted. */
  function Length(hs: HookSet): (r: nat)
    ensures r == |hs.Keys - {Wildcard}|
    ensures Wildcard in hs ==> r + 1 == |hs|
    ensures Wildcard !in hs ==> r == |hs|
  {
    if Wildcard in hs then
      assert hs.Keys == (hs.Keys - {Wildcard}) + {Wildcard};
      |hs| - 1
    else
      assert hs.Keys - {Wildcard} == hs.Keys;
      |hs|
  }

  /** Set#<<: a hook whose name is already present is not added; the set keeps the old one. */
  function Add(hs: HookSet, name: Name, id: nat): (r: HookSet)
    ensures r.Keys == hs.Keys + {name}
    ensures name in hs ==> r == hs
    ensures name !in hs ==> r[name] == id && forall n :: n in hs ==> r[n] == hs[n]
  {
    if name in hs then hs else hs[name := id]
  }

  /** Adding a hook keeps the set attached when the new hook carries its name. */
  lemma AddAttached(s: seq<HookRec>, hs: HookSet, name: Name, id: nat)
    requires Attached(s, hs) && id < |s| && s[id].name == name
    ensures Attached(s, Add(hs, name, id))
  {
  }

  /**
   * copy holds, for the hooks of hs it has reached, a dup appended to s0:
   * distinct new positions, each the original with that original as parent
   * and an empty own set.
   */
  predicate CopiedSoFar(s0: seq<HookRec>, s: seq<HookRec>, hs: HookSet, copy: HookSet)
  {
    |s| == |s0| + |copy| && s[..|s0|] == s0 && copy.Keys <= hs.Keys &&
    DupsOf(s0, s, hs, copy) && Distinct(copy)
  }

  /** Each hook filed in copy sits past s0 and is the dup of the hook of s0 filed under the same name. */
  predicate DupsOf(s0: seq<HookRec>, s: seq<HookRec>, hs: HookSet, copy: HookSet)
  {
    forall n :: n in copy ==>
      n in hs && hs[n] < |s0| &&
      |s0| <= copy[n] < |s| && s[copy[n]] == s0[hs[n]].(parent := Of(hs[n]), own := [])
  }

  /** No two names share a hook. */
  predicate Distinct(copy: HookSet)
  {
    forall n, m :: n in copy && m in copy && n != m ==> copy[n] != copy[m]
  }

  lemma CopyStep(s0: seq<HookRec>, s: seq<HookRec>, hs: HookSet, copy: HookSet, n: Name)
    requires CopiedSoFar(s0, s, hs, copy) && Attached(s0, hs)
    requires n in hs && n !in copy
    ensures CopiedSoFar(s0, s + [s[hs[n]].(parent := Of(hs[n]), own := [])], hs, copy[n := |s|])
  {
    var t := s + [s[hs[n]].(parent := Of(hs[n]), own := [])];
    var c := copy[n := |s|];
    assert s[hs[n]] == s[..|s0|][hs[n]] == s0[hs[n]];
    assert t[..|s0|] == s[..|s0|];
    assert |c| == |copy| + 1 by {
      assert c.Keys == copy.Keys + {n};
    }
    DupsStep(s0, s, hs, copy, n);
    DistinctStep(copy, n, |s|);
  }

  lemma DupsStep(s0: seq<HookRec>, s: seq<HookRec>, hs: HookSet, copy: HookSet, n: Name)
    requires DupsOf(s0, s, hs, copy) && |s0| <= |s| && n in hs && hs[n] < |s0| && s[hs[n]] == s0[hs[n]]
    ensures DupsOf(s0, s + [s[hs[n]].(parent := Of(hs[n]), own := [])], hs, copy[n := |s|])
  {
    var t := s + [s[hs[n]].(parent := Of(hs[n]), own := [])];
    var c := copy[n := |s|];
    forall m | m in c
      ensures m in hs && hs[m] < |s0| &&
              |s0| <= c[m] < |t| && t[c[m]] == s0[hs[m]].(parent := Of(hs[m]), own := [])
    {
      if m != n {
        assert c[m] == copy[m] && t[copy[m]] == s[copy[m]];
      }
    }
  }

  lemma DistinctStep(copy: HookSet, n: Name, id: nat)
    requires Distinct(copy) && n !in copy && forall m :: m in copy ==> copy[m] < id
    ensures Distinct(copy[n := id])
  {
  }

  /**
   * HookSet#deep_copy: a new set holding a dup of every hook. Each copy is a
   * new hook, distinct from every other, with the original as its parent and
   * no callbacks of its own; the hooks that were there are unchanged.
   */
  method DeepCopy(store: Store, hs: HookSet) returns (copy: HookSet)
    requires store.Valid() && Attached(store.hooks, hs)
    modifies store
    ensures store.Valid()
    ensures Attached(store.hooks, copy) && copy.Keys == hs.Keys
    ensures CopiedSoFar(old(store.hooks), store.hooks, hs, copy)
  {
    ghost var s0 := store.hooks;
    copy := map[];
    var todo := hs.Keys;
    assert s0[..|s0|] == s0;
    while todo != {}
      invariant store.Valid()
      invariant todo <= hs.Keys && (forall x :: x in hs ==> (x in copy <==> x !in todo))
      invariant CopiedSoFar(s0, store.hooks, hs, copy)
      decreases todo
    {
      var n :| n in todo;
      copy := CopyOne(store, s0, hs, copy, n);
      todo := todo - {n};
    }
    CopiedAttached(s0, store.hooks, hs, copy);
  }

  lemma CopiedAttached(s0: seq<HookRec>, s: seq<HookRec>, hs: HookSet, copy: HookSet)
    requires CopiedSoFar(s0, s, hs, copy) && Attached(s0, hs)
    ensures Attached(s, copy)
  {
    forall n | n in copy ensures copy[n] < |s| && s[copy[n]].name == n {
      assert s0[hs[n]].name == n;
    }
  }

  /** One step of deep_copy: dup the hook filed under n and file the dup under n. */
  method CopyOne(store: Store, ghost s0: seq<HookRec>, hs: HookSet, copy: HookSet, n: Name)
    returns (copy': HookSet)
    requires store.Valid() && CopiedSoFar(s0, store.hooks, hs, copy) && Attached(s0, hs)
    requires n in hs && n !in copy
    modifies store
    ensures store.Valid() && copy' == copy[n := old(|store.hooks|)]
    ensures CopiedSoFar(s0, store.hooks, hs, copy')
  {
    CopyStep(s0, store.hooks, hs, copy, n);
    var c := store.Dup(hs[n]);
    copy' := copy[n := c];
  }

  /**
   * A hook of a deep copy yields exactly what its original yields, and keeps
   * doing so as long as neither the copy nor the original chain changes.
   */
  lemma CopyInherits(s0: seq<HookRec>, s: seq<HookRec>, hs: HookSet, copy: HookSet, n: Name)
    requires WellFormed(s0) && WellFormed(s) && CopiedSoFar(s0, s, hs, copy) && n in copy
    ensures EachCallback(s, Of(copy[n])) == EachCallback(s0, Of(hs[n]))
    ensures TotalCallbacks(s, Of(copy[n])) == TotalCallbacks(s0, Of(hs[n]))
  {
    ChainReadsBelow(s0, s, |s0|, Of(hs[n]));
    assert EachCallback(s, Of(copy[n])) == EachCallback(s, Of(hs[n])) + [];
  }
}
