/**
 * Hooks: named callback registries linked to a parent, the chain of parents
 * ending at the NullHook. All Hook objects live in one store, by creation
 * order; a hook's parent is the NullHook or a hook created before it, so every
 * chain is finite. Copies and instance overlays point at the position of the
 * original, so what is added to the original stays visible through them.
 */
module HookStore {
  import opened Base
  import opened Callbacks
  import opened CallbackSets
  import opened Events

  /** The parent of a hook: the NullHook, or the hook at a position of the store. */
  datatype Parent = Null | Of(id: nat)

  /** A Hook: its name, its parent, its declared parameter names and its own CallbackSet. */
  datatype HookRec = HookRec(name: Name, parent: Parent, params: seq<Name>, own: seq<Callback>)

  predicate Below(p: Parent, n: nat)
  {
    p.Of? ==> p.id < n
  }

  function Depth(p: Parent): nat
  {
    if p.Null? then 0 else p.id + 1
  }

  /** Every parent was created before its child, and every own set is a valid CallbackSet. */
  predicate WellFormed(s: seq<HookRec>)
  {
    forall i :: 0 <= i < |s| ==> Below(s[i].parent, i) && CallbackSets.Valid(s[i].own)
  }

  /** Hook#each_callback: the parent chain's callbacks first, then the own ones in index order. */
  function EachCallback(s: seq<HookRec>, p: Parent): seq<Callback>
    requires WellFormed(s) && Below(p, |s|)
    decreases Depth(p)
  {
    if p.Null? then [] else EachCallback(s, s[p.id].parent) + s[p.id].own
  }

  /** Hook#each_callback_reverse: the own callbacks in descending order, then the parent's reverse walk. */
  function EachCallbackReverse(s: seq<HookRec>, p: Parent): seq<Callback>
    requires WellFormed(s) && Below(p, |s|)
    decreases Depth(p)
  {
    if p.Null? then [] else EachReverse(s[p.id].own) + EachCallbackReverse(s, s[p.id].parent)
  }

  /** Hook#total_callbacks: the own count plus the parent's; the NullHook counts 0. */
  function TotalCallbacks(s: seq<HookRec>, p: Parent): nat
    requires WellFormed(s) && Below(p, |s|)
    decreases Depth(p)
  {
    if p.Null? then 0 else |s[p.id].own| + TotalCallbacks(s, s[p.id].parent)
  }

  /** Hook#root?: the parent is the NullHook. */
  predicate IsRoot(s: seq<HookRec>, id: nat)
    requires id < |s|
  {
    s[id].parent.Null?
  }

  /** The total count is the number of callbacks each_callback yields. */
  lemma {:induction false} TotalIsLength(s: seq<HookRec>, p: Parent)
    requires WellFormed(s) && Below(p, |s|)
    ensures TotalCallbacks(s, p) == |EachCallback(s, p)|
    decreases Depth(p)
  {
    if p.Of? {
      TotalIsLength(s, s[p.id].parent);
    }
  }

  /** each_callback_reverse yields exactly the reverse of each_callback. */
  lemma {:induction false} ReverseWalkIsReverse(s: seq<HookRec>, p: Parent)
    requires WellFormed(s) && Below(p, |s|)
    ensures EachCallbackReverse(s, p) == Reverse(EachCallback(s, p))
    decreases Depth(p)
  {
    if p.Of? {
      var up := s[p.id].parent;
      ReverseWalkIsReverse(s, up);
      ReverseAppend(EachCallback(s, up), s[p.id].own);
    }
  }

  /** A chain below position n reads only the hooks below n. */
  lemma {:induction false} ChainReadsBelow(s: seq<HookRec>, t: seq<HookRec>, n: nat, p: Parent)
    requires WellFormed(s) && WellFormed(t)
    requires n <= |s| && n <= |t| && s[..n] == t[..n]
    requires Below(p, n)
    ensures EachCallback(s, p) == EachCallback(t, p)
    ensures EachCallbackReverse(s, p) == EachCallbackReverse(t, p)
    ensures TotalCallbacks(s, p) == TotalCallbacks(t, p)
    decreases Depth(p)
  {
    if p.Of? {
      assert s[p.id] == s[..n][p.id] == t[..n][p.id] == t[p.id];
      ChainReadsBelow(s, t, n, s[p.id].parent);
    }
  }

  /**
   * Changing what one hook owns leaves every ancestor of it as it was:
   * removal and clearing work on the own set alone.
   */
  lemma OwnChangeLeavesAncestors(s: seq<HookRec>, id: nat, own: seq<Callback>)
    requires WellFormed(s) && id < |s| && CallbackSets.Valid(own)
    ensures WellFormed(s[id := s[id].(own := own)])
    ensures EachCallback(s[id := s[id].(own := own)], s[id].parent) == EachCallback(s, s[id].parent)
    ensures TotalCallbacks(s[id := s[id].(own := own)], s[id].parent) == TotalCallbacks(s, s[id].parent)
    ensures EachCallback(s[id := s[id].(own := own)], Of(id)) == EachCallback(s, s[id].parent) + own
  {
    var t := s[id := s[id].(own := own)];
    assert s[..id] == t[..id];
    ChainReadsBelow(s, t, id, s[id].parent);
  }

  /** Hook#clear_callbacks!: the hook keeps exactly what its parent chain holds. */
  lemma ClearKeepsInherited(s: seq<HookRec>, id: nat)
    requires WellFormed(s) && id < |s|
    ensures WellFormed(s[id := s[id].(own := [])])
    ensures EachCallback(s[id := s[id].(own := [])], Of(id)) == EachCallback(s, s[id].parent)
    ensures TotalCallbacks(s[id := s[id].(own := [])], Of(id)) == TotalCallbacks(s, s[id].parent)
  {
    OwnChangeLeavesAncestors(s, id, []);
    assert EachCallback(s, s[id].parent) + [] == EachCallback(s, s[id].parent);
  }

  /**
   * Hook#clear_all_callbacks!: afterwards the hook has no callbacks at all,
   * while its former parent chain is as it was.
   */
  lemma ClearAllLeavesNothing(s: seq<HookRec>, id: nat)
    requires WellFormed(s) && id < |s|
    ensures WellFormed(s[id := s[id].(parent := Null, own := [])])
    ensures EachCallback(s[id := s[id].(parent := Null, own := [])], Of(id)) == []
    ensures TotalCallbacks(s[id := s[id].(parent := Null, own := [])], Of(id)) == 0
    ensures EachCallback(s[id := s[id].(parent := Null, own := [])], s[id].parent) == EachCallback(s, s[id].parent)
  {
    var t := s[id := s[id].(parent := Null, own := [])];
    assert s[..id] == t[..id];
    ChainReadsBelow(s, t, id, s[id].parent);
  }

  /**
   * Hook#dup: the copy, appended to the store with an empty own set and the
   * original as parent, yields exactly what the original yields; the original
   * is unchanged.
   */
  lemma DupInherits(s: seq<HookRec>, id: nat)
    requires WellFormed(s) && id < |s|
    ensures WellFormed(s + [s[id].(parent := Of(id), own := [])])
    ensures EachCallback(s + [s[id].(parent := Of(id), own := [])], Of(|s|)) == EachCallback(s, Of(id))
    ensures TotalCallbacks(s + [s[id].(parent := Of(id), own := [])], Of(|s|)) == TotalCallbacks(s, Of(id))
    ensures EachCallback(s + [s[id].(parent := Of(id), own := [])], Of(id)) == EachCallback(s, Of(id))
  {
    var t := s + [s[id].(parent := Of(id), own := [])];
    assert t[..|s|] == s[..|s|];
    ChainReadsBelow(s, t, |s|, Of(id));
    assert EachCallback(t, Of(|s|)) == EachCallback(t, Of(id)) + [];
  }

  /**
   * An overlay whose parent is hook c sees callbacks added to c later on:
   * reference sharing between a class's hook and its instances' copies.
   */
  lemma OverlaySeesOriginal(s: seq<HookRec>, c: nat, d: nat, own: seq<Callback>)
    requires WellFormed(s) && c < d < |s| && s[d].parent == Of(c) && CallbackSets.Valid(own)
    ensures WellFormed(s[c := s[c].(own := own)])
    ensures EachCallback(s[c := s[c].(own := own)], Of(d)) == EachCallback(s, s[c].parent) + own + s[d].own
  {
    OwnChangeLeavesAncestors(s, c, own);
  }

  /**
   * The callback add_block_callback would insert into a hook, or the error
   * raised before anything changes: External refuses a fixed arity below the
   * parameter count, Basic anything but one argument. An omitted handle
   * becomes the next index, which is also the callback's index.
   */
  function NewCallback(rec: HookRec, kind: Kind, handle: Option<Name>, block: Block): (r: Result<Callback>)
    requires !kind.Method?
    ensures r.Err? <==> (kind.External? && 0 <= block.arity < |rec.params|) || (kind.Basic? && block.arity != 1)
    ensures r.Err? ==> r.error == (if kind.External? then IncompatibleArity else NotSingleArgument)
    ensures r.Ok? ==> r.value.index == NextIndex(rec.own) && r.value.kind == kind && r.value.block == block
    ensures r.Ok? ==> r.value.handle == (if handle.Some? then Sym(handle.value) else Num(NextIndex(rec.own)))
  {
    if kind.External? && block.arity > -1 && block.arity < |rec.params| then Err(IncompatibleArity)
    else if kind.Basic? && block.arity != 1 then Err(NotSingleArgument)
    else
      var next := NextIndex(rec.own);
      var h := if handle.Some? then Sym(handle.value) else Num(next);
      Ok(Callback(h, next, kind, block))
  }

  /**
   * A callback made for a hook goes to the end of its own set, unless its
   * handle is already there, in which case the set is unchanged.
   */
  lemma NewCallbackAppends(rec: HookRec, kind: Kind, handle: Option<Name>, block: Block)
    requires !kind.Method? && CallbackSets.Valid(rec.own) && NewCallback(rec, kind, handle, block).Ok?
    ensures var cb := NewCallback(rec, kind, handle, block).value;
      if exists c :: c in rec.own && c.handle == cb.handle
      then Insert(rec.own, cb) == rec.own
      else Insert(rec.own, cb) == rec.own + [cb]
  {
    var cb := NewCallback(rec, kind, handle, block).value;
    if exists c :: c in rec.own && c.handle == cb.handle {
      var c :| c in rec.own && c.handle == cb.handle;
      assert Compare(c, cb) == 0;
    } else {
      InsertAboveAppends(rec.own, cb);
    }
  }

  /**
   * Hook#remove_callback on the own set: a Symbol removes the member with that
   * handle, an Integer those with that index, any other key is refused.
   */
  function RemoveFrom(own: seq<Callback>, key: Key): (r: Result<seq<Callback>>)
    requires !key.NilKey?
    ensures r.Err? <==> key.OtherKey?
    ensures r.Err? ==> r.error == InvalidKey
    ensures key.SymKey? ==> forall c :: c in r.value <==> c in own && c.handle != Sym(key.sym)
    ensures key.IntKey? ==> forall c :: c in r.value <==> c in own && c.index != key.n
    ensures r.Ok? ==> |r.value| <= |own| && (CallbackSets.Valid(own) ==> CallbackSets.Valid(r.value))
    ensures r.Ok? && Lookup(own, key) == Ok(None) ==> r.value == own
  {
    match key
    case SymKey(h) => Ok(DeleteIf(own, WithHandle(Sym(h))))
    case IntKey(n) => Ok(DeleteIf(own, WithIndex(n)))
    case OtherKey => Err(InvalidKey)
  }

  /**
   * Adding a callback under a handle not yet present and then removing it by
   * that handle, or by its index when the handle was omitted, gives back the
   * own set as it was.
   */
  lemma AddThenRemoveRestores(rec: HookRec, kind: Kind, handle: Option<Name>, block: Block)
    requires !kind.Method? && CallbackSets.Valid(rec.own) && NewCallback(rec, kind, handle, block).Ok?
    requires forall c :: c in rec.own ==> c.handle != NewCallback(rec, kind, handle, block).value.handle
    ensures var cb := NewCallback(rec, kind, handle, block).value;
      RemoveFrom(Insert(rec.own, cb), if handle.Some? then SymKey(handle.value) else IntKey(cb.index)) == Ok(rec.own)
  {
    var cb := NewCallback(rec, kind, handle, block).value;
    InsertAboveAppends(rec.own, cb);
    if handle.Some? {
      RemoveAppended(rec.own, cb, WithHandle(cb.handle));
      assert RemoveFrom(rec.own + [cb], SymKey(handle.value)).value == DeleteIf(rec.own + [cb], WithHandle(cb.handle));
    } else {
      RemoveAppended(rec.own, cb, WithIndex(cb.index));
      assert RemoveFrom(rec.own + [cb], IntKey(cb.index)).value == DeleteIf(rec.own + [cb], WithIndex(cb.index));
    }
  }

  lemma RemoveAppended(own: seq<Callback>, cb: Callback, p: Callback -> bool)
    requires p(cb) && forall c :: c in own ==> !p(c)
    ensures DeleteIf(own + [cb], p) == own
  {
    DeleteIfSnoc(own, cb, p);
    assert DeleteIf(own, p) == own;
    assert own + [] == own;
  }

  /**
   * A change to a hook created later (an instance's or subclass's copy) is
   * invisible through an earlier one (the class's hook it was copied from).
   */
  lemma CopyChangeInvisibleToOriginal(s: seq<HookRec>, c: nat, d: nat, own: seq<Callback>)
    requires WellFormed(s) && c < d < |s| && CallbackSets.Valid(own)
    ensures WellFormed(s[d := s[d].(own := own)])
    ensures EachCallback(s[d := s[d].(own := own)], Of(c)) == EachCallback(s, Of(c))
  {
    var t := s[d := s[d].(own := own)];
    assert s[..d] == t[..d];
    ChainReadsBelow(s, t, d, Of(c));
  }

  class Store {
    /** Every Hook object, by creation order. */
    var hooks: seq<HookRec>

    ghost predicate Valid()
      reads this
    {
      WellFormed(hooks)
    }

    constructor ()
      ensures Valid() && hooks == []
    {
      hooks := [];
    }

    /** Hook.new: a hook with no callbacks under the given parent. */
    method NewHook(name: Name, parent: Parent, params: seq<Name>) returns (id: nat)
      requires Valid() && Below(parent, |hooks|)
      modifies this
      ensures Valid()
      ensures id == old(|hooks|) && hooks == old(hooks) + [HookRec(name, parent, params, [])]
    {
      id := |hooks|;
      hooks := hooks + [HookRec(name, parent, params, [])];
    }

    /** Hook#dup: same name and params, an empty own set, the original as parent. */
    method Dup(id: nat) returns (copy: nat)
      requires Valid() && id < |hooks|
      modifies this
      ensures Valid()
      ensures copy == old(|hooks|)
      ensures hooks == old(hooks) + [old(hooks[id]).(parent := Of(id), own := [])]
      ensures EachCallback(hooks, Of(copy)) == EachCallback(old(hooks), Of(id))
      ensures TotalCallbacks(hooks, Of(copy)) == TotalCallbacks(old(hooks), Of(id))
    {
      DupInherits(hooks, id);
      copy := |hooks|;
      hooks := hooks + [hooks[id].(parent := Of(id), own := [])];
    }

    /** Hook#add_callback: insert into the own set and answer the callback's handle. */
    method AddCallback(id: nat, cb: Callback) returns (h: Handle)
      requires Valid() && id < |hooks|
      modifies this
      ensures Valid()
      ensures h == cb.handle
      ensures hooks == old(hooks)[id := old(hooks[id]).(own := Insert(old(hooks[id].own), cb))]
    {
      hooks := hooks[id := hooks[id].(own := Insert(hooks[id].own, cb))];
      h := cb.handle;
    }

    /**
     * Hook#add_external_callback, #add_basic_callback and #add_internal_callback,
     * through add_block_callback: check the block's arity for its variant, then
     * add it with the next index (and that index as handle when none is given).
     */
    method AddBlockCallback(id: nat, kind: Kind, handle: Option<Name>, block: Block) returns (r: Result<Handle>)
      requires Valid() && id < |hooks|
      requires !kind.Method?
      requires kind.Internal? ==> block.arity <= 0
      modifies this
      ensures Valid()
      ensures NewCallback(old(hooks[id]), kind, handle, block).Err? ==>
        hooks == old(hooks) && r == Err(NewCallback(old(hooks[id]), kind, handle, block).error)
      ensures NewCallback(old(hooks[id]), kind, handle, block).Ok? ==>
        var cb := NewCallback(old(hooks[id]), kind, handle, block).value;
        r == Ok(cb.handle) && hooks == old(hooks)[id := old(hooks[id]).(own := Insert(old(hooks[id].own), cb))]
    {
      var made := NewCallback(hooks[id], kind, handle, block);
      if made.Err? {
        r := Err(made.error);
      } else {
        var h := AddCallback(id, made.value);
        r := Ok(h);
      }
    }

    /** Hook#add_method_callback: the message names the method and is the handle. */
    method AddMethodCallback(id: nat, message: Name, impl: Block) returns (h: Handle)
      requires Valid() && id < |hooks|
      modifies this
      ensures Valid()
      ensures h == Sym(message)
      ensures hooks == old(hooks)[id := old(hooks[id]).(own :=
        Insert(old(hooks[id].own), Callback(Sym(message), NextIndex(old(hooks[id].own)), Method(message), impl)))]
    {
      h := AddCallback(id, Callback(Sym(message), NextIndex(hooks[id].own), Method(message), impl));
    }

    /** Hook#remove_callback: deletes from the own set only; nil keys are refused by assertion. */
    method RemoveCallback(id: nat, key: Key) returns (err: Option<Error>)
      requires Valid() && id < |hooks|
      requires !key.NilKey?
      modifies this
      ensures Valid()
      ensures RemoveFrom(old(hooks[id].own), key).Err? ==>
        hooks == old(hooks) && err == Some(RemoveFrom(old(hooks[id].own), key).error)
      ensures RemoveFrom(old(hooks[id].own), key).Ok? ==>
        err == None && hooks == old(hooks)[id := old(hooks[id]).(own := RemoveFrom(old(hooks[id].own), key).value)]
      ensures EachCallback(hooks, old(hooks[id].parent)) == EachCallback(old(hooks), old(hooks[id].parent))
    {
      var removed := RemoveFrom(hooks[id].own, key);
      if removed.Err? {
        err := Some(removed.error);
      } else {
        OwnChangeLeavesAncestors(hooks, id, removed.value);
        hooks := hooks[id := hooks[id].(own := removed.value)];
        err := None;
      }
    }

    /** Hook#clear_callbacks!: empty the own set; the parent chain is untouched. */
    method ClearCallbacks(id: nat)
      requires Valid() && id < |hooks|
      modifies this
      ensures Valid()
      ensures hooks == old(hooks)[id := old(hooks[id]).(own := [])]
      ensures TotalCallbacks(hooks, Of(id)) == TotalCallbacks(old(hooks), old(hooks[id].parent))
    {
      ClearKeepsInherited(hooks, id);
      hooks := hooks[id := hooks[id].(own := [])];
    }

    /** Hook#disconnect!: a hook that is not a root gets the NullHook as parent. */
    method Disconnect(id: nat)
      requires Valid() && id < |hooks|
      modifies this
      ensures Valid()
      ensures hooks == old(hooks)[id := old(hooks[id]).(parent := Null)]
    {
      if !IsRoot(hooks, id) {
        hooks := hooks[id := hooks[id].(parent := Null)];
      }
    }

    /** Hook#clear_all_callbacks!: disconnect, then clear; nothing is left to yield. */
    method ClearAllCallbacks(id: nat)
      requires Valid() && id < |hooks|
      modifies this
      ensures Valid()
      ensures hooks == old(hooks)[id := old(hooks[id]).(parent := Null, own := [])]
      ensures EachCallback(hooks, Of(id)) == [] && TotalCallbacks(hooks, Of(id)) == 0
    {
      ClearAllLeavesNothing(hooks, id);
      Disconnect(id);
      ClearCallbacks(id);
    }

    /**
     * Hook#execute_callbacks: the parent chain's pass, then each own callback
     * in order with the same event, stopping at the first that raises.
     */
    method ExecuteCallbacks(p: Parent, e: Event, faults: Faults) returns (calls: seq<Invocation>, err: Option<Error>)
      requires Valid() && Below(p, |hooks|)
      ensures (calls, err) == RunAll(EachCallback(hooks, p), e, faults)
      decreases Depth(p)
    {
      if p.Null? {
        return [], None;
      }
      var up := hooks[p.id].parent;
      var own := hooks[p.id].own;
      assert EachCallback(hooks, p) == EachCallback(hooks, up) + own;
      calls, err := ExecuteCallbacks(up, e, faults);
      if err.Some? {
        RunAllAppend(EachCallback(hooks, up), own, e, faults);
      } else {
        calls, err := RunOwn(EachCallback(hooks, up), own, e, faults, calls);
      }
    }
  }

  /** The loop over one hook's own callbacks, after a pass over `before` that raised nothing. */
  method RunOwn(ghost before: seq<Callback>, own: seq<Callback>, e: Event, faults: Faults, done: seq<Invocation>)
    returns (calls: seq<Invocation>, err: Option<Error>)
    requires RunAll(before, e, faults) == (done, None)
    ensures (calls, err) == RunAll(before + own, e, faults)
  {
    calls, err := done, None;
    var i := 0;
    assert before + own[..0] == before;
    while i < |own|
      invariant 0 <= i <= |own|
      invariant err.None?
      invariant (calls, err) == RunAll(before + own[..i], e, faults)
    {
      var r := Call(own[i], e);
      ghost var pre := before + own[..i];
      ghost var next := before + own[..i + 1];
      assert next == pre + [own[i]];
      RunAllSnoc(pre, own[i], e, faults);
      if r.Err? {
        err := Some(r.error);
      } else {
        calls := calls + [r.value];
        err := faults(r.value);
      }
      if err.Some? {
        assert RunAll(next, e, faults) == (calls, err);
        RunAllStopped(next, own[i + 1..], e, faults);
        assert next + own[i + 1..] == before + own;
        return;
      }
      i := i + 1;
    }
    assert own[..|own|] == own;
  }
}
