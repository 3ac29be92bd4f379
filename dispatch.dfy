/**
 * Dispatch: what HookR::Hooks adds to a class and to its instances. Each host
 * (a class that includes the module, or one of its instances) keeps its own
 * HookSet, created on first use: a class starts with an empty set, an
 * instance with a deep copy of its class's set, a subclass with a deep copy of
 * its parent's. Events are dispatched flat (every callback in turn) or, when a
 * block is given, as a chain that callbacks pass on with Event#next.
 */
module Dispatch {
  import opened Base
  import opened Callbacks
  import opened CallbackSets
  import opened Events
  import opened HookStore
  import opened HookSets

  /**
   * execute_hook_iteratively: the wildcard hook's pass, then the named hook's,
   * both with the same event; a hook that does not exist raises IndexError
   * when the dispatch reaches it.
   */
  function FlatDispatch(s: seq<HookRec>, hs: HookSet, name: Name, e: Event, faults: Faults): (r: (seq<Invocation>, Option<Error>))
    requires WellFormed(s) && Attached(s, hs)
    ensures Wildcard !in hs ==> r == ([], Some(NoSuchHook(Wildcard)))
    ensures r.1.None? ==> Wildcard in hs && name in hs
    ensures Wildcard in hs && RunAll(EachCallback(s, Of(hs[Wildcard])), e, faults).1.Some? ==>
      r == RunAll(EachCallback(s, Of(hs[Wildcard])), e, faults)
    ensures Wildcard in hs && name !in hs ==>
      r.1.Some? && r.0 == RunAll(EachCallback(s, Of(hs[Wildcard])), e, faults).0
    ensures Wildcard in hs && name !in hs && RunAll(EachCallback(s, Of(hs[Wildcard])), e, faults).1.None? ==>
      r.1 == Some(NoSuchHook(name))
  {
    if Wildcard !in hs then ([], Some(NoSuchHook(Wildcard)))
    else
      var w := RunAll(EachCallback(s, Of(hs[Wildcard])), e, faults);
      if w.1.Some? then w
      else if name !in hs then (w.0, Some(NoSuchHook(name)))
      else
        var n := RunAll(EachCallback(s, Of(hs[name])), e, faults);
        (w.0 + n.0, n.1)
  }

  /**
   * With both hooks present, a flat dispatch is a single pass over the
   * wildcard hook's callbacks followed by the named hook's, in the order each
   * hook yields them.
   */
  lemma FlatDispatchIsOnePass(s: seq<HookRec>, hs: HookSet, name: Name, e: Event, faults: Faults)
    requires WellFormed(s) && Attached(s, hs) && Wildcard in hs && name in hs
    ensures FlatDispatch(s, hs, name, e, faults) ==
      RunAll(EachCallback(s, Of(hs[Wildcard])) + EachCallback(s, Of(hs[name])), e, faults)
  {
    RunAllAppend(EachCallback(s, Of(hs[Wildcard])), EachCallback(s, Of(hs[name])), e, faults);
  }

  function Lift(cbs: seq<Callback>): (r: seq<Link>)
    ensures |r| == |cbs|
    ensures forall i :: 0 <= i < |cbs| ==> r[i] == Registered(cbs[i])
  {
    seq(|cbs|, i requires 0 <= i < |cbs| => Registered(cbs[i]))
  }

  /**
   * callback_generator: the wildcard hook's callbacks newest first, then the
   * named hook's newest first, then the given block. Where a hook does not
   * exist, the walk raises IndexError on reaching it.
   */
  function CallbackGenerator(s: seq<HookRec>, hs: HookSet, name: Name, block: Block): (r: seq<Link>)
    requires WellFormed(s) && Attached(s, hs)
    ensures r != [] && forall i :: 0 <= i < |r| - 1 ==> r[i].Registered?
    ensures Wildcard !in hs ==> r == [Missing(Wildcard)]
    ensures Wildcard in hs && name !in hs ==>
      r == Lift(Reverse(EachCallback(s, Of(hs[Wildcard])))) + [Missing(name)]
    ensures Wildcard in hs && name in hs ==>
      r == Lift(Reverse(EachCallback(s, Of(hs[Wildcard])))) +
           Lift(Reverse(EachCallback(s, Of(hs[name])))) + [Finally(block)]
  {
    if Wildcard !in hs then [Missing(Wildcard)]
    else
      ReverseWalkIsReverse(s, Of(hs[Wildcard]));
      var head := Lift(EachCallbackReverse(s, Of(hs[Wildcard])));
      if name !in hs then head + [Missing(name)]
      else
        ReverseWalkIsReverse(s, Of(hs[name]));
        head + Lift(EachCallbackReverse(s, Of(hs[name]))) + [Finally(block)]
  }

  /**
   * The calls of a chained run over the links Lift(Reverse(w)) +
   * Lift(Reverse(n)) + [Finally(block)]: the callbacks of w newest first, then
   * those of n newest first, then the block with the arguments alone; the
   * call at position i is made with EventAt(e, plan, i).
   */
  ghost predicate VisitsNewestFirst(w: seq<Callback>, n: seq<Callback>, block: Block,
                                    calls: seq<Invocation>, e: Event, plan: seq<Reply>)
  {
    |calls| <= |w| + |n| + 1 &&
    (forall i :: 0 <= i < |calls| && i < |w| ==>
       Call(w[|w| - 1 - i], EventAt(e, plan, i)) == Ok(calls[i])) &&
    (forall i :: |w| <= i < |calls| && i < |w| + |n| ==>
       Call(n[|n| - 1 - (i - |w|)], EventAt(e, plan, i)) == Ok(calls[i])) &&
    (|calls| == |w| + |n| + 1 ==>
       calls[|w| + |n|] == Invocation(block.code, false, EventAt(e, plan, |w| + |n|),
                                      Plains(EventAt(e, plan, |w| + |n|).arguments)))
  }

  /**
   * A chained dispatch calls the most recently added wildcard callback first
   * and works back to the oldest, then does the same with the named hook's
   * callbacks, and ends with the block, which receives the arguments alone.
   */
  lemma ChainedVisitsNewestFirst(s: seq<HookRec>, hs: HookSet, name: Name, block: Block, e: Event, plan: seq<Reply>)
    requires WellFormed(s) && Attached(s, hs) && Wildcard in hs && name in hs
    ensures VisitsNewestFirst(EachCallback(s, Of(hs[Wildcard])), EachCallback(s, Of(hs[name])), block,
                              Relay(CallbackGenerator(s, hs, name, block), 0, e, plan).0, e, plan)
  {
    ChainVisits(EachCallback(s, Of(hs[Wildcard])), EachCallback(s, Of(hs[name])), block,
                CallbackGenerator(s, hs, name, block), e, plan);
  }

  lemma ChainVisits(w: seq<Callback>, n: seq<Callback>, block: Block, links: seq<Link>, e: Event, plan: seq<Reply>)
    requires links == Lift(Reverse(w)) + Lift(Reverse(n)) + [Finally(block)]
    ensures VisitsNewestFirst(w, n, block, Relay(links, 0, e, plan).0, e, plan)
  {
    RelayFollowsChain(links, e, plan);
    ChainOrder(w, n, block, links, e, plan, Relay(links, 0, e, plan).0);
  }

  lemma ChainOrder(w: seq<Callback>, n: seq<Callback>, block: Block, links: seq<Link>, e: Event, plan: seq<Reply>,
                   calls: seq<Invocation>)
    requires links == Lift(Reverse(w)) + Lift(Reverse(n)) + [Finally(block)]
    requires |calls| <= |links|
    requires forall i :: 0 <= i < |calls| ==> Invoke(links[i], EventAt(e, plan, i)) == Ok(calls[i])
    ensures VisitsNewestFirst(w, n, block, calls, e, plan)
  {
    forall i | 0 <= i < |calls| && i < |w|
      ensures Call(w[|w| - 1 - i], EventAt(e, plan, i)) == Ok(calls[i])
    {
      CallAt(w, n, block, links, e, plan, calls, i);
    }
    forall i | |w| <= i < |calls| && i < |w| + |n|
      ensures Call(n[|n| - 1 - (i - |w|)], EventAt(e, plan, i)) == Ok(calls[i])
    {
      CallAt(w, n, block, links, e, plan, calls, i);
    }
    if |calls| == |w| + |n| + 1 {
      CallAt(w, n, block, links, e, plan, calls, |w| + |n|);
    }
  }

  lemma CallAt(w: seq<Callback>, n: seq<Callback>, block: Block, links: seq<Link>, e: Event, plan: seq<Reply>,
               calls: seq<Invocation>, i: nat)
    requires links == Lift(Reverse(w)) + Lift(Reverse(n)) + [Finally(block)]
    requires i < |calls| <= |links| && Invoke(links[i], EventAt(e, plan, i)) == Ok(calls[i])
    ensures i < |w| ==> Call(w[|w| - 1 - i], EventAt(e, plan, i)) == Ok(calls[i])
    ensures |w| <= i < |w| + |n| ==> Call(n[|n| - 1 - (i - |w|)], EventAt(e, plan, i)) == Ok(calls[i])
    ensures i == |w| + |n| ==>
      calls[i] == Invocation(block.code, false, EventAt(e, plan, i), Plains(EventAt(e, plan, i).arguments))
  {
    LinkAt(w, n, block, links, i);
  }

  lemma LinkAt(w: seq<Callback>, n: seq<Callback>, block: Block, links: seq<Link>, i: nat)
    requires links == Lift(Reverse(w)) + Lift(Reverse(n)) + [Finally(block)]
    requires i < |links|
    ensures i < |w| ==> links[i] == Registered(w[|w| - 1 - i])
    ensures |w| <= i < |w| + |n| ==> links[i] == Registered(n[|n| - 1 - (i - |w|)])
    ensures i == |w| + |n| ==> links[i] == Finally(block)
  {
    var rw, rn := Reverse(w), Reverse(n);
    var lw, ln := Lift(rw), Lift(rn);
    assert |lw| == |w| && |ln| == |n|;
    if i < |w| {
      assert links[i] == lw[i] == Registered(rw[i]);
    } else if i < |w| + |n| {
      assert links[i] == ln[i - |w|] == Registered(rn[i - |w|]);
    } else if i == |w| + |n| {
      assert links[i] == [Finally(block)][0];
    }
  }

  /** The handle add_listener gives a listener by default: listener_ followed by its object_id. */
  function ListenerHandle(o: ObjectId): (r: Name)
    ensures |r| > 9 && r[..9] == "listener_" && r[9..] == Decimal(o)
  {
    "listener_" + Decimal(o)
  }

  /** Distinct listeners get distinct default handles. */
  lemma ListenerHandleInjective(a: ObjectId, b: ObjectId)
    requires ListenerHandle(a) == ListenerHandle(b)
    ensures a == b
  {
    DecimalInjective(a, b);
  }

  /** The block add_listener registers: it takes the event and forwards it to the listener. */
  function ListenerBlock(o: ObjectId): Block
  {
    Block(Forwarder(o), 1)
  }

  /** A message sent to an object: receiver, method name, arguments. */
  datatype Message = Message(receiver: ObjectId, selector: Name, arguments: seq<Value>)

  /** What a forwarding block sends when called: a message to its listener named after the event, with the event's arguments. */
  function Forwarded(inv: Invocation): (r: Option<Message>)
    ensures r.Some? ==> inv.code.Forwarder? && r.value.receiver == inv.code.listener
  {
    if inv.code.Forwarder? && inv.args == [TheEvent]
    then Some(Message(inv.code.listener, inv.event.name, inv.event.arguments))
    else None
  }

  /**
   * A listener's callback never fails, whatever the arguments, and sends the
   * listener the method named after the event with the event's arguments.
   */
  lemma ListenerHearsEvent(rec: HookRec, o: ObjectId, handle: Name, e: Event)
    ensures NewCallback(rec, Basic, Some(handle), ListenerBlock(o)).Ok?
    ensures var cb := NewCallback(rec, Basic, Some(handle), ListenerBlock(o)).value;
      Call(cb, e).Ok? && Forwarded(Call(cb, e).value) == Some(Message(o, e.name, e.arguments))
  {
  }

  /** Remove a listener by its handle, or by the listener object (any non-Symbol key). */
  datatype ListenerKey = ByHandle(sym: Name) | ByObject(obj: ObjectId)

  /** The store after some hook's own set changed: names and positions are kept. */
  lemma UpdateExtends(s: seq<HookRec>, id: nat, rec: HookRec)
    requires id < |s| && rec.name == s[id].name
    ensures Extends(s, s[id := rec])
  {
  }

  lemma PrefixExtends(s: seq<HookRec>, t: seq<HookRec>)
    requires |s| <= |t| && t[..|s|] == s
    ensures Extends(s, t)
  {
    forall i | 0 <= i < |s| ensures t[i].name == s[i].name {
      assert t[i] == t[..|s|][i];
    }
  }

  lemma ExtendsTrans(s: seq<HookRec>, t: seq<HookRec>, u: seq<HookRec>)
    requires Extends(s, t) && Extends(t, u)
    ensures Extends(s, u)
  {
  }

  /**
   * What fetch_or_create_hooks leaves behind: the set already there; for a
   * class without one, an empty set; for an instance without one, a deep copy
   * of its class's set.
   */
  ghost predicate Fetched(s0: seq<HookRec>, h0: Option<HookSet>, ch: Option<HookSet>, s: seq<HookRec>, hs: HookSet)
  {
    if h0.Some? then s == s0 && hs == h0.value
    else if ch.None? then s == s0 && hs == map[]
    else CopiedSoFar(s0, s, ch.value, hs) && hs.Keys == ch.value.Keys
  }

  /** The store after adding a block callback of the given variant to the hook filed under name. */
  ghost predicate Added(s0: seq<HookRec>, hs: HookSet, name: Name, kind: Kind, handle: Option<Name>, block: Block,
                        s: seq<HookRec>, r: Result<Handle>)
  {
    if name !in hs then s == s0 && r == Err(NoSuchHook(name))
    else
      WellFormed(s0) && hs[name] < |s0| && !kind.Method? &&
      var id := hs[name];
      var made := NewCallback(s0[id], kind, handle, block);
      if made.Err? then s == s0 && r == Err(made.error)
      else r == Ok(made.value.handle) && s == s0[id := s0[id].(own := Insert(s0[id].own, made.value))]
  }

  /** The store after adding a method callback for message to the hook filed under name. */
  ghost predicate MethodAdded(s0: seq<HookRec>, hs: HookSet, name: Name, message: Name, methods: map<Name, Block>,
                              s: seq<HookRec>, r: Result<Handle>)
  {
    if name !in hs then s == s0 && r == Err(NoSuchHook(name))
    else if message !in methods then s == s0 && r == Err(UndefinedMethod(message))
    else
      WellFormed(s0) && hs[name] < |s0| &&
      var id := hs[name];
      var cb := Callback(Sym(message), NextIndex(s0[id].own), Method(message), methods[message]);
      r == Ok(Sym(message)) && s == s0[id := s0[id].(own := Insert(s0[id].own, cb))]
  }

  /** The store after removing by key from the own set of the hook filed under name. */
  ghost predicate Removed(s0: seq<HookRec>, hs: HookSet, name: Name, key: Key, s: seq<HookRec>, err: Option<Error>)
  {
    if name !in hs then s == s0 && err == Some(NoSuchHook(name))
    else
      hs[name] < |s0| && !key.NilKey? &&
      var id := hs[name];
      var r := RemoveFrom(s0[id].own, key);
      if r.Err? then s == s0 && err == Some(r.error)
      else err.None? && s == s0[id := s0[id].(own := r.value)]
  }

  /** Look the hook up by name in the set and add a block callback of the given variant to it. */
  method AddToHook(store: Store, hs: HookSet, name: Name, kind: Kind, handle: Option<Name>, block: Block)
    returns (r: Result<Handle>)
    requires store.Valid() && Attached(store.hooks, hs)
    requires !kind.Method? && (kind.Internal? ==> block.arity <= 0)
    modifies store
    ensures store.Valid() && Extends(old(store.hooks), store.hooks)
    ensures Added(old(store.hooks), hs, name, kind, handle, block, store.hooks, r)
  {
    var g := Get(hs, name);
    if g.Err? {
      r := Err(g.error);
      return;
    }
    r := store.AddBlockCallback(g.value, kind, handle, block);
    UpdateExtends(old(store.hooks), g.value, store.hooks[g.value]);
  }

  /** Look the hook up by name in the set and remove by key from its own set. */
  method RemoveFromHook(store: Store, hs: HookSet, name: Name, key: Key) returns (err: Option<Error>)
    requires store.Valid() && Attached(store.hooks, hs)
    requires key.NilKey? ==> name !in hs
    modifies store
    ensures store.Valid() && Extends(old(store.hooks), store.hooks)
    ensures Removed(old(store.hooks), hs, name, key, store.hooks, err)
  {
    var g := Get(hs, name);
    if g.Err? {
      err := Some(g.error);
      return;
    }
    err := store.RemoveCallback(g.value, key);
    UpdateExtends(old(store.hooks), g.value, store.hooks[g.value]);
  }

  /**
   * A host of hooks: a class that includes HookR::Hooks (klass is null), or
   * an instance of one (klass is its class). hooks is @hooks, nil until first
   * used; its hooks live in the shared store.
   */
  class Host {
    const id: ObjectId
    const klass: Host?
    var hooks: Option<HookSet>

    constructor Class(id: ObjectId)
      ensures this.id == id && klass == null && hooks.None?
    {
      this.id := id;
      klass := null;
      hooks := None;
    }

    constructor Instance(id: ObjectId, klass: Host)
      requires klass.klass == null
      ensures this.id == id && this.klass == klass && hooks.None?
    {
      this.id := id;
      this.klass := klass;
      hooks := None;
    }

    /** The class's hook set an instance copies from; none for a class. */
    ghost function ClassHooks(): Option<HookSet>
      reads this, klass
    {
      if klass == null then None else klass.hooks
    }

    /**
     * The store is well formed and this host's set, and its class's, are
     * attached to it. A class's set exists once the module is included.
     */
    ghost predicate Valid(store: Store)
      reads this, klass, store
    {
      store.Valid() &&
      (hooks.Some? ==> Attached(store.hooks, hooks.value)) &&
      (klass != null ==> klass.klass == null && klass.hooks.Some? && Attached(store.hooks, klass.hooks.value))
    }

    /** The names of the hooks this host has, or will have once its set is created. */
    ghost function Names(): set<Name>
      reads this, klass
    {
      if hooks.Some? then hooks.value.Keys
      else if ClassHooks().Some? then ClassHooks().value.Keys
      else {}
    }

    /**
     * fetch_or_create_hooks: at class level an empty set, at instance level a
     * deep copy of the class's set, created on first use and kept from then on.
     */
    method FetchOrCreateHooks(store: Store) returns (hs: HookSet)
      requires Valid(store)
      modifies this, store
      ensures Valid(store) && hooks == Some(hs) && hs.Keys == old(Names())
      ensures ClassHooks() == old(ClassHooks())
      ensures Fetched(old(store.hooks), old(hooks), ClassHooks(), store.hooks, hs)
      ensures Extends(old(store.hooks), store.hooks)
    {
      if hooks.Some? {
        hs := hooks.value;
        return;
      }
      if klass == null {
        hs := map[];
      } else {
        ghost var s0 := store.hooks;
        hs := DeepCopy(store, klass.hooks.value);
        PrefixExtends(s0, store.hooks);
        AttachedExtends(s0, store.hooks, klass.hooks.value);
      }
      hooks := Some(hs);
    }

    /** The hook-level work of add_block_callback, add_external_callback and add_basic_callback. */
    method AddKind(store: Store, name: Name, kind: Kind, handle: Option<Name>, block: Block)
      returns (r: Result<Handle>, ghost mid: seq<HookRec>)
      requires Valid(store) && !kind.Method? && (kind.Internal? ==> block.arity <= 0)
      modifies this, store
      ensures Valid(store) && hooks.Some? && Extends(old(store.hooks), store.hooks)
      ensures Fetched(old(store.hooks), old(hooks), ClassHooks(), mid, hooks.value)
      ensures Added(mid, hooks.value, name, kind, handle, block, store.hooks, r)
    {
      var hs := FetchOrCreateHooks(store);
      mid := store.hooks;
      r := AddToHook(store, hs, name, kind, handle, block);
      AttachedExtends(mid, store.hooks, hs);
      if klass != null {
        AttachedExtends(mid, store.hooks, klass.hooks.value);
      }
      ExtendsTrans(old(store.hooks), mid, store.hooks);
    }

    /** add_external_callback: a callback that runs outside the source and gets the event adapted to its arity. */
    method AddExternalCallback(store: Store, name: Name, handle: Option<Name>, block: Block)
      returns (r: Result<Handle>, ghost mid: seq<HookRec>)
      requires Valid(store)
      modifies this, store
      ensures Valid(store) && hooks.Some? && Extends(old(store.hooks), store.hooks)
      ensures Fetched(old(store.hooks), old(hooks), ClassHooks(), mid, hooks.value)
      ensures Added(mid, hooks.value, name, External, handle, block, store.hooks, r)
    {
      r, mid := AddKind(store, name, External, handle, block);
    }

    /** add_basic_callback: a callback that gets the event alone; its block must take one argument. */
    method AddBasicCallback(store: Store, name: Name, handle: Option<Name>, block: Block)
      returns (r: Result<Handle>, ghost mid: seq<HookRec>)
      requires Valid(store)
      modifies this, store
      ensures Valid(store) && hooks.Some? && Extends(old(store.hooks), store.hooks)
      ensures Fetched(old(store.hooks), old(hooks), ClassHooks(), mid, hooks.value)
      ensures Added(mid, hooks.value, name, Basic, handle, block, store.hooks, r)
    {
      r, mid := AddKind(store, name, Basic, handle, block);
    }

    /**
     * add_block_callback: a block of arity -1 or 0 becomes an internal
     * callback, any other an external one.
     */
    method AddBlockCallback(store: Store, name: Name, handle: Option<Name>, block: Block)
      returns (r: Result<Handle>, ghost mid: seq<HookRec>)
      requires Valid(store)
      modifies this, store
      ensures Valid(store) && hooks.Some? && Extends(old(store.hooks), store.hooks)
      ensures Fetched(old(store.hooks), old(hooks), ClassHooks(), mid, hooks.value)
      ensures Added(mid, hooks.value, name, BlockKind(block), handle, block, store.hooks, r)
    {
      r, mid := AddKind(store, name, BlockKind(block), handle, block);
    }

    /**
     * add_method_callback: a callback that sends message to the event source.
     * The method is looked up among the class's instance methods, so only a
     * class can add one.
     */
    method AddMethodCallback(store: Store, name: Name, message: Name, methods: map<Name, Block>)
      returns (r: Result<Handle>, ghost mid: seq<HookRec>)
      requires Valid(store) && klass == null
      modifies this, store
      ensures Valid(store) && hooks.Some? && Extends(old(store.hooks), store.hooks)
      ensures Fetched(old(store.hooks), old(hooks), ClassHooks(), mid, hooks.value)
      ensures MethodAdded(mid, hooks.value, name, message, methods, store.hooks, r)
    {
      var hs := FetchOrCreateHooks(store);
      mid := store.hooks;
      var g := Get(hs, name);
      if g.Err? {
        r := Err(g.error);
        return;
      }
      if message !in methods {
        r := Err(UndefinedMethod(message));
        return;
      }
      var h := store.AddMethodCallback(g.value, message, methods[message]);
      r := Ok(h);
      UpdateExtends(mid, g.value, store.hooks[g.value]);
      AttachedExtends(mid, store.hooks, hs);
      ExtendsTrans(old(store.hooks), mid, store.hooks);
    }

    /**
     * add_callback: with a block, a block callback under the given handle;
     * without one, a method callback for the named method.
     */
    method AddCallback(store: Store, name: Name, handleOrMethod: Option<Name>, block: Option<Block>,
                       methods: map<Name, Block>)
      returns (r: Result<Handle>, ghost mid: seq<HookRec>)
      requires Valid(store)
      requires block.None? ==> klass == null && handleOrMethod.Some?
      modifies this, store
      ensures Valid(store) && hooks.Some? && Extends(old(store.hooks), store.hooks)
      ensures Fetched(old(store.hooks), old(hooks), ClassHooks(), mid, hooks.value)
      ensures block.Some? ==>
        Added(mid, hooks.value, name, BlockKind(block.value), handleOrMethod, block.value, store.hooks, r)
      ensures block.None? ==>
        MethodAdded(mid, hooks.value, name, handleOrMethod.value, methods, store.hooks, r)
    {
      if block.Some? {
        r, mid := AddBlockCallback(store, name, handleOrMethod, block.value);
      } else {
        r, mid := AddMethodCallback(store, name, handleOrMethod.value, methods);
      }
    }

    /** add_wildcard_callback: a basic callback on the wildcard hook, which sees every event. */
    method AddWildcardCallback(store: Store, handle: Option<Name>, block: Block)
      returns (r: Result<Handle>, ghost mid: seq<HookRec>)
      requires Valid(store)
      modifies this, store
      ensures Valid(store) && hooks.Some? && Extends(old(store.hooks), store.hooks)
      ensures Fetched(old(store.hooks), old(hooks), ClassHooks(), mid, hooks.value)
      ensures Added(mid, hooks.value, Wildcard, Basic, handle, block, store.hooks, r)
    {
      r, mid := AddBasicCallback(store, Wildcard, handle, block);
    }

    /** remove_callback: remove by key from the own set of the named hook. */
    method RemoveCallback(store: Store, name: Name, key: Key) returns (err: Option<Error>, ghost mid: seq<HookRec>)
      requires Valid(store)
      requires key.NilKey? ==> name !in Names()
      modifies this, store
      ensures Valid(store) && hooks.Some? && Extends(old(store.hooks), store.hooks)
      ensures Fetched(old(store.hooks), old(hooks), ClassHooks(), mid, hooks.value)
      ensures Removed(mid, hooks.value, name, key, store.hooks, err)
    {
      var hs := FetchOrCreateHooks(store);
      mid := store.hooks;
      err := RemoveFromHook(store, hs, name, key);
      AttachedExtends(mid, store.hooks, hs);
      if klass != null {
        AttachedExtends(mid, store.hooks, klass.hooks.value);
      }
      ExtendsTrans(old(store.hooks), mid, store.hooks);
    }

    /** remove_wildcard_callback: remove by key from the wildcard hook. */
    method RemoveWildcardCallback(store: Store, key: Key) returns (err: Option<Error>, ghost mid: seq<HookRec>)
      requires Valid(store)
      requires key.NilKey? ==> Wildcard !in Names()
      modifies this, store
      ensures Valid(store) && hooks.Some? && Extends(old(store.hooks), store.hooks)
      ensures Fetched(old(store.hooks), old(hooks), ClassHooks(), mid, hooks.value)
      ensures Removed(mid, hooks.value, Wildcard, key, store.hooks, err)
    {
      err, mid := RemoveCallback(store, Wildcard, key);
    }

    /**
     * add_listener: a wildcard callback that forwards every event to the
     * listener, under the given handle or by default listener_<object_id>.
     */
    method AddListener(store: Store, listener: ObjectId, handle: Option<Name>)
      returns (r: Result<Handle>, ghost mid: seq<HookRec>)
      requires Valid(store) && klass != null
      modifies this, store
      ensures Valid(store) && hooks.Some? && Extends(old(store.hooks), store.hooks)
      ensures Fetched(old(store.hooks), old(hooks), ClassHooks(), mid, hooks.value)
      ensures Added(mid, hooks.value, Wildcard, Basic, Some(handle.GetOr(ListenerHandle(listener))),
                    ListenerBlock(listener), store.hooks, r)
      ensures Wildcard in hooks.value ==> r == Ok(Sym(handle.GetOr(ListenerHandle(listener))))
    {
      r, mid := AddWildcardCallback(store, Some(handle.GetOr(ListenerHandle(listener))), ListenerBlock(listener));
    }

    /** remove_listener: by handle, or by the listener, through its default handle. */
    method RemoveListener(store: Store, key: ListenerKey) returns (err: Option<Error>, ghost mid: seq<HookRec>)
      requires Valid(store) && klass != null
      modifies this, store
      ensures Valid(store) && hooks.Some? && Extends(old(store.hooks), store.hooks)
      ensures Fetched(old(store.hooks), old(hooks), ClassHooks(), mid, hooks.value)
      ensures Removed(mid, hooks.value, Wildcard,
                      SymKey(if key.ByHandle? then key.sym else ListenerHandle(key.obj)), store.hooks, err)
    {
      var h := if key.ByHandle? then key.sym else ListenerHandle(key.obj);
      err, mid := RemoveWildcardCallback(store, SymKey(h));
    }

    /**
     * define_hook: a new root hook with the given parameters joins the class's
     * set, unless the set already has a hook of that name, which it keeps.
     */
    method DefineHook(store: Store, name: Name, params: seq<Name>)
      requires Valid(store) && klass == null
      modifies this, store
      ensures Valid(store) && Extends(old(store.hooks), store.hooks)
      ensures store.hooks == old(store.hooks) + [HookRec(name, Null, params, [])]
      ensures hooks == Some(Add(old(hooks).GetOr(map[]), name, old(|store.hooks|)))
    {
      var hs := FetchOrCreateHooks(store);
      var h := store.NewHook(name, Null, params);
      PrefixExtends(old(store.hooks), store.hooks);
      AttachedExtends(old(store.hooks), store.hooks, hs);
      AddAttached(store.hooks, hs, name, h);
      hooks := Some(Add(hs, name, h));
    }

    /** Hooks.included: the including class gets the wildcard hook. */
    method Include(store: Store)
      requires Valid(store) && klass == null
      modifies this, store
      ensures Valid(store) && Extends(old(store.hooks), store.hooks)
      ensures store.hooks == old(store.hooks) + [HookRec(Wildcard, Null, [], [])]
      ensures hooks == Some(Add(old(hooks).GetOr(map[]), Wildcard, old(|store.hooks|)))
      ensures Wildcard in hooks.value && hooks.value.Keys == old(hooks).GetOr(map[]).Keys + {Wildcard}
    {
      DefineHook(store, Wildcard, []);
    }

    /**
     * inherited: a subclass starts with a deep copy of this class's set, each
     * hook a child of the class's hook of the same name.
     */
    method Inherited(store: Store, child: Host)
      requires Valid(store) && klass == null && child.klass == null && child != this
      modifies this, child, store
      ensures Valid(store) && child.Valid(store) && Extends(old(store.hooks), store.hooks)
      ensures hooks == Some(old(hooks).GetOr(map[]))
      ensures child.hooks.Some? && child.hooks.value.Keys == hooks.value.Keys
      ensures CopiedSoFar(old(store.hooks), store.hooks, hooks.value, child.hooks.value)
    {
      var hs := FetchOrCreateHooks(store);
      ghost var mid := store.hooks;
      var copy := DeepCopy(store, hs);
      PrefixExtends(mid, store.hooks);
      AttachedExtends(mid, store.hooks, hs);
      ExtendsTrans(old(store.hooks), mid, store.hooks);
      child.hooks := Some(copy);
    }

    /** execute_hook without a block: the flat dispatch. Nothing changes but hook creation. */
    method ExecuteHookIteratively(store: Store, event: Event, faults: Faults)
      returns (calls: seq<Invocation>, err: Option<Error>, ghost mid: seq<HookRec>)
      requires Valid(store) && klass != null
      modifies this, store
      ensures Valid(store) && hooks.Some? && store.hooks == mid
      ensures Fetched(old(store.hooks), old(hooks), ClassHooks(), mid, hooks.value)
      ensures (calls, err) == FlatDispatch(store.hooks, hooks.value, event.name, event, faults)
    {
      var hs := FetchOrCreateHooks(store);
      mid := store.hooks;
      var w := Get(hs, Wildcard);
      if w.Err? {
        return [], Some(w.error), mid;
      }
      calls, err := store.ExecuteCallbacks(Of(w.value), event, faults);
      if err.Some? {
        return;
      }
      var n := Get(hs, event.name);
      if n.Err? {
        err := Some(n.error);
        return;
      }
      var more, last := store.ExecuteCallbacks(Of(n.value), event, faults);
      calls, err := calls + more, last;
    }

    /**
     * execute_hook with a block: the chain built by callback_generator becomes
     * the event's cursor, and the first next is called on it.
     */
    method ExecuteHookRecursively(store: Store, e: Event, block: Block, plan: seq<Reply>)
      returns (event: Event, calls: seq<Invocation>, err: Option<Error>, ghost mid: seq<HookRec>)
      requires Valid(store) && klass != null && e.recursive
      modifies this, store
      ensures Valid(store) && hooks.Some? && store.hooks == mid
      ensures Fetched(old(store.hooks), old(hooks), ClassHooks(), mid, hooks.value)
      ensures event == e.(callbacks := event.callbacks) && event.callbacks.Some?
      ensures fresh(event.callbacks.value)
      ensures event.callbacks.value.links == CallbackGenerator(store.hooks, hooks.value, e.name, block)
      ensures (calls, err) == Relay(event.callbacks.value.links, 0, event, plan)
    {
      var hs := FetchOrCreateHooks(store);
      mid := store.hooks;
      var cursor := new Cursor(CallbackGenerator(store.hooks, hs, e.name, block));
      event := e.(callbacks := Some(cursor));
      calls, err := Drive(event, event, [], plan, 0);
    }

    /**
     * execute_hook: raise the event name with the arguments from this host;
     * flat without a block, chained with one. faults says what the callbacks
     * of a flat dispatch raise; plan says what each link of a chain does with
     * the event it is handed.
     */
    method ExecuteHook(store: Store, name: Name, args: seq<Value>, block: Option<Block>, plan: seq<Reply>,
                       faults: Faults)
      returns (event: Event, calls: seq<Invocation>, err: Option<Error>, ghost mid: seq<HookRec>)
      requires Valid(store) && klass != null
      modifies this, store
      ensures Valid(store) && hooks.Some? && store.hooks == mid
      ensures Fetched(old(store.hooks), old(hooks), ClassHooks(), mid, hooks.value)
      ensures event.source == id && event.name == name && event.arguments == args
      ensures event.recursive == block.Some?
      ensures block.None? ==>
        event.callbacks.None? && (calls, err) == FlatDispatch(store.hooks, hooks.value, name, event, faults)
      ensures block.Some? ==>
        event.callbacks.Some? && fresh(event.callbacks.value) &&
        event.callbacks.value.links == CallbackGenerator(store.hooks, hooks.value, name, block.value) &&
        (calls, err) == Relay(event.callbacks.value.links, 0, event, plan)
    {
      event := Event(id, name, args, block.Some?, None);
      if block.Some? {
        event, calls, err, mid := ExecuteHookRecursively(store, event, block.value, plan);
      } else {
        calls, err, mid := ExecuteHookIteratively(store, event, faults);
      }
    }
  }
}
