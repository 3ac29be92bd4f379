/**
 * Events: the record a dispatch hands to each callback, the argument
 * adaptation Event#to_args performs, how each callback variant is called, and
 * the shared cursor through which Event#next walks a chained dispatch.
 */
module Events {
  import opened Base
  import opened Callbacks

  /** One entry of the argument list a callback receives: the event itself, or one of its arguments. */
  datatype Arg = TheEvent | Plain(v: Value)

  /**
   * Event: who raised it, under which hook name, with which arguments, whether
   * the dispatch is chained, and (in a chained dispatch) the shared cursor.
   */
  datatype Event = Event(source: ObjectId, name: Name, arguments: seq<Value>,
                         recursive: bool, callbacks: Option<Cursor>)

  /**
   * One element of a chain: a registered callback, the terminal block, or the
   * point at which the walk looks up a hook that does not exist.
   */
  datatype Link = Registered(cb: Callback) | Finally(block: Block) | Missing(name: Name)

  /**
   * The observable effect of calling a callback: which code ran, whether it ran
   * in the context of the event source, the event it was handed and the
   * argument list it was called with.
   */
  datatype Invocation = Invocation(code: Code, inSource: bool, event: Event, args: seq<Arg>)

  /**
   * What the code of a callback raises when it runs as an invocation
   * describes, or None when it returns normally: the code itself is opaque,
   * so this is given with the dispatch.
   */
  type Faults = Invocation -> Option<Error>

  /** The Ruby Generator of a chained dispatch: the chain, and how far it has been consumed. */
  class Cursor {
    const links: seq<Link>
    var pos: nat

    constructor (links: seq<Link>)
      ensures this.links == links && pos == 0
    {
      this.links := links;
      pos := 0;
    }
  }

  function Plains(vs: seq<Value>): (r: seq<Arg>)
    ensures |r| == |vs|
    ensures forall i :: 0 <= i < |vs| ==> r[i] == Plain(vs[i])
  {
    seq(|vs|, i requires 0 <= i < |vs| => Plain(vs[i]))
  }

  /** The values of an argument list, the event dropped. */
  function Values(args: seq<Arg>): seq<Value>
  {
    if args == [] then []
    else (if args[0].Plain? then [args[0].v] else []) + Values(args[1..])
  }

  /**
   * Event#to_args: the event followed by its arguments is sliced down to the
   * arity, which must lie between the argument count and one more (or be -1).
   */
  function ToArgs(e: Event, arity: int): (r: Result<seq<Arg>>)
    ensures r.Ok? <==> arity == -1 || arity == |e.arguments| || arity == |e.arguments| + 1
    ensures arity == -1 || arity == |e.arguments| + 1 ==> r == Ok([TheEvent] + Plains(e.arguments))
    ensures arity == |e.arguments| ==> r == Ok(Plains(e.arguments))
    ensures r.Err? ==> r.error == ArityOutOfRange(|e.arguments|, |e.arguments| + 1)
  {
    var full := [TheEvent] + Plains(e.arguments);
    if arity == -1 then Ok(full)
    else if |e.arguments| <= arity <= |full| then
      // the last arity entries: the event is dropped when arity is the argument count
      var start := |full| - arity;
      assert full[0..|full|] == full && full[1..|full|] == Plains(e.arguments);
      Ok(full[start .. start + arity])
    else Err(ArityOutOfRange(|e.arguments|, |full|))
  }

  lemma {:induction false} ValuesOfPlains(vs: seq<Value>)
    ensures Values(Plains(vs)) == vs
    ensures Values([TheEvent] + Plains(vs)) == vs
  {
    if vs != [] {
      assert Plains(vs)[1..] == Plains(vs[1..]);
      ValuesOfPlains(vs[1..]);
    }
    assert ([TheEvent] + Plains(vs))[1..] == Plains(vs);
  }

  /** to_args never hands a callback a proper subset of the arguments: all of them, in order, or an error. */
  lemma ToArgsKeepsEveryArgument(e: Event, arity: int)
    requires ToArgs(e, arity).Ok?
    ensures Values(ToArgs(e, arity).value) == e.arguments
    ensures |ToArgs(e, arity).value| >= |e.arguments|
  {
    ValuesOfPlains(e.arguments);
  }

  /**
   * Callback#call of each variant. External and Method callbacks adapt the
   * event to their arity, which can fail; a Basic callback gets just the event;
   * an Internal callback runs in the source's context with nothing passed.
   */
  function Call(cb: Callback, e: Event): (r: Result<Invocation>)
    ensures r.Err? <==> (cb.kind.External? || cb.kind.Method?) && ToArgs(e, cb.block.arity).Err?
    ensures r.Err? ==> r.error == ToArgs(e, cb.block.arity).error
    ensures r.Ok? ==> r.value.code == cb.block.code && r.value.event == e
    ensures r.Ok? ==> r.value.inSource == (cb.kind.Internal? || cb.kind.Method?)
    ensures r.Ok? && cb.kind.Basic? ==> r.value.args == [TheEvent]
    ensures r.Ok? && cb.kind.Internal? ==> r.value.args == []
    ensures r.Ok? && (cb.kind.External? || cb.kind.Method?) ==> r.value.args == ToArgs(e, cb.block.arity).value
  {
    match cb.kind
    case External =>
      var a := ToArgs(e, cb.block.arity);
      if a.Err? then Err(a.error) else Ok(Invocation(cb.block.code, false, e, a.value))
    case Basic => Ok(Invocation(cb.block.code, false, e, [TheEvent]))
    case Internal => Ok(Invocation(cb.block.code, true, e, []))
    case Method(_) =>
      var a := ToArgs(e, cb.block.arity);
      if a.Err? then Err(a.error) else Ok(Invocation(cb.block.code, true, e, a.value))
  }

  /**
   * Calling one element of a chain: the terminal block receives the event's
   * arguments, the event stripped off; reaching a missing hook raises IndexError.
   */
  function Invoke(l: Link, e: Event): (r: Result<Invocation>)
    ensures l.Finally? ==> r == Ok(Invocation(l.block.code, false, e, Plains(e.arguments)))
    ensures l.Registered? ==> r == Call(l.cb, e)
    ensures l.Missing? ==> r == Err(NoSuchHook(l.name))
  {
    match l
    case Registered(cb) => Call(cb, e)
    case Finally(b) => Ok(Invocation(b.code, false, e, Plains(e.arguments)))
    case Missing(n) => Err(NoSuchHook(n))
  }

  /** The event Event#next hands on: a copy of e whose arguments are replaced when next was given any. */
  function NextEvent(e: Event, args: seq<Value>): (r: Event)
    ensures r.source == e.source && r.name == e.name && r.recursive == e.recursive
    ensures r.callbacks == e.callbacks
    ensures r.arguments == if args == [] then e.arguments else args
  {
    Event(e.source, e.name, if args == [] then e.arguments else args, e.recursive, e.callbacks)
  }

  /**
   * Event#next: take the next element of the shared chain and call it with a
   * fresh event, or fail once the chain is used up.
   */
  method Next(e: Event, args: seq<Value>) returns (r: Result<Invocation>)
    requires e.recursive && e.callbacks.Some?
    modifies e.callbacks.value
    ensures var c := e.callbacks.value;
      if old(c.pos) < |c.links| then
        c.pos == old(c.pos) + 1 && r == Invoke(c.links[old(c.pos)], NextEvent(e, args))
      else
        c.pos == old(c.pos) && r == Err(NoMoreCallbacks)
  {
    var event := NextEvent(e, args);
    var c := e.callbacks.value;
    if c.pos < |c.links| {
      var link := c.links[c.pos];
      c.pos := c.pos + 1;
      r := Invoke(link, event);
    } else {
      r := Err(NoMoreCallbacks);
    }
  }

  /**
   * The flat pass over a list of callbacks: each is called in turn with the
   * same event until one cannot be called or its code raises.
   */
  function RunAll(cbs: seq<Callback>, e: Event, faults: Faults): (seq<Invocation>, Option<Error>)
    decreases |cbs|
  {
    if cbs == [] then ([], None)
    else
      var prior := RunAll(cbs[..|cbs| - 1], e, faults);
      if prior.1.Some? then prior
      else match Call(cbs[|cbs| - 1], e)
        case Err(x) => (prior.0, Some(x))
        case Ok(inv) => (prior.0 + [inv], faults(inv))
  }

  /**
   * A flat pass calls the callbacks in order, each with the same event. It
   * calls all of them and none raises, or it stops at the first that raises:
   * either its call fails (it is not among the calls) or its code raises (it
   * is the last call).
   */
  lemma {:induction false} RunAllCallsInOrder(cbs: seq<Callback>, e: Event, faults: Faults)
    ensures |RunAll(cbs, e, faults).0| <= |cbs|
    ensures forall i :: 0 <= i < |RunAll(cbs, e, faults).0| ==> Call(cbs[i], e) == Ok(RunAll(cbs, e, faults).0[i])
    ensures forall i :: 0 <= i < |RunAll(cbs, e, faults).0| - 1 ==> faults(RunAll(cbs, e, faults).0[i]).None?
    ensures RunAll(cbs, e, faults).1.None? ==>
      |RunAll(cbs, e, faults).0| == |cbs| &&
      forall i :: 0 <= i < |RunAll(cbs, e, faults).0| ==> faults(RunAll(cbs, e, faults).0[i]).None?
    ensures var (calls, err) := RunAll(cbs, e, faults);
      err.Some? && calls != [] && faults(calls[|calls| - 1]).Some? ==> err == faults(calls[|calls| - 1])
    ensures var (calls, err) := RunAll(cbs, e, faults);
      err.Some? && (calls == [] || faults(calls[|calls| - 1]).None?) ==>
      |calls| < |cbs| && Call(cbs[|calls|], e) == Err(err.value)
    decreases |cbs|
  {
    if cbs != [] {
      var init := cbs[..|cbs| - 1];
      RunAllCallsInOrder(init, e, faults);
      forall i | 0 <= i < |init| ensures init[i] == cbs[i] { }
    }
  }

  /** One more callback at the end of a flat pass. */
  lemma RunAllSnoc(a: seq<Callback>, c: Callback, e: Event, faults: Faults)
    ensures RunAll(a + [c], e, faults) ==
      if RunAll(a, e, faults).1.Some? then RunAll(a, e, faults)
      else if Call(c, e).Err? then (RunAll(a, e, faults).0, Some(Call(c, e).error))
      else (RunAll(a, e, faults).0 + [Call(c, e).value], faults(Call(c, e).value))
  {
    assert (a + [c])[..|a + [c]| - 1] == a;
  }

  /** A pass that raised stays raised, whatever callbacks follow. */
  lemma {:induction false} RunAllStopped(a: seq<Callback>, b: seq<Callback>, e: Event, faults: Faults)
    requires RunAll(a, e, faults).1.Some?
    ensures RunAll(a + b, e, faults) == RunAll(a, e, faults)
    decreases |b|
  {
    if b == [] {
      assert a + b == a;
    } else {
      var b' := b[..|b| - 1];
      assert (a + b)[..|a + b| - 1] == a + b';
      RunAllStopped(a, b', e, faults);
    }
  }

  /** Running two lists one after the other is running their concatenation. */
  lemma {:induction false} RunAllAppend(a: seq<Callback>, b: seq<Callback>, e: Event, faults: Faults)
    ensures RunAll(a + b, e, faults) ==
      if RunAll(a, e, faults).1.Some? then RunAll(a, e, faults)
      else (RunAll(a, e, faults).0 + RunAll(b, e, faults).0, RunAll(b, e, faults).1)
    decreases |b|
  {
    if b == [] {
      assert a + b == a;
      assert RunAll(a, e, faults).0 + [] == RunAll(a, e, faults).0;
    } else {
      var b' := b[..|b| - 1];
      assert (a + b)[..|a + b| - 1] == a + b';
      assert (a + b)[|a + b| - 1] == b[|b| - 1];
      RunAllAppend(a, b', e, faults);
      if RunAll(a, e, faults).1.None? && RunAll(b', e, faults).1.None? {
        match Call(b[|b| - 1], e)
        case Err(x) =>
        case Ok(inv) =>
          assert RunAll(a, e, faults).0 + RunAll(b', e, faults).0 + [inv] ==
                 RunAll(a, e, faults).0 + (RunAll(b', e, faults).0 + [inv]);
      }
    }
  }

  /**
   * What the code of a chained callback does with the event it was handed:
   * return, call next(*args), or raise without calling next.
   */
  datatype Reply = Returns | CallsNext(args: seq<Value>) | Raises(err: Error)

  /** The error the code at link k raises of its own accord, if it raises. */
  function RaisedAt(plan: seq<Reply>, k: nat): (r: Option<Error>)
    ensures r.Some? <==> k < |plan| && plan[k].Raises?
  {
    if k < |plan| && plan[k].Raises? then Some(plan[k].err) else None
  }

  /** The argument replacement the callback at link k passes to next (none when it does not call next). */
  function Rep(plan: seq<Reply>, k: nat): seq<Value>
  {
    if k < |plan| && plan[k].CallsNext? then plan[k].args else []
  }

  /** The event link k receives when the callback at each earlier link j called next(*Rep(plan, j)). */
  function EventAt(e: Event, plan: seq<Reply>, k: nat): Event
  {
    if k == 0 then NextEvent(e, []) else NextEvent(EventAt(e, plan, k - 1), Rep(plan, k - 1))
  }

  /**
   * The chain goes on past link k when its code calls next, which it can only
   * do when it was handed the event.
   */
  predicate Continues(plan: seq<Reply>, k: nat, inv: Invocation)
  {
    k < |plan| && plan[k].CallsNext? && HoldsEvent(inv.args)
  }

  /** The argument list includes the event itself. */
  predicate HoldsEvent(args: seq<Arg>)
  {
    args != [] && (args[0].TheEvent? || HoldsEvent(args[1..]))
  }

  lemma {:induction false} HoldsEventOfPlains(vs: seq<Value>)
    ensures !HoldsEvent(Plains(vs))
    ensures HoldsEvent([TheEvent] + Plains(vs))
  {
    if vs != [] {
      assert Plains(vs)[1..] == Plains(vs[1..]);
      HoldsEventOfPlains(vs[1..]);
    }
  }

  /** The outcome of calling each link of a chain with the event it is handed there. */
  function Outcomes(links: seq<Link>, e: Event, plan: seq<Reply>): (r: seq<Result<Invocation>>)
    ensures |r| == |links|
    decreases |links|
  {
    if links == [] then []
    else Outcomes(links[..|links| - 1], e, plan) + [Invoke(links[|links| - 1], EventAt(e, plan, |links| - 1))]
  }

  /** Link i's outcome is the call of its link with the event it is handed. */
  lemma {:induction false} OutcomeAt(links: seq<Link>, e: Event, plan: seq<Reply>, i: nat)
    requires i < |links|
    ensures Outcomes(links, e, plan)[i] == Invoke(links[i], EventAt(e, plan, i))
    decreases |links|
  {
    var n := |links| - 1;
    var init := Outcomes(links[..n], e, plan);
    assert Outcomes(links, e, plan) == init + [Invoke(links[n], EventAt(e, plan, n))];
    if i < n {
      OutcomeAt(links[..n], e, plan, i);
      assert links[..n][i] == links[i];
      assert Outcomes(links, e, plan)[i] == init[i];
    }
  }

  /**
   * The walk of a chain from link k on, given each link's outcome: it stops
   * when a link cannot be called or its code raises (the error propagates out
   * of every enclosing call), when a callback returns without calling next,
   * or with "No more callbacks!" when next is called past the end.
   */
  function Walk(outs: seq<Result<Invocation>>, k: nat, plan: seq<Reply>): (seq<Invocation>, Option<Error>)
    requires k <= |outs|
    decreases |outs| - k
  {
    if k == |outs| then ([], Some(NoMoreCallbacks))
    else match outs[k]
      case Err(x) => ([], Some(x))
      case Ok(inv) =>
        if Continues(plan, k, inv) then
          var rest := Walk(outs, k + 1, plan);
          ([inv] + rest.0, rest.1)
        else ([inv], RaisedAt(plan, k))
  }

  /**
   * A chained dispatch from link k on: each link is called with the event the
   * previous one passed to next (the event depends only on what was passed,
   * so each link's outcome is fixed in advance).
   */
  function Relay(links: seq<Link>, k: nat, e: Event, plan: seq<Reply>): (seq<Invocation>, Option<Error>)
    requires k <= |links|
  {
    Walk(Outcomes(links, e, plan), k, plan)
  }

  /** The walk makes the calls in chain order: its i-th call is link k + i's. */
  lemma {:induction false} WalkInOrder(outs: seq<Result<Invocation>>, k: nat, plan: seq<Reply>)
    requires k <= |outs|
    ensures |Walk(outs, k, plan).0| <= |outs| - k
    ensures forall i :: 0 <= i < |Walk(outs, k, plan).0| ==> outs[k + i] == Ok(Walk(outs, k, plan).0[i])
    decreases |outs| - k
  {
    if k < |outs| && outs[k].Ok? && Continues(plan, k, outs[k].value) {
      WalkInOrder(outs, k + 1, plan);
      var rest := Walk(outs, k + 1, plan).0;
      var calls := Walk(outs, k, plan).0;
      forall i | 1 <= i < |calls| ensures outs[k + i] == Ok(calls[i]) {
        assert calls[i] == rest[i - 1];
        assert k + i == (k + 1) + (i - 1);
      }
    }
  }

  /** Every call of the walk but the last passed control on with next. */
  lemma {:induction false} WalkHandsOn(outs: seq<Result<Invocation>>, k: nat, plan: seq<Reply>)
    requires k <= |outs|
    ensures forall i :: 0 <= i < |Walk(outs, k, plan).0| - 1 ==> Continues(plan, k + i, Walk(outs, k, plan).0[i])
    decreases |outs| - k
  {
    if k < |outs| && outs[k].Ok? && Continues(plan, k, outs[k].value) {
      WalkHandsOn(outs, k + 1, plan);
      var rest := Walk(outs, k + 1, plan).0;
      var calls := Walk(outs, k, plan).0;
      forall i | 1 <= i < |calls| - 1 ensures Continues(plan, k + i, calls[i]) {
        assert calls[i] == rest[i - 1];
        assert k + i == (k + 1) + (i - 1);
      }
    }
  }

  /** A walk that raised nothing ends with a call that returned, neither handing on nor raising. */
  lemma {:induction false} WalkQuietEnd(outs: seq<Result<Invocation>>, k: nat, plan: seq<Reply>)
    requires k <= |outs|
    ensures Walk(outs, k, plan).1.None? ==>
      var calls := Walk(outs, k, plan).0;
      |calls| > 0 && !Continues(plan, k + |calls| - 1, calls[|calls| - 1]) &&
      RaisedAt(plan, k + |calls| - 1).None?
    decreases |outs| - k
  {
    if k < |outs| && outs[k].Ok? && Continues(plan, k, outs[k].value) {
      WalkQuietEnd(outs, k + 1, plan);
      var rest := Walk(outs, k + 1, plan);
      var whole := Walk(outs, k, plan);
      if rest.0 != [] {
        assert whole.0[|whole.0| - 1] == rest.0[|rest.0| - 1];
        assert k + |whole.0| - 1 == (k + 1) + |rest.0| - 1;
      }
    }
  }

  /**
   * A walk that raised was stopped by its last call's own code, when that call
   * did not hand on; otherwise by the link after its last call, or by
   * "No more callbacks!" when that call handed on past the end.
   */
  lemma {:induction false} WalkRaised(outs: seq<Result<Invocation>>, k: nat, plan: seq<Reply>)
    requires k <= |outs|
    ensures k + |Walk(outs, k, plan).0| <= |outs|
    ensures var (calls, err) := Walk(outs, k, plan);
      err.Some? && calls != [] && !Continues(plan, k + |calls| - 1, calls[|calls| - 1]) ==>
      err == RaisedAt(plan, k + |calls| - 1)
    ensures var (calls, err) := Walk(outs, k, plan);
      err.Some? && (calls == [] || Continues(plan, k + |calls| - 1, calls[|calls| - 1])) ==>
      if k + |calls| == |outs| then err.value == NoMoreCallbacks else outs[k + |calls|] == Err(err.value)
    decreases |outs| - k
  {
    if k < |outs| && outs[k].Ok? && Continues(plan, k, outs[k].value) {
      WalkRaised(outs, k + 1, plan);
      var calls := Walk(outs, k, plan).0;
      var rest := Walk(outs, k + 1, plan).0;
      assert k + |calls| == (k + 1) + |rest|;
      if rest != [] {
        assert calls[|calls| - 1] == rest[|rest| - 1];
        assert k + |calls| - 1 == (k + 1) + |rest| - 1;
      }
    }
  }

  /**
   * When every link before the last succeeds and hands on, and the last
   * succeeds without handing on or raising, the walk makes every call and
   * raises nothing.
   */
  lemma {:induction false} WalkReachesEnd(outs: seq<Result<Invocation>>, k: nat, plan: seq<Reply>)
    requires k < |outs|
    requires forall i :: k <= i < |outs| - 1 ==> outs[i].Ok? && Continues(plan, i, outs[i].value)
    requires outs[|outs| - 1].Ok? && !Continues(plan, |outs| - 1, outs[|outs| - 1].value)
    requires RaisedAt(plan, |outs| - 1).None?
    ensures |Walk(outs, k, plan).0| == |outs| - k
    ensures Walk(outs, k, plan).1.None?
    decreases |outs| - k
  {
    if k < |outs| - 1 {
      WalkReachesEnd(outs, k + 1, plan);
    }
  }

  /** A chained dispatch calls the links in chain order, link i with EventAt(e, plan, i). */
  lemma RelayFollowsChain(links: seq<Link>, e: Event, plan: seq<Reply>)
    ensures |Relay(links, 0, e, plan).0| <= |links|
    ensures forall i :: 0 <= i < |Relay(links, 0, e, plan).0| ==>
      Invoke(links[i], EventAt(e, plan, i)) == Ok(Relay(links, 0, e, plan).0[i])
  {
    var outs := Outcomes(links, e, plan);
    var calls := Relay(links, 0, e, plan).0;
    WalkInOrder(outs, 0, plan);
    forall i | 0 <= i < |calls| ensures Invoke(links[i], EventAt(e, plan, i)) == Ok(calls[i]) {
      assert outs[0 + i] == Ok(calls[i]);
      OutcomeAt(links, e, plan, i);
    }
  }

  /**
   * When every link before the last is a callback that was handed the event and
   * calls next, and the last link is the terminal block, whose code does not
   * raise, the relay calls every link and raises nothing.
   */
  lemma RelayReachesTerminal(links: seq<Link>, k: nat, e: Event, plan: seq<Reply>)
    requires k < |links| && links[|links| - 1].Finally?
    requires forall i :: k <= i < |links| - 1 ==>
      Invoke(links[i], EventAt(e, plan, i)).Ok? && Continues(plan, i, Invoke(links[i], EventAt(e, plan, i)).value)
    requires RaisedAt(plan, |links| - 1).None?
    ensures |Relay(links, k, e, plan).0| == |links| - k
    ensures Relay(links, k, e, plan).1.None?
  {
    var n := |links| - 1;
    var outs := Outcomes(links, e, plan);
    TerminalEndsChain(links[n].block, EventAt(e, plan, n), plan, n);
    OutcomeAt(links, e, plan, n);
    forall i | k <= i < n ensures outs[i].Ok? && Continues(plan, i, outs[i].value) {
      OutcomeAt(links, e, plan, i);
    }
    WalkReachesEnd(outs, k, plan);
  }

  /** The terminal block is handed the arguments only, so the chain always ends there. */
  lemma TerminalEndsChain(b: Block, ev: Event, plan: seq<Reply>, k: nat)
    ensures Invoke(Finally(b), ev).Ok?
    ensures !Continues(plan, k, Invoke(Finally(b), ev).value)
  {
    HoldsEventOfPlains(ev.arguments);
  }

  /**
   * Only callbacks handed the event can pass control on: Basic ones, and
   * External or Method ones whose arity is -1 or one more than the argument
   * count. Internal callbacks, and those that take the arguments only, end the chain.
   */
  lemma OnlyEventHoldersContinue(cb: Callback, ev: Event, plan: seq<Reply>, k: nat)
    requires Call(cb, ev).Ok? && Continues(plan, k, Call(cb, ev).value)
    ensures cb.kind.Basic? ||
            ((cb.kind.External? || cb.kind.Method?) &&
             (cb.block.arity == -1 || cb.block.arity == |ev.arguments| + 1))
  {
    HoldsEventOfPlains(ev.arguments);
  }

  /**
   * The nested Event#next calls of a chained dispatch: next(*args) on ev takes
   * link k from the shared cursor and calls it; when that callback in turn
   * calls next, the walk goes on from the event it was handed.
   */
  method Drive(ghost e0: Event, ev: Event, args: seq<Value>, plan: seq<Reply>, k: nat)
    returns (calls: seq<Invocation>, err: Option<Error>)
    requires e0.callbacks.Some? && ev.recursive && ev.callbacks == e0.callbacks
    requires k == e0.callbacks.value.pos <= |e0.callbacks.value.links|
    requires NextEvent(ev, args) == EventAt(e0, plan, k)
    modifies e0.callbacks.value
    ensures (calls, err) == Relay(e0.callbacks.value.links, k, e0, plan)
    decreases |e0.callbacks.value.links| - k
  {
    ghost var links := e0.callbacks.value.links;
    var r := Next(ev, args);
    if k < |links| {
      RelayStep(links, k, e0, plan, r);
    }
    if r.Err? {
      return [], Some(r.error);
    }
    var inv := r.value;
    if Continues(plan, k, inv) {
      var rest, e' := Drive(e0, inv.event, plan[k].args, plan, k + 1);
      calls, err := [inv] + rest, e';
    } else {
      calls, err := [inv], RaisedAt(plan, k);
    }
  }

  /** One step of the relay: the outcome of link k decides whether and how it goes on. */
  lemma RelayStep(links: seq<Link>, k: nat, e: Event, plan: seq<Reply>, r: Result<Invocation>)
    requires k < |links| && r == Invoke(links[k], EventAt(e, plan, k))
    ensures r.Err? ==> Relay(links, k, e, plan) == ([], Some(r.error))
    ensures r.Ok? && !Continues(plan, k, r.value) ==> Relay(links, k, e, plan) == ([r.value], RaisedAt(plan, k))
    ensures r.Ok? && Continues(plan, k, r.value) ==>
      Relay(links, k, e, plan) == ([r.value] + Relay(links, k + 1, e, plan).0, Relay(links, k + 1, e, plan).1) &&
      r.value.event == EventAt(e, plan, k) &&
      r.value.event.callbacks == e.callbacks && r.value.event.recursive == e.recursive &&
      NextEvent(r.value.event, plan[k].args) == EventAt(e, plan, k + 1)
  {
    OutcomeAt(links, e, plan, k);
    EventAtKeepsIdentity(e, plan, k);
  }

  /** Along the chain only the arguments change: source, name, mode and cursor are those of the first event. */
  lemma {:induction false} EventAtKeepsIdentity(e: Event, plan: seq<Reply>, k: nat)
    ensures EventAt(e, plan, k) == e.(arguments := EventAt(e, plan, k).arguments)
  {
    if k > 0 {
      EventAtKeepsIdentity(e, plan, k - 1);
    }
  }

  /** When no callback before link k replaced the arguments, link k sees the original ones. */
  lemma {:induction false} EventAtOriginalArguments(e: Event, plan: seq<Reply>, k: nat)
    requires forall j :: 0 <= j < k ==> Rep(plan, j) == []
    ensures EventAt(e, plan, k).arguments == e.arguments
  {
    if k > 0 {
      EventAtOriginalArguments(e, plan, k - 1);
    }
  }

  /** Arguments given to next replace the arguments for every later link, until the next replacement. */
  lemma {:induction false} EventAtLatestReplacement(e: Event, plan: seq<Reply>, j: nat, k: nat)
    requires j < k
    requires Rep(plan, j) != []
    requires forall i :: j < i < k ==> Rep(plan, i) == []
    ensures EventAt(e, plan, k).arguments == Rep(plan, j)
    decreases k
  {
    if k - 1 > j {
      EventAtLatestReplacement(e, plan, j, k - 1);
    }
  }
}
