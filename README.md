# HookR in Dafny

HookR is a Ruby library that lets a class publish named hooks. Other code
attaches callbacks to those hooks, and the class or any of its instances
raises events through them. This project models the dispatch core of the
library, `lib/hookr.rb`, and proves properties of that model.

- **Hooks.** A hook has a name, declared parameter names, its own sorted set
  of callbacks, and a parent hook. The chain of parents ends at the NullHook.
  A hook yields its ancestors' callbacks, then its own.
- **Hook sets.** A class that includes `HookR::Hooks` owns a set of hooks and
  gets the `__wildcard__` hook, which sees every event. An instance owns a
  deep copy of its class's set, made on first use. A subclass owns a deep copy
  of its parent's set. Each copied hook has the original as its parent, so it
  keeps seeing the callbacks added to the original later.
- **Callbacks.** A callback has a handle (a Symbol, or its index when no
  handle is given), an insertion index, a variant and a block. The variants
  are external, basic, internal and method. Each variant hands the event to
  its block differently. External and method callbacks adapt the event to
  the block's arity with `Event#to_args`.
- **Dispatch.** Without a block, `execute_hook` runs the wildcard hook's
  callbacks, then the named hook's, in order, all with the same event. With
  a block, it builds a chain: the wildcard callbacks newest first, then the
  named hook's newest first, then the block. It calls the first link; each
  callback may pass control on with `event.next(*args)`, and new arguments
  replace the old ones for the rest of the chain.

The files follow the structure of the library:

| file | module | models |
|---|---|---|
| `base.dfy` | `Base` | names, values, the exceptions raised, `Result`/`Option`, `Integer#to_s` |
| `callbacks.dfy` | `Callbacks` | `Callback` and its variants, `Callback#<=>` |
| `callback_set.dfy` | `CallbackSets` | `CallbackSet` (a `SortedSet`): insertion, `delete_if`, lookup, reverse walk |
| `events.dfy` | `Events` | `Event`, `to_args`, `Callback#call` of each variant, `Event#next`, the flat and chained runs |
| `hook.dfy` | `HookStore` | `Hook`, `NullHook`, the parent chain, and the class `Store` that holds every hook |
| `hook_set.dfy` | `HookSets` | `HookSet`: `[]`, `length`, `<<`, `deep_copy` |
| `dispatch.dfy` | `Dispatch` | `HookR::Hooks` at class and instance level: the class `Host` |

Hooks are mutable Ruby objects that other objects share by reference. The
model keeps every `Hook` in one `Store` in creation order, and a hook's
parent is the position of a hook created before it. Parent chains are
therefore finite. Changes to a class's hook are seen through every copy
made from it, which is what Ruby's reference sharing gives.

Calling a callback is recorded as an `Invocation`: which code ran, whether
it ran in the source's context, the event it was handed, and the argument
list it got. The code itself is opaque, so what it does is given with the
dispatch. For a flat dispatch, `faults` says which exception, if any, the
code raises when called as an invocation describes. For a chained dispatch,
the reply plan says what the code at each link does: it returns, it calls
`next` with some arguments, or it raises. A raised exception stops the flat
pass and unwinds the chain, as it does in Ruby. Examples are a `NoMethodError`
from `send` to a listener that lacks the hook's method, or any error a user
block raises.

## Model

| member | source | states |
|---|---|---|
| Callbacks.Compare | lib/hookr.rb:508-513 | 0 exactly when the handles or the indices agree; otherwise -1 or 1 by index |
| Callbacks.BlockKind | lib/hookr.rb:150-157 | a block of arity -1 or 0 becomes an internal callback, any other an external one |
| CallbackSets.Place | lib/hookr.rb:478 | sorted insertion keeps the set strictly ascending and adds exactly the new member |
| CallbackSets.Insert | lib/hookr.rb:347-350 | a callback comparing equal to a member leaves the set unchanged; any other is added once; the set stays sorted |
| CallbackSets.InsertAboveAppends | lib/hookr.rb:407-412 | a callback with a new handle and an index above every member's goes to the end |
| CallbackSets.ReAddKeepsSet | lib/hookr.rb:506-507 | adding a callback whose handle is already present changes nothing |
| CallbackSets.HandlesUnique | lib/hookr.rb:506-507 | in a valid set no two members share a handle, and indices ascend along it |
| CallbackSets.MaxIndex | lib/hookr.rb:404 | the result bounds every member's index and is some member's index |
| CallbackSets.NextIndex | lib/hookr.rb:402-405 | 0 for an empty set, else one past some member's index and above every index |
| CallbackSets.NextIndexOfValid | lib/hookr.rb:402-405 | in a sorted set the next index is the last member's index plus one |
| CallbackSets.DeleteIf | lib/hookr.rb:355-356 | keeps exactly the members failing the test, in order; keeps the set sorted; changes nothing when none match |
| CallbackSets.DeleteIfSnoc | lib/hookr.rb:355-356 | deleting from a set with one more member at the end filters that member separately |
| CallbackSets.Detect | lib/hookr.rb:483-484 | finds a member exactly when one passes the test, and it is the first one that does |
| CallbackSets.Lookup | lib/hookr.rb:481-487 | an Integer finds a member by index, a Symbol by handle; any other key raises ArgumentError |
| CallbackSets.EachReverse | lib/hookr.rb:496-498 | the members in reverse, strictly descending under the comparator |
| HookStore.TotalIsLength | lib/hookr.rb:396-398 | total_callbacks equals the number of callbacks each_callback yields |
| HookStore.ReverseWalkIsReverse | lib/hookr.rb:382-385 | each_callback_reverse yields exactly the reverse of each_callback |
| HookStore.ChainReadsBelow | lib/hookr.rb:375-378 | a hook's walk depends only on the hooks created before it |
| HookStore.OwnChangeLeavesAncestors | lib/hookr.rb:352-360 | changing one hook's own set leaves its ancestors' walks unchanged and puts the new set after them |
| HookStore.ClearKeepsInherited | lib/hookr.rb:363-365 | after clear_callbacks! a hook yields exactly its parent chain's callbacks |
| HookStore.ClearAllLeavesNothing | lib/hookr.rb:369-372 | after clear_all_callbacks! a hook yields nothing and its former parent chain is unchanged |
| HookStore.DupInherits | lib/hookr.rb:289-294 | a dup yields what the original yields, and the original is unchanged |
| HookStore.OverlaySeesOriginal | lib/hookr.rb:274-276 | a copy sees callbacks added to its original after the copy was made |
| HookStore.CopyChangeInvisibleToOriginal | lib/hookr.rb:289-294 | a change to a copy is not visible through the original |
| HookStore.NewCallback | lib/hookr.rb:407-412 | fails exactly on an external arity below the parameter count or a basic arity other than 1; else uses the next index, and that index as handle when none is given |
| HookStore.NewCallbackAppends | lib/hookr.rb:347-350 | a new callback goes to the end of the own set unless its handle is already there, which leaves the set unchanged |
| HookStore.RemoveFrom | lib/hookr.rb:352-360 | a Symbol removes the members with that handle, an Integer those with that index; other keys raise ArgumentError; an absent key removes nothing |
| HookStore.AddThenRemoveRestores | lib/hookr.rb:352-360 | adding a callback under a new handle and removing it by that handle, or by its index, restores the own set |
| HookStore.Store.NewHook | lib/hookr.rb:283-287 | appends a hook with the given name, parent and parameters and no callbacks |
| HookStore.Store.Dup | lib/hookr.rb:289-294 | appends a copy with the original as parent and an empty own set; it yields what the original yields |
| HookStore.Store.AddCallback | lib/hookr.rb:347-350 | inserts into the own set and returns the callback's handle |
| HookStore.Store.AddBlockCallback | lib/hookr.rb:323-339 | on an arity error nothing changes; otherwise the new callback is inserted and its handle returned |
| HookStore.Store.AddMethodCallback | lib/hookr.rb:342-345 | inserts a method callback with the message as handle and the next index |
| HookStore.Store.RemoveCallback | lib/hookr.rb:352-360 | on a bad key nothing changes; otherwise only the own set changes, and inherited callbacks stay |
| HookStore.Store.ClearCallbacks | lib/hookr.rb:363-365 | empties the own set; the hook then counts only inherited callbacks |
| HookStore.Store.Disconnect | lib/hookr.rb:418-420 | the hook's parent becomes the NullHook; nothing else changes |
| HookStore.Store.ClearAllCallbacks | lib/hookr.rb:369-372 | disconnects and clears; the hook then yields and counts nothing |
| HookStore.Store.ExecuteCallbacks | lib/hookr.rb:388-393 | the calls and the error are those of the flat pass over each_callback |
| HookStore.RunOwn | lib/hookr.rb:390-392 | the loop over the own set extends the parent chain's pass, and stops at the first error |
| Events.ToArgs | lib/hookr.rb:604-614 | arity -1 or argument count + 1 gives the event and every argument; the argument count gives the arguments; any other arity raises ArgumentError with the bounds |
| Events.ToArgsKeepsEveryArgument | lib/hookr.rb:600-603 | a successful adaptation never drops an argument |
| Events.Call | lib/hookr.rb:532-581 | external and method callbacks fail exactly when to_args fails; basic gets the event alone; internal runs in the source with no arguments |
| Events.Invoke | lib/hookr.rb:264-266 | the final block gets the arguments alone; a missing hook raises IndexError; a callback is called by its variant |
| Events.NextEvent | lib/hookr.rb:625-626 | a copy of the event whose arguments are replaced when next was given any |
| Events.Next | lib/hookr.rb:623-632 | takes the next link and calls it with the new event, or raises "No more callbacks!" at the end |
| Events.RunAllCallsInOrder | lib/hookr.rb:388-393 | the flat pass calls each callback in order with the same event; it calls them all and none raises, or it stops at the first that raises: one whose call fails is not called, one whose code raises is the last call, and its error is the pass's error |
| Events.RunAllStopped | lib/hookr.rb:390-392 | once a pass has raised, later callbacks are not called |
| Events.RunAllAppend | lib/hookr.rb:245-248 | running two lists one after the other is running their concatenation |
| Events.WalkInOrder | lib/hookr.rb:623-632 | the i-th call of the chain is link k + i's successful call |
| Events.WalkHandsOn | lib/hookr.rb:623-632 | every call of the chain but the last passed control on with next |
| Events.WalkQuietEnd | lib/hookr.rb:623-632 | a chain that raised nothing ended with a callback that neither called next nor raised |
| Events.WalkRaised | lib/hookr.rb:623-632 | a chain that raised was stopped by its last callback's own exception when that callback did not call next; otherwise by the next link's error, or by "No more callbacks!" past the end |
| Events.WalkReachesEnd | lib/hookr.rb:623-632 | when every link hands on and the last neither hands on nor raises, the chain makes every call and raises nothing |
| Events.RelayFollowsChain | lib/hookr.rb:623-632 | a chained dispatch calls link i with the event handed down to position i |
| Events.RelayReachesTerminal | lib/hookr.rb:196 | when every callback hands the event on and the block does not raise, the chain ends at the block and raises nothing |
| Events.RelayStep | lib/hookr.rb:627-631 | link k's outcome decides what the chain does: it raises the link's error, stops there (raising what the link's code raised, if anything), or goes on with the event the link passed |
| Events.TerminalEndsChain | lib/hookr.rb:264-266 | the final block never fails and never passes control on |
| Events.OnlyEventHoldersContinue | lib/hookr.rb:532-581 | only basic callbacks, and external or method ones that receive the event, can call next |
| Events.Drive | lib/hookr.rb:623-632 | the nested next calls on the shared cursor make exactly the calls and error of the chained run |
| Events.EventAtKeepsIdentity | lib/hookr.rb:625 | along a chain only the arguments change |
| Events.EventAtOriginalArguments | lib/hookr.rb:626 | with no replacement before a link, it sees the original arguments |
| Events.EventAtLatestReplacement | lib/hookr.rb:196-198 | arguments given to next replace the arguments for every later link until the next replacement |
| HookSets.Get | lib/hookr.rb:456-458 | finds the hook of that name, or raises IndexError "No such hook" |
| HookSets.Length | lib/hookr.rb:469-475 | the number of hooks, the wildcard hook not counted |
| HookSets.Add | lib/hookr.rb:67 | adds a hook under a new name; a name already present keeps its hook |
| HookSets.DeepCopy | lib/hookr.rb:460-466 | a fresh dup of every hook, under the same names, each with its original as parent and no own callbacks; the existing hooks are unchanged |
| HookSets.CopyOne | lib/hookr.rb:463 | one dup appended and filed under its name |
| HookSets.CopyInherits | lib/hookr.rb:460-466 | each hook of a deep copy yields and counts exactly what its original does |
| Dispatch.FlatDispatch | lib/hookr.rb:245-248 | a missing wildcard hook raises IndexError before any call; an error in the wildcard pass ends the dispatch; otherwise a missing named hook raises IndexError after the wildcard pass; it succeeds only with both hooks present |
| Dispatch.FlatDispatchIsOnePass | lib/hookr.rb:245-248 | with both hooks present the flat dispatch is one pass over the wildcard callbacks followed by the named ones |
| Dispatch.CallbackGenerator | lib/hookr.rb:256-268 | the wildcard callbacks reversed, the named hook's callbacks reversed, then the block; a missing hook ends the chain with IndexError |
| Dispatch.ChainedVisitsNewestFirst | lib/hookr.rb:190-196 | a chained dispatch calls the newest wildcard callback first and works back, then the named hook's the same way, then the block with the arguments alone |
| Base.Decimal | lib/hookr.rb:271 | Integer#to_s: at least one digit, and a single digit exactly below 10 |
| Base.DecimalInjective | lib/hookr.rb:271 | distinct numbers have distinct decimal forms |
| Dispatch.ListenerHandle | lib/hookr.rb:270-272 | the default listener handle starts with listener_, followed by the object_id in decimal |
| Dispatch.ListenerHandleInjective | lib/hookr.rb:270-272 | distinct listeners get distinct default handles |
| Dispatch.Forwarded | lib/hookr.rb:224-226 | a forwarding block sends its message to its listener |
| Dispatch.ListenerHearsEvent | lib/hookr.rb:223-227 | a listener's callback is accepted and sends the listener the event name with the event's arguments |
| Dispatch.AddToHook | lib/hookr.rb:160-166 | a missing hook raises IndexError with nothing changed; otherwise the callback is added to that hook |
| Dispatch.RemoveFromHook | lib/hookr.rb:121-123 | a missing hook raises IndexError with nothing changed; otherwise removes by key from that hook |
| Dispatch.Host.FetchOrCreateHooks | lib/hookr.rb:274-276 | the set already there, or a new one kept from then on: empty for a class, a deep copy of the class's for an instance |
| Dispatch.Host.AddKind | lib/hookr.rb:160-166 | fetches or creates the set, then adds a callback of the variant to the named hook |
| Dispatch.Host.AddExternalCallback | lib/hookr.rb:160-162 | adds an external callback to the named hook |
| Dispatch.Host.AddBasicCallback | lib/hookr.rb:164-166 | adds a basic callback to the named hook |
| Dispatch.Host.AddBlockCallback | lib/hookr.rb:150-157 | adds an internal or external callback, chosen by the block's arity |
| Dispatch.Host.AddMethodCallback | lib/hookr.rb:169-171 | adds a method callback; a missing hook or an undefined method raises with nothing changed |
| Dispatch.Host.AddCallback | lib/hookr.rb:128-134 | with a block a block callback, without one a method callback |
| Dispatch.Host.AddWildcardCallback | lib/hookr.rb:137-139 | adds a basic callback to the wildcard hook |
| Dispatch.Host.RemoveCallback | lib/hookr.rb:121-123 | fetches or creates the set; a missing hook raises IndexError, otherwise removes by key from that hook's own set |
| Dispatch.Host.RemoveWildcardCallback | lib/hookr.rb:142-144 | removes by key from the wildcard hook |
| Dispatch.Host.AddListener | lib/hookr.rb:223-227 | adds a forwarding wildcard callback under the given or default handle and returns that handle |
| Dispatch.Host.RemoveListener | lib/hookr.rb:230-236 | removes the wildcard callback by handle, or by the listener's default handle |
| Dispatch.Host.DefineHook | lib/hookr.rb:66-67 | a new root hook is created; it joins the set unless the name is already present |
| Dispatch.Host.Include | lib/hookr.rb:175-180 | the class's set gets a new root wildcard hook with no parameters and no callbacks, appended to the store, and keeps its other hooks |
| Dispatch.Host.Inherited | lib/hookr.rb:107-109 | the class keeps its set, created if missing; the subclass gets a deep copy of it under the same names, each hook a child of the class's hook with no callbacks of its own |
| Dispatch.Host.ExecuteHookIteratively | lib/hookr.rb:245-248 | the result is the flat dispatch under the given faults; no callbacks change |
| Dispatch.Host.ExecuteHookRecursively | lib/hookr.rb:240-243 | the event gets a fresh cursor over the generated chain, and the result is the chained run from its start |
| Dispatch.Host.ExecuteHook | lib/hookr.rb:211-219 | the event carries this host, the name and the arguments; flat without a block, chained with one |

## Left out

- `HookR.version`, `libpath`, `path` and `require_all_libs_relative_to` are file-system helpers.
- The per-hook methods that `define_hook` generates by string evaluation are not modelled. They only forward: the class-level method to `Dispatch.Host.AddCallback`, the instance-level one to `Dispatch.Host.AddExternalCallback`.
- `const_missing` building a `Listener` class with no-op methods is metaprogramming with no effect on dispatch.
- `hooks` (class and instance) and `Hook#callbacks` return frozen copies. A Dafny map or sequence value is already a snapshot, so they have no member of their own.
- `CallbackSet#first` is not used by the dispatch core.
- Running a block with `instance_eval`, binding a method with `bind`, and `send` to a listener are not executed. The model records what would be called and with which arguments (`Events.Invocation`, `Dispatch.Forwarded`).
- `object_id` is a natural number supplied by the caller.
- `faults` makes a flat callback's exception a function of its invocation, so code that raises on one run and not on another with the same invocation is not modelled.
- Events.Reply: a chained callback raises instead of calling `next`. Code that calls `next` and then raises after it returns is not modelled.
- What callbacks and `next` return is not modelled: the library ignores return values in flat dispatch and passes them through unchanged in a chain.
- Dispatch.Host.ExecuteHookRecursively: the Ruby Generator produces links lazily, but the model builds the whole chain before the first call. A callback that adds or removes callbacks during its own dispatch is therefore not modelled. A missing named hook is modelled as raising IndexError when the chain reaches it; the lazy generator may raise it one step earlier, while looking ahead.
- Events.Drive: the reply plan lets each callback call `next` at most once and then return. Code that calls `next` several times, or swallows the error `next` raises, is not modelled.
- The `FailFast` assertions become preconditions:
  - a nil key for `Hook#remove_callback`;
  - an internal callback with arity above 0;
  - `Event#next` on an event that is not recursive or has no cursor.
- Dispatch.Host.RemoveCallback: a nil key is excluded only when the named hook exists, because a missing hook raises IndexError first.
- Dispatch.Host.AddMethodCallback: `instance_method` exists only on classes, so the model calls it on a class host only. Methods are supplied as a map from name to block; a missing entry raises `UndefinedMethod`.
- `execute_hook`, `add_listener` and `remove_listener` are instance methods in Ruby, so the model calls them on instance hosts only. An instance's class always has its set: `included` creates it through `define_hook`.
- Dispatch.Host.AddCallback: calling it with neither a block nor a method name is excluded; in Ruby that path fails inside `instance_method(nil)`.
- Dispatch.Host.AddListener: an explicit nil handle falls back to the default handle. In Ruby, nil would give the callback its index as handle.
- CallbackSets.Insert: re-adding a callback whose handle, or index, is already present leaves the set unchanged, and the old callback stays. This is a modelling choice: it keeps the unique-handle promise of the comment at lib/hookr.rb:506-507. Neither `SortedSet` backing always keeps that promise. With the Hash backing, membership is `Struct#eql?`/`hash` over (handle, index). A re-add under a present handle gets a fresh index, so it always becomes a second member with that handle. With the rbtree backing, an insert compares the new callback only with the members on its search path, and `Callback#<=>` is not transitive. A re-add with index max+1 goes down the right spine, so it finds a member with the same handle only if that member lies on the path. The model does not capture either backing's duplicates.
- Where the library's documentation and its code disagree, the model follows the code:
  - Removing an absent handle or index removes nothing and raises no error (`delete_if`).
  - Raising the `__wildcard__` event itself without a block runs the wildcard callbacks twice, as the code does.
