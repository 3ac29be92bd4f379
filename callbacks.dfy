/**
 * Callbacks: a handle, an insertion index, an execution variant and the code
 * the callback runs. The code itself is opaque; only its identity and its Ruby
 * arity matter to the dispatch core.
 */
module Callbacks {
  import opened Base

  /** A handle is a Symbol given by the caller, or the Integer index assigned when none is given. */
  datatype Handle = Sym(sym: Name) | Num(n: nat)

  /** What a callback runs: a block or method of the host program, or the forwarding block add_listener builds. */
  datatype Code = Proc(id: nat) | Forwarder(listener: ObjectId)

  /**
   * A block or unbound method with its Ruby arity: n for n required arguments,
   * -1 for any number, -n-1 for n required arguments followed by optional ones.
   */
  datatype Block = Block(code: Code, arity: int)

  /**
   * The execution variants: External runs outside the event source and adapts
   * the event to its arity, Basic receives only the event, Internal runs in the
   * source's context with no arguments, Method calls a method of the source.
   */
  datatype Kind = External | Basic | Internal | Method(message: Name)

  datatype Callback = Callback(handle: Handle, index: nat, kind: Kind, block: Block)

  /**
   * Callback#<=>: equal handles make two callbacks the same member; otherwise
   * they are ordered by index (and equal indices also compare as the same).
   */
  function Compare(a: Callback, b: Callback): (r: int)
    ensures -1 <= r <= 1
    ensures r == 0 <==> a.handle == b.handle || a.index == b.index
    ensures r == -1 <==> a.handle != b.handle && a.index < b.index
    ensures r == 1 <==> a.handle != b.handle && a.index > b.index
  {
    if a.handle == b.handle then 0
    else if a.index < b.index then -1
    else if a.index == b.index then 0
    else 1
  }

  /**
   * The variant add_block_callback picks for a block given to a hook: a block
   * of arity -1 or 0 runs inside the source, any other one outside it.
   */
  function BlockKind(block: Block): (k: Kind)
    ensures k == Internal <==> block.arity == -1 || block.arity == 0
    ensures k != Internal ==> k == External
  {
    if block.arity == -1 || block.arity == 0 then Internal else External
  }
}
