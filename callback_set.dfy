/**
 * CallbackSet: the own callbacks of one hook, a sorted set under Callback#<=>.
 * As a sequence it is strictly ascending under that comparator, so no two
 * members share a handle or an index and indices increase along it.
 */
module CallbackSets {
  import opened Base
  import opened Callbacks

  /** The sorted-set invariant: every member is strictly below every later one. */
  predicate Valid(s: seq<Callback>)
  {
    forall i, j :: 0 <= i < j < |s| ==> Compare(s[i], s[j]) == -1
  }

  /** A key for lookup and removal: a Symbol, an Integer, nil, or any other object. */
  datatype Key = SymKey(sym: Name) | IntKey(n: int) | NilKey | OtherKey

  lemma ValidTail(s: seq<Callback>)
    requires Valid(s) && s != []
    ensures Valid(s[1..])
    ensures forall c :: c in s[1..] ==> Compare(s[0], c) == -1
  {
    forall c | c in s[1..] ensures Compare(s[0], c) == -1 {
      var j :| 0 <= j < |s[1..]| && s[1..][j] == c;
      assert s[1 + j] == c;
    }
  }

  lemma ValidCons(c: Callback, s: seq<Callback>)
    requires Valid(s)
    requires forall d :: d in s ==> Compare(c, d) == -1
    ensures Valid([c] + s)
  {
    var t := [c] + s;
    forall i, j | 0 <= i < j < |t| ensures Compare(t[i], t[j]) == -1 {
      if i == 0 {
        assert t[j] == s[j - 1] && t[j] in s;
      } else {
        assert t[i] == s[i - 1] && t[j] == s[j - 1];
      }
    }
  }

  /** Sorted insertion of a callback that no member compares equal to. */
  function Place(s: seq<Callback>, cb: Callback): (r: seq<Callback>)
    requires Valid(s)
    requires forall c :: c in s ==> Compare(c, cb) != 0
    ensures Valid(r)
    ensures |r| == |s| + 1
    ensures forall c :: c in r <==> c in s || c == cb
    ensures multiset(r) == multiset(s) + multiset{cb}
  {
    if s == [] then [cb]
    else if cb.index < s[0].index then
      ValidTail(s);
      forall d | d in s ensures Compare(cb, d) == -1 {
        assert Compare(d, cb) != 0;
        if d != s[0] {
          assert d in s[1..];
          assert Compare(s[0], d) == -1;
        }
      }
      ValidCons(cb, s);
      [cb] + s
    else
      ValidTail(s);
      var rest := Place(s[1..], cb);
      ValidCons(s[0], rest);
      assert s == [s[0]] + s[1..];
      [s[0]] + rest
  }

  /**
   * CallbackSet#<< under the rule that handles are unique: a callback that
   * compares equal to some member (the same handle, or the same index) leaves
   * the set as it was; any other one is inserted at its place in index order.
   * This is a choice: neither SortedSet backing checks every member.
   */
  function Insert(s: seq<Callback>, cb: Callback): (r: seq<Callback>)
    requires Valid(s)
    ensures Valid(r)
    ensures (exists c :: c in s && Compare(c, cb) == 0) ==> r == s
    ensures (forall c :: c in s ==> Compare(c, cb) != 0) ==>
      multiset(r) == multiset(s) + multiset{cb} && |r| == |s| + 1
    ensures forall c :: c in r ==> c in s || c == cb
  {
    if exists c :: c in s && Compare(c, cb) == 0 then s else Place(s, cb)
  }

  /** A callback whose handle is new and whose index exceeds every member's goes to the end. */
  lemma InsertAboveAppends(s: seq<Callback>, cb: Callback)
    requires Valid(s)
    requires forall c :: c in s ==> c.handle != cb.handle && c.index < cb.index
    ensures Insert(s, cb) == s + [cb]
  {
    assert forall c :: c in s ==> Compare(c, cb) != 0;
    PlaceAboveAppends(s, cb);
  }

  lemma {:induction false} PlaceAboveAppends(s: seq<Callback>, cb: Callback)
    requires Valid(s)
    requires forall c :: c in s ==> c.handle != cb.handle && c.index < cb.index
    ensures forall c :: c in s ==> Compare(c, cb) != 0
    ensures Place(s, cb) == s + [cb]
    decreases |s|
  {
    if s != [] {
      var tail := s[1..];
      assert s[0] in s && !(cb.index < s[0].index);
      ValidTail(s);
      forall c | c in tail ensures c.handle != cb.handle && c.index < cb.index {
        assert c in s;
      }
      PlaceAboveAppends(tail, cb);
      assert Place(s, cb) == [s[0]] + (tail + [cb]);
      assert s == [s[0]] + tail;
    }
  }

  /** Re-adding a callback whose handle is already present changes nothing. */
  lemma ReAddKeepsSet(s: seq<Callback>, cb: Callback, i: nat)
    requires Valid(s) && i < |s| && s[i].handle == cb.handle
    ensures Insert(s, cb) == s
  {
    assert s[i] in s && Compare(s[i], cb) == 0;
  }

  /** In a valid set no two members share a handle, and indices ascend. */
  lemma HandlesUnique(s: seq<Callback>, i: nat, j: nat)
    requires Valid(s) && i < |s| && j < |s| && i != j
    ensures s[i].handle != s[j].handle
    ensures i < j ==> s[i].index < s[j].index
  {
    if i < j { assert Compare(s[i], s[j]) == -1; } else { assert Compare(s[j], s[i]) == -1; }
  }

  /** The largest index among the members. */
  function MaxIndex(s: seq<Callback>): (m: nat)
    requires s != []
    ensures forall c :: c in s ==> c.index <= m
    ensures exists c :: c in s && c.index == m
  {
    if |s| == 1 then s[0].index
    else
      var m := MaxIndex(s[1..]);
      assert forall c :: c in s ==> c == s[0] || c in s[1..];
      if s[0].index > m then s[0].index else m
  }

  /** Hook#next_callback_index: 0 for an empty set, else one past the largest index. */
  function NextIndex(s: seq<Callback>): (r: nat)
    ensures forall c :: c in s ==> c.index < r
    ensures s == [] ==> r == 0
    ensures s != [] ==> exists c :: c in s && c.index + 1 == r
  {
    if s == [] then 0 else MaxIndex(s) + 1
  }

  /** In a valid set the next index is one past the last member's. */
  lemma NextIndexOfValid(s: seq<Callback>)
    requires Valid(s) && s != []
    ensures NextIndex(s) == s[|s| - 1].index + 1
  {
    var m := MaxIndex(s);
    var last := s[|s| - 1];
    assert last in s;
    forall i | 0 <= i < |s| - 1 ensures s[i].index < last.index {
      HandlesUnique(s, i, |s| - 1);
    }
    var c :| c in s && c.index == m;
  }

  /** The test matching the members with a given handle. */
  function WithHandle(h: Handle): Callback -> bool
  {
    (c: Callback) => c.handle == h
  }

  /** The test matching the members with a given index. */
  function WithIndex(n: int): Callback -> bool
  {
    (c: Callback) => c.index == n
  }

  lemma ValidInit(init: seq<Callback>, last: Callback)
    requires Valid(init + [last])
    ensures Valid(init)
    ensures forall c :: c in init ==> Compare(c, last) == -1
  {
    var s := init + [last];
    forall i, j | 0 <= i < j < |init| ensures Compare(init[i], init[j]) == -1 {
      assert s[i] == init[i] && s[j] == init[j];
    }
    forall c | c in init ensures Compare(c, last) == -1 {
      var j :| 0 <= j < |init| && init[j] == c;
      assert s[j] == c && s[|init|] == last;
    }
  }

  lemma ValidSnoc(s: seq<Callback>, c: Callback)
    requires Valid(s)
    requires forall d :: d in s ==> Compare(d, c) == -1
    ensures Valid(s + [c])
  {
    var t := s + [c];
    forall i, j | 0 <= i < j < |t| ensures Compare(t[i], t[j]) == -1 {
      assert t[i] == s[i] && t[i] in s;
      if j < |s| {
        assert t[j] == s[j];
      }
    }
  }

  lemma KeepsValid(init: seq<Callback>, last: Callback, rest: seq<Callback>)
    requires forall c :: c in rest ==> c in init
    requires Valid(init) ==> Valid(rest)
    ensures Valid(init + [last]) ==> Valid(rest) && Valid(rest + [last])
  {
    if Valid(init + [last]) {
      ValidInit(init, last);
      ValidSnoc(rest, last);
    }
  }

  /** Set#delete_if: the members that fail the test, in their order. */
  function DeleteIf(s: seq<Callback>, p: Callback -> bool): (r: seq<Callback>)
    ensures forall c :: c in r <==> c in s && !p(c)
    ensures |r| <= |s|
    ensures Valid(s) ==> Valid(r)
    ensures (forall c :: c in s ==> !p(c)) ==> r == s
    decreases |s|
  {
    if s == [] then []
    else
      var init, last := s[..|s| - 1], s[|s| - 1];
      var rest := DeleteIf(init, p);
      assert s == init + [last];
      assert forall c :: c in s <==> c in init || c == last;
      KeepsValid(init, last, rest);
      if p(last) then rest else rest + [last]
  }

  /** Deleting from a set with one more member at the end. */
  lemma DeleteIfSnoc(s: seq<Callback>, x: Callback, p: Callback -> bool)
    ensures DeleteIf(s + [x], p) == DeleteIf(s, p) + (if p(x) then [] else [x])
  {
    assert (s + [x])[..|s|] == s;
  }

  /** Enumerable#detect: the first member that passes the test, if any. */
  function Detect(s: seq<Callback>, p: Callback -> bool): (r: Option<Callback>)
    ensures r.Some? <==> exists c :: c in s && p(c)
    ensures r.Some? ==> exists i :: 0 <= i < |s| && s[i] == r.value && p(s[i]) &&
                                    forall j :: 0 <= j < i ==> !p(s[j])
  {
    if s == [] then None
    else if p(s[0]) then Some(s[0])
    else
      var rest := Detect(s[1..], p);
      assert forall c :: c in s <==> c == s[0] || c in s[1..];
      if rest.Some? then
        var i :| 0 <= i < |s[1..]| && s[1..][i] == rest.value && p(s[1..][i]) &&
                 forall j :: 0 <= j < i ==> !p(s[1..][j]);
        assert s[i + 1] == rest.value;
        assert forall j :: 1 <= j < i + 1 ==> s[j] == s[1..][j - 1];
        rest
      else rest
  }

  /**
   * CallbackSet#[]: an Integer looks a member up by index, a Symbol by
   * handle; any other key is refused.
   */
  function Lookup(s: seq<Callback>, key: Key): (r: Result<Option<Callback>>)
    ensures r.Err? <==> key.NilKey? || key.OtherKey?
    ensures r.Err? ==> r.error == InvalidIndex
    ensures key.IntKey? ==> r.Ok?
    ensures key.IntKey? ==> (r.value.Some? <==> exists c :: c in s && c.index == key.n)
    ensures key.IntKey? && r.value.Some? ==> r.value.value in s && r.value.value.index == key.n
    ensures key.SymKey? ==> r.Ok?
    ensures key.SymKey? ==> (r.value.Some? <==> exists c :: c in s && c.handle == Sym(key.sym))
    ensures key.SymKey? && r.value.Some? ==> r.value.value in s && r.value.value.handle == Sym(key.sym)
  {
    match key
    case IntKey(n) => Ok(Detect(s, WithIndex(n)))
    case SymKey(h) => Ok(Detect(s, WithHandle(Sym(h))))
    case _ => Err(InvalidIndex)
  }

  lemma ReverseDescends(s: seq<Callback>, r: seq<Callback>)
    requires Valid(s) && |r| == |s|
    requires forall i :: 0 <= i < |s| ==> r[i] == s[|s| - 1 - i]
    ensures forall i, j :: 0 <= i < j < |r| ==> Compare(r[i], r[j]) == 1
  {
    forall i, j | 0 <= i < j < |r| ensures Compare(r[i], r[j]) == 1 {
      assert Compare(s[|s| - 1 - j], s[|s| - 1 - i]) == -1;
    }
  }

  /** CallbackSet#each_reverse: the members sorted descending under the comparator. */
  function EachReverse(s: seq<Callback>): (r: seq<Callback>)
    requires Valid(s)
    ensures |r| == |s|
    ensures forall i :: 0 <= i < |s| ==> r[i] == s[|s| - 1 - i]
    ensures forall i, j :: 0 <= i < j < |r| ==> Compare(r[i], r[j]) == 1
  {
    var r := Reverse(s);
    ReverseDescends(s, r);
    r
  }
}
