/**
  The direct-mapped engine: one slot per index, the index of an address
  being the address modulo the number of slots. A hit leaves the slot
  alone; a miss overwrites it.
 */
module Direct {
  import opened CacheBase

  datatype DirectCache = DirectCache(base: Base, slots: seq<int>)

  /** The index computation divides by the line size and then by the
      number of lines; both must be non-zero. */
  predicate IdDefined(c: DirectCache)
  {
    c.base.lineSize > 0 && c.base.size / c.base.lineSize > 0
  }

  /** `get_id`: the slot an address maps to. The modulus is recomputed
      from the two sizes rather than read from the stored count. */
  function Id(c: DirectCache, v: nat): (r: nat)
    requires IdDefined(c)
    ensures r < c.base.size / c.base.lineSize
    ensures v < c.base.size / c.base.lineSize ==> r == v
  {
    v % (c.base.size / c.base.lineSize)
  }

  /** What `exists` and `emplace` need: the slot they index is there. */
  predicate CanAccess(c: DirectCache, v: nat)
  {
    IdDefined(c) && Id(c, v) < |c.slots|
  }

  /** `exists`: the address occupies the slot it maps to. In a well-formed
      cache that is the same as the address being anywhere in the slots,
      since a slot only ever holds addresses that map to it. */
  function Exists(c: DirectCache, v: nat): (r: bool)
    requires CanAccess(c, v)
    ensures Wf(c) ==> (r <==> v in c.slots)
  {
    c.slots[Id(c, v)] == v
  }

  /** The invariant every emplace keeps: an accepted configuration, one slot
      per item, and every occupied slot holding an address that maps to it. */
  predicate Wf(c: DirectCache)
  {
    && ValidConfig(c.base.size, c.base.lineSize)
    && c.base.lineSize > 0
    && c.base.count == c.base.size / c.base.lineSize
    && c.base.count > 0
    && |c.slots| == c.base.count
    && forall i :: 0 <= i < |c.slots| ==>
         c.slots[i] == EmptySpace || (c.slots[i] >= 0 && c.slots[i] % c.base.count == i)
  }

  lemma WfCanAccess(c: DirectCache, v: nat)
    requires Wf(c)
    ensures CanAccess(c, v)
  {
  }

  /** `emplace`: a hit counts and changes nothing else; a miss stores the
      address in its slot and counts. */
  function Emplace(c: DirectCache, v: nat): (r: DirectCache)
    requires CanAccess(c, v)
    ensures r.base.(hitCount := c.base.hitCount, missCount := c.base.missCount) == c.base
    ensures |r.slots| == |c.slots|
    ensures forall j :: 0 <= j < |c.slots| && j != Id(c, v) ==> r.slots[j] == c.slots[j]
    ensures CanAccess(r, v) && Exists(r, v)
    ensures Exists(c, v) ==> r.slots == c.slots
                             && r.base.hitCount == c.base.hitCount + 1
                             && r.base.missCount == c.base.missCount
    ensures !Exists(c, v) ==> r.base.missCount == c.base.missCount + 1
                              && r.base.hitCount == c.base.hitCount
    ensures Wf(c) ==> Wf(r)
  {
    if Exists(c, v) then
      c.(base := RecordHit(c.base))
    else
      c.(base := RecordMiss(c.base), slots := c.slots[Id(c, v) := v])
  }

  /** An address emplaced twice in a row hits the second time and leaves the
      slots as the first emplace left them. */
  lemma RepeatIsHit(c: DirectCache, v: nat)
    requires CanAccess(c, v)
    ensures CanAccess(Emplace(c, v), v)
    ensures Emplace(Emplace(c, v), v).slots == Emplace(c, v).slots
    ensures Emplace(Emplace(c, v), v).base.hitCount == Emplace(c, v).base.hitCount + 1
    ensures Emplace(Emplace(c, v), v).base.missCount == Emplace(c, v).base.missCount
  {
  }

  /** `clear` empties the slot vector and leaves the counters as they were. */
  function Clear(c: DirectCache): (r: DirectCache)
    ensures |r.slots| == 0 && r.base == c.base
  {
    c.(slots := [])
  }

  /** After `clear` no address can be looked up or emplaced until a resize. */
  lemma ClearBlocksAccess(c: DirectCache, v: nat)
    ensures !CanAccess(Clear(c), v)
  {
  }

  /** The slot vector a (re)configuration allocates. */
  function EmptySlots(n: nat): (slots: seq<int>)
    ensures |slots| == n && forall i :: 0 <= i < n ==> slots[i] == EmptySpace
  {
    seq(n, _ => EmptySpace)
  }

  /** `resize`: `set_size` first; only if it passes are the slots
      reallocated, `size / lineSize` of them, all empty. A rejected resize
      keeps the slots but not the base fields `set_size` wrote. */
  function Resize(c: DirectCache, size: nat, lineSize: nat): (r: Step<DirectCache>)
    ensures r.outcome.Pass? <==> ValidConfig(size, lineSize)
    ensures r.state.base.size == size && r.state.base.lineSize == lineSize
    ensures r.state.base.policy == c.base.policy
    ensures lineSize == 0 ==> r.state.base.count == c.base.count
                              && r.state.base.hitCount == c.base.hitCount
                              && r.state.base.missCount == c.base.missCount
    ensures lineSize > 0 ==> r.state.base.count == size / lineSize
                             && r.state.base.hitCount == 0 && r.state.base.missCount == 0
    ensures r.outcome.Pass? ==> r.state.slots == EmptySlots(size / lineSize) && Wf(r.state)
    ensures r.outcome.Fail? ==> r.state.slots == c.slots
  {
    var st := SetSize(c.base, size, lineSize);
    if st.outcome.Fail? then
      Step(c.(base := st.state), st.outcome)
    else
      Step(DirectCache(st.state, EmptySlots(size / lineSize)), Pass)
  }

  /** The default constructor: one empty slot, policy LRU. */
  function Default(): (c: DirectCache)
    ensures c.base == DefaultBase() && c.slots == [EmptySpace]
    ensures Wf(c)
  {
    DirectCache(DefaultBase(), [EmptySpace])
  }

  /** The validating constructor: `size / lineSize` empty slots. */
  function New(size: nat, lineSize: nat, policy: Policy): (r: Result<DirectCache>)
    ensures r.Ok? <==> ValidConfig(size, lineSize)
    ensures r.Err? ==> r.error == (if lineSize == 0 then DivisionByZero else InvalidSize)
    ensures r.Ok? ==> r.value.base == NewBase(size, lineSize, policy).value
                      && r.value.slots == EmptySlots(size / lineSize)
                      && Wf(r.value)
  {
    match NewBase(size, lineSize, policy)
    case Err(e) => Err(e)
    case Ok(b) => Ok(DirectCache(b, EmptySlots(size / lineSize)))
  }

  // ---------------------------------------------------------------------
  // Access sequences
  // ---------------------------------------------------------------------

  /** Feed a sequence of addresses to the cache. */
  function Run(c: DirectCache, vs: seq<nat>): (r: DirectCache)
    requires Wf(c)
    ensures Wf(r)
    ensures r.base.(hitCount := c.base.hitCount, missCount := c.base.missCount) == c.base
    ensures r.base.hitCount + r.base.missCount == c.base.hitCount + c.base.missCount + |vs|
    decreases |vs|
  {
    if |vs| == 0 then c else Run(Emplace(c, vs[0]), vs[1..])
  }

  /** Addresses that all map to one slot, each different from the one
      before it and the first different from the slot's occupant, are all
      misses; the slot ends up holding the last of them. */
  lemma {:induction false} CollidingMisses(c: DirectCache, vs: seq<nat>, id: nat)
    requires Wf(c) && |vs| > 0 && id < |c.slots|
    requires forall j :: 0 <= j < |vs| ==> Id(c, vs[j]) == id
    requires forall j :: 0 < j < |vs| ==> vs[j] != vs[j - 1]
    requires c.slots[id] != vs[0]
    ensures Run(c, vs).base.hitCount == c.base.hitCount
    ensures Run(c, vs).base.missCount == c.base.missCount + |vs|
    ensures Run(c, vs).slots == c.slots[id := vs[|vs| - 1]]
    decreases |vs|
  {
    var e := Emplace(c, vs[0]);
    if |vs| == 1 {
      assert Run(e, vs[1..]) == e;
    } else {
      CollidingMisses(e, vs[1..], id);
      assert e.slots[id := vs[|vs| - 1]] == c.slots[id := vs[|vs| - 1]];
    }
  }

  /** A 16-byte cache with 4-byte lines has 4 empty slots. */
  lemma ScenarioGeometry()
    ensures New(16, 4, LRU).Ok?
    ensures var c := New(16, 4, LRU).value;
            && Wf(c) && c.base.count == 4 && c.slots == [-1, -1, -1, -1]
            && c.base.hitCount == 0 && c.base.missCount == 0
  {
    assert ValidConfig(16, 4) by {
      assert BitAnd(16, 15) == 0 && BitAnd(4, 3) == 0;
    }
    assert EmptySlots(4) == [-1, -1, -1, -1];
  }

  /** On that geometry the accesses 0, 4, 8, 12, 0 all map to slot 0 and
      all miss. */
  lemma ScenarioDirect(c: DirectCache)
    requires Wf(c) && c.base.count == 4 && c.slots == [-1, -1, -1, -1]
    requires c.base.hitCount == 0 && c.base.missCount == 0
    ensures Run(c, [0, 4, 8, 12, 0]).base.hitCount == 0
    ensures Run(c, [0, 4, 8, 12, 0]).base.missCount == 5
    ensures Run(c, [0, 4, 8, 12, 0]).slots == [0, -1, -1, -1]
  {
    var vs: seq<nat> := [0, 4, 8, 12, 0];
    CollidingMisses(c, vs, 0);
  }
}
