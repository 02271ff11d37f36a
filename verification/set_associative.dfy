/**
  The set-associative engine. The item slots are split into `setCount`
  sets; each set is a sequence ordered from least to most recently used and
  holds at most `Ways = count / setCount` values. A hit moves the value to
  the back of its set; a miss appends while the set has room and otherwise
  asks the replacement policy to make room.
 */
module SetAssociative {
  import opened CacheBase

  datatype SetCache = SetCache(base: Base, setCount: nat, sets: seq<seq<int>>)

  /** What one access reports: the address, whether it hit, the set it maps
      to, and the value the set reports as displaced (`EmptySpace` while the
      set still has room, otherwise its most recent entry). */
  datatype Event = Event(address: nat, hit: bool, id: nat, displaced: int)

  /** One access: the new state, its report, and whether the replacement
      policy failed. */
  datatype Access = Access(cache: SetCache, event: Event, outcome: Outcome)

  // ---------------------------------------------------------------------
  // Sequences
  // ---------------------------------------------------------------------

  predicate Distinct(s: seq<int>)
  {
    forall j, k :: 0 <= j < k < |s| ==> s[j] != s[k]
  }

  /** Position of the first occurrence of `v` in `s`, or `|s|` if absent. */
  function IndexOf(s: seq<int>, v: int): (i: nat)
    ensures i <= |s|
    ensures i < |s| ==> s[i] == v
    ensures forall j :: 0 <= j < i ==> s[j] != v
    ensures i == |s| <==> v !in s
  {
    if |s| == 0 then 0
    else if s[0] == v then 0
    else 1 + IndexOf(s[1..], v)
  }

  /** Takes the entry at position `i` out and appends it at the back; the
      other entries keep their relative order. */
  function MoveToBack(s: seq<int>, i: nat): (t: seq<int>)
    requires i < |s|
    ensures |t| == |s| && t[|t| - 1] == s[i]
    ensures forall j :: 0 <= j < i ==> t[j] == s[j]
    ensures forall j :: i <= j < |s| - 1 ==> t[j] == s[j + 1]
    ensures multiset(t) == multiset(s)
  {
    assert s == s[..i] + [s[i]] + s[i + 1..];
    s[..i] + s[i + 1..] + [s[i]]
  }

  /** `emplace_lru`: the front (least recently used) entry is dropped and
      `v` appended. */
  function EmplaceLru(s: seq<int>, v: int): (t: seq<int>)
    requires |s| > 0
    ensures |t| == |s| && t[|t| - 1] == v
    ensures forall j :: 0 <= j < |s| - 1 ==> t[j] == s[j + 1]
  {
    s[1..] + [v]
  }

  /** `emplace_mru`: the back (most recently used) entry is overwritten
      with `v`; every other entry stays where it was. */
  function EmplaceMru(s: seq<int>, v: int): (t: seq<int>)
    requires |s| > 0
    ensures |t| == |s| && t[|t| - 1] == v
    ensures forall j :: 0 <= j < |s| - 1 ==> t[j] == s[j]
  {
    s[|s| - 1 := v]
  }

  /** `replace`: dispatch on the policy; an unrecognised policy is an
      error. */
  function Replace(policy: Policy, s: seq<int>, v: int): (r: Result<seq<int>>)
    requires |s| > 0
    ensures r.Err? <==> policy.Unrecognised?
    ensures r.Err? ==> r.error == NoSuchPolicy
    ensures policy == LRU ==> r == Ok(EmplaceLru(s, v))
    ensures policy == MRU ==> r == Ok(EmplaceMru(s, v))
  {
    match policy
    case LRU => Ok(EmplaceLru(s, v))
    case MRU => Ok(EmplaceMru(s, v))
    case Unrecognised(_) => Err(NoSuchPolicy)
  }

  // ---------------------------------------------------------------------
  // Geometry
  // ---------------------------------------------------------------------

  /** `get_set_count`: from the floor of the base-2 logarithm `k` of the
      item count, `k` if it is even and `k - 1` otherwise; 1 for an item
      count of at most 1. */
  function SetCountFor(count: nat): (r: nat)
    ensures count <= 1 ==> r == 1
    ensures count > 1 ==> r % 2 == 0 && Pow2(r) <= count && count < Pow2(r + 2)
    ensures count > 1 ==> (r == 0 <==> count < 4)
    ensures count >= 4 ==> 2 <= r <= count
  {
    if count > 1 then
      var k := Log2Floor(count);
      assert count >= 4 <==> k >= 2 by {
        assert Pow2(1) == 2 && Pow2(2) == 4;
        if k >= 2 { Pow2MonotoneUp(2, k); }
      }
      Pow2Exceeds(k);
      var r := if k % 2 == 0 then k else k - 1;
      Pow2MonotoneUp(r, k);
      Pow2MonotoneUp(k + 1, r + 2);
      r
    else 1
  }

  /** The number of entries a set may hold before a miss needs replacement. */
  function Ways(c: SetCache): nat
    requires c.setCount > 0
  {
    c.base.count / c.setCount
  }

  /** `get_id`: the set an address maps to. */
  function Id(c: SetCache, v: nat): (r: nat)
    requires c.setCount > 0
    ensures r < c.setCount
    ensures v < c.setCount ==> r == v
  {
    v % c.setCount
  }

  // ---------------------------------------------------------------------
  // State invariant
  // ---------------------------------------------------------------------

  /** Every entry of a set is an address that maps to that set. */
  predicate MapsTo(s: seq<int>, id: nat, setCount: nat)
    requires setCount > 0
  {
    forall j :: 0 <= j < |s| ==> s[j] >= 0 && s[j] % setCount == id
  }

  /** The invariant an emplace keeps: a usable geometry (at least one set
      and at least one way), no set over its bound, no duplicate within a
      set, and every entry in the set its address maps to. */
  predicate Wf(c: SetCache)
  {
    && c.setCount > 0
    && |c.sets| == c.setCount
    && c.base.count >= c.setCount
    && forall i :: 0 <= i < |c.sets| ==>
         |c.sets[i]| <= Ways(c) && Distinct(c.sets[i]) && MapsTo(c.sets[i], i, c.setCount)
  }

  /** What `emplace` needs to stay defined: a non-zero set count for the
      modulus, a set for every index, and never a replacement on an empty
      set (which would erase from or overwrite into an empty vector). */
  predicate CanEmplace(c: SetCache, v: nat)
  {
    && c.setCount > 0
    && |c.sets| == c.setCount
    && (Ways(c) > 0 || |c.sets[Id(c, v)]| > 0)
  }

  lemma WfCanEmplace(c: SetCache, v: nat)
    requires Wf(c)
    ensures CanEmplace(c, v)
  {
    assert c.base.count / c.setCount >= 1 by {
      DivAtLeastOne(c.base.count, c.setCount);
    }
  }

  /** A power-of-two item count other than 2 gets a usable set count. */
  lemma SetCountUsable(count: nat)
    requires IsPow2(count)
    ensures count != 2 ==> 0 < SetCountFor(count) <= count
  {
    assert !IsPow2(3) by { assert BitAnd(3, 2) == 2; }
  }

  lemma DivAtLeastOne(n: nat, d: nat)
    requires 0 < d <= n
    ensures n / d >= 1
  {
  }

  // ---------------------------------------------------------------------
  // Operations
  // ---------------------------------------------------------------------

  /** `emplace`: classify `v` as a hit or a miss in its set and update that
      set and the counters. */
  function Emplace(c: SetCache, v: nat): (r: Access)
    requires CanEmplace(c, v)
    // Only the indexed set changes; the configuration is kept.
    ensures r.cache.setCount == c.setCount && |r.cache.sets| == |c.sets|
    ensures r.cache.base.(hitCount := c.base.hitCount, missCount := c.base.missCount) == c.base
    ensures forall j :: 0 <= j < |c.sets| && j != Id(c, v) ==> r.cache.sets[j] == c.sets[j]
    // The report.
    ensures r.event.address == v && r.event.id == Id(c, v)
    ensures r.event.hit <==> v in c.sets[Id(c, v)]
    ensures r.event.displaced == (if |c.sets[Id(c, v)]| < Ways(c) then EmptySpace
                            else c.sets[Id(c, v)][|c.sets[Id(c, v)]| - 1])
    // Failure happens only when a full-set miss meets an unrecognised policy,
    // and then nothing changes.
    ensures r.outcome.Fail? <==> !r.event.hit && |c.sets[Id(c, v)]| >= Ways(c)
                                 && c.base.policy.Unrecognised?
    ensures r.outcome.Fail? ==> r.outcome.error == NoSuchPolicy && r.cache == c
    // Exactly one counter moves.
    ensures r.outcome.Pass? && r.event.hit ==>
              r.cache.base.hitCount == c.base.hitCount + 1 && r.cache.base.missCount == c.base.missCount
    ensures r.outcome.Pass? && !r.event.hit ==>
              r.cache.base.missCount == c.base.missCount + 1 && r.cache.base.hitCount == c.base.hitCount
    // The accessed value ends up as the most recent entry of its set.
    ensures r.outcome.Pass? ==> |r.cache.sets[Id(c, v)]| > 0
                                && r.cache.sets[Id(c, v)][|r.cache.sets[Id(c, v)]| - 1] == v
    // How the set changes, case by case.
    ensures r.event.hit ==>
              r.cache.sets[Id(c, v)] == MoveToBack(c.sets[Id(c, v)], IndexOf(c.sets[Id(c, v)], v))
    ensures !r.event.hit && |c.sets[Id(c, v)]| < Ways(c) ==>
              r.cache.sets[Id(c, v)] == c.sets[Id(c, v)] + [v]
    ensures !r.event.hit && |c.sets[Id(c, v)]| >= Ways(c) && c.base.policy == LRU ==>
              r.cache.sets[Id(c, v)] == EmplaceLru(c.sets[Id(c, v)], v)
    ensures !r.event.hit && |c.sets[Id(c, v)]| >= Ways(c) && c.base.policy == MRU ==>
              r.cache.sets[Id(c, v)] == EmplaceMru(c.sets[Id(c, v)], v)
  {
    var id := Id(c, v);
    var s := c.sets[id];
    var ways := Ways(c);
    var i := IndexOf(s, v);
    var found := i < |s|;
    var event := Event(v, found, id, if |s| < ways then EmptySpace else s[|s| - 1]);
    if found then
      Access(c.(base := RecordHit(c.base), sets := c.sets[id := MoveToBack(s, i)]), event, Pass)
    else if |s| < ways then
      Access(c.(base := RecordMiss(c.base), sets := c.sets[id := s + [v]]), event, Pass)
    else
      match Replace(c.base.policy, s, v)
      case Ok(t) => Access(c.(base := RecordMiss(c.base), sets := c.sets[id := t]), event, Pass)
      case Err(e) => Access(c, event, Fail(e))
  }

  lemma MoveToBackKeeps(s: seq<int>, i: nat, id: nat, n: nat)
    requires i < |s| && n > 0
    requires Distinct(s) && MapsTo(s, id, n)
    ensures Distinct(MoveToBack(s, i)) && MapsTo(MoveToBack(s, i), id, n)
  {
    var t := MoveToBack(s, i);
    forall j | 0 <= j < |t|
      ensures t[j] == s[Origin(s, i, j)]
    {
    }
    forall j, k | 0 <= j < k < |t|
      ensures t[j] != t[k]
    {
      assert Origin(s, i, j) != Origin(s, i, k);
    }
  }

  /** Where the entry at position `j` of `MoveToBack(s, i)` came from. */
  function Origin(s: seq<int>, i: nat, j: nat): (k: nat)
    requires i < |s| && j < |s|
    ensures k < |s|
  {
    if j < i then j else if j < |s| - 1 then j + 1 else i
  }

  lemma AppendKeeps(s: seq<int>, v: nat, id: nat, n: nat)
    requires n > 0 && v % n == id && v !in s
    requires Distinct(s) && MapsTo(s, id, n)
    ensures Distinct(s + [v]) && MapsTo(s + [v], id, n)
  {
  }

  lemma LruKeeps(s: seq<int>, v: nat, id: nat, n: nat)
    requires |s| > 0 && n > 0 && v % n == id && v !in s
    requires Distinct(s) && MapsTo(s, id, n)
    ensures Distinct(EmplaceLru(s, v)) && MapsTo(EmplaceLru(s, v), id, n)
  {
    AppendKeeps(s[1..], v, id, n);
  }

  lemma MruKeeps(s: seq<int>, v: nat, id: nat, n: nat)
    requires |s| > 0 && n > 0 && v % n == id && v !in s
    requires Distinct(s) && MapsTo(s, id, n)
    ensures Distinct(EmplaceMru(s, v)) && MapsTo(EmplaceMru(s, v), id, n)
  {
    assert EmplaceMru(s, v) == s[..|s| - 1] + [v];
    AppendKeeps(s[..|s| - 1], v, id, n);
  }

  /** Every emplace keeps the invariant. */
  lemma EmplacePreservesWf(c: SetCache, v: nat)
    requires Wf(c)
    ensures CanEmplace(c, v)
    ensures Wf(Emplace(c, v).cache)
  {
    WfCanEmplace(c, v);
    var r := Emplace(c, v);
    var id, n := Id(c, v), c.setCount;
    var s := c.sets[id];
    if r.outcome.Pass? {
      if v in s {
        MoveToBackKeeps(s, IndexOf(s, v), id, n);
      } else if |s| < Ways(c) {
        AppendKeeps(s, v, id, n);
      } else if c.base.policy == LRU {
        LruKeeps(s, v, id, n);
      } else {
        MruKeeps(s, v, id, n);
      }
      assert r.cache.sets == c.sets[id := r.cache.sets[id]];
    }
  }

  /** Re-accessing the value just emplaced is a hit. */
  lemma RepeatIsHit(c: SetCache, v: nat)
    requires CanEmplace(c, v)
    requires Emplace(c, v).outcome.Pass?
    ensures CanEmplace(Emplace(c, v).cache, v)
    ensures Emplace(Emplace(c, v).cache, v).event.hit
    ensures Emplace(Emplace(c, v).cache, v).outcome.Pass?
  {
    var c' := Emplace(c, v).cache;
    var t := c'.sets[Id(c, v)];
    assert t[|t| - 1] == v;
  }

  /** `clear` resets the counters; the lambda it applies to each set takes
      the set by value, so the sets keep their contents. */
  function Clear(c: SetCache): (r: SetCache)
    ensures r.base.hitCount == 0 && r.base.missCount == 0
    ensures r.base.size == c.base.size && r.base.lineSize == c.base.lineSize
    ensures r.base.count == c.base.count && r.base.policy == c.base.policy
    ensures r.setCount == c.setCount && r.sets == c.sets
    ensures Wf(c) ==> Wf(r)
  {
    c.(base := ResetCounters(c.base))
  }

  /** Because `clear` keeps the sets, an address stored before it is still
      a hit after it. */
  lemma HitSurvivesClear(c: SetCache, v: nat)
    requires CanEmplace(c, v) && v in c.sets[Id(c, v)]
    ensures CanEmplace(Clear(c), v)
    ensures Emplace(Clear(c), v).event.hit
    ensures Emplace(Clear(c), v).cache.base.hitCount == 1
    ensures Emplace(Clear(c), v).cache.base.missCount == 0
  {
  }

  /** The empty sets a (re)configuration allocates. */
  function EmptySets(n: nat): (sets: seq<seq<int>>)
    ensures |sets| == n && forall i :: 0 <= i < n ==> sets[i] == []
  {
    seq(n, _ => [])
  }

  /** `resize`: `set_size` first; only if it passes are the set count
      recomputed and the sets reallocated empty. A rejected resize keeps
      the sets and set count but not the base fields `set_size` wrote. */
  function Resize(c: SetCache, size: nat, lineSize: nat): (r: Step<SetCache>)
    ensures r.outcome.Pass? <==> ValidConfig(size, lineSize)
    ensures r.state.base.size == size && r.state.base.lineSize == lineSize
    ensures r.state.base.policy == c.base.policy
    ensures lineSize == 0 ==> r.state.base.count == c.base.count
                              && r.state.base.hitCount == c.base.hitCount
                              && r.state.base.missCount == c.base.missCount
    ensures lineSize > 0 ==> r.state.base.count == size / lineSize
                             && r.state.base.hitCount == 0 && r.state.base.missCount == 0
    ensures r.outcome.Pass? ==> r.state.setCount == SetCountFor(size / lineSize)
                                && r.state.sets == EmptySets(r.state.setCount)
    ensures r.outcome.Fail? ==> r.state.setCount == c.setCount && r.state.sets == c.sets
    ensures r.outcome.Pass? && size / lineSize != 2 ==> Wf(r.state)
  {
    var st := SetSize(c.base, size, lineSize);
    if st.outcome.Fail? then
      Step(c.(base := st.state), st.outcome)
    else
      SetCountUsable(st.state.count);
      var n := SetCountFor(st.state.count);
      Step(SetCache(st.state, n, EmptySets(n)), Pass)
  }

  /** The default constructor: one set, one way, policy LRU. */
  function Default(): (c: SetCache)
    ensures c.base == DefaultBase() && c.setCount == 1 && c.sets == [[]]
    ensures Wf(c) && Ways(c) == 1
  {
    SetCache(DefaultBase(), 1, [[]])
  }

  /** The validating constructor. A two-item cache is built with zero sets
      and is unusable; every other accepted configuration satisfies the
      invariant. */
  function New(size: nat, lineSize: nat, policyCode: int): (r: Result<SetCache>)
    ensures r.Ok? <==> ValidConfig(size, lineSize)
    ensures r.Err? ==> r.error == (if lineSize == 0 then DivisionByZero else InvalidSize)
    ensures r.Ok? ==> r.value.base == NewBase(size, lineSize, PolicyOf(policyCode)).value
                      && r.value.setCount == SetCountFor(size / lineSize)
                      && r.value.sets == EmptySets(r.value.setCount)
    ensures r.Ok? ==> (Wf(r.value) <==> size / lineSize != 2)
  {
    match NewBase(size, lineSize, PolicyOf(policyCode))
    case Err(e) => Err(e)
    case Ok(b) =>
      SetCountUsable(b.count);
      var n := SetCountFor(b.count);
      Ok(SetCache(b, n, EmptySets(n)))
  }

  // ---------------------------------------------------------------------
  // Access sequences
  // ---------------------------------------------------------------------

  /** Feed a sequence of addresses to the cache, stopping at the first
      failure. */
  function Run(c: SetCache, vs: seq<nat>): (r: Step<SetCache>)
    requires Wf(c)
    ensures Wf(r.state)
    ensures r.state.setCount == c.setCount
    ensures r.state.base.(hitCount := c.base.hitCount, missCount := c.base.missCount) == c.base
    ensures r.outcome.Pass? ==>
              r.state.base.hitCount + r.state.base.missCount
              == c.base.hitCount + c.base.missCount + |vs|
    ensures r.outcome.Fail? ==> c.base.policy.Unrecognised?
    decreases |vs|
  {
    if |vs| == 0 then Step(c, Pass)
    else
      EmplacePreservesWf(c, vs[0]);
      var a := Emplace(c, vs[0]);
      if a.outcome.Fail? then Step(a.cache, a.outcome)
      else Run(a.cache, vs[1..])
  }

  /** Running `a + b` is running `a`, then `b` from where `a` stopped. */
  lemma {:induction false} RunAppend(c: SetCache, a: seq<nat>, b: seq<nat>)
    requires Wf(c)
    ensures Run(c, a + b) == (if Run(c, a).outcome.Pass? then Run(Run(c, a).state, b) else Run(c, a))
    decreases |a|
  {
    if |a| > 0 {
      assert (a + b)[0] == a[0] && (a + b)[1..] == a[1..] + b;
      EmplacePreservesWf(c, a[0]);
      var e := Emplace(c, a[0]);
      if e.outcome.Pass? {
        RunAppend(e.cache, a[1..], b);
      }
    } else {
      assert a + b == b;
    }
  }

  /** Filling a set with distinct addresses that all map to it, while it
      has room, gives only misses and stores them in access order; no other
      set changes. */
  lemma {:induction false} FillSet(c: SetCache, vs: seq<nat>, id: nat)
    requires Wf(c) && id < c.setCount
    requires forall j :: 0 <= j < |vs| ==> vs[j] % c.setCount == id && vs[j] !in c.sets[id]
    requires forall j, k :: 0 <= j < k < |vs| ==> vs[j] != vs[k]
    requires |c.sets[id]| + |vs| <= Ways(c)
    ensures Run(c, vs).outcome.Pass?
    ensures Run(c, vs).state.sets[id] == c.sets[id] + vs
    ensures forall j :: 0 <= j < c.setCount && j != id ==> Run(c, vs).state.sets[j] == c.sets[j]
    ensures Run(c, vs).state.base.hitCount == c.base.hitCount
    ensures Run(c, vs).state.base.missCount == c.base.missCount + |vs|
    decreases |vs|
  {
    if |vs| > 0 {
      EmplacePreservesWf(c, vs[0]);
      var e := Emplace(c, vs[0]);
      assert !e.event.hit;
      assert e.cache.sets[id] == c.sets[id] + [vs[0]];
      FillSet(e.cache, vs[1..], id);
      assert c.sets[id] + [vs[0]] + vs[1..] == c.sets[id] + vs;
    } else {
      assert c.sets[id] + vs == c.sets[id];
    }
  }

  /** The conditions under which a set is filled from empty and then
      overflowed by one more distinct address. */
  predicate FillsThenOverflows(c: SetCache, vs: seq<nat>, w: nat, id: nat)
    requires Wf(c)
  {
    && id < c.setCount && c.sets[id] == [] && |vs| == Ways(c)
    && (forall j :: 0 <= j < |vs| ==> vs[j] % c.setCount == id && vs[j] != w)
    && (forall j, k :: 0 <= j < k < |vs| ==> vs[j] != vs[k])
    && w % c.setCount == id
  }

  /** Under LRU, the address that overflows a freshly filled set evicts the
      first one filled; the others keep their order and the newcomer is
      last. Every access is a miss. */
  lemma LruEvictsOldest(c: SetCache, vs: seq<nat>, w: nat, id: nat)
    requires Wf(c) && c.base.policy == LRU && FillsThenOverflows(c, vs, w, id)
    ensures Run(c, vs + [w]).outcome.Pass?
    ensures Run(c, vs + [w]).state.sets[id] == vs[1..] + [w]
    ensures forall j :: 0 <= j < c.setCount && j != id ==> Run(c, vs + [w]).state.sets[j] == c.sets[j]
    ensures Run(c, vs + [w]).state.base.hitCount == c.base.hitCount
    ensures Run(c, vs + [w]).state.base.missCount == c.base.missCount + |vs| + 1
  {
    FillThenOverflow(c, vs, w, id);
    var f := Run(c, vs).state;
    assert w !in f.sets[id];
  }

  /** Under MRU, the address that overflows a freshly filled set evicts the
      last one filled; the others stay in place. Every access is a miss. */
  lemma MruEvictsNewest(c: SetCache, vs: seq<nat>, w: nat, id: nat)
    requires Wf(c) && c.base.policy == MRU && FillsThenOverflows(c, vs, w, id)
    ensures Run(c, vs + [w]).outcome.Pass?
    ensures Run(c, vs + [w]).state.sets[id] == vs[..|vs| - 1] + [w]
    ensures forall j :: 0 <= j < c.setCount && j != id ==> Run(c, vs + [w]).state.sets[j] == c.sets[j]
    ensures Run(c, vs + [w]).state.base.hitCount == c.base.hitCount
    ensures Run(c, vs + [w]).state.base.missCount == c.base.missCount + |vs| + 1
  {
    FillThenOverflow(c, vs, w, id);
    var f := Run(c, vs).state;
    assert w !in f.sets[id];
    assert EmplaceMru(vs, w) == vs[..|vs| - 1] + [w];
  }

  /** Filling the set takes `|vs|` misses; the overflowing access is then a
      single emplace on the filled state. */
  lemma FillThenOverflow(c: SetCache, vs: seq<nat>, w: nat, id: nat)
    requires Wf(c) && FillsThenOverflows(c, vs, w, id)
    ensures var f := Run(c, vs).state;
            && Run(c, vs).outcome.Pass? && Wf(f) && f.sets[id] == vs && f.setCount == c.setCount
            && f.base.policy == c.base.policy
            && f.base.hitCount == c.base.hitCount
            && f.base.missCount == c.base.missCount + |vs|
            && (forall j :: 0 <= j < c.setCount && j != id ==> f.sets[j] == c.sets[j])
            && CanEmplace(f, w) && Id(f, w) == id
            && Run(c, vs + [w]) == Step(Emplace(f, w).cache, Emplace(f, w).outcome)
  {
    assert forall j :: 0 <= j < |vs| ==> vs[j] !in c.sets[id];
    FillSet(c, vs, id);
    var f := Run(c, vs).state;
    assert f.sets[id] == vs;
    RunAppend(c, vs, [w]);
    assert Run(c, vs + [w]) == Run(f, [w]);
    RunSingle(f, w);
  }

  /** Running one address is one emplace. */
  lemma RunSingle(c: SetCache, w: nat)
    requires Wf(c)
    ensures CanEmplace(c, w)
    ensures Run(c, [w]) == Step(Emplace(c, w).cache, Emplace(c, w).outcome)
  {
    WfCanEmplace(c, w);
    EmplacePreservesWf(c, w);
    assert [w][1..] == [];
  }

  /** A 16-byte cache with 4-byte lines under LRU has 4 items in 2 empty
      sets of 2 ways. */
  lemma ScenarioGeometry()
    ensures New(16, 4, 0).Ok?
    ensures var c := New(16, 4, 0).value;
            && c.base.count == 4 && c.setCount == 2 && Wf(c) && Ways(c) == 2
            && c.sets == [[], []] && c.base.policy == LRU
            && c.base.hitCount == 0 && c.base.missCount == 0
  {
    assert ValidConfig(16, 4) by {
      assert BitAnd(16, 15) == 0 && BitAnd(4, 3) == 0;
    }
    assert Log2Floor(4) == 2;
  }

  /** On that geometry the accesses 0, 2, 4 all map to set 0 and all miss,
      and the third evicts 0. */
  lemma ScenarioLru(c: SetCache)
    requires Wf(c) && c.setCount == 2 && Ways(c) == 2 && c.sets == [[], []]
    requires c.base.policy == LRU && c.base.hitCount == 0 && c.base.missCount == 0
    ensures Run(c, [0, 2, 4]).outcome.Pass?
    ensures Run(c, [0, 2, 4]).state.sets == [[2, 4], []]
    ensures Run(c, [0, 2, 4]).state.base.hitCount == 0
    ensures Run(c, [0, 2, 4]).state.base.missCount == 3
  {
    assert [0, 2] + [4] == [0, 2, 4];
    LruEvictsOldest(c, [0, 2], 4, 0);
    var r := Run(c, [0, 2, 4]).state;
    assert [0, 2][1..] + [4] == [2, 4];
    assert |r.sets| == 2 && r.sets[0] == [2, 4] && r.sets[1] == [];
  }
}
