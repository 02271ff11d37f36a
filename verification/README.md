# cachesim cache engine in Dafny

A model of the cache engine of `cachesim`, a simulator of one cache level fed
one address at a time. Three pieces are modelled, one Dafny module each:

- `CacheBase` (`cache_base.dfy`): the shared base. It holds the total size,
  the line size, the derived item count `size / line_size`, the hit and miss
  counters and the replacement policy. It also has the power-of-two size
  check, done with the `n && !(n & (n - 1))` bit trick, and the
  reconfiguration step `set_size`.
- `SetAssociative` (`set_associative.dfy`): the set-associative engine.
  The number of sets comes from the item count by the even-floor-log2
  heuristic. Each set is a recency-ordered sequence bounded by
  `ways = count / setCount`. A hit moves the value to the back of its set. A
  miss appends while the set has room and otherwise replaces by LRU (drop the
  front, append) or MRU (overwrite the back).
- `Direct` (`direct.dfy`): the direct-mapped engine, with one slot per index
  `address % (size / line_size)`. A hit leaves the slot alone; a miss
  overwrites it.

Every operation is a pure function on an immutable state
(`Base`, `SetCache`, `DirectCache`). The C++ exceptions become values:
`Result` for constructors, `Step(state, outcome)` for operations that can
fail after they have already changed the state, and an `outcome` field on the
set-associative access. The per-access line the set-associative engine prints
is returned as an `Event` (address, hit, set index, displaced value) and is
not formatted.

## Behaviour as written

The model follows the code. In these places the code does something a reader
might not expect:

- Equal sizes are accepted. The size check refuses only `line_size > size`,
  so a cache of one line passes (`CacheBase.CheckSize`).
- A rejected resize is not atomic. `set_size` stores the new sizes, the new
  item count and zeroed counters before it validates them. The engines'
  `resize` then stops, and their sets or slots keep the old shape
  (`CacheBase.SetSize`, `SetAssociative.Resize`, `Direct.Resize`).
- The set-associative `clear` resets only the counters. Its lambda receives
  each set by value, so the sets keep their contents
  (`SetAssociative.Clear`, `SetAssociative.HitSurvivesClear`).
- The direct-mapped `clear` leaves a zero-length slot vector and keeps the
  counters. After it, no address can be looked up until a resize
  (`Direct.Clear`, `Direct.ClearBlocksAccess`).
- The set count is not always usable. It is 0 for an item count of 2, and it
  need not be a power of two: an item count of 64 gives 6 sets of 10 ways.
  `SetAssociative.New` yields a cache that satisfies the invariant exactly
  when the item count is not 2.
- `direct_cache.h` includes the older `cache.h`, but it uses members
  (`hit_count_`, `miss_count_`, `empty_space`, `set_size`) that only
  `cache_.h` defines. The direct engine is therefore modelled on the
  `cache_.h` base.

## Model

| member | source | states |
|---|---|---|
| CacheBase.IsPow2Characterisation | include/cachesim/cache_.h:87-89 | the bit trick `n != 0 && n & (n-1) == 0` holds exactly when `n` is `2^k` for some `k`; it rejects 0 |
| CacheBase.CheckSize | include/cachesim/cache_.h:105-109 | the check passes iff both sizes are powers of two and the line size is at most the total size; a failure is `InvalidSize`; equal power-of-two sizes pass |
| CacheBase.ValidConfigCount | include/cachesim/cache_.h:65-75 | on an accepted configuration the item count `size / line_size` is at least 1 and a power of two |
| CacheBase.PolicyOf | include/cachesim/cache_.h:72 | the integer policy code is cast: 0 is LRU, 1 is MRU, any other code is kept as unrecognised |
| CacheBase.DefaultBase | include/cachesim/cache_.h:56-63 | the default base has size 1, line size 1, count 1, zero counters and policy LRU, and is a valid configuration |
| CacheBase.NewBase | include/cachesim/cache_.h:65-75 | construction succeeds iff the configuration is valid; on success it stores the sizes and policy, count `size / line_size` (a power of two, at least 1) and zero counters; a zero line size fails with `DivisionByZero`, any other refusal with `InvalidSize` |
| CacheBase.SetSize | include/cachesim/cache_.h:111-118 | whatever the verdict, the sizes equal the arguments and, for a non-zero line size, the count is `size / line_size` and both counters are 0; it passes iff the configuration is valid |
| CacheBase.RejectedSetSizeChangesFields | include/cachesim/cache_.h:111-118 | a rejected `set_size` with a non-zero line size still leaves the base changed and fails with `InvalidSize` whenever the old size differs from the new one or the hit or miss count was non-zero |
| CacheBase.Log2Floor | include/cachesim/set_associative_cache.h:98 | the integer logarithm `r` of `n >= 1` satisfies `2^r <= n < 2^(r+1)` |
| SetAssociative.SetCountFor | include/cachesim/set_associative_cache.h:96-103 | the set count `r` is 1 for item counts up to 1. Above that it is even and satisfies `2^r <= n < 2^(r+2)`, so it is `floor(log2 n)` or one less. It is 0 iff the item count is 2 or 3, and between 2 and `n` from 4 on |
| SetAssociative.SetCountUsable | include/cachesim/set_associative_cache.h:96-103 | for a power-of-two item count other than 2 the set count is positive and at most the item count |
| SetAssociative.ScenarioGeometry | include/cachesim/set_associative_cache.h:48-54 | a 16-byte cache with 4-byte lines has 4 items in 2 empty sets of 2 ways |
| SetAssociative.Id | include/cachesim/set_associative_cache.h:105-107 | the set index is below the set count and is the address itself when the address is smaller |
| SetAssociative.IndexOf | include/cachesim/set_associative_cache.h:77-78 | the search returns the first position holding the value, or the length when the value is absent |
| SetAssociative.MoveToBack | include/cachesim/set_associative_cache.h:82-86 | the hit entry goes to the back; the entries before it stay, the ones after it shift down by one, and the contents are a permutation of the old set |
| SetAssociative.EmplaceLru | include/cachesim/set_associative_cache.h:123-127 | LRU replacement keeps the length, shifts every entry forward by one (dropping the front) and puts the new value at the back |
| SetAssociative.EmplaceMru | include/cachesim/set_associative_cache.h:129-132 | MRU replacement keeps the length and every entry but the last, which becomes the new value |
| SetAssociative.Replace | include/cachesim/set_associative_cache.h:109-121 | replacement fails with `NoSuchPolicy` exactly for an unrecognised policy; otherwise it applies LRU or MRU |
| SetAssociative.Emplace | include/cachesim/set_associative_cache.h:74-94 | only the indexed set changes and the configuration stays. It is a hit iff the value is in its set. A hit moves the value to the back; a miss with room appends; a full miss replaces by the policy. Exactly one counter rises by 1, and the value ends as the set's last entry. It fails, changing nothing, iff a full-set miss meets an unrecognised policy. The reported displaced value is the empty marker while the set has room |
| SetAssociative.EmplacePreservesWf | include/cachesim/set_associative_cache.h:74-94 | emplace keeps the invariant: every set within `ways`, no duplicates within a set, every entry in the set its address maps to |
| SetAssociative.RepeatIsHit | include/cachesim/set_associative_cache.h:74-94 | after a successful emplace of `v`, emplacing `v` again is a successful hit |
| SetAssociative.Clear | include/cachesim/set_associative_cache.h:60-64 | clear zeroes both counters and keeps the configuration, set count, sets and the invariant |
| SetAssociative.HitSurvivesClear | include/cachesim/set_associative_cache.h:60-64 | a value stored before `clear` is a hit after it, counted from zero |
| SetAssociative.Resize | include/cachesim/set_associative_cache.h:66-72 | resize passes iff the new configuration is valid. On success the set count is recomputed and that many empty sets are allocated, satisfying the invariant unless the item count is 2. On failure the sets and set count are kept but the base fields are rewritten. The policy is always kept; with a zero line size the count and counters are kept too |
| SetAssociative.Default | include/cachesim/set_associative_cache.h:45-46 | the default cache is the default base with one empty set of one way |
| SetAssociative.New | include/cachesim/set_associative_cache.h:48-54 | construction succeeds iff the configuration is valid. It then allocates `SetCountFor(count)` empty sets, and the result satisfies the invariant iff the item count is not 2 |
| SetAssociative.Run | include/cachesim/set_associative_cache.h:74-94 | over an access sequence the invariant and configuration hold; if no access fails, hits plus misses grow by the sequence length; a failure needs an unrecognised policy |
| SetAssociative.FillSet | include/cachesim/set_associative_cache.h:86-93 | distinct addresses that map to one set and fit in it are all misses and are stored in access order; other sets do not change |
| SetAssociative.LruEvictsOldest | include/cachesim/set_associative_cache.h:123-127 | under LRU, filling an empty set with `ways` distinct addresses and then missing once more evicts the first address and keeps the rest in order; every access is a miss |
| SetAssociative.MruEvictsNewest | include/cachesim/set_associative_cache.h:129-132 | under MRU the same overflow evicts the last address filled and keeps the others in place; every access is a miss |
| SetAssociative.ScenarioLru | include/cachesim/set_associative_cache.h:109-121 | on 2 sets of 2 ways under LRU, accesses 0, 2, 4 are three misses leaving sets `[[2, 4], []]` |
| Direct.Id | include/cachesim/direct_cache.h:63-65 | the slot index is below `size / line_size` and is the address itself when the address is smaller |
| Direct.Exists | include/cachesim/direct_cache.h:39-42 | in a well-formed cache, the address occupies the slot its index selects exactly when it is stored in any slot |
| Direct.Emplace | include/cachesim/direct_cache.h:53-61 | only the indexed slot may change. A hit keeps all slots and raises only the hit counter; a miss raises only the miss counter. Afterwards `exists(v)` holds, and the invariant is kept |
| Direct.RepeatIsHit | include/cachesim/direct_cache.h:39-61 | emplacing the same address twice in a row makes the second a hit that changes no slot |
| Direct.Clear | include/cachesim/direct_cache.h:44 | clear leaves no slots and does not touch the base or its counters |
| Direct.ClearBlocksAccess | include/cachesim/direct_cache.h:44 | after clear no address has a slot to look up, so `exists` and `emplace` cannot be called |
| Direct.Resize | include/cachesim/direct_cache.h:46-51 | resize passes iff the configuration is valid. On success there are `size / line_size` slots, all empty, with zero counters and the invariant. On failure the slots are kept but the base fields are rewritten. The policy is always kept; with a zero line size the count and counters are kept too |
| Direct.Default | include/cachesim/direct_cache.h:33 | the default cache is the default base with one empty slot |
| Direct.New | include/cachesim/direct_cache.h:35-37 | construction succeeds iff the configuration is valid; it then has `size / line_size` empty slots and satisfies the invariant |
| Direct.Run | include/cachesim/direct_cache.h:53-61 | over an access sequence the invariant and configuration hold and hits plus misses grow by the sequence length |
| Direct.CollidingMisses | include/cachesim/direct_cache.h:53-61 | addresses mapping to one slot, each different from the previous one and from the slot's occupant, are all misses and leave the last of them in the slot |
| Direct.ScenarioGeometry | include/cachesim/direct_cache.h:35-37 | a 16-byte cache with 4-byte lines has 4 empty slots |
| Direct.ScenarioDirect | include/cachesim/direct_cache.h:53-61 | on 4 slots, accesses 0, 4, 8, 12, 0 are five misses leaving slots `[0, -1, -1, -1]` |

## Left out

- Printing: `print_line`, its column widths, and the output stream the base
  holds. Each set-associative access returns an `Event` instead.
- Integer width: sizes are unbounded naturals, not 64-bit `size_t`. The
  counters and the addresses are unbounded, not 32-bit `int`. Nothing wraps
  around.
- Negative addresses: the model takes addresses as naturals. In both
  `get_id` functions the modulus `n` is a `size_t`, so a negative `int`
  address `v` is converted to `size_t` first. It therefore lands in the
  in-range slot or set `(2^64 + v) % n`. In the direct engine `n` is a power
  of two, so `-1` maps to slot `n - 1`. There `exists(-1)` compares the slot
  with the empty marker `-1`, and an access of `-1` to an empty slot counts
  as a hit.
- Floating point: `get_set_count` applies the floating-point `log2` to the
  item count. The model uses the integer floor of the logarithm. The two
  agree on powers of two, which every accepted configuration yields.
- Except for the policy cast (see `CacheBase.PolicyOf` below), undefined
  behaviour is kept out by preconditions rather than modelled:
  - `SetAssociative.Emplace` needs a positive set count (the modulus), a set
    for every index, and a non-empty set whenever a full-set miss reaches
    replacement. Erasing from or overwriting into an empty vector is
    undefined.
  - `Direct.Emplace` needs the indexed slot to exist.
- A zero line size makes the constructor and `set_size` divide by zero
  before any check runs. The model reports this as a distinct error,
  `DivisionByZero`, instead of crashing.
- CacheBase.PolicyOf: casting an integer code other than 0 or 1 to the
  two-value policy enum gives a value outside the enumeration's range
  0..1. That is unspecified in C++14 and undefined behaviour from C++17 on.
  The model picks one defined meaning, `Unrecognised(code)`, so that the
  `default:` branch of `replace` and its `NoSuchPolicy` error can be
  reached, as the code intends.
- `include/cachesim/cache.h` (the older base class), the grid-puzzle module
  `include/cachesim/Sudoku.h`, the random test generator
  `src/test_generator.cc` and the command-line driver with its constants are
  not part of this model.
- The `size()`, `line_size()`, `count()`, `hit_count()`, `miss_count()` and
  `set_count()` accessors are the fields of the state datatypes. They have no
  separate functions.
