/**
  The configuration and counters shared by both cache engines: total size,
  line size, the derived item count, the hit and miss counters and the
  replacement policy, together with the power-of-two size validation.

  Sizes are `nat` (an unbounded `size_t`) and counters are `nat` (an
  unbounded `int`), so neither wraps around.
 */
module CacheBase {

  /** The value a slot holds when nothing has been stored in it. */
  const EmptySpace: int := -1

  /** The replacement policy; any integer code other than 0 and 1 is kept as
      `Unrecognised` and only fails when a replacement is actually needed. */
  datatype Policy = LRU | MRU | Unrecognised(code: int)

  /** Why an operation failed. `InvalidSize` is the size check's
      `invalid_argument`, `NoSuchPolicy` the replacement's, and
      `DivisionByZero` a zero line size, by which the constructor and
      `set_size` divide before they validate anything. */
  datatype ErrorKind = InvalidSize | NoSuchPolicy | DivisionByZero

  datatype Outcome = Pass | Fail(error: ErrorKind)

  datatype Result<T> = Ok(value: T) | Err(error: ErrorKind)

  /** An operation that may fail after it has already changed the state. */
  datatype Step<T> = Step(state: T, outcome: Outcome)

  /** The shared part of every cache. */
  datatype Base = Base(
    size: nat,
    lineSize: nat,
    count: nat,
    hitCount: nat,
    missCount: nat,
    policy: Policy)

  // ---------------------------------------------------------------------
  // Powers of two
  // ---------------------------------------------------------------------

  function Pow2(k: nat): (r: nat)
    ensures r >= 1
  {
    if k == 0 then 1 else 2 * Pow2(k - 1)
  }

  /** The independent characterisation of a power of two. */
  ghost predicate IsPowerOfTwo(n: nat)
  {
    exists k: nat :: n == Pow2(k)
  }

  /** Bitwise and of two naturals, one binary digit at a time. */
  function BitAnd(a: nat, b: nat): (r: nat)
    ensures r <= a && r <= b
    decreases a
  {
    if a == 0 || b == 0 then 0
    else 2 * BitAnd(a / 2, b / 2) + (if a % 2 == 1 && b % 2 == 1 then 1 else 0)
  }

  /** `is_pow2`'s bit trick: `n` is non-zero and shares no bit with `n - 1`. */
  predicate IsPow2(n: nat)
  {
    n != 0 && BitAnd(n, n - 1) == 0
  }

  /** Floor of the base-2 logarithm; 0 for 0 and 1. */
  function Log2Floor(n: nat): (r: nat)
    ensures n >= 1 ==> Pow2(r) <= n < Pow2(r + 1)
  {
    if n <= 1 then 0 else 1 + Log2Floor(n / 2)
  }

  lemma {:induction false} BitAndSelf(m: nat)
    ensures BitAnd(m, m) == m
    decreases m
  {
    if m != 0 {
      BitAndSelf(m / 2);
    }
  }

  /** Every power of two passes the bit trick. */
  lemma {:induction false} Pow2PassesBitTrick(k: nat)
    ensures IsPow2(Pow2(k))
    decreases k
  {
    if k > 0 {
      var n := Pow2(k);
      var m := Pow2(k - 1);
      assert n / 2 == m && (n - 1) / 2 == m - 1 && n % 2 == 0;
      Pow2PassesBitTrick(k - 1);
      assert BitAnd(n, n - 1) == 2 * BitAnd(m, m - 1);
    }
  }

  /** Every number passing the bit trick is the power of two given by its
      logarithm. */
  lemma {:induction false} BitTrickIsPow2(n: nat)
    requires IsPow2(n)
    ensures n == Pow2(Log2Floor(n))
    decreases n
  {
    if n > 1 {
      var m := n / 2;
      if n % 2 == 1 {
        assert (n - 1) / 2 == m && (n - 1) % 2 == 0;
        assert BitAnd(n, n - 1) == 2 * BitAnd(m, m);
        BitAndSelf(m);
        assert false;
      } else {
        assert (n - 1) / 2 == m - 1 && (n - 1) % 2 == 1;
        assert BitAnd(n, n - 1) == 2 * BitAnd(m, m - 1);
        BitTrickIsPow2(m);
      }
    }
  }

  /** The bit trick holds exactly of the powers of two; in particular it
      rejects 0. */
  lemma IsPow2Characterisation(n: nat)
    ensures IsPow2(n) <==> IsPowerOfTwo(n)
    ensures !IsPow2(0)
  {
    if IsPow2(n) {
      BitTrickIsPow2(n);
    }
    if IsPowerOfTwo(n) {
      var k: nat :| n == Pow2(k);
      Pow2PassesBitTrick(k);
    }
  }

  lemma {:induction false} Pow2Exceeds(k: nat)
    ensures k < Pow2(k)
    decreases k
  {
    if k > 0 {
      Pow2Exceeds(k - 1);
    }
  }

  lemma {:induction false} Pow2Split(a: nat, b: nat)
    requires b <= a
    ensures Pow2(a) == Pow2(b) * Pow2(a - b)
    decreases a
  {
    if a > b {
      Pow2Split(a - 1, b);
    }
  }

  /** `Pow2` is monotone. */
  lemma {:induction false} Pow2MonotoneUp(a: nat, b: nat)
    requires a <= b
    ensures Pow2(a) <= Pow2(b)
    decreases b
  {
    if a < b {
      Pow2MonotoneUp(a, b - 1);
    }
  }

  /** The converse: `Pow2` reflects order. */
  lemma {:induction false} Pow2Monotone(a: nat, b: nat)
    requires Pow2(b) <= Pow2(a)
    ensures b <= a
    decreases a
  {
    if b > 0 {
      Pow2Monotone(a - 1, b - 1);
    }
  }

  lemma {:induction false} MulMono(a: nat, b: nat, d: nat)
    requires a < b
    ensures d * a + d <= d * b
    decreases b
  {
    if b > a + 1 {
      MulMono(a, b - 1, d);
      assert d * b == d * (b - 1) + d;
    } else {
      assert d * b == d * a + d;
    }
  }

  lemma DivExact(q: nat, d: nat)
    requires d > 0
    ensures (d * q) / d == q
  {
    var r := (d * q) / d;
    assert d * q == d * r + (d * q) % d;
    if r < q {
      MulMono(r, q, d);
    } else if r > q {
      MulMono(q, r, d);
    }
  }

  lemma Pow2Div(a: nat, b: nat)
    requires b <= a
    ensures Pow2(a) / Pow2(b) == Pow2(a - b)
  {
    Pow2Split(a, b);
    DivExact(Pow2(a - b), Pow2(b));
  }

  // ---------------------------------------------------------------------
  // Size validation
  // ---------------------------------------------------------------------

  /** What the size check accepts. Equal sizes are accepted: only a line
      size larger than the total size is refused. */
  predicate ValidConfig(size: nat, lineSize: nat)
  {
    IsPow2(size) && IsPow2(lineSize) && !(lineSize > size)
  }

  /** `check_size`. */
  function CheckSize(size: nat, lineSize: nat): (r: Outcome)
    ensures r.Pass? <==> IsPowerOfTwo(size) && IsPowerOfTwo(lineSize) && lineSize <= size
    ensures r.Fail? ==> r.error == InvalidSize
    ensures size == lineSize && IsPowerOfTwo(size) ==> r.Pass?
  {
    IsPow2Characterisation(size);
    IsPow2Characterisation(lineSize);
    if !IsPow2(size) || !IsPow2(lineSize) || lineSize > size then Fail(InvalidSize) else Pass
  }

  /** On an accepted configuration the item count is a power of two and at
      least one. */
  lemma ValidConfigCount(size: nat, lineSize: nat)
    requires ValidConfig(size, lineSize)
    ensures lineSize > 0
    ensures size / lineSize >= 1
    ensures IsPow2(size / lineSize)
    ensures IsPowerOfTwo(size / lineSize)
  {
    var a, b := Log2Floor(size), Log2Floor(lineSize);
    BitTrickIsPow2(size);
    BitTrickIsPow2(lineSize);
    Pow2Monotone(a, b);
    Pow2Div(a, b);
    Pow2PassesBitTrick(a - b);
    assert size / lineSize == Pow2(a - b);
  }

  // ---------------------------------------------------------------------
  // Construction and reconfiguration
  // ---------------------------------------------------------------------

  /** The policy an integer code is cast to. */
  function PolicyOf(code: int): (p: Policy)
    ensures p == LRU <==> code == 0
    ensures p == MRU <==> code == 1
    ensures p.Unrecognised? ==> p.code == code
  {
    if code == 0 then LRU else if code == 1 then MRU else Unrecognised(code)
  }

  /** The default constructor. */
  function DefaultBase(): (b: Base)
    ensures ValidConfig(b.size, b.lineSize)
    ensures b.size == 1 && b.lineSize == 1 && b.count == 1
    ensures b.hitCount == 0 && b.missCount == 0 && b.policy == LRU
  {
    assert BitAnd(1, 0) == 0;
    Base(1, 1, 1, 0, 0, LRU)
  }

  /** The validating constructor: the fields are stored, then checked. */
  function NewBase(size: nat, lineSize: nat, policy: Policy): (r: Result<Base>)
    ensures r.Ok? <==> ValidConfig(size, lineSize)
    ensures r.Ok? ==> r.value.size == size && r.value.lineSize == lineSize
                      && r.value.count == size / lineSize && IsPow2(r.value.count)
                      && r.value.count >= 1
                      && r.value.hitCount == 0 && r.value.missCount == 0
                      && r.value.policy == policy
    ensures r.Err? ==> r.error == (if lineSize == 0 then DivisionByZero else InvalidSize)
  {
    if lineSize == 0 then Err(DivisionByZero)
    else
      var b := Base(size, lineSize, size / lineSize, 0, 0, policy);
      match CheckSize(size, lineSize)
      case Pass =>
        ValidConfigCount(size, lineSize);
        Ok(b)
      case Fail(e) => Err(e)
  }

  /** `set_size`: the new sizes and zeroed counters are written first and
      validated afterwards, so a rejected call leaves them written. A zero
      line size faults at the division, after the two sizes are stored. */
  function SetSize(b: Base, size: nat, lineSize: nat): (r: Step<Base>)
    ensures r.state.size == size && r.state.lineSize == lineSize
    ensures r.state.policy == b.policy
    ensures lineSize > 0 ==> r.state.count == size / lineSize
                             && r.state.hitCount == 0 && r.state.missCount == 0
    ensures r.outcome.Pass? <==> ValidConfig(size, lineSize)
    ensures r.outcome.Pass? ==> IsPow2(r.state.count) && r.state.count >= 1
    ensures r.outcome.Fail? ==> r.outcome.error == (if lineSize == 0 then DivisionByZero else InvalidSize)
    ensures lineSize == 0 ==> r.state.count == b.count && r.state.hitCount == b.hitCount
                              && r.state.missCount == b.missCount
  {
    if lineSize == 0 then
      Step(b.(size := size, lineSize := lineSize), Fail(DivisionByZero))
    else
      var b' := b.(size := size, lineSize := lineSize, count := size / lineSize,
                   hitCount := 0, missCount := 0);
      var outcome := CheckSize(size, lineSize);
      if outcome.Pass? then ValidConfigCount(size, lineSize); Step(b', outcome)
      else Step(b', outcome)
  }

  /** A rejected resize is not atomic: the sizes, the count and the counters
      have changed even though the call failed. */
  lemma RejectedSetSizeChangesFields(b: Base, size: nat, lineSize: nat)
    requires lineSize > 0 && !ValidConfig(size, lineSize)
    requires b.size != size || b.hitCount > 0 || b.missCount > 0
    ensures SetSize(b, size, lineSize).outcome == Fail(InvalidSize)
    ensures SetSize(b, size, lineSize).state != b
  {
  }

  function RecordHit(b: Base): (r: Base)
    ensures r.hitCount == b.hitCount + 1 && r.missCount == b.missCount
    ensures r.(hitCount := b.hitCount) == b
  {
    b.(hitCount := b.hitCount + 1)
  }

  function RecordMiss(b: Base): (r: Base)
    ensures r.missCount == b.missCount + 1 && r.hitCount == b.hitCount
    ensures r.(missCount := b.missCount) == b
  {
    b.(missCount := b.missCount + 1)
  }

  function ResetCounters(b: Base): (r: Base)
    ensures r.hitCount == 0 && r.missCount == 0
    ensures r.(hitCount := b.hitCount, missCount := b.missCount) == b
  {
    b.(hitCount := 0, missCount := 0)
  }
}
