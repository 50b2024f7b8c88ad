/** One client's request count: a sliding window estimated from two fixed ones
    (src/rate_limit.rs). Times and counts are u64 in the source; counts
    saturate here as they do there, times are plain naturals. */
module RateLimit {

  const U64_MAX: nat := 0xFFFF_FFFF_FFFF_FFFF

  /** The value of a client's tally at one moment; `Count` keeps a copy. */
  datatype Tally = Tally(windowMs: nat, slot: nat, current: nat, previous: nat, lastMs: nat)

  /** What a client is counted in before its first request. */
  const FRESH := Tally(0, 0, 0, 0, 0)

  /** What the count was when a request was counted, that request included. */
  datatype Count = Count(requests: nat, scaled: nat, tally: Tally, atMs: nat)

  function Min(a: nat, b: nat): nat { if a <= b then a else b }

  function SaturatingSub(a: nat, b: nat): nat { if a <= b then 0 else a - b }

  function CeilDiv(a: nat, b: nat): nat
    requires b >= 1
  {
    (a + b - 1) / b
  }

  function Advanced(t: Tally, now: nat, w: nat): Tally
    requires w >= 1
  {
    var slot := now / w;
    if t.windowMs != w then Tally(w, slot, 0, 0, 0)
    else if slot == t.slot + 1 then t.(previous := t.current, current := 0, slot := slot)
    else if slot > t.slot then t.(previous := 0, current := 0, slot := slot)
    else t
  }

  function Recorded(t: Tally, now: nat, w: nat): Tally
    requires w >= 1
  {
    var a := Advanced(t, now, w);
    a.(current := Min(a.current + 1, U64_MAX), lastMs := now)
  }

  /** The requests in the sliding window ending at `now`, times its length. */
  function Scaled(t: Tally, now: nat): nat
    requires t.windowMs >= 1
  {
    t.previous * (t.windowMs - now % t.windowMs) + t.current * t.windowMs
  }

  function Counted(t: Tally, now: nat, w: nat): Count
    requires w >= 1
  {
    var r := Recorded(t, now, w);
    Count(CeilDiv(Scaled(r, now), w), Scaled(r, now), r, now)
  }

  predicate Over(c: Count, limit: nat) {
    c.scaled > limit * c.tally.windowMs
  }

  // ─── The tally as the source keeps it: fields updated in place ───

  class LiveTally {
    var windowMs: nat
    var slot: nat
    var current: nat
    var previous: nat
    var lastMs: nat

    constructor (t: Tally)
      ensures Value() == t
    {
      windowMs, slot, current, previous, lastMs := t.windowMs, t.slot, t.current, t.previous, t.lastMs;
    }

    function Value(): Tally
      reads this
    {
      Tally(windowMs, slot, current, previous, lastMs)
    }

    method Advance(nowMs: nat, w: nat)
      requires w >= 1
      modifies this
      ensures Value() == Advanced(old(Value()), nowMs, w)
    {
      var s := nowMs / w;
      if windowMs != w {
        windowMs, slot, current, previous, lastMs := w, s, 0, 0, 0;
      } else if s == slot + 1 {
        previous := current;
        current := 0;
        slot := s;
      } else if s > slot {
        previous := 0;
        current := 0;
        slot := s;
      }
    }

    method Record(nowMs: nat, w: nat) returns (c: Count)
      requires w >= 1
      modifies this
      ensures Value() == Recorded(old(Value()), nowMs, w)
      ensures c == Counted(old(Value()), nowMs, w)
    {
      Advance(nowMs, w);
      current := Min(current + 1, U64_MAX);
      lastMs := nowMs;
      var scaled := Scaled(Value(), nowMs);
      c := Count(CeilDiv(scaled, w), scaled, Value(), nowMs);
    }
  }

  // ─── Slots ───────────────────────────────────────────────

  lemma MulOrder(a: int, b: int, w: nat)
    ensures a <= b ==> a * w <= b * w
    ensures a < b ==> a * w + w <= b * w
  {
    if a < b {
      var d: nat := b - a - 1;
      assert d * w >= 0;
      calc { b * w; == (a + 1 + d) * w; == a * w + w + d * w; }
    }
  }

  lemma SlotUnique(now: nat, w: nat, q: nat, r: nat)
    requires w >= 1 && r < w && now == q * w + r
    ensures now / w == q && now % w == r
  {
    assert now == (now / w) * w + now % w;
    MulOrder(now / w, q, w);
    MulOrder(q, now / w, w);
  }

  lemma SlotMonotone(a: nat, b: nat, w: nat)
    requires w >= 1 && a <= b
    ensures a / w <= b / w
  {
    assert a == (a / w) * w + a % w;
    assert b == (b / w) * w + b % w;
    MulOrder(b / w, a / w, w);
  }

  /** Times at most a window apart fall in the same slot or the next. */
  lemma SlotNear(a: nat, b: nat, w: nat)
    requires w >= 1 && a <= b <= a + w
    ensures a / w <= b / w <= a / w + 1
  {
    SlotMonotone(a, b, w);
    SlotMonotone(b, a + w, w);
    SlotUnique(a + w, w, a / w + 1, a % w);
  }

  /** Times two windows apart fall at least two slots apart. */
  lemma SlotFar(a: nat, b: nat, w: nat)
    requires w >= 1 && a + 2 * w <= b
    ensures b / w >= a / w + 2
  {
    SlotMonotone(a + 2 * w, b, w);
    SlotUnique(a + 2 * w, w, a / w + 2, a % w);
  }

  lemma CeilDivIs(a: nat, b: nat)
    requires b >= 1
    ensures CeilDiv(a, b) * b >= a && (CeilDiv(a, b) - 1) * b < a
    ensures a >= 1 ==> 1 <= CeilDiv(a, b) <= a
  {
    var q, r := (a + b - 1) / b, (a + b - 1) % b;
    assert a + b - 1 == q * b + r;
    assert (q - 1) * b == q * b - b;
    if a >= 1 {
      MulOrder(q, 0, b);
      MulOrder(a + 1, q, b);
      assert (a + 1) * b == a * b + b;
      MulOrder(1, b, a);
    }
  }

  // ─── A whole history of one client's requests ─────────────

  ghost predicate Nondecreasing(times: seq<nat>) {
    forall i, j :: 0 <= i <= j < |times| ==> times[i] <= times[j]
  }

  /** The client's tally once its first `n` requests have been counted. */
  function After(times: seq<nat>, n: nat, w: nat): Tally
    requires n <= |times| && w >= 1
  {
    if n == 0 then FRESH else Recorded(After(times, n - 1, w), times[n - 1], w)
  }

  /** Whether request `i` is within the limit, counted after those before it. */
  predicate LetThrough(times: seq<nat>, i: nat, w: nat, limit: nat)
    requires i < |times| && w >= 1
  {
    !Over(Counted(After(times, i, w), times[i], w), limit)
  }

  /** How many of the first `n` requests fall in a slot. */
  function InSlot(times: seq<nat>, n: nat, w: nat, slot: int): nat
    requires n <= |times| && w >= 1
  {
    if n == 0 then 0
    else InSlot(times, n - 1, w, slot) + if times[n - 1] / w == slot then 1 else 0
  }

  /** How many of the first `n` requests fall in a slot and are let through. */
  function PassedInSlot(times: seq<nat>, n: nat, w: nat, limit: nat, slot: int): nat
    requires n <= |times| && w >= 1
  {
    if n == 0 then 0
    else PassedInSlot(times, n - 1, w, limit, slot)
         + if times[n - 1] / w == slot && LetThrough(times, n - 1, w, limit) then 1 else 0
  }

  /** How many of the first `n` requests fall between two times, inclusive, and
      are let through. */
  function PassedBetween(times: seq<nat>, n: nat, w: nat, limit: nat, from: nat, to: nat): nat
    requires n <= |times| && w >= 1
  {
    if n == 0 then 0
    else PassedBetween(times, n - 1, w, limit, from, to)
         + if from <= times[n - 1] <= to && LetThrough(times, n - 1, w, limit) then 1 else 0
  }

  lemma {:induction false} NothingAhead(times: seq<nat>, n: nat, w: nat, slot: int)
    requires n <= |times| && w >= 1 && Nondecreasing(times)
    requires n >= 1 ==> times[n - 1] / w < slot
    ensures InSlot(times, n, w, slot) == 0
  {
    if n >= 2 {
      SlotMonotone(times[n - 2], times[n - 1], w);
    }
    if n >= 1 {
      NothingAhead(times, n - 1, w, slot);
    }
  }

  lemma {:induction false} InSlotBounded(times: seq<nat>, n: nat, w: nat, slot: int)
    requires n <= |times| && w >= 1
    ensures InSlot(times, n, w, slot) <= n
  {
    if n >= 1 { InSlotBounded(times, n - 1, w, slot); }
  }

  /** The tally holds exactly what it claims: every request of the newest
      request's slot, let through or refused, and every one of the slot before. */
  lemma {:induction false} TallyIsExact(times: seq<nat>, n: nat, w: nat)
    requires 1 <= n <= |times| <= U64_MAX && w >= 1 && Nondecreasing(times)
    ensures var t := After(times, n, w);
            && t.windowMs == w && t.slot == times[n - 1] / w && t.lastMs == times[n - 1]
            && t.current == InSlot(times, n, w, t.slot)
            && t.previous == InSlot(times, n, w, t.slot - 1)
  {
    var s := times[n - 1] / w;
    if n == 1 {
      assert After(times, 0, w) == FRESH;
      assert InSlot(times, 0, w, s) == 0 && InSlot(times, 0, w, s - 1) == 0;
    } else {
      TallyIsExact(times, n - 1, w);
      var s0 := times[n - 2] / w;
      SlotMonotone(times[n - 2], times[n - 1], w);
      if s > s0 { NothingAhead(times, n - 1, w, s); }
      if s - 1 > s0 { NothingAhead(times, n - 1, w, s - 1); }
      InSlotBounded(times, n - 1, w, s);
    }
  }

  /** Two slots' requests as the estimate weighs them, `u` into the later. */
  function Weight(p: nat, c: nat, w: nat, u: nat): nat
    requires u <= w
  {
    p * (w - u) + c * w
  }

  /** A request let through has room: everything in its own slot so far, and the
      slot before in proportion, within the limit. */
  lemma LetThroughMeans(times: seq<nat>, i: nat, w: nat, limit: nat)
    requires i < |times| <= U64_MAX && w >= 1 && Nondecreasing(times)
    ensures var s := times[i] / w;
            LetThrough(times, i, w, limit) <==>
            Weight(InSlot(times, i + 1, w, s - 1), InSlot(times, i + 1, w, s), w, times[i] % w) <= limit * w
  {
    TallyIsExact(times, i + 1, w);
    assert After(times, i + 1, w) == Recorded(After(times, i, w), times[i], w);
  }

  lemma {:induction false} PassedAtMostAll(times: seq<nat>, n: nat, w: nat, limit: nat, slot: int)
    requires n <= |times| && w >= 1
    ensures PassedInSlot(times, n, w, limit, slot) <= InSlot(times, n, w, slot)
  {
    if n >= 1 { PassedAtMostAll(times, n - 1, w, limit, slot); }
  }

  /** A request let through finds its own slot within the limit. */
  lemma LetThroughSlotWithinLimit(times: seq<nat>, i: nat, w: nat, limit: nat)
    requires i < |times| <= U64_MAX && w >= 1 && Nondecreasing(times) && LetThrough(times, i, w, limit)
    ensures InSlot(times, i + 1, w, times[i] / w) <= limit
  {
    hide LetThrough, Weight, InSlot;
    LetThroughMeans(times, i, w, limit);
    var s := times[i] / w;
    WeightBoundsSlot(InSlot(times, i + 1, w, s - 1), InSlot(times, i + 1, w, s), w, times[i] % w, limit);
  }

  lemma WeightBoundsSlot(p: nat, c: nat, w: nat, u: nat, limit: nat)
    requires u < w && Weight(p, c, w, u) <= limit * w
    ensures c <= limit
  {
    assert p * (w - u) >= 0;
    MulOrder(limit, c, w);
  }

  /** No fixed window lets more than the limit through. */
  lemma {:induction false} PassedInSlotWithinLimit(times: seq<nat>, n: nat, w: nat, limit: nat, slot: int)
    requires n <= |times| <= U64_MAX && w >= 1 && Nondecreasing(times)
    ensures PassedInSlot(times, n, w, limit, slot) <= limit
  {
    if n >= 1 {
      var i := n - 1;
      if times[i] / w == slot && LetThrough(times, i, w, limit) {
        PassedAtMostAll(times, n, w, limit, slot);
        LetThroughSlotWithinLimit(times, i, w, limit);
      } else {
        PassedInSlotWithinLimit(times, i, w, limit, slot);
      }
    }
  }

  lemma {:induction false} BetweenIsTwoSlots(times: seq<nat>, n: nat, w: nat, limit: nat, from: nat, to: nat, slot: nat)
    requires n <= |times| && w >= 1
    requires forall i :: 0 <= i < n && from <= times[i] <= to ==> slot - 1 <= times[i] / w <= slot
    ensures PassedBetween(times, n, w, limit, from, to)
         <= PassedInSlot(times, n, w, limit, slot) + PassedInSlot(times, n, w, limit, slot - 1)
  {
    if n >= 1 { BetweenIsTwoSlots(times, n - 1, w, limit, from, to, slot); }
  }

  /** The last request of an interval that is let through settles the count:
      the estimate it passed bounds everything let through before it. */
  lemma LastPassBounds(times: seq<nat>, last: nat, w: nat, limit: nat, from: nat, to: nat)
    requires last < |times| <= U64_MAX && w >= 1 && limit >= 1 && Nondecreasing(times)
    requires from <= times[last] <= to <= from + w && LetThrough(times, last, w, limit)
    ensures PassedBetween(times, last + 1, w, limit, from, to) * w <= limit * (w + times[last] % w)
    ensures PassedBetween(times, last + 1, w, limit, from, to) < 2 * limit
  {
    hide LetThrough, Weight, InSlot, PassedInSlot, PassedBetween;
    var n, s, u := last + 1, times[last] / w, times[last] % w;
    forall i | 0 <= i < n && from <= times[i] <= to
      ensures s - 1 <= times[i] / w <= s
    {
      SlotNear(times[i], times[last], w);
    }
    BetweenIsTwoSlots(times, n, w, limit, from, to, s);
    LetThroughMeans(times, last, w, limit);
    var a, p := PassedInSlot(times, n, w, limit, s - 1), InSlot(times, n, w, s - 1);
    var b, c := PassedInSlot(times, n, w, limit, s), InSlot(times, n, w, s);
    PassedAtMostAll(times, n, w, limit, s - 1);
    PassedAtMostAll(times, n, w, limit, s);
    PassedInSlotWithinLimit(times, n, w, limit, s - 1);
    TwoSlotArithmetic(a, b, p, c, limit, w, u, PassedBetween(times, n, w, limit, from, to));
  }

  lemma TwoSlotArithmetic(a: nat, b: nat, p: nat, c: nat, limit: nat, w: nat, u: nat, x: nat)
    requires u < w && a <= p && b <= c && a <= limit && limit >= 1 && x <= a + b
    requires Weight(p, c, w, u) <= limit * w
    ensures x * w <= limit * (w + u) && x < 2 * limit
  {
    MulOrder(a, p, w - u);
    MulOrder(b, c, w);
    MulOrder(a, limit, u);
    MulOrder(x, a + b, w);
    Distribute(a, b, limit, w, u);
    assert x * w <= limit * w + limit * u;
    LessThanTwice(x, limit, w, u);
  }

  lemma Distribute(a: nat, b: nat, limit: nat, w: nat, u: nat)
    requires u < w
    ensures (a + b) * w == a * (w - u) + a * u + b * w
    ensures limit * (w + u) == limit * w + limit * u
  {
  }

  lemma LessThanTwice(x: nat, limit: nat, w: nat, u: nat)
    requires u < w && limit >= 1 && x * w <= limit * w + limit * u
    ensures x < 2 * limit
  {
    MulOrder(u, w, limit);
    assert u * limit == limit * u && w * limit == limit * w;
    assert (2 * limit) * w == 2 * (limit * w);
    MulOrder(2 * limit, x, w);
  }

  /** The last request within an interval that is let through. */
  ghost predicate IsLastPass(times: seq<nat>, n: nat, w: nat, limit: nat, from: nat, to: nat, last: nat)
    requires n <= |times| && w >= 1
  {
    && last < n && from <= times[last] <= to && LetThrough(times, last, w, limit)
    && forall i :: last < i < n && from <= times[i] <= to ==> !LetThrough(times, i, w, limit)
  }

  lemma {:induction false} FindLastPass(times: seq<nat>, n: nat, w: nat, limit: nat, from: nat, to: nat)
    returns (last: nat)
    requires n <= |times| && w >= 1 && PassedBetween(times, n, w, limit, from, to) > 0
    ensures IsLastPass(times, n, w, limit, from, to, last)
    ensures PassedBetween(times, n, w, limit, from, to) == PassedBetween(times, last + 1, w, limit, from, to)
  {
    hide LetThrough;
    last := n - 1;
    if !(from <= times[last] <= to && LetThrough(times, last, w, limit)) {
      last := FindLastPass(times, n - 1, w, limit, from, to);
    }
  }

  /** For every client never forgotten and every interval one window long, fewer
      than twice the limit are let through, however its requests are timed; and
      where the last of them lies `u` into its fixed window, at most
      `limit * (w + u) / w` are. */
  lemma FewerThanTwiceTheLimit(times: seq<nat>, n: nat, w: nat, limit: nat, from: nat, to: nat)
    requires n <= |times| <= U64_MAX && w >= 1 && limit >= 1 && Nondecreasing(times)
    requires from <= to <= from + w
    ensures PassedBetween(times, n, w, limit, from, to) < 2 * limit
    ensures forall last: nat :: IsLastPass(times, n, w, limit, from, to, last) ==>
              PassedBetween(times, n, w, limit, from, to) * w <= limit * (w + times[last] % w)
  {
    hide LetThrough, PassedBetween;
    var x := PassedBetween(times, n, w, limit, from, to);
    if x > 0 {
      var l := FindLastPass(times, n, w, limit, from, to);
      LastPassBounds(times, l, w, limit, from, to);
      forall last: nat | IsLastPass(times, n, w, limit, from, to, last)
        ensures x * w <= limit * (w + times[last] % w)
      {
        assert last == l;
      }
    } else {
      assert x * w == 0;
    }
  }

  // ─── A history in which the window changes ───────────────

  /** A request, and the window its site has when it comes. */
  datatype Asked = Asked(atMs: nat, windowMs: nat)

  ghost predicate Ordered(asked: seq<Asked>) {
    && (forall i, j :: 0 <= i <= j < |asked| ==> asked[i].atMs <= asked[j].atMs)
    && forall i :: 0 <= i < |asked| ==> asked[i].windowMs >= 1
  }

  /** The client's tally once all its requests have been counted. */
  function AfterAll(asked: seq<Asked>): Tally
    requires Ordered(asked)
  {
    if asked == [] then FRESH
    else
      var front, last := asked[..|asked| - 1], asked[|asked| - 1];
      FrontIsOrdered(asked);
      Recorded(AfterAll(front), last.atMs, last.windowMs)
  }

  lemma FrontIsOrdered(asked: seq<Asked>)
    requires Ordered(asked) && asked != []
    ensures Ordered(asked[..|asked| - 1])
  {
  }

  /** Where the newest requests that share one window begin. */
  function Since(asked: seq<Asked>): (k: nat)
    requires asked != []
    ensures k < |asked| && (forall i :: k <= i < |asked| ==> asked[i].windowMs == asked[|asked| - 1].windowMs)
    ensures k > 0 ==> asked[k - 1].windowMs != asked[|asked| - 1].windowMs
  {
    var n := |asked| - 1;
    if n == 0 || asked[n - 1].windowMs != asked[n].windowMs then n else Since(asked[..n])
  }

  /** How many of the requests from `k` on fall in a slot of a window. */
  function Falling(asked: seq<Asked>, k: nat, w: nat, slot: int): nat
    requires k <= |asked| && w >= 1
  {
    if k == |asked| then 0
    else
      Falling(asked[..|asked| - 1], k, w, slot) + if asked[|asked| - 1].atMs / w == slot then 1 else 0
  }

  lemma {:induction false} FallingAhead(asked: seq<Asked>, k: nat, w: nat, slot: int)
    requires k <= |asked| && w >= 1 && Ordered(asked)
    requires asked != [] ==> asked[|asked| - 1].atMs / w < slot
    ensures Falling(asked, k, w, slot) == 0
  {
    if k < |asked| {
      var n := |asked| - 1;
      if n > 0 { SlotMonotone(asked[n - 1].atMs, asked[n].atMs, w); }
      FrontIsOrdered(asked);
      FallingAhead(asked[..n], k, w, slot);
    }
  }

  lemma {:induction false} FallingAtMost(asked: seq<Asked>, k: nat, w: nat, slot: int)
    requires k <= |asked| && w >= 1
    ensures Falling(asked, k, w, slot) <= |asked|
  {
    if k < |asked| { FallingAtMost(asked[..|asked| - 1], k, w, slot); }
  }

  /** After any history, the tally holds exactly the requests made since the window
      last changed that fall in the newest one's slot, and those in the slot
      before: what was counted in another window counts for nothing. */
  lemma {:induction false} TallyStartsAgain(asked: seq<Asked>)
    requires Ordered(asked) && 1 <= |asked| <= U64_MAX
    ensures var t, k, last := AfterAll(asked), Since(asked), asked[|asked| - 1];
            var slot := last.atMs / last.windowMs;
            && t.windowMs == last.windowMs && t.slot == slot && t.lastMs == last.atMs
            && t.current == Falling(asked, k, last.windowMs, slot)
            && t.previous == Falling(asked, k, last.windowMs, slot - 1)
  {
    hide Ordered;
    var n := |asked| - 1;
    var w := asked[n].windowMs;
    assert w >= 1 && (n > 0 ==> asked[n - 1].atMs <= asked[n].atMs) by { OrderedMeans(asked, n); }
    var slot := asked[n].atMs / w;
    FrontIsOrdered(asked);
    var front := asked[..n];
    if Since(asked) == n {
      assert Falling(asked[..n], n, w, slot) == 0 && Falling(asked[..n], n, w, slot - 1) == 0;
      FirstInWindow(asked);
    } else {
      TallyStartsAgain(front);
      var k := Since(asked);
      assert front[n - 1] == asked[n - 1] && Since(front) == k;
      var s0 := front[n - 1].atMs / w;
      SlotMonotone(front[n - 1].atMs, asked[n].atMs, w);
      if slot > s0 { FallingAhead(front, k, w, slot); }
      if slot - 1 > s0 { FallingAhead(front, k, w, slot - 1); }
      FallingAtMost(front, k, w, slot);
    }
  }

  lemma OrderedMeans(asked: seq<Asked>, n: nat)
    requires Ordered(asked) && n < |asked|
    ensures asked[n].windowMs >= 1 && (n > 0 ==> asked[n - 1].atMs <= asked[n].atMs)
  {
  }

  /** The tally of a window's first request holds that one. */
  lemma FirstInWindow(asked: seq<Asked>)
    requires Ordered(asked) && 1 <= |asked| && Since(asked) == |asked| - 1
    ensures var t, last := AfterAll(asked), asked[|asked| - 1];
            && last.windowMs >= 1 && t.windowMs == last.windowMs && t.slot == last.atMs / last.windowMs
            && t.current == 1 && t.previous == 0 && t.lastMs == last.atMs
  {
    var n := |asked| - 1;
    FrontIsOrdered(asked);
    WindowIsLast(asked[..n]);
  }

  lemma {:induction false} WindowIsLast(asked: seq<Asked>)
    requires Ordered(asked)
    ensures AfterAll(asked).windowMs == if asked == [] then 0 else asked[|asked| - 1].windowMs
  {
    if asked != [] {
      FrontIsOrdered(asked);
      WindowIsLast(asked[..|asked| - 1]);
    }
  }

  /** What a count says: the requests of the window now running and those of the one
      before in proportion, rounded up; and a request is over a limit exactly when
      that exceeds it. */
  lemma CountIsEstimate(asked: seq<Asked>, limit: nat)
    requires Ordered(asked) && 1 <= |asked| <= U64_MAX
    ensures var k, last := Since(asked), asked[|asked| - 1];
            var w, slot := last.windowMs, last.atMs / last.windowMs;
            var c := Counted(AfterAll(asked[..|asked| - 1]), last.atMs, w);
            var estimate := Weight(Falling(asked, k, w, slot - 1), Falling(asked, k, w, slot), w, last.atMs % w);
            && c.scaled == estimate && c.tally == AfterAll(asked) && c.atMs == last.atMs
            && (c.requests - 1) * w < estimate <= c.requests * w
            && (Over(c, limit) <==> c.requests > limit)
  {
    FrontIsOrdered(asked);
    TallyStartsAgain(asked);
    var last := asked[|asked| - 1];
    var w := last.windowMs;
    var t := AfterAll(asked);
    var before := AfterAll(asked[..|asked| - 1]);
    assert t == Recorded(before, last.atMs, w);
    OrderedMeans(asked, |asked| - 1);
    hide Since, Falling, Recorded, Ordered, AfterAll;
    CountedIs(before, t, last.atMs, w, limit);
  }

  lemma CountedIs(before: Tally, t: Tally, now: nat, w: nat, limit: nat)
    requires w >= 1 && t == Recorded(before, now, w) && t.windowMs == w
    ensures var c := Counted(before, now, w);
            && c.scaled == Weight(t.previous, t.current, w, now % w) && c.tally == t && c.atMs == now
            && (c.requests - 1) * w < c.scaled <= c.requests * w
            && (Over(c, limit) <==> c.requests > limit)
  {
    hide Recorded, CeilDiv;
    RoundedUp(Scaled(t, now), limit, w);
    hide Weight;
  }

  lemma RoundedUp(scaled: nat, limit: nat, w: nat)
    requires w >= 1
    ensures (CeilDiv(scaled, w) - 1) * w < scaled <= CeilDiv(scaled, w) * w
    ensures scaled > limit * w <==> CeilDiv(scaled, w) > limit
  {
    hide CeilDiv;
    CeilDivIs(scaled, w);
    MulOrder(CeilDiv(scaled, w), limit, w);
    MulOrder(limit, CeilDiv(scaled, w) - 1, w);
  }

  // ─── Exactly how many ────────────────────────────────────

  /** The most that get through an interval one window long. */
  function Most(limit: nat, w: nat): int
    requires w >= 1
  {
    2 * limit - CeilDiv(limit, w)
  }

  /** No interval one window long lets more through. */
  lemma NoMoreThanMost(times: seq<nat>, n: nat, w: nat, limit: nat, from: nat, to: nat)
    requires n <= |times| <= U64_MAX && w >= 1 && limit >= 1 && Nondecreasing(times)
    requires from <= to <= from + w
    ensures PassedBetween(times, n, w, limit, from, to) <= Most(limit, w)
  {
    hide LetThrough, PassedBetween, CeilDiv;
    var x := PassedBetween(times, n, w, limit, from, to);
    CeilDivIs(limit, w);
    if x > 0 {
      var last := FindLastPass(times, n, w, limit, from, to);
      LastPassBounds(times, last, w, limit, from, to);
      AtMostMost(x, limit, w, times[last] % w, CeilDiv(limit, w));
    }
  }

  lemma AtMostMost(x: nat, limit: nat, w: nat, u: nat, c: nat)
    requires u < w && c >= 1 && x * w <= limit * (w + u) && (c - 1) * w < limit
    ensures x <= 2 * limit - c
  {
    MulOrder(u + 1, w, limit);
    assert (u + 1) * limit == limit * u + limit && w * limit == limit * w;
    assert limit * (w + u) == limit * w + limit * u;
    assert (2 * limit - c + 1) * w == 2 * (limit * w) - (c - 1) * w;
    MulOrder(2 * limit - c + 1, x, w);
  }

  /** As many as the limit at the end of one fixed window, and as many more as are let
      through at the end of the next. */
  function Burst(limit: nat, w: nat): (times: seq<nat>)
    requires limit >= 1 && w >= 1
    ensures |times| == Most(limit, w) && Nondecreasing(times)
  {
    CeilDivIs(limit, w);
    seq(Most(limit, w), i => if i < limit then w - 1 else 2 * w - 1)
  }

  lemma BurstSlots(limit: nat, w: nat, i: nat)
    requires limit >= 1 && w >= 1 && i < Most(limit, w)
    ensures var t := Burst(limit, w)[i];
            t / w == (if i < limit then 0 else 1) && t % w == w - 1 && w - 1 <= t <= 2 * w - 1
  {
    SlotUnique(w - 1, w, 0, w - 1);
    SlotUnique(2 * w - 1, w, 1, w - 1);
  }

  lemma {:induction false} BurstInSlot(limit: nat, w: nat, n: nat)
    requires limit >= 1 && w >= 1 && n <= Most(limit, w)
    ensures InSlot(Burst(limit, w), n, w, -1) == 0
    ensures InSlot(Burst(limit, w), n, w, 0) == Min(n, limit)
    ensures InSlot(Burst(limit, w), n, w, 1) == SaturatingSub(n, limit)
  {
    hide Burst, Most;
    if n >= 1 {
      BurstInSlot(limit, w, n - 1);
      BurstSlots(limit, w, n - 1);
    }
  }

  lemma BurstHasRoom(limit: nat, w: nat, i: nat, c: nat)
    requires limit >= 1 && w >= 1 && i < 2 * limit - c && c * w >= limit
    ensures i < limit ==> Weight(0, i + 1, w, w - 1) <= limit * w
    ensures i >= limit ==> Weight(limit, i + 1 - limit, w, w - 1) <= limit * w
  {
    if i < limit {
      MulOrder(i + 1, limit, w);
    } else {
      assert limit * (w - (w - 1)) == limit;
      MulOrder(i + 1 - limit, limit - c, w);
      assert (limit - c) * w == limit * w - c * w;
    }
  }

  lemma BurstIsLetThrough(limit: nat, w: nat, i: nat)
    requires limit >= 1 && w >= 1 && i < Most(limit, w) <= U64_MAX
    ensures LetThrough(Burst(limit, w), i, w, limit)
  {
    CeilDivIs(limit, w);
    BurstHasRoom(limit, w, i, CeilDiv(limit, w));
    hide LetThrough, InSlot, Burst, CeilDiv, Weight;
    var times := Burst(limit, w);
    LetThroughMeans(times, i, w, limit);
    BurstInSlot(limit, w, i + 1);
    BurstSlots(limit, w, i);
  }

  lemma {:induction false} BurstPasses(limit: nat, w: nat, n: nat)
    requires limit >= 1 && w >= 1 && n <= Most(limit, w) <= U64_MAX
    ensures PassedBetween(Burst(limit, w), n, w, limit, w - 1, 2 * w - 1) == n
  {
    hide LetThrough, Burst, Most;
    if n >= 1 {
      BurstPasses(limit, w, n - 1);
      BurstSlots(limit, w, n - 1);
      BurstIsLetThrough(limit, w, n - 1);
    }
  }

  /** For every limit and window that many do get through: the bound cannot be
      lowered. */
  lemma BoundIsReached(limit: nat, w: nat)
    requires limit >= 1 && w >= 1 && Most(limit, w) <= U64_MAX
    ensures var times := Burst(limit, w);
            PassedBetween(times, |times|, w, limit, w - 1, 2 * w - 1) == Most(limit, w)
  {
    CeilDivIs(limit, w);
    BurstPasses(limit, w, Most(limit, w));
  }
}
