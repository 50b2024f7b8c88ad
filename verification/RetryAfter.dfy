/** The least wait after which one more request is within the limit
    (src/rate_limit.rs, `wait_ms` and `Count::retry_after`). */
module RetryAfter {
  import opened Options
  import opened RateLimit

  /** Whether one more request at `at` would be within the limit, the tally
      receiving nothing meanwhile. */
  predicate Fits(t: Tally, at: nat, limit: nat)
    requires t.windowMs >= 1
  {
    !Over(Counted(t, at, t.windowMs), limit)
  }

  /** `count` requests sliding out at offset `r` of a window of `w`, and `rest`
      in full, within `room`. */
  predicate Slides(count: nat, rest: nat, room: nat, w: nat, r: nat)
    requires r <= w
  {
    count * (w - r) + rest * w <= room * w
  }

  /** The offset the division gives, before the source's correction loop. */
  function DividedOffset(count: nat, rest: nat, room: nat, w: nat): nat
    requires rest <= room && count >= 1
  {
    SaturatingSub(w, Quotient((room - rest) * w, count))
  }

  function Quotient(a: nat, b: nat): nat
    requires b >= 1
  {
    a / b
  }

  function FirstFit(count: nat, rest: nat, room: nat, w: nat): Option<nat> {
    if rest > room then None
    else if count == 0 then Some(0)
    else
      var r := DividedOffset(count, rest, room, w);
      if r < w then Some(r) else None
  }

  function WaitMs(t: Tally, now: nat, limit: nat): nat
    requires t.windowMs >= 1
  {
    var w := t.windowMs;
    var into := now % w;
    var room := SaturatingSub(limit, 1);
    match FirstFit(t.previous, t.current, room, w)
    case Some(r) => SaturatingSub(r, into)
    case None =>
      match FirstFit(t.current, 0, room, w)
      case Some(r) => w - into + r
      case None => w - into + w
  }

  function RetrySeconds(c: Count, limit: nat): (seconds: nat)
    requires c.tally.windowMs >= 1
    ensures seconds >= 1
  {
    var s := CeilDiv(WaitMs(c.tally, c.atMs, limit), 1000);
    if s >= 1 then s else 1
  }

  // ─── The source's loop ───────────────────────────────────

  lemma QuotientFits(allowed: nat, count: nat, k: nat)
    requires count >= 1
    ensures k <= allowed / count <==> count * k <= allowed
  {
    var q := allowed / count;
    assert allowed == q * count + allowed % count;
    MulOrder(k, q, count);
    MulOrder(q, k, count);
    assert k * count == count * k;
  }

  lemma SlidesIsAllowed(count: nat, rest: nat, room: nat, w: nat, r: nat)
    requires r <= w && rest <= room
    ensures Slides(count, rest, room, w, r) <==> count * (w - r) <= (room - rest) * w
  {
    assert (room - rest) * w == room * w - rest * w;
  }

  /** The division alone finds the least offset, so the loop that steps on
      "until it truly fits" never takes a step. */
  lemma CorrectionNeverRuns(count: nat, rest: nat, room: nat, w: nat)
    requires rest <= room && count >= 1
    ensures var r := DividedOffset(count, rest, room, w);
            && r <= w
            && count * (w - r) <= (room - rest) * w && Slides(count, rest, room, w, r)
            && forall q: nat :: q < r ==> !Slides(count, rest, room, w, q)
  {
    var allowed := (room - rest) * w;
    var r := DividedOffset(count, rest, room, w);
    QuotientFits(allowed, count, w - r);
    SlidesIsAllowed(count, rest, room, w, r);
    forall q: nat | q < r
      ensures !Slides(count, rest, room, w, q)
    {
      QuotientFits(allowed, count, w - q);
      SlidesIsAllowed(count, rest, room, w, q);
    }
  }

  /** Nothing short of `r` has room. */
  ghost predicate NoneBefore(count: nat, rest: nat, room: nat, w: nat, r: nat)
    requires r <= w
  {
    forall q: nat :: q < r ==> !Slides(count, rest, room, w, q)
  }

  lemma DividedIsLeast(count: nat, rest: nat, room: nat, w: nat, r: nat)
    requires rest <= room && count >= 1 && r <= w
    requires NoneBefore(count, rest, room, w, r) && r >= DividedOffset(count, rest, room, w)
    ensures r == DividedOffset(count, rest, room, w)
  {
    CorrectionNeverRuns(count, rest, room, w);
  }

  lemma StartsAtLeast(count: nat, rest: nat, room: nat, w: nat)
    requires rest <= room && count >= 1
    ensures DividedOffset(count, rest, room, w) <= w
    ensures NoneBefore(count, rest, room, w, DividedOffset(count, rest, room, w))
  {
    CorrectionNeverRuns(count, rest, room, w);
  }

  lemma StepsOn(count: nat, rest: nat, room: nat, w: nat, r: nat)
    requires rest <= room && r < w && NoneBefore(count, rest, room, w, r)
    requires count * (w - r) > (room - rest) * w
    ensures NoneBefore(count, rest, room, w, r + 1)
  {
    SlidesIsAllowed(count, rest, room, w, r);
  }

  method ComputeFirstFit(count: nat, rest: nat, room: nat, w: nat) returns (fit: Option<nat>)
    ensures fit == FirstFit(count, rest, room, w)
  {
    hide NoneBefore, Slides;
    if rest > room {
      return None;
    }
    if count == 0 {
      return Some(0);
    }
    var allowed: nat := (room - rest) * w;
    var r := SaturatingSub(w, Quotient(allowed, count));
    StartsAtLeast(count, rest, room, w);
    ghost var start := r;
    while r < w && count * (w - r) > allowed
      invariant start <= r <= w && NoneBefore(count, rest, room, w, r)
    {
      StepsOn(count, rest, room, w, r);
      r := r + 1;
    }
    DividedIsLeast(count, rest, room, w, r);
    fit := if r < w then Some(r) else None;
  }

  method ComputeWaitMs(t: Tally, now: nat, limit: nat) returns (ms: nat)
    requires t.windowMs >= 1
    ensures ms == WaitMs(t, now, limit)
  {
    var w := t.windowMs;
    var into := now % w;
    var room := SaturatingSub(limit, 1);
    var here := ComputeFirstFit(t.previous, t.current, room, w);
    if here.Some? {
      return SaturatingSub(here.value, into);
    }
    var toNext := w - into;
    var next := ComputeFirstFit(t.current, 0, room, w);
    ms := if next.Some? then toNext + next.value else toNext + w;
  }

  // ─── The wait is the exact minimum ───────────────────────

  lemma SlidesLater(count: nat, rest: nat, room: nat, w: nat, q: nat, r: nat)
    requires q <= r <= w && Slides(count, rest, room, w, q)
    ensures Slides(count, rest, room, w, r)
  {
    MulOrder(w - r, w - q, count);
    assert (w - r) * count == count * (w - r) && (w - q) * count == count * (w - q);
  }

  lemma NeverSlides(count: nat, rest: nat, room: nat, w: nat, r: nat)
    requires r < w && rest > room
    ensures !Slides(count, rest, room, w, r)
  {
    MulOrder(room, rest, w);
    assert count * (w - r) >= 0;
  }

  /** `FirstFit` is the least offset within a window at which there is room. */
  lemma FirstFitIsLeast(count: nat, rest: nat, room: nat, w: nat, r: nat)
    requires r < w
    ensures Slides(count, rest, room, w, r) <==>
            FirstFit(count, rest, room, w).Some? && FirstFit(count, rest, room, w).value <= r
  {
    if rest > room {
      NeverSlides(count, rest, room, w, r);
    } else {
      SlidesIsAllowed(count, rest, room, w, r);
      if count == 0 {
        assert count * (w - r) == 0 && (room - rest) * w >= 0;
      } else {
        CorrectionNeverRuns(count, rest, room, w);
        var least := DividedOffset(count, rest, room, w);
        if r >= least {
          SlidesLater(count, rest, room, w, least, r);
        }
      }
    }
  }

  /** What `Fits` asks, by how many windows ahead the request falls. */
  lemma FitsBySlot(t: Tally, at: nat, limit: nat)
    requires t.windowMs >= 1 && limit >= 1 && t.current < U64_MAX
    ensures at / t.windowMs == t.slot ==>
              (Fits(t, at, limit) <==> Slides(t.previous, t.current, limit - 1, t.windowMs, at % t.windowMs))
    ensures at / t.windowMs == t.slot + 1 ==>
              (Fits(t, at, limit) <==> Slides(t.current, 0, limit - 1, t.windowMs, at % t.windowMs))
    ensures at / t.windowMs >= t.slot + 2 ==> Fits(t, at, limit)
  {
    var w, s, u := t.windowMs, at / t.windowMs, at % t.windowMs;
    var r := Recorded(t, at, w);
    assert limit * w == (limit - 1) * w + w;
    assert (t.current + 1) * w == t.current * w + w;
    assert 1 * w == w && 0 * (w - u) == 0 && 0 * w == 0;
    if s >= t.slot + 2 {
      assert r.previous == 0 && r.current == 1;
      assert (limit - 1) * w >= 0;
    }
  }

  lemma FewSlideAnywhere(count: nat, room: nat, w: nat, r: nat)
    requires r <= w && count <= room
    ensures Slides(count, 0, room, w, r)
  {
    MulOrder(count, room, w);
    assert Slides(count, 0, room, w, 0);
    SlidesLater(count, 0, room, w, 0, r);
  }

  lemma WaitWithinThisWindow(t: Tally, now: nat, limit: nat, d: nat)
    requires t.windowMs >= 1 && t.slot == now / t.windowMs && limit >= 1 && t.current < U64_MAX
    requires now % t.windowMs + d < t.windowMs
    ensures Fits(t, now + d, limit) <==> d >= WaitMs(t, now, limit)
  {
    hide Fits, Slides, FirstFit;
    var w, into := t.windowMs, now % t.windowMs;
    assert now == t.slot * w + into;
    SlotUnique(now + d, w, t.slot, into + d);
    FitsBySlot(t, now + d, limit);
    FirstFitIsLeast(t.previous, t.current, limit - 1, w, into + d);
  }

  lemma WaitIntoNextWindow(t: Tally, now: nat, limit: nat, d: nat)
    requires t.windowMs >= 1 && t.slot == now / t.windowMs && limit >= 1 && t.current < U64_MAX
    requires t.windowMs <= now % t.windowMs + d < 2 * t.windowMs
    ensures Fits(t, now + d, limit) <==> d >= WaitMs(t, now, limit)
  {
    hide Fits, Slides;
    var w, into := t.windowMs, now % t.windowMs;
    assert now + d == (t.slot + 1) * w + (into + d - w) by { assert now == t.slot * w + into; }
    SlotUnique(now + d, w, t.slot + 1, into + d - w);
    FitsBySlot(t, now + d, limit);
    FirstFitIsLeast(t.current, 0, limit - 1, w, into + d - w);
    if FirstFit(t.previous, t.current, limit - 1, w).Some? {
      FewSlideAnywhere(t.current, limit - 1, w, into + d - w);
    }
  }

  lemma WaitBeyond(t: Tally, now: nat, limit: nat, d: nat)
    requires t.windowMs >= 1 && t.slot == now / t.windowMs && limit >= 1 && t.current < U64_MAX
    requires now % t.windowMs + d >= 2 * t.windowMs
    ensures Fits(t, now + d, limit) && d >= WaitMs(t, now, limit)
  {
    hide Fits;
    var w := t.windowMs;
    assert now == t.slot * w + now % w;
    assert t.slot * w + 2 * w == (t.slot + 2) * w;
    SlotUnique((t.slot + 2) * w, w, t.slot + 2, 0);
    SlotMonotone((t.slot + 2) * w, now + d, w);
    FitsBySlot(t, now + d, limit);
  }

  /** The wait is the exact minimum, and enough for ever: one more request is
      within the limit after that wait and any longer, and after none shorter. */
  lemma WaitIsExact(t: Tally, now: nat, limit: nat, d: nat)
    requires t.windowMs >= 1 && t.slot == now / t.windowMs && limit >= 1 && t.current < U64_MAX
    ensures Fits(t, now + d, limit) <==> d >= WaitMs(t, now, limit)
  {
    hide Fits, WaitMs;
    var into := now % t.windowMs;
    if into + d < t.windowMs {
      WaitWithinThisWindow(t, now, limit, d);
    } else if into + d < 2 * t.windowMs {
      WaitIntoNextWindow(t, now, limit, d);
    } else {
      WaitBeyond(t, now, limit, d);
    }
  }

  /** For every count the limiter hands out, the header's whole seconds are the
      least that suffice. */
  lemma RetryAfterIsExact(t: Tally, now: nat, w: nat, limit: nat, seconds: nat)
    requires w >= 1 && t.current < U64_MAX - 1 && (t.windowMs == w ==> t.slot <= now / w)
    requires limit >= 1 && seconds >= 1
    ensures var c := Counted(t, now, w);
            Fits(c.tally, now + 1000 * seconds, limit) <==> seconds >= RetrySeconds(c, limit)
  {
    WaitIsExact(Counted(t, now, w).tally, now, limit, 1000 * seconds);
  }
}
