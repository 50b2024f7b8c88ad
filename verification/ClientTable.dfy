/** Every client's tally in one shard of a bounded table, and what forgetting a
    client costs it (src/rate_limit.rs, `count_at` and `make_room`). */
module ClientTable {
  import opened RateLimit
  import opened Sets
  import opened Sorting

  const MAX_PER_SHARD: nat := 8192

  datatype Key = Key(site: int, unit: nat)
  datatype Request = Request(key: Key, atMs: nat, windowMs: nat)

  type Table = map<Key, Tally>

  /** A client and when it was last seen, to be sorted by the time. */
  datatype Seen = Seen(lastMs: nat, key: Key)

  predicate SeenIn(e: Seen, m: Table) {
    e.key in m && e.lastMs == m[e.key].lastMs
  }

  /** Every entry of a table listed once. */
  ghost predicate Lists(s: seq<Seen>, m: Table) {
    Distinct(s) && forall e :: e in s <==> SeenIn(e, m)
  }

  function TallyOf(m: Table, key: Key): Tally {
    if key in m then m[key] else FRESH
  }

  /** The window in milliseconds, never nought. */
  function Window(r: Request): (w: nat)
    ensures w >= 1
  {
    if r.windowMs >= 1 then r.windowMs else 1
  }

  function CountOf(m: Table, r: Request): Count {
    Counted(TallyOf(m, r.key), r.atMs, Window(r))
  }

  predicate Idle(t: Tally, now: nat) {
    SaturatingSub(now, t.lastMs) >= 2 * t.windowMs
  }

  function Active(m: Table, now: nat): Table {
    map k | k in m && !Idle(m[k], now) :: m[k]
  }

  function NewerThan(m: Table, cutoff: nat): Table {
    map k | k in m && m[k].lastMs > cutoff :: m[k]
  }

  /** A time such that at most half were seen before it and more than half not
      after it: the middle one of the times, sorted. */
  ghost predicate IsCutoff(m: Table, cutoff: nat) {
    && |set k | k in m && m[k].lastMs < cutoff| <= |m| / 2
    && |set k | k in m && m[k].lastMs <= cutoff| > |m| / 2
  }

  /** What a full shard may become: those still counting, or when that frees
      nothing those seen after the middle. */
  ghost predicate RoomMade(m: Table, now: nat, room: Table) {
    var kept := Active(m, now);
    if |kept| < MAX_PER_SHARD then room == kept
    else exists cutoff: nat :: IsCutoff(kept, cutoff) && room == NewerThan(kept, cutoff)
  }

  ghost predicate RoomFor(m: Table, r: Request, room: Table) {
    if r.key !in m && |m| >= MAX_PER_SHARD then RoomMade(m, r.atMs, room) else room == m
  }

  /** One request counted in a bounded table. */
  ghost predicate CountedIn(m: Table, r: Request, m': Table) {
    exists room :: RoomFor(m, r, room)
      && m' == room[r.key := Recorded(TallyOf(room, r.key), r.atMs, Window(r))]
  }

  lemma SeenLe()
    ensures TotalPreorder((a: Seen, b: Seen) => a.lastMs <= b.lastMs)
  {
  }

  class Shard {
    var tallies: Table

    constructor ()
      ensures tallies == map[]
    {
      tallies := map[];
    }

    method CountAt(r: Request) returns (c: Count)
      requires |tallies| <= MAX_PER_SHARD
      modifies this
      ensures CountedIn(old(tallies), r, tallies)
      ensures c == CountOf(old(tallies), r)
      ensures |tallies| <= MAX_PER_SHARD
    {
      if r.key !in tallies && |tallies| >= MAX_PER_SHARD {
        MakeRoom(r.atMs);
      }
      ghost var room := tallies;
      var live := new LiveTally(TallyOf(tallies, r.key));
      c := live.Record(r.atMs, Window(r));
      tallies := tallies[r.key := live.Value()];
      assert RoomFor(old(tallies), r, room);
    }

    method MakeRoom(nowMs: nat)
      requires |tallies| <= MAX_PER_SHARD
      modifies this
      ensures RoomMade(old(tallies), nowMs, tallies)
      ensures |tallies| < MAX_PER_SHARD && tallies.Keys <= old(tallies.Keys)
    {
      tallies := Active(tallies, nowMs);
      assert tallies.Keys <= old(tallies.Keys);
      SubsetSize(tallies.Keys, old(tallies.Keys));
      if |tallies| < MAX_PER_SHARD {
        return;
      }
      var seen := [];
      var left := tallies.Keys;
      while left != {}
        invariant left <= tallies.Keys
        invariant Distinct(seen)
        invariant forall e :: e in seen <==> SeenIn(e, tallies) && e.key !in left
        decreases left
      {
        var k :| k in left;
        left := left - {k};
        seen := seen + [Seen(tallies[k].lastMs, k)];
      }
      SeenLe();
      seen := SortSeen(seen, tallies);
      MiddleIsCutoff(tallies, seen);
      var cutoff := seen[|seen| / 2].lastMs;
      CutoffFrees(tallies, cutoff);
      tallies := NewerThan(tallies, cutoff);
    }

    static method SortSeen(seen: seq<Seen>, ghost m: Table) returns (sorted: seq<Seen>)
      requires Lists(seen, m)
      ensures Lists(sorted, m)
      ensures forall i, j :: 0 <= i < j < |sorted| ==> sorted[i].lastMs <= sorted[j].lastMs
      ensures |sorted| == |m|
    {
      SeenLe();
      var le := (a: Seen, b: Seen) => a.lastMs <= b.lastMs;
      sorted := Sort(seen, le);
      DistinctByCount(seen, sorted);
      forall e
        ensures e in sorted <==> e in seen
      {
        SortKeeps(seen, le, e);
      }
      DistinctSize(sorted);
      var entries := set e | e in sorted;
      EntriesSize(m, entries);
    }
  }

  lemma {:induction false} EntriesSize(m: Table, entries: set<Seen>)
    requires forall e :: e in entries <==> SeenIn(e, m)
    ensures |entries| == |m|
    decreases |m|
  {
    if m.Keys == {} {
      assert entries == {};
    } else {
      var k :| k in m.Keys;
      var e := Seen(m[k].lastMs, k);
      EntriesSize(m - {k}, entries - {e});
      assert (m - {k}).Keys == m.Keys - {k};
    }
  }

  /** The middle of the sorted times is the cutoff. */
  lemma MiddleIsCutoff(m: Table, sorted: seq<Seen>)
    requires Lists(sorted, m) && |sorted| == |m| >= 1
    requires forall i, j :: 0 <= i < j < |sorted| ==> sorted[i].lastMs <= sorted[j].lastMs
    ensures IsCutoff(m, sorted[|sorted| / 2].lastMs)
  {
    hide Lists;
    FewBefore(m, sorted, |sorted| / 2);
    ManyUpTo(m, sorted, |sorted| / 2);
  }

  lemma FewBefore(m: Table, sorted: seq<Seen>, h: nat)
    requires Lists(sorted, m) && h < |sorted|
    requires forall i, j :: 0 <= i < j < |sorted| ==> sorted[i].lastMs <= sorted[j].lastMs
    ensures |set k | k in m && m[k].lastMs < sorted[h].lastMs| <= h
  {
    DistinctKeys(m, sorted);
    var first := KeysOf(sorted)[..h];
    DistinctSize(first);
    var before := set k | k in m && m[k].lastMs < sorted[h].lastMs;
    forall k | k in before
      ensures k in first
    {
      assert SeenIn(Seen(m[k].lastMs, k), m);
      assert Seen(m[k].lastMs, k) in sorted;
      var i :| 0 <= i < |sorted| && sorted[i] == Seen(m[k].lastMs, k);
      assert i < h;
      assert first[i] == k;
    }
    SubsetSize(before, (set k | k in first));
  }

  lemma ManyUpTo(m: Table, sorted: seq<Seen>, h: nat)
    requires Lists(sorted, m) && h < |sorted|
    requires forall i, j :: 0 <= i < j < |sorted| ==> sorted[i].lastMs <= sorted[j].lastMs
    ensures |set k | k in m && m[k].lastMs <= sorted[h].lastMs| > h
  {
    DistinctKeys(m, sorted);
    var more := KeysOf(sorted)[..h + 1];
    DistinctSize(more);
    var upTo := set k | k in m && m[k].lastMs <= sorted[h].lastMs;
    forall k | k in more
      ensures k in upTo
    {
      var i :| 0 <= i < h + 1 && more[i] == k;
      assert sorted[i] in sorted;
    }
    SubsetSize((set k | k in more), upTo);
  }

  function KeysOf(s: seq<Seen>): (keys: seq<Key>)
    ensures |keys| == |s| && forall i :: 0 <= i < |s| ==> keys[i] == s[i].key
  {
    seq(|s|, i requires 0 <= i < |s| => s[i].key)
  }

  lemma DistinctKeys(m: Table, sorted: seq<Seen>)
    requires Lists(sorted, m)
    ensures Distinct(KeysOf(sorted))
  {
    forall i, j | 0 <= i < j < |sorted|
      ensures sorted[i].key != sorted[j].key
    {
      assert sorted[i] in sorted && sorted[j] in sorted;
    }
  }

  /** The second pass lets more than half go. */
  lemma CutoffFrees(m: Table, cutoff: nat)
    requires IsCutoff(m, cutoff)
    ensures |NewerThan(m, cutoff)| < |m| - |m| / 2
  {
    var upTo := set k | k in m && m[k].lastMs <= cutoff;
    assert NewerThan(m, cutoff).Keys == m.Keys - upTo;
    assert |m.Keys - upTo| == |m.Keys| - |upTo|;
  }

  // ─── What forgetting a client costs it ───────────────────

  /** A tally as counting leaves it while the clock does not run back. */
  predicate WellFormed(t: Tally, now: nat) {
    t.windowMs >= 1 && t.slot == t.lastMs / t.windowMs && t.lastMs <= now
  }

  lemma CountingKeepsWellFormed(t: Tally, now: nat, w: nat)
    requires w >= 1 && (t == FRESH || WellFormed(t, now))
    ensures WellFormed(Recorded(t, now, w), now)
  {
    if t != FRESH && t.windowMs == w {
      SlotMonotone(t.lastMs, now, w);
    }
  }

  /** A client whose requests no longer count is counted next, whenever that is
      and in whatever window, just as it would be had it been forgotten. */
  lemma IdleIsForgotten(t: Tally, now: nat, at: nat, w: nat)
    requires WellFormed(t, now) && Idle(t, now) && now <= at && w >= 1
    ensures Recorded(t, at, w) == Recorded(FRESH, at, w)
    ensures Counted(t, at, w) == Counted(FRESH, at, w)
  {
    if t.windowMs == w {
      SlotFar(t.lastMs, at, w);
    }
  }

  /** One tally counts no more than another, now and hereafter. */
  predicate NoMore(a: Tally, b: Tally) {
    || a == FRESH
    || (a.windowMs == b.windowMs && a.slot == b.slot && a.lastMs == b.lastMs
        && a.current <= b.current && a.previous <= b.previous)
  }

  lemma NoMoreIsKept(a: Tally, b: Tally, at: nat, w: nat)
    requires NoMore(a, b) && w >= 1 && (b == FRESH || WellFormed(b, at))
    ensures NoMore(Recorded(a, at, w), Recorded(b, at, w))
    ensures Counted(a, at, w).scaled <= Counted(b, at, w).scaled
  {
    if b != FRESH && b.windowMs == w {
      SlotMonotone(b.lastMs, at, w);
    }
    var x, y := Recorded(a, at, w), Recorded(b, at, w);
    MulOrder(x.previous, y.previous, w - at % w);
    MulOrder(x.current, y.current, w);
  }

  // ─── Whole runs ──────────────────────────────────────────

  ghost predicate InOrder(history: seq<Request>) {
    forall i, j :: 0 <= i <= j < |history| ==> history[i].atMs <= history[j].atMs
  }

  /** The table that never forgets, after the first `n` requests. */
  function Unbounded(history: seq<Request>, n: nat): Table
    requires n <= |history|
  {
    if n == 0 then map[]
    else
      var m, r := Unbounded(history, n - 1), history[n - 1];
      m[r.key := Recorded(TallyOf(m, r.key), r.atMs, Window(r))]
  }

  /** The bounded table before each request of a history and after the last. */
  ghost predicate BoundedRun(history: seq<Request>, tables: seq<Table>) {
    && |tables| == |history| + 1 && tables[0] == map[]
    && forall i :: 0 <= i < |history| ==> CountedIn(tables[i], history[i], tables[i + 1])
  }

  ghost predicate Sound(m: Table, now: nat) {
    forall k :: k in m ==> WellFormed(m[k], now)
  }

  /** Every tally kept is as the unbounded table's, or fresher. */
  ghost predicate NoStricter(m: Table, all: Table) {
    m.Keys <= all.Keys && forall k :: k in all ==> NoMore(TallyOf(m, k), all[k])
  }

  lemma SoundLater(m: Table, now: nat, later: nat)
    requires Sound(m, now) && now <= later
    ensures Sound(m, later)
  {
  }

  /** The time of the last of the first `n` requests. */
  function Clock(history: seq<Request>, n: nat): nat
    requires n <= |history|
  {
    if n == 0 then 0 else history[n - 1].atMs
  }

  lemma {:induction false} UnboundedIsSound(history: seq<Request>, n: nat)
    requires InOrder(history) && n <= |history|
    ensures Sound(Unbounded(history, n), Clock(history, n))
  {
    if n >= 1 {
      UnboundedIsSound(history, n - 1);
      var m, r := Unbounded(history, n - 1), history[n - 1];
      assert n >= 2 ==> history[n - 2].atMs <= r.atMs;
      SoundLater(m, Clock(history, n - 1), r.atMs);
      CountingKeepsWellFormed(TallyOf(m, r.key), r.atMs, Window(r));
    }
  }

  /** Part of a table, what is kept unchanged. */
  ghost predicate SubTable(part: Table, m: Table) {
    part.Keys <= m.Keys && forall k :: k in part ==> part[k] == m[k]
  }

  lemma RoomIsPart(m: Table, r: Request, room: Table)
    requires RoomFor(m, r, room)
    ensures SubTable(room, m)
  {
    hide Recorded, Idle;
  }

  lemma FreshIsNoMore(b: Tally)
    ensures NoMore(FRESH, b)
  {
  }

  lemma PartIsNoStricter(m: Table, all: Table, part: Table)
    requires NoStricter(m, all) && SubTable(part, m)
    ensures NoStricter(part, all)
  {
    hide NoMore;
    forall k | k in all
      ensures NoMore(TallyOf(part, k), all[k])
    {
      assert NoMore(TallyOf(m, k), all[k]);
      FreshIsNoMore(all[k]);
    }
  }

  lemma ReplaceKeepsNoStricter(room: Table, all: Table, key: Key, a: Tally, b: Tally)
    requires NoStricter(room, all) && NoMore(a, b)
    ensures NoStricter(room[key := a], all[key := b])
  {
    hide NoMore;
    var all' := all[key := b];
    forall k | k in all'
      ensures NoMore(TallyOf(room[key := a], k), all'[k])
    {
      if k != key {
        assert NoMore(TallyOf(room, k), all[k]);
      }
    }
  }

  /** Whatever is evicted and whenever, no request of any client is over a limit
      that would not have been over it had nobody ever been forgotten. */
  lemma {:induction false} ForgettingIsNeverStricter(history: seq<Request>, tables: seq<Table>, n: nat, limit: nat)
    requires InOrder(history) && BoundedRun(history, tables) && n < |history|
    ensures Over(CountOf(tables[n], history[n]), limit) ==> Over(CountOf(Unbounded(history, n), history[n]), limit)
  {
    var r := history[n];
    StaysNoStricter(history, tables, n);
    UnboundedIsSound(history, n);
    SoundLater(Unbounded(history, n), Clock(history, n), r.atMs);
    NoMoreIsKept(TallyOf(tables[n], r.key), TallyOf(Unbounded(history, n), r.key), r.atMs, Window(r));
  }

  lemma StepStaysNoStricter(m: Table, all: Table, r: Request, m': Table)
    requires NoStricter(m, all) && CountedIn(m, r, m') && Sound(all, r.atMs)
    ensures NoStricter(m', all[r.key := Recorded(TallyOf(all, r.key), r.atMs, Window(r))])
  {
    hide Recorded, NoMore, Counted, RoomFor, WellFormed;
    var room :| RoomFor(m, r, room)
      && m' == room[r.key := Recorded(TallyOf(room, r.key), r.atMs, Window(r))];
    RoomIsPart(m, r, room);
    PartIsNoStricter(m, all, room);
    var a, b := TallyOf(room, r.key), TallyOf(all, r.key);
    if r.key !in all { FreshIsNoMore(b); }
    NoMoreIsKept(a, b, r.atMs, Window(r));
    ReplaceKeepsNoStricter(room, all, r.key, Recorded(a, r.atMs, Window(r)), Recorded(b, r.atMs, Window(r)));
  }

  lemma {:induction false} StaysNoStricter(history: seq<Request>, tables: seq<Table>, n: nat)
    requires InOrder(history) && BoundedRun(history, tables) && n <= |history|
    ensures NoStricter(tables[n], Unbounded(history, n))
  {
    hide Recorded, NoMore, CountedIn, WellFormed;
    if n >= 1 {
      var all, r := Unbounded(history, n - 1), history[n - 1];
      StaysNoStricter(history, tables, n - 1);
      UnboundedIsSound(history, n - 1);
      assert n >= 2 ==> history[n - 2].atMs <= r.atMs;
      SoundLater(all, Clock(history, n - 1), r.atMs);
      assert CountedIn(tables[n - 1], r, tables[n - 1 + 1]);
      StepStaysNoStricter(tables[n - 1], all, r, tables[n]);
    }
  }

  /** A run in which forgetting the idle clients always made room enough. */
  ghost predicate IdleSuffices(history: seq<Request>, tables: seq<Table>)
    requires |tables| == |history| + 1
  {
    forall i :: 0 <= i < |history| && history[i].key !in tables[i] && |tables[i]| >= MAX_PER_SHARD ==>
      |Active(tables[i], history[i].atMs)| < MAX_PER_SHARD
  }

  /** The bounded table holds what the unbounded one does, but for idle clients. */
  ghost predicate LacksOnlyIdle(m: Table, all: Table, now: nat) {
    && m.Keys <= all.Keys
    && (forall k :: k in m ==> m[k] == all[k])
    && (forall k :: k in all && k !in m ==> Idle(all[k], now))
  }

  lemma RoomLacksOnlyIdle(m: Table, all: Table, was: nat, r: Request, room: Table)
    requires LacksOnlyIdle(m, all, was) && was <= r.atMs && RoomFor(m, r, room)
    requires r.key !in m && |m| >= MAX_PER_SHARD ==> |Active(m, r.atMs)| < MAX_PER_SHARD
    ensures LacksOnlyIdle(room, all, r.atMs)
  {
  }

  lemma StepLacksOnlyIdle(m: Table, all: Table, was: nat, r: Request, m': Table)
    requires LacksOnlyIdle(m, all, was) && was <= r.atMs && CountedIn(m, r, m') && Sound(all, r.atMs)
    requires r.key !in m && |m| >= MAX_PER_SHARD ==> |Active(m, r.atMs)| < MAX_PER_SHARD
    ensures LacksOnlyIdle(m', all[r.key := Recorded(TallyOf(all, r.key), r.atMs, Window(r))], r.atMs)
  {
    hide Recorded, Counted, RoomFor, Idle, WellFormed;
    var room :| RoomFor(m, r, room)
      && m' == room[r.key := Recorded(TallyOf(room, r.key), r.atMs, Window(r))];
    RoomLacksOnlyIdle(m, all, was, r, room);
    if r.key in all && r.key !in room {
      IdleIsForgotten(all[r.key], r.atMs, r.atMs, Window(r));
    }
    assert TallyOf(room, r.key) == TallyOf(all, r.key) || r.key !in room;
  }

  lemma {:induction false} StaysLackingOnlyIdle(history: seq<Request>, tables: seq<Table>, n: nat)
    requires InOrder(history) && BoundedRun(history, tables) && IdleSuffices(history, tables) && n <= |history|
    ensures LacksOnlyIdle(tables[n], Unbounded(history, n), Clock(history, n))
  {
    hide Recorded, CountedIn, WellFormed, LacksOnlyIdle, Active;
    if n >= 1 {
      var all, r := Unbounded(history, n - 1), history[n - 1];
      StaysLackingOnlyIdle(history, tables, n - 1);
      assert n >= 2 ==> history[n - 2].atMs <= r.atMs;
      assert CountedIn(tables[n - 1], r, tables[n - 1 + 1]);
      UnboundedIsSound(history, n - 1);
      SoundLater(all, Clock(history, n - 1), r.atMs);
      StepLacksOnlyIdle(tables[n - 1], all, Clock(history, n - 1), r, tables[n]);
    } else {
      NothingLacks();
    }
  }

  lemma NothingLacks()
    ensures LacksOnlyIdle(map[], map[], 0)
  {
  }

  /** Where forgetting idle clients makes room enough, nobody can tell: every
      request is counted exactly as if the table had no bound. */
  lemma IdleEvictionIsUnobservable(history: seq<Request>, tables: seq<Table>, n: nat)
    requires InOrder(history) && BoundedRun(history, tables) && IdleSuffices(history, tables) && n < |history|
    ensures CountOf(tables[n], history[n]) == CountOf(Unbounded(history, n), history[n])
  {
    var all, r := Unbounded(history, n), history[n];
    StaysLackingOnlyIdle(history, tables, n);
    UnboundedIsSound(history, n);
    assert n >= 1 ==> history[n - 1].atMs <= r.atMs;
    if r.key in all && r.key !in tables[n] {
      IdleIsForgotten(all[r.key], Clock(history, n), r.atMs, Window(r));
    }
  }

  lemma RoomIsBelowCap(m: Table, now: nat, room: Table)
    requires RoomMade(m, now, room) && |m| <= MAX_PER_SHARD
    ensures |room| < MAX_PER_SHARD
  {
    hide Idle, IsCutoff, NewerThan;
    var kept := Active(m, now);
    SubsetSize(kept.Keys, m.Keys);
    if |kept| >= MAX_PER_SHARD {
      var cutoff: nat :| IsCutoff(kept, cutoff) && room == NewerThan(kept, cutoff);
      CutoffFrees(kept, cutoff);
    }
  }

  lemma StepKeepsCap(m: Table, r: Request, m': Table)
    requires CountedIn(m, r, m') && |m| <= MAX_PER_SHARD
    ensures |m'| <= MAX_PER_SHARD
  {
    hide Recorded, RoomMade;
    var room :| RoomFor(m, r, room)
      && m' == room[r.key := Recorded(TallyOf(room, r.key), r.atMs, Window(r))];
    assert m'.Keys == room.Keys + {r.key};
    if r.key !in m && |m| >= MAX_PER_SHARD {
      RoomIsBelowCap(m, r.atMs, room);
    }
  }

  /** However many clients come, the table never holds more than its cap. */
  lemma {:induction false} NeverAboveTheCap(history: seq<Request>, tables: seq<Table>, n: nat)
    requires BoundedRun(history, tables) && n <= |history|
    ensures |tables[n]| <= MAX_PER_SHARD
  {
    if n >= 1 {
      NeverAboveTheCap(history, tables, n - 1);
      assert CountedIn(tables[n - 1], history[n - 1], tables[n - 1 + 1]);
      StepKeepsCap(tables[n - 1], history[n - 1], tables[n]);
    }
  }

  // ─── What the table holds, client by client ──────────────

  /** One client's own requests among the first `n`, with the window each was counted
      in: the site's in milliseconds, one where that is nought. */
  function AskedBy(history: seq<Request>, n: nat, key: Key): seq<Asked>
    requires n <= |history|
  {
    if n == 0 then []
    else
      var before, r := AskedBy(history, n - 1, key), history[n - 1];
      if r.key != key then before
      else before + [Asked(r.atMs, if r.windowMs == 0 then 1 else r.windowMs)]
  }

  lemma {:induction false} AskedInOrder(history: seq<Request>, n: nat, key: Key)
    requires InOrder(history) && n <= |history|
    ensures Ordered(AskedBy(history, n, key))
    ensures forall i :: 0 <= i < |AskedBy(history, n, key)| ==> AskedBy(history, n, key)[i].atMs <= Clock(history, n)
  {
    if n > 0 {
      AskedInOrder(history, n - 1, key);
      assert n >= 2 ==> history[n - 2].atMs <= history[n - 1].atMs;
    }
  }

  /** The table that never forgets holds for every client exactly the tally its own
      requests leave, whatever others do. */
  lemma {:induction false} ClientsAreApart(history: seq<Request>, n: nat, key: Key)
    requires InOrder(history) && n <= |history|
    ensures Ordered(AskedBy(history, n, key))
    ensures TallyOf(Unbounded(history, n), key) == AfterAll(AskedBy(history, n, key))
    ensures key in Unbounded(history, n) <==> AskedBy(history, n, key) != []
  {
    AskedInOrder(history, n, key);
    if n == 0 {
      NothingAsked(history, key);
    } else {
      ClientsAreApart(history, n - 1, key);
      AskedInOrder(history, n - 1, key);
      OneMoreCounted(history, n);
      OneMoreAsked(history, n, key);
      hide Recorded, AskedBy, AfterAll, Unbounded, Ordered, InOrder;
    }
  }

  lemma NothingAsked(history: seq<Request>, key: Key)
    ensures Unbounded(history, 0) == map[] && AskedBy(history, 0, key) == []
  {
  }

  lemma OneMoreCounted(history: seq<Request>, n: nat)
    requires 0 < n <= |history|
    ensures var m, r := Unbounded(history, n - 1), history[n - 1];
            Unbounded(history, n) == m[r.key := Recorded(TallyOf(m, r.key), r.atMs, Window(r))]
  {
    hide Recorded;
  }

  lemma OneMoreAsked(history: seq<Request>, n: nat, key: Key)
    requires 0 < n <= |history| && Ordered(AskedBy(history, n - 1, key)) && Ordered(AskedBy(history, n, key))
    ensures var all, before, r := AskedBy(history, n, key), AskedBy(history, n - 1, key), history[n - 1];
            if r.key == key then all != [] && AfterAll(all) == Recorded(AfterAll(before), r.atMs, Window(r))
            else all == before
  {
    hide Recorded, Ordered;
    var all := AskedBy(history, n, key);
    if history[n - 1].key == key {
      assert all[..|all| - 1] == AskedBy(history, n - 1, key);
    }
  }

  /** Those seen since two of their own windows ago. */
  function SeenLately(m: Table, now: nat): set<Key> {
    set k | k in m && m[k].windowMs >= 1 && now < m[k].lastMs + 2 * m[k].windowMs
  }

  /** Those of the kept seen after a time up to which more than half were seen, and
      before which at most half. */
  ghost predicate SeenAfter(m: Table, kept: set<Key>, room: set<Key>, cutoff: nat)
    requires kept <= m.Keys
  {
    && room == (set k | k in kept && m[k].lastMs > cutoff)
    && |set k | k in kept && m[k].lastMs < cutoff| <= |kept| / 2
    && |set k | k in kept && m[k].lastMs <= cutoff| > |kept| / 2
  }

  /** Who stays when room is made, outright: nobody last seen two of its own windows
      ago or more; everybody else if that leaves room, and if not the half seen last.
      Whoever stays keeps its tally. */
  lemma RoomMeans(m: Table, now: nat, room: Table)
    requires RoomMade(m, now, room)
    ensures forall k :: k in room ==> k in m && room[k] == m[k]
    ensures var kept := SeenLately(m, now);
            if |kept| < MAX_PER_SHARD then room.Keys == kept
            else exists cutoff: nat :: SeenAfter(m, kept, room.Keys, cutoff)
  {
    var active := Active(m, now);
    var kept := SeenLately(m, now);
    forall k
      ensures k in active <==> k in kept
    {
    }
    assert active.Keys == kept;
    if |kept| >= MAX_PER_SHARD {
      var cutoff: nat :| IsCutoff(active, cutoff) && room == NewerThan(active, cutoff);
      CutoffOfKept(active, m, kept, cutoff);
      assert SeenAfter(m, kept, room.Keys, cutoff);
    }
  }

  lemma CutoffOfKept(active: Table, m: Table, kept: set<Key>, cutoff: nat)
    requires active.Keys == kept && kept <= m.Keys && forall k :: k in active ==> active[k] == m[k]
    requires IsCutoff(active, cutoff) && |active| == |kept|
    ensures NewerThan(active, cutoff).Keys == (set k | k in kept && m[k].lastMs > cutoff)
    ensures |set k | k in kept && m[k].lastMs < cutoff| <= |kept| / 2
    ensures |set k | k in kept && m[k].lastMs <= cutoff| > |kept| / 2
  {
    assert (set k | k in kept && m[k].lastMs < cutoff) == (set k | k in active && active[k].lastMs < cutoff);
    assert (set k | k in kept && m[k].lastMs <= cutoff) == (set k | k in active && active[k].lastMs <= cutoff);
  }

  /** In every run a client is forgotten only by a request of one not in the table,
      when the table is full; whoever is not keeps its tally. */
  lemma ForgottenOnlyWhenFull(history: seq<Request>, tables: seq<Table>, n: nat, key: Key)
    requires BoundedRun(history, tables) && n < |history| && key in tables[n] && key != history[n].key
    ensures key in tables[n + 1] ==> tables[n + 1][key] == tables[n][key]
    ensures key !in tables[n + 1] ==> history[n].key !in tables[n] && |tables[n]| >= MAX_PER_SHARD
  {
    hide Recorded, RoomMade;
    var m, r, m' := tables[n], history[n], tables[n + 1];
    assert CountedIn(m, r, m');
    var room :| RoomFor(m, r, room) && m' == room[r.key := Recorded(TallyOf(room, r.key), r.atMs, Window(r))];
    RoomIsPart(m, r, room);
  }
}
