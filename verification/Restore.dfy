/** Swapping a staged snapshot in at start, and undoing one that never came up,
    with a crash possible between any two file operations (src/backup.rs). */
module Restore {
  import opened Options

  /** A commit, in the order a database received them. The three settings a restore is
      recorded in are told apart from everything else. */
  datatype Write = Row(n: nat) | Status(restored: bool) | Message(about: Option<nat>) | Time(at: nat)

  /** A database's main file. `id` tells one main file from another, so that a
      write-ahead log can be told to belong beside it or not. A copy cut short
      is `Torn`. */
  datatype DbFile = Absent | Torn | Whole(id: nat, writes: seq<Write>)

  /** A write-ahead log: what the main file it belongs to does not hold yet. */
  datatype Log = NoLog | Log(id: nat, writes: seq<Write>)

  /** What a start reports of a restore: whether it worked, and what was restored
      where that is not a snapshot. */
  datatype Said = Said(restored: bool, about: Option<nat>)

  /** The files a restore moves, all beside the database. `reason` names what is
      staged when it is an import; a snapshot has none. */
  datatype Disk = Disk(
    live: DbFile, wal: Log, shm: Option<nat>, staged: DbFile, before: DbFile, tmp: DbFile,
    marker: bool, reason: Option<nat>, outcome: Option<Said>, nextId: nat)

  /** What SQLite reads: the main file and, beside it, its log. */
  function Content(d: Disk): seq<Write>
    requires d.live.Whole?
  {
    d.live.writes + if d.wal.Log? then d.wal.writes else []
  }

  /** No log and no shared memory lie beside a main file they do not belong to. */
  predicate LogMatches(d: Disk) {
    && (d.wal.Log? ==> d.live.Whole? && d.wal.id == d.live.id)
    && (d.shm.Some? ==> d.live.Whole? && d.shm.value == d.live.id)
  }

  datatype Op =
    | RemoveWal | RemoveShm | RemoveTmp | RemoveMarker | RemoveStaged | RemoveReason | RemoveOutcome
    | WriteMarker | WriteOutcome(said: Said)
    | WriteReason(about: nat) | Stage(id: nat, content: seq<Write>)
    | BeforeOverLive | TmpOverBefore | StagedOverLive
    | Open | BeginCopy | FinishCopy | Close
    | Append(w: Write) | Checkpoint

  function Do(d: Disk, op: Op): Disk {
    match op
    case RemoveWal => d.(wal := NoLog)
    case RemoveShm => d.(shm := None)
    case RemoveTmp => d.(tmp := Absent)
    case RemoveMarker => d.(marker := false)
    case RemoveStaged => d.(staged := Absent)
    case RemoveReason => d.(reason := None)
    case RemoveOutcome => d.(outcome := None)
    case WriteMarker => d.(marker := true)
    case WriteOutcome(said) => d.(outcome := Some(said))
    case WriteReason(about) => d.(reason := Some(about))
    case Stage(id, content) => d.(staged := Whole(id, content))
    case BeforeOverLive => d.(live := d.before, before := Absent)
    case TmpOverBefore => d.(before := d.tmp, tmp := Absent)
    case StagedOverLive => d.(live := d.staged, staged := Absent)
    case Open =>
      var live := if d.live.Absent? then Whole(d.nextId, []) else d.live;
      d.(live := live, shm := if live.Whole? then Some(live.id) else d.shm, nextId := d.nextId + 1,
         wal := if d.wal.NoLog? && live.Whole? then Log(live.id, []) else d.wal)
    // A copy is refused where there is a file already.
    case BeginCopy => if d.tmp.Absent? then d.(tmp := Torn) else d
    case FinishCopy =>
      if d.live.Whole? && d.tmp.Torn? then d.(tmp := Whole(d.nextId, Content(d)), nextId := d.nextId + 1) else d
    case Close =>
      if d.live.Whole? then d.(live := Whole(d.live.id, Content(d)), wal := NoLog, shm := None) else d
    case Append(w) =>
      if d.wal.Log? then d.(wal := Log(d.wal.id, d.wal.writes + [w])) else d
    case Checkpoint =>
      if d.live.Whole? && d.wal.Log? then d.(live := Whole(d.live.id, Content(d)), wal := Log(d.live.id, [])) else d
  }

  function Run(d: Disk, ops: seq<Op>): Disk
    decreases |ops|
  {
    if ops == [] then d else Run(Do(d, ops[0]), ops[1..])
  }

  /** A marker is written, or not at all, or created and then not written. */
  datatype Marking = Marked | NotMarked | HalfMarked

  /** How the operations that can report an error turn out, for one start. */
  datatype Luck = Luck(connects: bool, copies: bool, keeps: bool, marks: Marking, moves: bool, putsBack: bool)

  const GOOD := Luck(true, true, true, Marked, true, true)

  /** What is said of a restore that was not applied. */
  const NOT_APPLIED := Said(false, None)

  // ─── What a start does, as the operations it performs ────

  /** Step 1: the current database kept, whole, or the restore given up. */
  function KeepOps(luck: Luck): seq<Op> {
    [RemoveTmp] +
    if !luck.connects then GiveUpOps()
    else
      [Open, BeginCopy] + (if luck.copies then [FinishCopy] else []) + [Close]
      + if Kept(luck) then [TmpOverBefore] else GiveUpOps()
  }

  function GiveUpOps(): seq<Op> {
    [WriteOutcome(NOT_APPLIED), RemoveStaged]
  }

  predicate Kept(luck: Luck) {
    luck.connects && luck.copies && luck.keeps
  }

  /** Step 3: the snapshot over the database, its log and shared memory gone. */
  function SwapOps(luck: Luck): seq<Op> {
    [RemoveWal, RemoveShm] + if luck.moves then [StagedOverLive] else [WriteOutcome(NOT_APPLIED), RemoveMarker]
  }

  function PutBackOps(d: Disk): seq<Op> {
    [BeforeOverLive, RemoveReason, WriteOutcome(Said(false, d.reason))]
  }

  function UndoOps(d: Disk, luck: Luck): seq<Op> {
    (if d.before.Absent? then []
     else [RemoveWal, RemoveShm] + if luck.putsBack then PutBackOps(d) else [])
    + [RemoveMarker]
  }

  function ApplyOps(d: Disk, luck: Luck): seq<Op> {
    if d.marker && d.staged.Absent? then UndoOps(d, luck)
    else if d.staged.Absent? then []
    else if d.marker then SwapOps(luck)
    else if d.live.Absent? then MarkOps(luck)
    else KeepOps(luck) + if Kept(luck) then MarkOps(luck) else []
  }

  /** Step 2, and step 3 if the marker could be written. */
  function MarkOps(luck: Luck): seq<Op> {
    match luck.marks
    case Marked => [WriteMarker] + SwapOps(luck)
    case NotMarked => []
    case HalfMarked => [WriteMarker]
  }

  /** What is written into the database of a restore, and when it is. */
  function RecordOf(said: Said, now: nat): seq<Write> {
    [Status(said.restored), Message(said.about), Time(now)]
  }

  function RecordOps(said: Said, now: nat): seq<Op> {
    [Append(Status(said.restored)), Append(Message(said.about)), Append(Time(now)), RemoveOutcome]
  }

  /** Once the database is open and migrated. */
  function FinishOps(d: Disk, now: nat): seq<Op> {
    if d.marker then
      [RemoveMarker, RemoveReason, WriteOutcome(Said(true, d.reason))] + RecordOps(Said(true, d.reason), now)
    else if d.outcome.Some? then RecordOps(d.outcome.value, now)
    else []
  }

  // ─── The same, imperatively ──────────────────────────────

  class Host {
    var disk: Disk
    /** The disk as the host found it, and every operation performed since, in
        order: a crash leaves a prefix of them. */
    ghost var found: Disk
    ghost var done: seq<Op>

    ghost predicate Valid()
      reads this
    {
      disk == Run(found, done)
    }

    constructor (d: Disk)
      ensures Valid() && disk == found == d && done == []
    {
      disk, found, done := d, d, [];
    }

    method Perform(op: Op)
      requires Valid()
      modifies this`disk, this`done
      ensures Valid() && disk == Do(old(disk), op) && done == old(done) + [op]
    {
      RunAppend(found, done, op);
      disk := Do(disk, op);
      done := done + [op];
    }

    method ApplyStagedRestore(luck: Luck)
      requires Valid()
      modifies this`disk, this`done
      ensures Valid() && done == old(done) + ApplyOps(old(disk), luck)
    {
      hide Do, Run, KeepOps, SwapOps, UndoOps;
      if disk.marker && disk.staged.Absent? {
        PutBack(luck);
        return;
      }
      if disk.staged.Absent? {
        return;
      }
      if !disk.marker {
        if !disk.live.Absent? {
          var kept := KeepCurrent(luck);
          if !kept {
            return;
          }
        }
        if luck.marks.NotMarked? {
          return;
        }
        Perform(WriteMarker);
        if luck.marks.HalfMarked? {
          return;
        }
      }
      SwapIn(luck);
    }

    method PutBack(luck: Luck)
      requires Valid()
      modifies this`disk, this`done
      ensures Valid() && done == old(done) + UndoOps(old(disk), luck)
    {
      hide Run;
      if !disk.before.Absent? {
        Perform(RemoveWal);
        Perform(RemoveShm);
        if luck.putsBack {
          Perform(BeforeOverLive);
          var subject := disk.reason;
          Perform(RemoveReason);
          Perform(WriteOutcome(Said(false, subject)));
        }
      }
      Perform(RemoveMarker);
    }

    method KeepCurrent(luck: Luck) returns (kept: bool)
      requires Valid()
      modifies this`disk, this`done
      ensures Valid() && kept == Kept(luck)
      ensures done == old(done) + KeepOps(luck)
    {
      hide Do, Run;
      Perform(RemoveTmp);
      if !luck.connects {
        GiveUp();
        return false;
      }
      CopyCurrent(luck.copies);
      if luck.copies && luck.keeps {
        Perform(TmpOverBefore);
        return true;
      }
      GiveUp();
      return false;
    }

    method CopyCurrent(copies: bool)
      requires Valid()
      modifies this`disk, this`done
      ensures Valid()
      ensures done == old(done) + ([Open, BeginCopy] + (if copies then [FinishCopy] else []) + [Close])
    {
      hide Do, Run;
      Perform(Open);
      Perform(BeginCopy);
      if copies {
        Perform(FinishCopy);
      }
      Perform(Close);
    }

    method GiveUp()
      requires Valid()
      modifies this`disk, this`done
      ensures Valid() && done == old(done) + GiveUpOps()
    {
      hide Do, Run;
      Perform(WriteOutcome(NOT_APPLIED));
      Perform(RemoveStaged);
    }

    method SwapIn(luck: Luck)
      requires Valid()
      modifies this`disk, this`done
      ensures Valid() && done == old(done) + SwapOps(luck)
    {
      hide Do, Run;
      Perform(RemoveWal);
      Perform(RemoveShm);
      if luck.moves {
        Perform(StagedOverLive);
      } else {
        Perform(WriteOutcome(NOT_APPLIED));
        Perform(RemoveMarker);
      }
    }

    method FinishRestore(now: nat)
      requires Valid()
      modifies this`disk, this`done
      ensures Valid() && done == old(done) + FinishOps(old(disk), now)
    {
      if disk.marker {
        Perform(RemoveMarker);
        var reason := disk.reason;
        Perform(RemoveReason);
        Perform(WriteOutcome(Said(true, reason)));
      }
      if disk.outcome.Some? {
        var said := disk.outcome.value;
        Perform(Append(Status(said.restored)));
        Perform(Append(Message(said.about)));
        Perform(Append(Time(now)));
        Perform(RemoveOutcome);
      }
    }
  }

  lemma {:induction false} RunAppend(d: Disk, ops: seq<Op>, op: Op)
    ensures Run(d, ops + [op]) == Do(Run(d, ops), op)
    decreases |ops|
  {
    if ops != [] {
      assert (ops + [op])[1..] == ops[1..] + [op];
      RunAppend(Do(d, ops[0]), ops[1..], op);
    }
  }

  lemma {:induction false} RunConcat(d: Disk, a: seq<Op>, b: seq<Op>)
    ensures Run(d, a + b) == Run(Run(d, a), b)
    decreases |a|
  {
    if a == [] {
      assert a + b == b;
    } else {
      assert (a + b)[1..] == a[1..] + b;
      RunConcat(Do(d, a[0]), a[1..], b);
    }
  }

  // ─── What every crash leaves ─────────────────────────────

  /** `was` is what the live database held when the restore was staged, `snap`
      what was staged. A file holds a content whole when that is where its own
      begins: a database in use only adds to it. */
  predicate Holds(f: DbFile, content: seq<Write>) {
    f.Whole? && content <= f.writes
  }

  predicate LiveHolds(d: Disk, content: seq<Write>) {
    d.live.Whole? && content <= Content(d)
  }

  /** The snapshot is live and what it replaced is kept. */
  predicate Restored(d: Disk, was: seq<Write>, snap: seq<Write>) {
    Holds(d.live, snap) && Holds(d.before, was)
  }

  /** What is so after every operation of every start. */
  predicate Safe(d: Disk, was: seq<Write>, snap: seq<Write>) {
    && d.live.Whole? && LogMatches(d)
    && (d.staged.Absent? || (d.staged.Whole? && d.staged.writes == snap))
    && if d.marker then
         if d.staged.Whole? then Holds(d.live, was) && Holds(d.before, was)
         else Restored(d, was, snap) || (d.before.Absent? && LiveHolds(d, was))
       else
         LiveHolds(d, was) || (d.staged.Absent? && Restored(d, was, snap))
  }

  /** The database live when the restore was staged survives whole, as the
      database or beside it. */
  predicate Survives(d: Disk, was: seq<Write>) {
    LiveHolds(d, was) || Holds(d.before, was)
  }

  /** Wherever a crash falls among these operations, what it leaves is safe. */
  ghost predicate AlwaysSafe(d: Disk, ops: seq<Op>, was: seq<Write>, snap: seq<Write>) {
    forall k :: 0 <= k <= |ops| ==> Safe(Run(d, ops[..k]), was, snap)
  }

  lemma Nothing(d: Disk, was: seq<Write>, snap: seq<Write>)
    requires Safe(d, was, snap)
    ensures AlwaysSafe(d, [], was, snap) && Run(d, []) == d
  {
  }

  lemma Next(d: Disk, ops: seq<Op>, op: Op, was: seq<Write>, snap: seq<Write>)
    requires AlwaysSafe(d, ops, was, snap) && Safe(Do(Run(d, ops), op), was, snap)
    ensures AlwaysSafe(d, ops + [op], was, snap) && Run(d, ops + [op]) == Do(Run(d, ops), op)
  {
    hide Safe, Do;
    RunAppend(d, ops, op);
    forall k | 0 <= k <= |ops + [op]|
      ensures Safe(Run(d, (ops + [op])[..k]), was, snap)
    {
      if k <= |ops| {
        assert (ops + [op])[..k] == ops[..k];
      } else {
        assert (ops + [op])[..k] == ops + [op];
      }
    }
  }

  lemma Join(d: Disk, a: seq<Op>, b: seq<Op>, was: seq<Write>, snap: seq<Write>)
    requires AlwaysSafe(d, a, was, snap) && AlwaysSafe(Run(d, a), b, was, snap)
    ensures AlwaysSafe(d, a + b, was, snap) && Run(d, a + b) == Run(Run(d, a), b)
  {
    hide Safe, Do;
    RunConcat(d, a, b);
    forall k | 0 <= k <= |a + b|
      ensures Safe(Run(d, (a + b)[..k]), was, snap)
    {
      if k <= |a| {
        assert (a + b)[..k] == a[..k];
      } else {
        assert (a + b)[..k] == a + b[..k - |a|];
        RunConcat(d, a, b[..k - |a|]);
      }
    }
  }

  /** Operations on what is neither the database nor a copy of it. */
  predicate NoteOp(op: Op) {
    || op == RemoveShm || op == RemoveTmp || op == RemoveReason || op == RemoveOutcome
    || op.WriteOutcome? || op == BeginCopy || op == FinishCopy
  }

  lemma NoteIsSafe(d: Disk, op: Op, was: seq<Write>, snap: seq<Write>)
    requires Safe(d, was, snap) && NoteOp(op)
    ensures Safe(Do(d, op), was, snap)
  {
  }

  lemma ClosingIsSafe(d: Disk, was: seq<Write>, snap: seq<Write>)
    requires Safe(d, was, snap)
    ensures Safe(Do(d, Close), was, snap)
  {
  }

  lemma KeepingIsSafe(d: Disk, was: seq<Write>, snap: seq<Write>)
    requires Safe(d, was, snap) && !d.marker && d.staged.Whole? && Holds(d.tmp, was)
    ensures Safe(Do(d, TmpOverBefore), was, snap)
  {
  }

  lemma GivingUpIsSafe(d: Disk, was: seq<Write>, snap: seq<Write>)
    requires Safe(d, was, snap) && !d.marker && d.staged.Whole?
    ensures AlwaysSafe(d, GiveUpOps(), was, snap)
    ensures var e := Run(d, GiveUpOps()); Safe(e, was, snap) && !e.marker && e.staged.Absent?
  {
    Two(d, WriteOutcome(NOT_APPLIED), RemoveStaged, was, snap);
  }

  lemma RemovingMarkerIsSafe(d: Disk, was: seq<Write>, snap: seq<Write>)
    requires Safe(d, was, snap)
    ensures Safe(Do(d, RemoveMarker), was, snap)
  {
  }

  lemma MarkingIsSafe(d: Disk, was: seq<Write>, snap: seq<Write>)
    requires Safe(d, was, snap) && !d.marker && d.staged.Whole? && Holds(d.before, was) && d.wal.NoLog?
    ensures Safe(Do(d, WriteMarker), was, snap)
  {
  }

  /** What is live when something is staged and no swap is under way. */
  lemma LiveWhileStaged(d: Disk, was: seq<Write>, snap: seq<Write>)
    requires Safe(d, was, snap) && !d.marker && d.staged.Whole?
    ensures LiveHolds(d, was)
  {
  }

  /** Three operations in a row. */
  lemma Three(d: Disk, x: Op, y: Op, z: Op, was: seq<Write>, snap: seq<Write>)
    requires Safe(d, was, snap) && Safe(Do(d, x), was, snap) && Safe(Do(Do(d, x), y), was, snap)
    requires Safe(Do(Do(Do(d, x), y), z), was, snap)
    ensures AlwaysSafe(d, [x, y, z], was, snap) && Run(d, [x, y, z]) == Do(Do(Do(d, x), y), z)
  {
    hide Safe, Do;
    Nothing(d, was, snap);
    Next(d, [], x, was, snap);
    assert [] + [x] == [x];
    Next(d, [x], y, was, snap);
    assert [x] + [y] == [x, y];
    Next(d, [x, y], z, was, snap);
    assert [x, y] + [z] == [x, y, z];
  }

  lemma Two(d: Disk, x: Op, y: Op, was: seq<Write>, snap: seq<Write>)
    requires Safe(d, was, snap) && Safe(Do(d, x), was, snap) && Safe(Do(Do(d, x), y), was, snap)
    ensures AlwaysSafe(d, [x, y], was, snap) && Run(d, [x, y]) == Do(Do(d, x), y)
  {
    hide Safe, Do;
    Nothing(d, was, snap);
    Next(d, [], x, was, snap);
    assert [] + [x] == [x];
    Next(d, [x], y, was, snap);
    assert [x] + [y] == [x, y];
  }

  lemma One(d: Disk, x: Op, was: seq<Write>, snap: seq<Write>)
    requires Safe(d, was, snap) && Safe(Do(d, x), was, snap)
    ensures AlwaysSafe(d, [x], was, snap) && Run(d, [x]) == Do(d, x)
  {
    hide Safe, Do;
    Nothing(d, was, snap);
    Next(d, [], x, was, snap);
    assert [] + [x] == [x];
  }

  lemma AtEnd(d: Disk, ops: seq<Op>, was: seq<Write>, snap: seq<Write>)
    requires AlwaysSafe(d, ops, was, snap)
    ensures Safe(Run(d, ops), was, snap)
  {
    hide Safe, Do;
    assert ops[..|ops|] == ops;
  }

  /** The swap, from where the current database is known to be kept. */
  lemma SwapIsSafe(d: Disk, luck: Luck, was: seq<Write>, snap: seq<Write>)
    requires Safe(d, was, snap) && d.marker && d.staged.Whole?
    ensures AlwaysSafe(d, SwapOps(luck), was, snap)
    ensures var e := Run(d, SwapOps(luck));
            if luck.moves
            then e.marker && e.staged.Absent? && e.before == d.before && Restored(e, was, snap) && e.wal.NoLog?
            else !e.marker && e.staged == d.staged
  {
    Two(d, RemoveWal, RemoveShm, was, snap);
    var e := Do(Do(d, RemoveWal), RemoveShm);
    if luck.moves {
      One(e, StagedOverLive, was, snap);
      Join(d, [RemoveWal, RemoveShm], [StagedOverLive], was, snap);
    } else {
      Two(e, WriteOutcome(NOT_APPLIED), RemoveMarker, was, snap);
      Join(d, [RemoveWal, RemoveShm], [WriteOutcome(NOT_APPLIED), RemoveMarker], was, snap);
    }
  }

  /** Undoing a swap whose database never came up. */
  lemma UndoIsSafe(d: Disk, luck: Luck, was: seq<Write>, snap: seq<Write>)
    requires Safe(d, was, snap) && d.marker && d.staged.Absent?
    ensures AlwaysSafe(d, UndoOps(d, luck), was, snap)
    ensures var e := Run(d, UndoOps(d, luck));
            && !e.marker && e.staged.Absent?
            && (luck.putsBack && d.before.Whole? ==> e.live == d.before && e.wal.NoLog?)
  {
    if d.before.Absent? {
      One(d, RemoveMarker, was, snap);
      assert UndoOps(d, luck) == [RemoveMarker];
    } else {
      Two(d, RemoveWal, RemoveShm, was, snap);
      var e := Do(Do(d, RemoveWal), RemoveShm);
      if luck.putsBack {
        var say := WriteOutcome(Said(false, d.reason));
        Three(e, BeforeOverLive, RemoveReason, say, was, snap);
        Join(d, [RemoveWal, RemoveShm], PutBackOps(d), was, snap);
        var f := Do(Do(Do(e, BeforeOverLive), RemoveReason), say);
        One(f, RemoveMarker, was, snap);
        Join(d, [RemoveWal, RemoveShm] + PutBackOps(d), [RemoveMarker], was, snap);
      } else {
        One(e, RemoveMarker, was, snap);
        Join(d, [RemoveWal, RemoveShm], [RemoveMarker], was, snap);
        assert UndoOps(d, luck) == [RemoveWal, RemoveShm] + [RemoveMarker];
      }
    }
  }

  /** Where keeping the current database leads: either the copy is exactly what
      SQLite reads from it, log and all, or the restore is given up. */
  predicate KeptFrom(d: Disk, e: Disk, kept: bool)
    requires d.live.Whole?
  {
    && !e.marker
    && if kept then
         && e.staged == d.staged && e.wal.NoLog?
         && e.before.Whole? && e.before.writes == Content(d)
         && e.live == Whole(d.live.id, Content(d))
       else e.staged.Absent?
  }

  lemma KeepIsSafe(d: Disk, luck: Luck, was: seq<Write>, snap: seq<Write>)
    requires Safe(d, was, snap) && !d.marker && d.staged.Whole? && d.live.Whole?
    ensures AlwaysSafe(d, KeepOps(luck), was, snap)
    ensures Safe(Run(d, KeepOps(luck)), was, snap) && KeptFrom(d, Run(d, KeepOps(luck)), Kept(luck))
  {
    hide Safe, CloseOps;
    SafeIsUsable(d, was, snap);
    var e := Do(d, RemoveTmp);
    NoteIsSafe(d, RemoveTmp, was, snap);
    One(d, RemoveTmp, was, snap);
    if luck.connects {
      var f := Do(e, Open);
      ServingGrows(e, Open);
      GrowingKeepsSafe(e, f, was, snap);
      NoteIsSafe(f, BeginCopy, was, snap);
      Two(e, Open, BeginCopy, was, snap);
      Join(d, [RemoveTmp], [Open, BeginCopy], was, snap);
      CloseIsSafe(Do(f, BeginCopy), luck, was, snap);
      Join(d, [RemoveTmp] + [Open, BeginCopy], CloseOps(luck), was, snap);
      KeepOpsSplit(luck);
    } else {
      GivingUpIsSafe(e, was, snap);
      Join(d, [RemoveTmp], GiveUpOps(), was, snap);
    }
  }

  function CloseOps(luck: Luck): seq<Op> {
    (if luck.copies then [FinishCopy] else []) + [Close] + if Kept(luck) then [TmpOverBefore] else GiveUpOps()
  }

  lemma KeepOpsSplit(luck: Luck)
    requires luck.connects
    ensures KeepOps(luck) == [RemoveTmp] + [Open, BeginCopy] + CloseOps(luck)
  {
  }

  lemma CloseIsSafe(d: Disk, luck: Luck, was: seq<Write>, snap: seq<Write>)
    requires Safe(d, was, snap) && !d.marker && d.staged.Whole? && d.live.Whole? && luck.connects && d.tmp.Torn?
    ensures AlwaysSafe(d, CloseOps(luck), was, snap)
    ensures Safe(Run(d, CloseOps(luck)), was, snap) && KeptFrom(d, Run(d, CloseOps(luck)), Kept(luck))
  {
    hide Safe, Do, KeptFrom;
    if luck.copies && luck.keeps {
      CopyAndKeep(d, was, snap);
      assert CloseOps(luck) == [FinishCopy, Close] + [TmpOverBefore];
    } else if luck.copies {
      var e := Do(Do(d, FinishCopy), Close);
      NoteIsSafe(d, FinishCopy, was, snap);
      ClosingIsSafe(Do(d, FinishCopy), was, snap);
      Two(d, FinishCopy, Close, was, snap);
      Copied(d);
      GivingUpIsSafe(e, was, snap);
      Join(d, [FinishCopy, Close], GiveUpOps(), was, snap);
      assert CloseOps(luck) == [FinishCopy, Close] + GiveUpOps();
      GaveUp(d, Run(d, CloseOps(luck)));
    } else {
      ClosingIsSafe(d, was, snap);
      One(d, Close, was, snap);
      Copied(d);
      GivingUpIsSafe(Do(d, Close), was, snap);
      Join(d, [Close], GiveUpOps(), was, snap);
      assert CloseOps(luck) == [Close] + GiveUpOps();
      GaveUp(d, Run(d, CloseOps(luck)));
    }
    AtEnd(d, CloseOps(luck), was, snap);
  }

  lemma GaveUp(d: Disk, e: Disk)
    requires d.live.Whole? && !e.marker && e.staged.Absent?
    ensures KeptFrom(d, e, false)
  {
  }

  /** What finishing the copy and closing the database leave. */
  lemma Copied(d: Disk)
    requires d.live.Whole?
    ensures Do(d, Close).marker == d.marker && Do(d, Close).staged == d.staged
    ensures d.tmp.Torn? ==>
              Do(Do(d, FinishCopy), Close)
              == d.(live := Whole(d.live.id, Content(d)), wal := NoLog, shm := None,
                    tmp := Whole(d.nextId, Content(d)), nextId := d.nextId + 1)
  {
  }

  lemma CopyAndKeep(d: Disk, was: seq<Write>, snap: seq<Write>)
    requires Safe(d, was, snap) && !d.marker && d.staged.Whole? && d.live.Whole? && d.tmp.Torn?
    ensures AlwaysSafe(d, [FinishCopy, Close] + [TmpOverBefore], was, snap)
    ensures KeptFrom(d, Run(d, [FinishCopy, Close] + [TmpOverBefore]), true)
  {
    hide Safe;
    var e := Do(Do(d, FinishCopy), Close);
    NoteIsSafe(d, FinishCopy, was, snap);
    ClosingIsSafe(Do(d, FinishCopy), was, snap);
    Two(d, FinishCopy, Close, was, snap);
    Copied(d);
    LiveWhileStaged(d, was, snap);
    KeepingIsSafe(e, was, snap);
    One(e, TmpOverBefore, was, snap);
    Join(d, [FinishCopy, Close], [TmpOverBefore], was, snap);
  }

  /** Where a start has got to before anything opens the database. */
  predicate AppliedFrom(d: Disk, e: Disk, luck: Luck, was: seq<Write>, snap: seq<Write>)
    requires d.live.Whole?
  {
    && (luck == GOOD && d.staged.Whole? ==> e.marker && e.staged.Absent? && Restored(e, was, snap))
    && (luck == GOOD && d.staged.Whole? && !d.marker ==> e.before.Whole? && e.before.writes == Content(d))
    && (d.staged.Absent? ==> !e.marker && e.staged.Absent?)
    && (luck == GOOD && d.marker && d.staged.Absent? && d.before.Whole? ==> e.live == d.before && e.wal.NoLog?)
    && (luck == GOOD && d.marker && d.staged.Absent? ==> LiveHolds(e, was))
  }

  lemma ApplyIsSafe(d: Disk, luck: Luck, was: seq<Write>, snap: seq<Write>)
    requires Safe(d, was, snap) && d.live.Whole?
    ensures AlwaysSafe(d, ApplyOps(d, luck), was, snap)
    ensures Safe(Run(d, ApplyOps(d, luck)), was, snap)
    ensures AppliedFrom(d, Run(d, ApplyOps(d, luck)), luck, was, snap)
  {
    if d.marker && d.staged.Absent? {
      UndoIsSafe(d, luck, was, snap);
    } else if d.staged.Absent? {
      Nothing(d, was, snap);
    } else if d.marker {
      SwapIsSafe(d, luck, was, snap);
    } else {
      ApplyFresh(d, luck, was, snap);
    }
    AtEnd(d, ApplyOps(d, luck), was, snap);
  }

  lemma MarkerAlone(d: Disk)
    ensures Do(d, WriteMarker) == d.(marker := true)
  {
  }

  lemma ApplyFresh(d: Disk, luck: Luck, was: seq<Write>, snap: seq<Write>)
    requires Safe(d, was, snap) && d.live.Whole? && !d.marker && d.staged.Whole?
    ensures AlwaysSafe(d, ApplyOps(d, luck), was, snap)
    ensures AppliedFrom(d, Run(d, ApplyOps(d, luck)), luck, was, snap)
  {
    hide Safe, Do, KeepOps, SwapOps;
    KeepIsSafe(d, luck, was, snap);
    LiveWhileStaged(d, was, snap);
    var e := Run(d, KeepOps(luck));
    if Kept(luck) && !luck.marks.NotMarked? {
      MarkingIsSafe(e, was, snap);
      One(e, WriteMarker, was, snap);
      MarkerAlone(e);
      if luck.marks.Marked? {
        SwapIsSafe(Do(e, WriteMarker), luck, was, snap);
        Join(e, [WriteMarker], SwapOps(luck), was, snap);
      }
      Join(d, KeepOps(luck), MarkOps(luck), was, snap);
    } else {
      assert ApplyOps(d, luck) == KeepOps(luck) + [] == KeepOps(luck);
    }
  }

  // ─── Whole starts, and any number of them ────────────────

  predicate InService(op: Op) {
    op.Append? || op.Checkpoint?
  }

  /** One start: how its operations turn out, what the migrations write, when it
      records a restore, what the service does until it stops, and after how many
      operations, of all these, it is cut short. A start that is not cut is given
      more than it has. */
  datatype Start = Start(luck: Luck, migrations: seq<Op>, now: nat, service: seq<Op>, cut: nat)

  ghost predicate ValidStart(s: Start) {
    && (forall i :: 0 <= i < |s.migrations| ==> InService(s.migrations[i]))
    && (forall i :: 0 <= i < |s.service| ==> InService(s.service[i]))
  }

  function BringUpOps(s: Start): seq<Op> {
    [Open] + s.migrations
  }

  /** Everything the start would do: src/main.rs applies, opens, finishes. */
  function StartOps(d: Disk, s: Start): seq<Op> {
    var up := Run(Run(d, ApplyOps(d, s.luck)), BringUpOps(s));
    ApplyOps(d, s.luck) + BringUpOps(s) + FinishOps(up, s.now) + s.service
  }

  predicate Uncut(d: Disk, s: Start) {
    s.cut >= |StartOps(d, s)|
  }

  function AfterStart(d: Disk, s: Start): Disk {
    var ops := StartOps(d, s);
    Run(d, if s.cut <= |ops| then ops[..s.cut] else ops)
  }

  function AfterStarts(d: Disk, starts: seq<Start>): Disk
    decreases |starts|
  {
    if starts == [] then d else AfterStarts(AfterStart(d, starts[0]), starts[1..])
  }

  /** Two databases' files hold the same, the live one perhaps with more. */
  predicate Grew(d: Disk, e: Disk) {
    && d.live.Whole? && e.live.Whole? && LogMatches(d) && LogMatches(e)
    && d.live.writes <= e.live.writes && Content(d) <= Content(e)
    && d.staged == e.staged && d.before == e.before && d.marker == e.marker
  }

  lemma GrowingKeepsSafe(d: Disk, e: Disk, was: seq<Write>, snap: seq<Write>)
    requires Safe(d, was, snap) && Grew(d, e)
    ensures Safe(e, was, snap)
  {
  }

  lemma ServingGrows(d: Disk, op: Op)
    requires d.live.Whole? && LogMatches(d) && (InService(op) || op == Open)
    ensures Grew(d, Do(d, op))
  {
  }

  lemma {:induction false} ServiceIsSafe(d: Disk, ops: seq<Op>, was: seq<Write>, snap: seq<Write>)
    requires Safe(d, was, snap) && forall i :: 0 <= i < |ops| ==> InService(ops[i]) || ops[i] == Open
    ensures AlwaysSafe(d, ops, was, snap) && Safe(Run(d, ops), was, snap) && Grew(d, Run(d, ops))
    decreases |ops|
  {
    hide Safe, Do;
    SafeIsUsable(d, was, snap);
    if ops == [] {
      Nothing(d, was, snap);
    } else {
      var e := Do(d, ops[0]);
      ServingGrows(d, ops[0]);
      GrowingKeepsSafe(d, e, was, snap);
      ServiceIsSafe(e, ops[1..], was, snap);
      One(d, ops[0], was, snap);
      Join(d, [ops[0]], ops[1..], was, snap);
      assert ops == [ops[0]] + ops[1..];
    }
  }

  lemma SafeIsUsable(d: Disk, was: seq<Write>, snap: seq<Write>)
    requires Safe(d, was, snap)
    ensures d.live.Whole? && LogMatches(d) && Grew(d, d)
  {
  }

  lemma ReportIsSafe(d: Disk, said: Said, was: seq<Write>, snap: seq<Write>)
    requires Safe(d, was, snap) && d.marker
    ensures var ops := [RemoveMarker, RemoveReason, WriteOutcome(said)];
            var e := Run(d, ops);
            AlwaysSafe(d, ops, was, snap) && Safe(e, was, snap) && !e.marker && Grew(d.(marker := false), e)
  {
    var e := Do(d, RemoveMarker);
    var f := Do(e, RemoveReason);
    var g := Do(f, WriteOutcome(said));
    assert !g.marker && g.live == d.live && g.wal == d.wal && g.shm == d.shm && g.staged == d.staged
           && g.before == d.before;
    SafeIsUsable(d, was, snap);
    hide Safe;
    RemovingMarkerIsSafe(d, was, snap);
    NoteIsSafe(e, RemoveReason, was, snap);
    NoteIsSafe(f, WriteOutcome(said), was, snap);
    Three(d, RemoveMarker, RemoveReason, WriteOutcome(said), was, snap);
  }

  lemma GrewOn(d: Disk, e: Disk, f: Disk)
    requires Grew(d, e) && Grew(e, f)
    ensures Grew(d, f)
  {
  }

  lemma FinishIsSafe(d: Disk, now: nat, was: seq<Write>, snap: seq<Write>)
    requires Safe(d, was, snap)
    ensures AlwaysSafe(d, FinishOps(d, now), was, snap)
    ensures var e := Run(d, FinishOps(d, now));
            Safe(e, was, snap) && !e.marker && Grew(d.(marker := false), e)
  {
    SafeIsUsable(d, was, snap);
    if d.marker {
      hide Safe, Grew, RecordOps, Run;
      var said := Said(true, d.reason);
      var ops := [RemoveMarker, RemoveReason, WriteOutcome(said)];
      ReportIsSafe(d, said, was, snap);
      var e := Run(d, ops);
      RecordIsSafe(e, said, now, was, snap);
      Join(d, ops, RecordOps(said, now), was, snap);
      GrewOn(d.(marker := false), e, Run(e, RecordOps(said, now)));
    } else if d.outcome.Some? {
      hide Safe, Grew;
      RecordIsSafe(d, d.outcome.value, now, was, snap);
    } else {
      hide Safe;
      Nothing(d, was, snap);
      assert FinishOps(d, now) == [];
    }
    AtEnd(d, FinishOps(d, now), was, snap);
  }

  lemma {:induction false} AppendingIsSafe(d: Disk, ops: seq<Op>, was: seq<Write>, snap: seq<Write>)
    requires Safe(d, was, snap) && !d.marker && forall i :: 0 <= i < |ops| ==> ops[i].Append?
    ensures AlwaysSafe(d, ops, was, snap) && Safe(Run(d, ops), was, snap) && Grew(d, Run(d, ops))
    ensures !Run(d, ops).marker
  {
    hide Safe;
    ServiceIsSafe(d, ops, was, snap);
  }

  lemma RecordIsSafe(d: Disk, said: Said, now: nat, was: seq<Write>, snap: seq<Write>)
    requires Safe(d, was, snap) && !d.marker
    ensures AlwaysSafe(d, RecordOps(said, now), was, snap)
    ensures var e := Run(d, RecordOps(said, now)); !e.marker && Grew(d, e)
  {
    hide Safe;
    var ops := RecordOps(said, now);
    assert ops == ops[..3] + [RemoveOutcome];
    assert forall i :: 0 <= i < 3 ==> ops[..3][i].Append?;
    hide RecordOps;
    AppendingIsSafe(d, ops[..3], was, snap);
    var e := Run(d, ops[..3]);
    NoteIsSafe(e, RemoveOutcome, was, snap);
    One(e, RemoveOutcome, was, snap);
    Join(d, ops[..3], [RemoveOutcome], was, snap);
  }

  lemma StartIsSafe(d: Disk, s: Start, was: seq<Write>, snap: seq<Write>)
    requires Safe(d, was, snap) && ValidStart(s)
    ensures AlwaysSafe(d, StartOps(d, s), was, snap)
    ensures var applied := Run(d, ApplyOps(d, s.luck));
            var e := Run(d, StartOps(d, s));
            Safe(e, was, snap) && !e.marker && Grew(applied.(marker := false), e)
  {
    hide Safe, Do;
    var a := ApplyOps(d, s.luck);
    var d1 := Run(d, a);
    SafeIsUsable(d, was, snap);
    ApplyIsSafe(d, s.luck, was, snap);
    var d2 := Run(d1, BringUpOps(s));
    ServiceIsSafe(d1, BringUpOps(s), was, snap);
    Join(d, a, BringUpOps(s), was, snap);
    var f := FinishOps(d2, s.now);
    var d3 := Run(d2, f);
    FinishIsSafe(d2, s.now, was, snap);
    Join(d, a + BringUpOps(s), f, was, snap);
    ServiceIsSafe(d3, s.service, was, snap);
    Join(d, a + BringUpOps(s) + f, s.service, was, snap);
  }

  lemma {:induction false} StartsAreSafe(d: Disk, starts: seq<Start>, was: seq<Write>, snap: seq<Write>)
    requires Safe(d, was, snap) && forall i :: 0 <= i < |starts| ==> ValidStart(starts[i])
    ensures Safe(AfterStarts(d, starts), was, snap)
    decreases |starts|
  {
    hide Safe, Do, StartOps, ValidStart;
    if starts != [] {
      var ops := StartOps(d, starts[0]);
      StartIsSafe(d, starts[0], was, snap);
      assert Safe(Run(d, ops[..if starts[0].cut <= |ops| then starts[0].cut else |ops|]), was, snap);
      assert ops[..|ops|] == ops;
      StartsAreSafe(AfterStart(d, starts[0]), starts[1..], was, snap);
    }
  }

  /** Staging a snapshot while the service runs, which it does with no marker. */
  function Staged(d: Disk, id: nat, snap: seq<Write>): Disk {
    d.(staged := Whole(id, snap))
  }

  lemma StagingIsSafe(d: Disk, id: nat, snap: seq<Write>)
    requires d.live.Whole? && LogMatches(d) && !d.marker
    ensures Safe(Staged(d, id, snap), Content(d), snap)
  {
  }

  lemma SafeMeans(d: Disk, was: seq<Write>, snap: seq<Write>)
    requires Safe(d, was, snap)
    ensures Survives(d, was) && d.live.Whole? && LogMatches(d)
    ensures d.marker && !d.before.Absent? ==> Holds(d.before, was)
    ensures !d.marker && d.staged.Absent? ==> Restored(d, was, snap) || LiveHolds(d, was)
  {
  }

  /** The database live when a restore was staged survives any number of starts,
      each cut short after any operation and each with any of its copies and
      renames failing: whole, as the database or kept beside it. */
  lemma LiveDatabaseSurvives(d: Disk, id: nat, snap: seq<Write>, starts: seq<Start>)
    requires d.live.Whole? && LogMatches(d) && !d.marker
    requires forall i :: 0 <= i < |starts| ==> ValidStart(starts[i])
    ensures Survives(AfterStarts(Staged(d, id, snap), starts), Content(d))
  {
    hide AfterStarts, Safe, ValidStart;
    StagingIsSafe(d, id, snap);
    StartsAreSafe(Staged(d, id, snap), starts, Content(d), snap);
    SafeMeans(AfterStarts(Staged(d, id, snap), starts), Content(d), snap);
  }

  /** No start ever opens a main file beside another database's log, or finds
      none to open; and while a swap is under way what is kept beside the
      database is never anything but what it replaced. */
  lemma NothingForeignIsOpened(d: Disk, id: nat, snap: seq<Write>, starts: seq<Start>)
    requires d.live.Whole? && LogMatches(d) && !d.marker
    requires forall i :: 0 <= i < |starts| ==> ValidStart(starts[i])
    ensures var e := AfterStarts(Staged(d, id, snap), starts);
            && e.live.Whole? && LogMatches(e)
            && (e.marker && !e.before.Absent? ==> Holds(e.before, Content(d)))
  {
    hide AfterStarts, Safe, ValidStart;
    StagingIsSafe(d, id, snap);
    StartsAreSafe(Staged(d, id, snap), starts, Content(d), snap);
    SafeMeans(AfterStarts(Staged(d, id, snap), starts), Content(d), snap);
  }

  lemma GrowingKeepsRestored(d: Disk, e: Disk, was: seq<Write>, snap: seq<Write>)
    requires Grew(d.(marker := false), e)
    ensures Restored(d, was, snap) ==> Restored(e, was, snap)
    ensures LiveHolds(d, was) ==> LiveHolds(e, was)
  {
  }

  /** From any state crashes and failures may have left, one start that is not
      cut and whose operations succeed settles the restore: neither staged file
      nor marker is left; a snapshot still staged is live, with the database it
      replaced kept; and a swap that never came up is undone. */
  lemma GoodStartSettles(b: Disk, s: Start, was: seq<Write>, snap: seq<Write>)
    requires Safe(b, was, snap) && ValidStart(s) && s.luck == GOOD && Uncut(b, s)
    ensures var e := AfterStart(b, s);
            && !e.marker && e.staged.Absent?
            && (Restored(e, was, snap) || LiveHolds(e, was))
            && (!b.staged.Absent? ==> Restored(e, was, snap))
            && (b.marker && b.staged.Absent? ==> LiveHolds(e, was))
  {
    hide Safe, Do, ApplyOps, StartOps, ValidStart, LiveHolds, Restored;
    SafeIsUsable(b, was, snap);
    ApplyIsSafe(b, s.luck, was, snap);
    StartIsSafe(b, s, was, snap);
    var ops := StartOps(b, s);
    assert ops[..|ops|] == ops;
    var applied := Run(b, ApplyOps(b, s.luck));
    var e := Run(b, ops);
    AppliedLeavesNothingStaged(b, applied, was, snap);
    GrowingKeepsRestored(applied, e, was, snap);
    SafeMeans(e, was, snap);
  }

  lemma AppliedLeavesNothingStaged(d: Disk, e: Disk, was: seq<Write>, snap: seq<Write>)
    requires Safe(d, was, snap) && d.live.Whole? && AppliedFrom(d, e, GOOD, was, snap)
    ensures e.staged.Absent?
    ensures !d.staged.Absent? ==> Restored(e, was, snap)
  {
  }

  /** After any crashes and failures at all, one good start settles the restore. */
  lemma OneGoodStartSettles(d: Disk, id: nat, snap: seq<Write>, starts: seq<Start>, s: Start)
    requires d.live.Whole? && LogMatches(d) && !d.marker && ValidStart(s)
    requires forall i :: 0 <= i < |starts| ==> ValidStart(starts[i])
    requires s.luck == GOOD && Uncut(AfterStarts(Staged(d, id, snap), starts), s)
    ensures var e := AfterStarts(Staged(d, id, snap), starts + [s]);
            && !e.marker && e.staged.Absent?
            && (Restored(e, Content(d), snap) || LiveHolds(e, Content(d)))
  {
    hide Safe, ValidStart, AfterStart, Restored, LiveHolds;
    StagingIsSafe(d, id, snap);
    StartsAreSafe(Staged(d, id, snap), starts, Content(d), snap);
    GoodStartSettles(AfterStarts(Staged(d, id, snap), starts), s, Content(d), snap);
    LastStart(Staged(d, id, snap), starts, s);
  }

  lemma {:induction false} LastStart(d: Disk, starts: seq<Start>, s: Start)
    ensures AfterStarts(d, starts + [s]) == AfterStart(AfterStarts(d, starts), s)
    decreases |starts|
  {
    hide AfterStart;
    if starts == [] {
      assert starts + [s] == [s];
      assert AfterStarts(AfterStart(d, s), []) == AfterStart(d, s);
    } else {
      assert (starts + [s])[1..] == starts[1..] + [s];
      LastStart(AfterStart(d, starts[0]), starts[1..], s);
    }
  }

  /** A snapshot that will not open: two starts that get through the file moves
      and then die opening the database, however far they get with it, leave the
      database as it was kept, and nothing staged or marked. */
  lemma BrokenSnapshotIsUndone(d: Disk, luck1: Luck, luck2: Luck, opening: seq<Op>, was: seq<Write>, snap: seq<Write>)
    requires Safe(d, was, snap) && d.staged.Whole? && luck1 == GOOD && luck2 == GOOD
    requires forall i :: 0 <= i < |opening| ==> InService(opening[i]) || opening[i] == Open
    ensures var first := Run(Run(d, ApplyOps(d, luck1)), opening);
            var second := Run(first, ApplyOps(first, luck2));
            !second.marker && second.staged.Absent? && LiveHolds(second, was)
  {
    hide Safe, Do, ApplyOps, Restored, LiveHolds;
    SafeIsUsable(d, was, snap);
    ApplyIsSafe(d, luck1, was, snap);
    var applied := Run(d, ApplyOps(d, luck1));
    ServiceIsSafe(applied, opening, was, snap);
    var first := Run(applied, opening);
    SafeIsUsable(first, was, snap);
    ApplyIsSafe(first, luck2, was, snap);
  }

  // ─── The file that says what is being restored ───────────

  /** A reason with nothing for it to be about: nothing staged, and no swap whose
      start has yet to report. */
  predicate Orphaned(d: Disk) {
    d.reason.Some? && d.staged.Absent? && !d.marker
  }

  /** The start gives the restore up, the current database not being kept. */
  predicate GivesUp(d: Disk, luck: Luck) {
    d.staged.Whole? && !d.marker && !Kept(luck)
  }

  /** The start undoes a swap with nothing to put back, or fails to put it back. */
  predicate UndoesSilently(d: Disk, luck: Luck) {
    d.marker && d.staged.Absent? && (d.before.Absent? || !luck.putsBack)
  }

  /** The start moves the snapshot into place. */
  predicate SwapsIn(d: Disk, luck: Luck) {
    d.staged.Whole? && luck.moves && (d.marker || (Kept(luck) && luck.marks.Marked?))
  }

  /** The start leaves a marker it could create and not write, and moves nothing. */
  predicate HalfMarks(d: Disk, luck: Luck) {
    d.staged.Whole? && !d.marker && Kept(luck) && luck.marks.HalfMarked?
  }

  /** Operations that touch neither what is staged nor the marker nor the reason. */
  predicate Aside(op: Op) {
    && !op.RemoveStaged? && !op.StagedOverLive? && !op.Stage?
    && !op.WriteMarker? && !op.RemoveMarker? && !op.RemoveReason? && !op.WriteReason?
  }

  predicate AllAside(ops: seq<Op>) {
    forall i :: 0 <= i < |ops| ==> Aside(ops[i])
  }

  /** The same staged, the same marker, the same reason. */
  predicate SameNotes(d: Disk, e: Disk) {
    e.staged == d.staged && e.marker == d.marker && e.reason == d.reason
  }

  lemma OneAside(d: Disk, op: Op)
    requires Aside(op)
    ensures SameNotes(d, Do(d, op))
  {
  }

  lemma {:induction false} AsideKeeps(d: Disk, ops: seq<Op>)
    requires AllAside(ops)
    ensures SameNotes(d, Run(d, ops))
    decreases |ops|
  {
    hide Do;
    if ops != [] {
      OneAside(d, ops[0]);
      AsideKeeps(Do(d, ops[0]), ops[1..]);
    }
  }

  /** The disk where a crash after `k` of the operations leaves it. */
  function CutAt(d: Disk, ops: seq<Op>, k: nat): Disk {
    Run(d, if k <= |ops| then ops[..k] else ops)
  }

  lemma CutOfParts(d: Disk, a: seq<Op>, b: seq<Op>, k: nat)
    ensures CutAt(d, a + b, k) == if k <= |a| then CutAt(d, a, k) else CutAt(Run(d, a), b, k - |a|)
  {
    hide Run;
    if k <= |a| {
      assert (a + b)[..k] == a[..k];
    } else if k <= |a + b| {
      assert (a + b)[..k] == a + b[..k - |a|];
      RunConcat(d, a, b[..k - |a|]);
    } else {
      RunConcat(d, a, b);
    }
  }

  lemma AsideKeepsCut(d: Disk, ops: seq<Op>, k: nat)
    requires AllAside(ops)
    ensures SameNotes(d, CutAt(d, ops, k)) && SameNotes(d, Run(d, ops))
  {
    hide Run, Aside;
    AsideKeeps(d, ops);
    AsideKeeps(d, if k <= |ops| then ops[..k] else ops);
  }

  /** Operations of which only the last touches any of the three. */
  lemma LastDecides(d: Disk, ops: seq<Op>, last: Op, k: nat)
    requires AllAside(ops)
    ensures k <= |ops| ==> SameNotes(d, CutAt(d, ops + [last], k))
    ensures k > |ops| ==> CutAt(d, ops + [last], k) == Run(d, ops + [last])
    ensures exists e :: SameNotes(d, e) && Run(d, ops + [last]) == Do(e, last)
  {
    hide Aside, Do;
    AsideKeepsCut(d, ops, k);
    CutOfParts(d, ops, [last], k);
    RunAppend(d, ops, last);
    assert (ops + [last])[..|ops + [last]|] == ops + [last];
  }

  lemma KeepingOrphans(d: Disk, luck: Luck, k: nat)
    requires d.staged.Whole? && !d.marker
    ensures Orphaned(CutAt(d, KeepOps(luck), k)) <==> d.reason.Some? && !Kept(luck) && k >= |KeepOps(luck)|
    ensures var e := Run(d, KeepOps(luck));
            !e.marker && e.reason == d.reason && e.staged == if Kept(luck) then d.staged else Absent
  {
    var ops := KeepOps(luck);
    hide CutAt, Run;
    if Kept(luck) {
      AsideKeepsCut(d, ops, k);
    } else {
      var n := |ops| - 1;
      assert ops[n] == RemoveStaged && ops == ops[..n] + [ops[n]];
      assert AllAside(ops[..n]);
      hide KeepOps;
      LastDecides(d, ops[..n], ops[n], k);
    }
  }

  lemma SwappingOrphans(d: Disk, luck: Luck, k: nat)
    requires d.staged.Whole? && d.marker
    ensures !Orphaned(CutAt(d, SwapOps(luck), k))
    ensures var e := Run(d, SwapOps(luck));
            && e.reason == d.reason && e.marker == luck.moves
            && e.staged == if luck.moves then Absent else d.staged
  {
    var ops := SwapOps(luck);
    hide CutAt, Run;
    var n := |ops| - 1;
    assert ops == ops[..n] + [ops[n]];
    assert AllAside(ops[..n]);
    hide SwapOps;
    LastDecides(d, ops[..n], ops[n], k);
  }

  lemma CutOfOne(d: Disk, op: Op, k: nat)
    ensures CutAt(d, [op], k) == if k == 0 then d else Do(d, op)
    ensures Run(d, [op]) == Do(d, op)
  {
    assert [op][1..] == [] && Run(Do(d, op), []) == Do(d, op);
    assert [op][..0] == [] && [op][..1] == [op] && Run(d, []) == d;
  }

  lemma MarkingOrphans(d: Disk, luck: Luck, k: nat)
    requires d.staged.Whole? && !d.marker
    ensures !Orphaned(CutAt(d, MarkOps(luck), k))
    ensures var e := Run(d, MarkOps(luck));
            && e.reason == d.reason
            && (e.marker <==> luck.marks.HalfMarked? || (luck.marks.Marked? && luck.moves))
            && e.staged == if luck.marks.Marked? && luck.moves then Absent else d.staged
  {
    var e := Do(d, WriteMarker);
    match luck.marks
    case Marked =>
      CutOfOne(d, WriteMarker, k);
      CutOfParts(d, [WriteMarker], SwapOps(luck), k);
      RunConcat(d, [WriteMarker], SwapOps(luck));
      SwappingOrphans(e, luck, if k >= 1 then k - 1 else 0);
      hide CutAt, Run;
    case NotMarked => AsideKeepsCut(d, [], k);
    case HalfMarked => CutOfOne(d, WriteMarker, k);
  }

  lemma PuttingBackOrphans(d: Disk, k: nat)
    requires d.marker
    ensures var ops := [RemoveReason, WriteOutcome(Said(false, d.reason)), RemoveMarker];
            !Orphaned(CutAt(d, ops, k)) && Run(d, ops).reason == None
  {
    var say := WriteOutcome(Said(false, d.reason));
    var ops := [RemoveReason, say, RemoveMarker];
    var a, b := [RemoveReason], [say] + [RemoveMarker];
    assert ops == a + b;
    CutOfParts(d, a, b, k);
    CutOfOne(d, RemoveReason, k);
    RunConcat(d, a, b);
    var e := Do(d, RemoveReason);
    assert AllAside([say]);
    hide CutAt, Run;
    LastDecides(e, [say], RemoveMarker, if k >= 1 then k - 1 else 0);
  }

  lemma UndoingOrphans(d: Disk, luck: Luck, k: nat)
    requires d.staged.Absent? && d.marker
    ensures Orphaned(CutAt(d, UndoOps(d, luck), k))
            <==> d.reason.Some? && UndoesSilently(d, luck) && k >= |UndoOps(d, luck)|
    ensures var e := Run(d, UndoOps(d, luck));
            && !e.marker && e.staged.Absent?
            && e.reason == if UndoesSilently(d, luck) then d.reason else None
  {
    hide CutAt, Run;
    if UndoesSilently(d, luck) {
      var front := if d.before.Absent? then [] else [RemoveWal, RemoveShm];
      assert UndoOps(d, luck) == front + [RemoveMarker];
      assert AllAside(front);
      LastDecides(d, front, RemoveMarker, k);
    } else {
      var a := [RemoveWal, RemoveShm, BeforeOverLive];
      var b := [RemoveReason, WriteOutcome(Said(false, d.reason)), RemoveMarker];
      assert UndoOps(d, luck) == a + b;
      assert AllAside(a);
      AsideKeepsCut(d, a, k);
      CutOfParts(d, a, b, k);
      RunConcat(d, a, b);
      PuttingBackOrphans(Run(d, a), if k >= 3 then k - 3 else 0);
      UndoneNotes(Run(d, a), b);
    }
  }

  lemma UndoneNotes(d: Disk, ops: seq<Op>)
    requires d.staged.Absent? && |ops| == 3 && ops[0] == RemoveReason && ops[1].WriteOutcome? && ops[2] == RemoveMarker
    ensures !Run(d, ops).marker && Run(d, ops).staged.Absent?
  {
    Unrolled(d, ops);
  }

  lemma Unrolled(d: Disk, ops: seq<Op>)
    requires |ops| == 3
    ensures Run(d, ops) == Do(Do(Do(d, ops[0]), ops[1]), ops[2])
  {
    hide Do;
    RunAppend(d, ops[..2], ops[2]);
    RunAppend(d, ops[..1], ops[1]);
    RunAppend(d, ops[..0], ops[0]);
    assert ops == ops[..2] + [ops[2]] && ops[..2] == ops[..1] + [ops[1]] && ops[..1] == ops[..0] + [ops[0]];
    assert Run(d, ops[..0]) == d;
  }

  lemma ApplyingOrphans(d: Disk, luck: Luck, k: nat)
    requires d.live.Whole? && !d.staged.Torn?
    ensures !Orphaned(d) ==>
              (Orphaned(CutAt(d, ApplyOps(d, luck), k))
               <==> d.reason.Some? && (GivesUp(d, luck) || UndoesSilently(d, luck)) && k >= |ApplyOps(d, luck)|)
    ensures var e := Run(d, ApplyOps(d, luck));
            && (e.marker <==> SwapsIn(d, luck) || HalfMarks(d, luck))
            && (e.marker ==> e.reason == d.reason && (e.staged.Absent? <==> SwapsIn(d, luck)))
  {
    if d.marker && d.staged.Absent? {
      hide CutAt, Run, UndoOps;
      UndoingOrphans(d, luck, k);
    } else if d.staged.Absent? {
      AsideKeepsCut(d, [], k);
    } else if d.marker {
      hide CutAt, Run, SwapOps;
      SwappingOrphans(d, luck, k);
    } else {
      hide CutAt, Run, KeepOps, MarkOps;
      KeepingOrphans(d, luck, k);
      if Kept(luck) {
        var e := Run(d, KeepOps(luck));
        CutOfParts(d, KeepOps(luck), MarkOps(luck), k);
        RunConcat(d, KeepOps(luck), MarkOps(luck));
        MarkingOrphans(e, luck, if k >= |KeepOps(luck)| then k - |KeepOps(luck)| else 0);
      } else {
        assert KeepOps(luck) + [] == KeepOps(luck);
      }
    }
  }

  lemma MarkerThenReason(d: Disk, rest: seq<Op>, k: nat)
    requires d.marker && AllAside(rest)
    ensures var ops := [RemoveMarker] + ([RemoveReason] + rest);
            && (Orphaned(CutAt(d, ops, k)) <==> d.reason.Some? && d.staged.Absent? && k == 1)
            && Run(d, ops).reason == None
  {
    var e := Do(d, RemoveMarker);
    var f := Do(e, RemoveReason);
    CutOfOne(d, RemoveMarker, k);
    CutOfOne(e, RemoveReason, if k >= 1 then k - 1 else 0);
    hide CutAt, Run;
    CutOfParts(d, [RemoveMarker], [RemoveReason] + rest, k);
    CutOfParts(e, [RemoveReason], rest, if k >= 1 then k - 1 else 0);
    RunConcat(d, [RemoveMarker], [RemoveReason] + rest);
    RunConcat(e, [RemoveReason], rest);
    AsideKeepsCut(f, rest, if k >= 2 then k - 2 else 0);
  }

  lemma FinishOpsAre(d: Disk, now: nat) returns (rest: seq<Op>)
    ensures AllAside(rest)
    ensures FinishOps(d, now) == if d.marker then [RemoveMarker] + ([RemoveReason] + rest) else rest
  {
    var ops := FinishOps(d, now);
    rest := if d.marker then ops[2..] else ops;
  }

  lemma FinishingOrphans(d: Disk, now: nat, k: nat)
    ensures !d.marker ==> SameNotes(d, CutAt(d, FinishOps(d, now), k))
    ensures d.marker ==>
              (Orphaned(CutAt(d, FinishOps(d, now), k)) <==> d.reason.Some? && d.staged.Absent? && k == 1)
    ensures d.marker ==> Run(d, FinishOps(d, now)).reason == None
  {
    hide CutAt, Run, FinishOps, AllAside;
    var rest := FinishOpsAre(d, now);
    if d.marker {
      MarkerThenReason(d, rest, k);
    } else {
      AsideKeepsCut(d, rest, k);
    }
  }

  /** The start's operations, one part after another. */
  lemma StartInParts(d: Disk, s: Start)
    ensures var a, b := ApplyOps(d, s.luck), BringUpOps(s);
            var up := Run(Run(d, a), b);
            var f := FinishOps(up, s.now);
            && StartOps(d, s) == a + b + f + s.service
            && AfterStart(d, s)
               == if s.cut <= |a| then CutAt(d, a, s.cut)
                  else if s.cut <= |a| + |b| then CutAt(Run(d, a), b, s.cut - |a|)
                  else if s.cut <= |a| + |b| + |f| then CutAt(up, f, s.cut - |a| - |b|)
                  else CutAt(Run(up, f), s.service, s.cut - |a| - |b| - |f|)
  {
    hide Run, ApplyOps, BringUpOps, FinishOps;
    var a, b := ApplyOps(d, s.luck), BringUpOps(s);
    var up := Run(Run(d, a), b);
    var f := FinishOps(up, s.now);
    assert AfterStart(d, s) == CutAt(d, a + b + f + s.service, s.cut);
    hide CutAt, AfterStart;
    RunConcat(d, a, b);
    RunConcat(d, a + b, f);
    CutOfParts(d, a + b + f, s.service, s.cut);
    CutOfParts(d, a + b, f, s.cut);
    CutOfParts(d, a, b, s.cut);
  }

  lemma ServingAside(s: Start)
    requires ValidStart(s)
    ensures AllAside(BringUpOps(s)) && AllAside(s.service)
  {
  }

  /** What is left of a start once the files are moved: the database brought up, the
      restore reported, the service run. */
  function AfterMoves(d: Disk, s: Start, k: nat): Disk {
    var b := BringUpOps(s);
    var up := Run(d, b);
    var f := FinishOps(up, s.now);
    if k <= |b| then CutAt(d, b, k)
    else if k <= |b| + |f| then CutAt(up, f, k - |b|)
    else CutAt(Run(up, f), s.service, k - |b| - |f|)
  }

  lemma MovesThenRest(d: Disk, s: Start)
    ensures var a := ApplyOps(d, s.luck);
            AfterStart(d, s)
            == if s.cut <= |a| then CutAt(d, a, s.cut) else AfterMoves(Run(d, a), s, s.cut - |a|)
  {
    StartInParts(d, s);
    hide Run, CutAt, ApplyOps, BringUpOps, FinishOps, AfterStart;
  }

  lemma AfterMovesOrphans(d: Disk, s: Start, k: nat)
    requires ValidStart(s)
    ensures !d.marker ==> SameNotes(d, AfterMoves(d, s, k))
    ensures d.marker ==>
              (Orphaned(AfterMoves(d, s, k)) <==> d.reason.Some? && d.staged.Absent? && k == |BringUpOps(s)| + 1)
  {
    var b := BringUpOps(s);
    var up := Run(d, b);
    var f := FinishOps(up, s.now);
    assert up.marker ==> |f| >= 3;
    hide Run, CutAt, BringUpOps, FinishOps, AllAside, ValidStart;
    ServingAside(s);
    AsideKeepsCut(d, b, k);
    if k > |b| + |f| {
      FinishedNotes(up, s.now);
      AsideKeepsCut(Run(up, f), s.service, k - |b| - |f|);
    } else if k > |b| {
      FinishingOrphans(up, s.now, k - |b|);
    }
  }

  /** For every start and every cut: what it leaves is a reason about nothing exactly
      when there is one and the restore was given up, or its undoing had nothing to
      put back or failed, or a crash fell between the marker's removal and the
      reason's. */
  lemma OrphanedIff(d: Disk, s: Start, was: seq<Write>, snap: seq<Write>)
    requires Safe(d, was, snap) && ValidStart(s) && !Orphaned(d)
    ensures var applied := |ApplyOps(d, s.luck)|;
            Orphaned(AfterStart(d, s)) <==>
            d.reason.Some?
            && (((GivesUp(d, s.luck) || UndoesSilently(d, s.luck)) && s.cut >= applied)
                || (SwapsIn(d, s.luck) && s.cut == applied + |BringUpOps(s)| + 1))
  {
    assert d.live.Whole? && !d.staged.Torn?;
    var a := ApplyOps(d, s.luck);
    assert Run(d, a) == CutAt(d, a, |a|) by { assert a[..|a|] == a; }
    hide Safe, Run, CutAt, ApplyOps, BringUpOps, AfterStart, AfterMoves, ValidStart, GivesUp, UndoesSilently, SwapsIn,
         HalfMarks;
    MovesThenRest(d, s);
    ApplyingOrphans(d, s.luck, |a|);
    if s.cut <= |a| {
      ApplyingOrphans(d, s.luck, s.cut);
    } else {
      AfterMovesOrphans(Run(d, a), s, s.cut - |a|);
    }
  }

  lemma FinishedNotes(d: Disk, now: nat)
    ensures var e := Run(d, FinishOps(d, now)); if d.marker then e.reason == None else SameNotes(d, e)
  {
    hide Run, FinishOps;
    var ops := FinishOps(d, now);
    FinishingOrphans(d, now, |ops|);
    assert ops[..|ops|] == ops;
  }

  /** With nothing staged and no swap under way, a start changes none of the three,
      however it is cut. */
  lemma IdleStartKeepsNotes(d: Disk, s: Start)
    requires ValidStart(s) && !d.marker && d.staged.Absent?
    ensures SameNotes(d, AfterStart(d, s))
  {
    var a := ApplyOps(d, s.luck);
    assert a == [] && Run(d, a) == d;
    NoneAside();
    MovesThenRest(d, s);
    hide CutAt, AfterStart, AfterMoves, ValidStart, AllAside;
    AsideKeepsCut(d, a, s.cut);
    if s.cut > 0 { AfterMovesOrphans(d, s, s.cut); }
  }

  lemma NoneAside()
    ensures AllAside([])
  {
  }

  /** So a reason about nothing stays until something is staged. */
  lemma {:induction false} IdleStartsKeepNotes(d: Disk, starts: seq<Start>)
    requires d.live.Whole? && LogMatches(d) && !d.marker && d.staged.Absent?
    requires forall i :: 0 <= i < |starts| ==> ValidStart(starts[i])
    ensures var e := AfterStarts(d, starts); SameNotes(d, e) && e.live.Whole? && LogMatches(e)
    decreases |starts|
  {
    if starts != [] {
      var e := AfterStart(d, starts[0]);
      assert Safe(d, Content(d), []);
      hide StartOps, ValidStart, Safe;
      StartIsSafe(d, starts[0], Content(d), []);
      var ops := StartOps(d, starts[0]);
      assert ops[..|ops|] == ops;
      SafeIsUsable(e, Content(d), []);
      IdleStartKeepsNotes(d, starts[0]);
      IdleStartsKeepNotes(e, starts[1..]);
    }
  }

  // ─── What a start says ───────────────────────────────────

  /** Success reported among the operations, about this. */
  predicate Reports(ops: seq<Op>, about: Option<nat>) {
    exists i :: 0 <= i < |ops| && ops[i] == WriteOutcome(Said(true, about))
  }

  lemma ReportsInParts(a: seq<Op>, b: seq<Op>, about: Option<nat>)
    ensures Reports(a + b, about) <==> Reports(a, about) || Reports(b, about)
  {
    var all := a + b;
    if Reports(a, about) {
      var i :| 0 <= i < |a| && a[i] == WriteOutcome(Said(true, about));
      assert all[i] == a[i];
    }
    if Reports(b, about) {
      var i :| 0 <= i < |b| && b[i] == WriteOutcome(Said(true, about));
      assert all[|a| + i] == b[i];
    }
  }

  lemma NoneReported(d: Disk, s: Start, about: Option<nat>)
    requires ValidStart(s)
    ensures !Reports(ApplyOps(d, s.luck), about) && !Reports(BringUpOps(s), about) && !Reports(s.service, about)
  {
  }

  /** For every start: it reports success exactly when it moved the snapshot into
      place, or left a marker it could not write and moved nothing; and it reports
      it of whatever the reason names. */
  lemma SuccessIsReported(d: Disk, s: Start, was: seq<Write>, snap: seq<Write>, about: Option<nat>)
    requires Safe(d, was, snap) && ValidStart(s)
    ensures Reports(StartOps(d, s), about)
            <==> (SwapsIn(d, s.luck) || HalfMarks(d, s.luck)) && about == d.reason
  {
    assert d.live.Whole? && !d.staged.Torn?;
    var a, b := ApplyOps(d, s.luck), BringUpOps(s);
    var d1 := Run(d, a);
    var up := Run(d1, b);
    var f := FinishOps(up, s.now);
    assert Reports(f, about) <==> up.marker && about == up.reason by { FinishReports(up, s.now, about); }
    hide Safe, Run, CutAt, ApplyOps, BringUpOps, FinishOps, AfterStart, AllAside, SwapsIn, HalfMarks, Reports;
    StartInParts(d, s);
    ServingAside(s);
    NoneReported(d, s, about);
    ReportsInParts(a + b + f, s.service, about);
    ReportsInParts(a + b, f, about);
    ReportsInParts(a, b, about);
    ApplyingOrphans(d, s.luck, 0);
    AsideKeepsCut(d1, b, 0);
  }

  lemma FinishReports(d: Disk, now: nat, about: Option<nat>)
    ensures Reports(FinishOps(d, now), about) <==> d.marker && about == d.reason
  {
    var ops := FinishOps(d, now);
    if d.marker {
      assert ops[2] == WriteOutcome(Said(true, d.reason));
    }
  }

  /** Staging: an import writes its reason first, a snapshot has none to write. */
  function StagingOps(imported: Option<nat>, id: nat, snap: seq<Write>): seq<Op> {
    (if imported.Some? then [WriteReason(imported.value)] else []) + [Stage(id, snap)]
  }

  /** Staging itself leaves a reason about nothing exactly when an import stops
      between its two steps. */
  lemma StagingOrphansIff(d: Disk, imported: Option<nat>, id: nat, snap: seq<Write>, cut: nat)
    requires !Orphaned(d) && !d.marker && d.staged.Absent?
    ensures Orphaned(CutAt(d, StagingOps(imported, id, snap), cut)) <==> imported.Some? && cut == 1
  {
    if imported.Some? {
      var e := Do(d, WriteReason(imported.value));
      CutOfParts(d, [WriteReason(imported.value)], [Stage(id, snap)], cut);
      CutOfOne(d, WriteReason(imported.value), cut);
      CutOfOne(e, Stage(id, snap), if cut >= 1 then cut - 1 else 0);
      assert Orphaned(e);
      hide CutAt;
    } else {
      assert StagingOps(imported, id, snap) == [Stage(id, snap)];
      CutOfOne(d, Stage(id, snap), cut);
    }
  }

  /** A reason about nothing is reported as the next snapshot's, whatever starts come
      between: the restore that brings it up says it was what the reason names,
      and of a disk with no reason left over it never does. */
  lemma NextRestoreIsMisreported(d: Disk, starts: seq<Start>, id: nat, snap: seq<Write>, s: Start, about: nat)
    requires d.live.Whole? && LogMatches(d) && !d.marker && d.staged.Absent?
    requires ValidStart(s) && forall i :: 0 <= i < |starts| ==> ValidStart(starts[i])
    requires SwapsIn(Staged(AfterStarts(d, starts), id, snap), s.luck)
    ensures Reports(StartOps(Staged(AfterStarts(d, starts), id, snap), s), Some(about)) <==> d.reason == Some(about)
  {
    IdleStartsKeepNotes(d, starts);
    var e := AfterStarts(d, starts);
    StagingIsSafe(e, id, snap);
    hide Safe, StartOps, AfterStarts, SwapsIn, HalfMarks;
    SuccessIsReported(Staged(e, id, snap), s, Content(e), snap, Some(about));
  }

  // ─── What is recorded ────────────────────────────────────

  /** The start puts the replaced database back. */
  predicate PutsBack(d: Disk, luck: Luck) {
    d.marker && d.staged.Absent? && !d.before.Absent? && luck.putsBack
  }

  /** The start finds the snapshot will not move. */
  predicate MoveFails(d: Disk, luck: Luck) {
    d.staged.Whole? && !luck.moves && (d.marker || (Kept(luck) && luck.marks.Marked?))
  }

  /** What a start has to tell: of its own, or what one before it could not record. */
  function Told(d: Disk, luck: Luck): Option<Said> {
    if SwapsIn(d, luck) || HalfMarks(d, luck) then Some(Said(true, d.reason))
    else if PutsBack(d, luck) then Some(Said(false, d.reason))
    else if GivesUp(d, luck) || MoveFails(d, luck) then Some(NOT_APPLIED)
    else d.outcome
  }

  /** Operations that leave the outcome file alone. */
  predicate Quiet(op: Op) { !op.WriteOutcome? && !op.RemoveOutcome? }

  lemma {:induction false} QuietKeeps(d: Disk, ops: seq<Op>)
    requires forall i :: 0 <= i < |ops| ==> Quiet(ops[i])
    ensures Run(d, ops).outcome == d.outcome
    decreases |ops|
  {
    if ops != [] {
      assert Do(d, ops[0]).outcome == d.outcome;
      hide Do;
      QuietKeeps(Do(d, ops[0]), ops[1..]);
    }
  }

  /** The last thing said stands. */
  lemma SaidLast(d: Disk, a: seq<Op>, said: Said, b: seq<Op>)
    requires forall i :: 0 <= i < |b| ==> Quiet(b[i])
    ensures Run(d, a + [WriteOutcome(said)] + b).outcome == Some(said)
  {
    hide Run;
    RunConcat(d, a + [WriteOutcome(said)], b);
    RunAppend(d, a, WriteOutcome(said));
    QuietKeeps(Do(Run(d, a), WriteOutcome(said)), b);
  }

  lemma KeepSays(d: Disk, luck: Luck)
    ensures Run(d, KeepOps(luck)).outcome == if Kept(luck) then d.outcome else Some(NOT_APPLIED)
  {
    var ops := KeepOps(luck);
    if Kept(luck) {
      QuietKeeps(d, ops);
    } else {
      var n := |ops| - 2;
      assert ops == ops[..n] + [WriteOutcome(NOT_APPLIED)] + [RemoveStaged];
      hide KeepOps;
      SaidLast(d, ops[..n], NOT_APPLIED, [RemoveStaged]);
    }
  }

  lemma SwapSays(d: Disk, luck: Luck)
    ensures Run(d, SwapOps(luck)).outcome == if luck.moves then d.outcome else Some(NOT_APPLIED)
  {
    if luck.moves {
      QuietKeeps(d, SwapOps(luck));
    } else {
      assert SwapOps(luck) == [RemoveWal, RemoveShm] + [WriteOutcome(NOT_APPLIED)] + [RemoveMarker];
      SaidLast(d, [RemoveWal, RemoveShm], NOT_APPLIED, [RemoveMarker]);
    }
  }

  lemma MarkSays(d: Disk, luck: Luck)
    ensures Run(d, MarkOps(luck)).outcome == if luck.marks.Marked? && !luck.moves then Some(NOT_APPLIED) else d.outcome
  {
    match luck.marks
    case Marked =>
      RunConcat(d, [WriteMarker], SwapOps(luck));
      CutOfOne(d, WriteMarker, 1);
      SwapSays(Do(d, WriteMarker), luck);
      hide Run;
    case _ => QuietKeeps(d, MarkOps(luck));
  }

  lemma UndoSays(d: Disk, luck: Luck)
    requires d.marker && d.staged.Absent?
    ensures Run(d, UndoOps(d, luck)).outcome == if PutsBack(d, luck) then Some(Said(false, d.reason)) else d.outcome
  {
    if PutsBack(d, luck) {
      var a := [RemoveWal, RemoveShm, BeforeOverLive, RemoveReason];
      assert UndoOps(d, luck) == a + [WriteOutcome(Said(false, d.reason))] + [RemoveMarker];
      SaidLast(d, a, Said(false, d.reason), [RemoveMarker]);
    } else {
      QuietKeeps(d, UndoOps(d, luck));
    }
  }

  /** Once the files are moved, what there is to tell is in the outcome file, or is the
      marker's to tell. */
  lemma ToldIsThere(d: Disk, luck: Luck)
    requires d.live.Whole? && !d.staged.Torn?
    ensures var e := Run(d, ApplyOps(d, luck));
            e.outcome == if SwapsIn(d, luck) || HalfMarks(d, luck) then d.outcome else Told(d, luck)
  {
    if d.marker && d.staged.Absent? {
      hide Run, UndoOps;
      UndoSays(d, luck);
    } else if d.staged.Absent? {
      QuietKeeps(d, []);
    } else if d.marker {
      hide Run, SwapOps;
      SwapSays(d, luck);
    } else {
      hide Run, KeepOps, MarkOps;
      KeepSays(d, luck);
      if Kept(luck) {
        RunConcat(d, KeepOps(luck), MarkOps(luck));
        MarkSays(Run(d, KeepOps(luck)), luck);
      } else {
        assert KeepOps(luck) + [] == KeepOps(luck);
      }
    }
  }

  /** The database is open: its log is there to be written to. */
  predicate Opened(d: Disk) {
    d.live.Whole? && d.wal.Log? && LogMatches(d)
  }

  lemma {:induction false} ServingKeepsOpen(d: Disk, ops: seq<Op>)
    requires Opened(d) && forall i :: 0 <= i < |ops| ==> InService(ops[i])
    ensures Opened(Run(d, ops)) && Content(d) <= Content(Run(d, ops)) && Run(d, ops).outcome == d.outcome
    decreases |ops|
  {
    if ops != [] {
      var e := Do(d, ops[0]);
      assert Opened(e) && Content(d) <= Content(e) && e.outcome == d.outcome;
      hide Do, Opened;
      ServingKeepsOpen(e, ops[1..]);
    }
  }

  /** Bringing the database up opens it and says nothing. */
  lemma BroughtUp(d: Disk, s: Start)
    requires d.live.Whole? && LogMatches(d) && ValidStart(s)
    ensures var up := Run(d, BringUpOps(s));
            Opened(up) && Content(d) <= Content(up) && up.outcome == d.outcome && SameNotes(d, up)
  {
    var e := Do(d, Open);
    assert Opened(e) && Content(e) == Content(d);
    ServingAside(s);
    CutOfOne(d, Open, 1);
    RunConcat(d, [Open], s.migrations);
    ServingKeepsOpen(e, s.migrations);
    AsideKeeps(d, BringUpOps(s));
    hide Run, Do, Opened;
  }

  lemma AppendAdds(d: Disk, w: Write)
    requires Opened(d)
    ensures Opened(Do(d, Append(w))) && Content(Do(d, Append(w))) == Content(d) + [w]
    ensures Do(d, Append(w)).outcome == d.outcome
  {
  }

  /** As many of them as a cut leaves. */
  function UpTo(ws: seq<Write>, k: int): seq<Write> {
    if k <= 0 then [] else if k <= |ws| then ws[..k] else ws
  }

  /** Recording, cut after `k` operations: so many of the three settings written, and
      the outcome file there until all are. */
  lemma RecordingAdds(d: Disk, said: Said, now: nat, k: nat)
    requires Opened(d) && d.outcome == Some(said)
    ensures var e := CutAt(d, RecordOps(said, now), k);
            && Opened(e) && Content(e) == Content(d) + UpTo(RecordOf(said, now), k)
            && e.outcome == if k <= 3 then Some(said) else None
  {
    var ops, ws := RecordOps(said, now), RecordOf(said, now);
    var d1 := Do(d, ops[0]);
    var d2 := Do(d1, ops[1]);
    var d3 := Do(d2, ops[2]);
    var d4 := Do(d3, ops[3]);
    AppendAdds(d, ws[0]);
    AppendAdds(d1, ws[1]);
    AppendAdds(d2, ws[2]);
    assert Opened(d4) && Content(d4) == Content(d3) && d4.outcome == None;
    hide Do, Opened, Content, CutAt, RecordOps, RecordOf;
    RunFour(d, ops);
    UpToThree(ws, Content(d), k);
  }

  lemma UpToThree(ws: seq<Write>, c: seq<Write>, k: nat)
    requires |ws| == 3
    ensures k == 0 ==> c + UpTo(ws, k) == c
    ensures k == 1 ==> c + UpTo(ws, k) == c + [ws[0]]
    ensures k == 2 ==> c + UpTo(ws, k) == c + [ws[0]] + [ws[1]]
    ensures k >= 3 ==> c + UpTo(ws, k) == c + [ws[0]] + [ws[1]] + [ws[2]]
  {
    assert ws == [ws[0]] + [ws[1]] + [ws[2]];
  }

  lemma RunFour(d: Disk, ops: seq<Op>)
    requires |ops| == 4
    ensures CutAt(d, ops, 0) == d && CutAt(d, ops, 1) == Do(d, ops[0])
    ensures CutAt(d, ops, 2) == Do(Do(d, ops[0]), ops[1])
    ensures CutAt(d, ops, 3) == Do(Do(Do(d, ops[0]), ops[1]), ops[2])
    ensures forall k: nat :: k >= 4 ==> CutAt(d, ops, k) == Do(Do(Do(Do(d, ops[0]), ops[1]), ops[2]), ops[3])
  {
    hide Do;
    Unrolled(d, ops[..3]);
    RunAppend(d, ops[..3], ops[3]);
    RunAppend(d, ops[..1], ops[1]);
    RunAppend(d, ops[..0], ops[0]);
    assert ops[..4] == ops && ops == ops[..3] + [ops[3]] && ops[..2] == ops[..1] + [ops[1]];
    assert ops[..1] == ops[..0] + [ops[0]] && Run(d, ops[..0]) == d;
  }

  lemma ReportingKeepsOpen(d: Disk, said: Said, k: nat)
    requires Opened(d)
    ensures var ops := [RemoveMarker, RemoveReason, WriteOutcome(said)];
            var e := CutAt(d, ops, k);
            Opened(e) && Content(e) == Content(d) && e.outcome == if k < 3 then d.outcome else Some(said)
  {
    var ops := [RemoveMarker, RemoveReason, WriteOutcome(said)];
    Unrolled(d, ops);
    CutOfOne(d, RemoveMarker, 1);
    var d1 := Do(d, RemoveMarker);
    var d2 := Do(d1, RemoveReason);
    assert ops[..1] == [RemoveMarker] && ops[..2] == [RemoveMarker] + [RemoveReason] && ops[..3] == ops;
    RunAppend(d, [RemoveMarker], RemoveReason);
    assert Run(d, ops[..0]) == d && Run(d, ops[..1]) == d1 && Run(d, ops[..2]) == d2;
    assert Opened(d1) && Opened(d2) && Opened(Do(d2, ops[2]));
    hide Run;
  }

  /** Finishing, cut after `k` operations: what is recorded so far, and that the outcome
      file holds what there is to tell until all of it is. */
  lemma FinishingRecords(d: Disk, now: nat, k: nat)
    requires Opened(d)
    ensures var told := if d.marker then Some(Said(true, d.reason)) else d.outcome;
            var first := if d.marker then 3 else 0;
            var e := CutAt(d, FinishOps(d, now), k);
            && Opened(e)
            && Content(e) == Content(d) + (if told.Some? then UpTo(RecordOf(told.value, now), k - first) else [])
            && e.outcome == (if k < first then d.outcome else if k <= first + 3 then told else None)
  {
    if d.marker {
      var said := Said(true, d.reason);
      var a := [RemoveMarker, RemoveReason, WriteOutcome(said)];
      ReportingKeepsOpen(d, said, k);
      ReportingKeepsOpen(d, said, 3);
      assert CutAt(d, a, 3) == Run(d, a) by { assert a[..3] == a; }
      hide Run, Opened, Content, CutAt;
      CutOfParts(d, a, RecordOps(said, now), k);
      if k > 3 { RecordingAdds(Run(d, a), said, now, k - 3); }
    } else if d.outcome.Some? {
      hide Run, Opened, Content, CutAt;
      RecordingAdds(d, d.outcome.value, now, k);
    } else {
      assert FinishOps(d, now) == [] && CutAt(d, [], k) == d;
    }
  }

  lemma FinishedRecords(d: Disk, now: nat)
    requires Opened(d)
    ensures var told := if d.marker then Some(Said(true, d.reason)) else d.outcome;
            var e := Run(d, FinishOps(d, now));
            && Opened(e) && e.outcome == None
            && Content(e) == Content(d) + if told.Some? then RecordOf(told.value, now) else []
  {
    var ops := FinishOps(d, now);
    assert ops[..|ops|] == ops;
    FinishingRecords(d, now, |ops|);
    hide Run, Opened, Content;
  }

  /** For every safe disk and every start that runs to its end: once the database is up,
      what the start has to tell, and all of it, is what it holds next; and the
      outcome file is gone. */
  lemma RestoreIsRecorded(d: Disk, s: Start, was: seq<Write>, snap: seq<Write>)
    requires Safe(d, was, snap) && ValidStart(s) && Uncut(d, s)
    ensures var up := Run(Run(d, ApplyOps(d, s.luck)), BringUpOps(s));
            var e := AfterStart(d, s);
            && up.live.Whole? && e.live.Whole? && e.outcome == None
            && var told := Told(d, s.luck);
               Content(up) + (if told.Some? then RecordOf(told.value, s.now) else []) <= Content(e)
  {
    var up := Run(Run(d, ApplyOps(d, s.luck)), BringUpOps(s));
    UpTells(d, s, was, snap);
    UncutIs(d, s);
    hide Safe, Run, ApplyOps, BringUpOps, FinishOps, AfterStart, Told, SwapsIn, HalfMarks, RecordOf;
    FinishedRecords(up, s.now);
    ServingKeepsOpen(Run(up, FinishOps(up, s.now)), s.service);
  }

  lemma UncutIs(d: Disk, s: Start)
    requires Uncut(d, s)
    ensures var up := Run(Run(d, ApplyOps(d, s.luck)), BringUpOps(s));
            AfterStart(d, s) == Run(Run(up, FinishOps(up, s.now)), s.service)
  {
    hide Run, ApplyOps, BringUpOps, FinishOps;
    var ops := StartOps(d, s);
    assert ops[..|ops|] == ops;
    StartInParts(d, s);
    var a, b := ApplyOps(d, s.luck), BringUpOps(s);
    var up := Run(Run(d, a), b);
    var f := FinishOps(up, s.now);
    RunConcat(d, a, b);
    RunConcat(d, a + b, f);
    RunConcat(d, a + b + f, s.service);
  }

  lemma MarkerGoesFirst(d: Disk, now: nat, k: nat)
    requires d.marker
    ensures var e := CutAt(d, FinishOps(d, now), k); if k == 0 then e == d else !e.marker
  {
    var ops := FinishOps(d, now);
    var rest := ops[1..];
    assert ops == [RemoveMarker] + rest;
    assert forall i :: 0 <= i < |rest| ==> !rest[i].WriteMarker?;
    CutOfOne(d, RemoveMarker, k);
    hide CutAt, Run, FinishOps;
    CutOfParts(d, [RemoveMarker], rest, k);
    if k > 1 { StaysUnmarked(Do(d, RemoveMarker), rest, k - 1); }
  }

  lemma StaysUnmarked(d: Disk, ops: seq<Op>, k: nat)
    requires !d.marker && forall i :: 0 <= i < |ops| ==> !ops[i].WriteMarker?
    ensures !CutAt(d, ops, k).marker
  {
    Unmarked(d, if k <= |ops| then ops[..k] else ops);
  }

  lemma {:induction false} Unmarked(d: Disk, ops: seq<Op>)
    requires !d.marker && forall i :: 0 <= i < |ops| ==> !ops[i].WriteMarker?
    ensures !Run(d, ops).marker
    decreases |ops|
  {
    if ops != [] {
      assert !Do(d, ops[0]).marker;
      hide Do;
      Unmarked(Do(d, ops[0]), ops[1..]);
    }
  }

  /** What is to be told is still to be told, or is in the database. */
  predicate Held(e: Disk, said: Said, up: Disk, now: nat, reason: Option<nat>) {
    || e.outcome == Some(said)
    || (e.marker && e.reason == reason)
    || (up.live.Whole? && e.live.Whole? && Content(up) + RecordOf(said, now) <= Content(e))
  }

  /** A start cut after its database is up keeps what it has to tell, except exactly when
      it is to tell of a swap and the crash falls between the marker's removal and the
      writing of the outcome. */
  lemma RecordLostIff(d: Disk, s: Start, was: seq<Write>, snap: seq<Write>, said: Said)
    requires Safe(d, was, snap) && ValidStart(s) && Told(d, s.luck) == Some(said)
    requires s.cut >= |ApplyOps(d, s.luck)| + |BringUpOps(s)|
    ensures var up := Run(Run(d, ApplyOps(d, s.luck)), BringUpOps(s));
            var k := s.cut - |ApplyOps(d, s.luck)| - |BringUpOps(s)|;
            Held(AfterStart(d, s), said, up, s.now, d.reason)
            <==> !((SwapsIn(d, s.luck) || HalfMarks(d, s.luck)) && 1 <= k <= 2 && d.outcome != Some(said))
  {
    var up := Run(Run(d, ApplyOps(d, s.luck)), BringUpOps(s));
    UpTells(d, s, was, snap);
    LateCut(d, s);
    hide Safe, Run, ApplyOps, BringUpOps, AfterStart, LateLeaves, Held, Told, SwapsIn, HalfMarks, ValidStart;
    FinishHolds(up, s, said, d.reason, s.cut - |ApplyOps(d, s.luck)| - |BringUpOps(s)|);
  }

  /** What there is to tell once the database is up. */
  lemma UpTells(d: Disk, s: Start, was: seq<Write>, snap: seq<Write>)
    requires Safe(d, was, snap) && ValidStart(s)
    ensures var up := Run(Run(d, ApplyOps(d, s.luck)), BringUpOps(s));
            && Opened(up) && (up.marker <==> SwapsIn(d, s.luck) || HalfMarks(d, s.luck))
            && (up.marker ==> up.reason == d.reason && up.outcome == d.outcome)
            && Told(d, s.luck) == if up.marker then Some(Said(true, up.reason)) else up.outcome
  {
    var d1 := Run(d, ApplyOps(d, s.luck));
    SafeIsUsable(d, was, snap);
    assert !d.staged.Torn?;
    hide Run, ApplyOps, BringUpOps;
    ApplyIsSafe(d, s.luck, was, snap);
    SafeIsUsable(d1, was, snap);
    ApplyingOrphans(d, s.luck, 0);
    ToldIsThere(d, s.luck);
    BroughtUp(d1, s);
    hide Safe, SwapsIn, HalfMarks, PutsBack, GivesUp, MoveFails, Opened;
  }

  /** What a cut that late leaves. */
  function LateLeaves(up: Disk, s: Start, k: nat): Disk {
    var f := FinishOps(up, s.now);
    if k <= |f| then CutAt(up, f, k) else CutAt(Run(up, f), s.service, k - |f|)
  }

  lemma LateCut(d: Disk, s: Start)
    requires s.cut >= |ApplyOps(d, s.luck)| + |BringUpOps(s)|
    ensures var up := Run(Run(d, ApplyOps(d, s.luck)), BringUpOps(s));
            AfterStart(d, s) == LateLeaves(up, s, s.cut - |ApplyOps(d, s.luck)| - |BringUpOps(s)|)
  {
    var a, b := ApplyOps(d, s.luck), BringUpOps(s);
    var up := Run(Run(d, a), b);
    assert CutAt(Run(d, a), b, |b|) == up by { assert b[..|b|] == b; }
    assert CutAt(up, FinishOps(up, s.now), 0) == up;
    assert b != [];
    hide Run, CutAt, ApplyOps, BringUpOps, FinishOps, AfterStart;
    StartInParts(d, s);
  }

  lemma FinishHolds(up: Disk, s: Start, said: Said, reason: Option<nat>, k: nat)
    requires Opened(up) && ValidStart(s) && (up.marker ==> up.reason == reason)
    requires (if up.marker then Some(Said(true, up.reason)) else up.outcome) == Some(said)
    ensures Held(LateLeaves(up, s, k), said, up, s.now, reason)
            <==> !(up.marker && 1 <= k <= 2 && up.outcome != Some(said))
  {
    var f := FinishOps(up, s.now);
    var done := Run(up, f);
    FinishLength(up, s.now);
    if k <= |f| {
      hide Run, FinishOps, CutAt;
      FinishingRecords(up, s.now, k);
      assert Opened(CutAt(up, f, k));
      if up.marker {
        MarkerGoesFirst(up, s.now, k);
      } else {
        FinishingOrphans(up, s.now, k);
      }
    } else {
      hide Run, FinishOps, CutAt;
      FinishedRecords(up, s.now);
      ServiceHolds(done, s, k - |f|);
    }
  }

  lemma ServiceHolds(d: Disk, s: Start, k: nat)
    requires Opened(d) && ValidStart(s)
    ensures var e := CutAt(d, s.service, k); e.live.Whole? && Content(d) <= Content(e)
  {
    ServingKeepsOpen(d, if k <= |s.service| then s.service[..k] else s.service);
  }

  lemma FinishLength(d: Disk, now: nat)
    ensures |FinishOps(d, now)| == if d.marker then 7 else if d.outcome.Some? then 4 else 0
  {
  }

  // ─── What a start leaves ─────────────────────────────────

  /** The files once they are moved, by what the start found and how its operations
      turned out. */
  ghost predicate MovedTo(d: Disk, e: Disk, luck: Luck)
    requires d.live.Whole?
  {
    if SwapsIn(d, luck) then
      && e.live == d.staged && e.wal.NoLog? && e.staged.Absent?
      && if d.marker then e.before == d.before else e.before.Whole? && e.before.writes == Content(d)
    else if PutsBack(d, luck) then
      e.live == d.before && e.wal.NoLog? && e.before.Absent? && e.staged.Absent?
    else if UndoesSilently(d, luck) then
      e.live == d.live && e.before == d.before && e.staged.Absent?
    else if MoveFails(d, luck) && d.marker then
      e.live == d.live && e.before == d.before && e.staged == d.staged
    else
      && e.live.Whole? && Content(e) == Content(d)
      && e.staged == (if GivesUp(d, luck) then Absent else d.staged)
      && if d.staged.Whole? && Kept(luck) then e.before.Whole? && e.before.writes == Content(d)
         else e.before == d.before
  }

  /** Copying and keeping, on the files. */
  lemma KeepMoves(d: Disk, luck: Luck)
    requires d.live.Whole? && LogMatches(d) && d.staged.Whole? && !d.marker
    ensures var e := Run(d, KeepOps(luck));
            && e.live.Whole? && Content(e) == Content(d) && e.marker == d.marker
            && e.staged == (if Kept(luck) then d.staged else Absent)
            && if Kept(luck) then e.wal.NoLog? && e.before.Whole? && e.before.writes == Content(d)
               else e.before == d.before
  {
    var d1 := Do(d, RemoveTmp);
    CutOfOne(d, RemoveTmp, 1);
    if luck.connects {
      var d2 := Do(Do(d1, Open), BeginCopy);
      KeepOpsSplit(luck);
      assert d2.live.Whole? && Content(d2) == Content(d) && d2.tmp.Torn? && d2.before == d.before
             && d2.staged == d.staged && d2.marker == d.marker;
      RunOf2(d1, Open, BeginCopy);
      RunConcat(d, [RemoveTmp] + [Open, BeginCopy], CloseOps(luck));
      RunConcat(d, [RemoveTmp], [Open, BeginCopy]);
      hide Run, Do, CloseOps, KeepOps;
      CloseMoves(d2, luck);
    } else {
      GiveUpMoves(d1);
      RunConcat(d, [RemoveTmp], GiveUpOps());
      assert KeepOps(luck) == [RemoveTmp] + GiveUpOps();
      hide Run, KeepOps;
    }
  }

  lemma RunOf2(d: Disk, x: Op, y: Op)
    ensures Run(d, [x, y]) == Do(Do(d, x), y)
  {
    hide Do;
    CutOfOne(d, x, 1);
    RunAppend(d, [x], y);
    assert [x] + [y] == [x, y];
  }

  lemma GiveUpMoves(d: Disk)
    ensures var e := Run(d, GiveUpOps());
            e.live == d.live && e.wal == d.wal && e.before == d.before && e.marker == d.marker && e.staged.Absent?
  {
    RunOf2(d, WriteOutcome(NOT_APPLIED), RemoveStaged);
  }

  lemma ClosedIs(d: Disk, luck: Luck)
    requires d.live.Whole? && d.tmp.Torn?
    ensures var closed := Do(if luck.copies then Do(d, FinishCopy) else d, Close);
            && closed.live.Whole? && closed.wal.NoLog? && Content(closed) == Content(d) && closed.marker == d.marker
            && closed.staged == d.staged && closed.before == d.before
            && (luck.copies ==> closed.tmp.Whole? && closed.tmp.writes == Content(d))
  {
  }

  lemma CloseMoves(d: Disk, luck: Luck)
    requires d.live.Whole? && d.tmp.Torn? && luck.connects
    ensures var e := Run(d, CloseOps(luck));
            && e.live.Whole? && Content(e) == Content(d) && e.marker == d.marker
            && e.staged == (if Kept(luck) then d.staged else Absent)
            && if Kept(luck) then e.wal.NoLog? && e.before.Whole? && e.before.writes == Content(d)
               else e.before == d.before
  {
    var closed := Do(if luck.copies then Do(d, FinishCopy) else d, Close);
    var first := if luck.copies then [FinishCopy, Close] else [Close];
    var last := if Kept(luck) then [TmpOverBefore] else GiveUpOps();
    assert CloseOps(luck) == first + last;
    ClosedIs(d, luck);
    KeptMoves(closed);
    GiveUpMoves(closed);
    hide Run, CloseOps, Do, GiveUpOps;
    RunOf2(d, FinishCopy, Close);
    CutOfOne(d, Close, 1);
    RunConcat(d, first, last);
  }

  lemma KeptMoves(d: Disk)
    ensures Run(d, [TmpOverBefore]) == d.(before := d.tmp, tmp := Absent)
  {
    CutOfOne(d, TmpOverBefore, 1);
  }

  lemma SwapMoves(d: Disk, luck: Luck)
    requires d.live.Whole? && d.staged.Whole?
    ensures var e := Run(d, SwapOps(luck));
            && e.before == d.before
            && if luck.moves then e.live == d.staged && e.wal.NoLog? && e.staged.Absent?
               else e.live == d.live && e.wal.NoLog? && e.staged == d.staged
  {
    var e := Do(Do(d, RemoveWal), RemoveShm);
    RunOf2(d, RemoveWal, RemoveShm);
    if luck.moves {
      RunConcat(d, [RemoveWal, RemoveShm], [StagedOverLive]);
      CutOfOne(e, StagedOverLive, 1);
    } else {
      RunConcat(d, [RemoveWal, RemoveShm], [WriteOutcome(NOT_APPLIED), RemoveMarker]);
      RunOf2(e, WriteOutcome(NOT_APPLIED), RemoveMarker);
    }
    hide Run;
  }

  lemma MarkMoves(d: Disk, luck: Luck)
    requires d.live.Whole? && d.wal.NoLog? && d.staged.Whole?
    ensures var e := Run(d, MarkOps(luck));
            && e.before == d.before && e.wal.NoLog?
            && if luck.marks.Marked? && luck.moves then e.live == d.staged && e.staged.Absent?
               else e.live == d.live && e.staged == d.staged
  {
    match luck.marks
    case Marked =>
      CutOfOne(d, WriteMarker, 1);
      RunConcat(d, [WriteMarker], SwapOps(luck));
      SwapMoves(Do(d, WriteMarker), luck);
      hide Run;
    case NotMarked => assert Run(d, []) == d;
    case HalfMarked => CutOfOne(d, WriteMarker, 1);
  }

  lemma UndoMoves(d: Disk, luck: Luck)
    requires d.marker && d.staged.Absent?
    ensures var e := Run(d, UndoOps(d, luck));
            && e.staged.Absent?
            && if PutsBack(d, luck) then e.live == d.before && e.wal.NoLog? && e.before.Absent?
               else e.live == d.live && e.before == d.before
  {
    if d.before.Absent? {
      CutOfOne(d, RemoveMarker, 1);
      assert UndoOps(d, luck) == [RemoveMarker];
    } else {
      var e := Do(Do(d, RemoveWal), RemoveShm);
      RunOf2(d, RemoveWal, RemoveShm);
      if luck.putsBack {
        var back := PutBackOps(d);
        Unrolled(e, back);
        RunConcat(d, [RemoveWal, RemoveShm], back);
        RunAppend(d, [RemoveWal, RemoveShm] + back, RemoveMarker);
      } else {
        RunAppend(d, [RemoveWal, RemoveShm], RemoveMarker);
      }
      hide Run;
    }
  }

  lemma ApplyMoves(d: Disk, luck: Luck)
    requires d.live.Whole? && LogMatches(d) && !d.staged.Torn?
    ensures MovedTo(d, Run(d, ApplyOps(d, luck)), luck)
  {
    hide Run, Do, KeepOps, MarkOps, SwapOps, UndoOps;
    if d.marker && d.staged.Absent? {
      UndoMoves(d, luck);
    } else if d.staged.Absent? {
      assert Run(d, []) == d by { NothingRun(d); }
    } else if d.marker {
      SwapMoves(d, luck);
    } else {
      KeepMoves(d, luck);
      if Kept(luck) {
        RunConcat(d, KeepOps(luck), MarkOps(luck));
        MarkMoves(Run(d, KeepOps(luck)), luck);
      } else {
        assert KeepOps(luck) + [] == KeepOps(luck);
      }
    }
  }

  lemma NothingRun(d: Disk)
    ensures Run(d, []) == d
  {
  }

  /** For every safe disk and every start that runs to its end, what it leaves: the
      snapshot live with the old database kept whole, the old one back, or the
      database as it was, each with what was written since added; no marker; and
      something staged only where the marker or the move failed. */
  lemma StartLeaves(d: Disk, s: Start, was: seq<Write>, snap: seq<Write>)
    requires Safe(d, was, snap) && ValidStart(s) && Uncut(d, s)
    ensures d.live.Whole?
    ensures exists moved :: MovedTo(d, moved, s.luck) && Grew(moved.(marker := false), AfterStart(d, s))
  {
    SafeIsUsable(d, was, snap);
    assert !d.staged.Torn?;
    hide MovedTo, Grew, Safe, ApplyOps, Run;
    ApplyMoves(d, s.luck);
    StartIsSafe(d, s, was, snap);
    var ops := StartOps(d, s);
    assert ops[..|ops|] == ops;
  }
}
