/** Challenges waiting to be answered: a map behind a lock that `issue` lets go of
    while it draws the image (src/challenge.rs, `ChallengeStore`). Times are in
    seconds. */
module Challenges {
  import opened Options
  import opened Sets
  import opened Sorting
  import opened Text

  const CHALLENGE_TTL: nat := 180
  const MAX_PENDING: nat := 10_000
  const MAX_PENDING_PER_CLIENT: nat := 50

  /** Identifiers all have one length, so they sort as numbers do. */
  type Id = nat
  type Client = string

  datatype Pending = Pending(answer: string, dest: string, client: Client, expires: nat)
  datatype Answer = Right(dest: string) | Wrong(dest: string) | Unknown

  type Waiting = map<Id, Pending>

  function Own(m: Waiting, client: Client): set<Id> {
    set id | id in m && m[id].client == client
  }

  function Unexpired(m: Waiting, now: nat): Waiting {
    map id | id in m && m[id].expires > now :: m[id]
  }

  /** One of a client's challenges, as it is sorted. */
  datatype Entry = Entry(expires: nat, id: Id)

  predicate EntryLe(a: Entry, b: Entry) {
    a.expires < b.expires || (a.expires == b.expires && a.id <= b.id)
  }

  function EntryOf(m: Waiting, id: Id): Entry
    requires id in m
  {
    Entry(m[id].expires, id)
  }

  // ─── The two halves of `issue`, and `verify` ─────────────

  /** A client with fewer than its share keeps everything; one with its share or
      more is left one short of it, by the loss of its oldest. */
  ghost predicate RoomMade(m: Waiting, m': Waiting, client: Client) {
    && (forall id :: id in m' ==> id in m && m'[id] == m[id])
    && (forall id :: id in m && id !in m' ==> m[id].client == client)
    && (|Own(m, client)| < MAX_PENDING_PER_CLIENT ==> m' == m)
    && (|Own(m, client)| >= MAX_PENDING_PER_CLIENT ==> |Own(m', client)| == MAX_PENDING_PER_CLIENT - 1)
    && (forall lost, kept :: lost in m && lost !in m' && kept in Own(m', client) ==>
          EntryLe(EntryOf(m, lost), EntryOf(m, kept)))
  }

  /** What the check leaves, and whether it lets the challenge be drawn. */
  ghost predicate Checked(m: Waiting, m': Waiting, client: Client, now: nat, go: bool) {
    var left := if |m| >= MAX_PENDING then Unexpired(m, now) else m;
    && go == (|left| < MAX_PENDING)
    && (if go then RoomMade(left, m', client) else m' == left)
  }

  /** What an answer comes to, given as it is compared. */
  function Outcome(m: Waiting, id: Id, given: string, client: Client, now: nat): Answer {
    if id !in m || m[id].client != client || m[id].expires <= now then Unknown
    else if m[id].answer == given then Right(m[id].dest)
    else Wrong(m[id].dest)
  }

  /** What it leaves: an answer by the client itself uses the challenge up. */
  function Remaining(m: Waiting, id: Id, client: Client): Waiting {
    if id in m && m[id].client == client then m - {id} else m
  }

  /** One challenge put in, under an identifier of its own, and all else as before. */
  ghost predicate Inserted(m: Waiting, m': Waiting, id: Id, p: Pending) {
    && id in m' && m'[id] == p
    && forall other :: other != id ==> (other in m' <==> other in m) && (other in m ==> m'[other] == m[other])
  }

  class ChallengeStore {
    var inner: Waiting

    constructor ()
      ensures inner == map[]
    {
      inner := map[];
    }

    method IssueCheck(client: Client, now: nat) returns (go: bool)
      modifies this
      ensures Checked(old(inner), inner, client, now, go)
    {
      if |inner| >= MAX_PENDING {
        inner := Unexpired(inner, now);
        if |inner| >= MAX_PENDING {
          return false;
        }
      }
      MakeRoom(client);
      return true;
    }

    method MakeRoom(client: Client)
      modifies this
      ensures RoomMade(old(inner), inner, client)
    {
      hide RoomMade;
      var own := ListOwn(inner, client);
      OwnCount(inner, client, own);
      if |own| >= MAX_PENDING_PER_CLIENT {
        own := SortOwn(own, inner, client);
        OwnCount(inner, client, own);
        ghost var before := inner;
        var n := |own| - MAX_PENDING_PER_CLIENT + 1;
        for i := 0 to n
          invariant inner == Without(before, own[..i])
        {
          assert own[..i + 1] == own[..i] + [own[i]];
          inner := inner - {own[i].id};
        }
        OldestGone(before, inner, client, own, n);
      } else {
        NobodyGone(inner, client);
      }
    }

    /** From here until its time is up the client's answer to it counts, once; and
        nothing else has changed. */
    method IssueInsert(id: Id, answer: string, dest: string, client: Client, now: nat)
      modifies this
      ensures Inserted(old(inner), inner, id, Pending(answer, dest, client, now + CHALLENGE_TTL))
      ensures forall given: string, at: nat ::
                Outcome(inner, id, given, client, at)
                == if at >= now + CHALLENGE_TTL then Unknown else if given == answer then Right(dest) else Wrong(dest)
      ensures id !in old(inner) ==>
                |inner| == |old(inner)| + 1 && |Own(inner, client)| == |Own(old(inner), client)| + 1
      ensures forall whose :: id !in old(inner) && whose != client ==> Own(inner, whose) == Own(old(inner), whose)
    {
      hide Own;
      InsertedCounts(inner, id, Pending(answer, dest, client, now + CHALLENGE_TTL));
      inner := inner[id := Pending(answer, dest, client, now + CHALLENGE_TTL)];
    }

    method Verify(id: Id, given: string, client: Client, now: nat, upper: string -> string)
      returns (answer: Answer)
      modifies this
      ensures answer == Outcome(old(inner), id, upper(Trim(given)), client, now)
      ensures inner == Remaining(old(inner), id, client)
    {
      if id !in inner || inner[id].client != client {
        return Unknown;
      }
      var pending := inner[id];
      inner := inner - {id};
      if pending.expires <= now {
        return Unknown;
      }
      if pending.answer == upper(Trim(given)) {
        answer := Right(pending.dest);
      } else {
        answer := Wrong(pending.dest);
      }
    }
  }

  lemma OwnWithMore(m: Waiting, id: Id, p: Pending, whose: Client)
    requires id !in m
    ensures Own(m[id := p], whose) == Own(m, whose) + if whose == p.client then {id} else {}
  {
  }

  lemma InsertedCounts(m: Waiting, id: Id, p: Pending)
    ensures id !in m ==>
              |m[id := p]| == |m| + 1 && |Own(m[id := p], p.client)| == |Own(m, p.client)| + 1
    ensures forall whose :: id !in m && whose != p.client ==> Own(m[id := p], whose) == Own(m, whose)
  {
    if id !in m {
      assert m[id := p].Keys == m.Keys + {id};
      assert id !in Own(m, p.client);
      hide Own;
      OwnWithMore(m, id, p, p.client);
      forall whose | whose != p.client
        ensures Own(m[id := p], whose) == Own(m, whose)
      {
        OwnWithMore(m, id, p, whose);
      }
    }
  }

  // ─── One client's challenges, oldest first ───────────────

  ghost predicate ListsOwn(own: seq<Entry>, m: Waiting, client: Client) {
    Distinct(own) && forall e :: e in own <==> e.id in Own(m, client) && e == EntryOf(m, e.id)
  }

  method ListOwn(m: Waiting, client: Client) returns (own: seq<Entry>)
    ensures ListsOwn(own, m, client)
  {
    own := [];
    var left := m.Keys;
    while left != {}
      invariant left <= m.Keys && Distinct(own)
      invariant forall e :: e in own <==> e.id in Own(m, client) && e.id !in left && e == EntryOf(m, e.id)
      decreases left
    {
      ghost var some := SomeMember(left);
      var id :| id in left;
      left := left - {id};
      if m[id].client == client {
        own := own + [EntryOf(m, id)];
      }
    }
  }

  lemma EntryLeIsTotal()
    ensures TotalPreorder(EntryLe)
  {
  }

  method SortOwn(own: seq<Entry>, ghost m: Waiting, ghost client: Client) returns (sorted: seq<Entry>)
    requires ListsOwn(own, m, client)
    ensures ListsOwn(sorted, m, client) && Sorted(sorted, EntryLe)
  {
    EntryLeIsTotal();
    sorted := Sort(own, EntryLe);
    DistinctByCount(own, sorted);
    forall e
      ensures e in sorted <==> e in own
    {
      SortKeeps(own, EntryLe, e);
    }
  }

  function Without(m: Waiting, gone: seq<Entry>): Waiting {
    map id | id in m && (forall i :: 0 <= i < |gone| ==> gone[i].id != id) :: m[id]
  }

  function Ids(own: seq<Entry>): set<Id> { set e | e in own :: e.id }

  lemma {:induction false} IdsCount(own: seq<Entry>, m: Waiting)
    requires Distinct(own) && forall e :: e in own ==> e.id in m && e == EntryOf(m, e.id)
    ensures |Ids(own)| == |own|
  {
    if own == [] {
      assert Ids(own) == {};
    } else {
      var n := |own| - 1;
      IdsCount(own[..n], m);
      OneMoreId(own);
      LastIdIsNew(own, m);
      hide Ids;
    }
  }

  lemma OneMoreId(own: seq<Entry>)
    requires own != []
    ensures Ids(own) == Ids(own[..|own| - 1]) + {own[|own| - 1].id}
  {
    assert own == own[..|own| - 1] + [own[|own| - 1]];
  }

  lemma LastIdIsNew(own: seq<Entry>, m: Waiting)
    requires own != [] && Distinct(own) && forall e :: e in own ==> e.id in m && e == EntryOf(m, e.id)
    ensures own[|own| - 1].id !in Ids(own[..|own| - 1])
  {
    var front, last := own[..|own| - 1], own[|own| - 1];
    forall e | e in front
      ensures e.id != last.id
    {
      var i :| 0 <= i < |front| && front[i] == e;
      assert own[i] == e && e in own && last in own;
    }
  }

  lemma OwnCount(m: Waiting, client: Client, own: seq<Entry>)
    requires ListsOwn(own, m, client)
    ensures |own| == |Own(m, client)|
  {
    IdsCount(own, m);
    forall id | id in Own(m, client)
      ensures id in Ids(own)
    {
      assert EntryOf(m, id) in own;
    }
    assert Ids(own) == Own(m, client);
  }

  lemma NobodyGone(m: Waiting, client: Client)
    requires |Own(m, client)| < MAX_PENDING_PER_CLIENT
    ensures RoomMade(m, m, client)
  {
  }

  lemma OldestGone(m: Waiting, m': Waiting, client: Client, own: seq<Entry>, n: nat)
    requires ListsOwn(own, m, client) && Sorted(own, EntryLe)
    requires |own| == |Own(m, client)| >= MAX_PENDING_PER_CLIENT
    requires n == |own| - MAX_PENDING_PER_CLIENT + 1 && m' == Without(m, own[..n])
    ensures RoomMade(m, m', client)
  {
    KeptOwn(m, m', client, own, n);
    hide Sorted, EntryLe;
    forall lost | lost in m && lost !in m'
      ensures exists i :: 0 <= i < n && own[i].id == lost && own[i] == EntryOf(m, lost) && m[lost].client == client
    {
      var i :| 0 <= i < |own[..n]| && own[..n][i].id == lost;
      assert own[i] in own;
    }
    forall lost, kept | lost in m && lost !in m' && kept in Own(m', client)
      ensures EntryLe(EntryOf(m, lost), EntryOf(m, kept))
    {
      var i :| 0 <= i < n && own[i].id == lost && own[i] == EntryOf(m, lost);
      var e := EntryOf(m, kept);
      assert e in own[n..];
      var j :| n <= j < |own| && own[j] == e;
      InOrder(own, i, j);
    }
  }

  lemma InOrder(own: seq<Entry>, i: nat, j: nat)
    requires Sorted(own, EntryLe) && i < j < |own|
    ensures EntryLe(own[i], own[j])
  {
  }

  /** The entries not removed are the client's, one short of its share. */
  lemma KeptOwn(m: Waiting, m': Waiting, client: Client, own: seq<Entry>, n: nat)
    requires ListsOwn(own, m, client) && n <= |own| && m' == Without(m, own[..n])
    ensures forall id :: id in Own(m', client) ==> id in m && EntryOf(m, id) in own[n..]
    ensures |Own(m', client)| == |own| - n
  {
    var kept := own[n..];
    forall id | id in Own(m', client)
      ensures EntryOf(m, id) in kept
    {
      var e := EntryOf(m, id);
      assert e in own && e !in own[..n];
      assert own == own[..n] + kept;
    }
    forall e | e in kept
      ensures e.id in Own(m', client)
    {
      var j :| 0 <= j < |kept| && kept[j] == e;
      assert own[n + j] == e;
      assert e in own;
      forall i | 0 <= i < n
        ensures own[..n][i].id != e.id
      {
        assert own[i] in own && own[i] != own[n + j];
      }
    }
    assert Ids(kept) == Own(m', client) by {
      assert forall id :: id in Own(m', client) ==> EntryOf(m, id) in kept;
    }
    assert forall e :: e in kept ==> e in own;
    IdsCount(kept, m);
  }

  lemma LostIsOlder(m: Waiting, m': Waiting, client: Client, lost: Id, kept: Id)
    requires RoomMade(m, m', client) && lost in m && lost !in m' && kept in Own(m', client)
    ensures kept in m && EntryLe(EntryOf(m, lost), EntryOf(m, kept))
  {
  }

  lemma RoomSize(m: Waiting, m': Waiting, client: Client)
    requires RoomMade(m, m', client) && |Own(m, client)| >= MAX_PENDING_PER_CLIENT
    ensures |Own(m', client)| == MAX_PENDING_PER_CLIENT - 1 && Own(m', client) <= Own(m, client)
    ensures forall id :: id in Own(m, client) && id in m' ==> id in Own(m', client)
  {
  }

  lemma InFirstOnly(a: set<Id>, b: set<Id>) returns (x: Id)
    requires |a| == |b| && a != b
    ensures x in a && x !in b
  {
    if a <= b { SubsetOfSameSize(a, b); }
    x :| x in a && x !in b;
  }

  lemma SameOwn(m: Waiting, m1: Waiting, m2: Waiting, client: Client)
    requires RoomMade(m, m1, client) && RoomMade(m, m2, client)
    requires |Own(m, client)| >= MAX_PENDING_PER_CLIENT
    ensures Own(m1, client) == Own(m2, client)
  {
    hide RoomMade;
    RoomSize(m, m1, client);
    RoomSize(m, m2, client);
    var a, b := Own(m1, client), Own(m2, client);
    if a != b {
      var x := InFirstOnly(a, b);
      var y := InFirstOnly(b, a);
      LostIsOlder(m, m2, client, x, y);
      LostIsOlder(m, m1, client, y, x);
      assert false;
    }
  }

  /** What the check leaves is settled: no two outcomes are allowed. */
  lemma RoomIsDetermined(m: Waiting, m1: Waiting, m2: Waiting, client: Client)
    requires RoomMade(m, m1, client) && RoomMade(m, m2, client)
    ensures m1 == m2
  {
    if |Own(m, client)| >= MAX_PENDING_PER_CLIENT {
      SameOwn(m, m1, m2, client);
      hide EntryLe;
      var a := Own(m1, client);
      assert forall id :: id in m1 <==> id in m && (m[id].client == client ==> id in a);
      assert forall id :: id in m2 <==> id in m && (m[id].client == client ==> id in Own(m2, client));
    }
  }

  // ─── Every interleaving ──────────────────────────────────

  /** What a request for a challenge was about. */
  datatype Call = Call(client: Client, dest: string)

  /** The store, the calls between their check and their insert, and (for the
      record only) what every identifier ever drawn was issued for. */
  datatype State = State(pending: Waiting, flying: map<nat, Call>, issued: map<Id, Call>)

  datatype Event =
    | Check(call: nat, client: Client, dest: string, now: nat, go: bool)
    | Insert(call: nat, id: Id, solution: string, now: nat)
    | Verify(id: Id, given: string, client: Client, now: nat, answer: Answer)

  /** The challenge a call ends with. */
  function Issued(c: Call, solution: string, now: nat): Pending {
    Pending(solution, c.dest, c.client, now + CHALLENGE_TTL)
  }

  ghost predicate Step(s: State, e: Event, s': State) {
    match e
    case Check(call, client, dest, now, go) =>
      && call !in s.flying && Checked(s.pending, s'.pending, client, now, go)
      && s'.flying == (if go then s.flying[call := Call(client, dest)] else s.flying)
      && s'.issued == s.issued
    // An identifier is 128 random bits: never drawn twice.
    case Insert(call, id, solution, now) =>
      && call in s.flying && id !in s.issued
      && Inserted(s.pending, s'.pending, id, Issued(s.flying[call], solution, now))
      && s'.flying == s.flying - {call}
      && s'.issued == s.issued[id := s.flying[call]]
    case Verify(id, given, client, now, answer) =>
      && answer == Outcome(s.pending, id, given, client, now)
      && s'.pending == Remaining(s.pending, id, client)
      && s'.flying == s.flying && s'.issued == s.issued
  }

  const EMPTY := State(map[], map[], map[])

  ghost predicate IsRun(states: seq<State>, events: seq<Event>) {
    && |states| == |events| + 1 && states[0] == EMPTY
    && forall i: nat :: i < |events| ==> Step(states[i], events[i], states[i + 1])
  }

  /** At most `k` calls are ever between their check and their insert. */
  ghost predicate AtOnce(states: seq<State>, k: nat) {
    forall i: nat :: i < |states| ==> |states[i].flying| <= k
  }

  function FlyingOf(flying: map<nat, Call>, client: Client): set<nat> {
    set call | call in flying && flying[call].client == client
  }

  // ─── How many wait ───────────────────────────────────────

  lemma SubmapSize(a: Waiting, b: Waiting)
    requires a.Keys <= b.Keys
    ensures |a| <= |b|
  {
    SubsetSize(a.Keys, b.Keys);
  }

  lemma CheckedSize(m: Waiting, m': Waiting, client: Client, now: nat, go: bool)
    requires Checked(m, m', client, now, go)
    ensures |m'| <= |m| && (go ==> |m'| < MAX_PENDING)
  {
    hide Own, EntryLe;
    var left := if |m| >= MAX_PENDING then Unexpired(m, now) else m;
    SubmapSize(left, m);
    SubmapSize(m', left);
  }

  lemma InsertedIs(m: Waiting, m': Waiting, id: Id, p: Pending)
    requires Inserted(m, m', id, p)
    ensures m' == m[id := p]
  {
  }

  lemma InsertedSizes(s: State, call: nat, id: Id, p: Pending)
    requires call in s.flying
    ensures |s.pending[id := p]| <= |s.pending| + 1 && |s.flying - {call}| == |s.flying| - 1
  {
    assert s.pending[id := p].Keys == s.pending.Keys + {id};
    SubsetSize(s.pending.Keys + {id}, s.pending.Keys + {id});
    assert (s.flying - {call}).Keys == s.flying.Keys - {call};
  }

  lemma StepKeepsStoreBound(s: State, e: Event, s': State, k: nat)
    requires Step(s, e, s') && |s.pending| + |s.flying| <= MAX_PENDING - 1 + k
    requires |s'.flying| <= k
    ensures |s'.pending| + |s'.flying| <= MAX_PENDING - 1 + k
  {
    hide Checked, Unexpired;
    match e
    case Check(_, client, _, now, go) => CheckedSize(s.pending, s'.pending, client, now, go);
    case Insert(call, id, solution, now) =>
      InsertedIs(s.pending, s'.pending, id, Issued(s.flying[call], solution, now));
      InsertedSizes(s, call, id, Issued(s.flying[call], solution, now));
    case Verify(id, _, client, _, _) => SubmapSize(s'.pending, s.pending);
  }

  /** With at most `k` calls between check and insert at once, the store exceeds
      its limit by less than `k`. */
  lemma {:induction false} StoreIsBounded(states: seq<State>, events: seq<Event>, k: nat, i: nat)
    requires IsRun(states, events) && AtOnce(states, k) && i < |states|
    ensures |states[i].pending| + |states[i].flying| <= MAX_PENDING - 1 + k
  {
    hide Step;
    if i > 0 {
      StoreIsBounded(states, events, k, i - 1);
      StepKeepsStoreBound(states[i - 1], events[i - 1], states[i], k);
    }
  }

  lemma CheckedOwn(m: Waiting, m': Waiting, client: Client, now: nat, go: bool, whose: Client)
    requires Checked(m, m', client, now, go)
    ensures |Own(m', whose)| <= |Own(m, whose)|
    ensures go && whose == client ==> |Own(m', whose)| < MAX_PENDING_PER_CLIENT
  {
    hide EntryLe;
    SubsetSize(Own(m', whose), Own(m, whose));
  }

  lemma InsertedOwn(s: State, call: nat, id: Id, p: Pending, whose: Client)
    requires call in s.flying && p.client == s.flying[call].client
    ensures |Own(s.pending[id := p], whose)| <= |Own(s.pending, whose)| + if p.client == whose then 1 else 0
    ensures |FlyingOf(s.flying - {call}, whose)| == |FlyingOf(s.flying, whose)| - if p.client == whose then 1 else 0
  {
    assert FlyingOf(s.flying - {call}, whose) == FlyingOf(s.flying, whose) - {call};
    if p.client == whose {
      SubsetSize(Own(s.pending[id := p], whose), Own(s.pending, whose) + {id});
    } else {
      SubsetSize(Own(s.pending[id := p], whose), Own(s.pending, whose));
    }
  }

  lemma StepKeepsClientBound(s: State, e: Event, s': State, whose: Client, k: nat)
    requires Step(s, e, s')
    requires |Own(s.pending, whose)| + |FlyingOf(s.flying, whose)| <= MAX_PENDING_PER_CLIENT - 1 + k
    requires |FlyingOf(s'.flying, whose)| <= k
    ensures |Own(s'.pending, whose)| + |FlyingOf(s'.flying, whose)| <= MAX_PENDING_PER_CLIENT - 1 + k
  {
    hide Checked, Own;
    match e
    case Check(call, client, dest, now, go) =>
      CheckedOwn(s.pending, s'.pending, client, now, go, whose);
      if go && client != whose {
        assert FlyingOf(s'.flying, whose) == FlyingOf(s.flying, whose);
      }
    case Insert(call, id, solution, now) =>
      InsertedIs(s.pending, s'.pending, id, Issued(s.flying[call], solution, now));
      InsertedOwn(s, call, id, Issued(s.flying[call], solution, now), whose);
    case Verify(id, _, client, _, _) => RemainingOwn(s.pending, id, client, whose);
  }

  lemma RemainingOwn(m: Waiting, id: Id, client: Client, whose: Client)
    ensures |Own(Remaining(m, id, client), whose)| <= |Own(m, whose)|
  {
    SubsetSize(Own(Remaining(m, id, client), whose), Own(m, whose));
  }

  /** And one address its share, by its own calls only. */
  lemma {:induction false} ClientIsBounded(states: seq<State>, events: seq<Event>, whose: Client, k: nat, i: nat)
    requires IsRun(states, events) && i < |states|
    requires forall j: nat :: j < |states| ==> |FlyingOf(states[j].flying, whose)| <= k
    ensures |Own(states[i].pending, whose)| + |FlyingOf(states[i].flying, whose)| <= MAX_PENDING_PER_CLIENT - 1 + k
  {
    hide Step;
    if i == 0 {
      assert Own(EMPTY.pending, whose) == {} && FlyingOf(EMPTY.flying, whose) == {};
    } else {
      hide Own, FlyingOf;
      ClientIsBounded(states, events, whose, k, i - 1);
      StepKeepsClientBound(states[i - 1], events[i - 1], states[i], whose, k);
    }
  }

  // ─── Who answers what ────────────────────────────────────

  /** Everything waiting was issued, to the same client and for the same page. */
  ghost predicate Recorded(s: State) {
    forall id :: id in s.pending ==>
      id in s.issued && s.issued[id] == Call(s.pending[id].client, s.pending[id].dest)
  }

  lemma CheckedIsSubmap(m: Waiting, m': Waiting, client: Client, now: nat, go: bool)
    requires Checked(m, m', client, now, go)
    ensures forall id :: id in m' ==> id in m && m'[id] == m[id]
  {
    hide Own, EntryLe;
  }

  lemma StepKeepsRecorded(s: State, e: Event, s': State)
    requires Step(s, e, s') && Recorded(s)
    ensures Recorded(s')
  {
    hide Checked, Outcome;
    if e.Check? { CheckedIsSubmap(s.pending, s'.pending, e.client, e.now, e.go); }
  }

  lemma {:induction false} RunsAreRecorded(states: seq<State>, events: seq<Event>, i: nat)
    requires IsRun(states, events) && i < |states|
    ensures Recorded(states[i])
  {
    hide Step, Recorded;
    if i == 0 {
      NothingRecorded();
    } else {
      RunsAreRecorded(states, events, i - 1);
      StepKeepsRecorded(states[i - 1], events[i - 1], states[i]);
    }
  }

  lemma NothingRecorded()
    ensures Recorded(EMPTY)
  {
  }

  predicate UsedUp(s: State, id: Id) { id in s.issued && id !in s.pending }

  lemma StepKeepsUsedUp(s: State, e: Event, s': State, id: Id)
    requires Step(s, e, s') && UsedUp(s, id)
    ensures UsedUp(s', id)
  {
    hide Checked, Outcome;
    if e.Check? { CheckedIsSubmap(s.pending, s'.pending, e.client, e.now, e.go); }
  }

  lemma {:induction false} UsedUpForGood(states: seq<State>, events: seq<Event>, id: Id, i: nat, j: nat)
    requires IsRun(states, events) && i <= j < |states| && UsedUp(states[i], id)
    ensures UsedUp(states[j], id)
    decreases j
  {
    hide Step, UsedUp;
    if i < j {
      UsedUpForGood(states, events, id, i, j - 1);
      StepKeepsUsedUp(states[j - 1], events[j - 1], states[j], id);
    }
  }

  /** A challenge is answered, rightly or wrongly, at most once. */
  lemma AnsweredAtMostOnce(states: seq<State>, events: seq<Event>, i: nat, j: nat)
    requires IsRun(states, events) && i < j < |events|
    requires events[i].Verify? && events[i].answer != Unknown
    requires events[j].Verify? && events[j].answer != Unknown
    ensures events[i].id != events[j].id
  {
    var id := events[i].id;
    RunsAreRecorded(states, events, i);
    assert Step(states[i], events[i], states[i + 1]) && Step(states[j], events[j], states[j + 1]);
    assert UsedUp(states[i + 1], id);
    UsedUpForGood(states, events, id, i + 1, j);
  }

  // ─── What a full store lets through ──────────────────────

  /** Whether a check has to sweep: the store is full when it comes. */
  ghost predicate Full(s: State) { |s.pending| >= MAX_PENDING }

  lemma SweptKeys(m: Waiting, now: nat)
    ensures Unexpired(m, now).Keys == set id | id in m && m[id].expires > now
  {
  }

  /** In every run, a call is refused exactly when as many challenges as the store may
      hold, or more, are waiting that have not expired: expired ones refuse nobody. */
  lemma RefusedIff(states: seq<State>, events: seq<Event>, i: nat)
    requires IsRun(states, events) && i < |events| && events[i].Check?
    ensures !events[i].go <==>
            |set id | id in states[i].pending && states[i].pending[id].expires > events[i].now| >= MAX_PENDING
  {
    hide RoomMade;
    assert Step(states[i], events[i], states[i + 1]);
    var m, now := states[i].pending, events[i].now;
    SweptKeys(m, now);
    SubmapSize(Unexpired(m, now), m);
    assert |Unexpired(m, now)| == |Unexpired(m, now).Keys|;
  }

  /** A client's challenges, all or the unexpired. */
  ghost function OwnLeft(m: Waiting, client: Client, swept: bool, now: nat): set<Id> {
    set id | id in m && m[id].client == client && (swept ==> m[id].expires > now)
  }

  lemma OwnLeftIsOwn(m: Waiting, client: Client, swept: bool, now: nat)
    ensures OwnLeft(m, client, swept, now) == Own(if swept then Unexpired(m, now) else m, client)
  {
  }

  /** Both wait, and the first runs out first, or has the lesser identifier. */
  ghost predicate Older(m: Waiting, lost: Id, kept: Id) {
    && lost in m && kept in m
    && (m[lost].expires < m[kept].expires || (m[lost].expires == m[kept].expires && lost < kept))
  }

  /** What a check leaves: of other clients' challenges all, or all unexpired if the
      store was full; of the client's own no more of either kind, and if it is let
      through as many as there are, or one short of its share, those that go being
      older than any that stays. */
  lemma CheckLeaves(states: seq<State>, events: seq<Event>, i: nat)
    requires IsRun(states, events) && i < |events| && events[i].Check?
    ensures forall id :: id in states[i + 1].pending ==>
              && id in states[i].pending && states[i + 1].pending[id] == states[i].pending[id]
              && (Full(states[i]) ==> states[i].pending[id].expires > events[i].now)
    ensures forall id :: id in states[i].pending && states[i].pending[id].client != events[i].client ==>
              (id in states[i + 1].pending
               <==> !Full(states[i]) || states[i].pending[id].expires > events[i].now)
    ensures events[i].go ==>
              var e, was := events[i], OwnLeft(states[i].pending, events[i].client, Full(states[i]), events[i].now);
              |OwnLeft(states[i + 1].pending, e.client, false, e.now)|
              == if |was| < MAX_PENDING_PER_CLIENT then |was| else MAX_PENDING_PER_CLIENT - 1
    ensures forall lost, kept ::
              && lost in OwnLeft(states[i].pending, events[i].client, Full(states[i]), events[i].now)
              && lost !in states[i + 1].pending
              && kept in OwnLeft(states[i + 1].pending, events[i].client, false, events[i].now)
              ==> Older(states[i].pending, lost, kept)
  {
    hide EntryLe;
    assert Step(states[i], events[i], states[i + 1]);
    OwnLeftIsOwn(states[i].pending, events[i].client, Full(states[i]), events[i].now);
    OwnLeftIsOwn(states[i + 1].pending, events[i].client, false, events[i].now);
    OldestGo(states, events, i);
  }

  lemma OldestGo(states: seq<State>, events: seq<Event>, i: nat)
    requires IsRun(states, events) && i < |events| && events[i].Check?
    ensures forall lost, kept ::
              && lost in OwnLeft(states[i].pending, events[i].client, Full(states[i]), events[i].now)
              && lost !in states[i + 1].pending
              && kept in OwnLeft(states[i + 1].pending, events[i].client, false, events[i].now)
              ==> Older(states[i].pending, lost, kept)
  {
    assert Step(states[i], events[i], states[i + 1]);
    var e, m, m' := events[i], states[i].pending, states[i + 1].pending;
    hide OwnLeft, Checked, Older;
    forall lost, kept | lost in OwnLeft(m, e.client, Full(states[i]), e.now) && lost !in m'
                        && kept in OwnLeft(m', e.client, false, e.now)
      ensures Older(m, lost, kept)
    {
      OlderGoes(m, m', e.client, e.now, e.go, lost, kept);
    }
  }

  lemma OlderGoes(m: Waiting, m': Waiting, client: Client, now: nat, go: bool, lost: Id, kept: Id)
    requires Checked(m, m', client, now, go)
    requires lost in OwnLeft(m, client, |m| >= MAX_PENDING, now) && lost !in m'
    requires kept in OwnLeft(m', client, false, now)
    ensures Older(m, lost, kept)
  {
    var left := if |m| >= MAX_PENDING then Unexpired(m, now) else m;
    assert lost in left && left[lost] == m[lost];
    if go {
      assert kept in Own(m', client);
      hide RoomMade;
      LostIsOlder(left, m', client, lost, kept);
      assert left[kept] == m[kept];
    }
  }

  /** One attempt: once its own client has answered, in time or not, rightly or not,
      no answer to a challenge counts; another client's answer changes nothing. */
  lemma OneAttempt(states: seq<State>, events: seq<Event>, i: nat, j: nat)
    requires IsRun(states, events) && i < j < |events| && events[i].Verify? && events[i].id in states[i].pending
    ensures events[i].client != states[i].pending[events[i].id].client ==>
              states[i + 1] == states[i] && events[i].answer == Unknown
    ensures events[i].client == states[i].pending[events[i].id].client ==>
              events[j].Verify? && events[j].id == events[i].id ==> events[j].answer == Unknown
  {
    hide Checked;
    var id := events[i].id;
    RunsAreRecorded(states, events, i);
    assert Step(states[i], events[i], states[i + 1]) && Step(states[j], events[j], states[j + 1]);
    if events[i].client == states[i].pending[id].client {
      assert UsedUp(states[i + 1], id);
      UsedUpForGood(states, events, id, i + 1, j);
    }
  }

  ghost predicate CheckedAt(events: seq<Event>, a: nat, call: nat, c: Call) {
    a < |events| && events[a].Check? && events[a].go && events[a].call == call
    && Call(events[a].client, events[a].dest) == c
  }

  /** A call in flight was let through. */
  lemma {:induction false} FlightIsChecked(states: seq<State>, events: seq<Event>, call: nat, i: nat) returns (a: nat)
    requires IsRun(states, events) && i < |states| && call in states[i].flying
    ensures a < i && CheckedAt(events, a, call, states[i].flying[call])
  {
    hide Checked, Outcome;
    assert i > 0;
    assert Step(states[i - 1], events[i - 1], states[i]);
    var e := events[i - 1];
    if e.Check? && e.go && e.call == call {
      a := i - 1;
    } else {
      a := FlightIsChecked(states, events, call, i - 1);
    }
  }

  ghost predicate InsertedAt(states: seq<State>, events: seq<Event>, b: nat, id: Id, c: Call, p: Pending)
    requires IsRun(states, events)
  {
    && b < |events| && events[b].Insert? && events[b].id == id
    && events[b].call in states[b].flying && states[b].flying[events[b].call] == c
    && p == Pending(events[b].solution, c.dest, c.client, events[b].now + CHALLENGE_TTL)
  }

  lemma {:induction false} WaitingIsInserted(states: seq<State>, events: seq<Event>, id: Id, i: nat) returns (b: nat)
    requires IsRun(states, events) && i < |states| && id in states[i].pending
    ensures b < i && InsertedAt(states, events, b, id,
                                Call(states[i].pending[id].client, states[i].pending[id].dest), states[i].pending[id])
  {
    hide Checked, Outcome;
    assert i > 0;
    assert Step(states[i - 1], events[i - 1], states[i]);
    var e := events[i - 1];
    if e.Insert? && e.id == id {
      b := i - 1;
    } else {
      if e.Check? {
        CheckedIsSubmap(states[i - 1].pending, states[i].pending, e.client, e.now, e.go);
      }
      b := WaitingIsInserted(states, events, id, i - 1);
    }
  }

  /** An answer counts only for the client the challenge was issued to, while it
      lasts, against the solution drawn for it, and leads where that client was
      going. */
  lemma AnswersBelong(states: seq<State>, events: seq<Event>, i: nat) returns (a: nat, b: nat)
    requires IsRun(states, events) && i < |events| && events[i].Verify? && events[i].answer != Unknown
    ensures a < b < i
    ensures events[a].Check? && events[a].go && events[b].Insert? && events[b].call == events[a].call
    ensures events[b].id == events[i].id && events[a].client == events[i].client
    ensures events[i].now < events[b].now + CHALLENGE_TTL
    ensures events[i].answer == if events[b].solution == events[i].given
                                then Right(events[a].dest) else Wrong(events[a].dest)
  {
    assert Step(states[i], events[i], states[i + 1]);
    hide Checked, IsRun;
    b := WaitingIsInserted(states, events, events[i].id, i);
    a := FlightIsChecked(states, events, events[b].call, b);
  }

  /** What can take a challenge away: its own client's answer, its own client
      asking for another, or its time running out. */
  predicate Takes(e: Event, id: Id, p: Pending) {
    || (e.Verify? && e.id == id && e.client == p.client)
    || (e.Check? && (e.client == p.client || e.now >= p.expires))
  }

  lemma StepKeepsChallenge(s: State, e: Event, s': State, id: Id)
    requires Step(s, e, s') && Recorded(s) && id in s.pending && !Takes(e, id, s.pending[id])
    ensures id in s'.pending && s'.pending[id] == s.pending[id]
  {
    hide Outcome, Own, EntryLe;
  }

  /** No other client can use up a challenge or push it out. */
  lemma {:induction false} OthersCannotTakeIt(states: seq<State>, events: seq<Event>, id: Id, i: nat, j: nat)
    requires IsRun(states, events) && i <= j < |states| && id in states[i].pending
    requires forall n: nat :: i <= n < j ==> !Takes(events[n], id, states[i].pending[id])
    ensures id in states[j].pending && states[j].pending[id] == states[i].pending[id]
    decreases j
  {
    hide Step, Takes;
    if i < j {
      OthersCannotTakeIt(states, events, id, i, j - 1);
      RunsAreRecorded(states, events, j - 1);
      StepKeepsChallenge(states[j - 1], events[j - 1], states[j], id);
    }
  }

  /** And so the client's own answer in time is judged by its solution, unless it
      has answered before or asked again. */
  lemma OwnAnswerCounts(states: seq<State>, events: seq<Event>, b: nat, i: nat)
    requires IsRun(states, events) && b < i < |events| && events[b].Insert? && events[i].Verify?
    requires events[b].call in states[b].flying && events[i].id == events[b].id
    requires var c := states[b].flying[events[b].call];
             && events[i].client == c.client && events[i].now < events[b].now + CHALLENGE_TTL
             && forall n: nat :: b < n < i ==>
                  !Takes(events[n], events[b].id, Issued(c, events[b].solution, events[b].now))
    ensures var c := states[b].flying[events[b].call];
            events[i].answer == if events[b].solution == events[i].given then Right(c.dest) else Wrong(c.dest)
  {
    assert Step(states[b], events[b], states[b + 1]) && Step(states[i], events[i], states[i + 1]);
    hide Takes, Checked;
    OthersCannotTakeIt(states, events, events[b].id, b + 1, i);
  }

  // ─── The bounds are reached ──────────────────────────────

  /** After `n` challenges for the clients `name` gives, and `more` calls let
      through and not yet inserted. */
  function Filled(n: nat, more: nat, name: nat -> Client): State {
    State(map id: nat | id < n :: Pending("", "", name(id), CHALLENGE_TTL),
          map call: nat | n <= call < n + more :: Call(name(call), ""),
          map id: nat | id < n :: Call(name(id), ""))
  }

  /** The check lets the next client's call through. */
  ghost predicate LetsThrough(n: nat, name: nat -> Client, top: nat) {
    n <= top ==> n < MAX_PENDING && forall client :: |Own(Filled(n, 0, name).pending, client)| < MAX_PENDING_PER_CLIENT
  }

  ghost predicate Ends(states: seq<State>, events: seq<Event>, s: State, k: nat) {
    IsRun(states, events) && AtOnce(states, k) && states[|states| - 1] == s
  }

  lemma {:induction false} Upto(n: nat) returns (s: set<nat>)
    ensures |s| == n && forall id: nat :: id in s <==> id < n
  {
    if n == 0 {
      s := {};
    } else {
      var before := Upto(n - 1);
      s := before + {n - 1};
    }
  }

  lemma PendingCount(n: nat, more: nat, name: nat -> Client)
    ensures |Filled(n, more, name).pending| == n
  {
    var s := Upto(n);
    assert Filled(n, more, name).pending.Keys == s;
  }

  lemma FlyingCount(n: nat, more: nat, name: nat -> Client)
    ensures |Filled(n, more, name).flying| == more
  {
    var f := Filled(n, more, name).flying;
    if more == 0 {
      assert f == map[];
    } else {
      FlyingCount(n, more - 1, name);
      assert f == Filled(n, more - 1, name).flying[n + more - 1 := Call(name(n + more - 1), "")];
    }
  }

  lemma LetThrough(m: Waiting, client: Client)
    requires |m| < MAX_PENDING && |Own(m, client)| < MAX_PENDING_PER_CLIENT
    ensures Checked(m, m, client, 0, true)
  {
    NobodyGone(m, client);
    hide RoomMade, Own;
  }

  lemma OneMoreFlying(n: nat, more: nat, name: nat -> Client)
    ensures var s, s' := Filled(n, more, name), Filled(n, more + 1, name);
            && s'.flying == s.flying[n + more := Call(name(n + more), "")] && n + more !in s.flying
            && s'.pending == s.pending && s'.issued == s.issued
            && s.pending == Filled(n, 0, name).pending
  {
  }

  lemma CheckStep(n: nat, more: nat, name: nat -> Client)
    requires LetsThrough(n, name, n)
    ensures Step(Filled(n, more, name), Check(n + more, name(n + more), "", 0, true), Filled(n, more + 1, name))
  {
    PendingCount(n, more, name);
    OneMoreFlying(n, more, name);
    hide Own, Filled, Checked;
    LetThrough(Filled(n, more, name).pending, name(n + more));
  }

  lemma InsertStep(n: nat, more: nat, name: nat -> Client)
    requires more > 0
    ensures Step(Filled(n, more, name), Insert(n, n, "", 0), Filled(n + 1, more - 1, name))
  {
    var s, s' := Filled(n, more, name), Filled(n + 1, more - 1, name);
    assert s'.pending == s.pending[n := Pending("", "", name(n), CHALLENGE_TTL)];
    assert s'.flying == s.flying - {n};
    assert s'.issued == s.issued[n := Call(name(n), "")];
  }

  lemma Extend(states: seq<State>, events: seq<Event>, s: State, e: Event, s': State, k: nat)
    requires Ends(states, events, s, k) && Step(s, e, s') && |s'.flying| <= k
    ensures Ends(states + [s'], events + [e], s', k)
  {
    hide Step;
  }

  /** A call let through and inserted, with none in between. */
  lemma OneCall(before: seq<State>, done: seq<Event>, n: nat, name: nat -> Client, k: nat)
    returns (states: seq<State>, events: seq<Event>)
    requires Ends(before, done, Filled(n, 0, name), k) && LetsThrough(n, name, n) && k >= 1
    ensures Ends(states, events, Filled(n + 1, 0, name), k)
  {
    CheckStep(n, 0, name);
    InsertStep(n, 1, name);
    FlyingCount(n, 1, name);
    FlyingCount(n + 1, 0, name);
    hide Step, LetsThrough, Ends, Filled;
    var s, s1, s2 := Filled(n, 0, name), Filled(n, 1, name), Filled(n + 1, 0, name);
    var e1, e2 := Check(n, name(n), "", 0, true), Insert(n, n, "", 0);
    Extend(before, done, s, e1, s1, k);
    Extend(before + [s1], done + [e1], s1, e2, s2, k);
    states, events := before + [s1] + [s2], done + [e1] + [e2];
  }

  lemma NothingFilled(name: nat -> Client, k: nat)
    ensures Ends([EMPTY], [], Filled(0, 0, name), k)
  {
    assert Filled(0, 0, name) == EMPTY;
  }

  /** One call at a time, up to `n`. */
  lemma {:induction false} FillUp(n: nat, name: nat -> Client, top: nat, k: nat)
    returns (states: seq<State>, events: seq<Event>)
    requires n <= top + 1 && k >= 1 && forall i: nat :: LetsThrough(i, name, top)
    ensures Ends(states, events, Filled(n, 0, name), k)
  {
    hide Step, LetsThrough, Ends, Filled;
    if n == 0 {
      states, events := [EMPTY], [];
      NothingFilled(name, k);
    } else {
      states, events := FillUp(n - 1, name, top, k);
      LetsThroughAt(n - 1, name, top);
      states, events := OneCall(states, events, n - 1, name, k);
    }
  }

  lemma LetsThroughAt(n: nat, name: nat -> Client, top: nat)
    requires LetsThrough(n, name, top) && n <= top
    ensures LetsThrough(n, name, n)
  {
  }

  /** Then `more` calls let through before any is inserted. */
  lemma {:induction false} Crowd(more: nat, name: nat -> Client, top: nat, k: nat)
    returns (states: seq<State>, events: seq<Event>)
    requires k >= 1 && more <= k && forall i: nat :: LetsThrough(i, name, top)
    ensures Ends(states, events, Filled(top, more, name), k)
  {
    hide Step, LetsThrough, Ends, Filled;
    if more == 0 {
      states, events := FillUp(top, name, top, k);
    } else {
      states, events := Crowd(more - 1, name, top, k);
      LetsThroughAt(top, name, top);
      CheckStep(top, more - 1, name);
      FlyingCount(top, more, name);
      var e := Check(top + more - 1, name(top + more - 1), "", 0, true);
      Extend(states, events, Filled(top, more - 1, name), e, Filled(top, more, name), k);
      states, events := states + [Filled(top, more, name)], events + [e];
    }
  }

  /** And all of them inserted. */
  lemma {:induction false} Land(landed: nat, name: nat -> Client, top: nat, k: nat)
    returns (states: seq<State>, events: seq<Event>)
    requires k >= 1 && landed <= k && forall i: nat :: LetsThrough(i, name, top)
    ensures Ends(states, events, Filled(top + landed, k - landed, name), k)
  {
    hide Step, LetsThrough, Ends, Filled;
    if landed == 0 {
      states, events := Crowd(k, name, top, k);
    } else {
      states, events := Land(landed - 1, name, top, k);
      var n, more := top + landed - 1, k - landed + 1;
      InsertStep(n, more, name);
      FlyingCount(n + 1, more - 1, name);
      var e := Insert(n, n, "", 0);
      Extend(states, events, Filled(n, more, name), e, Filled(n + 1, more - 1, name), k);
      states, events := states + [Filled(n + 1, more - 1, name)], events + [e];
    }
  }

  function Always(client: Client): nat -> Client { (i: nat) => client }

  lemma OwnOfAlways(n: nat, client: Client, whose: Client)
    ensures |Own(Filled(n, 0, Always(client)).pending, whose)| == if whose == client then n else 0
  {
    var m := Filled(n, 0, Always(client)).pending;
    var s := Upto(n);
    if whose == client {
      assert Own(m, whose) == s;
    } else {
      assert Own(m, whose) == {};
    }
  }

  /** The bound on one address is reached for every number of calls at once. */
  lemma ClientBoundIsReached(client: Client, k: nat) returns (states: seq<State>, events: seq<Event>)
    requires k >= 1
    ensures IsRun(states, events) && AtOnce(states, k) && states != []
    ensures |Own(states[|states| - 1].pending, client)| == MAX_PENDING_PER_CLIENT - 1 + k
  {
    var name, top := Always(client), MAX_PENDING_PER_CLIENT - 1;
    forall i: nat
      ensures LetsThrough(i, name, top)
    {
      forall whose
        ensures i <= top ==> |Own(Filled(i, 0, name).pending, whose)| < MAX_PENDING_PER_CLIENT
      {
        OwnOfAlways(i, client, whose);
      }
    }
    hide Filled, Own, IsRun, AtOnce, LetsThrough;
    states, events := Land(k, name, top, k);
    OwnOfAlways(top + k, client, client);
  }

  /** A different client for every call. */
  function Nth(i: nat): Client { seq(i, _ => 'x') }

  lemma OwnOfNth(n: nat, whose: Client)
    ensures |Own(Filled(n, 0, Nth).pending, whose)| <= 1
  {
    var own := Own(Filled(n, 0, Nth).pending, whose);
    assert forall id :: id in own ==> |Nth(id)| == id && Nth(id) == whose;
    SubsetSize(own, {|whose|});
  }

  /** And so is the bound on the store. */
  lemma StoreBoundIsReached(k: nat) returns (states: seq<State>, events: seq<Event>)
    requires k >= 1
    ensures IsRun(states, events) && AtOnce(states, k) && states != []
    ensures |states[|states| - 1].pending| == MAX_PENDING - 1 + k
  {
    var top := MAX_PENDING - 1;
    forall i: nat
      ensures LetsThrough(i, Nth, top)
    {
      forall whose
        ensures i <= top ==> |Own(Filled(i, 0, Nth).pending, whose)| < MAX_PENDING_PER_CLIENT
      {
        OwnOfNth(i, whose);
      }
    }
    hide Filled, Own, IsRun, AtOnce, LetsThrough;
    states, events := Land(k, Nth, top, k);
    PendingCount(top + k, 0, Nth);
  }

  // ─── When the documented limits hold ─────────────────────

  /** No address ever holds more than its share. */
  ghost predicate ShareHolds(k: nat) {
    forall states: seq<State>, events: seq<Event>, client: Client, i: nat ::
      IsRun(states, events) && AtOnce(states, k) && i < |states| ==>
      |Own(states[i].pending, client)| <= MAX_PENDING_PER_CLIENT
  }

  /** The store never holds more than its limit. */
  ghost predicate LimitHolds(k: nat) {
    forall states: seq<State>, events: seq<Event>, i: nat ::
      IsRun(states, events) && AtOnce(states, k) && i < |states| ==>
      |states[i].pending| <= MAX_PENDING
  }

  lemma FlyingIsAtMost(states: seq<State>, k: nat, client: Client)
    requires AtOnce(states, k)
    ensures forall j: nat :: j < |states| ==> |FlyingOf(states[j].flying, client)| <= k
  {
    forall j: nat | j < |states|
      ensures |FlyingOf(states[j].flying, client)| <= k
    {
      SubsetSize(FlyingOf(states[j].flying, client), states[j].flying.Keys);
    }
  }

  /** Both limits hold exactly while no two calls are between check and insert. */
  lemma LimitsHoldIff(k: nat)
    ensures ShareHolds(k) <==> k <= 1
    ensures LimitHolds(k) <==> k <= 1
  {
    hide IsRun, AtOnce, Own, FlyingOf;
    if k <= 1 {
      forall states: seq<State>, events: seq<Event>, client: Client, i: nat |
        IsRun(states, events) && AtOnce(states, k) && i < |states|
        ensures |Own(states[i].pending, client)| <= MAX_PENDING_PER_CLIENT
      {
        FlyingIsAtMost(states, k, client);
        ClientIsBounded(states, events, client, k, i);
      }
      forall states: seq<State>, events: seq<Event>, i: nat |
        IsRun(states, events) && AtOnce(states, k) && i < |states|
        ensures |states[i].pending| <= MAX_PENDING
      {
        StoreIsBounded(states, events, k, i);
      }
    } else {
      var states, events := ClientBoundIsReached("", k);
      var last: nat := |states| - 1;
      assert |Own(states[last].pending, "")| > MAX_PENDING_PER_CLIENT;
      var others, theirs := StoreBoundIsReached(k);
      var end: nat := |others| - 1;
      assert |others[end].pending| > MAX_PENDING;
    }
  }
}
