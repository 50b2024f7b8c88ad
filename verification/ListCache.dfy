/** The cache of every policy's lists, rebuilt by readers that race with one
    another, with configuration writes and with reloads (src/iplist.rs,
    `policy_lists` and `set_feed_data`; src/modules/generation.rs, `current`). */
module ListCache {
  import opened Cidr
  import opened Options
  import opened Policies

  /** Everything `build_policies` is a function of. */
  datatype Inputs = Inputs(
    known: seq<int>, rows: seq<Row>, choices: seq<Choice>, muted: seq<Muted>, data: map<string, FeedData>)

  /** A table as a reader has it: a query that fails leaves it empty. */
  datatype Fetch<+T> = Unread | Failed | Read(value: T)

  function Rows<T>(f: Fetch<seq<T>>): seq<T> {
    if f.Read? then f.value else []
  }

  /** What a reader has read so far. */
  datatype Fetched = Fetched(
    known: Fetch<seq<int>>, rows: Fetch<seq<Row>>, choices: Fetch<seq<Choice>>, muted: Fetch<seq<Muted>>,
    data: Fetch<map<string, FeedData>>)

  const NOTHING := Fetched(Unread, Unread, Unread, Unread, Unread)

  /** What the reader's `build_policies` is given. */
  function Given(f: Fetched): Inputs {
    Inputs(Rows(f.known), Rows(f.rows), Rows(f.choices), Rows(f.muted), if f.data.Read? then f.data.value else map[])
  }

  /** Where a request has got to in `policy_lists`. */
  datatype Reader =
    | Idle
    | Asking(read: nat)
    | Numbered(generation: nat)
    | Versioned(generation: nat, version: nat)
    | Fetching(generation: nat, version: nat, fetched: Fetched)
    | Answered(generation: nat, version: nat, answer: Fetched)

  /** The lists kept, by what they were built from, and their tag. */
  datatype Loaded = Loaded(generation: nat, published: nat, built: Fetched)

  datatype State = State(
    generation: nat, known: seq<int>, rows: seq<Row>, choices: seq<Choice>, muted: seq<Muted>,
    seen: nat,
    version: nat, data: map<string, FeedData>,
    loaded: Option<Loaded>,
    readers: map<nat, Reader>)

  function Current(s: State): Inputs {
    Inputs(s.known, s.rows, s.choices, s.muted, s.data)
  }

  datatype Table = Known | ListRows | Choices | MutedLists

  datatype Step =
    | Write(known: seq<int>, rows: seq<Row>, choices: seq<Choice>, muted: seq<Muted>, moved: nat)
    | Reload(data: map<string, FeedData>)
    | TakeSeen(r: nat)
    | Ask(r: nat)
    | Keep(r: nat)
    | GiveUp(r: nat)
    | TakeVersion(r: nat)
    | Consult(r: nat)
    | Fetch(r: nat, table: Table, ok: bool)
    | TakeData(r: nat)
    | Install(r: nat)
    | Leave(r: nat)

  function At(s: State, r: nat): Reader {
    if r in s.readers then s.readers[r] else Idle
  }

  function Put(s: State, r: nat, reader: Reader): State {
    s.(readers := s.readers[r := reader])
  }

  function Result<T>(ok: bool, value: T): Fetch<T> {
    if ok then Read(value) else Failed
  }

  function FetchTable(s: State, f: Fetched, table: Table, ok: bool): Fetched {
    match table
    case Known => f.(known := Result(ok, s.known))
    case ListRows => f.(rows := Result(ok, s.rows))
    case Choices => f.(choices := Result(ok, s.choices))
    case MutedLists => f.(muted := Result(ok, s.muted))
  }

  /** The tables are read in this order, each once. */
  predicate NextTable(f: Fetched, table: Table) {
    match table
    case Known => f == NOTHING
    case ListRows => !f.known.Unread? && f.rows.Unread?
    case Choices => !f.rows.Unread? && f.choices.Unread?
    case MutedLists => !f.choices.Unread? && f.muted.Unread?
  }

  predicate Newer(g: nat, v: nat, loaded: Option<Loaded>) {
    loaded.None? || TagLe(loaded.value.generation, loaded.value.published, g, v)
  }

  /** Tags in lexicographic order. */
  predicate TagLe(g: nat, v: nat, g': nat, v': nat) {
    g < g' || (g == g' && v <= v')
  }

  /** One atomic step of one reader, of a write or of a reload. A step that is not
      due changes nothing. */
  function Next(s: State, step: Step): State {
    match step
    // A trigger moves the generation with every row written.
    case Write(known, rows, choices, muted, moved) =>
      s.(known := known, rows := rows, choices := choices, muted := muted, generation := s.generation + 1 + moved)
    case Reload(data) => s.(data := data, version := s.version + 1)
    // The generation: as last seen, if recently; or asked of the database, and
    // kept for everybody in a step of its own, or not read at all.
    case TakeSeen(r) => if At(s, r).Idle? then Put(s, r, Numbered(s.seen)) else s
    case Ask(r) => if At(s, r).Idle? then Put(s, r, Asking(s.generation)) else s
    case Keep(r) =>
      if At(s, r).Asking? then Put(s.(seen := At(s, r).read), r, Numbered(At(s, r).read)) else s
    case GiveUp(r) => if At(s, r).Asking? then Put(s, r, Numbered(s.seen)) else s
    case TakeVersion(r) =>
      if At(s, r).Numbered? then Put(s, r, Versioned(At(s, r).generation, s.version)) else s
    case Consult(r) =>
      if At(s, r).Versioned? then
        var g, v := At(s, r).generation, At(s, r).version;
        if s.loaded.Some? && s.loaded.value.generation == g && s.loaded.value.published == v
        then Put(s, r, Answered(g, v, s.loaded.value.built))
        else Put(s, r, Fetching(g, v, NOTHING))
      else s
    case Fetch(r, table, ok) =>
      if At(s, r).Fetching? && NextTable(At(s, r).fetched, table)
      then Put(s, r, At(s, r).(fetched := FetchTable(s, At(s, r).fetched, table, ok))) else s
    case TakeData(r) =>
      if At(s, r).Fetching? && !At(s, r).fetched.muted.Unread? && At(s, r).fetched.data.Unread?
      then Put(s, r, At(s, r).(fetched := At(s, r).fetched.(data := Read(s.data)))) else s
    case Install(r) =>
      if At(s, r).Fetching? && At(s, r).fetched.data.Read? then
        var g, v, f := At(s, r).generation, At(s, r).version, At(s, r).fetched;
        var done := Put(s, r, Answered(g, v, f));
        if Newer(g, v, s.loaded) then done.(loaded := Some(Loaded(g, v, f))) else done
      else s
    case Leave(r) => if At(s, r).Answered? then Put(s, r, Idle) else s
  }

  function After(s: State, steps: seq<Step>): State
    decreases |steps|
  {
    if steps == [] then s else Next(After(s, steps[..|steps| - 1]), steps[|steps| - 1])
  }

  /** A process that has just started: nothing read, published or kept. */
  predicate Started(s: State) {
    s.seen == 0 && s.version == 0 && s.data == map[] && s.loaded.None? && s.readers == map[]
  }

  // ─── What every step keeps ───────────────────────────────

  predicate Agrees<T(==)>(f: Fetch<T>, now: T) {
    f.Read? ==> f.value == now
  }

  /** What was read under a tag is as it is now, as far as the tag is current. */
  predicate UpToDate(s: State, g: nat, v: nat, f: Fetched) {
    && g <= s.generation && v <= s.version
    && (g == s.generation ==>
          && Agrees(f.known, s.known) && Agrees(f.rows, s.rows)
          && Agrees(f.choices, s.choices) && Agrees(f.muted, s.muted))
    && (v == s.version ==> Agrees(f.data, s.data))
  }

  predicate ReaderOk(s: State, r: Reader) {
    match r
    case Idle => true
    case Asking(read) => read <= s.generation
    case Numbered(g) => g <= s.generation
    case Versioned(g, v) => g <= s.generation && v <= s.version
    case Fetching(g, v, f) => UpToDate(s, g, v, f)
    case Answered(g, v, f) => UpToDate(s, g, v, f) && Complete(f)
  }

  predicate Complete(f: Fetched) {
    !f.known.Unread? && !f.rows.Unread? && !f.choices.Unread? && !f.muted.Unread? && f.data.Read?
  }

  ghost predicate Consistent(s: State) {
    && s.seen <= s.generation
    && (s.loaded.Some? ==>
          UpToDate(s, s.loaded.value.generation, s.loaded.value.published, s.loaded.value.built)
          && Complete(s.loaded.value.built))
    && (forall r :: r in s.readers ==> ReaderOk(s, s.readers[r]))
    && (forall r :: r in s.readers ==> InOrder(s.readers[r]))
  }

  /** A table is read only after those before it. */
  predicate InOrder(r: Reader) {
    r.Fetching? ==>
      && (!r.fetched.rows.Unread? ==> !r.fetched.known.Unread?)
      && (!r.fetched.choices.Unread? ==> !r.fetched.rows.Unread?)
      && (!r.fetched.muted.Unread? ==> !r.fetched.choices.Unread?)
      && (!r.fetched.data.Unread? ==> !r.fetched.muted.Unread? && r.fetched.data.Read?)
  }

  lemma MovingKeepsReaderOk(s: State, s': State, r: Reader)
    requires ReaderOk(s, r)
    requires s'.generation >= s.generation && s'.version >= s.version
    requires s'.generation == s.generation ==>
               s'.known == s.known && s'.rows == s.rows && s'.choices == s.choices && s'.muted == s.muted
    requires s'.version == s.version ==> s'.data == s.data
    ensures ReaderOk(s', r)
  {
  }

  lemma PutKeeps(s: State, r: nat, reader: Reader)
    requires Consistent(s) && ReaderOk(s, reader) && InOrder(reader)
    ensures Consistent(Put(s, r, reader))
  {
    hide InOrder;
    var s' := Put(s, r, reader);
    forall q | q in s'.readers
      ensures ReaderOk(s', s'.readers[q]) && InOrder(s'.readers[q])
    {
      var was := s'.readers[q];
      assert ReaderOk(s, was) && InOrder(was);
      MovingKeepsReaderOk(s, s', was);
    }
  }

  lemma AtIsOk(s: State, r: nat)
    requires Consistent(s)
    ensures ReaderOk(s, At(s, r)) && InOrder(At(s, r))
  {
  }

  /** A write or a reload moves the tag of what it changes. */
  lemma ChangeKeepsConsistent(s: State, step: Step)
    requires Consistent(s) && (step.Write? || step.Reload?)
    ensures Consistent(Next(s, step))
  {
    hide InOrder;
    var s' := Next(s, step);
    forall r | r in s'.readers
      ensures ReaderOk(s', s'.readers[r]) && InOrder(s'.readers[r])
    {
      MovingKeepsReaderOk(s, s', s.readers[r]);
    }
  }

  lemma KeepKeepsConsistent(s: State, r: nat)
    requires Consistent(s)
    ensures Consistent(Next(s, Keep(r)))
  {
    AtIsOk(s, r);
    if At(s, r).Asking? {
      var read := At(s, r).read;
      var s' := s.(seen := read);
      forall q | q in s'.readers
        ensures ReaderOk(s', s'.readers[q])
      {
        MovingKeepsReaderOk(s, s', s.readers[q]);
      }
      PutKeeps(s', r, Numbered(read));
    }
  }

  lemma FetchKeepsConsistent(s: State, r: nat, table: Table, ok: bool)
    requires Consistent(s)
    ensures Consistent(Next(s, Fetch(r, table, ok)))
  {
    hide Consistent;
    AtIsOk(s, r);
    var now := At(s, r);
    if now.Fetching? && NextTable(now.fetched, table) {
      var f' := FetchTable(s, now.fetched, table, ok);
      PutKeeps(s, r, now.(fetched := f'));
    }
  }

  lemma TakeDataKeepsConsistent(s: State, r: nat)
    requires Consistent(s)
    ensures Consistent(Next(s, TakeData(r)))
  {
    hide Consistent;
    AtIsOk(s, r);
    var now := At(s, r);
    if now.Fetching? && !now.fetched.muted.Unread? && now.fetched.data.Unread? {
      PutKeeps(s, r, now.(fetched := now.fetched.(data := Read(s.data))));
    }
  }

  lemma InstallKeepsConsistent(s: State, r: nat)
    requires Consistent(s)
    ensures Consistent(Next(s, Install(r)))
  {
    AtIsOk(s, r);
    var now := At(s, r);
    if now.Fetching? && now.fetched.data.Read? {
      var g, v, f := now.generation, now.version, now.fetched;
      assert Complete(f) && UpToDate(s, g, v, f);
      PutKeeps(s, r, Answered(g, v, f));
      hide InOrder, Complete, Put;
      var done := Put(s, r, Answered(g, v, f));
      if Newer(g, v, s.loaded) {
        InstalledKeeps(s, done, r, g, v, f);
      }
    }
  }

  lemma InstalledKeeps(s: State, done: State, r: nat, g: nat, v: nat, f: Fetched)
    requires UpToDate(s, g, v, f) && Complete(f)
    requires done == Put(s, r, Answered(g, v, f)) && Consistent(done)
    ensures Consistent(done.(loaded := Some(Loaded(g, v, f))))
  {
    hide InOrder, Complete;
    var s' := done.(loaded := Some(Loaded(g, v, f)));
    forall q | q in s'.readers
      ensures ReaderOk(s', s'.readers[q]) && InOrder(s'.readers[q])
    {
      MovingKeepsReaderOk(done, s', done.readers[q]);
    }
  }

  lemma ConsultKeepsConsistent(s: State, r: nat)
    requires Consistent(s)
    ensures Consistent(Next(s, Consult(r)))
  {
    AtIsOk(s, r);
    var now := At(s, r);
    if now.Versioned? {
      var g, v := now.generation, now.version;
      var l := s.loaded;
      if l.Some? && l.value.generation == g && l.value.published == v {
        assert UpToDate(s, g, v, l.value.built) && Complete(l.value.built);
        PutKeeps(s, r, Answered(g, v, l.value.built));
      } else {
        PutKeeps(s, r, Fetching(g, v, NOTHING));
      }
    }
  }

  /** Reading a number, or letting go of an answer. */
  lemma SmallStepKeepsConsistent(s: State, step: Step)
    requires Consistent(s)
    requires step.TakeSeen? || step.Ask? || step.GiveUp? || step.TakeVersion? || step.Leave?
    ensures Consistent(Next(s, step))
  {
    AtIsOk(s, step.r);
    assert s.seen <= s.generation;
    hide Consistent;
    var r := step.r;
    var now := At(s, r);
    match step
    case TakeSeen(_) => PutKeeps(s, r, Numbered(s.seen));
    case Ask(_) => PutKeeps(s, r, Asking(s.generation));
    case GiveUp(_) => PutKeeps(s, r, Numbered(s.seen));
    case TakeVersion(_) => if now.Numbered? { PutKeeps(s, r, Versioned(now.generation, s.version)); }
    case Leave(_) => PutKeeps(s, r, Idle);
  }

  lemma StepKeepsConsistent(s: State, step: Step)
    requires Consistent(s)
    ensures Consistent(Next(s, step))
  {
    hide Consistent, Next;
    match step
    case Write(_, _, _, _, _) => ChangeKeepsConsistent(s, step);
    case Reload(_) => ChangeKeepsConsistent(s, step);
    case Keep(r) => KeepKeepsConsistent(s, r);
    case Consult(r) => ConsultKeepsConsistent(s, r);
    case Fetch(r, table, ok) => FetchKeepsConsistent(s, r, table, ok);
    case TakeData(r) => TakeDataKeepsConsistent(s, r);
    case Install(r) => InstallKeepsConsistent(s, r);
    case _ => SmallStepKeepsConsistent(s, step);
  }

  lemma {:induction false} RunsAreConsistent(s: State, steps: seq<Step>)
    requires Started(s)
    ensures Consistent(After(s, steps))
    decreases |steps|
  {
    hide Next;
    if steps != [] {
      hide Consistent;
      RunsAreConsistent(s, steps[..|steps| - 1]);
      StepKeepsConsistent(After(s, steps[..|steps| - 1]), steps[|steps| - 1]);
    }
  }

  // ─── What the cache holds ────────────────────────────────

  /** Every query answered, or would have answered with nothing. */
  predicate NothingLost(f: Fetched, now: Inputs) {
    && (f.known.Failed? ==> now.known == [])
    && (f.rows.Failed? ==> now.rows == [])
    && (f.choices.Failed? ==> now.choices == [])
    && (f.muted.Failed? ==> now.muted == [])
  }

  lemma CompleteAndUpToDate(s: State, f: Fetched)
    requires Complete(f) && UpToDate(s, s.generation, s.version, f)
    ensures Given(f) == Current(s) <==> NothingLost(f, Current(s))
  {
  }

  /** In every interleaving: once the tag kept is the current one, the lists kept
      are built from the current tables and published data, exactly when every
      query that failed would have found nothing. */
  lemma CacheIsCurrent(s: State, steps: seq<Step>)
    requires Started(s)
    ensures var now := After(s, steps);
            now.loaded.Some?
            && now.loaded.value.generation == now.generation && now.loaded.value.published == now.version
            ==> (Given(now.loaded.value.built) == Current(now)
                 <==> NothingLost(now.loaded.value.built, Current(now)))
  {
    RunsAreConsistent(s, steps);
    hide Next, After, Given, NothingLost, Current;
    var now := After(s, steps);
    if now.loaded.Some? && now.loaded.value.generation == now.generation
       && now.loaded.value.published == now.version {
      CompleteAndUpToDate(now, now.loaded.value.built);
    }
  }

  /** And so for the answer a request takes away, as long as nothing has moved
      since it read the two numbers. */
  lemma AnswerIsCurrent(s: State, steps: seq<Step>, r: nat)
    requires Started(s)
    ensures var now := After(s, steps);
            var reader := At(now, r);
            reader.Answered? && reader.generation == now.generation && reader.version == now.version
            ==> (Given(reader.answer) == Current(now) <==> NothingLost(reader.answer, Current(now)))
  {
    RunsAreConsistent(s, steps);
    hide Next, After, Given, NothingLost, Current;
    var now := After(s, steps);
    var reader := At(now, r);
    AtIsOk(now, r);
    if reader.Answered? && reader.generation == now.generation && reader.version == now.version {
      CompleteAndUpToDate(now, reader.answer);
    }
  }

  /** So the verdict a request gets is the one the current configuration declares. */
  lemma AnswerGivesTheVerdict(s: State, steps: seq<Step>, r: nat, lists: Lists, sources: Sources, p: int, ip: Ip)
    requires Started(s)
    requires var now := After(s, steps);
             && At(now, r).Answered?
             && At(now, r).generation == now.generation && At(now, r).version == now.version
             && NothingLost(At(now, r).answer, Current(now))
             && ValidRows(now.rows) && ValidSources(sources) && LoadedFrom(now.data, sources) && ValidIp(ip)
    requires var given := Given(At(After(s, steps), r).answer);
             ValidRows(given.rows)
             && HoldsUpTo(lists, given.rows, given.choices, |given.choices|, given.muted, given.data, p)
    ensures var now := After(s, steps);
            OutcomeOf(Check(lists, ip)) == Declared(now.rows, now.choices, now.muted, sources, p, ip)
  {
    AnswerIsCurrent(s, steps, r);
    hide Next, After, Given, NothingLost, HoldsUpTo, Declared, OutcomeOf, Check, ValidRows, ValidSources, LoadedFrom;
    var now := After(s, steps);
    VerdictIsDeclared(lists, now.rows, now.choices, now.muted, now.data, sources, p, ip);
  }

  /** Tags never go back. */
  predicate NotBehind(before: Option<Loaded>, after: Option<Loaded>) {
    before.Some? ==> after.Some? && TagLe(before.value.generation, before.value.published,
                                          after.value.generation, after.value.published)
  }

  lemma StepNeverGoesBack(s: State, step: Step)
    ensures NotBehind(s.loaded, Next(s, step).loaded)
  {
  }

  lemma {:induction false} TagsNeverGoBack(s: State, steps: seq<Step>, i: nat)
    requires i <= |steps|
    ensures NotBehind(After(s, steps[..i]).loaded, After(s, steps).loaded)
    decreases |steps|
  {
    hide Next;
    if i == |steps| {
      assert steps[..i] == steps;
    } else {
      hide NotBehind;
      var n := |steps| - 1;
      assert steps[..n][..i] == steps[..i];
      TagsNeverGoBack(s, steps[..n], i);
      StepNeverGoesBack(After(s, steps[..n]), steps[n]);
      NotBehindChains(After(s, steps[..i]).loaded, After(s, steps[..n]).loaded, After(s, steps).loaded);
    }
  }

  lemma NotBehindChains(a: Option<Loaded>, b: Option<Loaded>, c: Option<Loaded>)
    requires NotBehind(a, b) && NotBehind(b, c)
    ensures NotBehind(a, c)
  {
  }

  lemma Grow(s: State, steps: seq<Step>, step: Step)
    ensures After(s, steps + [step]) == Next(After(s, steps), step)
  {
    hide Next;
    var all := steps + [step];
    assert all[..|all| - 1] == steps;
  }

  /** One reader asks for the generation and both numbers, and finds nothing kept. */
  function Begin(r: nat): seq<Step> {
    [Ask(r), Keep(r), TakeVersion(r), Consult(r)]
  }

  /** Which of a reader's queries the database answers. */
  datatype Answers = Answers(known: bool, rows: bool, choices: bool, muted: bool)

  const ALL := Answers(true, true, true, true)

  /** It reads everything, as far as it is answered. */
  function ReadAll(r: nat, ok: Answers): seq<Step> {
    [Fetch(r, Known, ok.known), Fetch(r, ListRows, ok.rows), Fetch(r, Choices, ok.choices),
     Fetch(r, MutedLists, ok.muted), TakeData(r), Install(r)]
  }

  /** The tables that could be read, the others as if they were empty. */
  function Lacking(now: Inputs, ok: Answers): Inputs {
    Inputs(if ok.known then now.known else [], if ok.rows then now.rows else [],
           if ok.choices then now.choices else [], if ok.muted then now.muted else [], now.data)
  }

  lemma {:induction false} AfterJoin(s: State, a: seq<Step>, b: seq<Step>)
    ensures After(s, a + b) == After(After(s, a), b)
    decreases |b|
  {
    hide Next;
    if b == [] {
      assert a + b == a;
    } else {
      var n := |b| - 1;
      AfterJoin(s, a, b[..n]);
      assert a + b == (a + b[..n]) + [b[n]];
      Grow(s, a + b[..n], b[n]);
    }
  }

  lemma AfterBegin(s: State, r: nat)
    requires At(s, r) == Idle
    ensures var found := s.loaded.Some? && s.loaded.value.generation == s.generation
                         && s.loaded.value.published == s.version;
            var reader := if found then Answered(s.generation, s.version, s.loaded.value.built)
                          else Fetching(s.generation, s.version, NOTHING);
            After(s, Begin(r)) == Put(s.(seen := s.generation), r, reader)
  {
    var steps := Begin(r);
    StepAt(s, steps, 0); StepAt(s, steps, 1); StepAt(s, steps, 2); StepAt(s, steps, 3);
    assert steps[..0] == [] && steps[..4] == steps;
    AfterNothing(s);
    NumberTaken(s, r);
    VersionTaken(s.(seen := s.generation), r, s.generation);
    hide After, Next, Put, At;
  }

  lemma NumberTaken(s: State, r: nat)
    requires At(s, r) == Idle
    ensures Next(Next(s, Ask(r)), Keep(r)) == Put(s.(seen := s.generation), r, Numbered(s.generation))
  {
    PutTwice(s.(seen := s.generation), r, Asking(s.generation), Numbered(s.generation));
  }

  lemma VersionTaken(s: State, r: nat, g: nat)
    ensures var found := s.loaded.Some? && s.loaded.value.generation == g && s.loaded.value.published == s.version;
            Next(Next(Put(s, r, Numbered(g)), TakeVersion(r)), Consult(r))
            == Put(s, r, if found then Answered(g, s.version, s.loaded.value.built)
                         else Fetching(g, s.version, NOTHING))
  {
    var v := s.version;
    PutTwice(s, r, Numbered(g), Versioned(g, v));
    assert Next(Put(s, r, Numbered(g)), TakeVersion(r)) == Put(s, r, Versioned(g, v));
    PutTwice(s, r, Versioned(g, v), Fetching(g, v, NOTHING));
    if s.loaded.Some? { PutTwice(s, r, Versioned(g, v), Answered(g, v, s.loaded.value.built)); }
  }

  lemma PutTwice(s: State, r: nat, a: Reader, b: Reader)
    ensures Put(Put(s, r, a), r, b) == Put(s, r, b)
  {
    assert s.readers[r := a][r := b] == s.readers[r := b];
  }

  lemma AfterNothing(s: State)
    ensures After(s, []) == s
  {
  }

  lemma TableFetched(s: State, r: nat, f: Fetched, table: Table, ok: bool)
    requires NextTable(f, table)
    ensures Next(Put(s, r, Fetching(s.generation, s.version, f)), Fetch(r, table, ok))
            == Put(s, r, Fetching(s.generation, s.version, FetchTable(s, f, table, ok)))
  {
    var f' := FetchTable(s, f, table, ok);
    PutTwice(s, r, Fetching(s.generation, s.version, f), Fetching(s.generation, s.version, f'));
  }

  lemma DataTaken(s: State, r: nat, f: Fetched)
    requires !f.muted.Unread? && f.data.Unread? && Newer(s.generation, s.version, s.loaded)
    ensures var f' := f.(data := Read(s.data));
            Next(Next(Put(s, r, Fetching(s.generation, s.version, f)), TakeData(r)), Install(r))
            == Put(s, r, Answered(s.generation, s.version, f')).(
                 loaded := Some(Loaded(s.generation, s.version, f')))
  {
    var g, v, f' := s.generation, s.version, f.(data := Read(s.data));
    PutTwice(s, r, Fetching(g, v, f), Fetching(g, v, f'));
    PutTwice(s, r, Fetching(g, v, f'), Answered(g, v, f'));
    assert Next(Put(s, r, Fetching(g, v, f)), TakeData(r)) == Put(s, r, Fetching(g, v, f'));
  }

  /** What such a reader has in the end. */
  function Gathered(s: State, ok: Answers): Fetched {
    Fetched(Result(ok.known, s.known), Result(ok.rows, s.rows), Result(ok.choices, s.choices),
            Result(ok.muted, s.muted), Read(s.data))
  }

  lemma GatheredGives(s: State, ok: Answers)
    ensures Given(Gathered(s, ok)) == Lacking(Current(s), ok)
  {
  }

  lemma AfterReading(s: State, r: nat, ok: Answers)
    requires Newer(s.generation, s.version, s.loaded)
    ensures var f := Gathered(s, ok);
            After(Put(s, r, Fetching(s.generation, s.version, NOTHING)), ReadAll(r, ok))
            == Put(s, r, Answered(s.generation, s.version, f)).(
                 loaded := Some(Loaded(s.generation, s.version, f)))
  {
    var begun := Put(s, r, Fetching(s.generation, s.version, NOTHING));
    var f1 := FetchTable(s, NOTHING, Known, ok.known);
    var f2 := FetchTable(s, f1, ListRows, ok.rows);
    var f3 := FetchTable(s, f2, Choices, ok.choices);
    var f4 := FetchTable(s, f3, MutedLists, ok.muted);
    var steps := ReadAll(r, ok);
    StepAt(begun, steps, 0); StepAt(begun, steps, 1); StepAt(begun, steps, 2);
    StepAt(begun, steps, 3); StepAt(begun, steps, 4); StepAt(begun, steps, 5);
    assert steps[..0] == [] && steps[..6] == steps;
    TablesInTurn(s, ok);
    hide After, Next, Put, FetchTable, NextTable, Gathered, Result, Newer;
    AfterNothing(begun);
    TableFetched(s, r, NOTHING, Known, ok.known);
    TableFetched(s, r, f1, ListRows, ok.rows);
    TableFetched(s, r, f2, Choices, ok.choices);
    TableFetched(s, r, f3, MutedLists, ok.muted);
    DataTaken(s, r, f4);
  }

  lemma TablesInTurn(s: State, ok: Answers)
    ensures var f1 := FetchTable(s, NOTHING, Known, ok.known);
            var f2 := FetchTable(s, f1, ListRows, ok.rows);
            var f3 := FetchTable(s, f2, Choices, ok.choices);
            var f4 := FetchTable(s, f3, MutedLists, ok.muted);
            && NextTable(NOTHING, Known) && NextTable(f1, ListRows) && NextTable(f2, Choices)
            && NextTable(f3, MutedLists) && !f4.muted.Unread? && f4.data.Unread?
            && f4.(data := Read(s.data)) == Gathered(s, ok)
  {
  }

  lemma StepAt(s: State, steps: seq<Step>, i: nat)
    requires i < |steps|
    ensures After(s, steps[..i + 1]) == Next(After(s, steps[..i]), steps[i])
  {
    hide Next;
    assert steps[..i + 1] == steps[..i] + [steps[i]];
    Grow(s, steps[..i], steps[i]);
  }

  // ─── What stays once it is kept ──────────────────────────

  /** The tag kept is current, and nobody holds or gathers anything else under it. */
  ghost predicate Settled(s: State, kept: Loaded) {
    && s.loaded == Some(kept) && kept.generation == s.generation && kept.published == s.version
    && forall r :: r in s.readers ==> SettledReader(s.readers[r], kept)
  }

  predicate SettledReader(r: Reader, kept: Loaded) {
    match r
    case Fetching(g, v, _) => g != kept.generation || v != kept.published
    case Answered(g, v, f) => g == kept.generation && v == kept.published ==> f == kept.built
    case _ => true
  }

  /** Nothing is written and nothing reloaded. */
  ghost predicate Unchanging(steps: seq<Step>) {
    forall i :: 0 <= i < |steps| ==> !steps[i].Write? && !steps[i].Reload?
  }

  lemma PutSettled(s: State, r: nat, reader: Reader, kept: Loaded)
    requires Settled(s, kept) && SettledReader(reader, kept)
    ensures Settled(Put(s, r, reader), kept)
  {
  }

  lemma ReaderSettled(s: State, r: nat, kept: Loaded)
    requires Settled(s, kept)
    ensures SettledReader(At(s, r), kept)
  {
  }

  lemma InstallStaysSettled(s: State, r: nat, kept: Loaded)
    requires Consistent(s) && Settled(s, kept)
    ensures Settled(Next(s, Install(r)), kept)
  {
    AtIsOk(s, r);
    ReaderSettled(s, r, kept);
    var now := At(s, r);
    if now.Fetching? && now.fetched.data.Read? {
      var g, v, f := now.generation, now.version, now.fetched;
      assert g <= s.generation && v <= s.version;
      PutSettled(s, r, Answered(g, v, f), kept);
      assert !Newer(g, v, s.loaded);
    }
  }

  lemma StepStaysSettled(s: State, step: Step, kept: Loaded)
    requires Consistent(s) && Settled(s, kept) && !step.Write? && !step.Reload?
    ensures Settled(Next(s, step), kept)
  {
    if step.Install? {
      InstallStaysSettled(s, step.r, kept);
    } else {
      var r := step.r;
      var now := At(s, r);
      ReaderSettled(s, r, kept);
      assert s.loaded == Some(kept);
      hide Consistent, Settled, InOrder, Complete, UpToDate;
      match step
      case TakeSeen(_) => PutSettled(s, r, Numbered(s.seen), kept);
      case Ask(_) => PutSettled(s, r, Asking(s.generation), kept);
      case Keep(_) =>
        if now.Asking? {
          SeenSettled(s, now.read, kept);
          PutSettled(s.(seen := now.read), r, Numbered(now.read), kept);
        }
      case GiveUp(_) => PutSettled(s, r, Numbered(s.seen), kept);
      case TakeVersion(_) => if now.Numbered? { PutSettled(s, r, Versioned(now.generation, s.version), kept); }
      case Consult(_) => if now.Versioned? { ConsultSettled(s, r, kept); }
      case Fetch(_, table, ok) =>
        if now.Fetching? { PutSettled(s, r, now.(fetched := FetchTable(s, now.fetched, table, ok)), kept); }
      case TakeData(_) =>
        if now.Fetching? { PutSettled(s, r, now.(fetched := now.fetched.(data := Read(s.data))), kept); }
      case Leave(_) => PutSettled(s, r, Idle, kept);
    }
  }

  lemma SeenSettled(s: State, seen: nat, kept: Loaded)
    requires Settled(s, kept)
    ensures Settled(s.(seen := seen), kept)
  {
  }

  lemma ConsultSettled(s: State, r: nat, kept: Loaded)
    requires Settled(s, kept) && At(s, r).Versioned?
    ensures Settled(Next(s, Consult(r)), kept)
  {
    var g, v := At(s, r).generation, At(s, r).version;
    if kept.generation == g && kept.published == v {
      PutSettled(s, r, Answered(g, v, kept.built), kept);
    } else {
      PutSettled(s, r, Fetching(g, v, NOTHING), kept);
    }
  }

  /** Once so, the lists kept are what every request is given under that tag, in
      every interleaving, until something is written or reloaded. */
  lemma {:induction false} KeptUntilChanged(s: State, steps: seq<Step>, more: seq<Step>, kept: Loaded)
    requires Started(s) && Settled(After(s, steps), kept) && Unchanging(more)
    ensures Settled(After(s, steps + more), kept)
    decreases |more|
  {
    hide Next, Settled, Started;
    if more == [] {
      assert steps + more == steps;
    } else {
      var n := |more| - 1;
      KeptUntilChanged(s, steps, more[..n], kept);
      assert steps + more == (steps + more[..n]) + [more[n]];
      Grow(s, steps + more[..n], more[n]);
      RunsAreConsistent(s, steps + more[..n]);
      hide Consistent, After;
      StepStaysSettled(After(s, steps + more[..n]), more[n], kept);
    }
  }

  /** Queries that fail once: what they would have read stays out of every answer
      under the current numbers, whoever asks and in whatever order, until something
      is written or reloaded; so those answers are wrong exactly when one of the
      tables not read holds something. */
  lemma FailedQueryIsKept(s: State, r: nat, ok: Answers, more: seq<Step>)
    requires Started(s) && Unchanging(more)
    ensures var now := After(s, Begin(r) + ReadAll(r, ok) + more);
            && now.generation == s.generation && now.version == s.version
            && forall reader ::
                 reader in now.readers && now.readers[reader].Answered?
                 && now.readers[reader].generation == s.generation && now.readers[reader].version == s.version
                 ==> Given(now.readers[reader].answer) == Lacking(Current(s), ok)
    ensures Lacking(Current(s), ok) == Current(s)
            <==> && (ok.known || s.known == []) && (ok.rows || s.rows == [])
                 && (ok.choices || s.choices == []) && (ok.muted || s.muted == [])
  {
    var steps := Begin(r) + ReadAll(r, ok);
    var kept := Loaded(s.generation, s.version, Gathered(s, ok));
    AfterJoin(s, Begin(r), ReadAll(r, ok));
    AfterBegin(s, r);
    AfterReading(s.(seen := s.generation), r, ok);
    GatheredGives(s, ok);
    assert Settled(After(s, steps), kept);
    hide After, Next, Unchanging, Given, Gathered;
    KeptUntilChanged(s, steps, more, kept);
  }

  /** And somebody else who asks next is given one. */
  lemma FailedQueryIsGiven(s: State, r: nat, later: nat, ok: Answers)
    requires Started(s) && r != later
    ensures var now := After(s, Begin(r) + ReadAll(r, ok) + Begin(later));
            && Current(now) == Current(s)
            && At(now, later).Answered?
            && At(now, later).generation == now.generation && At(now, later).version == now.version
            && Given(At(now, later).answer) == Lacking(Current(now), ok)
  {
    hide After, Next;
    AfterJoin(s, Begin(r) + ReadAll(r, ok), Begin(later));
    AfterJoin(s, Begin(r), ReadAll(r, ok));
    AfterBegin(s, r);
    AfterReading(s.(seen := s.generation), r, ok);
    GatheredGives(s, ok);
    AfterBegin(After(s, Begin(r) + ReadAll(r, ok)), later);
  }

  // ─── What a change brings ────────────────────────────────

  /** After any run the tables are as the last write left them, under a number past
      every one before it; and reloads do not touch them. */
  lemma {:induction false} LastWriteHolds(s: State, steps: seq<Step>, i: nat)
    requires i < |steps| && steps[i].Write? && forall k :: i < k < |steps| ==> !steps[k].Write?
    ensures var now := After(s, steps);
            && now.known == steps[i].known && now.rows == steps[i].rows
            && now.choices == steps[i].choices && now.muted == steps[i].muted
            && now.generation > After(s, steps[..i]).generation
    decreases |steps|
  {
    var n := |steps| - 1;
    if i < n {
      var front := steps[..n];
      assert front[..i] == steps[..i];
      LastWriteHolds(s, front, i);
      hide After;
      OnlyWritesWrite(After(s, front), steps[n]);
    } else {
      assert steps[..n] == steps[..i];
    }
  }

  lemma OnlyWritesWrite(s: State, step: Step)
    requires !step.Write?
    ensures var now := Next(s, step);
            && now.known == s.known && now.rows == s.rows && now.choices == s.choices && now.muted == s.muted
            && now.generation == s.generation
  {
  }

  /** And the published data as the last reload left them, under a number of their
      own; writes do not touch that. */
  lemma {:induction false} LastReloadHolds(s: State, steps: seq<Step>, i: nat)
    requires i < |steps| && steps[i].Reload? && forall k :: i < k < |steps| ==> !steps[k].Reload?
    ensures After(s, steps).data == steps[i].data && After(s, steps).version > After(s, steps[..i]).version
    decreases |steps|
  {
    var n := |steps| - 1;
    if i < n {
      var front := steps[..n];
      assert front[..i] == steps[..i];
      LastReloadHolds(s, front, i);
      hide After;
      OnlyReloadsReload(After(s, front), steps[n]);
    } else {
      assert steps[..n] == steps[..i];
    }
  }

  lemma OnlyReloadsReload(s: State, step: Step)
    requires !step.Reload?
    ensures Next(s, step).data == s.data && Next(s, step).version == s.version
  {
  }

  /** What is kept after a rebuild is the newer of what was there and what was built,
      and what was built if their tags are the same. */
  lemma InstallKeepsTheNewer(s: State, r: nat)
    requires At(s, r).Fetching? && At(s, r).fetched.data.Read?
    ensures var built := Loaded(At(s, r).generation, At(s, r).version, At(s, r).fetched);
            var kept := Next(s, Install(r)).loaded;
            && (s.loaded.None? ==> kept == Some(built))
            && (s.loaded.Some? ==>
                  var was := s.loaded.value;
                  if was.generation != built.generation then
                    kept == Some(if was.generation > built.generation then was else built)
                  else kept == Some(if was.published > built.published then was else built))
  {
  }

  /** After a write or a reload, whoever asks next and is answered every query without
      another change in between is given lists of what was written and reloaded last;
      and those are kept. */
  lemma NextReaderGetsTheChange(s: State, steps: seq<Step>, change: Step, r: nat)
    requires Started(s) && (change.Write? || change.Reload?) && At(After(s, steps), r) == Idle
    ensures var now := After(s, steps + [change] + Begin(r) + ReadAll(r, ALL));
            var before := After(s, steps);
            && At(now, r).Answered? && Given(At(now, r).answer) == Current(now)
            && now.loaded == Some(Loaded(now.generation, now.version, At(now, r).answer))
            && Current(now) == (if change.Write?
                                then Inputs(change.known, change.rows, change.choices, change.muted, before.data)
                                else Current(before).(data := change.data))
  {
    var before, all := After(s, steps), steps + [change];
    RunsAreConsistent(s, steps);
    Grow(s, steps, change);
    var changed := After(s, all);
    ChangedIsNewer(before, change);
    hide After, Next, Consistent;
    AfterJoin(s, all + Begin(r), ReadAll(r, ALL));
    AfterJoin(s, all, Begin(r));
    AfterBegin(changed, r);
    AfterReading(changed.(seen := changed.generation), r, ALL);
    GatheredGives(changed, ALL);
  }

  /** A change moves the tag past the one kept. */
  lemma ChangedIsNewer(s: State, change: Step)
    requires Consistent(s) && (change.Write? || change.Reload?)
    ensures var now := Next(s, change);
            && Newer(now.generation, now.version, now.loaded) && now.readers == s.readers
            && (now.loaded.Some? ==>
                  now.loaded.value.generation != now.generation || now.loaded.value.published != now.version)
            && Current(now) == (if change.Write?
                                then Inputs(change.known, change.rows, change.choices, change.muted, s.data)
                                else Current(s).(data := change.data))
  {
  }

  /** A reader that goes by the number last seen, because it is recent or because the
      database does not answer, is given what is kept under that number, whatever has
      been written since. */
  lemma SeenIsTakenAsCurrent(s: State, r: nat, asked: bool)
    requires At(s, r) == Idle
    ensures var found := s.loaded.Some? && s.loaded.value.generation == s.seen && s.loaded.value.published == s.version;
            var reader := if found then Answered(s.seen, s.version, s.loaded.value.built)
                          else Fetching(s.seen, s.version, NOTHING);
            After(s, (if asked then [Ask(r), GiveUp(r)] else [TakeSeen(r)]) + [TakeVersion(r), Consult(r)])
            == Put(s, r, reader)
  {
    var first, rest := if asked then [Ask(r), GiveUp(r)] else [TakeSeen(r)], [TakeVersion(r), Consult(r)];
    AfterJoin(s, first, rest);
    AfterNothing(s);
    StepAt(s, first, 0);
    assert first[..0] == [] && first[..1] == [first[0]];
    if asked {
      StepAt(s, first, 1);
      assert first[..2] == first;
      PutTwice(s, r, Asking(s.generation), Numbered(s.seen));
    }
    var numbered := Put(s, r, Numbered(s.seen));
    assert After(s, first) == numbered;
    AfterNothing(numbered);
    StepAt(numbered, rest, 0);
    StepAt(numbered, rest, 1);
    assert rest[..0] == [] && rest[..2] == rest;
    VersionTaken(s, r, s.seen);
  }
}
