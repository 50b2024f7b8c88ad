/** Every policy's lists, built from stored rows and published data, and where an
    address stands under one (src/iplist.rs, `Lists` and `build_policies`). */
module Policies {
  import opened Cidr
  import opened IpRanges
  import opened Options
  import opened Sets
  import opened Sorting
  import opened Text

  datatype ListType = AllowList | BlockList
  datatype Response = Challenge | Refuse

  /** A stored row: whose it is, as written, and what could be read of it. */
  datatype Row = Row(policy: Option<int>, text: string, block: Option<Block>, kind: Option<ListType>)

  datatype Choice = Choice(policy: Option<int>, id: string, response: Response)
  datatype Muted = Muted(policy: int, id: string)

  /** A published list's contents, and one as a policy uses it. */
  datatype FeedData = FeedData(id: string, name: string, ranges: Ranges)
  datatype Feed = Feed(id: string, name: string, response: Response, ranges: Ranges)

  datatype Lists = Lists(allow: Ranges, block: Ranges, feeds: seq<Feed>)

  datatype Listed = Allowed | Blocked | Published(hit: Feed)

  const NO_RANGES := Ranges([], [])
  const NO_LISTS := Lists(NO_RANGES, NO_RANGES, [])

  ghost predicate ValidRows(rows: seq<Row>) {
    forall i :: 0 <= i < |rows| && rows[i].block.Some? ==> ValidBlock(rows[i].block.value)
  }

  predicate Usable(r: Row) { r.block.Some? && r.kind.Some? }

  // ─── One policy's lists ──────────────────────────────────

  /** The blocks of the usable rows of one kind, in order. */
  function BlocksOf(rows: seq<Row>, kind: ListType): (blocks: seq<Block>)
    requires ValidRows(rows)
    ensures forall i :: 0 <= i < |blocks| ==> ValidBlock(blocks[i])
  {
    if rows == [] then []
    else
      var rest := BlocksOf(rows[..|rows| - 1], kind);
      var r := rows[|rows| - 1];
      if r.block.Some? && r.kind == Some(kind) then rest + [r.block.value] else rest
  }

  function ListsOf(rows: seq<Row>): Lists
    requires ValidRows(rows)
  {
    Lists(Build(BlocksOf(rows, AllowList)), Build(BlocksOf(rows, BlockList)), [])
  }

  method BuildLists(rows: seq<Row>) returns (lists: Lists, bad: seq<string>)
    requires ValidRows(rows)
    ensures lists == ListsOf(rows)
    ensures forall t :: t in bad <==> exists i :: 0 <= i < |rows| && !Usable(rows[i]) && rows[i].text == t
  {
    var allow, block: seq<Block> := [], [];
    bad := [];
    for i := 0 to |rows|
      invariant allow == BlocksOf(rows[..i], AllowList) && block == BlocksOf(rows[..i], BlockList)
      invariant forall t :: t in bad <==> exists k :: 0 <= k < i && !Usable(rows[k]) && rows[k].text == t
    {
      assert rows[..i + 1][..i] == rows[..i];
      match (rows[i].block, rows[i].kind) {
        case (Some(c), Some(AllowList)) => allow := allow + [c];
        case (Some(c), Some(BlockList)) => block := block + [c];
        case _ => bad := bad + [rows[i].text];
      }
    }
    assert rows[..|rows|] == rows;
    var a := ComputeRanges(allow);
    var b := ComputeRanges(block);
    lists := Lists(a, b, []);
  }

  function Lookup(l: Lists, ip: Ip): Option<ListType> {
    if ContainsIp(l.allow, ip) then Some(AllowList)
    else if ContainsIp(l.block, ip) then Some(BlockList)
    else None
  }

  /** The first list with a response that holds the address. */
  function FirstFeed(feeds: seq<Feed>, want: Response, ip: Ip): Option<Feed> {
    if feeds == [] then None
    else if feeds[0].response == want && ContainsIp(feeds[0].ranges, ip) then Some(feeds[0])
    else FirstFeed(feeds[1..], want, ip)
  }

  function Check(l: Lists, ip: Ip): Option<Listed> {
    match Lookup(l, ip)
    case Some(AllowList) => Some(Allowed)
    case Some(BlockList) => Some(Blocked)
    case None =>
      match FirstFeed(l.feeds, Refuse, ip)
      case Some(f) => Some(Published(f))
      case None =>
        match FirstFeed(l.feeds, Challenge, ip)
        case Some(f) => Some(Published(f))
        case None => None
  }

  // ─── Every policy's lists ────────────────────────────────

  predicate RowReaches(r: Row, p: int) { r.policy == None || r.policy == Some(p) }

  /** A policy's own rows and those that belong to every policy, in order. */
  function RowsFor(rows: seq<Row>, p: int): seq<Row> {
    if rows == [] then []
    else
      var rest, r := RowsFor(rows[..|rows| - 1], p), rows[|rows| - 1];
      if RowReaches(r, p) then rest + [r] else rest
  }

  predicate SaidItsOwn(choices: seq<Choice>, muted: seq<Muted>, p: int, id: string) {
    || (exists i :: 0 <= i < |choices| && choices[i].policy == Some(p) && choices[i].id == id)
    || (exists i :: 0 <= i < |muted| && muted[i] == Muted(p, id))
  }

  predicate ChoiceReaches(c: Choice, choices: seq<Choice>, muted: seq<Muted>, p: int) {
    c.policy == Some(p) || (c.policy == None && !SaidItsOwn(choices, muted, p, c.id))
  }

  function Using(d: FeedData, response: Response): Feed {
    Feed(d.id, d.name, response, d.ranges)
  }

  /** The lists the first `n` choices give a policy. */
  function FeedsFor(choices: seq<Choice>, n: nat, muted: seq<Muted>, data: map<string, FeedData>, p: int): seq<Feed>
    requires n <= |choices|
  {
    if n == 0 then []
    else
      var rest, c := FeedsFor(choices, n - 1, muted, data, p), choices[n - 1];
      if c.id in data && ChoiceReaches(c, choices, muted, p) then rest + [Using(data[c.id], c.response)] else rest
  }

  lemma {:induction false} RowsForAreValid(rows: seq<Row>, p: int)
    requires ValidRows(rows)
    ensures ValidRows(RowsFor(rows, p))
  {
    if rows != [] {
      var front := rows[..|rows| - 1];
      assert forall i :: 0 <= i < |front| ==> front[i] == rows[i];
      RowsForAreValid(front, p);
    }
  }

  type Grouped = map<int, seq<Row>>

  function RowsIn(g: Grouped, p: int): seq<Row> { if p in g then g[p] else [] }

  /** One policy's group: there from the start if the policy is known, and from its
      first row of its own if not; rows for every policy go to the groups there are. */
  function Group(known: seq<int>, rows: seq<Row>, p: int): Option<seq<Row>> {
    if rows == [] then if p in known then Some([]) else None
    else
      var group, r := Group(known, rows[..|rows| - 1], p), rows[|rows| - 1];
      if r.policy == Some(p) then Some((if group.Some? then group.value else []) + [r])
      else if r.policy == None && group.Some? then Some(group.value + [r])
      else group
  }

  lemma {:induction false} GroupOfKnown(known: seq<int>, rows: seq<Row>, p: int)
    requires p in known
    ensures Group(known, rows, p) == Some(RowsFor(rows, p))
  {
    if rows != [] { GroupOfKnown(known, rows[..|rows| - 1], p); }
  }

  lemma {:induction false} GroupIsValid(known: seq<int>, rows: seq<Row>, p: int)
    requires ValidRows(rows)
    ensures Group(known, rows, p).Some? ==> ValidRows(Group(known, rows, p).value)
  {
    if rows != [] {
      var front := rows[..|rows| - 1];
      assert forall i :: 0 <= i < |front| ==> front[i] == rows[i];
      GroupIsValid(known, front, p);
    }
  }

  /** The rows of every policy there is to group for. */
  method GroupRows(known: seq<int>, rows: seq<Row>) returns (grouped: Grouped)
    requires ValidRows(rows)
    ensures forall p :: p in grouped <==> Group(known, rows, p).Some?
    ensures forall p :: p in grouped ==> grouped[p] == Group(known, rows, p).value
  {
    grouped := map[];
    for i := 0 to |known|
      invariant forall p :: p in grouped <==> p in known[..i]
      invariant forall p :: p in grouped ==> grouped[p] == []
    {
      grouped := grouped[known[i] := RowsIn(grouped, known[i])];
    }
    assert known[..|known|] == known;
    for i := 0 to |rows|
      invariant forall p :: p in grouped <==> Group(known, rows[..i], p).Some?
      invariant forall p :: p in grouped ==> grouped[p] == Group(known, rows[..i], p).value
    {
      assert rows[..i + 1][..i] == rows[..i];
      var r := rows[i];
      match r.policy {
        case Some(id) => grouped := grouped[id := RowsIn(grouped, id) + [r]];
        case None => grouped := map p | p in grouped :: grouped[p] + [r];
      }
    }
    assert rows[..|rows|] == rows;
  }

  type Loaded = map<int, Lists>

  function ListsIn(m: Loaded, p: int): Lists { if p in m then m[p] else NO_LISTS }

  /** One choice given to every policy that has said nothing of its own. */
  function ShareChoice(m: Loaded, c: Choice, f: Feed, choices: seq<Choice>, muted: seq<Muted>): Loaded {
    map p | p in m :: if SaidItsOwn(choices, muted, p, c.id) then m[p] else m[p].(feeds := m[p].feeds + [f])
  }

  /** What a known policy holds after the first `n` choices. */
  ghost predicate HoldsUpTo(lists: Lists, rows: seq<Row>, choices: seq<Choice>, n: nat, muted: seq<Muted>,
                            data: map<string, FeedData>, p: int)
    requires ValidRows(rows) && n <= |choices|
  {
    RowsForAreValid(rows, p);
    lists == ListsOf(RowsFor(rows, p)).(feeds := FeedsFor(choices, n, muted, data, p))
  }

  lemma NoFeedsYet(rows: seq<Row>, choices: seq<Choice>, muted: seq<Muted>, data: map<string, FeedData>, p: int)
    requires ValidRows(rows)
    ensures ValidRows(RowsFor(rows, p))
    ensures HoldsUpTo(ListsOf(RowsFor(rows, p)), rows, choices, 0, muted, data, p)
  {
    RowsForAreValid(rows, p);
  }

  lemma OneMoreChoice(lists: Lists, rows: seq<Row>, choices: seq<Choice>, j: nat, muted: seq<Muted>,
                      data: map<string, FeedData>, p: int, lists': Lists)
    requires ValidRows(rows) && j < |choices| && HoldsUpTo(lists, rows, choices, j, muted, data, p)
    requires var c := choices[j];
             lists' == if c.id in data && ChoiceReaches(c, choices, muted, p)
                       then lists.(feeds := lists.feeds + [Using(data[c.id], c.response)]) else lists
    ensures HoldsUpTo(lists', rows, choices, j + 1, muted, data, p)
  {
  }

  /** The text of every unusable row of the given policies. */
  ghost function UnusableIn(grouped: Grouped, policies: set<int>): set<string>
    requires policies <= grouped.Keys
  {
    set p, i | p in policies && 0 <= i < |grouped[p]| && !Usable(grouped[p][i]) :: grouped[p][i].text
  }

  lemma NoneUnusable(grouped: Grouped)
    ensures UnusableIn(grouped, {}) == {}
  {
  }

  lemma MoreUnusable(grouped: Grouped, left: set<int>, p: int, unusable: seq<string>)
    requires p in grouped && p !in left && left <= grouped.Keys
    requires forall t :: t in unusable <==>
               exists i :: 0 <= i < |grouped[p]| && !Usable(grouped[p][i]) && grouped[p][i].text == t
    ensures UnusableIn(grouped, grouped.Keys - left)
         == UnusableIn(grouped, grouped.Keys - left - {p}) + set t | t in unusable
  {
  }

  /** Every group's lists, and the texts of its unusable rows. */
  method ListEach(grouped: Grouped) returns (policies: Loaded, bad: seq<string>)
    requires forall p :: p in grouped ==> ValidRows(grouped[p])
    ensures policies.Keys == grouped.Keys
    ensures forall p :: p in grouped ==> policies[p] == ListsOf(grouped[p])
    ensures forall t :: t in bad <==> t in UnusableIn(grouped, grouped.Keys)
  {
    hide ListsOf, Usable, UnusableIn;
    policies, bad := map[], [];
    var left := grouped.Keys;
    NoneUnusable(grouped);
    assert policies.Keys == {} == grouped.Keys - left;
    while left != {}
      invariant left <= grouped.Keys && policies.Keys == grouped.Keys - left
      invariant forall p :: p in policies ==> policies[p] == ListsOf(grouped[p])
      invariant forall t :: t in bad <==> t in UnusableIn(grouped, policies.Keys)
      decreases left
    {
      ghost var some := SomeMember(left);
      var p :| p in left;
      ghost var done := policies.Keys;
      left := left - {p};
      assert done == grouped.Keys - left - {p};
      var lists, unusable := BuildLists(grouped[p]);
      policies := policies[p := lists];
      MoreUnusable(grouped, left, p, unusable);
      bad := bad + unusable;
      assert policies.Keys == grouped.Keys - left;
    }
  }

  /** An unusable row some policy there is would have had. */
  ghost predicate Lost(known: seq<int>, rows: seq<Row>, i: nat)
    requires i < |rows|
  {
    !Usable(rows[i])
    && (rows[i].policy.Some? || known != [] || exists k :: 0 <= k < i && rows[k].policy.Some?)
  }

  lemma {:induction false} InGroup(known: seq<int>, rows: seq<Row>, p: int, r: Row)
    ensures (Group(known, rows, p).Some? && r in Group(known, rows, p).value)
            <==> exists i :: 0 <= i < |rows| && rows[i] == r && Joins(known, rows, i, p)
  {
    if rows != [] {
      var n := |rows| - 1;
      var front := rows[..n];
      InGroup(known, front, p, r);
      GroupExists(known, front, p);
      forall i | 0 <= i < n
        ensures front[i] == rows[i] && (Joins(known, front, i, p) <==> Joins(known, rows, i, p))
      {
        assert forall k :: 0 <= k < i ==> front[k] == rows[k];
      }
      if exists i :: 0 <= i < |front| && front[i] == r && Joins(known, front, i, p) {
        var i :| 0 <= i < |front| && front[i] == r && Joins(known, front, i, p);
        assert rows[i] == r && Joins(known, rows, i, p);
      }
      if exists i :: 0 <= i < |rows| && rows[i] == r && Joins(known, rows, i, p) {
        var i :| 0 <= i < |rows| && rows[i] == r && Joins(known, rows, i, p);
        if i < n { assert front[i] == r && Joins(known, front, i, p); }
      }
      hide Group;
      GroupStep(known, rows, p);
    }
  }

  lemma GroupStep(known: seq<int>, rows: seq<Row>, p: int)
    requires rows != []
    ensures var g, h, r := Group(known, rows[..|rows| - 1], p), Group(known, rows, p), rows[|rows| - 1];
            if r.policy == Some(p) || (r.policy == None && g.Some?)
            then h == Some((if g.Some? then g.value else []) + [r]) else h == g
  {
  }

  /** Row `i` goes to the policy's group. */
  ghost predicate Joins(known: seq<int>, rows: seq<Row>, i: nat, p: int)
    requires i < |rows|
  {
    rows[i].policy == Some(p)
    || (rows[i].policy == None && (p in known || exists k :: 0 <= k < i && rows[k].policy == Some(p)))
  }

  lemma {:induction false} GroupExists(known: seq<int>, rows: seq<Row>, p: int)
    ensures Group(known, rows, p).Some?
            <==> p in known || exists k :: 0 <= k < |rows| && rows[k].policy == Some(p)
  {
    if rows != [] {
      var front := rows[..|rows| - 1];
      GroupExists(known, front, p);
      assert forall k :: 0 <= k < |front| ==> front[k] == rows[k];
      assert rows[|rows| - 1].policy == Some(p) ==> Group(known, rows, p).Some?;
    }
  }

  lemma UnusableIsLost(known: seq<int>, rows: seq<Row>, grouped: Grouped, t: string)
    requires forall p :: p in grouped <==> Group(known, rows, p).Some?
    requires forall p :: p in grouped ==> grouped[p] == Group(known, rows, p).value
    ensures t in UnusableIn(grouped, grouped.Keys)
            <==> exists i :: 0 <= i < |rows| && Lost(known, rows, i) && rows[i].text == t
  {
    hide Usable, Group;
    if t in UnusableIn(grouped, grouped.Keys) {
      var p, n :| p in grouped && 0 <= n < |grouped[p]| && !Usable(grouped[p][n]) && grouped[p][n].text == t;
      var r := grouped[p][n];
      InGroup(known, rows, p, r);
      var i :| 0 <= i < |rows| && rows[i] == r && Joins(known, rows, i, p);
      assert Lost(known, rows, i);
    }
    if exists i :: 0 <= i < |rows| && Lost(known, rows, i) && rows[i].text == t {
      var i :| 0 <= i < |rows| && Lost(known, rows, i) && rows[i].text == t;
      var p := SomeJoins(known, rows, i);
      InGroup(known, rows, p, rows[i]);
      var n :| 0 <= n < |grouped[p]| && grouped[p][n] == rows[i];
    }
  }

  lemma SomeJoins(known: seq<int>, rows: seq<Row>, i: nat) returns (p: int)
    requires i < |rows| && Lost(known, rows, i)
    ensures Joins(known, rows, i, p)
  {
    if rows[i].policy.Some? {
      p := rows[i].policy.value;
    } else if known != [] {
      p := known[0];
    } else {
      var k :| 0 <= k < i && rows[k].policy.Some?;
      p := rows[k].policy.value;
    }
  }

  /** Every known policy gets its own lists, whatever the others hold; and the text of
      every unusable row lost to some policy is reported, in order and once. */
  method BuildPolicies(known: seq<int>, rows: seq<Row>, choices: seq<Choice>, muted: seq<Muted>,
                       data: map<string, FeedData>)
    returns (policies: Loaded, bad: seq<string>)
    requires ValidRows(rows)
    ensures forall p :: p in known ==> p in policies && HoldsUpTo(policies[p], rows, choices, |choices|, muted, data, p)
    ensures forall p :: p in policies ==>
              p in known || (exists i :: 0 <= i < |rows| && rows[i].policy == Some(p))
              || exists i :: 0 <= i < |choices| && choices[i].policy == Some(p)
    ensures Sorted(bad, StringLe) && Distinct(bad)
    ensures forall t :: t in bad <==> exists i :: 0 <= i < |rows| && Lost(known, rows, i) && rows[i].text == t
  {
    policies, bad := ListKnown(known, rows);
    forall p | p in known
      ensures HoldsUpTo(policies[p], rows, choices, 0, muted, data, p)
    {
      NoFeedsYet(rows, choices, muted, data, p);
    }
    StringLeOrders();
    ghost var unsorted := bad;
    bad := Sort(bad, StringLe);
    forall t
      ensures t in bad <==> t in unsorted
    {
      SortKeeps(unsorted, StringLe, t);
    }
    bad := Dedup(bad, StringLe);
    policies := AddFeeds(policies, known, rows, choices, muted, data);
  }

  /** Every policy's own rows, before any published list. */
  method ListKnown(known: seq<int>, rows: seq<Row>) returns (policies: Loaded, bad: seq<string>)
    requires ValidRows(rows)
    ensures forall p :: p in known ==> p in policies && ValidRows(RowsFor(rows, p))
    ensures forall p :: p in known ==> policies[p] == ListsOf(RowsFor(rows, p))
    ensures forall p :: p in policies ==> p in known || exists i :: 0 <= i < |rows| && rows[i].policy == Some(p)
    ensures forall t :: t in bad <==> exists i :: 0 <= i < |rows| && Lost(known, rows, i) && rows[i].text == t
  {
    hide ListsOf, Group, Lost, UnusableIn;
    var grouped := GroupRows(known, rows);
    forall p
      ensures p in grouped ==> ValidRows(grouped[p])
      ensures p in known ==> p in grouped && grouped[p] == RowsFor(rows, p)
      ensures p in grouped ==> p in known || exists i :: 0 <= i < |rows| && rows[i].policy == Some(p)
    {
      GroupIsValid(known, rows, p);
      GroupExists(known, rows, p);
      if p in known { GroupOfKnown(known, rows, p); }
    }
    policies, bad := ListEach(grouped);
    forall t
      ensures t in bad <==> exists i :: 0 <= i < |rows| && Lost(known, rows, i) && rows[i].text == t
    {
      UnusableIsLost(known, rows, grouped, t);
    }
  }

  /** The published lists each choice gives, to one policy or to every other. */
  method AddFeeds(own: Loaded, known: seq<int>, rows: seq<Row>, choices: seq<Choice>, muted: seq<Muted>,
                  data: map<string, FeedData>)
    returns (policies: Loaded)
    requires ValidRows(rows)
    requires forall p :: p in known ==> p in own && HoldsUpTo(own[p], rows, choices, 0, muted, data, p)
    ensures forall p :: p in known ==> p in policies && HoldsUpTo(policies[p], rows, choices, |choices|, muted, data, p)
    ensures forall p :: p in policies ==> p in own || exists i :: 0 <= i < |choices| && choices[i].policy == Some(p)
  {
    hide Using, HoldsUpTo, SaidItsOwn;
    policies := own;
    for j := 0 to |choices|
      invariant forall p :: p in known ==> p in policies && HoldsUpTo(policies[p], rows, choices, j, muted, data, p)
      invariant forall p :: p in policies ==> p in own || exists i :: 0 <= i < j && choices[i].policy == Some(p)
    {
      var c := choices[j];
      ghost var before := policies;
      if c.id in data {
        var f := Using(data[c.id], c.response);
        match c.policy {
          case Some(p) =>
            policies := policies[p := ListsIn(policies, p).(feeds := ListsIn(policies, p).feeds + [f])];
          case None =>
            policies := ShareChoice(policies, c, f, choices, muted);
        }
      }
      forall p | p in known
        ensures HoldsUpTo(policies[p], rows, choices, j + 1, muted, data, p)
      {
        OneMoreChoice(before[p], rows, choices, j, muted, data, p, policies[p]);
      }
    }
  }

  // ─── The verdict, as it is declared ──────────────────────

  /** Published lists as they were fetched, by name. */
  type Sources = map<string, seq<Block>>

  ghost predicate ValidSources(sources: Sources) {
    forall id :: id in sources ==> forall i :: 0 <= i < |sources[id]| ==> ValidBlock(sources[id][i])
  }

  ghost predicate LoadedFrom(data: map<string, FeedData>, sources: Sources)
    requires ValidSources(sources)
  {
    data.Keys == sources.Keys && forall id :: id in sources ==> data[id].ranges == Build(sources[id])
  }

  ghost predicate InSome(blocks: seq<Block>, ip: Ip)
    requires ValidIp(ip) && forall i :: 0 <= i < |blocks| ==> ValidBlock(blocks[i])
  {
    exists i :: 0 <= i < |blocks| && Contains(blocks[i], ip)
  }

  /** The row reaches the policy, puts the address on a list, and can be read. */
  ghost predicate RowSays(r: Row, p: int, kind: ListType, ip: Ip)
    requires ValidIp(ip) && (r.block.Some? ==> ValidBlock(r.block.value))
  {
    RowReaches(r, p) && r.kind == Some(kind) && r.block.Some? && Contains(r.block.value, ip)
  }

  ghost predicate OnRow(rows: seq<Row>, p: int, kind: ListType, ip: Ip)
    requires ValidRows(rows) && ValidIp(ip)
  {
    exists i :: 0 <= i < |rows| && RowSays(rows[i], p, kind, ip)
  }

  /** The choice reaches the policy and its list, which is loaded, has the address. */
  ghost predicate ChoiceSays(c: Choice, choices: seq<Choice>, muted: seq<Muted>, sources: Sources, p: int,
                             want: Response, ip: Ip)
    requires ValidSources(sources) && ValidIp(ip)
  {
    c.response == want && c.id in sources && ChoiceReaches(c, choices, muted, p) && InSome(sources[c.id], ip)
  }

  ghost predicate OnPublished(choices: seq<Choice>, muted: seq<Muted>, sources: Sources, p: int, want: Response, ip: Ip)
    requires ValidSources(sources) && ValidIp(ip)
  {
    exists i :: 0 <= i < |choices| && ChoiceSays(choices[i], choices, muted, sources, p, want, ip)
  }

  datatype Outcome = NoList | AllowedByHand | BlockedByHand | ByPublished(response: Response)

  function OutcomeOf(l: Option<Listed>): Outcome {
    match l
    case None => NoList
    case Some(Allowed) => AllowedByHand
    case Some(Blocked) => BlockedByHand
    case Some(Published(f)) => ByPublished(f.response)
  }

  /** Allow anywhere beats block; then the published lists that block, then those
      that challenge. */
  ghost function Declared(rows: seq<Row>, choices: seq<Choice>, muted: seq<Muted>, sources: Sources, p: int,
                          ip: Ip): Outcome
    requires ValidRows(rows) && ValidSources(sources) && ValidIp(ip)
  {
    if OnRow(rows, p, AllowList, ip) then AllowedByHand
    else if OnRow(rows, p, BlockList, ip) then BlockedByHand
    else if OnPublished(choices, muted, sources, p, Refuse, ip) then ByPublished(Refuse)
    else if OnPublished(choices, muted, sources, p, Challenge, ip) then ByPublished(Challenge)
    else NoList
  }

  lemma InOneMore(blocks: seq<Block>, c: Block, ip: Ip)
    requires ValidIp(ip) && ValidBlock(c) && forall i :: 0 <= i < |blocks| ==> ValidBlock(blocks[i])
    ensures forall i :: 0 <= i < |blocks + [c]| ==> ValidBlock((blocks + [c])[i])
    ensures InSome(blocks + [c], ip) <==> InSome(blocks, ip) || Contains(c, ip)
  {
    hide Contains;
    if InSome(blocks, ip) {
      var i :| 0 <= i < |blocks| && Contains(blocks[i], ip);
      assert (blocks + [c])[i] == blocks[i];
    }
    if Contains(c, ip) {
      assert (blocks + [c])[|blocks|] == c;
    }
  }

  lemma {:induction false} RowsForHold(rows: seq<Row>, p: int, kind: ListType, ip: Ip)
    requires ValidRows(rows) && ValidIp(ip)
    ensures ValidRows(RowsFor(rows, p))
    ensures InSome(BlocksOf(RowsFor(rows, p), kind), ip) <==> OnRow(rows, p, kind, ip)
  {
    hide Contains;
    RowsForAreValid(rows, p);
    if rows != [] {
      var n := |rows| - 1;
      var front, r := rows[..n], rows[n];
      assert forall i :: 0 <= i < n ==> front[i] == rows[i];
      RowsForHold(front, p, kind, ip);
      if RowReaches(r, p) {
        BlocksOfMore(RowsFor(front, p), r, kind, ip);
      }
      OnRowLast(rows, p, kind, ip);
    }
  }

  lemma BlocksOfMore(mine: seq<Row>, r: Row, kind: ListType, ip: Ip)
    requires ValidRows(mine) && ValidRows(mine + [r]) && ValidIp(ip) && (r.block.Some? ==> ValidBlock(r.block.value))
    ensures InSome(BlocksOf(mine + [r], kind), ip) <==>
            InSome(BlocksOf(mine, kind), ip) || (r.kind == Some(kind) && r.block.Some? && Contains(r.block.value, ip))
  {
    hide Contains;
    assert (mine + [r])[..|mine + [r]| - 1] == mine;
    if r.block.Some? && r.kind == Some(kind) {
      InOneMore(BlocksOf(mine, kind), r.block.value, ip);
    }
  }

  lemma OnRowLast(rows: seq<Row>, p: int, kind: ListType, ip: Ip)
    requires ValidRows(rows) && ValidIp(ip) && rows != []
    ensures ValidRows(rows[..|rows| - 1])
    ensures OnRow(rows, p, kind, ip)
            <==> OnRow(rows[..|rows| - 1], p, kind, ip) || RowSays(rows[|rows| - 1], p, kind, ip)
  {
    hide Contains, RowReaches;
    var front := rows[..|rows| - 1];
    assert forall i :: 0 <= i < |front| ==> front[i] == rows[i];
  }

  /** A feed of some response holding the address, wherever it stands. */
  ghost predicate SomeFeed(feeds: seq<Feed>, want: Response, ip: Ip) {
    exists i :: 0 <= i < |feeds| && feeds[i].response == want && ContainsIp(feeds[i].ranges, ip)
  }

  lemma {:induction false} FirstFeedIsSome(feeds: seq<Feed>, want: Response, ip: Ip)
    ensures FirstFeed(feeds, want, ip).Some? <==> SomeFeed(feeds, want, ip)
    ensures FirstFeed(feeds, want, ip).Some? ==>
              FirstFeed(feeds, want, ip).value in feeds && FirstFeed(feeds, want, ip).value.response == want
  {
    hide ContainsIp;
    if feeds != [] {
      FirstFeedIsSome(feeds[1..], want, ip);
      assert forall i :: 1 <= i < |feeds| ==> feeds[i] == feeds[1..][i - 1];
      assert forall i :: 0 <= i < |feeds[1..]| ==> feeds[1..][i] == feeds[i + 1];
    }
  }

  lemma {:induction false} FeedsForHold(choices: seq<Choice>, n: nat, muted: seq<Muted>, data: map<string, FeedData>,
                                        sources: Sources, p: int, want: Response, ip: Ip)
    requires n <= |choices| && ValidSources(sources) && LoadedFrom(data, sources) && ValidIp(ip)
    ensures SomeFeed(FeedsFor(choices, n, muted, data, p), want, ip) <==>
            exists i :: 0 <= i < n && ChoiceSays(choices[i], choices, muted, sources, p, want, ip)
  {
    hide ContainsIp, InSome, ChoiceReaches, Build;
    if n > 0 {
      var c := choices[n - 1];
      var rest := FeedsFor(choices, n - 1, muted, data, p);
      FeedsForHold(choices, n - 1, muted, data, sources, p, want, ip);
      if c.id in data && ChoiceReaches(c, choices, muted, p) {
        SomeFeedMore(rest, Using(data[c.id], c.response), want, ip);
        SourceHolds(sources, c.id, ip);
      }
    }
  }

  lemma SomeFeedMore(feeds: seq<Feed>, f: Feed, want: Response, ip: Ip)
    ensures SomeFeed(feeds + [f], want, ip)
            <==> SomeFeed(feeds, want, ip) || (f.response == want && ContainsIp(f.ranges, ip))
  {
    hide ContainsIp;
    assert forall i :: 0 <= i < |feeds| ==> (feeds + [f])[i] == feeds[i];
    assert (feeds + [f])[|feeds|] == f;
  }

  lemma SourceHolds(sources: Sources, id: string, ip: Ip)
    requires ValidSources(sources) && id in sources && ValidIp(ip)
    ensures ContainsIp(Build(sources[id]), ip) <==> InSome(sources[id], ip)
  {
    hide Contains, ContainsIp, Build;
    IndexIsBlocks(sources[id], ip);
  }

  /** For every policy the build knows, checking an address gives the verdict
      declared: by whichever page, row order or list order it was written. */
  lemma VerdictIsDeclared(lists: Lists, rows: seq<Row>, choices: seq<Choice>, muted: seq<Muted>,
                          data: map<string, FeedData>, sources: Sources, p: int, ip: Ip)
    requires ValidRows(rows) && ValidSources(sources) && LoadedFrom(data, sources) && ValidIp(ip)
    requires HoldsUpTo(lists, rows, choices, |choices|, muted, data, p)
    ensures OutcomeOf(Check(lists, ip)) == Declared(rows, choices, muted, sources, p, ip)
  {
    hide Contains, ContainsIp, Build, InSome, OnRow, SomeFeed, FirstFeed, ChoiceSays, LoadedFrom, ValidSources;
    RowsForHold(rows, p, AllowList, ip);
    RowsForHold(rows, p, BlockList, ip);
    BuiltHolds(BlocksOf(RowsFor(rows, p), AllowList), ip);
    BuiltHolds(BlocksOf(RowsFor(rows, p), BlockList), ip);
    FeedsForHold(choices, |choices|, muted, data, sources, p, Refuse, ip);
    FeedsForHold(choices, |choices|, muted, data, sources, p, Challenge, ip);
    FirstFeedIsSome(lists.feeds, Refuse, ip);
    FirstFeedIsSome(lists.feeds, Challenge, ip);
  }

  lemma BuiltHolds(blocks: seq<Block>, ip: Ip)
    requires ValidIp(ip) && forall i :: 0 <= i < |blocks| ==> ValidBlock(blocks[i])
    ensures ContainsIp(Build(blocks), ip) <==> InSome(blocks, ip)
  {
    hide Contains, ContainsIp, Build;
    IndexIsBlocks(blocks, ip);
  }

  // ─── Which published list is named ───────────────────────

  /** A list with the response that holds the address, and none such before it. */
  ghost predicate FirstOf(feeds: seq<Feed>, i: nat, want: Response, ip: Ip) {
    && i < |feeds| && feeds[i].response == want && ContainsIp(feeds[i].ranges, ip)
    && forall k :: 0 <= k < i ==> feeds[k].response != want || !ContainsIp(feeds[k].ranges, ip)
  }

  lemma {:induction false} FirstFeedIsFirst(feeds: seq<Feed>, want: Response, ip: Ip)
    ensures FirstFeed(feeds, want, ip).Some? ==>
              exists i: nat :: FirstOf(feeds, i, want, ip) && FirstFeed(feeds, want, ip) == Some(feeds[i])
  {
    hide ContainsIp;
    if feeds != [] && FirstFeed(feeds, want, ip).Some? {
      if feeds[0].response == want && ContainsIp(feeds[0].ranges, ip) {
        assert FirstOf(feeds, 0, want, ip);
      } else {
        FirstFeedIsFirst(feeds[1..], want, ip);
        var i: nat :| FirstOf(feeds[1..], i, want, ip) && FirstFeed(feeds[1..], want, ip) == Some(feeds[1..][i]);
        assert forall k :: 1 <= k < i + 1 ==> feeds[k] == feeds[1..][k - 1];
        assert FirstOf(feeds, i + 1, want, ip);
      }
    }
  }

  /** For any lists at all: a published list is named exactly when no list by hand
      holds the address, and it is the first to hold it of those that refuse, or of
      those that challenge if none that refuses does. */
  lemma NamedIsFirst(l: Lists, ip: Ip, f: Feed)
    ensures Check(l, ip) == Some(Published(f))
            <==> && !ContainsIp(l.allow, ip) && !ContainsIp(l.block, ip)
                 && (exists i: nat :: FirstOf(l.feeds, i, f.response, ip) && l.feeds[i] == f)
                 && (f.response == Challenge ==> !SomeFeed(l.feeds, Refuse, ip))
  {
    hide ContainsIp, FirstFeed;
    FirstFeedIsSome(l.feeds, Refuse, ip);
    FirstFeedIsSome(l.feeds, Challenge, ip);
    FirstFeedIsFirst(l.feeds, Refuse, ip);
    FirstFeedIsFirst(l.feeds, Challenge, ip);
    if i: nat :| FirstOf(l.feeds, i, f.response, ip) && l.feeds[i] == f {
      OneFirst(l.feeds, f.response, ip, i);
    }
  }

  lemma OneFirst(feeds: seq<Feed>, want: Response, ip: Ip, i: nat)
    requires FirstOf(feeds, i, want, ip)
    ensures FirstFeed(feeds, want, ip) == Some(feeds[i])
  {
    hide ContainsIp, FirstFeed;
    FirstFeedIsSome(feeds, want, ip);
    FirstFeedIsFirst(feeds, want, ip);
    assert SomeFeed(feeds, want, ip);
    var j: nat :| FirstOf(feeds, j, want, ip) && FirstFeed(feeds, want, ip) == Some(feeds[j]);
    assert i == j;
  }

  /** Choice `i` gives the policy a list, loaded, with the response and the address in
      one of its blocks: it is the policy's own, or every policy's and the policy has
      neither chosen that list itself nor muted it. */
  ghost predicate Speaks(choices: seq<Choice>, i: nat, muted: seq<Muted>, sources: Sources, p: int, want: Response,
                         ip: Ip)
    requires ValidSources(sources) && ValidIp(ip) && i < |choices|
  {
    var c := choices[i];
    && c.response == want && c.id in sources
    && (exists k :: 0 <= k < |sources[c.id]| && Contains(sources[c.id][k], ip))
    && (c.policy == Some(p)
        || (c.policy == None && Muted(p, c.id) !in muted
            && forall d :: d in choices && d.policy == Some(p) ==> d.id != c.id))
  }

  lemma SpeaksIsSays(choices: seq<Choice>, i: nat, muted: seq<Muted>, sources: Sources, p: int, want: Response, ip: Ip)
    requires ValidSources(sources) && ValidIp(ip) && i < |choices|
    ensures Speaks(choices, i, muted, sources, p, want, ip)
            <==> ChoiceSays(choices[i], choices, muted, sources, p, want, ip)
  {
    hide Contains, ValidSources;
    var id := choices[i].id;
    assert (exists d :: d in choices && d.policy == Some(p) && d.id == id)
           <==> exists k :: 0 <= k < |choices| && choices[k].policy == Some(p) && choices[k].id == id;
  }

  ghost predicate FirstToSpeak(choices: seq<Choice>, n: nat, i: nat, muted: seq<Muted>, sources: Sources, p: int,
                               want: Response, ip: Ip)
    requires ValidSources(sources) && ValidIp(ip) && n <= |choices|
  {
    && i < n && Speaks(choices, i, muted, sources, p, want, ip)
    && forall k :: 0 <= k < i ==> !Speaks(choices, k, muted, sources, p, want, ip)
  }

  lemma FirstOfMore(feeds: seq<Feed>, f: Feed, want: Response, ip: Ip)
    ensures FirstFeed(feeds + [f], want, ip)
            == if FirstFeed(feeds, want, ip).Some? then FirstFeed(feeds, want, ip)
               else if f.response == want && ContainsIp(f.ranges, ip) then Some(f) else None
  {
    hide ContainsIp;
    if feeds != [] {
      assert (feeds + [f])[1..] == feeds[1..] + [f];
      FirstOfMore(feeds[1..], f, want, ip);
    }
  }

  /** Feed `f` is the list of choice `i`, the first of the first `n` to speak. */
  ghost predicate NamedBy(f: Feed, choices: seq<Choice>, n: nat, i: nat, muted: seq<Muted>,
                          data: map<string, FeedData>, sources: Sources, p: int, ip: Ip)
    requires ValidSources(sources) && ValidIp(ip) && n <= |choices|
  {
    && FirstToSpeak(choices, n, i, muted, sources, p, f.response, ip)
    && choices[i].id in data && f.id == data[choices[i].id].id && f.name == data[choices[i].id].name
  }

  lemma {:induction false} FirstFeedSpeaks(choices: seq<Choice>, n: nat, muted: seq<Muted>,
                                           data: map<string, FeedData>, sources: Sources, p: int, want: Response,
                                           ip: Ip)
    requires n <= |choices| && ValidSources(sources) && LoadedFrom(data, sources) && ValidIp(ip)
    ensures var r := FirstFeed(FeedsFor(choices, n, muted, data, p), want, ip);
            if r.None? then forall k :: 0 <= k < n ==> !Speaks(choices, k, muted, sources, p, want, ip)
            else r.value.response == want
                 && exists i: nat :: NamedBy(r.value, choices, n, i, muted, data, sources, p, ip)
  {
    hide ContainsIp, InSome, ChoiceReaches, Build, Speaks, FirstFeed, Using, ValidSources;
    if n == 0 {
      NoFeeds(want, ip);
    } else {
      var c := choices[n - 1];
      var rest := FeedsFor(choices, n - 1, muted, data, p);
      FirstFeedSpeaks(choices, n - 1, muted, data, sources, p, want, ip);
      SpeaksIsSays(choices, n - 1, muted, sources, p, want, ip);
      if c.id in data && ChoiceReaches(c, choices, muted, p) {
        var f := Using(data[c.id], c.response);
        FirstOfMore(rest, f, want, ip);
        SourceHolds(sources, c.id, ip);
        UsingKeeps(data[c.id], c.response);
        if FirstFeed(rest, want, ip).None? && Speaks(choices, n - 1, muted, sources, p, want, ip) {
          assert NamedBy(f, choices, n, n - 1, muted, data, sources, p, ip);
        }
      }
      if FirstFeed(rest, want, ip).Some? {
        var f := FirstFeed(rest, want, ip).value;
        var i: nat :| NamedBy(f, choices, n - 1, i, muted, data, sources, p, ip);
        assert NamedBy(f, choices, n, i, muted, data, sources, p, ip);
      }
    }
  }

  lemma NoFeeds(want: Response, ip: Ip)
    ensures FirstFeed([], want, ip) == None
  {
  }

  lemma UsingKeeps(d: FeedData, response: Response)
    ensures Using(d, response) == Feed(d.id, d.name, response, d.ranges)
  {
  }

  /** For lists as built: the published list named is the one of the first choice that
      gives the policy a list with that response and the address in it, under its own
      identifier and name; and it challenges only if no list that reaches the policy
      and has the address refuses. */
  lemma NamedListHasIt(lists: Lists, rows: seq<Row>, choices: seq<Choice>, muted: seq<Muted>,
                       data: map<string, FeedData>, sources: Sources, p: int, ip: Ip, f: Feed)
    requires ValidRows(rows) && ValidSources(sources) && LoadedFrom(data, sources) && ValidIp(ip)
    requires HoldsUpTo(lists, rows, choices, |choices|, muted, data, p)
    requires Check(lists, ip) == Some(Published(f))
    ensures exists i: nat :: NamedBy(f, choices, |choices|, i, muted, data, sources, p, ip)
    ensures f.response == Challenge ==>
              forall i :: 0 <= i < |choices| ==> !Speaks(choices, i, muted, sources, p, Refuse, ip)
  {
    hide Contains, ContainsIp, Build, FirstFeed, Speaks, LoadedFrom, ValidSources, FeedsFor, SomeFeed, NamedBy;
    FirstFeedIsSome(lists.feeds, Refuse, ip);
    FirstFeedIsSome(lists.feeds, Challenge, ip);
    FirstFeedSpeaks(choices, |choices|, muted, data, sources, p, Refuse, ip);
    FirstFeedSpeaks(choices, |choices|, muted, data, sources, p, Challenge, ip);
  }

  /** The verdict does not depend on the order, or the repetition, of rows,
      choices or muted lists. */
  lemma VerdictIgnoresOrder(rows: seq<Row>, rows': seq<Row>, choices: seq<Choice>, choices': seq<Choice>,
                            muted: seq<Muted>, muted': seq<Muted>, sources: Sources, p: int, ip: Ip)
    requires ValidRows(rows) && ValidRows(rows') && ValidSources(sources) && ValidIp(ip)
    requires (forall r :: r in rows <==> r in rows') && (forall c :: c in choices <==> c in choices')
    requires forall m :: m in muted <==> m in muted'
    ensures Declared(rows, choices, muted, sources, p, ip) == Declared(rows', choices', muted', sources, p, ip)
  {
    hide RowSays, ChoiceSays;
    forall kind
      ensures OnRow(rows, p, kind, ip) <==> OnRow(rows', p, kind, ip)
    {
      SomeRow(rows, rows', p, kind, ip);
      SomeRow(rows', rows, p, kind, ip);
    }
    forall want
      ensures OnPublished(choices, muted, sources, p, want, ip) <==> OnPublished(choices', muted', sources, p, want, ip)
    {
      SomeChoice(choices, choices', muted, muted', sources, p, want, ip);
      SomeChoice(choices', choices, muted', muted, sources, p, want, ip);
    }
  }

  lemma SomeRow(rows: seq<Row>, rows': seq<Row>, p: int, kind: ListType, ip: Ip)
    requires ValidRows(rows) && ValidRows(rows') && ValidIp(ip) && forall r :: r in rows ==> r in rows'
    ensures OnRow(rows, p, kind, ip) ==> OnRow(rows', p, kind, ip)
  {
    hide Contains;
    if OnRow(rows, p, kind, ip) {
      var i :| 0 <= i < |rows| && RowSays(rows[i], p, kind, ip);
      assert rows[i] in rows';
      var j :| 0 <= j < |rows'| && rows'[j] == rows[i];
    }
  }

  lemma SameSaid(choices: seq<Choice>, choices': seq<Choice>, muted: seq<Muted>, muted': seq<Muted>, p: int, id: string)
    requires (forall c :: c in choices ==> c in choices') && forall m :: m in muted ==> m in muted'
    ensures SaidItsOwn(choices, muted, p, id) ==> SaidItsOwn(choices', muted', p, id)
  {
    if i :| 0 <= i < |choices| && choices[i].policy == Some(p) && choices[i].id == id {
      assert choices[i] in choices';
    } else if i :| 0 <= i < |muted| && muted[i] == Muted(p, id) {
      assert muted[i] in muted';
    }
  }

  lemma SomeChoice(choices: seq<Choice>, choices': seq<Choice>, muted: seq<Muted>, muted': seq<Muted>,
                   sources: Sources, p: int, want: Response, ip: Ip)
    requires ValidSources(sources) && ValidIp(ip)
    requires (forall c :: c in choices <==> c in choices') && forall m :: m in muted <==> m in muted'
    ensures OnPublished(choices, muted, sources, p, want, ip) ==> OnPublished(choices', muted', sources, p, want, ip)
  {
    hide InSome, SaidItsOwn;
    if OnPublished(choices, muted, sources, p, want, ip) {
      var i :| 0 <= i < |choices| && ChoiceSays(choices[i], choices, muted, sources, p, want, ip);
      var c := choices[i];
      assert c in choices';
      var j :| 0 <= j < |choices'| && choices'[j] == c;
      SameSaid(choices', choices, muted', muted, p, c.id);
      assert ChoiceSays(choices'[j], choices', muted', sources, p, want, ip);
    }
  }
}
