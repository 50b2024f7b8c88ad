/** Positioned contents of one buffer as patterns, and a rule's contents as
    conditions (scripts/suricata2easywaf.py, `gap`, `literal` and the content
    part of `convert_rule`). */
module ContentChain {
  import opened Options
  import opened Regex

  /** A content's modifiers, as the rule gives them. */
  datatype Mods = Mods(
    nocase: bool, offset: Option<nat>, depth: Option<nat>, startswith: bool, endswith: bool,
    distance: Option<int>, within: Option<int>)

  datatype Content = Content(data: string, mods: Mods)

  predicate IsRelative(c: Content) {
    c.mods.distance.Some? || c.mods.within.Some?
  }

  function OrElse<T>(o: Option<T>, other: T): T {
    if o.Some? then o.value else other
  }

  // ─── What a rule asks ────────────────────────────────────

  predicate SameText(c: Content, s: string, p: nat)
    requires p + |c.data| <= |s|
  {
    if c.mods.nocase then forall k :: 0 <= k < |c.data| ==> Lower(s[p + k]) == Lower(c.data[k])
    else s[p..p + |c.data|] == c.data
  }

  /** The content stands at `p`, at the buffer's end if it must. */
  predicate Sits(c: Content, s: string, p: nat) {
    p + |c.data| <= |s| && SameText(c, s, p) && (c.mods.endswith ==> p + |c.data| == |s|)
  }

  /** Where a content of its own may stand. A content said to start the buffer is
      taken at its word, whatever else is said of its place. */
  predicate Placed(c: Content, p: nat) {
    if c.mods.startswith then p == 0
    else
      && OrElse(c.mods.offset, 0) <= p
      && (c.mods.depth.Some? ==> p + |c.data| <= OrElse(c.mods.offset, 0) + c.mods.depth.value)
  }

  /** Where a content tied to the one before, which ended at `end`, may stand. */
  predicate Follows(c: Content, end: nat, p: nat) {
    var from := end + OrElse(c.mods.distance, 0);
    && from <= p
    && (c.mods.within.Some? ==> p + |c.data| <= from + c.mods.within.value)
  }

  /** Positions for every content of a chain that satisfy every constraint. */
  ghost predicate Placement(chain: seq<Content>, s: string, at: seq<nat>) {
    && |at| == |chain|
    && (forall i :: 0 <= i < |chain| ==> Sits(chain[i], s, at[i]))
    && (chain != [] ==> Placed(chain[0], at[0]))
    && (forall i :: 1 <= i < |chain| ==> Follows(chain[i], at[i - 1] + |chain[i - 1].data|, at[i]))
  }

  ghost predicate Placeable(chain: seq<Content>, s: string) {
    exists at :: Placement(chain, s, at)
  }

  // ─── What the converter writes ───────────────────────────

  predicate IsAscii(data: string) {
    forall i :: 0 <= i < |data| ==> data[i] as int < 0x80
  }

  function Literal(c: Content): Re {
    if c.mods.nocase then Fold(c.data) else Lit(c.data)
  }

  /** The gap a relative content allows before it, or nothing where it is refused. */
  function Gap(distance: int, within: Option<int>, length: nat): Option<Re> {
    if distance < 0 then None
    else if within.Some? then
      var hi := distance + within.value - length;
      if hi < distance then None
      else if hi > 0 then Some(Rep(Any, distance, Some(hi)))
      else Some(Lit(""))
    else if distance > 0 then Some(Rep(Any, distance, None))
    else Some(Rep(Any, 0, None))
  }

  function Ended(c: Content, r: Re): Re {
    if c.mods.endswith then Cat(r, Eol) else r
  }

  /** The contents that can be written: in ASCII; if tied, never before the end of
      the one it is tied to, and within room enough; if not, to a depth that holds it,
      which a content said to start the buffer is not asked. */
  predicate Expressible(c: Content) {
    && IsAscii(c.data)
    && if c.mods.distance.Some? || c.mods.within.Some? then
         && (c.mods.distance.Some? ==> c.mods.distance.value >= 0)
         && (c.mods.within.Some? ==> c.mods.within.value >= |c.data|)
       else c.mods.startswith || (c.mods.depth.Some? ==> c.mods.depth.value >= |c.data|)
  }

  /** One content as a piece, or nothing where it is refused. */
  function Piece(c: Content): (r: Option<Re>)
    ensures r.Some? <==> Expressible(c)
  {
    if !IsAscii(c.data) then None
    else if IsRelative(c) then
      match Gap(OrElse(c.mods.distance, 0), c.mods.within, |c.data|)
      case None => None
      case Some(g) => Some(Ended(c, Cat(g, Literal(c))))
    else if c.mods.startswith then Some(Ended(c, Cat(Bol, Literal(c))))
    else
      var lo := OrElse(c.mods.offset, 0);
      if c.mods.depth.Some? then
        if c.mods.depth.value < |c.data| then None
        else Some(Ended(c, Cat(Cat(Bol, Rep(Any, lo, Some(lo + c.mods.depth.value - |c.data|))), Literal(c))))
      else if lo > 0 then Some(Ended(c, Cat(Cat(Bol, Rep(Any, lo, None)), Literal(c))))
      else Some(Ended(c, Literal(c)))
  }

  /** A content and those tied after it, as one pattern. */
  function ChainRe(chain: seq<Content>): Re
    requires chain != [] && forall i :: 0 <= i < |chain| ==> Expressible(chain[i])
  {
    var last := Piece(chain[|chain| - 1]).value;
    if |chain| == 1 then last else Cat(ChainRe(chain[..|chain| - 1]), last)
  }

  // ─── A piece matches where its content may stand ─────────

  lemma LiteralMatches(c: Content, s: string, i: nat, j: nat)
    requires i <= j <= |s|
    ensures M(Literal(c), s, i, j) <==> j == i + |c.data| && SameText(c, s, i)
  {
  }

  lemma GapMatches(c: Content, s: string, i: nat, j: nat)
    requires i <= j <= |s| && Gap(OrElse(c.mods.distance, 0), c.mods.within, |c.data|).Some?
    ensures M(Gap(OrElse(c.mods.distance, 0), c.mods.within, |c.data|).value, s, i, j) <==> Follows(c, i, j)
  {
    hide M;
    var d := OrElse(c.mods.distance, 0);
    if c.mods.within.Some? {
      var hi := d + c.mods.within.value - |c.data|;
      if hi > 0 {
        RepOfClass(Any, d, Some(hi), s, i, j);
      } else {
        NothingMatches(s, i, j);
      }
    } else {
      RepOfClass(Any, d, None, s, i, j);
      RepOfClass(Any, 0, None, s, i, j);
    }
  }

  lemma NothingMatches(s: string, i: nat, j: nat)
    requires i <= j <= |s|
    ensures M(Lit(""), s, i, j) <==> i == j
  {
  }

  lemma EndedMatches(c: Content, r: Re, s: string, i: nat, j: nat)
    requires i <= j <= |s|
    ensures M(Ended(c, r), s, i, j) <==> M(r, s, i, j) && (c.mods.endswith ==> j == |s|)
  {
    hide M;
    Anchors(s, i, i, j, j);
    if c.mods.endswith {
      if M(Cat(r, Eol), s, i, j) {
        var k := CatSplit(r, Eol, s, i, j);
        Anchors(s, i, i, k, j);
      }
      if M(r, s, i, j) && j == |s| {
        CatJoin(r, Eol, s, i, j, j);
      }
    }
  }

  /** Where a relative content ends is where some allowed gap leads. */
  lemma RelativeMatches(c: Content, s: string, i: nat, j: nat)
    requires i <= j <= |s| && Expressible(c) && IsRelative(c)
    ensures M(Piece(c).value, s, i, j) <==>
            exists p: nat :: i <= p && p + |c.data| == j && Follows(c, i, p) && Sits(c, s, p)
  {
    var g := Gap(OrElse(c.mods.distance, 0), c.mods.within, |c.data|).value;
    hide M, SameText, Follows, Gap;
    EndedMatches(c, Cat(g, Literal(c)), s, i, j);
    if M(Piece(c).value, s, i, j) {
      var p := CatSplit(g, Literal(c), s, i, j);
      GapMatches(c, s, i, p);
      LiteralMatches(c, s, p, j);
      assert Follows(c, i, p) && Sits(c, s, p);
    }
    if exists p: nat :: i <= p && p + |c.data| == j && Follows(c, i, p) && Sits(c, s, p) {
      var p: nat :| i <= p && p + |c.data| == j && Follows(c, i, p) && Sits(c, s, p);
      GapMatches(c, s, i, p);
      LiteralMatches(c, s, p, j);
      CatJoin(g, Literal(c), s, i, p, j);
    }
  }

  /** The pattern matches up to `j`, from wherever. */
  ghost predicate ReachesTo(r: Re, s: string, j: nat)
    requires j <= |s|
  {
    exists i: nat :: i <= j && M(r, s, i, j)
  }

  /** An anchored run of any characters reaches exactly the places it allows. */
  lemma AnchoredGap(lo: nat, hi: Option<nat>, s: string, i: nat, p: nat)
    requires i <= p <= |s|
    ensures M(Cat(Bol, Rep(Any, lo, hi)), s, i, p) <==> i == 0 && lo <= p && (hi.Some? ==> p <= hi.value)
  {
    hide M;
    if M(Cat(Bol, Rep(Any, lo, hi)), s, i, p) {
      var k := CatSplit(Bol, Rep(Any, lo, hi), s, i, p);
      Anchors(s, i, k, p, p);
      RepOfClass(Any, lo, hi, s, k, p);
    }
    if i == 0 && lo <= p && (hi.Some? ==> p <= hi.value) {
      Anchors(s, 0, 0, p, p);
      RepOfClass(Any, lo, hi, s, 0, p);
      CatJoin(Bol, Rep(Any, lo, hi), s, 0, 0, p);
    }
  }

  /** A prefix before a literal reaches where the prefix can lead. */
  lemma LeadsTo(lead: Re, c: Content, s: string, j: nat)
    requires j <= |s|
    requires forall i: nat, p: nat :: i <= p <= |s| && M(lead, s, i, p) ==> i == 0 && Placed(c, p)
    requires forall p: nat :: p <= |s| && p + |c.data| <= |s| && Placed(c, p) ==> M(lead, s, 0, p)
    ensures ReachesTo(Ended(c, Cat(lead, Literal(c))), s, j) <==>
            exists p: nat :: p + |c.data| == j && Placed(c, p) && Sits(c, s, p)
  {
    hide M, SameText, Placed, Ended;
    var r := Cat(lead, Literal(c));
    if ReachesTo(Ended(c, r), s, j) {
      var i: nat :| i <= j && M(Ended(c, r), s, i, j);
      EndedMatches(c, r, s, i, j);
      var p := CatSplit(lead, Literal(c), s, i, j);
      LiteralMatches(c, s, p, j);
      assert Placed(c, p) && Sits(c, s, p);
    }
    if exists p: nat :: p + |c.data| == j && Placed(c, p) && Sits(c, s, p) {
      var p: nat :| p + |c.data| == j && Placed(c, p) && Sits(c, s, p);
      LiteralMatches(c, s, p, j);
      CatJoin(lead, Literal(c), s, 0, p, j);
      EndedMatches(c, r, s, 0, j);
    }
  }

  lemma HeadMatches(c: Content, s: string, j: nat)
    requires j <= |s| && Expressible(c) && !IsRelative(c)
    ensures ReachesTo(Piece(c).value, s, j) <==>
            exists p: nat :: p + |c.data| == j && Placed(c, p) && Sits(c, s, p)
  {
    hide M, SameText, Ended;
    var lo := OrElse(c.mods.offset, 0);
    if c.mods.startswith {
      forall i: nat, p: nat | i <= p <= |s|
        ensures M(Bol, s, i, p) <==> i == 0 && p == 0
      {
        Anchors(s, i, p, p, p);
      }
      LeadsTo(Bol, c, s, j);
    } else if c.mods.depth.Some? || lo > 0 {
      var hi := if c.mods.depth.Some? then Some(lo + c.mods.depth.value - |c.data|) else None;
      var lead := Cat(Bol, Rep(Any, lo, hi));
      forall i: nat, p: nat | i <= p <= |s|
        ensures M(lead, s, i, p) <==> i == 0 && lo <= p && (hi.Some? ==> p <= hi.value)
      {
        AnchoredGap(lo, hi, s, i, p);
      }
      LeadsTo(lead, c, s, j);
    } else {
      FreeMatches(c, s, j);
    }
  }

  lemma FreeMatches(c: Content, s: string, j: nat)
    requires j <= |s|
    ensures ReachesTo(Ended(c, Literal(c)), s, j) <==> exists p: nat :: p + |c.data| == j && Sits(c, s, p)
  {
    hide M, SameText, Ended;
    forall i: nat | i <= j
      ensures M(Ended(c, Literal(c)), s, i, j) <==> i + |c.data| == j && Sits(c, s, i)
    {
      EndedMatches(c, Literal(c), s, i, j);
      LiteralMatches(c, s, i, j);
    }
  }

  // ─── A chain matches where all its contents may stand ────

  /** A chain begins with a content of its own; the rest are tied. */
  ghost predicate IsChain(chain: seq<Content>) {
    && chain != [] && !IsRelative(chain[0])
    && (forall i :: 1 <= i < |chain| ==> IsRelative(chain[i]))
    && (forall i :: 0 <= i < |chain| ==> Expressible(chain[i]))
  }

  ghost predicate EndsAt(chain: seq<Content>, s: string, at: seq<nat>, j: nat) {
    chain != [] && Placement(chain, s, at) && at[|at| - 1] + |chain[|chain| - 1].data| == j
  }

  lemma {:induction false} ChainReaches(chain: seq<Content>, s: string, j: nat)
    requires IsChain(chain) && j <= |s|
    ensures ReachesTo(ChainRe(chain), s, j) <==> exists at :: EndsAt(chain, s, at, j)
    decreases |chain|, 1
  {
    hide M, Sits, Placed, Follows, Piece, IsRelative, Placement, ChainRe;
    if |chain| == 1 {
      HeadReaches(chain, s, j);
    } else {
      ChainUnfolds(chain);
      if ReachesTo(ChainRe(chain), s, j) {
        var at := ChainIsPlaced(chain, s, j);
      }
      if exists at :: EndsAt(chain, s, at, j) {
        var at :| EndsAt(chain, s, at, j);
        PlacedIsReached(chain, s, at, j);
      }
    }
  }

  lemma ChainUnfolds(chain: seq<Content>)
    requires IsChain(chain) && |chain| >= 2
    ensures IsChain(chain[..|chain| - 1]) && Expressible(chain[|chain| - 1]) && IsRelative(chain[|chain| - 1])
    ensures ChainRe(chain) == Cat(ChainRe(chain[..|chain| - 1]), Piece(chain[|chain| - 1]).value)
  {
    hide Piece;
  }

  lemma {:induction false} ChainIsPlaced(chain: seq<Content>, s: string, j: nat) returns (at: seq<nat>)
    requires IsChain(chain) && |chain| >= 2 && j <= |s| && ReachesTo(ChainRe(chain), s, j)
    ensures EndsAt(chain, s, at, j)
    decreases |chain|, 0
  {
    hide M, Sits, Placed, Follows, Piece, IsRelative, ChainRe;
    ChainUnfolds(chain);
    var n := |chain| - 1;
    var c, front := chain[n], chain[..n];
    var i: nat :| i <= j && M(Cat(ChainRe(front), Piece(c).value), s, i, j);
    var e := CatSplit(ChainRe(front), Piece(c).value, s, i, j);
    ChainReaches(front, s, e);
    assert ReachesTo(ChainRe(front), s, e);
    at :| EndsAt(front, s, at, e);
    RelativeMatches(c, s, e, j);
    var p: nat :| e <= p && p + |c.data| == j && Follows(c, e, p) && Sits(c, s, p);
    OneMorePlaced(chain, s, at, p);
    at := at + [p];
  }

  lemma {:induction false} PlacedIsReached(chain: seq<Content>, s: string, at: seq<nat>, j: nat)
    requires IsChain(chain) && |chain| >= 2 && j <= |s| && EndsAt(chain, s, at, j)
    ensures ReachesTo(ChainRe(chain), s, j)
    decreases |chain|, 0
  {
    hide M, Sits, Placed, Follows, Piece, IsRelative, ChainRe;
    ChainUnfolds(chain);
    var n := |chain| - 1;
    var c, front := chain[n], chain[..n];
    var e := OneFewerPlaced(chain, s, at);
    ChainReaches(front, s, e);
    var i: nat :| i <= e && M(ChainRe(front), s, i, e);
    RelativeMatches(c, s, e, j);
    CatJoin(ChainRe(front), Piece(c).value, s, i, e, j);
  }

  lemma HeadReaches(chain: seq<Content>, s: string, j: nat)
    requires IsChain(chain) && |chain| == 1 && j <= |s|
    ensures ReachesTo(ChainRe(chain), s, j) <==> exists at :: EndsAt(chain, s, at, j)
  {
    hide M, Sits, Placed, Follows, Piece;
    var c := chain[0];
    HeadMatches(c, s, j);
    if ReachesTo(ChainRe(chain), s, j) {
      var p: nat :| p + |c.data| == j && Placed(c, p) && Sits(c, s, p);
      assert EndsAt(chain, s, [p], j);
    }
    if exists at :: EndsAt(chain, s, at, j) {
      var at :| EndsAt(chain, s, at, j);
      assert Placed(c, at[0]) && Sits(c, s, at[0]);
    }
  }

  lemma OneMorePlaced(chain: seq<Content>, s: string, at: seq<nat>, p: nat)
    requires |chain| >= 2 && Placement(chain[..|chain| - 1], s, at)
    requires Sits(chain[|chain| - 1], s, p)
    requires Follows(chain[|chain| - 1], at[|at| - 1] + |chain[|chain| - 2].data|, p)
    ensures Placement(chain, s, at + [p])
  {
    hide Sits, Placed, Follows;
  }

  lemma OneFewerPlaced(chain: seq<Content>, s: string, at: seq<nat>) returns (e: nat)
    requires |chain| >= 2 && Placement(chain, s, at) && IsRelative(chain[|chain| - 1])
    requires Expressible(chain[|chain| - 1])
    ensures var n := |chain| - 1;
            && e <= |s| && EndsAt(chain[..n], s, at[..n], e)
            && e <= at[n] && Follows(chain[n], e, at[n]) && Sits(chain[n], s, at[n])
  {
    var n := |chain| - 1;
    e := at[n - 1] + |chain[n - 1].data|;
    assert Sits(chain[n - 1], s, at[n - 1]);
    assert Follows(chain[n], e, at[n]);
  }

  /** The pattern of a chain is found in a buffer exactly when there are positions
      for all its contents that satisfy every constraint. */
  lemma ChainMeansPlaceable(chain: seq<Content>, s: string)
    requires IsChain(chain)
    ensures Found(ChainRe(chain), s) <==> Placeable(chain, s)
  {
    hide M, Sits, Placed, Follows, Piece, ChainRe;
    if Found(ChainRe(chain), s) {
      var i: nat, j: nat :| i <= j <= |s| && M(ChainRe(chain), s, i, j);
      assert ReachesTo(ChainRe(chain), s, j);
      ChainReaches(chain, s, j);
      var at :| EndsAt(chain, s, at, j);
    }
    if Placeable(chain, s) {
      var at :| Placement(chain, s, at);
      var j := at[|at| - 1] + |chain[|chain| - 1].data|;
      SitsWithin(chain[|chain| - 1], s, at[|at| - 1]);
      assert EndsAt(chain, s, at, j);
      ChainReaches(chain, s, j);
    }
  }

  lemma SitsWithin(c: Content, s: string, p: nat)
    requires Sits(c, s, p)
    ensures p + |c.data| <= |s|
  {
  }

  // ─── A content said to start the buffer and placed as well ─

  /** Everything a content of its own is said to satisfy, all at once. */
  predicate PlacedAsDeclared(c: Content, p: nat) {
    && (c.mods.startswith ==> p == 0)
    && OrElse(c.mods.offset, 0) <= p
    && (c.mods.depth.Some? ==> p + |c.data| <= OrElse(c.mods.offset, 0) + c.mods.depth.value)
  }

  /** `startswith` with an offset, or a depth too short: the converter drops the
      latter, which nothing satisfies with the former. */
  predicate DropsPlace(c: Content) {
    c.mods.startswith
    && (OrElse(c.mods.offset, 0) > 0 || (c.mods.depth.Some? && c.mods.depth.value < |c.data|))
  }

  lemma PlaceDropped(c: Content)
    requires DropsPlace(c)
    ensures forall p: nat :: !PlacedAsDeclared(c, p)
    ensures Placed(c, 0) && Sits(c, c.data, 0)
  {
  }

  lemma PlaceKept(c: Content, p: nat)
    requires !DropsPlace(c)
    ensures Placed(c, p) <==> PlacedAsDeclared(c, p)
  {
  }

  ghost predicate FoundAsDeclared(c: Content, s: string) {
    exists p: nat :: Sits(c, s, p) && PlacedAsDeclared(c, p)
  }

  /** A lone content's pattern says what its modifiers declare, in every buffer,
      exactly when `startswith` stands alone or agrees with them. */
  lemma DeclaredUnlessDropped(c: Content)
    requires Expressible(c) && !IsRelative(c)
    ensures (forall s :: Found(Piece(c).value, s) <==> FoundAsDeclared(c, s)) <==> !DropsPlace(c)
  {
    hide Found, Piece, Sits, Placed, PlacedAsDeclared, DropsPlace;
    forall s
      ensures Found(Piece(c).value, s) <==> exists p: nat :: Sits(c, s, p) && Placed(c, p)
    {
      LoneContent(c, s);
    }
    if DropsPlace(c) {
      PlaceDropped(c);
      assert Sits(c, c.data, 0) && Placed(c, 0);
      assert Found(Piece(c).value, c.data) && !FoundAsDeclared(c, c.data);
    } else {
      forall s
        ensures Found(Piece(c).value, s) <==> FoundAsDeclared(c, s)
      {
        forall p: nat
          ensures Placed(c, p) <==> PlacedAsDeclared(c, p)
        {
          PlaceKept(c, p);
        }
      }
    }
  }

  lemma LoneContent(c: Content, s: string)
    requires Expressible(c) && !IsRelative(c)
    ensures Found(Piece(c).value, s) <==> exists p: nat :: Sits(c, s, p) && Placed(c, p)
  {
    hide Found, Piece, Sits, Placed;
    ChainMeansPlaceable([c], s);
    if exists p: nat :: Sits(c, s, p) && Placed(c, p) {
      var p: nat :| Sits(c, s, p) && Placed(c, p);
      assert Placement([c], s, [p]);
    }
    if Placeable([c], s) {
      var at :| Placement([c], s, at);
      assert Sits(c, s, at[0]) && Placed(c, at[0]);
    }
  }

  // ─── When two contents are written alike ─────────────────

  /** Two contents of their own said to stand in the same places. */
  predicate StartAlike(a: Content, b: Content) {
    if a.mods.startswith || b.mods.startswith then a.mods.startswith && b.mods.startswith
    else OrElse(a.mods.offset, 0) == OrElse(b.mods.offset, 0) && a.mods.depth == b.mods.depth
  }

  /** What is written before a content of its own, of it and after it. */
  function Lead(c: Content): seq<Re> {
    var lo := OrElse(c.mods.offset, 0);
    if c.mods.startswith then [Bol]
    else if c.mods.depth.Some? && c.mods.depth.value >= |c.data| then
      [Bol, Rep(Any, lo, Some(lo + c.mods.depth.value - |c.data|))]
    else if lo > 0 then [Bol, Rep(Any, lo, None)]
    else []
  }

  function Own(c: Content): seq<Re> {
    if c.mods.nocase then [Fold(c.data)] else Letters(c.data)
  }

  function Tail(c: Content): seq<Re> {
    if c.mods.endswith then [Eol] else []
  }

  lemma EndedAtoms(c: Content, r: Re)
    ensures Atoms(Ended(c, r)) == Atoms(r) + Tail(c)
  {
    assert Atoms(Eol) == [Eol];
  }

  lemma LedAtoms(lead: Re, c: Content)
    ensures Atoms(Cat(lead, Literal(c))) == Atoms(lead) + Own(c) && Atoms(Literal(c)) == Own(c)
  {
  }

  lemma AnchoredAtoms(gap: Re)
    requires gap.Rep?
    ensures Atoms(Cat(Bol, gap)) == [Bol, gap] && Atoms(Bol) == [Bol]
  {
    assert Atoms(gap) == [gap] && [Bol] + [gap] == [Bol, gap];
  }

  lemma OwnAtoms(c: Content)
    requires Expressible(c) && !IsRelative(c)
    ensures Atoms(Piece(c).value) == Lead(c) + Own(c) + Tail(c)
  {
    hide Atoms, Own, Tail, Literal, Ended;
    var lo := OrElse(c.mods.offset, 0);
    var hi := if c.mods.depth.Some? && !c.mods.startswith then Some(lo + c.mods.depth.value - |c.data|) else None;
    var lead := if c.mods.startswith then Bol else Cat(Bol, Rep(Any, lo, hi));
    AnchoredAtoms(Rep(Any, lo, hi));
    LedAtoms(lead, c);
    if Lead(c) == [] {
      EndedAtoms(c, Literal(c));
      assert [] + Own(c) == Own(c);
    } else {
      EndedAtoms(c, Cat(lead, Literal(c)));
    }
  }

  ghost predicate Leading(a: seq<Re>) {
    forall k :: 0 <= k < |a| ==> a[k].Bol? || a[k].Rep?
  }

  ghost predicate Lettered(a: seq<Re>) {
    forall k :: 0 <= k < |a| ==> a[k].Lit? || a[k].Fold?
  }

  ghost predicate Ending(a: seq<Re>) {
    forall k :: 0 <= k < |a| ==> a[k].Eol?
  }

  /** Where the lead of such a list ends, and where its end begins. */
  lemma PartsOf(x: seq<Re>, y: seq<Re>, z: seq<Re>)
    requires Leading(x) && Lettered(y) && Ending(z)
    ensures var all := x + y + z;
            && (forall k :: 0 <= k < |x| ==> all[k].Bol? || all[k].Rep?)
            && (forall k :: |x| <= k < |all| ==> !all[k].Bol? && !all[k].Rep?)
            && (forall k :: 0 <= k < |x| + |y| ==> !all[k].Eol?)
            && (forall k :: |x| + |y| <= k < |all| ==> all[k].Eol?)
  {
  }

  lemma Parted(x: seq<Re>, y: seq<Re>, z: seq<Re>, u: seq<Re>, v: seq<Re>, w: seq<Re>)
    requires Leading(x) && Lettered(y) && Ending(z) && Leading(u) && Lettered(v) && Ending(w)
    requires x + y + z == u + v + w
    ensures x == u && y == v && z == w
  {
    PartsOf(x, y, z);
    PartsOf(u, v, w);
    var all, n := x + y + z, |x| + |y|;
    ghost var p, q := if |x| < |u| then |x| else |u|, if n < |u| + |v| then n else |u| + |v|;
    if p < |all| { ghost var e := all[p]; }
    if q < |all| { ghost var e := all[q]; }
    assert |x| == |u| && n == |u| + |v|;
    assert x == all[..|x|] && y == all[|x|..n] && z == all[n..];
    assert u == all[..|x|] && v == all[|x|..n] && w == all[n..];
  }

  lemma {:induction false} LettersAt(t: string)
    ensures |Letters(t)| == |t| && forall k :: 0 <= k < |t| ==> Letters(t)[k] == Lit([t[k]])
  {
    if t != "" {
      LettersAt(t[1..]);
    }
  }

  lemma LettersTell(a: string, b: string)
    requires Letters(a) == Letters(b)
    ensures a == b
  {
    hide Letters;
    LettersAt(a);
    LettersAt(b);
    forall k | 0 <= k < |a|
      ensures a[k] == b[k]
    {
      assert Letters(a)[k] == Letters(b)[k];
      assert [a[k]][0] == [b[k]][0];
    }
  }

  lemma OwnTells(a: Content, b: Content)
    ensures Lettered(Own(a))
    ensures Own(a) == Own(b) <==> a.data == b.data && a.mods.nocase == b.mods.nocase
  {
    hide Letters;
    LettersAt(a.data);
    LettersAt(b.data);
    if !a.mods.nocase && !b.mods.nocase && Letters(a.data) == Letters(b.data) {
      LettersTell(a.data, b.data);
    }
    if a.mods.nocase && b.mods.nocase && Own(a) == Own(b) {
      assert Own(a)[0] == Own(b)[0];
    }
    if a.mods.nocase != b.mods.nocase {
      OneIsFolded(if a.mods.nocase then a else b, if a.mods.nocase then b else a);
    }
  }

  lemma OneIsFolded(a: Content, b: Content)
    requires a.mods.nocase && !b.mods.nocase
    ensures Own(a) != Own(b)
  {
    hide Letters;
    LettersAt(b.data);
    assert Own(a)[0].Fold?;
  }

  /** Two contents of their own are written alike, and so the later left out, exactly
      when they are the same text, read the same way and said to stand in the same
      places. */
  lemma SameWriting(a: Content, b: Content)
    requires Expressible(a) && Expressible(b) && !IsRelative(a) && !IsRelative(b)
    ensures WrittenAlike(Piece(a).value, Piece(b).value)
            <==> a.data == b.data && a.mods.nocase == b.mods.nocase && a.mods.endswith == b.mods.endswith
                 && StartAlike(a, b)
  {
    hide Piece, Atoms, Own;
    OwnAtoms(a);
    OwnAtoms(b);
    OwnTells(a, b);
    OwnTells(b, a);
    if WrittenAlike(Piece(a).value, Piece(b).value) {
      Parted(Lead(a), Own(a), Tail(a), Lead(b), Own(b), Tail(b));
      LeadTells(a, b);
      assert a.mods.endswith == b.mods.endswith;
    } else if a.data == b.data {
      LeadTells(a, b);
    }
  }

  lemma LeadTells(a: Content, b: Content)
    requires Expressible(a) && Expressible(b) && !IsRelative(a) && !IsRelative(b) && a.data == b.data
    ensures Lead(a) == Lead(b) <==> StartAlike(a, b)
  {
    if Lead(a) == Lead(b) && |Lead(a)| == 2 {
      assert Lead(a)[1] == Lead(b)[1];
    }
  }

  // ─── A rule's contents as conditions ─────────────────────

  /** A rule that can be converted so far: none of its contents refused, and the
      first of its own. */
  ghost predicate Convertible(cs: seq<Content>) {
    && (cs != [] ==> !IsRelative(cs[0]))
    && forall i :: 0 <= i < |cs| ==> Expressible(cs[i])
  }

  /** Whether a pattern is among the conditions as they are written. */
  predicate Repeats(r: Re, conds: seq<Re>) {
    exists k :: 0 <= k < |conds| && WrittenAlike(conds[k], r)
  }

  /** The conditions as they stand, and one more content: tied to the last, or one
      of its own unless written there already. */
  function AddPiece(conds: seq<Re>, c: Content): seq<Re>
    requires Expressible(c) && (IsRelative(c) ==> conds != [])
  {
    var r := Piece(c).value;
    if IsRelative(c) then conds[..|conds| - 1] + [Cat(conds[|conds| - 1], r)]
    else if Repeats(r, conds) then conds
    else conds + [r]
  }

  /** The chains those conditions are the patterns of. */
  function AddContent(chains: seq<seq<Content>>, c: Content): seq<seq<Content>>
    requires Expressible(c) && (IsRelative(c) ==> chains != [])
    requires AllChains(chains)
  {
    if IsRelative(c) then chains[..|chains| - 1] + [chains[|chains| - 1] + [c]]
    else if Repeats(Piece(c).value, Patterns(chains)) then chains
    else chains + [[c]]
  }

  function Patterns(chains: seq<seq<Content>>): (rs: seq<Re>)
    requires AllChains(chains)
    ensures |rs| == |chains|
  {
    if chains == [] then []
    else
      assert IsChain(chains[|chains| - 1]);
      Patterns(chains[..|chains| - 1]) + [ChainRe(chains[|chains| - 1])]
  }

  ghost predicate AllFound(conds: seq<Re>, s: string) {
    forall k :: 0 <= k < |conds| ==> Found(conds[k], s)
  }

  ghost predicate AllPlaceable(chains: seq<seq<Content>>, s: string) {
    forall k :: 0 <= k < |chains| ==> Placeable(chains[k], s)
  }

  ghost predicate AllChains(chains: seq<seq<Content>>) {
    forall k :: 0 <= k < |chains| ==> IsChain(chains[k])
  }

  /** The conditions after the first `n` contents. */
  function Conditions(cs: seq<Content>, n: nat): (conds: seq<Re>)
    requires n <= |cs| && Convertible(cs)
    ensures n > 0 ==> conds != []
  {
    if n == 0 then [] else AddPiece(Conditions(cs, n - 1), cs[n - 1])
  }

  /** The chains that become conditions, of the first `n` contents. */
  function Kept(cs: seq<Content>, n: nat): (chains: seq<seq<Content>>)
    requires n <= |cs| && Convertible(cs)
    ensures AllChains(chains) && (n > 0 ==> chains != [])
  {
    if n == 0 then []
    else
      var chains := Kept(cs, n - 1);
      AddKeepsChains(chains, cs[n - 1]);
      AddContent(chains, cs[n - 1])
  }

  /** The chains the rule's author wrote, of the first `n` contents. */
  function Written(cs: seq<Content>, n: nat): (chains: seq<seq<Content>>)
    requires n <= |cs| && Convertible(cs)
    ensures AllChains(chains) && (n > 0 ==> chains != [])
  {
    if n == 0 then []
    else
      var chains, c := Written(cs, n - 1), cs[n - 1];
      ExtendKeepsChains(chains, c);
      if IsRelative(c) then chains[..|chains| - 1] + [chains[|chains| - 1] + [c]] else chains + [[c]]
  }

  lemma LongerChain(chain: seq<Content>, c: Content)
    requires IsChain(chain) && IsRelative(c) && Expressible(c)
    ensures IsChain(chain + [c])
    ensures ChainRe(chain + [c]) == Cat(ChainRe(chain), Piece(c).value)
  {
    hide Piece;
    assert (chain + [c])[..|chain + [c]| - 1] == chain;
  }

  lemma ExtendKeepsChains(chains: seq<seq<Content>>, c: Content)
    requires AllChains(chains) && Expressible(c) && (IsRelative(c) ==> chains != [])
    ensures IsRelative(c) ==> AllChains(chains[..|chains| - 1] + [chains[|chains| - 1] + [c]])
    ensures !IsRelative(c) ==> AllChains(chains + [[c]])
  {
    hide Piece, IsChain;
    if IsRelative(c) {
      LongerChain(chains[|chains| - 1], c);
    } else {
      ShortChain(c);
    }
  }

  lemma ShortChain(c: Content)
    requires !IsRelative(c) && Expressible(c)
    ensures IsChain([c]) && ChainRe([c]) == Piece(c).value
  {
  }

  lemma AddKeepsChains(chains: seq<seq<Content>>, c: Content)
    requires AllChains(chains) && Expressible(c) && (IsRelative(c) ==> chains != [])
    ensures AllChains(AddContent(chains, c)) && AddContent(chains, c) != []
    ensures Patterns(AddContent(chains, c)) == AddPiece(Patterns(chains), c)
  {
    hide Piece, IsChain, AllChains;
    ExtendKeepsChains(chains, c);
    if IsRelative(c) {
      var n := |chains| - 1;
      LastChain(chains);
      LongerChain(chains[n], c);
      PatternsOfMore(chains[..n], chains[n] + [c]);
      PatternsOfMore(chains[..n], chains[n]);
      assert chains == chains[..n] + [chains[n]];
    } else if !Repeats(Piece(c).value, Patterns(chains)) {
      ShortChain(c);
      PatternsOfMore(chains, [c]);
    } else {
      assert chains != [];
    }
  }

  lemma LastChain(chains: seq<seq<Content>>)
    requires AllChains(chains) && chains != []
    ensures IsChain(chains[|chains| - 1]) && AllChains(chains[..|chains| - 1])
  {
  }

  lemma PatternsOfMore(chains: seq<seq<Content>>, chain: seq<Content>)
    requires AllChains(chains) && IsChain(chain)
    ensures AllChains(chains + [chain]) && Patterns(chains + [chain]) == Patterns(chains) + [ChainRe(chain)]
  {
    var more := chains + [chain];
    assert more[..|more| - 1] == chains;
  }

  lemma NoPatterns()
    ensures AllChains([]) && Patterns([]) == []
  {
  }

  lemma {:induction false} ConditionsArePatterns(cs: seq<Content>, n: nat)
    requires n <= |cs| && Convertible(cs)
    ensures Conditions(cs, n) == Patterns(Kept(cs, n))
  {
    hide Piece, IsChain, AllChains, IsRelative, ChainRe, AddPiece, AddContent, Patterns;
    if n == 0 {
      NoPatterns();
    } else {
      ConditionsArePatterns(cs, n - 1);
      AddKeepsChains(Kept(cs, n - 1), cs[n - 1]);
    }
  }

  /** The conditions write content `c`. */
  ghost predicate Writes(conds: seq<Re>, c: Content)
    requires Expressible(c)
  {
    exists k :: 0 <= k < |conds| && WrittenAlike(conds[k], Piece(c).value)
  }

  ghost predicate Apart(conds: seq<Re>) {
    forall j, k :: 0 <= j < k < |conds| ==> !WrittenAlike(conds[j], conds[k])
  }

  /** A rule whose contents are all of their own has a condition for each of them, one
      for those written alike, and no other. */
  lemma {:induction false} EachWrittenOnce(cs: seq<Content>, n: nat)
    requires n <= |cs| && Convertible(cs) && forall i :: 0 <= i < n ==> !IsRelative(cs[i])
    ensures forall i :: 0 <= i < n ==> Writes(Conditions(cs, n), cs[i])
    ensures forall r :: r in Conditions(cs, n) ==> exists i :: 0 <= i < n && r == Piece(cs[i]).value
    ensures Apart(Conditions(cs, n))
  {
    hide Piece, Expressible, IsRelative, WrittenAlike;
    if n > 0 {
      EachWrittenOnce(cs, n - 1);
      var was, r, now := Conditions(cs, n - 1), Piece(cs[n - 1]).value, Conditions(cs, n);
      if !Repeats(r, was) {
        assert now == was + [r] && now[|was|] == r;
        WrittenAlikeItself(r);
        forall i | 0 <= i < n - 1
          ensures Writes(now, cs[i])
        {
          var k :| 0 <= k < |was| && WrittenAlike(was[k], Piece(cs[i]).value);
          assert now[k] == was[k];
        }
      }
    }
  }

  lemma WrittenAlikeItself(r: Re)
    ensures WrittenAlike(r, r)
  {
  }

  method ComputeConditions(cs: seq<Content>) returns (conds: Option<seq<Re>>)
    ensures conds.None? <==> !Convertible(cs) || cs == []
    ensures conds.Some? ==> conds.value == Conditions(cs, |cs|)
  {
    hide Piece;
    var pieces: seq<Re> := [];
    for i := 0 to |cs|
      invariant |pieces| == i && forall k :: 0 <= k < i ==> Piece(cs[k]) == Some(pieces[k])
    {
      var p := Piece(cs[i]);
      if p.None? {
        return None;
      }
      pieces := pieces + [p.value];
    }
    if cs == [] || IsRelative(cs[0]) {
      return None;
    }
    var out: seq<Re> := [];
    for i := 0 to |cs|
      invariant Convertible(cs) && out == Conditions(cs, i)
    {
      if IsRelative(cs[i]) {
        out := out[|out| - 1 := Cat(out[|out| - 1], pieces[i])];
      } else if !Repeats(pieces[i], out) {
        out := out + [pieces[i]];
      }
    }
    conds := Some(out);
  }

  lemma {:induction false} AllFoundIsAllPlaceable(chains: seq<seq<Content>>, s: string)
    requires AllChains(chains)
    ensures AllFound(Patterns(chains), s) <==> AllPlaceable(chains, s)
  {
    hide Found, Placeable, IsChain;
    if chains != [] {
      var n := |chains| - 1;
      AllFoundIsAllPlaceable(chains[..n], s);
      ChainMeansPlaceable(chains[n], s);
      AllButLast(Patterns(chains), chains, s);
    }
  }

  lemma AllButLast(rs: seq<Re>, chains: seq<seq<Content>>, s: string)
    requires chains != [] && |rs| == |chains|
    ensures AllFound(rs, s) <==> AllFound(rs[..|rs| - 1], s) && Found(rs[|rs| - 1], s)
    ensures AllPlaceable(chains, s) <==> AllPlaceable(chains[..|chains| - 1], s) && Placeable(chains[|chains| - 1], s)
  {
    hide Found, Placeable;
    var a, b := rs[..|rs| - 1], chains[..|chains| - 1];
    assert forall k :: 0 <= k < |a| ==> a[k] == rs[k];
    assert forall k :: 0 <= k < |b| ==> b[k] == chains[k];
  }

  /** What the conditions ask of a buffer, for every rule: that each chain kept
      has a place for all its contents. */
  lemma ConditionsMeanKeptChains(cs: seq<Content>, s: string)
    requires Convertible(cs)
    ensures AllFound(Conditions(cs, |cs|), s) <==> AllPlaceable(Kept(cs, |cs|), s)
  {
    ConditionsArePatterns(cs, |cs|);
    AllFoundIsAllPlaceable(Kept(cs, |cs|), s);
  }

  /** A content of its own written before, and so left out. */
  ghost predicate LeftOut(cs: seq<Content>, i: nat)
    requires i < |cs| && Convertible(cs)
  {
    !IsRelative(cs[i]) && Repeats(Piece(cs[i]).value, Patterns(Kept(cs, i)))
  }

  /** The conditions end with what content `i` is written as. */
  ghost predicate EndsConditions(cs: seq<Content>, i: nat)
    requires i < |cs| && Convertible(cs)
  {
    var rs := Patterns(Kept(cs, i));
    rs != [] && WrittenAlike(rs[|rs| - 1], Piece(cs[i]).value)
  }

  /** No content is tied to one left out, unless the conditions end with what that
      one is written as. */
  ghost predicate TiesAreKept(cs: seq<Content>)
    requires Convertible(cs)
  {
    forall i :: 1 <= i < |cs| && IsRelative(cs[i]) ==> Leads(cs, i - 1)
  }

  /** What is tied next joins a condition that ends with content `i`. */
  ghost predicate Leads(cs: seq<Content>, i: nat)
    requires i < |cs| && Convertible(cs)
  {
    !LeftOut(cs, i) || EndsConditions(cs, i)
  }

  /** The last of the chains kept is written as the last of those the author wrote,
      and if it has a place the others ask the same. */
  ghost predicate EndAlike(k: seq<seq<Content>>, w: seq<seq<Content>>, s: string)
    requires AllChains(k) && AllChains(w)
  {
    && k != [] && w != []
    && WrittenAlike(ChainRe(Last(k)), ChainRe(Last(w)))
    && (Placeable(Last(k), s) ==> (AllPlaceable(k[..|k| - 1], s) <==> AllPlaceable(w[..|w| - 1], s)))
  }

  function Last(chains: seq<seq<Content>>): seq<Content>
    requires chains != []
  {
    chains[|chains| - 1]
  }

  lemma PlacedAlike(a: seq<Content>, b: seq<Content>, s: string)
    requires IsChain(a) && IsChain(b) && WrittenAlike(ChainRe(a), ChainRe(b))
    ensures Placeable(a, s) <==> Placeable(b, s)
  {
    hide Placeable, Found, WrittenAlike, Piece;
    ChainMeansPlaceable(a, s);
    ChainMeansPlaceable(b, s);
    WrittenAlikeFoundAlike(ChainRe(a), ChainRe(b), s);
  }

  /** Chains that end alike ask the same altogether. */
  lemma EndAlikeAskAlike(k: seq<seq<Content>>, w: seq<seq<Content>>, s: string)
    requires AllChains(k) && AllChains(w) && EndAlike(k, w, s)
    ensures AllPlaceable(k, s) <==> AllPlaceable(w, s)
  {
    hide Placeable, WrittenAlike, ChainRe, IsChain, AllPlaceable;
    LastChain(k);
    LastChain(w);
    PlacedAlike(Last(k), Last(w), s);
    PlaceMore(k[..|k| - 1], Last(k), s);
    PlaceMore(w[..|w| - 1], Last(w), s);
    assert k == k[..|k| - 1] + [Last(k)] && w == w[..|w| - 1] + [Last(w)];
  }

  lemma LongerIsPlaced(chain: seq<Content>, c: Content, s: string)
    requires chain != [] && Placeable(chain + [c], s)
    ensures Placeable(chain, s)
  {
    hide Sits, Placed, Follows;
    var at :| Placement(chain + [c], s, at);
    var n := |chain|;
    assert forall i :: 0 <= i < n ==> (chain + [c])[i] == chain[i] && at[..n][i] == at[i];
    assert Placement(chain, s, at[..n]);
  }

  lemma TieAlike(k: seq<seq<Content>>, w: seq<seq<Content>>, c: Content, s: string)
    requires AllChains(k) && AllChains(w) && EndAlike(k, w, s) && IsRelative(c) && Expressible(c)
    ensures AllChains(k[..|k| - 1] + [Last(k) + [c]]) && AllChains(w[..|w| - 1] + [Last(w) + [c]])
    ensures EndAlike(k[..|k| - 1] + [Last(k) + [c]], w[..|w| - 1] + [Last(w) + [c]], s)
  {
    hide Placeable, AllPlaceable, Piece, IsChain, AllChains, IsRelative, ChainRe;
    ExtendKeepsChains(k, c);
    ExtendKeepsChains(w, c);
    LastChain(k);
    LastChain(w);
    LongerChain(Last(k), c);
    LongerChain(Last(w), c);
    var k', w' := k[..|k| - 1] + [Last(k) + [c]], w[..|w| - 1] + [Last(w) + [c]];
    assert k'[..|k'| - 1] == k[..|k| - 1] && w'[..|w'| - 1] == w[..|w| - 1];
    if Placeable(Last(k) + [c], s) {
      ChainIsSome(Last(k));
      LongerIsPlaced(Last(k), c, s);
    }
  }

  lemma ChainIsSome(chain: seq<Content>)
    requires IsChain(chain)
    ensures chain != []
  {
  }

  lemma StandAlike(k: seq<seq<Content>>, w: seq<seq<Content>>, c: Content, s: string)
    requires AllChains(k) && AllChains(w) && !IsRelative(c) && Expressible(c)
    requires AllPlaceable(k, s) <==> AllPlaceable(w, s)
    ensures AllChains(k + [[c]]) && AllChains(w + [[c]]) && EndAlike(k + [[c]], w + [[c]], s)
  {
    hide Placeable, AllPlaceable, Piece, IsChain, AllChains, IsRelative;
    ExtendKeepsChains(k, c);
    ExtendKeepsChains(w, c);
    assert (k + [[c]])[..|k|] == k && (w + [[c]])[..|w|] == w;
    ShortChain(c);
  }

  /** A repeated content is asked already; and leads the next one to the same place
      if the conditions end with it. */
  lemma RepeatAlike(k: seq<seq<Content>>, w: seq<seq<Content>>, c: Content, s: string)
    requires AllChains(k) && AllChains(w) && !IsRelative(c) && Expressible(c)
    requires (AllPlaceable(k, s) <==> AllPlaceable(w, s)) && Repeats(Piece(c).value, Patterns(k))
    ensures AllChains(w + [[c]]) && (AllPlaceable(k, s) <==> AllPlaceable(w + [[c]], s))
    ensures k != [] && WrittenAlike(ChainRe(Last(k)), Piece(c).value) ==> EndAlike(k, w + [[c]], s)
  {
    hide Placeable, AllPlaceable, Patterns, Piece, AllChains, IsRelative, WrittenAlike, IsChain;
    ExtendKeepsChains(w, c);
    PlaceMore(w, [c], s);
    RepeatedIsPlaced(k, c, s);
    ShortChain(c);
    if k != [] {
      PlaceMore(k[..|k| - 1], Last(k), s);
      assert k == k[..|k| - 1] + [Last(k)];
    }
    assert (w + [[c]])[..|w|] == w;
  }

  lemma LastPattern(chains: seq<seq<Content>>)
    requires AllChains(chains) && chains != []
    ensures IsChain(Last(chains)) && Patterns(chains)[|chains| - 1] == ChainRe(Last(chains))
  {
    LastChain(chains);
  }

  lemma {:induction false} KeptAsWritten(cs: seq<Content>, n: nat, s: string)
    requires n <= |cs| && Convertible(cs) && TiesAreKept(cs)
    ensures AllPlaceable(Kept(cs, n), s) <==> AllPlaceable(Written(cs, n), s)
    ensures n > 0 && Leads(cs, n - 1) ==> EndAlike(Kept(cs, n), Written(cs, n), s)
  {
    hide Placeable, Piece, IsChain, AllPlaceable, AllChains, ChainRe, Patterns, AddPiece, Found, EndAlike, WrittenAlike,
         Repeats;
    if n > 0 {
      var c := cs[n - 1];
      var k, w := Kept(cs, n - 1), Written(cs, n - 1);
      KeptAsWritten(cs, n - 1, s);
      AddKeepsChains(k, c);
      ExtendKeepsChains(w, c);
      if IsRelative(c) {
        TieAlike(k, w, c, s);
        EndAlikeAskAlike(Kept(cs, n), Written(cs, n), s);
      } else if Repeats(Piece(c).value, Patterns(k)) {
        RepeatAlike(k, w, c, s);
        if k != [] { LastPattern(k); }
      } else {
        StandAlike(k, w, c, s);
        EndAlikeAskAlike(Kept(cs, n), Written(cs, n), s);
      }
    }
  }

  lemma PlaceMore(chains: seq<seq<Content>>, chain: seq<Content>, s: string)
    ensures AllPlaceable(chains + [chain], s) <==> AllPlaceable(chains, s) && Placeable(chain, s)
    ensures (chains + [chain])[..|chains + [chain]| - 1] == chains
  {
    var more := chains + [chain];
    assert more[..|more| - 1] == chains;
    AllButLast(seq(|more|, i => Any), more, s);
  }

  /** A content whose pattern is there already asks nothing new. */
  lemma RepeatedIsPlaced(chains: seq<seq<Content>>, c: Content, s: string)
    requires AllChains(chains) && !IsRelative(c) && Expressible(c) && Repeats(Piece(c).value, Patterns(chains))
    ensures AllPlaceable(chains, s) ==> Placeable([c], s)
  {
    hide Placeable, Piece, IsChain, Found, WrittenAlike;
    AllFoundIsAllPlaceable(chains, s);
    ShortChain(c);
    ChainMeansPlaceable([c], s);
    var rs := Patterns(chains);
    var k :| 0 <= k < |rs| && WrittenAlike(rs[k], Piece(c).value);
    WrittenAlikeFoundAlike(rs[k], Piece(c).value, s);
  }

  /** A converted rule holds of a buffer exactly when every chain its author wrote
      has a place, provided nothing is tied to a content left out as repeated whose
      condition is not the last one written. */
  lemma ConditionsMeanRule(cs: seq<Content>, s: string)
    requires Convertible(cs) && TiesAreKept(cs)
    ensures AllFound(Conditions(cs, |cs|), s) <==> AllPlaceable(Written(cs, |cs|), s)
  {
    ConditionsMeanKeptChains(cs, s);
    KeptAsWritten(cs, |cs|, s);
  }

  // ─── A rule that is not converted faithfully ─────────────

  const PLAIN := Mods(false, None, None, false, false, None, None)

  /** `content:"a"; content:"b"; content:"a"; content:"c"; distance:0` */
  const REPEATED: seq<Content> := [
    Content("a", PLAIN), Content("b", PLAIN), Content("a", PLAIN), Content("c", PLAIN.(distance := Some(0)))]

  lemma PlainPiece(c: Content)
    requires c.mods == PLAIN && IsAscii(c.data)
    ensures Piece(c) == Some(Lit(c.data)) && !IsRelative(c)
  {
  }

  lemma RepeatedPieces()
    ensures Convertible(REPEATED) && IsRelative(REPEATED[3])
    ensures forall i :: 0 <= i < 3 ==> Piece(REPEATED[i]) == Some(Lit(REPEATED[i].data)) && !IsRelative(REPEATED[i])
  {
    PlainPiece(REPEATED[0]);
    PlainPiece(REPEATED[1]);
    PlainPiece(REPEATED[2]);
  }

  lemma TwoPatterns(a: Content, b: Content)
    requires !IsRelative(a) && !IsRelative(b) && Expressible(a) && Expressible(b)
    ensures AllChains([[a]]) && Patterns([[a]]) == [Piece(a).value]
    ensures AllChains([[a], [b]]) && Patterns([[a], [b]]) == [Piece(a).value, Piece(b).value]
  {
    hide Piece;
    ShortChain(a);
    ShortChain(b);
    assert AllChains([]);
    PatternsOfMore([], [a]);
    PatternsOfMore([[a]], [b]);
    assert [] + [[a]] == [[a]] && [[a]] + [[b]] == [[a], [b]];
  }

  lemma OneLetter(t: string)
    requires |t| == 1
    ensures Atoms(Lit(t)) == [Lit(t)]
  {
    assert Letters(t[1..]) == [] && [t[0]] == t;
  }

  lemma FirstTwoKept()
    ensures Convertible(REPEATED) && Kept(REPEATED, 2) == [[REPEATED[0]], [REPEATED[1]]]
    ensures Patterns(Kept(REPEATED, 2)) == [Lit("a"), Lit("b")] && !WrittenAlike(Lit("a"), Lit("b"))
  {
    hide Piece, IsRelative, Convertible;
    RepeatedPieces();
    var a, b := REPEATED[0], REPEATED[1];
    TwoPatterns(a, b);
    OneLetter("a");
    OneLetter("b");
    hide Atoms;
    assert Kept(REPEATED, 0) == [] && AllChains([]) && Patterns([]) == [];
    assert Kept(REPEATED, 1) == [] + [[a]] == [[a]];
    assert !Repeats(Piece(b).value, Patterns([[a]]));
    assert Kept(REPEATED, 2) == [[a]] + [[b]] == [[a], [b]];
  }

  lemma RepeatedKept()
    ensures Convertible(REPEATED) && LeftOut(REPEATED, 2) && !EndsConditions(REPEATED, 2)
    ensures Kept(REPEATED, 4) == [[REPEATED[0]], [REPEATED[1], REPEATED[3]]]
  {
    hide Piece, IsRelative, Convertible, Patterns, Atoms;
    RepeatedPieces();
    FirstTwoKept();
    var a, b, c := REPEATED[0], REPEATED[1], REPEATED[3];
    assert WrittenAlike([Lit("a"), Lit("b")][0], Piece(REPEATED[2]).value);
    assert !WrittenAlike([Lit("a"), Lit("b")][1], Piece(REPEATED[2]).value);
    assert Kept(REPEATED, 3) == [[a], [b]];
    assert [b] + [c] == [b, c] && [[a], [b]][..1] == [[a]];
    assert Kept(REPEATED, 4) == [[a]] + [[b, c]] == [[a], [b, c]];
  }

  lemma RepeatedWritten()
    ensures Convertible(REPEATED)
    ensures Written(REPEATED, 4) == [[REPEATED[0]], [REPEATED[1]], [REPEATED[2], REPEATED[3]]]
  {
    hide Piece, IsRelative, Convertible;
    RepeatedPieces();
    var a, b, c := REPEATED[0], REPEATED[1], REPEATED[3];
    assert Written(REPEATED, 0) == [];
    assert Written(REPEATED, 1) == [] + [[a]] == [[a]];
    assert Written(REPEATED, 2) == [[a]] + [[b]] == [[a], [b]];
    assert Written(REPEATED, 3) == [[a], [b]] + [[a]] == [[a], [b], [a]];
    assert [a] + [c] == [a, c] && [[a], [b], [a]][..2] == [[a], [b]];
    assert Written(REPEATED, 4) == [[a], [b]] + [[a, c]] == [[a], [b], [a, c]];
  }

  lemma PlainSits(c: Content, s: string, p: nat)
    requires c.mods == PLAIN || c.mods == PLAIN.(distance := Some(0))
    requires |c.data| == 1
    ensures Sits(c, s, p) <==> p < |s| && s[p] == c.data[0]
  {
    if p < |s| { assert s[p..p + 1] == [s[p]]; }
  }

  lemma OnePlace(c: Content, s: string, p: nat)
    requires Sits(c, s, p) && Placed(c, p)
    ensures Placeable([c], s)
  {
    assert Placement([c], s, [p]);
  }

  lemma TwoPlaces(c: Content, d: Content, s: string, p: nat, q: nat)
    requires Sits(c, s, p) && Placed(c, p) && Sits(d, s, q) && Follows(d, p + |c.data|, q)
    ensures Placeable([c, d], s)
  {
    assert Placement([c, d], s, [p, q]);
  }

  /** What is tied to a repeated content is tied to another instead: the rule's
      conditions hold of a buffer its author excluded, and not of one meant. */
  lemma RepeatedContentLosesItsTail()
    ensures Convertible(REPEATED) && !TiesAreKept(REPEATED)
    ensures AllFound(Conditions(REPEATED, 4), "bca") && !AllPlaceable(Written(REPEATED, 4), "bca")
    ensures !AllFound(Conditions(REPEATED, 4), "acb") && AllPlaceable(Written(REPEATED, 4), "acb")
  {
    hide Piece, Sits, Conditions, Kept, Written, Placeable, LeftOut, EndsConditions;
    RepeatedKept();
    assert !Leads(REPEATED, 3 - 1);
    RepeatedWritten();
    RepeatedPieces();
    var a, b, c := REPEATED[0], REPEATED[1], REPEATED[3];
    forall d: Content, s: string, p: nat | d == a || d == b || d == c
      ensures Sits(d, s, p) <==> p < |s| && s[p] == d.data[0]
    {
      PlainSits(d, s, p);
    }
    ConditionsMeanKeptChains(REPEATED, "bca");
    ConditionsMeanKeptChains(REPEATED, "acb");
    OnePlace(a, "bca", 2);
    TwoPlaces(b, c, "bca", 0, 1);
    NoTwoPlaces(a, c, "bca", 2, 1);
    OnePlace(a, "acb", 0);
    OnePlace(b, "acb", 2);
    TwoPlaces(a, c, "acb", 0, 1);
    NoTwoPlaces(b, c, "acb", 2, 1);
    assert Kept(REPEATED, 4)[1] == [b, c] && Written(REPEATED, 4)[2] == [a, c];
  }

  lemma NoTwoPlaces(c: Content, d: Content, s: string, p: nat, q: nat)
    requires (forall x: nat :: Sits(c, s, x) ==> x == p) && (forall x: nat :: Sits(d, s, x) ==> x == q) && q < p
    requires OrElse(d.mods.distance, 0) >= 0
    ensures !Placeable([c, d], s)
  {
    hide Sits;
    forall at
      ensures !Placement([c, d], s, at)
    {
      if |at| == 2 && Sits(c, s, at[0]) && Sits(d, s, at[1]) {
        assert at[0] == p && at[1] == q;
        assert !Follows([c, d][1], at[0] + |[c, d][0].data|, at[1]);
      }
    }
  }
}
