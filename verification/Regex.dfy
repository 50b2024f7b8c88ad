/** The regular expressions the rule converters emit, and what they match. */
module Regex {
  import opened Options

  datatype Range = Range(lo: char, hi: char)

  /** A pattern, as its structure. `Fold` is a literal matched without regard to
      ASCII case; `Class` is a character class, `Bol` and `Eol` are `^` and `$`
      without the multi-line flag. A lazy repeat matches what a greedy one does. */
  datatype Re =
    | Lit(text: string)
    | Fold(text: string)
    | Any
    | Class(negated: bool, ranges: seq<Range>)
    | Cat(first: Re, second: Re)
    | Alt(left: Re, right: Re)
    | Rep(body: Re, min: nat, max: Option<nat>)
    | Bol
    | Eol

  function Lower(c: char): char {
    if 'A' <= c <= 'Z' then c + 32 as char else c
  }

  predicate InRanges(c: char, ranges: seq<Range>) {
    exists i :: 0 <= i < |ranges| && ranges[i].lo <= c <= ranges[i].hi
  }

  /** Patterns matching one character at a time. */
  predicate OneChar(r: Re) {
    r.Any? || r.Class? || (r.Lit? && |r.text| == 1)
  }

  predicate Accepts(r: Re, c: char)
    requires OneChar(r)
  {
    match r
    case Any => true
    case Class(negated, ranges) => InRanges(c, ranges) != negated
    case Lit(t) => c == t[0]
  }

  /** Whether the pattern matches `s` from `i` up to `j`. */
  ghost predicate M(r: Re, s: string, i: nat, j: nat)
    requires i <= j <= |s|
    decreases r, 0, 0
  {
    match r
    case Lit(t) => s[i..j] == t
    case Fold(t) => j - i == |t| && forall k :: 0 <= k < |t| ==> Lower(s[i + k]) == Lower(t[k])
    case Any => j == i + 1
    case Class(_, _) => j == i + 1 && Accepts(r, s[i])
    case Cat(a, b) => exists k :: i <= k <= j && M(a, s, i, k) && M(b, s, k, j)
    case Alt(a, b) => M(a, s, i, j) || M(b, s, i, j)
    case Rep(x, lo, hi) => exists n: nat :: lo <= n && (hi.Some? ==> n <= hi.value) && Times(x, s, i, j, n)
    case Bol => i == 0 && j == 0
    case Eol => i == |s| && j == |s|
  }

  /** Matched `n` times in a row. */
  ghost predicate Times(x: Re, s: string, i: nat, j: nat, n: nat)
    requires i <= j <= |s|
    decreases x, 1, n
  {
    if n == 0 then i == j
    else exists k :: i <= k <= j && M(x, s, i, k) && Times(x, s, k, j, n - 1)
  }

  /** Whether the pattern is found anywhere in `s`: how a rule's pattern is used. */
  ghost predicate Found(r: Re, s: string) {
    exists i: nat, j: nat :: i <= j <= |s| && M(r, s, i, j)
  }

  predicate AnchorFree(r: Re) {
    match r
    case Cat(a, b) => AnchorFree(a) && AnchorFree(b)
    case Alt(a, b) => AnchorFree(a) && AnchorFree(b)
    case Rep(x, _, _) => AnchorFree(x)
    case Bol => false
    case Eol => false
    case _ => true
  }

  /** The language of an anchor-free pattern. */
  ghost predicate In(r: Re, w: string) {
    M(r, w, 0, |w|)
  }

  /** Without anchors, the same text matches wherever it lies. */
  lemma {:induction false} Carry(r: Re, s: string, i: nat, j: nat, w: string, p: nat)
    requires i <= j <= |s| && p + (j - i) <= |w| && s[i..j] == w[p..p + (j - i)]
    requires AnchorFree(r) && M(r, s, i, j)
    ensures M(r, w, p, p + (j - i))
    decreases r, 0, 0
  {
    match r
    case Lit(t) =>
    case Fold(t) =>
      assert forall k :: 0 <= k < j - i ==> s[i + k] == s[i..j][k] && w[p + k] == w[p..p + (j - i)][k];
    case Any =>
    case Class(_, _) =>
      assert s[i] == s[i..j][0] && w[p] == w[p..p + (j - i)][0];
    case Cat(a, b) =>
      var k :| i <= k <= j && M(a, s, i, k) && M(b, s, k, j);
      SubSlices(s, i, j, w, p, k);
      Carry(a, s, i, k, w, p);
      Carry(b, s, k, j, w, p + (k - i));
    case Alt(a, b) =>
      if M(a, s, i, j) { Carry(a, s, i, j, w, p); } else { Carry(b, s, i, j, w, p); }
    case Rep(x, lo, hi) =>
      var n: nat :| lo <= n && (hi.Some? ==> n <= hi.value) && Times(x, s, i, j, n);
      CarryTimes(x, s, i, j, w, p, n);
  }

  lemma SubSlices(s: string, i: nat, j: nat, w: string, p: nat, k: nat)
    requires i <= k <= j <= |s| && p + (j - i) <= |w| && s[i..j] == w[p..p + (j - i)]
    ensures s[i..k] == w[p..p + (k - i)] && s[k..j] == w[p + (k - i)..p + (j - i)]
  {
    assert s[i..k] == s[i..j][..k - i] && s[k..j] == s[i..j][k - i..];
    assert w[p..p + (k - i)] == w[p..p + (j - i)][..k - i];
    assert w[p + (k - i)..p + (j - i)] == w[p..p + (j - i)][k - i..];
  }

  lemma {:induction false} CarryTimes(x: Re, s: string, i: nat, j: nat, w: string, p: nat, n: nat)
    requires i <= j <= |s| && p + (j - i) <= |w| && s[i..j] == w[p..p + (j - i)]
    requires AnchorFree(x) && Times(x, s, i, j, n)
    ensures Times(x, w, p, p + (j - i), n)
    decreases x, 1, n
  {
    if n > 0 {
      var k :| i <= k <= j && M(x, s, i, k) && Times(x, s, k, j, n - 1);
      SubSlices(s, i, j, w, p, k);
      Carry(x, s, i, k, w, p);
      CarryTimes(x, s, k, j, w, p + (k - i), n - 1);
    }
  }

  /** What an anchor-free pattern matches depends on the text matched alone. */
  lemma Local(r: Re, s: string, i: nat, j: nat)
    requires i <= j <= |s| && AnchorFree(r)
    ensures M(r, s, i, j) <==> In(r, s[i..j])
  {
    var w := s[i..j];
    assert w[0..|w|] == w;
    if M(r, s, i, j) { Carry(r, s, i, j, w, 0); }
    if In(r, w) { Carry(r, w, 0, |w|, s, i); }
  }

  // ─── The language of each construct ──────────────────────

  lemma CatSplit(a: Re, b: Re, s: string, i: nat, j: nat) returns (k: nat)
    requires i <= j <= |s| && M(Cat(a, b), s, i, j)
    ensures i <= k <= j && M(a, s, i, k) && M(b, s, k, j)
  {
    k :| i <= k <= j && M(a, s, i, k) && M(b, s, k, j);
  }

  lemma CatJoin(a: Re, b: Re, s: string, i: nat, k: nat, j: nat)
    requires i <= k <= j <= |s| && M(a, s, i, k) && M(b, s, k, j)
    ensures M(Cat(a, b), s, i, j)
  {
  }

  lemma TimesSplit(x: Re, s: string, i: nat, j: nat, n: nat) returns (k: nat)
    requires i <= j <= |s| && n > 0 && Times(x, s, i, j, n)
    ensures i <= k <= j && M(x, s, i, k) && Times(x, s, k, j, n - 1)
  {
    k :| i <= k <= j && M(x, s, i, k) && Times(x, s, k, j, n - 1);
  }

  lemma TimesJoin(x: Re, s: string, i: nat, k: nat, j: nat, n: nat)
    requires i <= k <= j <= |s| && M(x, s, i, k) && Times(x, s, k, j, n)
    ensures Times(x, s, i, j, n + 1)
  {
  }

  lemma RepSplit(x: Re, lo: nat, hi: Option<nat>, s: string, i: nat, j: nat) returns (n: nat)
    requires i <= j <= |s| && M(Rep(x, lo, hi), s, i, j)
    ensures lo <= n && (hi.Some? ==> n <= hi.value) && Times(x, s, i, j, n)
  {
    n :| lo <= n && (hi.Some? ==> n <= hi.value) && Times(x, s, i, j, n);
  }

  lemma RepJoin(x: Re, lo: nat, hi: Option<nat>, s: string, i: nat, j: nat, n: nat)
    requires i <= j <= |s| && lo <= n && (hi.Some? ==> n <= hi.value) && Times(x, s, i, j, n)
    ensures M(Rep(x, lo, hi), s, i, j)
  {
  }

  lemma InCat(a: Re, b: Re, w: string)
    requires AnchorFree(a) && AnchorFree(b)
    ensures In(Cat(a, b), w) <==> exists k :: 0 <= k <= |w| && In(a, w[..k]) && In(b, w[k..])
  {
    hide M;
    if In(Cat(a, b), w) {
      var k := CatSplit(a, b, w, 0, |w|);
      InParts(a, b, w, k);
    }
    if exists k :: 0 <= k <= |w| && In(a, w[..k]) && In(b, w[k..]) {
      var k :| 0 <= k <= |w| && In(a, w[..k]) && In(b, w[k..]);
      InParts(a, b, w, k);
      CatJoin(a, b, w, 0, k, |w|);
    }
  }

  lemma InParts(a: Re, b: Re, w: string, k: nat)
    requires AnchorFree(a) && AnchorFree(b) && k <= |w|
    ensures M(a, w, 0, k) <==> In(a, w[..k])
    ensures M(b, w, k, |w|) <==> In(b, w[k..])
  {
    assert w[0..k] == w[..k] && w[k..|w|] == w[k..];
    Local(a, w, 0, k);
    Local(b, w, k, |w|);
  }

  /** Putting two matches together. */
  lemma JoinIn(a: Re, b: Re, u: string, v: string)
    requires AnchorFree(a) && AnchorFree(b) && In(a, u) && In(b, v)
    ensures In(Cat(a, b), u + v)
  {
    InCat(a, b, u + v);
    assert (u + v)[..|u|] == u && (u + v)[|u|..] == v;
  }

  /** Taking a match of a concatenation apart. */
  lemma SplitIn(a: Re, b: Re, w: string) returns (k: nat)
    requires AnchorFree(a) && AnchorFree(b) && In(Cat(a, b), w)
    ensures k <= |w| && In(a, w[..k]) && In(b, w[k..])
  {
    InCat(a, b, w);
    k :| 0 <= k <= |w| && In(a, w[..k]) && In(b, w[k..]);
  }

  ghost predicate All(r: Re, s: string, i: nat, j: nat)
    requires i <= j <= |s| && OneChar(r)
  {
    forall k :: i <= k < j ==> Accepts(r, s[k])
  }

  lemma OneCharMatch(x: Re, s: string, i: nat, j: nat)
    requires i <= j <= |s| && OneChar(x)
    ensures M(x, s, i, j) <==> j == i + 1 && Accepts(x, s[i])
  {
    if x.Lit? && j == i + 1 { assert s[i..j] == [s[i]]; }
  }

  /** A repeated class matches as many characters, each in the class. */
  lemma {:induction false} TimesOfClass(x: Re, s: string, i: nat, j: nat, n: nat)
    requires i <= j <= |s| && OneChar(x)
    ensures Times(x, s, i, j, n) <==> j - i == n && All(x, s, i, j)
    decreases n
  {
    if n > 0 {
      if Times(x, s, i, j, n) {
        var k := TimesSplit(x, s, i, j, n);
        OneCharMatch(x, s, i, k);
        TimesOfClass(x, s, k, j, n - 1);
      }
      if j - i == n && All(x, s, i, j) {
        TimesOfClass(x, s, i + 1, j, n - 1);
        OneCharMatch(x, s, i, i + 1);
        TimesJoin(x, s, i, i + 1, j, n - 1);
      }
    }
  }

  lemma RepOfClass(x: Re, lo: nat, hi: Option<nat>, s: string, i: nat, j: nat)
    requires i <= j <= |s| && OneChar(x)
    ensures M(Rep(x, lo, hi), s, i, j) <==> lo <= j - i && (hi.Some? ==> j - i <= hi.value) && All(x, s, i, j)
  {
    hide M, Times;
    if M(Rep(x, lo, hi), s, i, j) {
      var n := RepSplit(x, lo, hi, s, i, j);
      TimesOfClass(x, s, i, j, n);
    }
    TimesOfClass(x, s, i, j, j - i);
    if lo <= j - i && (hi.Some? ==> j - i <= hi.value) && All(x, s, i, j) {
      RepJoin(x, lo, hi, s, i, j, j - i);
    }
  }

  /** Alternatives, tried from the left. */
  function Alternatives(alts: seq<Re>): Re
    requires alts != []
  {
    if |alts| == 1 then alts[0] else Alt(alts[0], Alternatives(alts[1..]))
  }

  lemma {:induction false} InAlternatives(alts: seq<Re>, s: string, i: nat, j: nat)
    requires alts != [] && i <= j <= |s|
    ensures M(Alternatives(alts), s, i, j) <==> exists a :: 0 <= a < |alts| && M(alts[a], s, i, j)
  {
    if |alts| > 1 {
      InAlternatives(alts[1..], s, i, j);
      if M(Alternatives(alts[1..]), s, i, j) {
        var a :| 0 <= a < |alts[1..]| && M(alts[1..][a], s, i, j);
        assert alts[a + 1] == alts[1..][a];
      }
      if exists a :: 1 <= a < |alts| && M(alts[a], s, i, j) {
        var a :| 1 <= a < |alts| && M(alts[a], s, i, j);
        assert alts[1..][a - 1] == alts[a];
      }
    }
  }

  lemma {:induction false} AlternativesAnchorFree(alts: seq<Re>)
    requires alts != [] && forall a :: 0 <= a < |alts| ==> AnchorFree(alts[a])
    ensures AnchorFree(Alternatives(alts))
  {
    if |alts| > 1 { AlternativesAnchorFree(alts[1..]); }
  }

  /** `^body$`: the whole of the text or nothing. */
  lemma FoundWhole(body: Re, s: string)
    requires AnchorFree(body)
    ensures Found(Cat(Bol, Cat(body, Eol)), s) <==> In(body, s)
  {
    var r := Cat(Bol, Cat(body, Eol));
    if In(body, s) {
      CatJoin(body, Eol, s, 0, |s|, |s|);
      CatJoin(Bol, Cat(body, Eol), s, 0, 0, |s|);
      assert M(r, s, 0, |s|);
    }
    if Found(r, s) {
      FoundWholeOnly(body, s);
    }
  }

  lemma FoundWholeOnly(body: Re, s: string)
    requires AnchorFree(body) && Found(Cat(Bol, Cat(body, Eol)), s)
    ensures In(body, s)
  {
    hide M;
    var i: nat, j: nat :| i <= j <= |s| && M(Cat(Bol, Cat(body, Eol)), s, i, j);
    var k := CatSplit(Bol, Cat(body, Eol), s, i, j);
    var l := CatSplit(body, Eol, s, k, j);
    Anchors(s, i, k, l, j);
  }

  lemma Anchors(s: string, i: nat, k: nat, l: nat, j: nat)
    requires i <= k <= l <= j <= |s|
    ensures M(Bol, s, i, k) <==> i == 0 && k == 0
    ensures M(Eol, s, l, j) <==> l == |s| && j == |s|
  {
  }

  // ─── Patterns written alike ──────────────────────────────

  function Letters(t: string): seq<Re> {
    if t == "" then [] else [Lit([t[0]])] + Letters(t[1..])
  }

  /** A pattern as it is written out: what is concatenated simply runs on, and a
      literal is its letters. */
  function Atoms(r: Re): seq<Re> {
    match r
    case Lit(t) => Letters(t)
    case Cat(a, b) => Atoms(a) + Atoms(b)
    case _ => [r]
  }

  predicate WrittenAlike(a: Re, b: Re) { Atoms(a) == Atoms(b) }

  ghost predicate InTurn(atoms: seq<Re>, s: string, i: nat, j: nat)
    requires i <= j <= |s|
  {
    if atoms == [] then i == j
    else exists k :: i <= k <= j && M(atoms[0], s, i, k) && InTurn(atoms[1..], s, k, j)
  }

  lemma {:induction false} InTurnSplit(a: seq<Re>, b: seq<Re>, s: string, i: nat, j: nat) returns (k: nat)
    requires i <= j <= |s| && InTurn(a + b, s, i, j)
    ensures i <= k <= j && InTurn(a, s, i, k) && InTurn(b, s, k, j)
    decreases |a|
  {
    hide M;
    if a == [] {
      assert a + b == b;
      k := i;
    } else {
      assert (a + b)[0] == a[0] && (a + b)[1..] == a[1..] + b;
      var m :| i <= m <= j && M(a[0], s, i, m) && InTurn(a[1..] + b, s, m, j);
      k := InTurnSplit(a[1..], b, s, m, j);
    }
  }

  lemma {:induction false} InTurnJoin(a: seq<Re>, b: seq<Re>, s: string, i: nat, k: nat, j: nat)
    requires i <= k <= j <= |s| && InTurn(a, s, i, k) && InTurn(b, s, k, j)
    ensures InTurn(a + b, s, i, j)
    decreases |a|
  {
    hide M;
    if a == [] {
      assert a + b == b;
    } else {
      assert (a + b)[0] == a[0] && (a + b)[1..] == a[1..] + b;
      var m :| i <= m <= k && M(a[0], s, i, m) && InTurn(a[1..], s, m, k);
      InTurnJoin(a[1..], b, s, m, k, j);
    }
  }

  lemma OneInTurn(r: Re, s: string, i: nat, j: nat)
    requires i <= j <= |s|
    ensures InTurn([r], s, i, j) <==> M(r, s, i, j)
  {
    hide M;
    if M(r, s, i, j) {
      assert InTurn([r][1..], s, j, j);
    }
  }

  lemma LetterMatches(c: char, s: string, i: nat, j: nat)
    requires i <= j <= |s|
    ensures M(Lit([c]), s, i, j) <==> j == i + 1 && s[i] == c
  {
    if j == i + 1 { assert s[i..j] == [s[i]]; }
  }

  lemma FirstLetter(t: string, s: string, i: nat, j: nat)
    requires t != "" && i <= j <= |s|
    ensures s[i..j] == t <==> i < j && s[i] == t[0] && s[i + 1..j] == t[1..]
  {
    if i < j {
      assert s[i..j] == [s[i]] + s[i + 1..j];
      assert t == [t[0]] + t[1..];
    }
  }

  lemma {:induction false} LettersInTurn(t: string, s: string, i: nat, j: nat)
    requires i <= j <= |s|
    ensures InTurn(Letters(t), s, i, j) <==> s[i..j] == t
    decreases |t|
  {
    if t != "" {
      var rest := Letters(t[1..]);
      assert Letters(t)[0] == Lit([t[0]]) && Letters(t)[1..] == rest;
      FirstLetter(t, s, i, j);
      hide M, Letters;
      if InTurn(Letters(t), s, i, j) {
        var k :| i <= k <= j && M(Lit([t[0]]), s, i, k) && InTurn(rest, s, k, j);
        LetterMatches(t[0], s, i, k);
        LettersInTurn(t[1..], s, k, j);
      }
      if s[i..j] == t {
        LetterMatches(t[0], s, i, i + 1);
        LettersInTurn(t[1..], s, i + 1, j);
      }
    }
  }

  lemma {:induction false} AtomsInTurn(r: Re, s: string, i: nat, j: nat)
    requires i <= j <= |s|
    ensures InTurn(Atoms(r), s, i, j) <==> M(r, s, i, j)
    decreases r
  {
    match r
    case Lit(t) => LettersInTurn(t, s, i, j);
    case Cat(a, b) =>
      hide InTurn;
      if InTurn(Atoms(r), s, i, j) {
        var k := InTurnSplit(Atoms(a), Atoms(b), s, i, j);
        AtomsInTurn(a, s, i, k);
        AtomsInTurn(b, s, k, j);
        CatJoin(a, b, s, i, k, j);
      }
      if M(r, s, i, j) {
        var k := CatSplit(a, b, s, i, j);
        AtomsInTurn(a, s, i, k);
        AtomsInTurn(b, s, k, j);
        InTurnJoin(Atoms(a), Atoms(b), s, i, k, j);
      }
    case _ => OneInTurn(r, s, i, j);
  }

  /** Patterns written alike are found in the same texts. */
  lemma WrittenAlikeFoundAlike(a: Re, b: Re, s: string)
    requires WrittenAlike(a, b)
    ensures Found(a, s) <==> Found(b, s)
  {
    hide M, Atoms, InTurn;
    forall i: nat, j: nat | i <= j <= |s|
      ensures M(a, s, i, j) <==> M(b, s, i, j)
    {
      AtomsInTurn(a, s, i, j);
      AtomsInTurn(b, s, i, j);
    }
  }

  // ─── Without regard to case ──────────────────────────────

  /** A text in lowercase, as far as ASCII goes. */
  function Lowered(s: string): (l: string)
    ensures |l| == |s| && forall i :: 0 <= i < |s| ==> l[i] == Lower(s[i])
  {
    seq(|s|, i requires 0 <= i < |s| => Lower(s[i]))
  }

  /** Written in lowercase throughout. */
  predicate InLowercase(r: Re) {
    match r
    case Lit(t) => Lowered(t) == t
    case Class(_, ranges) => forall i :: 0 <= i < |ranges| ==> ranges[i].hi < 'A' || 'Z' < ranges[i].lo
    case Cat(a, b) => InLowercase(a) && InLowercase(b)
    case Alt(a, b) => InLowercase(a) && InLowercase(b)
    case Rep(x, _, _) => InLowercase(x)
    case _ => true
  }

  /** The uppercase letters of a range's lowercase ones. */
  function Raised(r: Range): Range {
    Range(if r.lo < 'a' then 'A' else if r.lo <= 'z' then r.lo - 32 as char else 'B',
          if 'z' < r.hi then 'Z' else if 'a' <= r.hi then r.hi - 32 as char else 'A')
  }

  function WithRaised(ranges: seq<Range>): seq<Range> {
    if ranges == [] then []
    else if ranges[0].lo <= 'z' && 'a' <= ranges[0].hi
    then [ranges[0], Raised(ranges[0])] + WithRaised(ranges[1..])
    else [ranges[0]] + WithRaised(ranges[1..])
  }

  /** The pattern under the case-insensitive flag. */
  function AnyCase(r: Re): Re {
    match r
    case Lit(t) => Fold(t)
    case Class(negated, ranges) => Class(negated, WithRaised(ranges))
    case Cat(a, b) => Cat(AnyCase(a), AnyCase(b))
    case Alt(a, b) => Alt(AnyCase(a), AnyCase(b))
    case Rep(x, lo, hi) => Rep(AnyCase(x), lo, hi)
    case _ => r
  }

  predicate InRange(c: char, r: Range) { r.lo <= c <= r.hi }

  lemma RaisedHolds(c: char, r: Range)
    requires r.hi < 'A' || 'Z' < r.lo
    ensures InRange(Lower(c), r)
            <==> InRange(c, r) || (r.lo <= 'z' && 'a' <= r.hi && InRange(c, Raised(r)))
  {
  }

  lemma InMoreRanges(c: char, a: seq<Range>, b: seq<Range>)
    ensures InRanges(c, a + b) <==> InRanges(c, a) || InRanges(c, b)
  {
    var all := a + b;
    if InRanges(c, a) {
      var i :| 0 <= i < |a| && a[i].lo <= c <= a[i].hi;
      assert all[i] == a[i];
    }
    if InRanges(c, b) {
      var i :| 0 <= i < |b| && b[i].lo <= c <= b[i].hi;
      assert all[|a| + i] == b[i];
    }
  }

  lemma {:induction false} WithRaisedHolds(c: char, ranges: seq<Range>)
    requires forall i :: 0 <= i < |ranges| ==> ranges[i].hi < 'A' || 'Z' < ranges[i].lo
    ensures InRanges(Lower(c), ranges) <==> InRanges(c, WithRaised(ranges))
  {
    if ranges != [] {
      var r := ranges[0];
      WithRaisedHolds(c, ranges[1..]);
      RaisedHolds(c, r);
      InMoreRanges(Lower(c), [r], ranges[1..]);
      assert ranges == [r] + ranges[1..];
      InMoreRanges(c, [r], WithRaised(ranges[1..]));
      InMoreRanges(c, [r, Raised(r)], WithRaised(ranges[1..]));
      InMoreRanges(c, [r], [Raised(r)]);
      assert [r] + [Raised(r)] == [r, Raised(r)];
      OneRangeHolds(c, r);
      OneRangeHolds(Lower(c), r);
      OneRangeHolds(c, Raised(r));
      hide InRanges, InRange, Lower, Raised;
    }
  }

  lemma OneRangeHolds(c: char, r: Range)
    ensures InRanges(c, [r]) <==> InRange(c, r)
  {
    if InRange(c, r) { assert [r][0] == r; }
  }

  lemma LoweredSlice(t: string, s: string, i: nat, j: nat)
    requires i <= j <= |s| && Lowered(t) == t
    ensures M(Fold(t), s, i, j) <==> M(Lit(t), Lowered(s), i, j)
  {
    var l := Lowered(s);
    if M(Lit(t), l, i, j) {
      assert forall k :: 0 <= k < |t| ==> l[i + k] == l[i..j][k];
    }
    if M(Fold(t), s, i, j) {
      assert forall k :: 0 <= k < |t| ==> l[i..j][k] == t[k];
    }
  }

  /** Under the flag a pattern written in lowercase matches what it matches without
      it of the text in lowercase. */
  lemma {:induction false} AnyCaseMatches(r: Re, s: string, i: nat, j: nat)
    requires i <= j <= |s| && InLowercase(r)
    ensures M(AnyCase(r), s, i, j) <==> M(r, Lowered(s), i, j)
    decreases r, 0, 0
  {
    match r
    case Lit(t) => LoweredSlice(t, s, i, j);
    case Class(_, ranges) => if j == i + 1 { WithRaisedHolds(s[i], ranges); }
    case Cat(a, b) =>
      forall k | i <= k <= j
        ensures M(AnyCase(a), s, i, k) && M(AnyCase(b), s, k, j) <==> M(a, Lowered(s), i, k) && M(b, Lowered(s), k, j)
      {
        AnyCaseMatches(a, s, i, k);
        AnyCaseMatches(b, s, k, j);
      }
    case Alt(a, b) =>
      AnyCaseMatches(a, s, i, j);
      AnyCaseMatches(b, s, i, j);
    case Rep(x, lo, hi) =>
      forall n: nat
        ensures Times(AnyCase(x), s, i, j, n) <==> Times(x, Lowered(s), i, j, n)
      {
        AnyCaseTimes(x, s, i, j, n);
      }
    case _ =>
  }

  lemma {:induction false} AnyCaseTimes(x: Re, s: string, i: nat, j: nat, n: nat)
    requires i <= j <= |s| && InLowercase(x)
    ensures Times(AnyCase(x), s, i, j, n) <==> Times(x, Lowered(s), i, j, n)
    decreases x, 1, n
  {
    if n > 0 {
      forall k | i <= k <= j
        ensures M(AnyCase(x), s, i, k) && Times(AnyCase(x), s, k, j, n - 1)
                <==> M(x, Lowered(s), i, k) && Times(x, Lowered(s), k, j, n - 1)
      {
        AnyCaseMatches(x, s, i, k);
        AnyCaseTimes(x, s, k, j, n - 1);
      }
    }
  }

  lemma AnyCaseFound(r: Re, s: string)
    requires InLowercase(r)
    ensures Found(AnyCase(r), s) <==> Found(r, Lowered(s))
  {
    hide M;
    forall i: nat, j: nat | i <= j <= |s|
      ensures M(AnyCase(r), s, i, j) <==> M(r, Lowered(s), i, j)
    {
      AnyCaseMatches(r, s, i, j);
    }
  }
}
