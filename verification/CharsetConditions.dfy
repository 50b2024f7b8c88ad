/** The two conditions rule 920480 is converted to, against the two links they were
    written from (scripts/modsec2easywaf.py, `LIST_RULES`): the charset a header
    names first is not an allowed one. */
module CharsetConditions {
  import opened CharsetRule
  import opened Options
  import opened Regex

  // ─── What the rule reads ─────────────────────────────────

  predicate Blank(c: char) { '\t' <= c <= '\r' || c == ' ' }

  predicate QuoteMark(c: char) { c == '"' || c == '\'' }

  /** What a charset's name may hold. */
  predicate NameChar(c: char) { c != ';' && !QuoteMark(c) && !Blank(c) }

  function SkipBlanks(s: string, i: nat): (j: nat)
    requires i <= |s|
    ensures i <= j <= |s|
    decreases |s| - i
  {
    if i < |s| && Blank(s[i]) then SkipBlanks(s, i + 1) else i
  }

  function NameEnd(s: string, i: nat): (j: nat)
    requires i <= |s|
    ensures i <= j <= |s|
    decreases |s| - i
  {
    if i < |s| && NameChar(s[i]) then NameEnd(s, i + 1) else i
  }

  /** Past an equals sign, with blanks around it, and a quote. */
  function NameStart(s: string, from: nat): (r: Option<nat>)
    requires from <= |s|
    ensures r.Some? ==> from <= r.value <= |s|
  {
    var i := SkipBlanks(s, from);
    if i == |s| || s[i] != '=' then None
    else
      var j := SkipBlanks(s, i + 1);
      if j < |s| && QuoteMark(s[j]) then Some(j + 1) else Some(j)
  }

  /** The name given after the word, if one is. */
  function NameAt(s: string, from: nat): Option<string>
    requires from <= |s|
  {
    match NameStart(s, from)
    case None => None
    case Some(i) => if NameEnd(s, i) > i then Some(s[i..NameEnd(s, i)]) else None
  }

  /** The word stands there and a name is given after it. */
  ghost predicate Names(s: string, k: nat) {
    At(s, k) && NameAt(s, k + |WORD|).Some?
  }

  /** The first match of the rule's first link, and its capture against its second. */
  ghost predicate RuleHolds(s: string, allowed: seq<string>) {
    exists k: nat ::
      Names(s, k) && (forall p: nat :: p < k ==> !Names(s, p)) && NameAt(s, k + |WORD|).value !in allowed
  }

  ghost predicate AreNames(allowed: seq<string>) {
    forall a :: a in allowed ==> a != "" && (forall i :: 0 <= i < |a| ==> NameChar(a[i])) && Lowered(a) == a
  }

  // ─── What it is converted to ─────────────────────────────

  const BLANKS: seq<Range> := [Range('\t', '\r'), Range(' ', ' ')]
  const BLANK := Class(false, BLANKS)
  const QUOTE := Class(false, [Range('"', '"'), Range('\'', '\'')])
  const ENDS: seq<Range> := [Range(';', ';'), Range('"', '"'), Range('\'', '\'')] + BLANKS
  const NAME := Class(true, ENDS)
  const END := Class(false, ENDS)

  /** `\s*=\s*["']?`, and then. */
  function Lead(after: Re): Re {
    Cat(Star(BLANK), Cat(Lit("="), Cat(Star(BLANK), Cat(Opt(QUOTE), after))))
  }

  /** A list's words as an alternation; one with no words matches nothing. */
  function Words(allowed: seq<string>): Re {
    if allowed == [] then Class(false, []) else Alternatives(Literals(allowed))
  }

  function Literals(allowed: seq<string>): (lits: seq<Re>)
    ensures |lits| == |allowed| && forall i :: 0 <= i < |lits| ==> lits[i] == Lit(allowed[i])
  {
    seq(|allowed|, i requires 0 <= i < |allowed| => Lit(allowed[i]))
  }

  function Named(): Re { Cat(Lit(WORD), Lead(NAME)) }

  function AllowedName(allowed: seq<string>): Re { Cat(Words(allowed), Alt(END, Eol)) }

  function FirstAllowed(allowed: seq<string>): Re {
    Cat(Bol, Cat(Prefix(), Cat(Lit(WORD), Lead(AllowedName(allowed)))))
  }

  /** A charset is named, and not: the first is followed by an allowed one. */
  ghost predicate ConditionsHold(s: string, allowed: seq<string>) {
    Found(AnyCase(Named()), s) && !Found(AnyCase(FirstAllowed(allowed)), s)
  }

  // ─── Reading is what the pattern does ────────────────────

  lemma ClassesHold(c: char)
    ensures Accepts(BLANK, c) <==> Blank(c)
    ensures Accepts(QUOTE, c) <==> QuoteMark(c)
    ensures Accepts(NAME, c) <==> NameChar(c)
    ensures Accepts(END, c) <==> !NameChar(c)
  {
    BlanksHold(c);
    QuotesHold(c);
    EndsHold(c);
  }

  lemma BlanksHold(c: char)
    ensures InRanges(c, BLANKS) <==> Blank(c)
  {
    if Blank(c) {
      assert BLANKS[0].lo <= c <= BLANKS[0].hi || BLANKS[1].lo <= c <= BLANKS[1].hi;
    }
  }

  lemma QuotesHold(c: char)
    ensures InRanges(c, QUOTE.ranges) <==> QuoteMark(c)
  {
    var rs := QUOTE.ranges;
    if QuoteMark(c) {
      assert rs[0].lo <= c <= rs[0].hi || rs[1].lo <= c <= rs[1].hi;
    }
  }

  lemma EndsHold(c: char)
    ensures InRanges(c, ENDS) <==> !NameChar(c)
  {
    var marks := [Range(';', ';'), Range('"', '"'), Range('\'', '\'')];
    InMoreRanges(c, marks, BLANKS);
    BlanksHold(c);
    if c == ';' || QuoteMark(c) {
      assert marks[0].lo <= c <= marks[0].hi || marks[1].lo <= c <= marks[1].hi || marks[2].lo <= c <= marks[2].hi;
    }
  }

  /** Blanks and then something else: as many as there are. */
  lemma {:induction false} BlanksSkipped(s: string, i: nat, j: nat)
    requires i <= j <= |s| && (forall k :: i <= k < j ==> Blank(s[k]))
    requires j < |s| ==> !Blank(s[j])
    ensures SkipBlanks(s, i) == j
    decreases j - i
  {
    if i < j { BlanksSkipped(s, i + 1, j); }
  }

  lemma {:induction false} SkippedAreBlank(s: string, i: nat)
    requires i <= |s|
    ensures forall k :: i <= k < SkipBlanks(s, i) ==> Blank(s[k])
    decreases |s| - i
  {
    if i < |s| && Blank(s[i]) { SkippedAreBlank(s, i + 1); }
  }

  lemma BlanksMatch(s: string, i: nat, j: nat)
    requires i <= j <= |s|
    ensures M(Star(BLANK), s, i, j) <==> forall k :: i <= k < j ==> Blank(s[k])
  {
    hide M;
    RepOfClass(BLANK, 0, None, s, i, j);
    forall k | i <= k < j
      ensures Accepts(BLANK, s[k]) <==> Blank(s[k])
    {
      ClassesHold(s[k]);
    }
  }

  lemma QuoteMatches(s: string, i: nat, j: nat)
    requires i <= j <= |s|
    ensures M(Opt(QUOTE), s, i, j) <==> j == i || (j == i + 1 && QuoteMark(s[i]))
  {
    hide M;
    RepOfClass(QUOTE, 0, Some(1), s, i, j);
    if j == i + 1 { ClassesHold(s[i]); }
  }

  lemma EqualsMatches(s: string, i: nat, j: nat)
    requires i <= j <= |s|
    ensures M(Lit("="), s, i, j) <==> j == i + 1 && s[i] == '='
  {
    if j == i + 1 { assert s[i..j] == [s[i]]; }
  }

  /** What a name can begin with, and nothing that is skipped. */
  ghost predicate BeginsName(r: Re, s: string) {
    forall i: nat, j: nat :: i <= j <= |s| && M(r, s, i, j) ==> i < |s| && NameChar(s[i])
  }

  lemma LeadSplits(after: Re, s: string, from: nat, j: nat) returns (i: nat)
    requires from <= j <= |s| && BeginsName(after, s) && M(Lead(after), s, from, j)
    ensures i <= j && NameStart(s, from) == Some(i) && M(after, s, i, j)
  {
    hide M, Blank, QuoteMark;
    var a := CatSplit(Star(BLANK), Cat(Lit("="), Cat(Star(BLANK), Cat(Opt(QUOTE), after))), s, from, j);
    var b := CatSplit(Lit("="), Cat(Star(BLANK), Cat(Opt(QUOTE), after)), s, a, j);
    var c := CatSplit(Star(BLANK), Cat(Opt(QUOTE), after), s, b, j);
    i := CatSplit(Opt(QUOTE), after, s, c, j);
    BlanksMatch(s, from, a);
    EqualsMatches(s, a, b);
    BlanksMatch(s, b, c);
    QuoteMatches(s, c, i);
    MarksDiffer();
    BlanksSkipped(s, from, a);
    BlanksSkipped(s, b, c);
  }

  lemma MarksDiffer()
    ensures !Blank('=') && forall c :: QuoteMark(c) ==> !Blank(c)
  {
  }

  lemma LeadJoins(after: Re, s: string, from: nat, i: nat, j: nat)
    requires from <= |s| && i <= j <= |s| && NameStart(s, from) == Some(i) && M(after, s, i, j)
    ensures M(Lead(after), s, from, j)
  {
    hide M, Blank, QuoteMark;
    var a := SkipBlanks(s, from);
    var c := SkipBlanks(s, a + 1);
    SkippedAreBlank(s, from);
    SkippedAreBlank(s, a + 1);
    BlanksMatch(s, from, a);
    EqualsMatches(s, a, a + 1);
    BlanksMatch(s, a + 1, c);
    QuoteMatches(s, c, i);
    CatJoin(Opt(QUOTE), after, s, c, i, j);
    CatJoin(Star(BLANK), Cat(Opt(QUOTE), after), s, a + 1, c, j);
    CatJoin(Lit("="), Cat(Star(BLANK), Cat(Opt(QUOTE), after)), s, a, a + 1, j);
    CatJoin(Star(BLANK), Cat(Lit("="), Cat(Star(BLANK), Cat(Opt(QUOTE), after))), s, from, a, j);
  }

  lemma LeadContinues(after: Re, s: string, from: nat)
    requires from <= |s| && BeginsName(after, s)
    ensures Continues(Lead(after), s, from)
            <==> NameStart(s, from).Some? && Continues(after, s, NameStart(s, from).value)
  {
    hide M, NameStart, BeginsName, Lead;
    if Continues(Lead(after), s, from) {
      var j: nat :| from <= j <= |s| && M(Lead(after), s, from, j);
      var i := LeadSplits(after, s, from, j);
    }
    if NameStart(s, from).Some? && Continues(after, s, NameStart(s, from).value) {
      var i := NameStart(s, from).value;
      var j: nat :| i <= j <= |s| && M(after, s, i, j);
      LeadJoins(after, s, from, i, j);
    }
  }

  lemma NameBegins(s: string)
    ensures BeginsName(NAME, s)
  {
    forall i: nat, j: nat | i <= j <= |s| && M(NAME, s, i, j)
      ensures i < |s| && NameChar(s[i])
    {
      OneCharMatch(NAME, s, i, j);
      ClassesHold(s[i]);
    }
  }

  /** The first condition asks for the word with a name after it. */
  lemma NamedContinues(s: string, from: nat)
    requires from <= |s|
    ensures Continues(Lead(NAME), s, from) <==> NameAt(s, from).Some?
  {
    NameBegins(s);
    LeadContinues(NAME, s, from);
    hide M, Lead, BeginsName, NameStart, NameChar;
    if NameStart(s, from).Some? {
      var i := NameStart(s, from).value;
      if i < |s| {
        OneCharMatch(NAME, s, i, i + 1);
        ClassesHold(s[i]);
        assert NameEnd(s, i) > i <==> NameChar(s[i]);
      }
      if Continues(NAME, s, i) {
        var j: nat :| i <= j <= |s| && M(NAME, s, i, j);
        OneCharMatch(NAME, s, i, j);
      }
    }
  }

  lemma {:induction false} NameEndIs(s: string, i: nat, j: nat)
    requires i <= j <= |s| && (forall k :: i <= k < j ==> NameChar(s[k])) && (j < |s| ==> !NameChar(s[j]))
    ensures NameEnd(s, i) == j
    decreases j - i
  {
    if i < j { NameEndIs(s, i + 1, j); }
  }

  lemma {:induction false} NameRuns(s: string, i: nat)
    requires i <= |s|
    ensures NameEnd(s, i) < |s| ==> !NameChar(s[NameEnd(s, i)])
    ensures forall k :: i <= k < NameEnd(s, i) ==> NameChar(s[k])
    decreases |s| - i
  {
    if i < |s| && NameChar(s[i]) { NameRuns(s, i + 1); }
  }

  // ─── What name is read ───────────────────────────────────

  /** From `from` on: blanks, an equals sign at `i`, blanks, at most one quote, and the
      name from `k` to `e`, which nothing of a name's follows. */
  ghost predicate Spells(s: string, from: nat, i: nat, j: nat, k: nat, e: nat) {
    && from <= i < j <= k < e <= |s| && s[i] == '='
    && (forall x :: from <= x < i ==> Blank(s[x])) && (forall x :: i < x < j ==> Blank(s[x]))
    && (k == j || (k == j + 1 && QuoteMark(s[j])))
    && (forall x :: k <= x < e ==> NameChar(s[x])) && (e < |s| ==> !NameChar(s[e]))
  }

  /** A name spelled so is the name read. */
  lemma SpelledIsRead(s: string, from: nat, i: nat, j: nat, k: nat, e: nat)
    requires Spells(s, from, i, j, k, e)
    ensures NameAt(s, from) == Some(s[k..e])
  {
    MarksDiffer();
    assert NameChar(s[k]);
    assert k == j ==> !QuoteMark(s[j]);
    BlanksSkipped(s, from, i);
    BlanksSkipped(s, i + 1, j);
    NameEndIs(s, k, e);
  }

  /** And a name read is spelled so. */
  lemma ReadIsSpelled(s: string, from: nat) returns (i: nat, j: nat, k: nat, e: nat)
    requires from <= |s| && NameAt(s, from).Some?
    ensures Spells(s, from, i, j, k, e) && NameAt(s, from) == Some(s[k..e])
  {
    i := SkipBlanks(s, from);
    j := SkipBlanks(s, i + 1);
    k := NameStart(s, from).value;
    e := NameEnd(s, k);
    SkippedAreBlank(s, from);
    SkippedAreBlank(s, i + 1);
    NameRuns(s, k);
  }

  lemma WordsMatch(allowed: seq<string>, s: string, i: nat, j: nat)
    requires i <= j <= |s|
    ensures M(Words(allowed), s, i, j) <==> s[i..j] in allowed
  {
    if allowed != [] {
      var lits := Literals(allowed);
      InAlternatives(lits, s, i, j);
      if s[i..j] in allowed {
        var a :| 0 <= a < |allowed| && allowed[a] == s[i..j];
        assert M(lits[a], s, i, j);
      }
    }
  }

  lemma EndMatches(s: string, i: nat, j: nat)
    requires i <= j <= |s|
    ensures M(Alt(END, Eol), s, i, j) <==> (j == i + 1 && !NameChar(s[i])) || i == j == |s|
  {
    OneCharMatch(END, s, i, j);
    if j == i + 1 { ClassesHold(s[i]); }
  }

  lemma AllowedSplits(allowed: seq<string>, s: string, i: nat, j: nat) returns (k: nat)
    requires i <= j <= |s| && AreNames(allowed) && M(AllowedName(allowed), s, i, j)
    ensures i < k <= |s| && NameEnd(s, i) == k && s[i..k] in allowed && NameChar(s[i])
  {
    hide M, NameChar, Words;
    k := CatSplit(Words(allowed), Alt(END, Eol), s, i, j);
    WordsMatch(allowed, s, i, k);
    EndMatches(s, k, j);
    var a := s[i..k];
    assert a in allowed && a != "";
    forall p | i <= p < k
      ensures NameChar(s[p])
    {
      assert s[p] == a[p - i];
    }
    NameEndIs(s, i, k);
  }

  lemma AllowedContinues(allowed: seq<string>, s: string, i: nat)
    requires i <= |s| && AreNames(allowed)
    ensures Continues(AllowedName(allowed), s, i)
            <==> NameEnd(s, i) > i && s[i..NameEnd(s, i)] in allowed
  {
    var k := NameEnd(s, i);
    NameRuns(s, i);
    hide M, NameChar, Words, NameEnd, AreNames;
    if Continues(AllowedName(allowed), s, i) {
      var j: nat :| i <= j <= |s| && M(AllowedName(allowed), s, i, j);
      var k := AllowedSplits(allowed, s, i, j);
    }
    if k > i && s[i..k] in allowed {
      var j := if k < |s| then k + 1 else k;
      WordsMatch(allowed, s, i, k);
      EndMatches(s, k, j);
      CatJoin(Words(allowed), Alt(END, Eol), s, i, k, j);
    }
  }

  lemma AllowedBegins(allowed: seq<string>, s: string)
    requires AreNames(allowed)
    ensures BeginsName(AllowedName(allowed), s)
  {
    hide M, NameChar, AreNames, AllowedName;
    forall i: nat, j: nat | i <= j <= |s| && M(AllowedName(allowed), s, i, j)
      ensures i < |s| && NameChar(s[i])
    {
      var k := AllowedSplits(allowed, s, i, j);
    }
  }

  /** The second asks for an allowed name. */
  lemma AllowedIsNamed(allowed: seq<string>, s: string, from: nat)
    requires from <= |s| && AreNames(allowed)
    ensures Continues(Lead(AllowedName(allowed)), s, from)
            <==> NameAt(s, from).Some? && NameAt(s, from).value in allowed
  {
    AllowedBegins(allowed, s);
    hide M, Lead, BeginsName, NameStart, NameEnd, AreNames, AllowedName, Continues;
    LeadContinues(AllowedName(allowed), s, from);
    if NameStart(s, from).Some? {
      AllowedContinues(allowed, s, NameStart(s, from).value);
    }
  }

  lemma NamedIsFound(s: string)
    ensures Found(Named(), s) <==> exists k: nat :: Names(s, k)
  {
    hide M, Lead, NameAt;
    if Found(Named(), s) {
      var i: nat, j: nat :| i <= j <= |s| && M(Named(), s, i, j);
      var l := CatSplit(Lit(WORD), Lead(NAME), s, i, j);
      LitAt(s, i, l);
      NamedContinues(s, l);
      assert Names(s, i);
    }
    if exists k: nat :: Names(s, k) {
      var k: nat :| Names(s, k);
      var l := k + |WORD|;
      NamedContinues(s, l);
      var j: nat :| l <= j <= |s| && M(Lead(NAME), s, l, j);
      LitAt(s, k, l);
      CatJoin(Lit(WORD), Lead(NAME), s, k, l, j);
    }
  }

  /** The word's first occurrence. */
  ghost predicate FirstAt(s: string, k: nat) {
    At(s, k) && forall p: nat :: p < k ==> !At(s, p)
  }

  ghost predicate FirstIsAllowed(s: string, allowed: seq<string>) {
    exists k: nat :: FirstAt(s, k) && NameAt(s, k + |WORD|).Some? && NameAt(s, k + |WORD|).value in allowed
  }

  lemma AllowedIsFound(s: string, allowed: seq<string>)
    requires AreNames(allowed)
    ensures Found(FirstAllowed(allowed), s) <==> FirstIsAllowed(s, allowed)
  {
    hide Found, Prefix, Lead, NameAt, AllowedName, AreNames, Continues;
    var rest := Lead(AllowedName(allowed));
    ConditionReadsFirstCharset(rest, s);
    forall k: nat | At(s, k)
      ensures Continues(rest, s, k + |WORD|)
              <==> NameAt(s, k + |WORD|).Some? && NameAt(s, k + |WORD|).value in allowed
    {
      AllowedIsNamed(allowed, s, k + |WORD|);
    }
    if FirstIsAllowed(s, allowed) {
      var k: nat :| FirstAt(s, k) && NameAt(s, k + |WORD|).Some? && NameAt(s, k + |WORD|).value in allowed;
      assert At(s, k) && Continues(rest, s, k + |WORD|);
    }
    if Found(FirstAllowed(allowed), s) {
      var k: nat :| At(s, k) && (forall p: nat :: p < k ==> !At(s, p)) && Continues(rest, s, k + |WORD|);
      assert FirstAt(s, k);
    }
  }

  // ─── In any case ─────────────────────────────────────────

  lemma LeadInLowercase(after: Re)
    requires InLowercase(after)
    ensures InLowercase(Lead(after))
  {
    assert InLowercase(BLANK) && InLowercase(QUOTE);
    EqualsInLowercase();
    hide Lowered;
    CatInLowercase(Opt(QUOTE), after);
    CatInLowercase(Star(BLANK), Cat(Opt(QUOTE), after));
    CatInLowercase(Lit("="), Cat(Star(BLANK), Cat(Opt(QUOTE), after)));
    CatInLowercase(Star(BLANK), Cat(Lit("="), Cat(Star(BLANK), Cat(Opt(QUOTE), after))));
  }

  lemma EqualsInLowercase()
    ensures InLowercase(Lit("="))
  {
  }

  lemma AllowedInLowercase(allowed: seq<string>)
    requires AreNames(allowed)
    ensures InLowercase(AllowedName(allowed))
  {
    hide Lowered;
    if allowed != [] {
      var lits := Literals(allowed);
      assert forall a :: 0 <= a < |lits| ==> allowed[a] in allowed && InLowercase(lits[a]);
      AlternativesInLowercase(lits);
    }
    assert InLowercase(Words(allowed));
    assert InLowercase(Alt(END, Eol));
    CatInLowercase(Words(allowed), Alt(END, Eol));
  }

  lemma NamedInLowercase(s: string)
    ensures Found(AnyCase(Named()), s) <==> exists k: nat :: Names(Lowered(s), k)
  {
    assert InLowercase(NAME);
    hide Lowered, Lead, Names, Found, InLowercase;
    IsLowercase(WORD);
    LeadInLowercase(NAME);
    CatInLowercase(Lit(WORD), Lead(NAME));
    AnyCaseFound(Named(), s);
    NamedIsFound(Lowered(s));
  }

  lemma FirstAllowedInLowercase(s: string, allowed: seq<string>)
    requires AreNames(allowed)
    ensures Found(AnyCase(FirstAllowed(allowed)), s) <==> FirstIsAllowed(Lowered(s), allowed)
  {
    AllowedInLowercase(allowed);
    assert InLowercase(Bol);
    hide Lowered, Lead, Prefix, AllowedName, FirstIsAllowed, AreNames, Found, InLowercase;
    var rest := Lead(AllowedName(allowed));
    IsLowercase(WORD);
    PiecesInLowercase();
    LeadInLowercase(AllowedName(allowed));
    CatInLowercase(Lit(WORD), rest);
    CatInLowercase(Prefix(), Cat(Lit(WORD), rest));
    CatInLowercase(Bol, Cat(Prefix(), Cat(Lit(WORD), rest)));
    AnyCaseFound(FirstAllowed(allowed), s);
    AllowedIsFound(Lowered(s), allowed);
  }

  lemma ConditionsInLowercase(s: string, allowed: seq<string>)
    requires AreNames(allowed)
    ensures var l := Lowered(s);
            ConditionsHold(s, allowed) <==> (exists k: nat :: Names(l, k)) && !FirstIsAllowed(l, allowed)
  {
    NamedInLowercase(s);
    FirstAllowedInLowercase(s, allowed);
    hide Lowered, Names, FirstIsAllowed, AreNames, Found, Named, FirstAllowed, AnyCase;
  }

  // ─── When the conditions mean the rule ───────────────────

  /** Where the word is followed by a name at all, its first occurrence is. */
  ghost predicate FirstIsNamed(s: string) {
    (exists k: nat :: Names(s, k)) ==> exists k: nat :: Names(s, k) && FirstAt(s, k)
  }

  lemma {:induction false} FirstNamed(s: string, n: nat) returns (k: nat)
    requires Names(s, n)
    ensures k + |WORD| <= |s| && NameAt(s, k + |WORD|).Some?
    ensures Names(s, k) && forall p: nat :: p < k ==> !Names(s, p)
    decreases n
  {
    assert Names(s, n) ==> n + |WORD| <= |s| && NameAt(s, n + |WORD|).Some?;
    hide Names;
    if exists p: nat :: p < n && Names(s, p) {
      var p: nat :| p < n && Names(s, p);
      k := FirstNamed(s, p);
    } else {
      k := n;
    }
  }

  lemma NameIsName(s: string, from: nat)
    requires from <= |s| && NameAt(s, from).Some? && Lowered(s) == s
    ensures AreNames([NameAt(s, from).value])
  {
    var i := NameStart(s, from).value;
    NameRuns(s, i);
    var name := s[i..NameEnd(s, i)];
    assert name == NameAt(s, from).value;
    hide NameStart, NameEnd, NameChar;
    assert Lowered(name) == name by {
      assert forall k :: 0 <= k < |name| ==> name[k] == s[i + k] == Lowered(s)[i + k];
    }
  }

  lemma LoweredTwice(s: string)
    ensures Lowered(Lowered(s)) == Lowered(s)
  {
  }

  lemma RuleIsAt(s: string, allowed: seq<string>, k: nat)
    requires Names(s, k) && forall p: nat :: p < k ==> !Names(s, p)
    ensures RuleHolds(s, allowed) <==> NameAt(s, k + |WORD|).value !in allowed
  {
    hide NameAt;
    if RuleHolds(s, allowed) {
      var n: nat :| Names(s, n) && (forall p: nat :: p < n ==> !Names(s, p))
                    && NameAt(s, n + |WORD|).value !in allowed;
      assert n == k;
    }
  }

  lemma FirstIsAt(s: string, allowed: seq<string>, k: nat)
    requires Names(s, k) && forall p: nat :: p < k ==> !Names(s, p)
    ensures FirstIsAllowed(s, allowed) <==> FirstIsNamed(s) && NameAt(s, k + |WORD|).value in allowed
  {
    hide NameAt;
    if FirstIsAllowed(s, allowed) {
      var n: nat :| FirstAt(s, n) && NameAt(s, n + |WORD|).Some? && NameAt(s, n + |WORD|).value in allowed;
      assert Names(s, n) && n == k;
    }
    if FirstIsNamed(s) && NameAt(s, k + |WORD|).value in allowed {
      var n: nat :| Names(s, n) && FirstAt(s, n);
      assert n == k;
    }
  }

  /** For one list: they part exactly where the word comes first without a name, and
      the name that comes later is on the list. */
  lemma ConditionsPartWhere(s: string, allowed: seq<string>, k: nat)
    requires AreNames(allowed)
    requires var l := Lowered(s); Names(l, k) && forall p: nat :: p < k ==> !Names(l, p)
    ensures var l := Lowered(s);
            (ConditionsHold(s, allowed) <==> RuleHolds(l, allowed))
            <==> FirstIsNamed(l) || NameAt(l, k + |WORD|).value !in allowed
  {
    var l := Lowered(s);
    ConditionsInLowercase(s, allowed);
    RuleIsAt(l, allowed, k);
    FirstIsAt(l, allowed, k);
    hide ConditionsHold, AreNames, NameAt, At, Lowered, FirstIsNamed, FirstIsAllowed, RuleHolds;
  }

  /** Whatever the list of allowed charsets: the conditions hold of a header exactly
      when the rule does, if and only if the word's first occurrence is the one
      the charset is named after. */
  lemma ConditionsMeanLinks(s: string)
    ensures (forall allowed :: AreNames(allowed) ==> (ConditionsHold(s, allowed) <==> RuleHolds(Lowered(s), allowed)))
            <==> FirstIsNamed(Lowered(s))
  {
    var l := Lowered(s);
    LoweredTwice(s);
    hide ConditionsHold, Lowered, At, NameAt;
    if n: nat :| Names(l, n) {
      var k := FirstNamed(l, n);
      var name := NameAt(l, k + |WORD|).value;
      NameIsName(l, k + |WORD|);
      ConditionsPartWhere(s, [name], k);
      forall allowed | AreNames(allowed) && FirstIsNamed(l)
        ensures ConditionsHold(s, allowed) <==> RuleHolds(l, allowed)
      {
        ConditionsPartWhere(s, allowed, k);
      }
    } else {
      forall allowed | AreNames(allowed)
        ensures ConditionsHold(s, allowed) <==> RuleHolds(l, allowed)
      {
        ConditionsInLowercase(s, allowed);
      }
    }
  }

  /** A header that begins with the word and names its charset after another: the rule
      passes it, that charset being allowed, and the conditions do not. */
  lemma SecondNameIsMissed(s: string, k: nat)
    requires Lowered(s) == s && At(s, 0) && !Names(s, 0)
    requires Names(s, k) && forall p: nat :: p < k ==> !Names(s, p)
    ensures var allowed := [NameAt(s, k + |WORD|).value];
            AreNames(allowed) && ConditionsHold(s, allowed) && !RuleHolds(s, allowed)
  {
    NameIsName(s, k + |WORD|);
    hide NameAt, Lowered, AreNames;
    var allowed := [NameAt(s, k + |WORD|).value];
    assert forall n: nat :: FirstAt(s, n) ==> n == 0;
    assert !FirstIsNamed(s);
    ConditionsPartWhere(s, allowed, k);
    RuleIsAt(s, allowed, k);
    hide ConditionsHold, RuleHolds;
  }

  /** One such: with utf-8 allowed it is refused. */
  const MISSED: string := WORD + "s; " + WORD + "=utf-8"

  lemma MissedIsMissed()
    ensures ConditionsHold(MISSED, ["utf-8"]) && !RuleHolds(MISSED, ["utf-8"])
  {
    MissedText();
    MissedWords(MISSED);
    MissedName(MISSED);
    hide At, NameAt, Lowered, ConditionsHold, RuleHolds;
    SecondNameIsMissed(MISSED, 10);
  }

  lemma MissedText()
    ensures |MISSED| == 23 && MISSED[7] == 's' && MISSED[17] == '='
    ensures MISSED[0..7] == WORD && MISSED[10..17] == WORD && MISSED[18..23] == "utf-8"
    ensures forall p :: 1 <= p < 10 ==> MISSED[p] != 'c'
    ensures forall p :: 0 <= p < 23 ==> Lower(MISSED[p]) == MISSED[p]
  {
    PiecesOf(WORD, "s; ", "=utf-8");
    SmallLetters();
    hide Lower;
  }

  lemma SmallLetters()
    ensures forall p :: 0 <= p < 7 ==> Lower(WORD[p]) == WORD[p] && (p > 0 ==> WORD[p] != 'c')
    ensures forall p :: 0 <= p < 3 ==> Lower("s; "[p]) == "s; "[p] && "s; "[p] != 'c'
    ensures forall p :: 0 <= p < 6 ==> Lower("=utf-8"[p]) == "=utf-8"[p]
    ensures "=utf-8"[1..] == "utf-8"
  {
  }

  lemma PiecesOf(w: string, a: string, b: string)
    requires |w| == 7 && |a| == 3 && |b| == 6
    ensures var s := w + a + w + b;
            && |s| == 23 && s[0..7] == w && s[10..17] == w && s[18..23] == b[1..]
            && (forall p :: 0 <= p < 7 ==> s[p] == w[p]) && (forall p :: 7 <= p < 10 ==> s[p] == a[p - 7])
            && (forall p :: 10 <= p < 17 ==> s[p] == w[p - 10]) && (forall p :: 17 <= p < 23 ==> s[p] == b[p - 17])
  {
  }

  lemma MissedWords(s: string)
    requires |s| == 23 && s[0..7] == WORD && s[10..17] == WORD && forall p :: 1 <= p < 10 ==> s[p] != 'c'
    requires forall p :: 0 <= p < 23 ==> Lower(s[p]) == s[p]
    ensures At(s, 0) && At(s, 10) && Lowered(s) == s
    ensures forall p: nat :: 1 <= p < 10 ==> !At(s, p)
  {
    forall p: nat | 1 <= p < 10
      ensures !At(s, p)
    {
      BeginsWithC(s, p);
    }
  }

  lemma BeginsWithC(s: string, p: nat)
    ensures At(s, p) ==> s[p] == 'c'
  {
    if At(s, p) { assert s[p..p + 7][0] == s[p]; }
  }

  lemma MissedName(s: string)
    requires |s| == 23 && s[7] == 's' && s[17] == '=' && s[18..23] == "utf-8"
    ensures NameAt(s, 7) == None && NameAt(s, 17) == Some("utf-8")
  {
    assert NameStart(s, 7) == None;
    forall k | 18 <= k < 23
      ensures NameChar(s[k])
    {
      assert s[k] == s[18..23][k - 18];
    }
    assert !Blank(s[18]) && SkipBlanks(s, 18) == 18;
    assert NameStart(s, 17) == Some(18);
    NameEndIs(s, 18, 23);
  }
}
