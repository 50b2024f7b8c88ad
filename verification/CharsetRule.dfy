/** Text without a word in it, as a pattern without lookahead can say it: the
    second condition of rule 920480 (scripts/modsec2easywaf.py, `LIST_RULES`).
    The source's flag for disregarding case is `AnyCase`; most lemmas are about the
    pattern without it, on text in lowercase. */
module CharsetRule {
  import opened Options
  import opened Regex

  const WORD: string := "charset"

  function Opt(x: Re): Re { Rep(x, 0, Some(1)) }

  function Star(x: Re): Re { Rep(x, 0, None) }

  function Not(cs: string): Re {
    Class(true, seq(|cs|, i requires 0 <= i < |cs| => Range(cs[i], cs[i])))
  }

  const C := Lit("c")

  /** How the word may go on after its "c", short of its end. */
  function Part(): Re {
    Opt(Cat(Lit("h"), Opt(Cat(Lit("a"), Opt(Cat(Lit("r"), Opt(Cat(Lit("s"), Opt(Lit("e"))))))))))
  }

  /** A "c" that so far spells the word, and starts it anew. */
  function Again(): Re {
    Star(Cat(Part(), C))
  }

  function FailAlternatives(): seq<Re> {
    [Not("ch"), Cat(Lit("h"), Not("ac")), Cat(Lit("ha"), Not("rc")), Cat(Lit("har"), Not("sc")),
     Cat(Lit("hars"), Not("ec")), Cat(Lit("harse"), Not("tc"))]
  }

  /** After a "c": how the word fails to go on. */
  function Fail(): Re {
    Alternatives(FailAlternatives())
  }

  function Step(): Re {
    Alt(Not("c"), Cat(C, Cat(Again(), Fail())))
  }

  function Tail(): Re {
    Opt(Cat(C, Cat(Again(), Part())))
  }

  function Prefix(): Re {
    Cat(Star(Step()), Tail())
  }

  ghost predicate At(w: string, p: nat) {
    p + |WORD| <= |w| && w[p..p + |WORD|] == WORD
  }

  ghost predicate Contains(w: string) {
    exists p: nat :: At(w, p)
  }

  // ─── How far into the word a text has got ────────────────

  function Delta(k: nat, c: char): (next: nat)
    requires k <= |WORD|
    ensures next <= |WORD|
  {
    if k == |WORD| then k else if c == WORD[k] then k + 1 else if c == 'c' then 1 else 0
  }

  function Run(k: nat, w: string): (end: nat)
    requires k <= |WORD|
    ensures end <= |WORD|
    decreases |w|
  {
    if w == "" then k else Run(Delta(k, w[0]), w[1..])
  }

  lemma {:induction false} RunConcat(k: nat, u: string, v: string)
    requires k <= |WORD|
    ensures Run(k, u + v) == Run(Run(k, u), v)
    decreases |u|
  {
    if u == "" {
      assert u + v == v;
    } else {
      assert (u + v)[1..] == u[1..] + v;
      RunConcat(Delta(k, u[0]), u[1..], v);
    }
  }

  lemma {:induction false} FoundStaysFound(w: string)
    ensures Run(|WORD|, w) == |WORD|
    decreases |w|
  {
    if w != "" { FoundStaysFound(w[1..]); }
  }

  lemma LetterAt(w: string, p: nat, q: nat)
    requires q < |WORD| && p + q < |w|
    ensures At(w, p) ==> w[p + q] == WORD[q]
  {
    if At(w, p) { assert w[p..p + |WORD|][q] == w[p + q]; }
  }

  /** No occurrence begins within a proper start of the word that does not go
      on to spell it: the word's first letter comes nowhere else in it. */
  lemma NoneStraddles(k: nat, c: char, rest: string, p: nat)
    requires k < |WORD| && c != WORD[k] && p <= k && At(WORD[..k] + [c] + rest, p)
    ensures p == k && c == 'c'
  {
    var w := WORD[..k] + [c] + rest;
    assert w[k] == c && (p < k ==> w[p] == WORD[p]);
    LetterAt(w, p, 0);
    LetterAt(w, p, k - p);
  }

  lemma Shifted(a: string, w: string, p: nat)
    requires p >= |a|
    ensures At(a + w, p) <==> At(w, p - |a|)
  {
    if p + |WORD| <= |a + w| {
      assert (a + w)[p..p + |WORD|] == w[p - |a|..p - |a| + |WORD|];
    }
  }

  lemma BeginsWithWord(rest: string)
    ensures Contains(WORD + rest)
  {
    assert (WORD + rest)[0..|WORD|] == WORD;
    assert At(WORD + rest, 0);
  }

  lemma TooShort(w: string)
    requires |w| < |WORD|
    ensures !Contains(w)
  {
  }

  /** From `k` letters of the word on, it is found exactly when it is in the text
      those letters begin. */
  lemma {:induction false} RunFindsWord(k: nat, w: string)
    requires k < |WORD|
    ensures Run(k, w) == |WORD| <==> Contains(WORD[..k] + w)
    decreases |w|
  {
    hide Contains;
    if w == "" {
      TooShort(WORD[..k] + w);
    } else {
      var c, rest := w[0], w[1..];
      var whole := WORD[..k] + [c] + rest;
      assert WORD[..k] + w == whole;
      if c == WORD[k] {
        assert WORD[..k] + [c] == WORD[..k + 1];
        if k + 1 == |WORD| {
          FoundStaysFound(rest);
          BeginsWithWord(rest);
          assert whole == WORD + rest;
        } else {
          RunFindsWord(k + 1, rest);
        }
      } else if c == 'c' {
        RunFindsWord(1, rest);
        assert WORD[..1] + rest == [c] + rest;
        Restarts(k, c, rest, WORD[..k], [c] + rest);
      } else {
        RunFindsWord(0, rest);
        assert WORD[..0] + rest == rest;
        Restarts(k, c, rest, WORD[..k] + [c], rest);
      }
    }
  }

  lemma Restarts(k: nat, c: char, rest: string, a: string, b: string)
    requires k < |WORD| && c != WORD[k] && a + b == WORD[..k] + [c] + rest
    requires |a| == if c == 'c' then k else k + 1
    ensures Contains(WORD[..k] + [c] + rest) <==> Contains(b)
  {
    var whole := WORD[..k] + [c] + rest;
    if Contains(whole) {
      var p: nat :| At(whole, p);
      if p <= k { NoneStraddles(k, c, rest, p); }
      Shifted(a, b, p);
      assert At(b, p - |a|);
    }
    if Contains(b) {
      var p: nat :| At(b, p);
      Shifted(a, b, p + |a|);
      assert At(whole, p + |a|);
    }
  }

  // ─── What the pieces match ───────────────────────────────

  lemma InOpt(x: Re, u: string)
    requires AnchorFree(x)
    ensures AnchorFree(Opt(x)) && (In(Opt(x), u) <==> u == "" || In(x, u))
  {
    hide M, Times;
    if In(Opt(x), u) {
      var n := RepSplit(x, 0, Some(1), u, 0, |u|);
      if n == 0 {
        TimesNone(x, u, 0, |u|);
      } else {
        var k := TimesSplit(x, u, 0, |u|, 1);
        TimesNone(x, u, k, |u|);
      }
    }
    if u == "" {
      TimesNone(x, u, 0, 0);
      RepJoin(x, 0, Some(1), u, 0, 0, 0);
    } else if In(x, u) {
      TimesNone(x, u, |u|, |u|);
      TimesJoin(x, u, 0, |u|, |u|, 0);
      RepJoin(x, 0, Some(1), u, 0, |u|, 1);
    }
  }

  lemma TimesNone(x: Re, s: string, i: nat, j: nat)
    requires i <= j <= |s|
    ensures Times(x, s, i, j, 0) <==> i == j
  {
  }

  lemma InHead(t: string, x: Re, u: string)
    requires AnchorFree(x)
    ensures AnchorFree(Cat(Lit(t), x))
    ensures In(Cat(Lit(t), x), u) <==> |t| <= |u| && u[..|t|] == t && In(x, u[|t|..])
  {
    hide M;
    InCat(Lit(t), x, u);
    forall k | 0 <= k <= |u|
      ensures In(Lit(t), u[..k]) <==> u[..k] == t
    {
      InLit(t, u[..k]);
    }
  }

  lemma InLit(t: string, u: string)
    ensures In(Lit(t), u) <==> u == t
  {
    assert u[0..|u|] == u;
  }

  lemma StarNone(x: Re)
    ensures In(Star(x), "")
  {
    TimesNone(x, "", 0, 0);
    RepJoin(x, 0, None, "", 0, 0, 0);
  }

  /** One more at the front of a star. */
  lemma StarMore(x: Re, u: string, v: string)
    requires AnchorFree(x) && In(x, u) && In(Star(x), v)
    ensures In(Star(x), u + v)
  {
    hide M, Times;
    var n := RepSplit(x, 0, None, v, 0, |v|);
    var w := u + v;
    assert w[0..|u|] == u[0..|u|] && v[0..|v|] == w[|u|..|w|];
    Carry(x, u, 0, |u|, w, 0);
    CarryTimes(x, v, 0, |v|, w, |u|, n);
    TimesJoin(x, w, 0, |u|, |w|, n);
    RepJoin(x, 0, None, w, 0, |w|, n + 1);
  }

  /** Part of the word after its "c". */
  function After(m: nat): string
    requires m <= 5
  {
    WORD[1..1 + m]
  }

  /** The word's letters from place `m` on, each optional, short of its last. */
  function PartFrom(m: nat): Re
    requires 1 <= m <= 5
    decreases 5 - m
  {
    Opt(if m == 5 then Lit("e") else Cat(Lit([WORD[m]]), PartFrom(m + 1)))
  }

  lemma PartIsFromOne()
    ensures Part() == PartFrom(1)
  {
    assert PartFrom(5) == Opt(Lit("e"));
    assert PartFrom(4) == Opt(Cat(Lit("s"), PartFrom(5)));
    assert PartFrom(3) == Opt(Cat(Lit("r"), PartFrom(4)));
    assert PartFrom(2) == Opt(Cat(Lit("a"), PartFrom(3)));
    assert PartFrom(1) == Opt(Cat(Lit("h"), PartFrom(2)));
  }

  lemma {:induction false} InPartFrom(m: nat, u: string)
    requires 1 <= m <= 5
    ensures AnchorFree(PartFrom(m))
    ensures In(PartFrom(m), u) <==> |u| <= 6 - m && u == WORD[m..m + |u|]
    decreases 5 - m
  {
    hide M, AnchorFree;
    LitIsAnchorFree("e");
    if m == 5 {
      InOpt(Lit("e"), u);
      InLit("e", u);
      if |u| == 1 { assert WORD[5..6] == ['e']; }
    } else {
      var l, rest := [WORD[m]], PartFrom(m + 1);
      InPartFrom(m + 1, "");
      InHead(l, rest, u);
      InOpt(Cat(Lit(l), rest), u);
      if u != "" {
        InPartFrom(m + 1, u[1..]);
        OneMoreLetter(m, u);
      }
    }
  }

  lemma LitIsAnchorFree(t: string)
    ensures AnchorFree(Lit(t))
  {
  }

  lemma OneMoreLetter(m: nat, u: string)
    requires 1 <= m <= 4 && u != ""
    ensures |u| <= 6 - m && u == WORD[m..m + |u|] <==>
            u[..1] == [WORD[m]] && |u[1..]| <= 5 - m && u[1..] == WORD[m + 1..m + 1 + |u[1..]|]
  {
    assert u == u[..1] + u[1..];
    if |u| <= 6 - m {
      assert WORD[m..m + |u|] == [WORD[m]] + WORD[m + 1..m + |u|];
    }
  }

  lemma InPart(u: string)
    ensures AnchorFree(Part())
    ensures In(Part(), u) <==> |u| <= 5 && u == After(|u|)
  {
    PartIsFromOne();
    InPartFrom(1, u);
  }

  lemma InNot(cs: string, u: string)
    ensures AnchorFree(Not(cs)) && (In(Not(cs), u) <==> |u| == 1 && u[0] !in cs)
  {
    var r := Not(cs);
    OneCharMatch(r, u, 0, |u|);
    if |u| == 1 {
      if u[0] in cs {
        var i :| 0 <= i < |cs| && cs[i] == u[0];
        assert r.ranges[i].lo <= u[0] <= r.ranges[i].hi;
      }
    }
  }

  /** One way of failing: `m` letters on after the "c", then neither the next
      letter nor another "c". */
  predicate Fails(u: string, m: nat)
    requires m <= 5
  {
    |u| == m + 1 && u[..m] == After(m) && u[m] != WORD[m + 1] && u[m] != 'c'
  }

  lemma InFailAlternative(m: nat, u: string)
    requires m <= 5
    ensures AnchorFree(FailAlternatives()[m])
    ensures In(FailAlternatives()[m], u) <==> Fails(u, m)
  {
    hide M, AnchorFree, Not;
    if m == 0 {
      NotIsAnchorFree("ch");
      InNot("ch", u);
      if |u| == 1 { assert u[..0] == ""; }
    } else {
      AfterSpelt();
      FailsAfter(m, [WORD[m + 1], 'c'], u);
    }
  }

  lemma AfterSpelt()
    ensures After(1) == "h" && After(2) == "ha" && After(3) == "har" && After(4) == "hars" && After(5) == "harse"
  {
    assert |After(1)| == 1 && |After(2)| == 2 && |After(3)| == 3 && |After(4)| == 4 && |After(5)| == 5;
  }

  lemma NotIsAnchorFree(cs: string)
    ensures AnchorFree(Not(cs))
  {
  }

  lemma InFail(u: string)
    ensures AnchorFree(Fail())
    ensures In(Fail(), u) <==> exists m :: 0 <= m <= 5 && Fails(u, m)
  {
    hide M, AnchorFree, Not, Fails, Alternatives;
    var alts := FailAlternatives();
    forall m: nat | m <= 5
      ensures AnchorFree(alts[m]) && (In(alts[m], u) <==> Fails(u, m))
    {
      InFailAlternative(m, u);
    }
    AlternativesAnchorFree(alts);
    InAlternatives(alts, u, 0, |u|);
  }

  lemma FailsAfter(m: nat, cs: string, u: string)
    requires 1 <= m <= 5 && cs == [WORD[m + 1], 'c']
    ensures AnchorFree(Cat(Lit(After(m)), Not(cs)))
    ensures In(Cat(Lit(After(m)), Not(cs)), u) <==> Fails(u, m)
  {
    hide M;
    InNot(cs, "");
    InHead(After(m), Not(cs), u);
    if |u| >= m { InNot(cs, u[m..]); }
  }

  // ─── The pattern never lets the word by ──────────────────

  lemma {:induction false} RunAfter(m: nat)
    requires m <= 5
    ensures Run(1, After(m)) == m + 1
  {
    if m > 0 {
      RunAfter(m - 1);
      assert After(m) == After(m - 1) + [WORD[m]];
      RunConcat(1, After(m - 1), [WORD[m]]);
      assert Run(m, [WORD[m]]) == Run(Delta(m, WORD[m]), []);
    }
  }

  lemma RunOne(k: nat, c: char)
    requires k <= |WORD|
    ensures Run(k, [c]) == Delta(k, c)
  {
    assert [c][1..] == "";
  }

  lemma RunFails(u: string, m: nat)
    requires m <= 5 && Fails(u, m)
    ensures Run(1, u) == 0
  {
    assert u == After(m) + [u[m]];
    RunConcat(1, After(m), [u[m]]);
    RunAfter(m);
    RunOne(m + 1, u[m]);
  }

  /** A star of what keeps the run where it is keeps it there. */
  lemma {:induction false} RunTimes(x: Re, k: nat, w: string, i: nat, j: nat, n: nat)
    requires k <= |WORD| && AnchorFree(x) && i <= j <= |w| && Times(x, w, i, j, n)
    requires forall u :: In(x, u) ==> Run(k, u) == k
    ensures Run(k, w[i..j]) == k
    decreases n
  {
    hide M, Times;
    if n == 0 {
      TimesNone(x, w, i, j);
      assert w[i..j] == "";
    } else {
      var l := TimesSplit(x, w, i, j, n);
      Local(x, w, i, l);
      RunTimes(x, k, w, l, j, n - 1);
      assert w[i..j] == w[i..l] + w[l..j];
      RunConcat(k, w[i..l], w[l..j]);
    }
  }

  lemma RunStar(x: Re, k: nat, w: string)
    requires k <= |WORD| && AnchorFree(x) && In(Star(x), w)
    requires forall u :: In(x, u) ==> Run(k, u) == k
    ensures Run(k, w) == k
  {
    hide M, Times, Run;
    var n := RepSplit(x, 0, None, w, 0, |w|);
    RunTimes(x, k, w, 0, |w|, n);
    assert w[0..|w|] == w;
  }

  /** The pieces, each in terms of the next. */
  lemma Shapes()
    ensures Again() == Star(Cat(Part(), C))
    ensures Step() == Alternatives([Not("c"), Cat(C, Cat(Again(), Fail()))])
    ensures Tail() == Opt(Cat(C, Cat(Again(), Part())))
    ensures Prefix() == Cat(Star(Step()), Tail())
  {
    hide Part, Fail, Not;
    assert [Not("c"), Cat(C, Cat(Again(), Fail()))][1..] == [Cat(C, Cat(Again(), Fail()))];
  }

  lemma PiecesAnchorFree()
    ensures AnchorFree(Part()) && AnchorFree(Again()) && AnchorFree(Fail()) && AnchorFree(Step()) && AnchorFree(Tail())
    ensures AnchorFree(Cat(Part(), C)) && AnchorFree(Cat(Again(), Fail())) && AnchorFree(Cat(Again(), Part()))
    ensures AnchorFree(Star(Step())) && AnchorFree(Prefix()) && AnchorFree(C)
    ensures AnchorFree(Cat(C, Cat(Again(), Fail()))) && AnchorFree(Cat(C, Cat(Again(), Part())))
  {
    InPart("");
    InFail("");
    assert AnchorFree(Cat(Part(), C));
    assert AnchorFree(Again());
    assert AnchorFree(Cat(Again(), Fail()));
    assert AnchorFree(Cat(Again(), Part()));
    assert AnchorFree(Cat(C, Cat(Again(), Part())));
  }

  lemma RunAgain(w: string)
    requires In(Again(), w)
    ensures Run(1, w) == 1
  {
    hide M, AnchorFree, Part, Again, Fail, Step, Tail, Prefix, Not, Fails;
    Shapes();
    PiecesAnchorFree();
    forall u | In(Cat(Part(), C), u)
      ensures Run(1, u) == 1
    {
      var k := SplitIn(Part(), C, u);
      InPart(u[..k]);
      InLit("c", u[k..]);
      assert u == u[..k] + u[k..];
      RunConcat(1, u[..k], "c");
      RunAfter(k);
      RunOne(k + 1, 'c');
    }
    RunStar(Cat(Part(), C), 1, w);
  }

  lemma RunStep(u: string)
    requires In(Step(), u)
    ensures Run(0, u) == 0
  {
    hide M, AnchorFree, Part, Again, Fail, Step, Tail, Prefix, Not, Fails;
    Shapes();
    PiecesAnchorFree();
    InAlternatives([Not("c"), Cat(C, Cat(Again(), Fail()))], u, 0, |u|);
    InNot("c", u);
    if In(Not("c"), u) {
      assert u == [u[0]];
      RunOne(0, u[0]);
    } else {
      InHead("c", Cat(Again(), Fail()), u);
      var v := u[1..];
      var k := SplitIn(Again(), Fail(), v);
      RunAgain(v[..k]);
      InFail(v[k..]);
      var m :| 0 <= m <= 5 && Fails(v[k..], m);
      RunFails(v[k..], m);
      assert v == v[..k] + v[k..];
      RunConcat(1, v[..k], v[k..]);
      assert u[0] == u[..1][0] == 'c';
      assert Run(0, u) == Run(1, v);
    }
  }

  lemma RunTail(u: string)
    requires In(Tail(), u)
    ensures Run(0, u) < |WORD|
  {
    hide M, AnchorFree, Part, Again, Fail, Step, Tail, Prefix, Not, Fails;
    Shapes();
    PiecesAnchorFree();
    InOpt(Cat(C, Cat(Again(), Part())), u);
    if u != "" {
      InHead("c", Cat(Again(), Part()), u);
      var v := u[1..];
      var k := SplitIn(Again(), Part(), v);
      RunAgain(v[..k]);
      InPart(v[k..]);
      RunAfter(|v[k..]|);
      assert v == v[..k] + v[k..];
      RunConcat(1, v[..k], v[k..]);
      assert u[0] == u[..1][0] == 'c';
      assert Run(0, u) == Run(1, v);
    }
  }

  lemma RunPrefix(w: string)
    requires In(Prefix(), w)
    ensures Run(0, w) < |WORD|
  {
    hide M, AnchorFree, Part, Again, Fail, Step, Tail, Prefix, Not, Fails;
    Shapes();
    PiecesAnchorFree();
    var k := SplitIn(Star(Step()), Tail(), w);
    forall u | In(Step(), u)
      ensures Run(0, u) == 0
    {
      RunStep(u);
    }
    RunStar(Step(), 0, w[..k]);
    RunTail(w[k..]);
    assert w == w[..k] + w[k..];
    RunConcat(0, w[..k], w[k..]);
  }

  // ─── The pattern takes every text without the word ───────

  /** A text after a "c" taken apart as the pattern does: run on, then either fail
      and begin again, or end. */
  ghost predicate TakenApart(w: string, r: nat, f: nat) {
    && r <= f <= |w| && In(Again(), w[..r])
    && if f == |w| && In(Part(), w[r..]) then true else In(Fail(), w[r..f]) && In(Prefix(), w[f..])
  }

  /** How far a text after a "c" spells the word. */
  lemma {:induction false} Spelt(w: string, n: nat) returns (m: nat)
    requires n <= 6 && n <= |w| && w[..n] == WORD[1..1 + n]
    ensures n <= m <= 6 && m <= |w| && w[..m] == WORD[1..1 + m]
    ensures m < 6 && m < |w| ==> w[m] != WORD[m + 1]
    decreases 6 - n
  {
    if n < 6 && n < |w| && w[n] == WORD[n + 1] {
      assert w[..n + 1] == WORD[1..1 + n] + [WORD[n + 1]] == WORD[1..1 + (n + 1)];
      m := Spelt(w, n + 1);
    } else {
      m := n;
    }
  }

  lemma RunSpelt(w: string, m: nat)
    requires m <= 5 && m <= |w| && w[..m] == WORD[1..1 + m]
    ensures Run(1, w) == Run(m + 1, w[m..])
  {
    assert w == w[..m] + w[m..];
    RunConcat(1, w[..m], w[m..]);
    RunAfter(m);
  }

  lemma SpeltOut(w: string)
    requires |w| >= 6 && w[..6] == WORD[1..7]
    ensures Run(1, w) == |WORD|
  {
    assert w[..5] == w[..6][..5] == WORD[1..6];
    RunSpelt(w, 5);
    assert w[5] == w[..6][5] == WORD[6];
    assert w[5..][0] == w[5];
    FoundStaysFound(w[5..][1..]);
  }

  lemma {:induction false} TakesApart(w: string) returns (r: nat, f: nat)
    requires Run(1, w) < |WORD|
    ensures TakenApart(w, r, f)
    decreases |w|, 0
  {
    hide M, AnchorFree, Part, Again, Fail, Step, Tail, Prefix, Not, Fails;
    Shapes();
    PiecesAnchorFree();
    assert w[..0] == "" == WORD[1..1];
    var m := Spelt(w, 0);
    assert w[..|w|] == w;
    if m == 6 { SpeltOut(w); }
    StarNone(Cat(Part(), C));
    if m == |w| {
      r, f := 0, |w|;
      EndsHere(w);
    } else {
      RunPast(w, m);
      hide Run, Delta;
      var x, rest := w[m], w[m + 1..];
      if x == 'c' {
        r, f := TakesApart(rest);
        AgainMore(w, m, r, f);
        r, f := m + 1 + r, m + 1 + f;
      } else {
        r, f := 0, m + 1;
        FailsHere(w, m);
        TakesAll(rest);
      }
    }
  }

  /** Past the character after what is spelt. */
  lemma RunPast(w: string, m: nat)
    requires m <= 5 && m < |w| && w[..m] == WORD[1..1 + m] && w[m] != WORD[m + 1]
    ensures Run(1, w) == Run(if w[m] == 'c' then 1 else 0, w[m + 1..])
  {
    RunSpelt(w, m);
    assert w[m..] == [w[m]] + w[m + 1..];
    assert Run(m + 1, w[m..]) == Run(Delta(m + 1, w[m]), w[m + 1..]);
  }

  lemma EndsHere(w: string)
    requires |w| <= 5 && w == WORD[1..1 + |w|]
    ensures w[0..] == w && In(Part(), w)
  {
    hide M, Part;
    InPart(w);
  }

  lemma FailsHere(w: string, m: nat)
    requires m <= 5 && m < |w| && w[..m] == WORD[1..1 + m] && w[m] != WORD[m + 1] && w[m] != 'c'
    ensures w[0..m + 1] == w[..m + 1] && In(Fail(), w[..m + 1])
  {
    hide M, Fail;
    var u := w[..m + 1];
    assert u[..m] == w[..m] && u[m] == w[m];
    assert Fails(u, m);
    InFail(u);
  }

  lemma AgainMore(w: string, m: nat, r: nat, f: nat)
    requires m <= 5 && m < |w| && w[..m] == WORD[1..1 + m] && w[m] == 'c'
    requires TakenApart(w[m + 1..], r, f)
    ensures TakenApart(w, m + 1 + r, m + 1 + f)
  {
    hide M, AnchorFree, Part, Again, Fail, Step, Tail, Prefix, Not, Fails;
    Shapes();
    PiecesAnchorFree();
    var rest := w[m + 1..];
    InPart(w[..m]);
    InLit("c", "c");
    JoinIn(Part(), C, w[..m], "c");
    StarMore(Cat(Part(), C), w[..m] + "c", rest[..r]);
    assert w[..m + 1 + r] == (w[..m] + "c") + rest[..r];
    assert w[m + 1 + r..] == rest[r..] && w[m + 1 + f..] == rest[f..] && w[m + 1 + r..m + 1 + f] == rest[r..f];
  }

  lemma {:induction false} TakesAll(w: string)
    requires Run(0, w) < |WORD|
    ensures In(Prefix(), w)
    decreases |w|, 1
  {
    hide M, AnchorFree, Part, Again, Fail, Step, Tail, Prefix, Not, Fails;
    Shapes();
    PiecesAnchorFree();
    if w == "" {
      Ends();
      InOpt(Cat(C, Cat(Again(), Part())), "");
      JoinIn(Star(Step()), Tail(), "", "");
    } else if w[0] != 'c' {
      InNot("c", [w[0]]);
      assert In(Step(), [w[0]]) by { StepIs([w[0]]); }
      TakesAll(w[1..]);
      StepMore([w[0]], w[1..]);
      assert w == [w[0]] + w[1..];
    } else {
      var v := w[1..];
      assert Run(0, w) == Run(1, v);
      var r, f := TakesApart(v);
      assert w == "c" + v;
      if f == |v| && In(Part(), v[r..]) {
        TakesEnd(v, r);
      } else {
        TakesFail(v, r, f);
      }
    }
  }

  lemma TakesEnd(v: string, r: nat)
    requires r <= |v| && In(Again(), v[..r]) && In(Part(), v[r..])
    ensures In(Prefix(), "c" + v)
  {
    hide M, AnchorFree, Part, Again, Fail, Step, Tail, Prefix;
    Shapes();
    PiecesAnchorFree();
    TailTakes(v, r);
    Ends();
    JoinIn(Star(Step()), Tail(), "", "c" + v);
    assert "" + ("c" + v) == "c" + v;
  }

  lemma TailTakes(v: string, r: nat)
    requires r <= |v| && In(Again(), v[..r]) && In(Part(), v[r..])
    ensures In(Tail(), "c" + v)
  {
    hide M, AnchorFree, Part, Again, Fail, Step, Tail, Prefix;
    Shapes();
    PiecesAnchorFree();
    var w := "c" + v;
    assert v == v[..r] + v[r..] && w[..1] == "c" && w[1..] == v;
    JoinIn(Again(), Part(), v[..r], v[r..]);
    InHead("c", Cat(Again(), Part()), w);
    InOpt(Cat(C, Cat(Again(), Part())), w);
  }

  lemma TakesFail(v: string, r: nat, f: nat)
    requires r <= f <= |v| && In(Again(), v[..r]) && In(Fail(), v[r..f]) && In(Prefix(), v[f..])
    ensures In(Prefix(), "c" + v)
  {
    hide M, AnchorFree, Part, Again, Fail, Step, Tail, Prefix;
    PiecesAnchorFree();
    var u := "c" + v[..f];
    assert v[..f] == v[..r] + v[r..f] && u[..1] == "c" && u[1..] == v[..f];
    JoinIn(Again(), Fail(), v[..r], v[r..f]);
    InHead("c", Cat(Again(), Fail()), u);
    StepIs(u);
    StepMore(u, v[f..]);
    assert "c" + v == u + v[f..];
  }

  lemma Ends()
    ensures In(Star(Step()), "")
  {
    StarNone(Step());
  }

  lemma StepIs(u: string)
    ensures In(Step(), u) <==> In(Not("c"), u) || In(Cat(C, Cat(Again(), Fail())), u)
  {
  }

  lemma StepMore(u: string, v: string)
    requires In(Step(), u) && In(Prefix(), v)
    ensures In(Prefix(), u + v)
  {
    hide M, AnchorFree, Part, Again, Fail, Step, Tail, Prefix, Not, Fails;
    Shapes();
    PiecesAnchorFree();
    var k := SplitIn(Star(Step()), Tail(), v);
    StarMore(Step(), u, v[..k]);
    JoinIn(Star(Step()), Tail(), u + v[..k], v[k..]);
    assert u + v == (u + v[..k]) + v[k..];
  }

  /** Without the flag the prefix matches exactly the texts without the word. */
  lemma PrefixSkipsTheWord(w: string)
    ensures In(Prefix(), w) <==> !Contains(w)
  {
    assert WORD[..0] + w == w;
    RunFindsWord(0, w);
    if In(Prefix(), w) { RunPrefix(w); }
    if !Contains(w) { TakesAll(w); }
  }

  /** The prefix matches exactly the texts that do not contain the word in any case. */
  lemma PrefixMeansNoCharset(w: string)
    ensures In(AnyCase(Prefix()), w) <==> !Contains(Lowered(w))
  {
    PiecesInLowercase();
    AnyCaseMatches(Prefix(), w, 0, |w|);
    PrefixSkipsTheWord(Lowered(w));
    hide M, Prefix, Contains;
  }

  lemma IsLowercase(t: string)
    requires forall i :: 0 <= i < |t| ==> 'a' <= t[i] <= 'z'
    ensures InLowercase(Lit(t))
  {
  }

  lemma CatInLowercase(a: Re, b: Re)
    requires InLowercase(a) && InLowercase(b)
    ensures InLowercase(Cat(a, b))
  {
  }

  lemma RepInLowercase(x: Re, lo: nat, hi: Option<nat>)
    requires InLowercase(x)
    ensures InLowercase(Rep(x, lo, hi))
  {
  }

  lemma NotInLowercase(cs: string)
    requires forall i :: 0 <= i < |cs| ==> 'a' <= cs[i] <= 'z'
    ensures InLowercase(Not(cs))
  {
  }

  lemma StepInLowercase(again: Re, fail: Re)
    requires InLowercase(again) && InLowercase(fail)
    ensures InLowercase(Alt(Not("c"), Cat(C, Cat(again, fail))))
  {
    NotInLowercase("c");
    IsLowercase("c");
    CatInLowercase(again, fail);
    CatInLowercase(C, Cat(again, fail));
    hide Lowered, Not;
  }

  lemma PiecesInLowercase()
    ensures InLowercase(Prefix())
  {
    PartInLowercase();
    FailInLowercase();
    IsLowercase("c");
    hide Lowered, Part, Fail, InLowercase;
    var part, again := Part(), Again();
    CatInLowercase(part, C);
    RepInLowercase(Cat(part, C), 0, None);
    StepInLowercase(again, Fail());
    CatInLowercase(again, part);
    CatInLowercase(C, Cat(again, part));
    RepInLowercase(Cat(C, Cat(again, part)), 0, Some(1));
    RepInLowercase(Step(), 0, None);
    CatInLowercase(Star(Step()), Tail());
  }

  lemma PartInLowercase()
    ensures InLowercase(Part())
  {
    hide Lowered;
    IsLowercase("h");
    IsLowercase("a");
    IsLowercase("r");
    IsLowercase("s");
    IsLowercase("e");
    var e := Opt(Lit("e"));
    var s := Opt(Cat(Lit("s"), e));
    var r := Opt(Cat(Lit("r"), s));
    assert InLowercase(e) && InLowercase(s) && InLowercase(r);
    assert InLowercase(Opt(Cat(Lit("a"), r)));
    assert Part() == Opt(Cat(Lit("h"), Opt(Cat(Lit("a"), r))));
  }

  lemma FailInLowercase()
    ensures InLowercase(Fail())
  {
    hide Lowered, Alternatives;
    IsLowercase("h");
    IsLowercase("ha");
    IsLowercase("har");
    IsLowercase("hars");
    IsLowercase("harse");
    AlternativesInLowercase(FailAlternatives());
  }

  lemma {:induction false} AlternativesInLowercase(alts: seq<Re>)
    requires alts != [] && forall a :: 0 <= a < |alts| ==> InLowercase(alts[a])
    ensures InLowercase(Alternatives(alts))
  {
    if |alts| > 1 { AlternativesInLowercase(alts[1..]); }
  }

  /** The pattern matches from there on. */
  ghost predicate Continues(r: Re, s: string, from: nat) {
    exists j: nat :: from <= j <= |s| && M(r, s, from, j)
  }

  /** The whole condition, whatever is asked of the text after the word: it is
      asked of the first occurrence of the word, and of no other. */
  lemma ConditionReadsFirstCharset(rest: Re, s: string)
    ensures Found(Cat(Bol, Cat(Prefix(), Cat(Lit(WORD), rest))), s) <==>
            exists k: nat :: At(s, k) && (forall p: nat :: p < k ==> !At(s, p)) && Continues(rest, s, k + |WORD|)
  {
    hide M, Prefix, Found, Continues, At;
    if Found(Cat(Bol, Cat(Prefix(), Cat(Lit(WORD), rest))), s) {
      var k := ConditionHolds(rest, s);
    }
    if exists k: nat :: At(s, k) && (forall p: nat :: p < k ==> !At(s, p)) && Continues(rest, s, k + |WORD|) {
      var k: nat :| At(s, k) && (forall p: nat :: p < k ==> !At(s, p)) && Continues(rest, s, k + |WORD|);
      ConditionIsFound(rest, s, k);
    }
  }

  lemma ConditionHolds(rest: Re, s: string) returns (k: nat)
    requires Found(Cat(Bol, Cat(Prefix(), Cat(Lit(WORD), rest))), s)
    ensures At(s, k) && (forall p: nat :: p < k ==> !At(s, p)) && Continues(rest, s, k + |WORD|)
  {
    hide M, Prefix, Contains, At;
    PrefixAnchorFree();
    var i: nat, j: nat :| i <= j <= |s| && M(Cat(Bol, Cat(Prefix(), Cat(Lit(WORD), rest))), s, i, j);
    var b := CatSplit(Bol, Cat(Prefix(), Cat(Lit(WORD), rest)), s, i, j);
    k := CatSplit(Prefix(), Cat(Lit(WORD), rest), s, b, j);
    var l := CatSplit(Lit(WORD), rest, s, k, j);
    Anchors(s, i, b, |s|, |s|);
    LitAt(s, k, l);
    Local(Prefix(), s, 0, k);
    PrefixSkipsTheWord(s[0..k]);
    FirstIsHere(s, k);
  }

  lemma ConditionIsFound(rest: Re, s: string, k: nat)
    requires At(s, k) && (forall p: nat :: p < k ==> !At(s, p)) && Continues(rest, s, k + |WORD|)
    ensures Found(Cat(Bol, Cat(Prefix(), Cat(Lit(WORD), rest))), s)
  {
    hide M, Prefix, Contains, At;
    PrefixAnchorFree();
    var j: nat :| k + |WORD| <= j <= |s| && M(rest, s, k + |WORD|, j);
    FirstIsHere(s, k);
    PrefixSkipsTheWord(s[0..k]);
    Local(Prefix(), s, 0, k);
    LitAt(s, k, k + |WORD|);
    Anchors(s, 0, 0, |s|, |s|);
    CatJoin(Lit(WORD), rest, s, k, k + |WORD|, j);
    CatJoin(Prefix(), Cat(Lit(WORD), rest), s, 0, k, j);
    CatJoin(Bol, Cat(Prefix(), Cat(Lit(WORD), rest)), s, 0, 0, j);
    assert M(Cat(Bol, Cat(Prefix(), Cat(Lit(WORD), rest))), s, 0, j);
  }

  lemma PrefixAnchorFree()
    ensures AnchorFree(Prefix())
  {
    PiecesAnchorFree();
  }

  lemma LitAt(s: string, k: nat, l: nat)
    requires k <= l <= |s|
    ensures M(Lit(WORD), s, k, l) <==> At(s, k) && l == k + |WORD|
  {
  }

  /** Where the word stands, no earlier occurrence reaches into it. */
  lemma FirstIsHere(s: string, k: nat)
    requires At(s, k)
    ensures k + |WORD| <= |s|
    ensures !Contains(s[0..k]) <==> forall p: nat :: p < k ==> !At(s, p)
  {
    var before := s[0..k];
    LetterAt(s, k, 0);
    forall p: nat | p < k
      ensures At(s, p) <==> At(before, p)
    {
      if p + |WORD| <= k {
        assert s[p..p + |WORD|] == before[p..p + |WORD|];
      } else {
        LetterAt(s, p, k - p);
      }
    }
  }
}
