/** Comparisons with a whole number as patterns on decimal text
    (scripts/modsec2easywaf.py, `numeric_pattern`). */
module NumericPattern {
  import opened Options
  import opened Regex

  // ─── Decimal text ────────────────────────────────────────

  predicate IsDigit(c: char) { '0' <= c <= '9' }

  predicate IsDigits(s: string) {
    forall i :: 0 <= i < |s| ==> IsDigit(s[i])
  }

  /** What the comparison is on: digits, and at least one. */
  predicate IsNumber(s: string) { s != "" && IsDigits(s) }

  function D(c: char): (d: nat)
    requires IsDigit(c)
    ensures d <= 9
  {
    c as int - '0' as int
  }

  function Digit(d: nat): (c: char)
    requires d <= 9
    ensures IsDigit(c) && D(c) == d
  {
    '0' + d as char
  }

  function Val(s: string): nat
    requires IsDigits(s)
  {
    if s == "" then 0 else Val(s[..|s| - 1]) * 10 + D(s[|s| - 1])
  }

  /** A number as Python's `str` writes it. */
  function Str(n: nat): (s: string)
    ensures IsNumber(s) && Val(s) == n && Plain(s)
  {
    if n < 10 then [Digit(n)]
    else
      var s := Str(n / 10) + [Digit(n % 10)];
      assert s[..|s| - 1] == Str(n / 10);
      s
  }

  /** No leading zeros. */
  predicate Plain(s: string) {
    s != "" && (s[0] != '0' || |s| == 1)
  }

  function Pow10(n: nat): (p: nat)
    ensures p >= 1
  {
    if n == 0 then 1 else 10 * Pow10(n - 1)
  }

  lemma {:induction false} ValBound(s: string)
    requires IsDigits(s)
    ensures Val(s) < Pow10(|s|)
  {
    if s != "" { ValBound(s[..|s| - 1]); }
  }

  lemma {:induction false} ValConcat(a: string, b: string)
    requires IsDigits(a) && IsDigits(b)
    ensures IsDigits(a + b) && Val(a + b) == Val(a) * Pow10(|b|) + Val(b)
  {
    if b == "" {
      assert a + b == a;
    } else {
      var b' := b[..|b| - 1];
      assert (a + b)[..|a + b| - 1] == a + b';
      ValConcat(a, b');
      LastPlace(Val(a), Pow10(|b'|), Val(b'), D(b[|b| - 1]));
    }
  }

  lemma LastPlace(x: nat, p: nat, y: nat, d: nat)
    ensures (x * p + y) * 10 + d == x * (10 * p) + (y * 10 + d)
  {
    assert x * (10 * p) == (x * p) * 10;
  }

  lemma {:induction false} ValZeros(s: string)
    requires forall i :: 0 <= i < |s| ==> s[i] == '0'
    ensures IsDigits(s) && Val(s) == 0
  {
    if s != "" { ValZeros(s[..|s| - 1]); }
  }

  /** Text without leading zeros is worth at least its first place. */
  lemma PlainBound(s: string)
    requires IsNumber(s) && s[0] != '0'
    ensures Pow10(|s| - 1) <= Val(s)
  {
    hide Val, Pow10;
    assert s == [s[0]] + s[1..];
    ValConcat([s[0]], s[1..]);
    OneDigit(s[0]);
    AtLeastOnce(D(s[0]), Pow10(|s| - 1));
  }

  lemma AtLeastOnce(d: nat, p: nat)
    requires d >= 1
    ensures d * p >= p
  {
  }

  lemma {:induction false} Pow10Monotone(a: nat, b: nat)
    requires a <= b
    ensures Pow10(a) <= Pow10(b)
  {
    if a < b { Pow10Monotone(a, b - 1); }
  }

  /** The first place at which two numbers as long differ decides between them. */
  lemma DifferAt(a: string, b: string, i: nat)
    requires IsDigits(a) && IsDigits(b) && |a| == |b| && i < |a|
    requires a[..i] == b[..i] && D(a[i]) < D(b[i])
    ensures Val(a) < Val(b)
  {
    hide Val, Pow10, IsDigits;
    ValAt(a, i);
    ValAt(b, i);
    ValBound(a[i + 1..]);
    OneMore(D(a[i]), D(b[i]), Pow10(|a| - i - 1));
  }

  /** A number as what stands before a place, at it and after it. */
  lemma ValAt(s: string, i: nat)
    requires IsDigits(s) && i < |s|
    ensures IsDigits(s[..i]) && IsDigit(s[i]) && IsDigits(s[i + 1..])
    ensures Val(s) == Val(s[..i]) * Pow10(|s| - i) + (D(s[i]) * Pow10(|s| - i - 1) + Val(s[i + 1..]))
  {
    hide Val, Pow10, IsDigits;
    AllParts(s, i);
    assert s == s[..i] + ([s[i]] + s[i + 1..]);
    ValConcat([s[i]], s[i + 1..]);
    ValConcat(s[..i], [s[i]] + s[i + 1..]);
    OneDigit(s[i]);
  }

  lemma OneMore(x: nat, y: nat, p: nat)
    requires x < y
    ensures x * p + p <= y * p
  {
    var d: nat := y - x - 1;
    assert d * p >= 0;
    assert y * p == (x + 1 + d) * p == x * p + p + d * p;
  }

  lemma AllParts(s: string, i: nat)
    requires i < |s| && IsDigits(s)
    ensures IsDigits(s[..i]) && IsDigit(s[i]) && IsDigits([s[i]]) && IsDigits(s[i + 1..])
  {
  }

  lemma OneDigit(c: char)
    requires IsDigit(c)
    ensures Val([c]) == D(c)
  {
    assert [c][..0] == "";
  }

  lemma {:induction false} FirstDifference(a: string, b: string) returns (i: nat)
    requires |a| == |b| && a != b
    ensures i < |a| && a[..i] == b[..i] && a[i] != b[i]
  {
    if a[0] != b[0] {
      i := 0;
    } else {
      assert a == [a[0]] + a[1..] && b == [b[0]] + b[1..];
      i := FirstDifference(a[1..], b[1..]);
      i := i + 1;
      assert a[..i] == [a[0]] + a[1..][..i - 1] && b[..i] == [b[0]] + b[1..][..i - 1];
    }
  }

  /** Of two numbers as long the greater exceeds the other where they first differ. */
  lemma GreaterAt(a: string, b: string) returns (i: nat)
    requires IsDigits(a) && IsDigits(b) && |a| == |b| && Val(a) < Val(b)
    ensures i < |a| && a[..i] == b[..i] && D(a[i]) < D(b[i])
    ensures IsDigits(a[i..]) && IsDigits(b[i..])
  {
    i := FirstDifference(a, b);
    if D(b[i]) < D(a[i]) { DifferAt(b, a, i); }
  }

  /** The shorter of two numbers without leading zeros is the less. */
  lemma ShorterIsLess(a: string, b: string)
    requires IsNumber(a) && IsNumber(b) && |a| < |b| && b[0] != '0'
    ensures Val(a) < Val(b)
  {
    ValBound(a);
    PlainBound(b);
    Pow10Monotone(|a|, |b| - 1);
  }

  // ─── The pattern ─────────────────────────────────────────

  datatype Comparison = Eq | Gt | Ge | Lt | Le

  predicate Compares(op: Comparison, x: nat, n: nat) {
    match op
    case Eq => x == n
    case Gt => x > n
    case Ge => x >= n
    case Lt => x < n
    case Le => x <= n
  }

  const DIGIT := Class(false, [Range('0', '9')])

  /** A digit from `lo` to `hi`, written alone when that is one digit. */
  function DigitFrom(lo: nat, hi: nat): Re
    requires lo <= hi <= 9
  {
    if lo == hi then Lit([Digit(lo)]) else Class(false, [Range(Digit(lo), Digit(hi))])
  }

  /** As `s` before place `i`, a digit from `lo` to `hi` there, any after. */
  function Place(s: string, i: nat, lo: nat, hi: nat): Re
    requires i < |s| && lo <= hi <= 9
  {
    var rest := |s| - i - 1;
    Cat(Lit(s[..i]), if rest > 0 then Cat(DigitFrom(lo, hi), Rep(DIGIT, rest, Some(rest))) else DigitFrom(lo, hi))
  }

  function AbovePlace(s: string, i: nat): seq<Re>
    requires i < |s| && IsDigits(s)
  {
    if s[i] != '9' then [Place(s, i, D(s[i]) + 1, 9)] else []
  }

  function BelowPlace(s: string, i: nat): seq<Re>
    requires i < |s| && IsDigits(s)
  {
    if s[i] != '0' && !(i == 0 && s[i] == '1' && |s| > 1)
    then [Place(s, i, if i == 0 && |s| > 1 then 1 else 0, D(s[i]) - 1)] else []
  }

  function AbovePlaces(s: string, n: nat): seq<Re>
    requires n <= |s| && IsDigits(s)
  {
    if n == 0 then [] else AbovePlaces(s, n - 1) + AbovePlace(s, n - 1)
  }

  function BelowPlaces(s: string, n: nat): seq<Re>
    requires n <= |s| && IsDigits(s)
  {
    if n == 0 then [] else BelowPlaces(s, n - 1) + BelowPlace(s, n - 1)
  }

  function Above(k: nat): seq<Re> {
    var s := Str(k);
    [Cat(Class(false, [Range('1', '9')]), Rep(DIGIT, |s|, None))] + AbovePlaces(s, |s|)
  }

  function Below(k: nat): seq<Re> {
    var s := Str(k);
    (if |s| > 1 then [Rep(DIGIT, 1, Some(|s| - 1))] else []) + BelowPlaces(s, |s|)
  }

  lemma NoPlaces(s: string)
    requires IsDigits(s)
    ensures AbovePlaces(s, 0) == [] && BelowPlaces(s, 0) == []
  {
  }

  lemma OnePlaceMore(s: string, i: nat)
    requires i < |s| && IsDigits(s)
    ensures AbovePlaces(s, i + 1) == AbovePlaces(s, i) + AbovePlace(s, i)
    ensures BelowPlaces(s, i + 1) == BelowPlaces(s, i) + BelowPlace(s, i)
  {
    hide AbovePlace, BelowPlace;
  }

  method ComputeAbove(k: nat) returns (alts: seq<Re>)
    ensures alts == Above(k)
  {
    hide Str, Val, Place, AbovePlaces;
    var s := Str(k);
    NoPlaces(s);
    alts := [Cat(Class(false, [Range('1', '9')]), Rep(DIGIT, |s|, None))];
    ghost var longer := alts;
    for i := 0 to |s|
      invariant alts == longer + AbovePlaces(s, i)
    {
      OnePlaceMore(s, i);
      if s[i] != '9' {
        alts := alts + [Place(s, i, D(s[i]) + 1, 9)];
      }
    }
  }

  method ComputeBelow(k: nat) returns (alts: seq<Re>)
    ensures alts == Below(k)
  {
    hide Str, Val, Place, BelowPlaces;
    var s := Str(k);
    NoPlaces(s);
    alts := if |s| > 1 then [Rep(DIGIT, 1, Some(|s| - 1))] else [];
    ghost var shorter := alts;
    for i := 0 to |s|
      invariant alts == shorter + BelowPlaces(s, i)
    {
      OnePlaceMore(s, i);
      if s[i] != '0' && !(i == 0 && s[i] == '1' && |s| > 1) {
        var lo := if i == 0 && |s| > 1 then 1 else 0;
        assert lo <= D(s[i]) - 1;
        alts := alts + [Place(s, i, lo, D(s[i]) - 1)];
      }
    }
  }

  function Choices(op: Comparison, n: nat): seq<Re> {
    var exact := [Lit(Str(n))];
    match op
    case Eq => exact
    case Gt => Above(n)
    case Ge => exact + Above(n)
    case Lt => Below(n)
    case Le => exact + Below(n)
  }

  const ZEROS := Rep(Lit("0"), 0, None)

  /** `^0*(?:…)$`, or nothing where no number compares so: the refusal. */
  function Pattern(op: Comparison, n: nat): Option<Re> {
    var alts := Choices(op, n);
    if alts == [] then None
    else Some(Cat(Bol, Cat(Cat(ZEROS, Alternatives(alts)), Eol)))
  }

  // ─── What each alternative matches ───────────────────────

  predicate AtPlace(s: string, i: nat, lo: nat, hi: nat, u: string)
    requires i < |s|
  {
    |u| == |s| && u[..i] == s[..i] && IsDigits(u[i..]) && lo <= D(u[i]) <= hi
  }

  lemma AllDigits(s: string, i: nat, j: nat)
    requires i <= j <= |s|
    ensures All(DIGIT, s, i, j) <==> IsDigits(s[i..j])
  {
    DigitAccepts();
    assert forall k :: i <= k < j ==> s[k] == s[i..j][k - i];
    assert forall k :: 0 <= k < j - i ==> s[i..j][k] == s[i + k];
  }

  lemma DigitAccepts()
    ensures forall c :: Accepts(DIGIT, c) <==> IsDigit(c)
  {
    forall c
      ensures Accepts(DIGIT, c) <==> IsDigit(c)
    {
      OneRange(c, Range('0', '9'));
    }
  }

  lemma OneRange(c: char, r: Range)
    ensures InRanges(c, [r]) <==> r.lo <= c <= r.hi
  {
    if r.lo <= c <= r.hi { assert [r][0] == r; }
  }

  lemma DigitFromAccepts(lo: nat, hi: nat, c: char)
    requires lo <= hi <= 9
    ensures OneChar(DigitFrom(lo, hi))
    ensures Accepts(DigitFrom(lo, hi), c) <==> IsDigit(c) && lo <= D(c) <= hi
  {
    OneRange(c, Range(Digit(lo), Digit(hi)));
  }

  lemma InPlace(s: string, i: nat, lo: nat, hi: nat, u: string)
    requires i < |s| && lo <= hi <= 9
    ensures AnchorFree(Place(s, i, lo, hi))
    ensures In(Place(s, i, lo, hi), u) <==> AtPlace(s, i, lo, hi, u)
  {
    hide M, DigitFrom;
    var x := DigitFrom(lo, hi);
    DigitFromAccepts(lo, hi, '0');
    OneCharIsAnchorFree(x);
    var rest := |s| - i - 1;
    var tail := if rest > 0 then Cat(x, Rep(DIGIT, rest, Some(rest))) else x;
    assert AnchorFree(Rep(DIGIT, rest, Some(rest)));
    assert AnchorFree(tail);
    assert AnchorFree(Lit(s[..i]));
    if In(Place(s, i, lo, hi), u) {
      var k := SplitIn(Lit(s[..i]), tail, u);
      InLit(s[..i], u[..k]);
      InTail(x, rest, lo, hi, u[k..]);
    }
    if AtPlace(s, i, lo, hi, u) {
      InLit(s[..i], u[..i]);
      InTail(x, rest, lo, hi, u[i..]);
      JoinIn(Lit(s[..i]), tail, u[..i], u[i..]);
      assert u == u[..i] + u[i..];
    }
  }

  lemma OneCharIsAnchorFree(x: Re)
    requires OneChar(x)
    ensures AnchorFree(x)
  {
  }

  lemma InLit(t: string, u: string)
    ensures In(Lit(t), u) <==> u == t
  {
    assert u[0..|u|] == u;
  }

  lemma InTail(x: Re, rest: nat, lo: nat, hi: nat, v: string)
    requires lo <= hi <= 9 && x == DigitFrom(lo, hi)
    ensures In(if rest > 0 then Cat(x, Rep(DIGIT, rest, Some(rest))) else x, v) <==>
            |v| == rest + 1 && IsDigits(v) && lo <= D(v[0]) <= hi
  {
    hide M;
    var rep := Rep(DIGIT, rest, Some(rest));
    forall k | 0 <= k <= |v|
      ensures In(x, v[..k]) <==> k == 1 && IsDigit(v[0]) && lo <= D(v[0]) <= hi
      ensures In(rep, v[k..]) <==> |v| - k == rest && IsDigits(v[k..])
    {
      OneCharMatch(x, v[..k], 0, k);
      if k == 1 { DigitFromAccepts(lo, hi, v[0]); }
      DigitFromAccepts(lo, hi, '0');
      RepOfClass(DIGIT, rest, Some(rest), v[k..], 0, |v| - k);
      AllDigits(v[k..], 0, |v| - k);
      assert v[k..][0..|v| - k] == v[k..];
    }
    if rest > 0 {
      InCat(x, rep, v);
      if |v| >= 1 { assert v == [v[0]] + v[1..]; }
    } else {
      assert v[..|v|] == v;
    }
  }

  // ─── The alternatives together ───────────────────────────

  /** Some alternative matches the whole of `u`. */
  ghost predicate Chosen(alts: seq<Re>, u: string) {
    exists a :: 0 <= a < |alts| && In(alts[a], u)
  }

  ghost predicate Plainly(alts: seq<Re>) {
    forall a :: 0 <= a < |alts| ==> AnchorFree(alts[a])
  }

  lemma NoneChosen(u: string)
    ensures Plainly([]) && !Chosen([], u)
  {
  }

  lemma ChosenConcat(a: seq<Re>, b: seq<Re>, u: string)
    ensures Chosen(a + b, u) <==> Chosen(a, u) || Chosen(b, u)
    ensures Plainly(a + b) <==> Plainly(a) && Plainly(b)
  {
    hide In, AnchorFree;
    assert forall i :: 0 <= i < |a| ==> (a + b)[i] == a[i];
    assert forall i :: 0 <= i < |b| ==> (a + b)[|a| + i] == b[i];
  }

  lemma ChosenOne(r: Re, u: string)
    ensures Chosen([r], u) <==> In(r, u)
    ensures Plainly([r]) <==> AnchorFree(r)
  {
    hide In, AnchorFree;
    assert [r][0] == r;
  }

  lemma {:induction false} ChosenAbovePlaces(s: string, n: nat, u: string)
    requires n <= |s| && IsDigits(s)
    ensures Plainly(AbovePlaces(s, n))
    ensures Chosen(AbovePlaces(s, n), u) <==>
            exists i :: 0 <= i < n && |u| == |s| && u[..i] == s[..i] && IsDigits(u[i..]) && D(u[i]) > D(s[i])
  {
    hide In, AnchorFree, Place, Chosen, Plainly, AbovePlace, BelowPlace, BelowAt;
    NoneChosen(u);
    if n > 0 {
      ChosenAbovePlaces(s, n - 1, u);
      ChosenConcat(AbovePlaces(s, n - 1), AbovePlace(s, n - 1), u);
      AbovePlaceChooses(s, n - 1, u);
    }
  }

  /** A number in the places of `s` that the converter's alternative allows. */
  predicate BelowAt(s: string, i: nat, u: string)
    requires i < |s| && IsDigits(s)
  {
    && |u| == |s| && u[..i] == s[..i] && IsDigits(u[i..]) && D(u[i]) < D(s[i])
    && (i == 0 && |s| > 1 ==> u[0] != '0')
  }

  lemma {:induction false} ChosenBelowPlaces(s: string, n: nat, u: string)
    requires n <= |s| && IsDigits(s)
    ensures Plainly(BelowPlaces(s, n))
    ensures Chosen(BelowPlaces(s, n), u) <==> exists i :: 0 <= i < n && BelowAt(s, i, u)
  {
    hide In, AnchorFree, Place, Chosen, Plainly, AbovePlace, BelowPlace, BelowAt;
    NoneChosen(u);
    if n > 0 {
      var i := n - 1;
      ChosenBelowPlaces(s, i, u);
      ChosenConcat(BelowPlaces(s, i), BelowPlace(s, i), u);
      BelowPlaceChooses(s, i, u);
    }
  }

  lemma BelowPlaceChooses(s: string, i: nat, u: string)
    requires i < |s| && IsDigits(s)
    ensures Plainly(BelowPlace(s, i))
    ensures Chosen(BelowPlace(s, i), u) <==> BelowAt(s, i, u)
  {
    hide In, AnchorFree, Place;
    if i < |u| { assert u[i..][0] == u[i]; }
    if s[i] != '0' && !(i == 0 && s[i] == '1' && |s| > 1) {
      var lo := if i == 0 && |s| > 1 then 1 else 0;
      InPlace(s, i, lo, D(s[i]) - 1, u);
      ChosenOne(Place(s, i, lo, D(s[i]) - 1), u);
    }
  }

  lemma AbovePlaceChooses(s: string, i: nat, u: string)
    requires i < |s| && IsDigits(s)
    ensures Plainly(AbovePlace(s, i))
    ensures Chosen(AbovePlace(s, i), u) <==>
            |u| == |s| && u[..i] == s[..i] && IsDigits(u[i..]) && D(u[i]) > D(s[i])
  {
    hide In, AnchorFree, Place;
    if s[i] != '9' {
      InPlace(s, i, D(s[i]) + 1, 9, u);
      ChosenOne(Place(s, i, D(s[i]) + 1, 9), u);
    }
  }

  lemma InLonger(n: nat, u: string)
    ensures var r := Cat(Class(false, [Range('1', '9')]), Rep(DIGIT, n, None));
            AnchorFree(r) && (In(r, u) <==> |u| > n && IsDigits(u) && u[0] != '0')
  {
    hide M;
    var c, rep := Class(false, [Range('1', '9')]), Rep(DIGIT, n, None);
    assert AnchorFree(rep);
    InCat(c, rep, u);
    forall k | 0 <= k <= |u|
      ensures In(c, u[..k]) <==> k == 1 && IsDigit(u[0]) && u[0] != '0'
      ensures In(rep, u[k..]) <==> |u| - k >= n && IsDigits(u[k..])
    {
      OneCharMatch(c, u[..k], 0, k);
      if k == 1 { OneRange(u[0], Range('1', '9')); }
      RepOfClass(DIGIT, n, None, u[k..], 0, |u| - k);
      AllDigits(u[k..], 0, |u| - k);
      assert u[k..][0..|u| - k] == u[k..];
    }
    if |u| >= 1 { assert u == [u[0]] + u[1..]; }
  }

  lemma InShorter(n: nat, u: string)
    ensures var r := Rep(DIGIT, 1, Some(n));
            AnchorFree(r) && (In(r, u) <==> 1 <= |u| <= n && IsDigits(u))
  {
    hide M;
    RepOfClass(DIGIT, 1, Some(n), u, 0, |u|);
    AllDigits(u, 0, |u|);
    assert u[0..|u|] == u;
  }

  /** What `above` chooses among numbers: exactly the greater ones, provided
      they have no leading zeros, and never one that is not greater. */
  lemma AboveChooses(k: nat, u: string)
    ensures Plainly(Above(k))
    ensures Chosen(Above(k), u) ==> IsNumber(u) && Val(u) > k
    ensures IsNumber(u) && Plain(u) && Val(u) > k ==> Chosen(Above(k), u)
  {
    hide Str, Val, In, AnchorFree, Chosen, Plainly;
    var s := Str(k);
    var r := Cat(Class(false, [Range('1', '9')]), Rep(DIGIT, |s|, None));
    InLonger(|s|, u);
    ChosenOne(r, u);
    ChosenAbovePlaces(s, |s|, u);
    ChosenConcat([r], AbovePlaces(s, |s|), u);
    if Chosen([r], u) {
      ShorterIsLess(s, u);
    } else if Chosen(AbovePlaces(s, |s|), u) {
      var i :| 0 <= i < |s| && |u| == |s| && u[..i] == s[..i] && IsDigits(u[i..]) && D(u[i]) > D(s[i]);
      DigitsFrom(s, u, i);
      DifferAt(s, u, i);
    } else if IsNumber(u) && Plain(u) && Val(u) > k {
      if |u| == |s| {
        var i := GreaterAt(s, u);
      } else {
        NotShorter(s, u);
      }
    }
  }

  lemma DigitsFrom(s: string, u: string, i: nat)
    requires IsDigits(s) && i < |s| == |u| && u[..i] == s[..i] && IsDigits(u[i..])
    ensures IsNumber(u)
  {
    assert u == u[..i] + u[i..];
    assert forall j :: 0 <= j < i ==> u[j] == u[..i][j] == s[..i][j];
  }

  /** A number greater than another written plainly is not shorter. */
  lemma NotShorter(s: string, u: string)
    requires IsNumber(s) && Plain(s) && IsNumber(u) && Plain(u) && Val(u) > Val(s)
    ensures |u| >= |s| && (|u| > |s| ==> u[0] != '0')
  {
    hide Val;
    if |u| < |s| { ShorterIsLess(u, s); }
  }

  lemma BelowChooses(k: nat, u: string)
    ensures Plainly(Below(k))
    ensures Chosen(Below(k), u) ==> IsNumber(u) && Val(u) < k
    ensures IsNumber(u) && Plain(u) && Val(u) < k ==> Chosen(Below(k), u)
  {
    hide Str, Val, In, AnchorFree, Chosen, Plainly, BelowAt;
    var s := Str(k);
    var first := if |s| > 1 then [Rep(DIGIT, 1, Some(|s| - 1))] else [];
    ChosenBelowPlaces(s, |s|, u);
    ChosenConcat(first, BelowPlaces(s, |s|), u);
    FirstChooses(s, u);
    if Chosen(first, u) {
      ShorterIsLess(u, s);
    } else if Chosen(BelowPlaces(s, |s|), u) {
      var i :| 0 <= i < |s| && BelowAt(s, i, u);
      BelowAtIsLess(s, i, u);
    } else if IsNumber(u) && Plain(u) && Val(u) < k {
      if |u| == |s| {
        var i := GreaterAt(u, s);
        LessIsBelowAt(s, i, u);
      } else {
        NotShorter(u, s);
      }
    }
  }

  lemma FirstChooses(s: string, u: string)
    requires IsNumber(s)
    ensures var first := if |s| > 1 then [Rep(DIGIT, 1, Some(|s| - 1))] else [];
            Plainly(first) && (Chosen(first, u) <==> 1 <= |u| < |s| && IsDigits(u))
  {
    hide In, AnchorFree;
    if |s| > 1 {
      InShorter(|s| - 1, u);
      ChosenOne(Rep(DIGIT, 1, Some(|s| - 1)), u);
    }
  }

  lemma BelowAtIsLess(s: string, i: nat, u: string)
    requires i < |s| && IsDigits(s) && BelowAt(s, i, u)
    ensures IsNumber(u) && Val(u) < Val(s)
  {
    hide Val;
    DigitsFrom(s, u, i);
    DifferAt(u, s, i);
  }

  lemma LessIsBelowAt(s: string, i: nat, u: string)
    requires IsNumber(s) && IsNumber(u) && Plain(u) && |s| == |u|
    requires i < |s| && u[..i] == s[..i] && D(u[i]) < D(s[i])
    ensures BelowAt(s, i, u)
  {
    assert IsDigits(u[i..]);
  }

  lemma ExactChooses(n: nat, u: string)
    ensures Plainly([Lit(Str(n))])
    ensures Chosen([Lit(Str(n))], u) <==> u == Str(n)
  {
    hide Str, In;
    ChosenOne(Lit(Str(n)), u);
    InLit(Str(n), u);
  }

  /** Among numbers written without leading zeros, the alternatives choose
      exactly those that compare so; and they choose nothing else. */
  lemma ChoicesChoose(op: Comparison, n: nat, u: string)
    ensures Plainly(Choices(op, n))
    ensures Chosen(Choices(op, n), u) ==> IsNumber(u) && Compares(op, Val(u), n)
    ensures IsNumber(u) && Plain(u) && Compares(op, Val(u), n) ==> Chosen(Choices(op, n), u)
  {
    hide Str, Val, Above, Below, Chosen, Plainly, In;
    ExactChooses(n, u);
    AboveChooses(n, u);
    BelowChooses(n, u);
    ChosenConcat([Lit(Str(n))], Above(n), u);
    ChosenConcat([Lit(Str(n))], Below(n), u);
    if IsNumber(u) && Plain(u) && Val(u) == n {
      PlainIsUnique(u, Str(n));
    }
  }

  /** A number is written without leading zeros in one way. */
  lemma PlainIsUnique(a: string, b: string)
    requires IsNumber(a) && IsNumber(b) && Plain(a) && Plain(b) && Val(a) == Val(b)
    ensures a == b
  {
    hide Val;
    if |a| < |b| {
      ShorterIsLess(a, b);
    } else if |b| < |a| {
      ShorterIsLess(b, a);
    } else if a != b {
      var i := FirstDifference(a, b);
      if D(a[i]) < D(b[i]) { DifferAt(a, b, i); } else { DifferAt(b, a, i); }
    }
  }

  // ─── The whole pattern ───────────────────────────────────

  predicate IsZeros(s: string) {
    forall i :: 0 <= i < |s| ==> s[i] == '0'
  }

  lemma InZeros(z: string)
    ensures In(ZEROS, z) <==> IsZeros(z)
  {
    hide M;
    RepOfClass(Lit("0"), 0, None, z, 0, |z|);
  }

  /** Any number is zeros and then itself without leading zeros. */
  lemma {:induction false} Strip(t: string) returns (z: nat)
    requires IsNumber(t)
    ensures z < |t| && IsZeros(t[..z]) && Plain(t[z..])
  {
    if Plain(t) {
      z := 0;
    } else {
      z := Strip(t[1..]);
      z := z + 1;
      assert t[..z] == ['0'] + t[1..][..z - 1];
      assert t[z..] == t[1..][z - 1..];
    }
  }

  lemma ZerosAddNothing(z: string, u: string)
    requires IsZeros(z) && IsDigits(u)
    ensures IsDigits(z + u) && Val(z + u) == Val(u)
  {
    hide Val;
    ValZeros(z);
    ValConcat(z, u);
    NoughtTimes(Pow10(|u|));
  }

  lemma NoughtTimes(p: nat)
    ensures 0 * p == 0
  {
  }

  lemma BodyMatches(op: Comparison, n: nat, t: string)
    requires Choices(op, n) != []
    ensures var body := Cat(ZEROS, Alternatives(Choices(op, n)));
            && AnchorFree(body)
            && (In(body, t) <==> IsNumber(t) && Compares(op, Val(t), n))
  {
    hide Val, Str, Choices, M, Above, Below, IsNumber;
    var alts := Choices(op, n);
    var any := Alternatives(alts);
    ChoicesChoose(op, n, t);
    AlternativesAnchorFree(alts);
    assert AnchorFree(ZEROS);
    if In(Cat(ZEROS, any), t) {
      var k := SplitIn(ZEROS, any, t);
      var u := t[k..];
      InZeros(t[..k]);
      InAlternatives(alts, u, 0, |u|);
      ChoicesChoose(op, n, u);
      NumberTail(t, k);
      ZerosAddNothing(t[..k], u);
    }
    if IsNumber(t) {
      NumberTail(t, 0);
    }
    if IsNumber(t) && Compares(op, Val(t), n) {
      var k := Strip(t);
      var u := t[k..];
      NumberTail(t, k);
      ZerosAddNothing(t[..k], u);
      ChoicesChoose(op, n, u);
      InAlternatives(alts, u, 0, |u|);
      InZeros(t[..k]);
      JoinIn(ZEROS, any, t[..k], u);
    }
  }

  lemma NumberTail(t: string, k: nat)
    requires k <= |t|
    ensures t == t[..k] + t[k..]
    ensures IsNumber(t) ==> IsDigits(t[k..]) && IsDigits(t)
    ensures IsNumber(t) && k < |t| ==> IsNumber(t[k..])
    ensures IsNumber(t[k..]) ==> IsDigits(t[k..])
    ensures IsZeros(t[..k]) && IsNumber(t[k..]) ==> IsNumber(t)
  {
    if IsZeros(t[..k]) {
      assert forall i :: 0 <= i < k ==> t[i] == t[..k][i];
      assert forall i :: k <= i < |t| ==> t[i] == t[k..][i - k];
    }
  }

  /** For every number and each comparison, the pattern is found in a text
      exactly when the text is a number in decimal, leading zeros allowed, that
      compares so; and the only one refused is less than nought. */
  lemma PatternMeansComparison(op: Comparison, n: nat, t: string)
    ensures Pattern(op, n) == None <==> op == Lt && n == 0
    ensures Pattern(op, n).Some? ==>
            (Found(Pattern(op, n).value, t) <==> IsNumber(t) && Compares(op, Val(t), n))
  {
    hide Found, In, Val;
    NothingBelowNought(n);
    if Choices(op, n) != [] {
      BodyMatches(op, n, t);
      FoundWhole(Cat(ZEROS, Alternatives(Choices(op, n))), t);
    }
  }

  lemma NothingBelowNought(n: nat)
    ensures Below(n) == [] <==> n == 0
    ensures Above(n) != []
  {
    hide In, Val;
    if n == 0 {
      assert Str(0) == ['0'];
      assert BelowPlaces(['0'], 1) == BelowPlaces(['0'], 0) + BelowPlace(['0'], 0);
    } else {
      BelowChooses(n, "0");
      ZeroIsNumber();
    }
  }

  lemma ZeroIsNumber()
    ensures IsNumber("0") && Plain("0") && Val("0") == 0
  {
    OneDigit('0');
  }
}
