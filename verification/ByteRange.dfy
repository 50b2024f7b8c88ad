/** A value holding a byte outside a list of ranges, found by a pattern on
    characters (scripts/modsec2easywaf.py, `byte_range_pattern`). */
module ByteRange {
  import opened Options
  import N = NumericPattern
  import opened Regex
  import opened Text

  /** One comma-separated part of the argument, as the converter reads it. */
  datatype Part = Blank | One(lo: nat) | Span(lo: nat, hi: nat) | Unreadable

  function PartOf(text: string): Part { PartTrimmed(Trim(text)) }

  function PartTrimmed(part: string): Part {
    if part == "" then Blank
    else
      var cut := Before(part, '-');
      var lo := if cut.Some? then cut.value else part;
      var hi := if cut.Some? then part[|lo| + 1..] else "";
      if !N.IsNumber(Trim(lo)) || (hi != "" && !N.IsNumber(Trim(hi))) then Unreadable
      else if hi == "" then One(N.Val(Trim(lo)))
      else Span(N.Val(Trim(lo)), N.Val(Trim(hi)))
  }

  function PartsOf(pieces: seq<string>): (parts: seq<Part>)
    ensures |parts| == |pieces| && forall i :: 0 <= i < |parts| ==> parts[i] == PartOf(pieces[i])
  {
    seq(|pieces|, i requires 0 <= i < |pieces| => PartOf(pieces[i]))
  }

  /** The parts of the operator's argument. */
  function Parts(arg: string): seq<Part> {
    PartsOf(Split(arg, ','))
  }

  lemma NumberIsTight(s: string)
    requires N.IsNumber(s)
    ensures Trim(s) == s && !IsSpace(s[0]) && !IsSpace(s[|s| - 1])
    ensures forall i :: 0 <= i < |s| ==> s[i] != '-'
  {
    TrimTight(s);
  }

  lemma NoDash(left: string, b: string)
    requires N.IsNumber(left) && AllSpace(b)
    ensures forall i :: 0 <= i < |left + b| ==> (left + b)[i] != '-'
  {
  }

  lemma Halves(left: string, right: string)
    requires forall i :: 0 <= i < |left| ==> left[i] != '-'
    ensures var part := left + "-" + right;
            part != "" && Before(part, '-') == Some(left) && part[|left| + 1..] == right
  {
    hide Before;
    UpTo(left, '-', right);
  }

  lemma Grouped(lo: string, b: string, c: string, hi: string)
    ensures lo + b + "-" + c + hi == (lo + b) + "-" + (c + hi)
  {
  }

  lemma BlanksAround(lo: string, b: string)
    requires N.IsNumber(lo) && AllSpace(b)
    ensures Trim(lo + b) == lo && Trim(b + lo) == lo
  {
    hide Trim, IsSpace, AllSpace;
    NumberIsTight(lo);
    NoBlanks();
    TrimAround("", lo, b);
    TrimAround(b, lo, "");
    assert "" + lo + b == lo + b && b + lo + "" == b + lo;
  }

  lemma NoBlanks()
    ensures AllSpace("")
  {
  }

  lemma TwoNumbers(lo: string, b: string, c: string, hi: string)
    requires N.IsNumber(lo) && N.IsNumber(hi) && AllSpace(b) && AllSpace(c)
    ensures PartTrimmed(lo + b + "-" + c + hi) == Span(N.Val(lo), N.Val(hi))
  {
    assert c + hi != "";
    hide Trim, N.IsNumber, N.Val, Before, IsSpace, AllSpace;
    NoDash(lo, b);
    Halves(lo + b, c + hi);
    Grouped(lo, b, c, hi);
    BlanksAround(lo, b);
    BlanksAround(hi, c);
  }

  lemma OneNumber(lo: string)
    requires N.IsNumber(lo)
    ensures PartTrimmed(lo) == One(N.Val(lo))
  {
    NumberIsTight(lo);
    NoneBefore(lo, '-');
    hide Trim, N.Val;
  }

  /** A range is read as its two numbers, with leading zeros and blanks or not. */
  lemma RangeIsRead(lo: string, hi: string, a: string, b: string, c: string, d: string)
    requires N.IsNumber(lo) && N.IsNumber(hi)
    requires AllSpace(a) && AllSpace(b) && AllSpace(c) && AllSpace(d)
    ensures PartOf(a + (lo + b + "-" + c + hi) + d) == Span(N.Val(lo), N.Val(hi))
    ensures PartOf(a + lo + d) == One(N.Val(lo))
  {
    var part := lo + b + "-" + c + hi;
    NumberIsTight(lo);
    NumberIsTight(hi);
    assert part[0] == lo[0] && part[|part| - 1] == hi[|hi| - 1];
    TrimAround(a, part, d);
    TrimTight(part);
    TrimAround(a, lo, d);
    hide Trim, N.IsNumber, N.Val, IsSpace, PartTrimmed;
    TwoNumbers(lo, b, c, hi);
    OneNumber(lo);
  }

  lemma {:induction false} TrimmedUpTo(l: string, rest: string)
    requires rest != "" && !IsSpace(rest[0])
    ensures TrimStart(l + rest) == TrimStart(l) + rest
  {
    if l == "" || !IsSpace(l[0]) {
      assert l == "" ==> l + rest == rest;
    } else {
      assert (l + rest)[1..] == l[1..] + rest;
      TrimmedUpTo(l[1..], rest);
    }
  }

  lemma {:induction false} TrimmedFrom(rest: string, r: string)
    requires rest != "" && !IsSpace(rest[|rest| - 1])
    ensures TrimEnd(rest + r) == rest + TrimEnd(r)
  {
    var n := |r| - 1;
    if r == "" || !IsSpace(r[n]) {
      assert r == "" ==> rest + r == rest;
    } else {
      assert (rest + r)[..|rest| + n] == rest + r[..n];
      TrimmedFrom(rest, r[..n]);
    }
  }

  /** A text trimmed at one end is as it was trimmed at both. */
  lemma TrimTwice(s: string)
    ensures Trim(TrimStart(s)) == Trim(s) && Trim(TrimEnd(s)) == Trim(s)
  {
    hide IsSpace, Trim, TrimStart, TrimEnd;
    var n := TrimStartKeeps(s);
    var m := TrimEndKeeps(s);
    NoBlanks();
    TrimAround(s[..n], s[n..], "");
    TrimAround("", s[..m], s[m..]);
    assert s[..n] + s[n..] + "" == s && "" + s[..m] + s[m..] == s;
  }

  lemma BlankEnd(r: string)
    ensures TrimEnd(r) == "" <==> AllSpace(r)
    ensures Trim(r) == "" <==> AllSpace(r)
  {
    hide IsSpace, Trim, TrimStart, TrimEnd, AllSpace;
    var m := TrimEndKeeps(r);
    if TrimEnd(r) == "" {
      assert r[m..] == r;
    }
    TrimTwice(r);
    if Trim(r) == "" { NothingKept(r); }
    if AllSpace(r) {
      TrimBlank(r);
      NothingKept(r);
    }
  }

  lemma {:induction false} NothingKept(r: string)
    ensures AllSpace(r) ==> TrimEnd(r) == ""
    ensures Trim(r) == "" ==> AllSpace(r)
  {
    var n := TrimStartKeeps(r);
    var m := TrimEndKeeps(TrimStart(r));
    var k := TrimEndKeeps(r);
    if Trim(r) == "" {
      assert r[n..][m..] == r[n..];
      assert forall i :: n <= i < |r| ==> r[i] == r[n..][i - n];
      assert forall i :: 0 <= i < n ==> r[i] == r[..n][i];
    }
    if AllSpace(r) && r != "" {
      BlanksEnd(r);
    }
  }

  lemma {:induction false} BlanksEnd(r: string)
    requires AllSpace(r)
    ensures TrimEnd(r) == ""
  {
    if r != "" { BlanksEnd(r[..|r| - 1]); }
  }

  /** What each part of the argument is read as, whatever it says. One all blank says
      nothing. One without a dash is a number or cannot be read. One with a dash is
      cut at the first: what is left of it has to be a number; if there is nothing
      right of it that is the number allowed, and otherwise that has to be one too. */
  lemma PartIsRead(text: string, l: string, r: string)
    ensures PartOf(text) == Blank <==> AllSpace(text)
    ensures '-' !in text && !AllSpace(text) ==>
              PartOf(text) == if N.IsNumber(Trim(text)) then One(N.Val(Trim(text))) else Unreadable
    ensures text == l + "-" + r && '-' !in l ==>
              PartOf(text)
              == if !N.IsNumber(Trim(l)) then Unreadable
                 else if AllSpace(r) then One(N.Val(Trim(l)))
                 else if N.IsNumber(Trim(r)) then Span(N.Val(Trim(l)), N.Val(Trim(r)))
                 else Unreadable
  {
    hide N.IsNumber, N.Val, IsSpace, AllSpace, TrimStart, TrimEnd, Trim, Before;
    BlankEnd(text);
    if '-' !in text {
      TrimTwice(text);
      NoDashTrimmed(text);
      TrimAgain(text);
    } else if text == l + "-" + r && '-' !in l {
      DashTrimmed(l, r);
      NoDashTrimmed(l);
      Halves(TrimStart(l), TrimEnd(r));
      TrimTwice(l);
      TrimTwice(r);
      BlankEnd(r);
    }
  }

  lemma TrimAgain(s: string)
    ensures Trim(Trim(s)) == Trim(s)
  {
    hide IsSpace, TrimStart, TrimEnd;
    TrimTwice(s);
    TrimTwice(TrimStart(s));
  }

  /** Trimming brings no dash in. */
  lemma NoDashTrimmed(s: string)
    requires '-' !in s
    ensures '-' !in TrimStart(s) && '-' !in Trim(s) && Before(Trim(s), '-') == None
  {
    hide IsSpace, TrimStart, TrimEnd;
    var n := TrimStartKeeps(s);
    var m := TrimEndKeeps(TrimStart(s));
    assert forall i :: n <= i < |s| ==> s[n..][i - n] == s[i];
    NoneBefore(Trim(s), '-');
  }

  lemma DashTrimmed(l: string, r: string)
    ensures Trim(l + "-" + r) == TrimStart(l) + "-" + TrimEnd(r)
  {
    DashIsNoBlank();
    var rest := "-" + r;
    assert rest[0] == '-' && l + "-" + r == l + rest;
    TrimmedUpTo(l, rest);
    var left := TrimStart(l) + "-";
    assert TrimStart(l) + rest == left + r;
    TrimmedFrom(left, r);
  }

  lemma DashIsNoBlank()
    ensures !IsSpace('-')
  {
  }

  predicate Within(p: Part, b: nat) {
    match p
    case One(lo) => b == lo
    case Span(lo, hi) => lo <= b <= hi
    case _ => false
  }

  ghost predicate Allowed(parts: seq<Part>, b: nat) {
    exists i :: 0 <= i < |parts| && Within(parts[i], b)
  }

  /** A character's bytes, as section 3 of RFC 3629 encodes them. */
  function Utf8(c: char): seq<nat> {
    var n := c as int;
    if n < 0x80 then [n]
    else if n < 0x800 then [0xC0 + n / 0x40, 0x80 + n % 0x40]
    else if n < 0x1_0000 then [0xE0 + n / 0x1000, 0x80 + n / 0x40 % 0x40, 0x80 + n % 0x40]
    else [0xF0 + n / 0x4_0000, 0x80 + n / 0x1000 % 0x40, 0x80 + n / 0x40 % 0x40, 0x80 + n % 0x40]
  }

  /** The code point a character's bytes stand for, the marks of its first and of the
      following bytes taken off. */
  function Decoded(b: seq<int>): int
    requires 1 <= |b| <= 4
  {
    if |b| == 1 then b[0]
    else if |b| == 2 then (b[0] - 0xC0) * 0x40 + (b[1] - 0x80)
    else if |b| == 3 then (b[0] - 0xE0) * 0x1000 + (b[1] - 0x80) * 0x40 + (b[2] - 0x80)
    else (b[0] - 0xF0) * 0x4_0000 + (b[1] - 0x80) * 0x1000 + (b[2] - 0x80) * 0x40 + (b[3] - 0x80)
  }

  lemma Digits64(n: nat)
    ensures n == n / 0x40 * 0x40 + n % 0x40
    ensures n / 0x40 == n / 0x1000 * 0x40 + n / 0x40 % 0x40
    ensures n / 0x1000 == n / 0x4_0000 * 0x40 + n / 0x1000 % 0x40
  {
  }

  /** A character's bytes say which it is: the first how many there are, those after it
      are no first ones, and together they are its code point. */
  lemma Utf8Decodes(c: char)
    ensures var b := Utf8(c);
            && 1 <= |b| <= 4 && Decoded(b) == c as int
            && (if |b| == 1 then b[0] < 0x80
                else if |b| == 2 then 0xC2 <= b[0] < 0xE0
                else if |b| == 3 then 0xE0 <= b[0] < 0xF0
                else 0xF0 <= b[0] < 0xF5)
            && forall k :: 1 <= k < |b| ==> 0x80 <= b[k] < 0xC0
  {
    Digits64(c as int);
  }

  /** Some byte of the value's encoding is not among those allowed. */
  ghost predicate HoldsOtherByte(s: string, parts: seq<Part>) {
    exists i :: 0 <= i < |s| && OtherByte(s[i], parts)
  }

  ghost predicate OtherByte(c: char, parts: seq<Part>) {
    exists k :: 0 <= k < |Utf8(c)| && !Allowed(parts, Utf8(c)[k])
  }

  ghost predicate Beyond(parts: seq<Part>, all: bool) {
    if all then forall b: nat :: 128 <= b < 256 ==> Allowed(parts, b)
    else forall b: nat :: 128 <= b < 256 ==> !Allowed(parts, b)
  }

  /** What the converter cannot say on characters, or need not say at all. */
  ghost predicate Refused(parts: seq<Part>) {
    || Unreadable in parts
    || (!Beyond(parts, true) && !Beyond(parts, false))
    || forall b: nat :: b < 256 ==> Allowed(parts, b)
  }

  // ─── Runs of bytes ───────────────────────────────────────

  datatype Run = Run(first: nat, last: nat)

  ghost predicate Holds(runs: seq<Run>, b: nat) {
    exists i :: 0 <= i < |runs| && runs[i].first <= b <= runs[i].last
  }

  /** Each run ends short of the next, with a byte between: no byte twice, and no
      run that could be one with its neighbour. */
  predicate Apart(runs: seq<Run>) {
    && (forall i :: 0 <= i < |runs| ==> runs[i].first <= runs[i].last)
    && (forall i :: 0 <= i < |runs| - 1 ==> runs[i].last + 1 < runs[i + 1].first)
  }

  lemma HoldsMore(runs: seq<Run>, r: Run, b: nat)
    ensures Holds(runs + [r], b) <==> Holds(runs, b) || r.first <= b <= r.last
  {
    if Holds(runs, b) {
      var i :| 0 <= i < |runs| && runs[i].first <= b <= runs[i].last;
      assert (runs + [r])[i] == runs[i];
    }
    if r.first <= b <= r.last {
      assert (runs + [r])[|runs|] == r;
    }
  }

  /** The runs so far hold what is left out of the bytes below `b`. */
  ghost predicate HoldBelow(runs: seq<Run>, allowed: set<nat>, b: nat) {
    forall x: nat :: Holds(runs, x) <==> x < b && x < 128 && x !in allowed
  }

  lemma CloseRun(runs: seq<Run>, allowed: set<nat>, start: nat, b: nat)
    requires Apart(runs) && HoldBelow(runs, allowed, start) && start < b <= 128
    requires forall x :: start <= x < b ==> x !in allowed
    requires runs != [] ==> runs[|runs| - 1].last + 1 < start
    ensures Apart(runs + [Run(start, b - 1)]) && HoldBelow(runs + [Run(start, b - 1)], allowed, b)
  {
    hide Holds;
    var r := Run(start, b - 1);
    forall x: nat
      ensures Holds(runs + [r], x) <==> x < b && x < 128 && x !in allowed
    {
      HoldsMore(runs, r, x);
      assert start <= x < b <==> r.first <= x <= r.last;
    }
  }

  method RunsLeftOut(allowed: set<nat>) returns (runs: seq<Run>)
    ensures Apart(runs)
    ensures HoldBelow(runs, allowed, 128)
  {
    hide Holds;
    runs := [];
    var start: Option<nat> := None;
    NoneHeld(allowed);
    for b := 0 to 129
      invariant Apart(runs) && HoldBelow(runs, allowed, if start.Some? then start.value else b)
      invariant start.Some? ==> start.value < b <= 128 && forall x :: start.value <= x < b ==> x !in allowed
      invariant runs != [] ==> runs[|runs| - 1].last + 1 < if start.Some? then start.value else b
      invariant start.None? && b > 0 ==> b - 1 >= 128 || b - 1 in allowed
    {
      if b < 128 && b !in allowed {
        if start.None? {
          start := Some(b);
        }
      } else if start.Some? {
        CloseRun(runs, allowed, start.value, b);
        runs := runs + [Run(start.value, b - 1)];
        start := None;
      }
    }
  }

  lemma NoneHeld(allowed: set<nat>)
    ensures HoldBelow([], allowed, 0)
  {
  }

  function Byte(b: nat): char
    requires b < 128
  {
    b as char
  }

  function Ranges(runs: seq<Run>): seq<Range>
    requires forall i :: 0 <= i < |runs| ==> runs[i].first < 128 && runs[i].last < 128
  {
    seq(|runs|, i requires 0 <= i < |runs| => Range(Byte(runs[i].first), Byte(runs[i].last)))
  }

  const BEYOND_ASCII := Class(true, [Range(Byte(0), Byte(127))])

  predicate IsBetween(lo: nat, b: nat, hi: nat) { lo <= b <= hi }

  /** Python's `range`, its end included. */
  function Between(lo: nat, hi: nat): set<nat> {
    set b: nat | b <= hi && IsBetween(lo, b, hi)
  }

  lemma HighBytes(allowed: set<nat>, parts: seq<Part>, high: set<nat>)
    requires forall b: nat :: b in allowed <==> Allowed(parts, b)
    requires high == set b | b in allowed && 128 <= b < 256
    ensures high == Between(128, 255) <==> Beyond(parts, true)
    ensures high == {} <==> Beyond(parts, false)
  {
    forall b: nat | 128 <= b < 256
      ensures b in high <==> Allowed(parts, b)
    {
    }
    assert forall b :: b in high ==> b in Between(128, 255);
    assert forall b: nat :: 128 <= b < 256 ==> IsBetween(128, b, 255) && b in Between(128, 255);
    if high == Between(128, 255) {
      assert forall b: nat :: 128 <= b < 256 ==> b in high;
    }
  }

  ghost predicate Collected(bytes: set<nat>, parts: seq<Part>) {
    forall b: nat :: b in bytes <==> Allowed(parts, b)
  }

  /** The bytes of one part. */
  function BytesOf(p: Part): set<nat> {
    match p
    case One(lo) => {lo}
    case Span(lo, hi) => Between(lo, hi)
    case _ => {}
  }

  lemma BytesOfHold(p: Part, b: nat)
    ensures b in BytesOf(p) <==> Within(p, b)
  {
  }

  lemma NoneCollected()
    ensures Collected({}, [])
  {
  }

  lemma CollectMore(bytes: set<nat>, parts: seq<Part>, i: nat)
    requires i < |parts| && Collected(bytes, parts[..i])
    ensures Collected(bytes + BytesOf(parts[i]), parts[..i + 1])
  {
    hide BytesOf, Allowed, Within;
    forall b: nat
      ensures b in bytes + BytesOf(parts[i]) <==> Allowed(parts[..i + 1], b)
    {
      AllowedMore(parts, i, b);
      BytesOfHold(parts[i], b);
    }
  }

  method ReadParts(arg: string) returns (allowed: Option<set<nat>>)
    ensures allowed.None? <==> Unreadable in Parts(arg)
    ensures allowed.Some? ==> Collected(allowed.value, Parts(arg))
  {
    var pieces := Split(arg, ',');
    ghost var parts := PartsOf(pieces);
    hide PartOf, Between, Split, Collected;
    NoneCollected();
    var bytes: set<nat> := {};
    for i := 0 to |pieces|
      invariant Unreadable !in parts[..i] && Collected(bytes, parts[..i])
    {
      CollectMore(bytes, parts, i);
      assert parts[..i + 1] == parts[..i] + [parts[i]];
      match PartOf(pieces[i]) {
        case Blank => assert bytes + {} == bytes;
        case One(lo) => bytes := bytes + {lo};
        case Span(lo, hi) => bytes := bytes + Between(lo, hi);
        case Unreadable => return None;
      }
    }
    assert parts[..|parts|] == parts;
    allowed := Some(bytes);
  }

  lemma AllowedMore(parts: seq<Part>, i: nat, b: nat)
    requires i < |parts|
    ensures Allowed(parts[..i + 1], b) <==> Allowed(parts[..i], b) || Within(parts[i], b)
  {
    if Allowed(parts[..i], b) {
      var j :| 0 <= j < i && Within(parts[..i][j], b);
      assert parts[..i + 1][j] == parts[j];
    }
    if Within(parts[i], b) {
      assert parts[..i + 1][i] == parts[i];
    }
  }

  method ByteRangePattern(arg: string) returns (pattern: Option<Re>)
    ensures pattern.None? <==> Refused(Parts(arg))
    ensures pattern.Some? ==> forall s :: Found(pattern.value, s) <==> HoldsOtherByte(s, Parts(arg))
  {
    ghost var parts := Parts(arg);
    hide Parts;
    var read := ReadParts(arg);
    if read.None? {
      return None;
    }
    var allowed := read.value;
    var high := set b | b in allowed && 128 <= b < 256;
    var every := Between(128, 255);
    HighBytes(allowed, parts, high);
    if high != {} && high != every {
      return None;
    }
    var runs := RunsLeftOut(allowed);
    RunsAreAscii(runs, allowed);
    var alts := (if runs != [] then [Class(false, Ranges(runs))] else [])
              + (if high != {} then [] else [BEYOND_ASCII]);
    NothingLeftOut(runs, allowed, parts, high != {});
    if alts == [] {
      return None;
    }
    forall s
      ensures Found(Alternatives(alts), s) <==> HoldsOtherByte(s, parts)
    {
      PatternFindsByte(runs, allowed, parts, high != {}, s);
    }
    pattern := Some(Alternatives(alts));
  }

  lemma RunsAreAscii(runs: seq<Run>, allowed: set<nat>)
    requires Apart(runs) && HoldBelow(runs, allowed, 128)
    ensures forall i :: 0 <= i < |runs| ==> runs[i].first < 128 && runs[i].last < 128
  {
    forall i | 0 <= i < |runs|
      ensures runs[i].first < 128 && runs[i].last < 128
    {
      assert Holds(runs, runs[i].first) && Holds(runs, runs[i].last);
    }
  }

  lemma NothingLeftOut(runs: seq<Run>, allowed: set<nat>, parts: seq<Part>, high: bool)
    requires Apart(runs) && HoldBelow(runs, allowed, 128)
    requires forall b: nat :: b in allowed <==> Allowed(parts, b)
    requires Beyond(parts, high)
    ensures runs == [] && high <==> forall b: nat :: b < 256 ==> Allowed(parts, b)
  {
    if runs != [] {
      assert Holds(runs, runs[0].first);
    } else if high {
      forall b: nat | b < 256
        ensures Allowed(parts, b)
      {
        if b < 128 { assert !Holds(runs, b); }
      }
    } else {
      assert !Allowed(parts, 128);
    }
  }

  // ─── What the pattern finds ──────────────────────────────

  lemma RangesHold(runs: seq<Run>, c: char)
    requires forall i :: 0 <= i < |runs| ==> runs[i].first < 128 && runs[i].last < 128
    ensures InRanges(c, Ranges(runs)) <==> Holds(runs, c as int)
  {
    var ranges := Ranges(runs);
    if InRanges(c, ranges) {
      var i :| 0 <= i < |ranges| && ranges[i].lo <= c <= ranges[i].hi;
      assert runs[i].first <= c as int <= runs[i].last;
    }
    if Holds(runs, c as int) {
      var i :| 0 <= i < |runs| && runs[i].first <= c as int <= runs[i].last;
      assert ranges[i].lo <= c <= ranges[i].hi;
    }
  }

  lemma BytesBeyondAscii(c: char)
    ensures c as int < 128 ==> Utf8(c) == [c as int]
    ensures c as int >= 128 ==> Utf8(c) != [] && forall k :: 0 <= k < |Utf8(c)| ==> 128 <= Utf8(c)[k] < 256
  {
  }

  /** What one character's bytes come to. */
  lemma OtherByteIs(c: char, parts: seq<Part>, high: bool)
    requires Beyond(parts, high)
    ensures OtherByte(c, parts) <==> if c as int < 128 then !Allowed(parts, c as int) else !high
  {
    BytesBeyondAscii(c);
    if c as int < 128 {
      assert Utf8(c)[0] == c as int;
    } else {
      assert 128 <= Utf8(c)[0] < 256;
    }
  }

  /** A pattern of single characters is found where one of them is. */
  lemma FoundOneChar(alts: seq<Re>, s: string)
    requires alts != [] && forall a :: 0 <= a < |alts| ==> OneChar(alts[a])
    ensures Found(Alternatives(alts), s) <==>
            exists i, a :: 0 <= i < |s| && 0 <= a < |alts| && Accepts(alts[a], s[i])
  {
    hide M;
    if Found(Alternatives(alts), s) {
      var i: nat, j: nat :| i <= j <= |s| && M(Alternatives(alts), s, i, j);
      InAlternatives(alts, s, i, j);
      var a :| 0 <= a < |alts| && M(alts[a], s, i, j);
      OneCharMatch(alts[a], s, i, j);
    }
    if exists i, a :: 0 <= i < |s| && 0 <= a < |alts| && Accepts(alts[a], s[i]) {
      var i, a :| 0 <= i < |s| && 0 <= a < |alts| && Accepts(alts[a], s[i]);
      OneCharMatch(alts[a], s, i, i + 1);
      InAlternatives(alts, s, i, i + 1);
    }
  }

  lemma PatternFindsByte(runs: seq<Run>, allowed: set<nat>, parts: seq<Part>, high: bool, s: string)
    requires Apart(runs) && HoldBelow(runs, allowed, 128)
    requires forall i :: 0 <= i < |runs| ==> runs[i].first < 128 && runs[i].last < 128
    requires forall b: nat :: b in allowed <==> Allowed(parts, b)
    requires Beyond(parts, high) && (runs != [] || !high)
    ensures var alts := (if runs != [] then [Class(false, Ranges(runs))] else [])
                        + (if high then [] else [BEYOND_ASCII]);
            Found(Alternatives(alts), s) <==> HoldsOtherByte(s, parts)
  {
    hide Found, Alternatives, Allowed, Beyond, Utf8, Holds, OtherByte;
    var ascii := if runs != [] then [Class(false, Ranges(runs))] else [];
    var alts := ascii + (if high then [] else [BEYOND_ASCII]);
    FoundOneChar(alts, s);
    forall i | 0 <= i < |s|
      ensures OtherByte(s[i], parts) <==> exists a :: 0 <= a < |alts| && Accepts(alts[a], s[i])
    {
      OtherByteIs(s[i], parts, high);
      RangesHold(runs, s[i]);
      BeyondAccepts(s[i]);
      NoRuns(runs, s[i] as int);
      if runs != [] { assert alts[0] == Class(false, Ranges(runs)); }
      if !high { assert alts[|alts| - 1] == BEYOND_ASCII; }
    }
  }

  lemma NoRuns(runs: seq<Run>, b: nat)
    ensures runs == [] ==> !Holds(runs, b)
  {
  }

  lemma BeyondAccepts(c: char)
    ensures Accepts(BEYOND_ASCII, c) <==> c as int >= 128
  {
    if c as int < 128 { assert BEYOND_ASCII.ranges[0].lo <= c <= BEYOND_ASCII.ranges[0].hi; }
  }
}
