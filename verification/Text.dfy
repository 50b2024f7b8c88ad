/** The string operations the log line and the forwarded header are taken apart
    with, on sequences of Unicode scalar values. */
module Text {
  import opened Options
  import opened Sorting

  /** Unicode's White_Space property. */
  predicate IsSpace(c: char) {
    var n := c as int;
    9 <= n <= 13 || n == 0x20 || n == 0x85 || n == 0xA0 || n == 0x1680 || 0x2000 <= n <= 0x200A
    || n == 0x2028 || n == 0x2029 || n == 0x202F || n == 0x205F || n == 0x3000
  }

  predicate AllSpace(s: string) {
    forall i :: 0 <= i < |s| ==> IsSpace(s[i])
  }

  // ─── Trimming ────────────────────────────────────────────

  function TrimStart(s: string): string {
    if s != "" && IsSpace(s[0]) then TrimStart(s[1..]) else s
  }

  function TrimEnd(s: string): string {
    if s != "" && IsSpace(s[|s| - 1]) then TrimEnd(s[..|s| - 1]) else s
  }

  function Trim(s: string): string { TrimEnd(TrimStart(s)) }

  /** What trimming removes is blank, and nothing blank is left at either end. */
  lemma {:induction false} TrimStartKeeps(s: string) returns (n: nat)
    ensures n <= |s| && AllSpace(s[..n]) && TrimStart(s) == s[n..]
  {
    if s != "" && IsSpace(s[0]) {
      var k := TrimStartKeeps(s[1..]);
      n := k + 1;
      assert s[..n] == [s[0]] + s[1..][..k];
    } else {
      n := 0;
    }
  }

  lemma {:induction false} TrimEndKeeps(s: string) returns (n: nat)
    ensures n <= |s| && AllSpace(s[n..]) && TrimEnd(s) == s[..n]
  {
    if s != "" && IsSpace(s[|s| - 1]) {
      n := TrimEndKeeps(s[..|s| - 1]);
      assert s[n..] == s[..|s| - 1][n..] + [s[|s| - 1]];
    } else {
      n := |s|;
    }
  }

  lemma {:induction false} TrimStartOfLonger(s: string, c: char)
    requires IsSpace(c)
    ensures TrimStart(s + [c]) == if TrimStart(s) == "" then "" else TrimStart(s) + [c]
  {
    if s == "" {
      assert TrimStart([c]) == TrimStart([c][1..]);
    } else {
      assert (s + [c])[1..] == s[1..] + [c];
      if IsSpace(s[0]) { TrimStartOfLonger(s[1..], c); }
    }
  }

  /** Blank characters around a text make no difference to it trimmed. */
  lemma TrimSkipsSpace(s: string, c: char)
    requires IsSpace(c)
    ensures Trim([c] + s) == Trim(s)
    ensures Trim(s + [c]) == Trim(s)
  {
    assert ([c] + s)[1..] == s;
    TrimStartOfLonger(s, c);
    var t := TrimStart(s);
    assert (t + [c])[..|t + [c]| - 1] == t;
  }

  lemma {:induction false} TrimAround(before: string, s: string, after: string)
    requires AllSpace(before) && AllSpace(after)
    ensures Trim(before + s + after) == Trim(s)
    decreases |before| + |after|
  {
    hide IsSpace, Trim;
    if before != "" {
      assert before + s + after == [before[0]] + (before[1..] + s + after);
      TrimSkipsSpace(before[1..] + s + after, before[0]);
      TrimAround(before[1..], s, after);
    } else if after != "" {
      var n := |after| - 1;
      assert before + s + after == (before + s + after[..n]) + [after[n]];
      TrimSkipsSpace(before + s + after[..n], after[n]);
      TrimAround(before, s, after[..n]);
    } else {
      assert before + s + after == s;
    }
  }

  lemma TrimTight(s: string)
    requires s != "" && !IsSpace(s[0]) && !IsSpace(s[|s| - 1])
    ensures Trim(s) == s
  {
  }

  /** A text all blank is nothing when trimmed. */
  lemma TrimBlank(s: string)
    requires AllSpace(s)
    ensures Trim(s) == ""
  {
    hide IsSpace;
    TrimAround(s, "", "");
    assert s + "" + "" == s && Trim("") == "";
  }

  // ─── Splitting and joining ───────────────────────────────

  /** One more character in front of pieces already split. */
  function Onto(c: char, sep: char, pieces: seq<string>): (more: seq<string>)
    requires |pieces| >= 1
    ensures |more| >= 1
  {
    if c == sep then [""] + pieces else [[c] + pieces[0]] + pieces[1..]
  }

  function Split(s: string, sep: char): (pieces: seq<string>)
    ensures |pieces| >= 1
  {
    if s == "" then [""] else Onto(s[0], sep, Split(s[1..], sep))
  }

  /** A text without the separator is one piece. */
  lemma {:induction false} SplitOfOne(s: string, sep: char)
    requires sep !in s
    ensures Split(s, sep) == [s]
  {
    if s != "" {
      SplitOfOne(s[1..], sep);
      assert [s[0]] + s[1..] == s;
    }
  }

  lemma OntoFirst(c: char, sep: char, p: seq<string>, q: seq<string>)
    requires |p| >= 1
    ensures Onto(c, sep, p + q) == Onto(c, sep, p) + q
  {
    assert (p + q)[1..] == p[1..] + q;
  }

  lemma {:induction false} SplitAround(a: string, sep: char, b: string)
    ensures Split(a + [sep] + b, sep) == Split(a, sep) + Split(b, sep)
  {
    var whole := a + [sep] + b;
    if a == "" {
      assert whole[0] == sep && whole[1..] == b;
    } else {
      hide Onto;
      assert whole[0] == a[0] && whole[1..] == a[1..] + [sep] + b;
      SplitAround(a[1..], sep, b);
      OntoFirst(a[0], sep, Split(a[1..], sep), Split(b, sep));
    }
  }

  /** The last piece with one more character. */
  function Longer(pieces: seq<string>, c: char): seq<string>
    requires |pieces| >= 1
  {
    pieces[..|pieces| - 1] + [pieces[|pieces| - 1] + [c]]
  }

  lemma OntoLonger(d: char, sep: char, r: seq<string>, c: char)
    requires |r| >= 1
    ensures Onto(d, sep, Longer(r, c)) == Longer(Onto(d, sep, r), c)
  {
    if d == sep {
      assert ([""] + r)[..|r|] == [""] + r[..|r| - 1];
    } else if |r| == 1 {
      assert [d] + (r[0] + [c]) == ([d] + r[0]) + [c];
    } else {
      var p := [[d] + r[0]] + r[1..];
      assert p[..|r| - 1] == [[d] + r[0]] + r[..|r| - 1][1..];
    }
  }

  lemma {:induction false} SplitOfLonger(s: string, sep: char, c: char)
    requires c != sep
    ensures Split(s + [c], sep) == Longer(Split(s, sep), c)
  {
    if s == "" {
      assert s + [c] == [c] && [c][1..] == "" && [c] + "" == [c] == "" + [c];
      assert Split([c], sep) == Onto(c, sep, [""]);
    } else {
      hide Onto, Longer;
      assert (s + [c])[1..] == s[1..] + [c];
      SplitOfLonger(s[1..], sep, c);
      OntoLonger(s[0], sep, Split(s[1..], sep), c);
    }
  }

  function Join(parts: seq<string>, between: string): string {
    if parts == [] then ""
    else if |parts| == 1 then parts[0]
    else parts[0] + between + Join(parts[1..], between)
  }

  // ─── Cutting at a character ──────────────────────────────

  /** Everything before the first `c`, when there is one. */
  function Before(s: string, c: char): (b: Option<string>)
    ensures b.Some? ==> |b.value| < |s|
  {
    if s == "" then None
    else if s[0] == c then Some("")
    else match Before(s[1..], c) case Some(b) => Some([s[0]] + b) case None => None
  }

  /** Everything before the last `c`, when there is one. */
  function BeforeLast(s: string, c: char): Option<string> {
    if s == "" then None
    else if s[|s| - 1] == c then Some(s[..|s| - 1])
    else BeforeLast(s[..|s| - 1], c)
  }

  lemma {:induction false} NoneBefore(s: string, c: char)
    requires forall i :: 0 <= i < |s| ==> s[i] != c
    ensures Before(s, c) == None
  {
    if s != "" { NoneBefore(s[1..], c); }
  }

  lemma {:induction false} UpTo(a: string, c: char, b: string)
    requires forall i :: 0 <= i < |a| ==> a[i] != c
    ensures Before(a + [c] + b, c) == Some(a)
  {
    var s := a + [c] + b;
    if a == "" {
      assert s[0] == c;
    } else {
      UpTo(a[1..], c, b);
      assert s[0] == a[0] && s[1..] == a[1..] + [c] + b;
      assert [a[0]] + a[1..] == a;
    }
  }

  lemma {:induction false} NoneBeforeLast(s: string, c: char)
    requires c !in s
    ensures BeforeLast(s, c) == None
  {
    if s != "" { NoneBeforeLast(s[..|s| - 1], c); }
  }

  lemma {:induction false} UpToLast(a: string, c: char, b: string)
    requires forall i :: 0 <= i < |b| ==> b[i] != c
    ensures BeforeLast(a + [c] + b, c) == Some(a)
  {
    var s := a + [c] + b;
    var n := |s| - 1;
    if b == "" {
      assert s[..n] == a;
    } else {
      assert s[n] == b[|b| - 1];
      assert s[..n] == a + [c] + b[..|b| - 1];
      UpToLast(a, c, b[..|b| - 1]);
    }
  }

  // ─── Order ───────────────────────────────────────────────

  /** The order of strings, character by character. */
  predicate StringLe(a: string, b: string) {
    a == "" || (b != "" && (a[0] < b[0] || (a[0] == b[0] && StringLe(a[1..], b[1..]))))
  }

  lemma {:induction false} StringLeTotal(a: string, b: string)
    ensures StringLe(a, b) || StringLe(b, a)
    ensures StringLe(a, b) && StringLe(b, a) ==> a == b
  {
    if a != "" && b != "" {
      StringLeTotal(a[1..], b[1..]);
      assert a == [a[0]] + a[1..] && b == [b[0]] + b[1..];
    }
  }

  lemma {:induction false} StringLeTransitive(a: string, b: string, c: string)
    requires StringLe(a, b) && StringLe(b, c)
    ensures StringLe(a, c)
  {
    if a != "" && a[0] == b[0] == c[0] { StringLeTransitive(a[1..], b[1..], c[1..]); }
  }

  lemma SameHead(c: char, a: string, b: string)
    ensures StringLe([c] + a, [c] + b) <==> StringLe(a, b)
  {
    assert ([c] + a)[1..] == a && ([c] + b)[1..] == b;
  }

  lemma HeadsDecide(a: string, b: string)
    requires a == "" || b == "" || a[0] != b[0]
    ensures StringLe(a, b) <==> a == "" || (b != "" && a[0] < b[0])
  {
  }

  /** The first difference decides, and a text comes before what continues it. */
  lemma {:induction false} FirstDifferenceDecides(same: string, a: string, b: string)
    requires a == "" || b == "" || a[0] != b[0]
    ensures StringLe(same + a, same + b) <==> a == "" || (b != "" && a[0] < b[0])
  {
    hide StringLe;
    if same == "" {
      assert same + a == a && same + b == b;
      HeadsDecide(a, b);
    } else {
      FirstDifferenceDecides(same[1..], a, b);
      SameHead(same[0], same[1..] + a, same[1..] + b);
      assert same + a == [same[0]] + (same[1..] + a) && same + b == [same[0]] + (same[1..] + b);
    }
  }

  lemma StringLeOrders()
    ensures TotalPreorder(StringLe) && Antisymmetric(StringLe)
  {
    forall a: string, b: string
      ensures StringLe(a, b) || StringLe(b, a)
      ensures StringLe(a, b) && StringLe(b, a) ==> a == b
    {
      StringLeTotal(a, b);
    }
    forall a: string, b: string, c: string | StringLe(a, b) && StringLe(b, c)
      ensures StringLe(a, c)
    {
      StringLeTransitive(a, b, c);
    }
  }
}
