/** Values in a `key=value` log line and the parser a collector has to have
    (src/logging.rs, `field` and the wire format's reference parser). */
module LogLine {
  import opened Options
  import opened Text

  // ─── Writing ─────────────────────────────────────────────

  /** Every occurrence of `from`, from the left and never overlapping, replaced. */
  function Replace(s: string, from: string, to: string): string
    requires from != ""
    decreases |s|
  {
    if |s| < |from| then s
    else if s[..|from|] == from then to + Replace(s[|from|..], from, to)
    else [s[0]] + Replace(s[1..], from, to)
  }

  predicate Splits(c: char) { IsSpace(c) || c == '"' || c == '=' || c == '\\' }

  predicate Dirty(value: string) {
    value == "" || exists i :: 0 <= i < |value| && Splits(value[i])
  }

  function Quoted(value: string): string {
    "\"" + Replace(Replace(value, "\\", "\\\\"), "\"", "\\\"") + "\""
  }

  function Field(value: string): string {
    if Dirty(value) then Quoted(value) else value
  }

  const ELLIPSIS: char := '\U{2026}'

  function Clip(value: string, max: nat): string {
    if |value| <= max then value else value[..max] + [ELLIPSIS]
  }

  type Pair = (string, string)

  function Part(f: Pair): string { f.0 + "=" + Field(f.1) }

  function Parts(fields: seq<Pair>): seq<string> {
    if fields == [] then [] else [Part(fields[0])] + Parts(fields[1..])
  }

  function Line(fields: seq<Pair>): string { Join(Parts(fields), " ") }

  // ─── Reading ─────────────────────────────────────────────

  /** The reader in the middle of a line. */
  datatype Scan = Scan(toks: seq<string>, buf: string, quoted: bool, esc: bool)

  function See(s: Scan, c: char): Scan {
    if s.esc then s.(buf := s.buf + [c], esc := false)
    else if c == '\\' && s.quoted then s.(buf := s.buf + [c], esc := true)
    else if c == '"' then s.(quoted := !s.quoted, buf := s.buf + [c])
    else if IsSpace(c) && !s.quoted then
      if s.buf != "" then s.(toks := s.toks + [s.buf], buf := "") else s
    else s.(buf := s.buf + [c])
  }

  function Run(s: Scan, line: string): Scan
    decreases |line|
  {
    if line == "" then s else Run(See(s, line[0]), line[1..])
  }

  const START := Scan([], "", false, false)

  function Tokens(line: string): seq<string> {
    var end := Run(START, line);
    if end.buf == "" then end.toks else end.toks + [end.buf]
  }

  function Unquoted(v: string): string {
    if |v| >= 2 && v[0] == '"' && v[|v| - 1] == '"'
    then Replace(Replace(v[1..|v| - 1], "\\\"", "\""), "\\\\", "\\")
    else v
  }

  /** Each token's key and value, the last one counting; a token without `=` is
      passed over. */
  function FieldsOf(toks: seq<string>): map<string, string> {
    if toks == [] then map[]
    else
      var before, t := FieldsOf(toks[..|toks| - 1]), toks[|toks| - 1];
      match Before(t, '=')
      case None => before
      case Some(k) => before[k := Unquoted(t[|k| + 1..])]
  }

  function Parsed(line: string): map<string, string> { FieldsOf(Tokens(line)) }

  lemma {:induction false} RunJoin(s: Scan, a: string, b: string)
    ensures Run(s, a + b) == Run(Run(s, a), b)
    decreases |a|
  {
    hide See;
    if a == "" {
      assert a + b == b;
    } else {
      assert (a + b)[0] == a[0] && (a + b)[1..] == a[1..] + b;
      RunJoin(See(s, a[0]), a[1..], b);
    }
  }

  lemma RunOne(s: Scan, c: char)
    ensures Run(s, [c]) == See(s, c)
  {
    hide See;
    assert [c][1..] == "";
    assert Run(See(s, c), "") == See(s, c);
  }

  method Tokenise(line: string) returns (toks: seq<string>)
    ensures toks == Tokens(line)
  {
    var buf, quoted, esc := "", false, false;
    toks := [];
    for i := 0 to |line|
      invariant Run(START, line[..i]) == Scan(toks, buf, quoted, esc)
    {
      var ch := line[i];
      RunJoin(START, line[..i], [ch]);
      RunOne(Scan(toks, buf, quoted, esc), ch);
      assert line[..i + 1] == line[..i] + [ch];
      if esc {
        buf, esc := buf + [ch], false;
      } else if ch == '\\' && quoted {
        buf, esc := buf + [ch], true;
      } else if ch == '"' {
        quoted, buf := !quoted, buf + [ch];
      } else if IsSpace(ch) && !quoted {
        if buf != "" {
          toks, buf := toks + [buf], "";
        }
      } else {
        buf := buf + [ch];
      }
    }
    assert line[..|line|] == line;
    if buf != "" {
      toks := toks + [buf];
    }
  }

  method Parse(line: string) returns (out: map<string, string>)
    ensures out == Parsed(line)
  {
    var toks := Tokenise(line);
    out := map[];
    for i := 0 to |toks|
      invariant out == FieldsOf(toks[..i])
    {
      var t := toks[i];
      assert toks[..i + 1][..i] == toks[..i];
      match Before(t, '=') {
        case None =>
        case Some(k) =>
          out := out[k := Unquoted(t[|k| + 1..])];
      }
    }
    assert toks[..|toks|] == toks;
  }

  // ─── What quoting writes ─────────────────────────────────

  function EscapedChar(c: char): string {
    if c == '\\' then "\\\\" else if c == '"' then "\\\"" else [c]
  }

  /** A value with every backslash and quote escaped, one character at a time. */
  function Escaped(v: string): string {
    if v == "" then "" else EscapedChar(v[0]) + Escaped(v[1..])
  }

  /** Half way: backslashes only. */
  function Doubled(v: string): string {
    if v == "" then "" else (if v[0] == '\\' then "\\\\" else [v[0]]) + Doubled(v[1..])
  }

  lemma ReplaceHit(from: string, to: string, s: string)
    requires from != ""
    ensures Replace(from + s, from, to) == to + Replace(s, from, to)
  {
    var t := from + s;
    assert t[..|from|] == from && t[|from|..] == s;
  }

  lemma ReplaceSkip(c: char, s: string, from: string, to: string)
    requires from != "" && !(from <= [c] + s)
    ensures Replace([c] + s, from, to) == [c] + Replace(s, from, to)
  {
    var t := [c] + s;
    assert t[0] == c && t[1..] == s;
    if |t| >= |from| { assert t[..|from|] != from; }
  }

  lemma {:induction false} DoublingIsReplacing(v: string)
    ensures Replace(v, "\\", "\\\\") == Doubled(v)
  {
    hide Replace;
    if v == "" {
      assert Replace(v, "\\", "\\\\") == "" by { ReplaceNothing("\\", "\\\\"); }
    } else {
      DoublingIsReplacing(v[1..]);
      assert v == [v[0]] + v[1..];
      if v[0] == '\\' {
        assert [v[0]] == "\\";
        ReplaceHit("\\", "\\\\", v[1..]);
      } else {
        ReplaceSkip(v[0], v[1..], "\\", "\\\\");
      }
    }
  }

  lemma ReplaceNothing(from: string, to: string)
    requires from != ""
    ensures Replace("", from, to) == ""
  {
  }

  lemma {:induction false} EscapingIsReplacing(v: string)
    ensures Replace(Doubled(v), "\"", "\\\"") == Escaped(v)
  {
    hide Replace;
    if v == "" {
      ReplaceNothing("\"", "\\\"");
    } else {
      var rest := Doubled(v[1..]);
      EscapingIsReplacing(v[1..]);
      if v[0] == '\\' {
        assert "\\\\" + rest == ['\\'] + (['\\'] + rest);
        assert (['\\'] + (['\\'] + rest))[0] != '"';
        ReplaceSkip('\\', ['\\'] + rest, "\"", "\\\"");
        assert (['\\'] + rest)[0] != '"';
        ReplaceSkip('\\', rest, "\"", "\\\"");
        assert ['\\'] + (['\\'] + Escaped(v[1..])) == "\\\\" + Escaped(v[1..]);
      } else if v[0] == '"' {
        assert [v[0]] == "\"";
        ReplaceHit("\"", "\\\"", rest);
      } else {
        assert ([v[0]] + rest)[0] != '"';
        ReplaceSkip(v[0], rest, "\"", "\\\"");
      }
    }
  }

  lemma QuotedIsEscaped(v: string)
    ensures Quoted(v) == "\"" + Escaped(v) + "\""
  {
    hide Replace, Escaped, Doubled;
    DoublingIsReplacing(v);
    EscapingIsReplacing(v);
  }

  /** A value is written bare exactly when it has something in it and nothing that is
      blank, a quote, an equals sign or a backslash; else in quotes, each quote and
      backslash behind a backslash. */
  lemma FieldIsBareIff(v: string)
    ensures Field(v) == v
            <==> v != "" && forall i :: 0 <= i < |v| ==> !IsSpace(v[i]) && v[i] != '"' && v[i] != '=' && v[i] != '\\'
    ensures Field(v) != v ==> Field(v) == "\"" + Escaped(v) + "\""
  {
    hide IsSpace, Replace;
    QuotedIsEscaped(v);
    EscapedIsAsLong(v);
  }

  lemma {:induction false} EscapedIsAsLong(v: string)
    ensures |Escaped(v)| >= |v|
  {
    if v != "" { EscapedIsAsLong(v[1..]); }
  }

  lemma EscapedStartsBare(v: string)
    ensures Escaped(v) == "" || Escaped(v)[0] != '"'
  {
  }

  lemma UndoneBackslash(rest: string)
    requires rest == "" || rest[0] != '"'
    ensures Replace("\\\\" + rest, "\\\"", "\"") == "\\\\" + Replace(rest, "\\\"", "\"")
  {
    hide Replace;
    var one := ['\\'] + rest;
    assert "\\\\" + rest == ['\\'] + one;
    assert (['\\'] + one)[1] == '\\';
    ReplaceSkip('\\', one, "\\\"", "\"");
    assert rest != "" ==> one[1] == rest[0];
    ReplaceSkip('\\', rest, "\\\"", "\"");
    var done := Replace(rest, "\\\"", "\"");
    assert ['\\'] + (['\\'] + done) == "\\\\" + done;
  }

  /** Undoing the quotes alone leaves the backslashes doubled. */
  lemma {:induction false} QuotesUndone(v: string)
    ensures Replace(Escaped(v), "\\\"", "\"") == Doubled(v)
  {
    hide Replace;
    if v == "" {
      ReplaceNothing("\\\"", "\"");
    } else {
      var rest := Escaped(v[1..]);
      QuotesUndone(v[1..]);
      EscapedStartsBare(v[1..]);
      if v[0] == '\\' {
        UndoneBackslash(rest);
      } else if v[0] == '"' {
        ReplaceHit("\\\"", "\"", rest);
      } else {
        assert ([v[0]] + rest)[0] != '\\';
        ReplaceSkip(v[0], rest, "\\\"", "\"");
      }
    }
  }

  lemma {:induction false} BackslashesUndone(v: string)
    ensures Replace(Doubled(v), "\\\\", "\\") == v
  {
    hide Replace;
    if v == "" {
      ReplaceNothing("\\\\", "\\");
    } else {
      var rest := Doubled(v[1..]);
      BackslashesUndone(v[1..]);
      assert v == [v[0]] + v[1..];
      if v[0] == '\\' {
        ReplaceHit("\\\\", "\\", rest);
      } else {
        assert ([v[0]] + rest)[0] != '\\';
        ReplaceSkip(v[0], rest, "\\\\", "\\");
      }
    }
  }

  /** Two replacements one after the other undo what quoting did. */
  lemma UnquotedField(v: string)
    ensures Unquoted(Field(v)) == v
  {
    hide Replace, Escaped, Doubled;
    if Dirty(v) {
      QuotedIsEscaped(v);
      var q := "\"" + Escaped(v) + "\"";
      assert q[1..|q| - 1] == Escaped(v);
      QuotesUndone(v);
      BackslashesUndone(v);
    }
  }

  // ─── What the tokenizer reads ────────────────────────────

  /** Text with nothing in it that ends a token or starts a quote. */
  predicate Plain(t: string) {
    forall i :: 0 <= i < |t| ==> !IsSpace(t[i]) && t[i] != '"'
  }

  predicate Outside(s: Scan) { !s.quoted && !s.esc }

  lemma {:induction false} RunPlain(s: Scan, t: string)
    requires Outside(s) && Plain(t)
    ensures Run(s, t) == s.(buf := s.buf + t)
    decreases |t|
  {
    hide IsSpace;
    if t == "" {
      assert s.buf + t == s.buf;
    } else {
      RunPlain(See(s, t[0]), t[1..]);
      assert (s.buf + [t[0]]) + t[1..] == s.buf + t;
    }
  }

  lemma SeeEscaped(s: Scan, c: char)
    requires s.quoted && !s.esc
    ensures Run(s, EscapedChar(c)) == s.(buf := s.buf + EscapedChar(c))
  {
    var e := EscapedChar(c);
    if |e| == 2 {
      assert e == ['\\'] + [c];
      RunJoin(s, ['\\'], [c]);
      RunOne(s, '\\');
      RunOne(See(s, '\\'), c);
      assert (s.buf + ['\\']) + [c] == s.buf + e;
    } else {
      RunOne(s, c);
    }
  }

  /** Inside quotes nothing escaped ends the value. */
  lemma {:induction false} RunEscaped(s: Scan, v: string)
    requires s.quoted && !s.esc
    ensures Run(s, Escaped(v)) == s.(buf := s.buf + Escaped(v))
    decreases |v|
  {
    hide See, EscapedChar;
    if v == "" {
      assert s.buf + "" == s.buf;
    } else {
      var e, rest := EscapedChar(v[0]), Escaped(v[1..]);
      RunJoin(s, e, rest);
      SeeEscaped(s, v[0]);
      RunEscaped(s.(buf := s.buf + e), v[1..]);
      assert (s.buf + e) + rest == s.buf + (e + rest);
    }
  }

  lemma RunField(s: Scan, v: string)
    requires Outside(s)
    ensures Run(s, Field(v)) == s.(buf := s.buf + Field(v))
  {
    hide Run, Quoted, IsSpace, Escaped;
    if Dirty(v) {
      QuotedIsEscaped(v);
      var e := Escaped(v);
      assert "\"" + e + "\"" == ['"'] + (e + ['"']);
      RunJoin(s, ['"'], e + ['"']);
      RunOne(s, '"');
      var s1 := See(s, '"');
      RunJoin(s1, e, ['"']);
      RunEscaped(s1, v);
      RunOne(s1.(buf := s1.buf + e), '"');
      assert ((s.buf + ['"']) + e) + ['"'] == s.buf + (['"'] + (e + ['"']));
    } else {
      RunPlain(s, v);
    }
  }

  /** A key nothing in a line can be mistaken for the end of. */
  predicate CleanKey(k: string) {
    k != "" && forall i :: 0 <= i < |k| ==> !Splits(k[i])
  }

  ghost predicate CleanKeys(fields: seq<Pair>) {
    forall i :: 0 <= i < |fields| ==> CleanKey(fields[i].0)
  }

  lemma RunPart(s: Scan, f: Pair)
    requires Outside(s) && CleanKey(f.0)
    ensures Run(s, Part(f)) == s.(buf := s.buf + Part(f))
  {
    hide Run, Field, IsSpace;
    var k := f.0 + "=";
    NotSpace();
    RunJoin(s, k, Field(f.1));
    RunPlain(s, k);
    RunField(s.(buf := s.buf + k), f.1);
    assert (s.buf + k) + Field(f.1) == s.buf + Part(f);
  }

  lemma NotSpace()
    ensures !IsSpace('=')
  {
  }

  /** Every field is one token, as written. */
  lemma {:induction false} RunLine(toks: seq<string>, fields: seq<Pair>)
    requires CleanKeys(fields) && fields != []
    ensures var p, n := Parts(fields), |fields| - 1;
            |p| == n + 1 && Run(Scan(toks, "", false, false), Line(fields)) == Scan(toks + p[..n], p[n], false, false)
    decreases |fields|
  {
    hide Run, See, Part, CleanKey;
    var first, rest := Part(fields[0]), Parts(fields[1..]);
    var s := Scan(toks, "", false, false);
    RunPart(s, fields[0]);
    assert "" + first == first;
    if |fields| == 1 {
      assert rest == [];
      assert Parts(fields) == [first];
      assert Line(fields) == first;
      assert toks + [first][..0] == toks;
    } else {
      RunLine(toks + [first], fields[1..]);
      assert Parts(fields) == [first] + rest && Parts(fields)[1..] == rest;
      assert Line(fields) == first + (" " + Line(fields[1..]));
      RunJoin(s, first, " " + Line(fields[1..]));
      RunJoin(s.(buf := first), " ", Line(fields[1..]));
      assert " " == [' '];
      RunOne(s.(buf := first), ' ');
      EndOfToken(toks, first, fields[0]);
      var p, n := Parts(fields), |fields| - 1;
      assert (toks + [first]) + rest[..n - 1] == toks + p[..n];
    }
  }

  lemma EndOfToken(toks: seq<string>, first: string, f: Pair)
    requires first == Part(f)
    ensures See(Scan(toks, first, false, false), ' ') == Scan(toks + [first], "", false, false)
  {
    assert first[|f.0|] == '=';
  }

  lemma TokensAtEnd(line: string, toks: seq<string>, last: string)
    requires Run(START, line) == Scan(toks, last, false, false) && last != ""
    ensures Tokens(line) == toks + [last]
  {
    hide Run;
  }

  lemma FrontAndLast(p: seq<string>)
    requires p != []
    ensures [] + p[..|p| - 1] + [p[|p| - 1]] == p
  {
  }

  lemma TokensOfSome(fields: seq<Pair>)
    requires CleanKeys(fields) && fields != []
    ensures Tokens(Line(fields)) == Parts(fields)
  {
    hide Part, CleanKey, CleanKeys, Line, Run, Parts, Tokens;
    var p, n := Parts(fields), |fields| - 1;
    LastPart(fields);
    RunLine([], fields);
    TokensAtEnd(Line(fields), [] + p[..n], p[n]);
    FrontAndLast(p);
  }

  lemma TokensOfLine(fields: seq<Pair>)
    requires CleanKeys(fields)
    ensures Tokens(Line(fields)) == Parts(fields)
  {
    hide CleanKeys;
    if fields == [] {
      assert Line(fields) == "" && Run(START, "") == START;
    } else {
      hide Line, Parts, Tokens;
      TokensOfSome(fields);
    }
  }

  lemma {:induction false} LastPart(fields: seq<Pair>)
    requires fields != []
    ensures |Parts(fields)| == |fields|
    ensures Parts(fields)[|fields| - 1] == Part(fields[|fields| - 1]) != ""
    ensures Parts(fields)[..|fields| - 1] == Parts(fields[..|fields| - 1])
  {
    if |fields| == 1 {
      assert Parts(fields[1..]) == [];
      assert Part(fields[0])[|fields[0].0|] == '=';
    } else {
      LastPart(fields[1..]);
      var n := |fields| - 1;
      assert fields[..n][1..] == fields[1..][..n - 1];
      assert Parts(fields)[..n] == [Part(fields[0])] + Parts(fields[1..])[..n - 1];
    }
  }

  // ─── What any line is read as ────────────────────────────

  /** What has been read before makes no difference to what is read. */
  lemma {:induction false} RunAfter(before: seq<string>, s: Scan, line: string)
    ensures Run(s.(toks := before + s.toks), line) == Run(s, line).(toks := before + Run(s, line).toks)
    decreases |line|
  {
    if line != "" {
      SeeAfter(before, s, line[0]);
      hide See;
      RunAfter(before, See(s, line[0]), line[1..]);
    }
  }

  lemma SeeAfter(before: seq<string>, s: Scan, c: char)
    ensures See(s.(toks := before + s.toks), c) == See(s, c).(toks := before + See(s, c).toks)
  {
    hide IsSpace;
    assert (before + s.toks) + [s.buf] == before + (s.toks + [s.buf]);
  }

  /** Blank space outside quotes parts any line in two that are read on their own. */
  lemma TokensApart(a: string, c: char, b: string)
    requires IsSpace(c) && Outside(Run(START, a))
    ensures Tokens(a + [c] + b) == Tokens(a) + Tokens(b)
  {
    var s := Run(START, a);
    hide Run;
    assert a + [c] + b == a + ([c] + b);
    RunJoin(START, a, [c] + b);
    RunJoin(s, [c], b);
    RunOne(s, c);
    NotQuote(c);
    assert See(s, c) == START.(toks := Tokens(a) + START.toks);
    RunAfter(Tokens(a), START, b);
    var end := Run(START, b);
    if end.buf != "" {
      assert (Tokens(a) + end.toks) + [end.buf] == Tokens(a) + (end.toks + [end.buf]);
    }
  }

  lemma NotQuote(c: char)
    requires IsSpace(c)
    ensures c != '"' && c != '\\'
  {
  }

  lemma TokensOfPlain(t: string)
    requires Plain(t) && t != ""
    ensures Tokens(t) == [t]
  {
    hide Plain, Run;
    RunPlain(START, t);
    assert "" + t == t;
  }

  /** One more word after any line that ends outside quotes, none in it itself: it
      says its key's value from here on, cut at the first equals sign, or nothing if
      it has none. */
  lemma WordRead(a: string, c: char, t: string)
    requires IsSpace(c) && Outside(Run(START, a)) && Plain(t) && t != ""
    ensures '=' !in t ==> Parsed(a + [c] + t) == Parsed(a)
    ensures forall k :: 0 <= k < |t| && t[k] == '=' && '=' !in t[..k] ==>
              Parsed(a + [c] + t) == Parsed(a)[t[..k] := t[k + 1..]]
  {
    hide IsSpace, Run, Tokens, Before;
    TokensApart(a, c, t);
    TokensOfPlain(t);
    var toks := Tokens(a);
    assert (toks + [t])[..|toks|] == toks;
    if '=' !in t {
      NoneBefore(t, '=');
    }
    forall k | 0 <= k < |t| && t[k] == '=' && '=' !in t[..k]
      ensures Before(t, '=') == Some(t[..k]) && Unquoted(t[k + 1..]) == t[k + 1..]
    {
      UpTo(t[..k], '=', t[k + 1..]);
      assert t[..k] + ['='] + t[k + 1..] == t;
    }
  }

  // ─── The round trip ──────────────────────────────────────

  /** What a line is meant to record, the last value of a key counting. */
  function Meant(fields: seq<Pair>): map<string, string> {
    if fields == [] then map[]
    else Meant(fields[..|fields| - 1])[fields[|fields| - 1].0 := fields[|fields| - 1].1]
  }

  lemma PartCut(f: Pair)
    requires CleanKey(f.0)
    ensures Before(Part(f), '=') == Some(f.0)
    ensures Part(f)[|f.0| + 1..] == Field(f.1)
  {
    hide Field, IsSpace;
    UpTo(f.0, '=', Field(f.1));
    assert f.0 + "=" + Field(f.1) == f.0 + ['='] + Field(f.1);
  }

  lemma NoParts()
    ensures Parts([]) == []
  {
  }

  lemma {:induction false} FieldsOfParts(fields: seq<Pair>)
    requires CleanKeys(fields)
    ensures FieldsOf(Parts(fields)) == Meant(fields)
  {
    hide Part, CleanKey, Unquoted, Field, Before, Parts;
    if fields == [] {
      NoParts();
    } else {
      var n := |fields| - 1;
      LastPart(fields);
      FieldsOfParts(fields[..n]);
      PartCut(fields[n]);
      UnquotedField(fields[n].1);
    }
  }

  /** Whatever the values are, the parser reads back what the line was written
      from. */
  lemma ParsedLineIsMeant(fields: seq<Pair>)
    requires CleanKeys(fields)
    ensures Parsed(Line(fields)) == Meant(fields)
  {
    hide FieldsOf, Meant, Parts, Line, Tokens, CleanKeys;
    TokensOfLine(fields);
    FieldsOfParts(fields);
  }

  ghost predicate DistinctKeys(fields: seq<Pair>) {
    forall i, j :: 0 <= i < j < |fields| ==> fields[i].0 != fields[j].0
  }

  lemma OneMoreKey(fields: seq<Pair>)
    requires fields != []
    ensures var n := |fields| - 1;
            (set f | f in fields :: f.0) == (set f | f in fields[..n] :: f.0) + {fields[n].0}
  {
    assert fields == fields[..|fields| - 1] + [fields[|fields| - 1]];
  }

  lemma {:induction false} MeantKeys(fields: seq<Pair>)
    ensures Meant(fields).Keys == set f | f in fields :: f.0
  {
    if fields != [] {
      MeantKeys(fields[..|fields| - 1]);
      OneMoreKey(fields);
    }
  }

  lemma {:induction false} MeantValue(fields: seq<Pair>, i: nat)
    requires DistinctKeys(fields) && i < |fields|
    ensures fields[i].0 in Meant(fields) && Meant(fields)[fields[i].0] == fields[i].1
  {
    var n := |fields| - 1;
    if i < n {
      assert fields[..n][i] == fields[i] && fields[i].0 != fields[n].0;
      MeantValue(fields[..n], i);
    }
  }

  lemma MeantIsEveryField(fields: seq<Pair>)
    requires DistinctKeys(fields)
    ensures Meant(fields).Keys == set f | f in fields :: f.0
    ensures forall i :: 0 <= i < |fields| ==> fields[i].0 in Meant(fields) && Meant(fields)[fields[i].0] == fields[i].1
  {
    MeantKeys(fields);
    hide Meant, DistinctKeys;
    forall i | 0 <= i < |fields|
      ensures fields[i].0 in Meant(fields) && Meant(fields)[fields[i].0] == fields[i].1
    {
      MeantValue(fields, i);
    }
  }

  /** No value adds a field, drops one or changes one. */
  lemma NoValueForgesAField(fields: seq<Pair>)
    requires CleanKeys(fields) && DistinctKeys(fields)
    ensures var read := Parsed(Line(fields));
            && read.Keys == (set f | f in fields :: f.0)
            && forall i :: 0 <= i < |fields| ==> fields[i].0 in read && read[fields[i].0] == fields[i].1
  {
    ParsedLineIsMeant(fields);
    MeantIsEveryField(fields);
  }

  // ─── The audit line ──────────────────────────────────────

  const MAX_PATH: nat := 256
  const MAX_DETAIL: nat := 256

  datatype Event = Event(
    ts: string, user: string, role: string, client: string, verb: string, path: string, status: string,
    outcome: string, ms: string, detail: string)

  /** The line an administrator's action is recorded with (src/audit.rs, `line`). */
  function AuditLine(e: Event): string {
    Join(["ts=" + e.ts, "user=" + Field(e.user), "role=" + Field(e.role), "client=" + Field(e.client),
          "method=" + Field(e.verb), "path=" + Field(Clip(e.path, MAX_PATH)), "status=" + e.status,
          "result=" + Field(e.outcome), "ms=" + e.ms]
         + (if e.detail == "" then [] else ["detail=" + Field(Clip(e.detail, MAX_DETAIL))]), " ")
  }

  function AuditFields(e: Event): seq<Pair> {
    [("ts", e.ts), ("user", e.user), ("role", e.role), ("client", e.client), ("method", e.verb),
     ("path", Clip(e.path, MAX_PATH)), ("status", e.status), ("result", e.outcome), ("ms", e.ms)]
    + if e.detail == "" then [] else [("detail", Clip(e.detail, MAX_DETAIL))]
  }

  /** The three values written as they are, a time and two numbers. */
  predicate Bare(e: Event) { !Dirty(e.ts) && !Dirty(e.status) && !Dirty(e.ms) }

  lemma PartsAre(fields: seq<Pair>, parts: seq<string>)
    requires |parts| == |fields| && forall i :: 0 <= i < |fields| ==> parts[i] == Part(fields[i])
    ensures Parts(fields) == parts
  {
    hide Part;
    if fields != [] { PartsAre(fields[1..], parts[1..]); }
  }

  lemma AuditLineIsLine(e: Event)
    requires Bare(e)
    ensures AuditLine(e) == Line(AuditFields(e))
  {
    hide Join, Dirty, Quoted, Clip;
    var parts := ["ts=" + e.ts, "user=" + Field(e.user), "role=" + Field(e.role), "client=" + Field(e.client),
                  "method=" + Field(e.verb), "path=" + Field(Clip(e.path, MAX_PATH)), "status=" + e.status,
                  "result=" + Field(e.outcome), "ms=" + e.ms]
                 + if e.detail == "" then [] else ["detail=" + Field(Clip(e.detail, MAX_DETAIL))];
    NamesAre();
    PartsAre(AuditFields(e), parts);
  }

  lemma NamesAre()
    ensures "ts" + "=" == "ts=" && "user" + "=" == "user=" && "role" + "=" == "role="
    ensures "client" + "=" == "client=" && "method" + "=" == "method=" && "path" + "=" == "path="
    ensures "status" + "=" == "status=" && "result" + "=" == "result=" && "ms" + "=" == "ms="
    ensures "detail" + "=" == "detail="
  {
  }

  ghost predicate AuditNames(fields: seq<Pair>) {
    && 9 <= |fields| <= 10
    && fields[0].0 == "ts" && fields[1].0 == "user" && fields[2].0 == "role" && fields[3].0 == "client"
    && fields[4].0 == "method" && fields[5].0 == "path" && fields[6].0 == "status"
    && fields[7].0 == "result" && fields[8].0 == "ms" && (|fields| == 10 ==> fields[9].0 == "detail")
  }

  lemma NamesAreClean(fields: seq<Pair>)
    requires AuditNames(fields)
    ensures CleanKeys(fields)
  {
  }

  /** A length and a first letter, which tell the names of an audit line apart. */
  function Code(name: string): int {
    if name == "" then 0 else 1000 * |name| + name[0] as int
  }

  lemma NamesAreDistinct(fields: seq<Pair>)
    requires AuditNames(fields)
    ensures DistinctKeys(fields)
  {
    assert Code("ts") == 2116 && Code("user") == 4117 && Code("role") == 4114 && Code("client") == 6099;
    assert Code("method") == 6109 && Code("path") == 4112 && Code("status") == 6115 && Code("result") == 6114;
    assert Code("ms") == 2109 && Code("detail") == 6100;
    hide Code;
    forall i, j | 0 <= i < j < |fields|
      ensures fields[i].0 != fields[j].0
    {
      assert Code(fields[i].0) != Code(fields[j].0);
    }
  }

  lemma KeysOf(fields: seq<Pair>)
    requires 9 <= |fields| <= 10
    ensures (set f | f in fields :: f.0)
            == {fields[0].0, fields[1].0, fields[2].0, fields[3].0, fields[4].0, fields[5].0, fields[6].0,
                fields[7].0, fields[8].0} + if |fields| == 10 then {fields[9].0} else {}
  {
  }

  /** A value as it was, or the first `max` characters of it and an ellipsis. */
  ghost predicate Shortened(value: string, short: string, max: nat) {
    if |value| <= max then short == value
    else |short| == max + 1 && short[..max] == value[..max] && short[max] == '\U{2026}'
  }

  lemma ClipShortens(value: string, max: nat)
    ensures Shortened(value, Clip(value, max), max)
  {
  }

  /** Reading an audit line back: who, from where, what and with which outcome,
      whatever was typed into any of it; a detail only when there is one. */
  lemma AuditLineReadsBack(e: Event)
    requires Bare(e)
    ensures var read := Parsed(AuditLine(e));
            && read.Keys == {"ts", "user", "role", "client", "method", "path", "status", "result", "ms"}
                            + (if e.detail == "" then {} else {"detail"})
            && read["user"] == e.user && read["role"] == e.role && read["client"] == e.client
            && read["method"] == e.verb && Shortened(e.path, read["path"], 256) && read["result"] == e.outcome
            && read["ts"] == e.ts && read["status"] == e.status && read["ms"] == e.ms
            && (e.detail != "" ==> Shortened(e.detail, read["detail"], 256))
  {
    hide AuditLine, Clip, Shortened, Bare, Parsed, Line, DistinctKeys, CleanKeys;
    AuditLineIsLine(e);
    var fields := AuditFields(e);
    NamesAreClean(fields);
    NamesAreDistinct(fields);
    NoValueForgesAField(fields);
    var read := Parsed(AuditLine(e));
    assert forall i :: 0 <= i < 9 ==> fields[i].0 in read && read[fields[i].0] == fields[i].1;
    KeysOf(fields);
    ClipShortens(e.path, MAX_PATH);
    ClipShortens(e.detail, MAX_DETAIL);
  }
}
