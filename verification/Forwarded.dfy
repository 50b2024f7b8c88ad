/** The client's address behind proxies, from `X-Forwarded-For`
    (src/forwarded.rs, `forwarded_for`, `resolve` and `normalise`). What text is
    an address is a parameter. */
module Forwarded {
  import opened Cidr
  import opened Options
  import opened Text

  /** How an address is read from text; a text that is none reads as nothing. */
  type Parser = string -> Option<Ip>

  ghost predicate ReadsValid(parse: Parser) {
    forall s :: parse(s).Some? ==> ValidIp(parse(s).value)
  }

  ghost predicate ValidBlocks(trusted: seq<Block>) {
    forall i :: 0 <= i < |trusted| ==> ValidBlock(trusted[i])
  }

  // ─── One hop ─────────────────────────────────────────────

  function TrimBrackets(s: string): string {
    if s != "" && s[0] == '[' then TrimBrackets(s[1..]) else s
  }

  predicate Mapped(ip: Ip)
    requires ValidIp(ip)
  {
    ip.V6? && (forall i :: 0 <= i < 10 ==> ip.octets[i] == 0) && ip.octets[10] == 255 && ip.octets[11] == 255
  }

  /** A mapped address is the IPv4 address in it. */
  function Unmapped(ip: Ip): (r: Ip)
    requires ValidIp(ip)
    ensures ValidIp(r)
  {
    if Mapped(ip) then V4(ip.octets[12..]) else ip
  }

  function Normalise(parse: Parser, s: string): (r: Option<Ip>)
    requires ReadsValid(parse)
    ensures r.Some? ==> ValidIp(r.value) && !Mapped(r.value)
  {
    var t := TrimBrackets(s);
    var inner := match Before(t, ']') case Some(b) => b case None => t;
    match parse(inner)
    case Some(ip) => Some(Unmapped(ip))
    case None =>
      match BeforeLast(inner, ':')
      case None => None
      case Some(host) =>
        match parse(host)
        case Some(ip) => Some(Unmapped(ip))
        case None => None
  }

  // ─── The chain ───────────────────────────────────────────

  /** The address of every piece that is one, in order. */
  function Addresses(parse: Parser, pieces: seq<string>): (hops: seq<Ip>)
    requires ReadsValid(parse)
    ensures forall i :: 0 <= i < |hops| ==> ValidIp(hops[i])
  {
    if pieces == [] then []
    else
      var rest := Addresses(parse, pieces[1..]);
      match Normalise(parse, Trim(pieces[0]))
      case Some(ip) => [ip] + rest
      case None => rest
  }

  function Hops(parse: Parser, raw: string): (hops: seq<Ip>)
    requires ReadsValid(parse)
    ensures forall i :: 0 <= i < |hops| ==> ValidIp(hops[i])
  {
    Addresses(parse, Split(raw, ','))
  }

  /** The header's lines that can be read as text and are not blank, trimmed. */
  function Lines(header: seq<Option<string>>): seq<string> {
    if header == [] then []
    else
      var rest := Lines(header[1..]);
      match header[0]
      case Some(line) => if Trim(line) == "" then rest else [Trim(line)] + rest
      case None => rest
  }

  function ForwardedFor(header: seq<Option<string>>): Option<string> {
    if Lines(header) == [] then None else Some(Join(Lines(header), ", "))
  }

  predicate Trusts(trusted: seq<Block>, ip: Ip)
    requires ValidBlocks(trusted) && ValidIp(ip)
  {
    exists i :: 0 <= i < |trusted| && Contains(trusted[i], ip)
  }

  /** The first hop from the right that is not a trusted proxy. */
  function FirstUntrusted(hops: seq<Ip>, trusted: seq<Block>): (r: Option<Ip>)
    requires ValidBlocks(trusted) && forall i :: 0 <= i < |hops| ==> ValidIp(hops[i])
    ensures r.Some? ==> r.value in hops
  {
    if hops == [] then None
    else if !Trusts(trusted, hops[|hops| - 1]) then Some(hops[|hops| - 1])
    else FirstUntrusted(hops[..|hops| - 1], trusted)
  }

  function Resolve(parse: Parser, peer: Ip, header: seq<Option<string>>, trusted: seq<Block>): (r: Ip)
    requires ReadsValid(parse) && ValidIp(peer) && ValidBlocks(trusted)
    ensures ValidIp(r)
  {
    if trusted == [] || !Trusts(trusted, peer) then peer
    else
      match ForwardedFor(header)
      case None => peer
      case Some(raw) =>
        var hops := Hops(parse, raw);
        if hops == [] then peer
        else
          match FirstUntrusted(hops, trusted)
          case Some(ip) => ip
          case None => hops[0]
  }

  // ─── Lines and commas ────────────────────────────────────

  lemma {:induction false} AddressesJoin(parse: Parser, p: seq<string>, q: seq<string>)
    requires ReadsValid(parse)
    ensures Addresses(parse, p + q) == Addresses(parse, p) + Addresses(parse, q)
  {
    hide Normalise, Trim, ReadsValid;
    if p == [] {
      assert p + q == q;
    } else {
      assert (p + q)[1..] == p[1..] + q;
      AddressesJoin(parse, p[1..], q);
    }
  }

  /** A comma between two texts: the hops of one, then of the other. */
  lemma HopsAround(parse: Parser, a: string, b: string)
    requires ReadsValid(parse)
    ensures Hops(parse, a + "," + b) == Hops(parse, a) + Hops(parse, b)
  {
    hide Addresses, ReadsValid, Split;
    SplitAround(a, ',', b);
    AddressesJoin(parse, Split(a, ','), Split(b, ','));
  }

  lemma HopsSkipSpace(parse: Parser, s: string, c: char)
    requires ReadsValid(parse) && IsSpace(c)
    ensures Hops(parse, [c] + s) == Hops(parse, s)
    ensures Hops(parse, s + [c]) == Hops(parse, s)
  {
    hide Normalise, ReadsValid, Trim;
    var p := Split(s, ',');
    assert ([c] + s)[1..] == s;
    assert Split([c] + s, ',') == [[c] + p[0]] + p[1..];
    TrimSkipsSpace(p[0], c);
    SplitOfLonger(s, ',', c);
    var n := |p| - 1;
    assert p == p[..n] + [p[n]];
    AddressesJoin(parse, p[..n], [p[n]]);
    AddressesJoin(parse, p[..n], [p[n] + [c]]);
    TrimSkipsSpace(p[n], c);
  }

  lemma {:induction false} HopsSkipSpaces(parse: Parser, space: string, s: string)
    requires ReadsValid(parse) && AllSpace(space)
    ensures Hops(parse, space + s) == Hops(parse, s)
    ensures Hops(parse, s + space) == Hops(parse, s)
    decreases |space|
  {
    hide Hops, ReadsValid, IsSpace;
    if space == "" {
      assert space + s == s && s + space == s;
    } else {
      var n := |space| - 1;
      assert space + s == [space[0]] + (space[1..] + s);
      HopsSkipSpace(parse, space[1..] + s, space[0]);
      HopsSkipSpaces(parse, space[1..], s);
      assert s + space == (s + space[..n]) + [space[n]];
      HopsSkipSpace(parse, s + space[..n], space[n]);
      HopsSkipSpaces(parse, space[..n], s);
    }
  }

  lemma HopsOfTrimmed(parse: Parser, s: string)
    requires ReadsValid(parse)
    ensures Hops(parse, Trim(s)) == Hops(parse, s)
  {
    hide Hops, ReadsValid, IsSpace, TrimStart, TrimEnd;
    var n := TrimStartKeeps(s);
    var t := s[n..];
    assert s == s[..n] + t;
    HopsSkipSpaces(parse, s[..n], t);
    var m := TrimEndKeeps(t);
    assert t == t[..m] + t[m..];
    HopsSkipSpaces(parse, t[m..], t[..m]);
  }

  /** Every line's hops, one line after another; an unreadable line has none. */
  function Chain(parse: Parser, header: seq<Option<string>>): (hops: seq<Ip>)
    requires ReadsValid(parse)
    ensures forall i :: 0 <= i < |hops| ==> ValidIp(hops[i])
  {
    if header == [] then []
    else (match header[0] case Some(line) => Hops(parse, line) case None => []) + Chain(parse, header[1..])
  }

  function Given(parse: Parser, header: seq<Option<string>>): (hops: seq<Ip>)
    requires ReadsValid(parse)
    ensures forall i :: 0 <= i < |hops| ==> ValidIp(hops[i])
  {
    match ForwardedFor(header)
    case None => []
    case Some(raw) => Hops(parse, raw)
  }

  lemma {:induction false} JoinIsChain(parse: Parser, header: seq<Option<string>>)
    requires ReadsValid(parse) && parse("").None?
    ensures Given(parse, header) == Chain(parse, header)
  {
    hide Hops, ReadsValid, Trim;
    if header != [] {
      JoinIsChain(parse, header[1..]);
      var rest := Lines(header[1..]);
      match header[0] {
        case None =>
        case Some(line) =>
          HopsOfTrimmed(parse, line);
          if Trim(line) == "" {
            NoHopsInNothing(parse);
          } else if rest == [] {
            assert Join([Trim(line)], ", ") == Trim(line);
          } else {
            var raw := Join(rest, ", ");
            var all := [Trim(line)] + rest;
            assert all[1..] == rest;
            assert Join(all, ", ") == Trim(line) + "," + (" " + raw);
            HopsAround(parse, Trim(line), " " + raw);
            HopsSkipSpace(parse, raw, ' ');
          }
      }
    }
  }

  lemma NoHopsInNothing(parse: Parser)
    requires ReadsValid(parse) && parse("").None?
    ensures Hops(parse, "") == []
  {
    assert Split("", ',') == [""];
    assert Trim("") == "";
  }

  lemma {:induction false} ChainJoin(parse: Parser, a: seq<Option<string>>, b: seq<Option<string>>)
    requires ReadsValid(parse)
    ensures Chain(parse, a + b) == Chain(parse, a) + Chain(parse, b)
  {
    hide Hops, ReadsValid;
    if a == [] {
      assert a + b == b;
    } else {
      assert (a + b)[1..] == a[1..] + b;
      ChainJoin(parse, a[1..], b);
    }
  }

  lemma ChainOfLine(parse: Parser, line: string)
    requires ReadsValid(parse)
    ensures Chain(parse, [Some(line)]) == Hops(parse, line)
  {
    assert Chain(parse, []) == [];
  }

  // ─── Who the client is ───────────────────────────────────

  /** The address a chain of hops leads to. */
  function Client(peer: Ip, hops: seq<Ip>, trusted: seq<Block>): Ip
    requires ValidIp(peer) && ValidBlocks(trusted) && forall i :: 0 <= i < |hops| ==> ValidIp(hops[i])
  {
    if !Trusts(trusted, peer) || hops == [] then peer
    else match FirstUntrusted(hops, trusted) case Some(ip) => ip case None => hops[0]
  }

  lemma ResolveIsClient(parse: Parser, peer: Ip, header: seq<Option<string>>, trusted: seq<Block>)
    requires ReadsValid(parse) && parse("").None? && ValidIp(peer) && ValidBlocks(trusted)
    ensures Resolve(parse, peer, header, trusted) == Client(peer, Chain(parse, header), trusted)
  {
    hide Hops, ReadsValid, FirstUntrusted, Chain;
    JoinIsChain(parse, header);
  }

  ghost predicate AllTrusted(hops: seq<Ip>, trusted: seq<Block>)
    requires ValidBlocks(trusted) && forall i :: 0 <= i < |hops| ==> ValidIp(hops[i])
  {
    forall i :: 0 <= i < |hops| ==> Trusts(trusted, hops[i])
  }

  lemma {:induction false} NoneUntrusted(hops: seq<Ip>, trusted: seq<Block>)
    requires ValidBlocks(trusted) && forall i :: 0 <= i < |hops| ==> ValidIp(hops[i])
    ensures FirstUntrusted(hops, trusted).None? <==> AllTrusted(hops, trusted)
  {
    hide Trusts, ValidBlocks;
    if hops != [] {
      var front := hops[..|hops| - 1];
      assert forall i :: 0 <= i < |front| ==> front[i] == hops[i];
      NoneUntrusted(front, trusted);
    }
  }

  lemma {:induction false} RightmostUntrusted(hops: seq<Ip>, trusted: seq<Block>, k: nat)
    requires ValidBlocks(trusted) && (forall i :: 0 <= i < |hops| ==> ValidIp(hops[i]))
    requires k < |hops| && !Trusts(trusted, hops[k]) && forall i :: k < i < |hops| ==> Trusts(trusted, hops[i])
    ensures FirstUntrusted(hops, trusted) == Some(hops[k])
  {
    hide Trusts, ValidBlocks;
    if k < |hops| - 1 {
      RightmostUntrusted(hops[..|hops| - 1], trusted, k);
    }
  }

  /** The connection's own address unless it is a trusted proxy's and the header
      names an address; then the rightmost untrusted one, or with none the
      leftmost. */
  lemma ResolveIsRightmostUntrusted(parse: Parser, peer: Ip, header: seq<Option<string>>, trusted: seq<Block>)
    requires ReadsValid(parse) && parse("").None? && ValidIp(peer) && ValidBlocks(trusted)
    ensures var r, hops := Resolve(parse, peer, header, trusted), Chain(parse, header);
            && (!Trusts(trusted, peer) || hops == [] ==> r == peer)
            && (Trusts(trusted, peer) && hops != [] && AllTrusted(hops, trusted) ==> r == hops[0])
            && (Trusts(trusted, peer) ==>
                  forall k: nat :: k < |hops| && !Trusts(trusted, hops[k])
                    && (forall i :: k < i < |hops| ==> Trusts(trusted, hops[i]))
                    ==> r == hops[k])
  {
    hide Trusts, ValidBlocks, ReadsValid, Chain, Resolve, FirstUntrusted, AllTrusted;
    ResolveIsClient(parse, peer, header, trusted);
    var hops := Chain(parse, header);
    NoneUntrusted(hops, trusted);
    forall k: nat | k < |hops| && !Trusts(trusted, hops[k])
                    && (forall i :: k < i < |hops| ==> Trusts(trusted, hops[i]))
      ensures FirstUntrusted(hops, trusted) == Some(hops[k])
    {
      RightmostUntrusted(hops, trusted, k);
    }
  }

  lemma {:induction false} FirstUntrustedOfParts(a: seq<Ip>, b: seq<Ip>, trusted: seq<Block>)
    requires ValidBlocks(trusted) && (forall i :: 0 <= i < |a| ==> ValidIp(a[i]))
    requires forall i :: 0 <= i < |b| ==> ValidIp(b[i])
    ensures FirstUntrusted(a + b, trusted)
            == if FirstUntrusted(b, trusted).Some? then FirstUntrusted(b, trusted) else FirstUntrusted(a, trusted)
  {
    hide Trusts, ValidBlocks;
    if b == [] {
      assert a + b == a;
    } else {
      var n := |b| - 1;
      assert (a + b)[..|a| + n] == a + b[..n];
      FirstUntrustedOfParts(a, b[..n], trusted);
    }
  }

  ghost predicate NamesUntrusted(parse: Parser, header: seq<Option<string>>, trusted: seq<Block>)
    requires ReadsValid(parse) && ValidBlocks(trusted)
  {
    !AllTrusted(Chain(parse, header), trusted)
  }

  /** Two parts of a header, the earlier written by whoever is further away: the
      later one decides alone as soon as it names an untrusted address, and
      otherwise has no say unless the earlier names none at all. */
  lemma ResolveOfParts(parse: Parser, peer: Ip, earlier: seq<Option<string>>, later: seq<Option<string>>,
                       trusted: seq<Block>)
    requires ReadsValid(parse) && parse("").None? && ValidIp(peer) && ValidBlocks(trusted)
    ensures Resolve(parse, peer, earlier + later, trusted)
            == if NamesUntrusted(parse, later, trusted) || Chain(parse, earlier) == []
               then Resolve(parse, peer, later, trusted)
               else Resolve(parse, peer, earlier, trusted)
  {
    hide Trusts, ValidBlocks, ReadsValid, Chain, Resolve, FirstUntrusted;
    var a, b := Chain(parse, earlier), Chain(parse, later);
    ResolveIsClient(parse, peer, earlier + later, trusted);
    ResolveIsClient(parse, peer, earlier, trusted);
    ResolveIsClient(parse, peer, later, trusted);
    ChainJoin(parse, earlier, later);
    FirstUntrustedOfParts(a, b, trusted);
    NoneUntrusted(b, trusted);
    if a == [] { assert a + b == b; }
  }

  /** A header written on several lines and on one, joined by commas with blank
      space around them, means the same (section 5.3 of RFC 9110). */
  lemma LinesAreCommas(parse: Parser, peer: Ip, before: seq<Option<string>>, a: string, b: string,
                       space: string, space': string, after: seq<Option<string>>, trusted: seq<Block>)
    requires ReadsValid(parse) && parse("").None? && ValidIp(peer) && ValidBlocks(trusted)
    requires AllSpace(space) && AllSpace(space')
    ensures Resolve(parse, peer, before + [Some(a), Some(b)] + after, trusted)
            == Resolve(parse, peer, before + [Some(a + space + "," + space' + b)] + after, trusted)
  {
    hide Trusts, ValidBlocks, ReadsValid, Chain, Resolve, FirstUntrusted, Hops, AllSpace;
    SameChain(parse, before, a, b, space, space', after);
    ResolveIsClient(parse, peer, before + [Some(a), Some(b)] + after, trusted);
    ResolveIsClient(parse, peer, before + [Some(a + space + "," + space' + b)] + after, trusted);
  }

  lemma SameChain(parse: Parser, before: seq<Option<string>>, a: string, b: string,
                  space: string, space': string, after: seq<Option<string>>)
    requires ReadsValid(parse) && AllSpace(space) && AllSpace(space')
    ensures Chain(parse, before + [Some(a), Some(b)] + after)
            == Chain(parse, before + [Some(a + space + "," + space' + b)] + after)
  {
    hide ReadsValid, Chain, Hops, AllSpace;
    var joined := a + space + "," + space' + b;
    ChainJoin(parse, before + [Some(a), Some(b)], after);
    ChainJoin(parse, before, [Some(a), Some(b)]);
    ChainJoin(parse, [Some(a)], [Some(b)]);
    assert [Some(a)] + [Some(b)] == [Some(a), Some(b)];
    ChainJoin(parse, before + [Some(joined)], after);
    ChainJoin(parse, before, [Some(joined)]);
    ChainOfLine(parse, a);
    ChainOfLine(parse, b);
    ChainOfLine(parse, joined);
    assert joined == (a + space) + "," + (space' + b);
    HopsAround(parse, a + space, space' + b);
    HopsSkipSpaces(parse, space, a);
    HopsSkipSpaces(parse, space', b);
  }

  /** Whatever is put in front of a line, or on lines before it, changes nothing as
      soon as the line or those after it name an untrusted address. */
  lemma ForgedHopsAreIgnored(parse: Parser, peer: Ip, forged: seq<Option<string>>, claim: string, line: string,
                             after: seq<Option<string>>, trusted: seq<Block>)
    requires ReadsValid(parse) && parse("").None? && ValidIp(peer) && ValidBlocks(trusted)
    requires NamesUntrusted(parse, [Some(line)] + after, trusted)
    ensures Resolve(parse, peer, forged + [Some(claim + "," + line)] + after, trusted)
            == Resolve(parse, peer, [Some(line)] + after, trusted)
  {
    hide Trusts, ValidBlocks, ReadsValid, Chain, Resolve, FirstUntrusted, Hops, NamesUntrusted;
    LinesAreCommas(parse, peer, forged, claim, line, "", "", after, trusted);
    assert claim + "" + "," + "" + line == claim + "," + line;
    var earlier := forged + [Some(claim)];
    assert forged + [Some(claim), Some(line)] + after == earlier + ([Some(line)] + after);
    ResolveOfParts(parse, peer, earlier, [Some(line)] + after, trusted);
  }

  /** The ways proxies write an address read as the same one: bare, in brackets
      with anything after them, and followed by a port. */
  lemma HopFormsAgree(parse: Parser, host: string, rest: string, port: string, ip: Ip)
    requires ReadsValid(parse) && parse(host) == Some(ip)
    requires host != "" && host[0] != '[' && forall i :: 0 <= i < |host| ==> host[i] != ']'
    requires forall i :: 0 <= i < |port| ==> port[i] != ':' && port[i] != ']'
    ensures Normalise(parse, host) == Some(Unmapped(ip))
    ensures Normalise(parse, "[" + host + "]" + rest) == Some(Unmapped(ip))
    ensures parse(host + ":" + port).None? ==> Normalise(parse, host + ":" + port) == Some(Unmapped(ip))
  {
    hide ReadsValid, Unmapped;
    NoneBefore(host, ']');
    assert TrimBrackets(host) == host;
    UpTo(host, ']', rest);
    Unbracketed(host, "]" + rest);
    assert "[" + host + "]" + rest == "[" + host + ("]" + rest);
    assert host + ("]" + rest) == host + [']'] + rest;
    UpToLast(host, ':', port);
    NoneBefore(host + ":" + port, ']');
    assert TrimBrackets(host + ":" + port) == host + ":" + port;
  }

  lemma Unbracketed(host: string, rest: string)
    requires host != "" && host[0] != '['
    ensures TrimBrackets("[" + host + rest) == host + rest
  {
    var s := "[" + host + rest;
    assert s[1..] == host + rest && (host + rest)[0] == host[0];
  }

  // ─── What one hop says ───────────────────────────────────

  /** A hop's parts: brackets in front, what is between, and what follows the first
      closing bracket, if there is one. */
  ghost predicate HopParts(s: string, brackets: string, inner: string, rest: string) {
    && s == brackets + inner + rest
    && (forall i :: 0 <= i < |brackets| ==> brackets[i] == '[')
    && (inner != "" ==> inner[0] != '[') && ']' !in inner
    && (rest != "" ==> rest[0] == ']')
  }

  lemma {:induction false} BracketsTrimmed(brackets: string, t: string)
    requires (forall i :: 0 <= i < |brackets| ==> brackets[i] == '[') && (t != "" ==> t[0] != '[')
    ensures TrimBrackets(brackets + t) == t
  {
    if brackets == "" {
      assert brackets + t == t;
    } else {
      assert (brackets + t)[1..] == brackets[1..] + t;
      BracketsTrimmed(brackets[1..], t);
    }
  }

  /** What a hop is read as, whatever it says: the address between the brackets; or,
      if that is none, the address before the last colon there; or nothing. */
  lemma HopIsRead(parse: Parser, s: string, brackets: string, inner: string, rest: string)
    requires ReadsValid(parse) && HopParts(s, brackets, inner, rest)
    ensures parse(inner).Some? ==> Normalise(parse, s) == Some(Unmapped(parse(inner).value))
    ensures forall k :: 0 <= k < |inner| && inner[k] == ':' && ':' !in inner[k + 1..] && parse(inner).None? ==>
              Normalise(parse, s)
              == if parse(inner[..k]).Some? then Some(Unmapped(parse(inner[..k]).value)) else None
    ensures parse(inner).None? && ':' !in inner ==> Normalise(parse, s) == None
  {
    hide ReadsValid, Unmapped, Before, BeforeLast;
    BracketsTrimmed(brackets, inner + rest);
    assert brackets + (inner + rest) == s;
    if rest == "" {
      NoneBefore(inner, ']');
      assert inner + rest == inner;
    } else {
      UpTo(inner, ']', rest[1..]);
      assert inner + [']'] + rest[1..] == inner + rest;
    }
    if ':' !in inner {
      NoneBeforeLast(inner, ':');
    }
    forall k | 0 <= k < |inner| && inner[k] == ':' && ':' !in inner[k + 1..]
      ensures BeforeLast(inner, ':') == Some(inner[..k])
    {
      UpToLast(inner[..k], ':', inner[k + 1..]);
      assert inner[..k] + [':'] + inner[k + 1..] == inner;
    }
  }

  /** Every text has such parts. */
  lemma {:induction false} HopHasParts(s: string) returns (brackets: string, inner: string, rest: string)
    ensures HopParts(s, brackets, inner, rest)
  {
    if s != "" && s[0] == '[' {
      brackets, inner, rest := HopHasParts(s[1..]);
      brackets := "[" + brackets;
      assert s == "[" + s[1..];
    } else {
      brackets := "";
      inner, rest := CutAt(s, ']');
    }
  }

  lemma {:induction false} CutAt(s: string, c: char) returns (a: string, b: string)
    ensures s == a + b && c !in a && (b != "" ==> b[0] == c) && (a != "" ==> a[0] == s[0])
  {
    if s == "" || s[0] == c {
      a, b := "", s;
    } else {
      a, b := CutAt(s[1..], c);
      a := [s[0]] + a;
      assert s == [s[0]] + s[1..];
    }
  }

  /** An IPv4 address is itself unmapped; an IPv6 one is the IPv4 address in its last
      octets if ten octets of nought and two of 255 come before, and else itself. */
  lemma UnmappedIs(octets: seq<nat>, front: seq<nat>)
    requires |octets| == 4 && |front| == 12 && ValidIp(V4(octets)) && ValidIp(V6(front + octets))
    ensures Unmapped(V4(octets)) == V4(octets)
    ensures Unmapped(V6(front + octets))
            == if front == [0, 0, 0, 0, 0, 0, 0, 0, 0, 0, 255, 255] then V4(octets) else V6(front + octets)
  {
    var all := front + octets;
    assert all[12..] == octets && forall i :: 0 <= i < 12 ==> all[i] == front[i];
    if Mapped(V6(all)) {
      assert front == [0, 0, 0, 0, 0, 0, 0, 0, 0, 0, 255, 255];
    }
  }

  /** A hop between commas is one address or none. */
  lemma HopsOfOne(parse: Parser, s: string)
    requires ReadsValid(parse) && ',' !in s
    ensures Hops(parse, s) == match Normalise(parse, Trim(s)) case Some(ip) => [ip] case None => []
  {
    hide Normalise, Trim, ReadsValid;
    SplitOfOne(s, ',');
    assert Addresses(parse, []) == [];
  }

  /** A hop that is no address, such as `unknown`, is passed over: the answer is as if
      it had not been written, on a line of its own or between others. */
  lemma JunkIsPassedOver(parse: Parser, peer: Ip, before: seq<Option<string>>, a: string, junk: string, b: string,
                         after: seq<Option<string>>, trusted: seq<Block>)
    requires ReadsValid(parse) && parse("").None? && ValidIp(peer) && ValidBlocks(trusted)
    requires ',' !in junk && Normalise(parse, Trim(junk)) == None
    ensures Resolve(parse, peer, before + [Some(a + "," + junk + "," + b)] + after, trusted)
            == Resolve(parse, peer, before + [Some(a + "," + b)] + after, trusted)
    ensures Resolve(parse, peer, before + [Some(junk)] + after, trusted)
            == Resolve(parse, peer, before + after, trusted)
  {
    hide Trusts, ValidBlocks, ReadsValid, Chain, Resolve, FirstUntrusted, Hops, Normalise, Trim;
    var l, m, n := a + "," + junk + "," + b, a + "," + b, junk;
    HopsOfOne(parse, junk);
    HopsAround(parse, a, b);
    HopsAround(parse, a, junk + "," + b);
    HopsAround(parse, junk, b);
    assert l == a + "," + (junk + "," + b);
    assert Hops(parse, l) == Hops(parse, a) + ([] + Hops(parse, b)) == Hops(parse, m);
    ChainWith(parse, before, l, after);
    ChainWith(parse, before, m, after);
    ChainWith(parse, before, n, after);
    ChainJoin(parse, before, after);
    assert Chain(parse, before) + [] == Chain(parse, before);
    ResolveIsClient(parse, peer, before + [Some(l)] + after, trusted);
    ResolveIsClient(parse, peer, before + [Some(m)] + after, trusted);
    ResolveIsClient(parse, peer, before + [Some(n)] + after, trusted);
    ResolveIsClient(parse, peer, before + after, trusted);
  }

  lemma ChainWith(parse: Parser, before: seq<Option<string>>, line: string, after: seq<Option<string>>)
    requires ReadsValid(parse)
    ensures Chain(parse, before + [Some(line)] + after)
            == Chain(parse, before) + Hops(parse, line) + Chain(parse, after)
  {
    hide Hops, ReadsValid, Chain;
    ChainJoin(parse, before + [Some(line)], after);
    ChainJoin(parse, before, [Some(line)]);
    ChainOfLine(parse, line);
  }

  /** A mapped address is in IPv6 blocks alone. */
  lemma MappedIsTrustedAsV6(trusted: seq<Block>, ip: Ip)
    requires ValidBlocks(trusted) && ValidIp(ip) && Mapped(ip)
    ensures Trusts(trusted, ip)
            <==> exists i :: 0 <= i < |trusted| && trusted[i].addr.V6? && Contains(trusted[i], ip)
  {
    hide BitsMatch;
    if Trusts(trusted, ip) {
      var i :| 0 <= i < |trusted| && Contains(trusted[i], ip);
    }
  }

  /** Where a chain that is read leads. */
  function Led(hops: seq<Ip>, trusted: seq<Block>): (ip: Ip)
    requires ValidBlocks(trusted) && hops != [] && forall i :: 0 <= i < |hops| ==> ValidIp(hops[i])
    ensures ip in hops
  {
    match FirstUntrusted(hops, trusted) case Some(ip) => ip case None => hops[0]
  }

  lemma {:induction false} HopsAreUnmapped(parse: Parser, header: seq<Option<string>>)
    requires ReadsValid(parse)
    ensures forall ip :: ip in Chain(parse, header) ==> ValidIp(ip) && !Mapped(ip)
  {
    if header != [] {
      HopsAreUnmapped(parse, header[1..]);
      match header[0] {
        case Some(line) => AddressesAreUnmapped(parse, Split(line, ','));
        case None =>
      }
    }
  }

  lemma {:induction false} AddressesAreUnmapped(parse: Parser, pieces: seq<string>)
    requires ReadsValid(parse)
    ensures forall ip :: ip in Addresses(parse, pieces) ==> ValidIp(ip) && !Mapped(ip)
  {
    hide ReadsValid;
    if pieces != [] { AddressesAreUnmapped(parse, pieces[1..]); }
  }

  /** Hops are unmapped before they are compared; the peer is compared as it is
      given. That makes a difference exactly when one form of the peer is trusted
      and the other is not, a hop is named, and the chain leads elsewhere. */
  lemma PeerIsTakenAsGiven(parse: Parser, peer: Ip, header: seq<Option<string>>, trusted: seq<Block>)
    requires ReadsValid(parse) && parse("").None? && ValidIp(peer) && ValidBlocks(trusted)
    ensures var hops := Chain(parse, header);
            Unmapped(Resolve(parse, peer, header, trusted)) == Resolve(parse, Unmapped(peer), header, trusted)
            <==> (Trusts(trusted, peer) <==> Trusts(trusted, Unmapped(peer)))
                 || hops == [] || Led(hops, trusted) == Unmapped(peer)
  {
    hide Trusts, ValidBlocks, ReadsValid, Chain, Resolve, FirstUntrusted;
    ResolveIsClient(parse, peer, header, trusted);
    ResolveIsClient(parse, Unmapped(peer), header, trusted);
    HopsAreUnmapped(parse, header);
    var hops := Chain(parse, header);
    if hops != [] { assert Led(hops, trusted) in hops; }
  }
}
