/** Address blocks: matching by octets and as a range of integers
    (src/forwarded.rs, `Cidr`; prefixes as in section 3.1 of RFC 4632 and
    section 2.3 of RFC 4291). */
module Cidr {

  datatype Ip = V4(octets: seq<nat>) | V6(octets: seq<nat>)

  predicate ValidIp(ip: Ip) {
    |ip.octets| == (if ip.V4? then 4 else 16) && forall i :: 0 <= i < |ip.octets| ==> ip.octets[i] < 256
  }

  datatype Block = Block(addr: Ip, prefix: nat)

  predicate ValidBlock(c: Block) {
    ValidIp(c.addr) && c.prefix <= Bits(c.addr)
  }

  function Bits(ip: Ip): nat { if ip.V4? then 32 else 128 }

  // ─── Words as bits ───────────────────────────────────────

  function Pow2(n: nat): (p: nat)
    ensures p >= 1
  {
    if n == 0 then 1 else 2 * Pow2(n - 1)
  }

  function BitAnd(x: nat, y: nat): nat {
    if x == 0 || y == 0 then 0 else (x % 2) * (y % 2) + 2 * BitAnd(x / 2, y / 2)
  }

  function BitOr(x: nat, y: nat): nat {
    if x == 0 then y else if y == 0 then x
    else (if x % 2 == 1 || y % 2 == 1 then 1 else 0) + 2 * BitOr(x / 2, y / 2)
  }

  /** All bits of an `n`-bit word flipped. */
  function BitNot(x: nat, n: nat): nat
    requires x < Pow2(n)
  {
    Pow2(n) - 1 - x
  }

  function ShiftLeft(x: nat, k: nat, n: nat): nat {
    Mod(x * Pow2(k), Pow2(n))
  }

  // ─── Quotient and remainder ──────────────────────────────

  function Div(x: nat, m: nat): nat
    requires m >= 1
  {
    x / m
  }

  function Mod(x: nat, m: nat): (r: nat)
    requires m >= 1
    ensures r < m
  {
    x % m
  }

  lemma DivMod(x: nat, m: nat)
    requires m >= 1
    ensures x == Div(x, m) * m + Mod(x, m)
  {
  }

  lemma Order(a: nat, b: nat, m: nat)
    ensures a < b ==> a * m + m <= b * m
    ensures a <= b ==> a * m <= b * m
  {
    if a <= b {
      var d: nat := b - a;
      assert b * m == a * m + d * m;
      assert d * m >= 0;
      if d >= 1 { assert d * m == m + (d - 1) * m && (d - 1) * m >= 0; }
    }
  }

  lemma DivisionIs(x: nat, m: nat, q: nat, r: nat)
    requires m >= 1 && r < m && x == q * m + r
    ensures Div(x, m) == q && Mod(x, m) == r
  {
    hide Div, Mod;
    DivMod(x, m);
    Order(Div(x, m), q, m);
    Order(q, Div(x, m), m);
  }

  lemma Small(x: nat, m: nat)
    requires x < m
    ensures Div(x, m) == 0 && Mod(x, m) == x
  {
    hide Div, Mod;
    assert 0 * m == 0;
    DivisionIs(x, m, 0, x);
  }

  /** Equal quotients are equal floors, and a number lies from its floor on. */
  lemma SameFloor(x: nat, y: nat, p: nat)
    requires p >= 1
    ensures Mod(x, p) <= x && Mod(y, p) <= y
    ensures x - Mod(x, p) == y - Mod(y, p) <==> Div(x, p) == Div(y, p)
    ensures y - Mod(y, p) <= x < y - Mod(y, p) + p <==> Div(x, p) == Div(y, p)
  {
    hide Div, Mod;
    DivMod(x, p);
    DivMod(y, p);
    Order(Div(x, p), Div(y, p), p);
    Order(Div(y, p), Div(x, p), p);
    assert Div(x, p) * p >= 0 && Div(y, p) * p >= 0;
  }

  lemma HalfRemainder(x: nat, m: nat)
    requires m >= 1
    ensures Mod(x, 2 * m) == 2 * Mod(x / 2, m) + x % 2
  {
    hide Div, Mod;
    var q, r := Div(x / 2, m), Mod(x / 2, m);
    DivMod(x / 2, m);
    Doubled(q, m, r);
    DivisionIs(x, 2 * m, q, 2 * r + x % 2);
  }

  lemma Doubled(q: nat, m: nat, r: nat)
    ensures 2 * (q * m + r) == q * (2 * m) + 2 * r
  {
  }

  lemma {:induction false} Pow2Adds(a: nat, b: nat)
    ensures Pow2(a + b) == Pow2(a) * Pow2(b)
  {
    if a > 0 {
      Pow2Adds(a - 1, b);
      Associate(Pow2(a - 1), Pow2(b));
    }
  }

  lemma Associate(x: nat, y: nat)
    ensures 2 * (x * y) == (2 * x) * y
  {
  }

  lemma {:induction false} Pow2Monotone(a: nat, b: nat)
    requires a <= b
    ensures Pow2(a) <= Pow2(b)
  {
    if a < b { Pow2Monotone(a, b - 1); }
  }

  lemma Pow2Half(n: nat)
    requires n > 0
    ensures Pow2(n) == 2 * Pow2(n - 1)
  {
  }

  // ─── Masks ───────────────────────────────────────────────

  lemma AndHalves(x: nat, y: nat)
    ensures BitAnd(x, y) == (x % 2) * (y % 2) + 2 * BitAnd(x / 2, y / 2)
  {
    if x == 0 || y == 0 {
      assert BitAnd(x / 2, y / 2) == 0;
    }
  }

  lemma OrHalves(x: nat, y: nat)
    ensures BitOr(x, y) == (if x % 2 == 1 || y % 2 == 1 then 1 else 0) + 2 * BitOr(x / 2, y / 2)
  {
  }

  /** Keeping the high bits of a word drops the remainder of the low ones. */
  lemma {:induction false} AndHigh(x: nat, n: nat, h: nat)
    requires h <= n && x < Pow2(n)
    ensures Pow2(h) <= Pow2(n) && Mod(x, Pow2(h)) <= x
    ensures BitAnd(x, Pow2(n) - Pow2(h)) == x - Mod(x, Pow2(h))
  {
    hide BitAnd, Pow2, Div, Mod;
    Pow2Monotone(h, n);
    SameFloor(x, x, Pow2(h));
    if h == 0 {
      NoBits();
      AndOnes(x, n);
    } else {
      var y := Pow2(n) - Pow2(h);
      Pow2Half(n);
      Pow2Half(h);
      AndHigh(x / 2, n - 1, h - 1);
      HalfRemainder(x, Pow2(h - 1));
      AndHalves(x, y);
      assert y % 2 == 0 && y / 2 == Pow2(n - 1) - Pow2(h - 1);
    }
  }

  lemma NoBits()
    ensures Pow2(0) == 1 && forall x: nat :: Mod(x, 1) == 0
  {
  }

  lemma {:induction false} AndOnes(x: nat, n: nat)
    requires x < Pow2(n)
    ensures BitAnd(x, Pow2(n) - 1) == x
  {
    hide Pow2, BitAnd;
    if n == 0 {
      NoBits();
      AndHalves(0, 0);
    } else {
      Pow2Half(n);
      AndOnes(x / 2, n - 1);
      AndHalves(x, Pow2(n) - 1);
      assert (Pow2(n) - 1) / 2 == Pow2(n - 1) - 1 && (Pow2(n) - 1) % 2 == 1;
    }
  }

  /** Setting the low bits of a word fills the remainder. */
  lemma {:induction false} OrLow(x: nat, h: nat)
    ensures Mod(x, Pow2(h)) <= x
    ensures BitOr(x, Pow2(h) - 1) == x - Mod(x, Pow2(h)) + Pow2(h) - 1
  {
    hide BitOr, Pow2, Div, Mod;
    SameFloor(x, x, Pow2(h));
    if h == 0 {
      NoBits();
      OrNothing(x);
    } else {
      var y := Pow2(h) - 1;
      Pow2Half(h);
      OrLow(x / 2, h - 1);
      HalfRemainder(x, Pow2(h - 1));
      OrHalves(x, y);
      assert y / 2 == Pow2(h - 1) - 1 && y % 2 == 1;
    }
  }

  lemma OrNothing(x: nat)
    ensures BitOr(x, 0) == x
  {
  }

  // ─── Octets ──────────────────────────────────────────────

  /** Octets as one number, the first the highest. */
  function Value(octets: seq<nat>): nat {
    if octets == [] then 0 else octets[0] * Pow2(8 * (|octets| - 1)) + Value(octets[1..])
  }

  predicate AreOctets(a: seq<nat>) {
    forall i :: 0 <= i < |a| ==> a[i] < 256
  }

  lemma {:induction false} ValueBound(a: seq<nat>)
    requires AreOctets(a)
    ensures Value(a) < Pow2(8 * |a|)
  {
    if a != [] {
      ValueBound(a[1..]);
      var m := Pow2(8 * (|a| - 1));
      Pow2Adds(8, 8 * (|a| - 1));
      Pow2Is256();
      Order(a[0], 256, m);
    }
  }

  lemma Pow2Is256()
    ensures Pow2(8) == 256
  {
    assert Pow2(4) == 16;
    Pow2Adds(4, 4);
  }

  /** Whether two addresses' first `prefix` bits are the same. */
  predicate BitsMatch(a: seq<nat>, b: seq<nat>, prefix: nat)
    requires |a| == |b| && prefix <= 8 * |a|
  {
    var full := prefix / 8;
    var rem := prefix % 8;
    a[..full] == b[..full] &&
    (rem == 0 ||
     (var mask := ShiftLeft(0xff, 8 - rem, 8);
      BitAnd(a[full], mask) == BitAnd(b[full], mask)))
  }

  predicate Contains(c: Block, ip: Ip)
    requires ValidBlock(c) && ValidIp(ip)
  {
    match (c.addr, ip)
    case (V4(net), V4(o)) => BitsMatch(net, o, c.prefix)
    case (V6(net), V6(o)) => BitsMatch(net, o, c.prefix)
    case _ => false
  }

  datatype Span = Span(first: nat, last: nat)

  /** The block as an inclusive pair of integers in its own family's space. */
  function RangeOf(c: Block): Span
    requires ValidBlock(c)
  {
    var bits := Bits(c.addr);
    var value := Value(c.addr.octets);
    var host := bits - c.prefix;
    if host >= bits then Span(0, Pow2(bits) - 1)
    else
      var mask := if host == 0 then 0 else Pow2(host) - 1;
      Pow2Monotone(host, 128);
      Span(BitAnd(value, BitNot(mask, 128)), BitOr(value, mask))
  }

  // ─── The two agree ───────────────────────────────────────

  /** What lies above the low `h` bits. */
  function High(x: nat, h: nat): nat { Div(x, Pow2(h)) }

  /** An address block's range, written with the remainder the masks drop. */
  lemma RangeIs(c: Block)
    requires ValidBlock(c) && c.prefix >= 1
    ensures var v, p := Value(c.addr.octets), Pow2(Bits(c.addr) - c.prefix);
            Mod(v, p) <= v && RangeOf(c) == Span(v - Mod(v, p), v - Mod(v, p) + p - 1)
  {
    hide BitAnd, BitOr, Pow2, Value, Mod, Div;
    var bits, v, host := Bits(c.addr), Value(c.addr.octets), Bits(c.addr) - c.prefix;
    ValueBound(c.addr.octets);
    Pow2Monotone(bits, 128);
    NoBits();
    AndHigh(v, 128, host);
    OrLow(v, host);
  }

  lemma RangeIsSameHigh(c: Block, x: nat)
    requires ValidBlock(c) && x < Pow2(Bits(c.addr))
    ensures (RangeOf(c).first <= x <= RangeOf(c).last) <==>
            High(x, Bits(c.addr) - c.prefix) == High(Value(c.addr.octets), Bits(c.addr) - c.prefix)
    ensures RangeOf(c).first <= RangeOf(c).last < Pow2(Bits(c.addr))
  {
    hide BitAnd, BitOr, Pow2, Value, Mod, Div;
    var bits, v, host := Bits(c.addr), Value(c.addr.octets), Bits(c.addr) - c.prefix;
    ValueBound(c.addr.octets);
    if c.prefix == 0 {
      Small(x, Pow2(host));
      Small(v, Pow2(host));
    } else {
      RangeIs(c);
      SameFloor(x, v, Pow2(host));
      HighFits(v, host, bits);
    }
  }

  /** Filling the low bits of a word leaves it a word. */
  lemma HighFits(v: nat, h: nat, n: nat)
    requires h <= n && v < Pow2(n)
    ensures Mod(v, Pow2(h)) <= v && v - Mod(v, Pow2(h)) + Pow2(h) <= Pow2(n)
  {
    hide Pow2, Mod, Div;
    Pow2Adds(n - h, h);
    DivMod(v, Pow2(h));
    FloorFits(Div(v, Pow2(h)), Pow2(n - h), Pow2(h), Mod(v, Pow2(h)));
  }

  lemma FloorFits(q: nat, k: nat, p: nat, r: nat)
    requires r < p && q * p + r < k * p
    ensures q * p + p <= k * p
  {
    Order(q, k, p);
    Order(k, q, p);
  }

  lemma HighSplit(o: nat, v: nat, m: nat, h: nat)
    requires h <= m && v < Pow2(m)
    ensures High(o * Pow2(m) + v, h) == o * Pow2(m - h) + High(v, h)
    ensures High(v, h) < Pow2(m - h)
  {
    hide Pow2, Mod, Div;
    var p, k := Pow2(h), Pow2(m - h);
    Pow2Adds(m - h, h);
    DivMod(v, p);
    var q, r := Div(v, p), Mod(v, p);
    Regroup(o, k, p, q, r);
    DivisionIs(o * Pow2(m) + v, p, o * k + q, r);
    Order(k, q, p);
  }

  lemma Regroup(o: nat, k: nat, p: nat, q: nat, r: nat)
    ensures o * (k * p) + (q * p + r) == (o * k + q) * p + r
  {
    assert o * (k * p) == (o * k) * p;
  }

  lemma HighAbove(o: nat, v: nat, m: nat, k: nat)
    requires v < Pow2(m)
    ensures High(o * Pow2(m) + v, m + k) == High(o, k)
  {
    hide Pow2, Mod, Div;
    var p, q := Pow2(m), Pow2(k);
    Pow2Adds(k, m);
    DivMod(o, q);
    var d, r := Div(o, q), Mod(o, q);
    TwoDigits(d, q, p, r, v);
    var whole, below: nat := o * p + v, r * p + v;
    assert Pow2(m + k) == q * p;
    DivisionIs(whole, Pow2(m + k), d, below);
  }

  lemma TwoDigits(d: nat, q: nat, p: nat, r: nat, v: nat)
    requires r < q && v < p
    ensures (d * q + r) * p + v == d * (q * p) + (r * p + v)
    ensures r * p + v < q * p
  {
    Order(r, q, p);
    Regroup(d, q, p, r, v);
  }

  lemma PairsDiffer(o1: nat, o2: nat, q1: nat, q2: nat, m: nat)
    requires q1 < m && q2 < m
    ensures o1 * m + q1 == o2 * m + q2 <==> o1 == o2 && q1 == q2
  {
    Order(o1, o2, m);
    Order(o2, o1, m);
  }

  /** Masking an octet's high bits and comparing compares what lies above. */
  lemma MaskCompares(x: nat, y: nat, rem: nat)
    requires x < 256 && y < 256 && 1 <= rem <= 7
    ensures var mask := ShiftLeft(0xff, 8 - rem, 8);
            BitAnd(x, mask) == BitAnd(y, mask) <==> High(x, 8 - rem) == High(y, 8 - rem)
  {
    hide Pow2, Mod, Div, BitAnd, ShiftLeft;
    var h := 8 - rem;
    Pow2Is256();
    MaskIs(h);
    AndHigh(x, 8, h);
    AndHigh(y, 8, h);
    SameFloor(x, y, Pow2(h));
  }

  lemma MaskIs(h: nat)
    requires 1 <= h <= 7
    ensures Pow2(h) <= 256 && ShiftLeft(0xff, h, 8) == 256 - Pow2(h)
  {
    hide Pow2, Div;
    Pow2Is256();
    Pow2Monotone(h, 8);
    var p := Pow2(h);
    DivisionIs(0xff * p, 256, p - 1, 256 - p);
  }

  /** Comparing octet by octet compares the numbers above the host bits. */
  lemma {:induction false} MatchIsSameHigh(a: seq<nat>, b: seq<nat>, prefix: nat)
    requires |a| == |b| && prefix <= 8 * |a| && AreOctets(a) && AreOctets(b)
    ensures BitsMatch(a, b, prefix) <==> High(Value(a), 8 * |a| - prefix) == High(Value(b), 8 * |a| - prefix)
  {
    hide BitAnd, ShiftLeft, BitsMatch, Pow2, Div, Mod, Value;
    if a == [] {
      NothingMatches(a, b);
    } else {
      var m := 8 * (|a| - 1);
      FirstOfValue(a);
      FirstOfValue(b);
      ValueBound(a[1..]);
      ValueBound(b[1..]);
      if prefix >= 8 {
        MatchIsSameHigh(a[1..], b[1..], prefix - 8);
        FirstOctet(a, b, prefix);
        var h := 8 * |a| - prefix;
        HighSplit(a[0], Value(a[1..]), m, h);
        HighSplit(b[0], Value(b[1..]), m, h);
        PairsDiffer(a[0], b[0], High(Value(a[1..]), h), High(Value(b[1..]), h), Pow2(m - h));
      } else {
        HighAbove(a[0], Value(a[1..]), m, 8 - prefix);
        HighAbove(b[0], Value(b[1..]), m, 8 - prefix);
        WithinOctet(a, b, prefix);
      }
    }
  }

  lemma NothingMatches(a: seq<nat>, b: seq<nat>)
    requires a == b == []
    ensures BitsMatch(a, b, 0)
  {
  }

  lemma FirstOfValue(a: seq<nat>)
    requires a != []
    ensures Value(a) == a[0] * Pow2(8 * (|a| - 1)) + Value(a[1..])
  {
  }

  lemma WithinOctet(a: seq<nat>, b: seq<nat>, prefix: nat)
    requires |a| == |b| >= 1 && prefix < 8 && AreOctets(a) && AreOctets(b)
    ensures BitsMatch(a, b, prefix) <==> High(a[0], 8 - prefix) == High(b[0], 8 - prefix)
  {
    hide Pow2, Div, Mod, BitAnd, ShiftLeft;
    assert a[..0] == b[..0];
    if prefix == 0 {
      Pow2Is256();
      Small(a[0], 256);
      Small(b[0], 256);
    } else {
      MaskCompares(a[0], b[0], prefix);
    }
  }

  lemma StartOf(a: seq<nat>, n: nat)
    requires 1 <= n <= |a|
    ensures a[..n] == [a[0]] + a[1..][..n - 1]
  {
  }

  lemma SameStart(a: seq<nat>, b: seq<nat>, n: nat)
    requires 1 <= n <= |a| == |b|
    ensures a[..n] == b[..n] <==> a[0] == b[0] && a[1..][..n - 1] == b[1..][..n - 1]
  {
    StartOf(a, n);
    StartOf(b, n);
    var x, y := a[1..][..n - 1], b[1..][..n - 1];
    assert ([a[0]] + x)[0] == a[0] && ([b[0]] + y)[0] == b[0];
    assert ([a[0]] + x)[1..] == x && ([b[0]] + y)[1..] == y;
  }

  lemma FirstOctet(a: seq<nat>, b: seq<nat>, prefix: nat)
    requires |a| == |b| >= 1 && 8 <= prefix <= 8 * |a|
    ensures BitsMatch(a, b, prefix) <==> a[0] == b[0] && BitsMatch(a[1..], b[1..], prefix - 8)
  {
    hide BitAnd, ShiftLeft;
    var full := prefix / 8;
    assert (prefix - 8) / 8 == full - 1 && (prefix - 8) % 8 == prefix % 8;
    SameStart(a, b, full);
  }

  /** For every block and every address, matching by octets and lying in the range
      are the same: in each family, for any prefix from none to full length, and
      whatever bits are set below it. */
  lemma RangeIsBlock(c: Block, ip: Ip)
    requires ValidBlock(c) && ValidIp(ip)
    ensures Contains(c, ip) <==>
            c.addr.V4? == ip.V4? && RangeOf(c).first <= Value(ip.octets) <= RangeOf(c).last
  {
    hide BitsMatch, RangeOf, Value, Pow2, High;
    if c.addr.V4? == ip.V4? {
      ValueBound(ip.octets);
      RangeIsSameHigh(c, Value(ip.octets));
      MatchIsSameHigh(c.addr.octets, ip.octets, c.prefix);
    }
  }
}
