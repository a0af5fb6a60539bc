/** Bytes and the big-endian 32-bit length headers. */
module Bytes {
  type byte = b: int | 0 <= b < 256

  /** Truncation to 32 bits, then most significant byte first. */
  function PutUint32(n: nat): (h: seq<byte>)
    ensures |h| == 4
  {
    var m := n % 0x1_0000_0000;
    [m / 0x100_0000, m / 0x1_0000 % 0x100, m / 0x100 % 0x100, m % 0x100]
  }

  function Uint32(h: seq<byte>): (n: nat)
    requires |h| == 4
    ensures n < 0x1_0000_0000
  {
    0x100_0000 * (h[0] as int) + 0x1_0000 * (h[1] as int) + 0x100 * (h[2] as int) + h[3] as int
  }

  lemma HeaderRoundTrip(n: nat)
    requires n < 0x1_0000_0000
    ensures Uint32(PutUint32(n)) == n
  {
    var m := n / 0x100;
    assert n / 0x1_0000 == m / 0x100 && n / 0x100_0000 == m / 0x100 / 0x100;
  }

  /** Every four bytes are the header of the number they are read as. */
  lemma HeaderOfUint32(h: seq<byte>)
    requires |h| == 4
    ensures PutUint32(Uint32(h)) == h
  {
    var n := Uint32(h);
    var high := 0x100 * (h[0] as int) + h[1] as int;
    var m := 0x100 * high + h[2] as int;
    assert n == 0x100 * m + h[3] as int;
    LastDigit(n, m, h[3]);
    LastDigit(m, high, h[2]);
    LastDigit(high, h[0], h[1]);
    assert n / 0x1_0000 == m / 0x100 && n / 0x100_0000 == m / 0x100 / 0x100;
  }

  lemma LastDigit(n: nat, m: nat, d: byte)
    requires n == 0x100 * m + d
    ensures n / 0x100 == m && n % 0x100 == d
  {
  }

  /** Byte by byte, the smaller at the first difference. */
  predicate Below(a: seq<byte>, b: seq<byte>) {
    exists i :: 0 <= i < |a| && i < |b| && a[..i] == b[..i] && a[i] < b[i]
  }

  /** The most significant byte comes first: headers compare byte by byte as the numbers do. */
  lemma HeaderOrder(m: nat, n: nat)
    requires m < 0x1_0000_0000 && n < 0x1_0000_0000
    ensures Below(PutUint32(m), PutUint32(n)) <==> m < n
  {
    HeaderRoundTrip(m);
    HeaderRoundTrip(n);
    if m < n {
      FirstDifference(PutUint32(m), PutUint32(n));
    } else if Below(PutUint32(m), PutUint32(n)) {
      BelowIsLess(PutUint32(m), PutUint32(n));
    }
  }

  lemma FirstDifference(g: seq<byte>, h: seq<byte>)
    requires |g| == |h| == 4 && Uint32(g) < Uint32(h)
    ensures Below(g, h)
  {
    var i := if g[0] != h[0] then 0 else if g[1] != h[1] then 1 else if g[2] != h[2] then 2 else 3;
    assert g[i] < h[i];
    assert g[..i] == h[..i];
  }

  lemma BelowIsLess(g: seq<byte>, h: seq<byte>)
    requires |g| == |h| == 4 && Below(g, h)
    ensures Uint32(g) < Uint32(h)
  {
    var i :| 0 <= i < 4 && g[..i] == h[..i] && g[i] < h[i];
    assert forall j :: 0 <= j < i ==> g[..i][j] == h[..i][j];
  }

  /** The bytes of a text. */
  function Utf8(text: string): seq<byte> {
    if text == "" then [] else Utf8Char(text[0]) + Utf8(text[1..])
  }

  function Utf8Char(c: char): (b: seq<byte>)
    ensures 1 <= |b| <= 4
  {
    var n := c as int;
    if n < 0x80 then [n]
    else if n < 0x800 then [0xC0 + n / 0x40, 0x80 + n % 0x40]
    else if n < 0x1_0000 then [0xE0 + n / 0x1000, 0x80 + n / 0x40 % 0x40, 0x80 + n % 0x40]
    else [0xF0 + n / 0x4_0000, 0x80 + n / 0x1000 % 0x40, 0x80 + n / 0x40 % 0x40, 0x80 + n % 0x40]
  }

  /** How many bytes a first byte announces (section 3 of RFC 3629). */
  function Utf8Width(lead: byte): nat {
    if lead < 0xC0 then 1 else if lead < 0xE0 then 2 else if lead < 0xF0 then 3 else 4
  }

  /** Each continuation byte adds six bits to a code point. */
  function Continued(high: int, rest: seq<byte>): int
    decreases |rest|
  {
    if rest == [] then high else Continued(0x40 * high - 0x80 + rest[0], rest[1..])
  }

  /** The first code point of bytes that start with a whole one. */
  function FirstPoint(b: seq<byte>): int
    requires b != [] && Utf8Width(b[0]) <= |b|
  {
    var w := Utf8Width(b[0]);
    var mark := if w == 1 then 0 else if w == 2 then 0xC0 else if w == 3 then 0xE0 else 0xF0;
    Continued(b[0] - mark, b[1..w])
  }

  /** The code points of bytes that encode a text. */
  function CodePoints(b: seq<byte>): seq<int> {
    if b == [] || |b| < Utf8Width(b[0]) then [] else [FirstPoint(b)] + CodePoints(b[Utf8Width(b[0])..])
  }

  /** Decoding reads the text back. */
  lemma {:induction false} Utf8ReadBack(text: string)
    ensures CodePoints(Utf8(text)) == seq(|text|, i requires 0 <= i < |text| => text[i] as int)
  {
    hide Utf8Char, Utf8Width, FirstPoint;
    if text != "" {
      var b, rest := Utf8Char(text[0]), Utf8(text[1..]);
      Utf8CharReadBack(text[0], rest);
      Utf8ReadBack(text[1..]);
      assert (b + rest)[0] == b[0] && (b + rest)[|b|..] == rest;
    }
  }

  /** A character starts with the byte that announces its width; its other bytes are continuation bytes. */
  lemma Utf8CharReadBack(c: char, rest: seq<byte>)
    ensures var b := Utf8Char(c);
            && |b| == Utf8Width(b[0])
            && FirstPoint(b + rest) == c as int
            && forall i :: 1 <= i < |b| ==> 0x80 <= b[i] < 0xC0
  {
    var b, n := Utf8Char(c), c as int;
    assert (b + rest)[1..|b|] == b[1..];
    if |b| == 1 {
      assert b[1..] == [];
    } else if |b| == 2 {
      assert b[1..][1..] == [];
      assert Continued(n / 0x40, b[1..]) == Continued(n, []);
    } else if |b| == 3 {
      assert b[1..][1..] == b[2..] && b[2..][1..] == [];
      assert n / 0x40 == 0x40 * (n / 0x1000) + n / 0x40 % 0x40;
      assert Continued(n / 0x1000, b[1..]) == Continued(n / 0x40, b[2..]) == Continued(n, []);
    } else {
      assert b[1..][1..] == b[2..] && b[2..][1..] == b[3..] && b[3..][1..] == [];
      assert n / 0x40 == 0x40 * (n / 0x1000) + n / 0x40 % 0x40;
      assert n / 0x1000 == 0x40 * (n / 0x4_0000) + n / 0x1000 % 0x40;
      assert Continued(n / 0x4_0000, b[1..]) == Continued(n / 0x1000, b[2..]) == Continued(n / 0x40, b[3..]) == Continued(n, []);
    }
  }
}
