/** Readers that split and fail as they like, and writers that may run full. */
module Streams {
  import opened Bytes
  import opened Wrappers

  datatype ReadError = NoError | EOF | UnexpectedEOF | Failed

  /** A source of bytes. After its data it reports the end of input, or an error if it broke. */
  class Reader {
    const data: seq<byte>
    const broken: bool
    var pos: nat
    var lulls: nat

    constructor (data: seq<byte>, broken: bool, lulls: nat)
      ensures this.data == data && this.broken == broken && pos == 0
    {
      this.data, this.broken, this.lulls, this.pos := data, broken, lulls, 0;
    }

    ghost predicate Valid()
      reads this
    {
      pos <= |data|
    }

    ghost function Rest(): seq<byte>
      reads this
      requires Valid()
    {
      data[pos..]
    }

    /** One read into p from index lo on: any number of bytes, at times none, and at the end of the data
        possibly together with the last of them the end of input or the error. */
    method Read(p: array<byte>, lo: nat) returns (n: nat, err: ReadError)
      requires Valid() && lo < p.Length
      modifies this, p
      ensures Valid() && pos == old(pos) + n && lo + n <= p.Length
      ensures p[..] == old(p[..lo]) + data[old(pos)..pos] + old(p[lo..])[n..]
      ensures err != NoError ==> pos == |data| && err == if broken then Failed else EOF
      ensures if n == 0 && err == NoError then lulls < old(lulls) else lulls == old(lulls)
    {
      var lull: bool := *;
      if lull && lulls > 0 {
        lulls := lulls - 1;
        return 0, NoError;
      }
      var most := if |data| - pos < p.Length - lo then |data| - pos else p.Length - lo;
      n :| (if most > 0 then 1 else 0) <= n <= most;
      forall i | 0 <= i < n {
        p[lo + i] := data[pos + i];
      }
      pos := pos + n;
      var early: bool := *;
      err := if pos == |data| && (early || n == 0) then if broken then Failed else EOF else NoError;
    }
  }

  /** io.ReadFull: reads until the buffer is full or the source ends. */
  method ReadFull(r: Reader, buf: array<byte>) returns (n: nat, err: ReadError)
    requires r.Valid() && buf.Length > 0
    modifies r, buf
    ensures r.Valid() && r.pos == old(r.pos) + n
    ensures n == if |old(r.Rest())| < buf.Length then |old(r.Rest())| else buf.Length
    ensures buf[..n] == old(r.Rest())[..n]
    ensures err == if n == buf.Length then NoError
                   else if r.broken then Failed
                   else if n == 0 then EOF else UnexpectedEOF
  {
    n, err := 0, NoError;
    while n < buf.Length && err == NoError
      invariant r.Valid() && n <= buf.Length && r.pos == old(r.pos) + n
      invariant buf[..n] == r.data[old(r.pos)..r.pos]
      invariant err != NoError ==> r.pos == |r.data| && err == if r.broken then Failed else EOF
      decreases |r.data| - r.pos + r.lulls, err == NoError
    {
      var m, e := r.Read(buf, n);
      n, err := n + m, e;
    }
    if n >= buf.Length {
      err := NoError;
    } else if n > 0 && err == EOF {
      err := UnexpectedEOF;
    }
  }

  function Clip(limit: Option<nat>, s: seq<byte>): (r: seq<byte>)
    ensures r <= s
  {
    if limit.Some? && limit.value < |s| then s[..limit.value] else s
  }

  /** A sink that may have a limited capacity. reached are the bytes that got through, acked those of
      the writes that succeeded, which is what a hash behind an io.MultiWriter has seen. */
  class Writer {
    const limit: Option<nat>
    var reached: seq<byte>
    var acked: seq<byte>

    constructor (limit: Option<nat>)
      ensures this.limit == limit && reached == [] && acked == [] && Valid()
    {
      this.limit, reached, acked := limit, [], [];
    }

    ghost predicate Valid()
      reads this
    {
      limit.Some? ==> |reached| <= limit.value
    }

    ghost predicate Fits(s: seq<byte>)
      reads this
    {
      limit.Some? ==> |reached| + |s| <= limit.value
    }

    /** The capacity left. */
    ghost function Left(): Option<nat>
      reads this
      requires Valid()
    {
      if limit.Some? then Some(limit.value - |reached|) else None
    }

    method Write(p: seq<byte>) returns (ok: bool)
      requires Valid()
      modifies this
      ensures Valid()
      ensures ok <==> old(Fits(p))
      ensures reached == Clip(limit, old(reached) + p)
      ensures acked == if ok then old(acked) + p else old(acked)
    {
      ok := limit.None? || |reached| + |p| <= limit.value;
      reached := Clip(limit, reached + p);
      if ok {
        acked := acked + p;
      }
    }
  }

  /** A reader that counts what passes through it. */
  class CountingReader {
    const r: Reader
    var n: nat

    constructor (r: Reader)
      ensures this.r == r && n == 0
    {
      this.r, n := r, 0;
    }

    method Read(p: array<byte>) returns (m: nat, err: ReadError)
      requires r.Valid() && p.Length > 0
      modifies this, r, p
      ensures r.Valid() && r.pos == old(r.pos) + m && m <= p.Length
      ensures n == old(n) + m
      ensures p[..m] == r.data[old(r.pos)..r.pos]
      ensures err != NoError ==> r.pos == |r.data| && err == if r.broken then Failed else EOF
      ensures if m == 0 && err == NoError then r.lulls < old(r.lulls) else r.lulls == old(r.lulls)
    {
      m, err := r.Read(p, 0);
      n := n + m;
    }
  }

  /** io.Copy into a store: all bytes up to the end of input, with the count kept on the way. */
  method Drain(c: CountingReader) returns (bytes: seq<byte>, ok: bool)
    requires c.r.Valid()
    modifies c, c.r
    ensures c.r.Valid() && c.n == old(c.n) + |bytes|
    ensures ok <==> !c.r.broken
    ensures ok ==> bytes == old(c.r.Rest())
  {
    var buf := new byte[32768];
    var err := NoError;
    bytes := [];
    while err == NoError
      invariant c.r.Valid() && c.r.pos >= old(c.r.pos)
      invariant bytes == c.r.data[old(c.r.pos)..c.r.pos]
      invariant c.n == old(c.n) + |bytes|
      invariant err != NoError ==> c.r.pos == |c.r.data| && err == if c.r.broken then Failed else EOF
      decreases |c.r.data| - c.r.pos + c.r.lulls, err == NoError
    {
      var m, e := c.Read(buf);
      bytes, err := bytes + buf[..m], e;
    }
    ok := err == EOF;
  }
}
