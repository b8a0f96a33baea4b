/** Byte streams that hand out their content in arbitrary pieces, `io.ReadFull` over
    them, and the length-prefixed frames of internal/node/blocks.go. */
module Streams {
  import opened Base

  datatype ReadEnd = More | Eof | UnexpectedEof | Failed

  /** How a stream ends: properly, broken off with `io.ErrUnexpectedEOF`, as the body of an
      HTTP request that was cut short is, or with any other error. */
  datatype Ending = Clean | CutShort | Failing

  class Body {
    /** What successive reads will offer, in pieces of any size, empty ones included. */
    var pieces: seq<Bytes>
    const ending: Ending
    /** Whether the end is reported together with the last piece. */
    const eager: bool

    constructor (pieces: seq<Bytes>, ending: Ending, eager: bool)
      ensures this.pieces == pieces && this.ending == ending && this.eager == eager
    {
      this.pieces, this.ending, this.eager := pieces, ending, eager;
    }

    function Rest(): Bytes
      reads this
    {
      Flatten(pieces)
    }

    ghost function Measure(): nat
      reads this
    {
      |pieces| + |Rest()|
    }

    function End(): ReadEnd {
      match ending case Clean => Eof case CutShort => UnexpectedEof case Failing => Failed
    }

    method Read(max: nat) returns (data: Bytes, end: ReadEnd)
      modifies this
      ensures data + Rest() == old(Rest()) && |data| <= max
      ensures end == More || (end == End() && pieces == [])
      ensures end == More && max > 0 ==> Measure() < old(Measure())
    {
      if pieces == [] {
        return [], End();
      }
      var head := pieces[0];
      var n := Min(max, |head|);
      data := head[..n];
      pieces := (if n < |head| then [head[n..]] else []) + pieces[1..];
      FlattenAppend(if n < |head| then [head[n..]] else [], old(pieces)[1..]);
      assert head == head[..n] + head[n..];
      assert n < |head| ==> Flatten([head[n..]]) == head[n..] + Flatten([]);
      end := if eager && pieces == [] then End() else More;
    }
  }

  /** `io.ReadFull`: as many of `want` bytes as the stream holds, however its reads are
      split. A clean end within the bytes wanted and a stream cut short give the same
      error; only a clean end before the first byte and other failures stand apart. */
  method ReadFull(body: Body, want: nat) returns (data: Bytes, err: ReadEnd)
    modifies body
    ensures data == old(body.Rest())[..Min(want, |old(body.Rest())|)]
    ensures data + body.Rest() == old(body.Rest())
    ensures err == More <==> |data| == want
    ensures err != More ==> body.Rest() == []
    ensures err != More ==>
              err == match body.ending
                     case Clean => if data == [] then Eof else UnexpectedEof
                     case CutShort => UnexpectedEof
                     case Failing => Failed
  {
    data, err := [], More;
    while |data| < want && err == More
      invariant |data| <= want && data + body.Rest() == old(body.Rest())
      invariant err == More || (err == body.End() && body.Rest() == [])
      decreases err == More, body.Measure()
    {
      var got, end := body.Read(want - |data|);
      assert data + (got + body.Rest()) == (data + got) + body.Rest();
      data, err := data + got, end;
    }
    assert data == (data + body.Rest())[..|data|];
    if |data| >= want {
      err := More;
    } else if |data| > 0 && err == Eof {
      err := UnexpectedEof;
    }
  }

  // ----- frames -----

  const MAX_FRAME_SIZE := 64 * 1024 * 1024
  const HEADER_SIZE := 4

  /** Big-endian 32-bit length. */
  function Header(n: nat): (h: Bytes)
    requires n < 0x1_0000_0000
    ensures |h| == HEADER_SIZE
  {
    var a := n / 0x100;
    var b := a / 0x100;
    var c := b / 0x100;
    [c as bv8, (b % 0x100) as bv8, (a % 0x100) as bv8, (n % 0x100) as bv8]
  }

  function HeaderValue(h: Bytes): (n: nat)
    requires |h| == HEADER_SIZE
  {
    ((h[0] as nat * 0x100 + h[1] as nat) * 0x100 + h[2] as nat) * 0x100 + h[3] as nat
  }

  lemma ByteRoundTrip(x: nat)
    requires x < 0x100
    ensures (x as bv8) as nat == x
  {
    if x < 0x10 {
    } else if x < 0x20 {
    } else if x < 0x40 {
    } else if x < 0x80 {
    }
  }

  lemma HeaderRoundTrip(n: nat)
    requires n < 0x1_0000_0000
    ensures HeaderValue(Header(n)) == n
  {
    var a := n / 0x100;
    var b := a / 0x100;
    ByteRoundTrip(b / 0x100);
    ByteRoundTrip(b % 0x100);
    ByteRoundTrip(a % 0x100);
    ByteRoundTrip(n % 0x100);
  }

  /** The number that bytes stand for, most significant first. */
  function BigEndian(h: Bytes): nat {
    if h == [] then 0 else BigEndian(h[..|h| - 1]) * 256 + h[|h| - 1] as nat
  }

  lemma HeaderIsBigEndian(h: Bytes)
    requires |h| == HEADER_SIZE
    ensures HeaderValue(h) == BigEndian(h)
  {
    assert h[..3][..2] == h[..2] && h[..2][..1] == h[..1] && h[..1][..0] == [];
    assert BigEndian(h[..1]) == h[0] as nat;
    assert BigEndian(h[..2]) == h[0] as nat * 256 + h[1] as nat;
    assert BigEndian(h[..3]) == BigEndian(h[..2]) * 256 + h[2] as nat;
  }

  lemma ValueOfByte(b: bv8)
    ensures b as nat < 0x100 && (b as nat) as bv8 == b
  {
  }

  lemma LastDigit(q: nat, d: nat)
    requires d < 0x100
    ensures (q * 0x100 + d) / 0x100 == q && (q * 0x100 + d) % 0x100 == d
  {
  }

  /** The header of a number, by its digits to the base 256. */
  lemma HeaderOfDigits(c: nat, b: nat, a: nat, d: nat)
    requires c < 0x100 && b < 0x100 && a < 0x100 && d < 0x100
    ensures var n := ((c * 0x100 + b) * 0x100 + a) * 0x100 + d;
            n < 0x1_0000_0000 && Header(n) == [c as bv8, b as bv8, a as bv8, d as bv8]
  {
    LastDigit(c, b);
    LastDigit(c * 0x100 + b, a);
    LastDigit((c * 0x100 + b) * 0x100 + a, d);
  }

  lemma SomeHeader(c: nat, b: nat, a: nat, d: nat) returns (n: nat)
    requires c < 0x100 && b < 0x100 && a < 0x100 && d < 0x100
    ensures n < 0x1_0000_0000 && Header(n) == [c as bv8, b as bv8, a as bv8, d as bv8]
  {
    HeaderOfDigits(c, b, a, d);
    n := ((c * 0x100 + b) * 0x100 + a) * 0x100 + d;
  }

  /** Every four bytes are the header of their value. */
  lemma ValueRoundTrip(h: Bytes)
    requires |h| == HEADER_SIZE
    ensures HeaderValue(h) < 0x1_0000_0000 && Header(HeaderValue(h)) == h
  {
    ValueOfByte(h[0]);
    ValueOfByte(h[1]);
    ValueOfByte(h[2]);
    ValueOfByte(h[3]);
    var n := SomeHeader(h[0] as nat, h[1] as nat, h[2] as nat, h[3] as nat);
    assert Header(n) == h;
    HeaderRoundTrip(n);
  }

  function Frame(payload: Bytes): (r: Result<Bytes>) {
    if |payload| > MAX_FRAME_SIZE then Err("frame too large") else Ok(Header(|payload|) + payload)
  }

  function ParseFrame(stream: Bytes): (r: Result<Bytes>) {
    if |stream| < HEADER_SIZE then Err("short header")
    else
      var n := HeaderValue(stream[..HEADER_SIZE]);
      if n > MAX_FRAME_SIZE then Err("frame too large")
      else if |stream| < HEADER_SIZE + n then Err("short frame")
      else Ok(stream[HEADER_SIZE..HEADER_SIZE + n])
  }

  /** Whatever `writeFrame` accepts, `readFrame` returns, with nothing of what follows. */
  lemma FrameRoundTrip(payload: Bytes, after: Bytes)
    requires |payload| <= MAX_FRAME_SIZE
    ensures Frame(payload).Ok? && ParseFrame(Frame(payload).value + after) == Ok(payload)
  {
    var stream := Header(|payload|) + payload + after;
    HeaderRoundTrip(|payload|);
    assert stream[..HEADER_SIZE] == Header(|payload|);
    assert stream[HEADER_SIZE..HEADER_SIZE + |payload|] == payload;
  }

  /** A frame cut short anywhere is rejected. */
  lemma CutFrameRejected(payload: Bytes, cut: nat)
    requires |payload| <= MAX_FRAME_SIZE && cut < |Frame(payload).value|
    ensures ParseFrame(Frame(payload).value[..cut]).Err?
  {
    if cut >= HEADER_SIZE {
      HeaderRoundTrip(|payload|);
      assert Frame(payload).value[..cut][..HEADER_SIZE] == Header(|payload|);
    }
  }

  lemma FrameBehind(h: Bytes, payload: Bytes)
    requires |h| == HEADER_SIZE && HeaderValue(h) == |payload| <= MAX_FRAME_SIZE
    ensures Frame(payload) == Ok(h + payload)
  {
    ValueRoundTrip(h);
  }

  lemma ParsedIsFrame(stream: Bytes)
    requires ParseFrame(stream).Ok?
    ensures var payload := ParseFrame(stream).value; Frame(payload).Ok? && Frame(payload).value <= stream
  {
    var h, payload := stream[..HEADER_SIZE], ParseFrame(stream).value;
    FrameBehind(h, payload);
    assert stream[..HEADER_SIZE + |payload|] == h + payload;
  }

  lemma FrameIsParsed(stream: Bytes, payload: Bytes)
    requires Frame(payload).Ok? && Frame(payload).value <= stream
    ensures ParseFrame(stream) == Ok(payload)
  {
    var after := stream[|Frame(payload).value|..];
    assert stream == Frame(payload).value + after;
    FrameRoundTrip(payload, after);
  }

  /** What is read from a stream is a payload exactly if the stream starts with its frame; and
      exactly the payloads up to 64 MiB have one. */
  lemma FramesExactly(stream: Bytes, payload: Bytes)
    ensures Frame(payload).Ok? <==> |payload| <= 64 * 1024 * 1024
    ensures ParseFrame(stream) == Ok(payload) <==> Frame(payload).Ok? && Frame(payload).value <= stream
  {
    if ParseFrame(stream) == Ok(payload) {
      ParsedIsFrame(stream);
    }
    if Frame(payload).Ok? && Frame(payload).value <= stream {
      FrameIsParsed(stream, payload);
    }
  }

  /** `readFrame`, up to the CBOR decoding of the payload: it succeeds exactly if the stream
      starts with a frame, and leaves what follows that. */
  method ReadFrame(body: Body) returns (r: Result<Bytes>)
    modifies body
    ensures ParseFrame(old(body.Rest())).Ok? ==> r == ParseFrame(old(body.Rest()))
    ensures ParseFrame(old(body.Rest())).Err? ==> r.Err?
    ensures r.Ok? ==> |old(body.Rest())| >= HEADER_SIZE + |r.value|
    ensures r.Ok? ==> body.Rest() == old(body.Rest())[HEADER_SIZE + |r.value|..]
  {
    ghost var stream := body.Rest();
    var header, err := ReadFull(body, HEADER_SIZE);
    if err != More {
      return Err("short header");
    }
    assert header == stream[..HEADER_SIZE] && body.Rest() == stream[HEADER_SIZE..];
    var n := HeaderValue(header);
    if n > MAX_FRAME_SIZE {
      return Err("frame too large");
    }
    var payload, err2 := ReadFull(body, n);
    if err2 != More {
      return Err("short frame");
    }
    assert payload == stream[HEADER_SIZE..HEADER_SIZE + n];
    assert body.Rest() == stream[HEADER_SIZE..][n..];
    return Ok(payload);
  }
}
