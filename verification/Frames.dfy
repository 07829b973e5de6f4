/** The on-wire frames of an attach stream and their base64 payload codec
    (core/daemon/src/frames.rs). */
module Frames {
  import opened Utf8
  import opened Wrappers

  datatype StreamFrame =
    | Snapshot(baseline: nat, data: string)
    | Delta(prevTotal: nat, newTotal: nat, data: string)
    | Error(code: ErrorCode)
    | Keepalive

  datatype ErrorCode = PaneDiedCode | OverflowCode | OtherCode

  /** The number a base64 digit stands for. */
  function Val(c: char): (r: Option<nat>)
    ensures r.Some? ==> r.value < 64
  {
    if 'A' <= c <= 'Z' then Some(c as int - 'A' as int)
    else if 'a' <= c <= 'z' then Some(c as int - 'a' as int + 26)
    else if '0' <= c <= '9' then Some(c as int - '0' as int + 52)
    else if c == '+' then Some(62)
    else if c == '/' then Some(63)
    else None
  }

  /** The alphabet of RFC 4648 section 4: A-Z, a-z, 0-9, +, /. */
  function Digit(n: nat): (c: char)
    requires n < 64
    ensures Val(c) == Some(n)
  {
    if n < 26 then 'A' + n as char
    else if n < 52 then 'a' + (n - 26) as char
    else if n < 62 then '0' + (n - 52) as char
    else if n == 62 then '+'
    else '/'
  }

  /** `Digit` and `Val` are inverse bijections, and `=` is no digit. */
  lemma DigitOfVal(c: char)
    ensures Val(c).Some? ==> Digit(Val(c).value) == c
    ensures Val('=') == None
  {
  }

  /** The 24-bit group of a chunk, missing bytes zero. */
  function Group(chunk: seq<byte>): (n: nat)
    requires 1 <= |chunk| <= 3
    ensures n < 0x100_0000
  {
    var b0: int := chunk[0];
    var b1: int := if |chunk| > 1 then chunk[1] else 0;
    var b2: int := if |chunk| > 2 then chunk[2] else 0;
    b0 * 65536 + b1 * 256 + b2
  }

  /** Sextet `i` of a group: `(n >> (18 - 6 * i)) & 0x3F`. */
  function Sextet(n: nat, i: nat): (v: nat)
    requires i < 4
    ensures v < 64
  {
    (if i == 0 then n / 262144 else if i == 1 then n / 4096 else if i == 2 then n / 64 else n) % 64
  }

  /** One chunk of one to three bytes, as four characters. */
  function EncodeChunk(chunk: seq<byte>): (r: string)
    requires 1 <= |chunk| <= 3
    ensures |r| == 4
  {
    var n := Group(chunk);
    [ Digit(Sextet(n, 0)),
      Digit(Sextet(n, 1)),
      if |chunk| > 1 then Digit(Sextet(n, 2)) else '=',
      if |chunk| > 2 then Digit(Sextet(n, 3)) else '=' ]
  }

  function Encode(input: seq<byte>): string {
    if input == [] then []
    else if |input| <= 3 then EncodeChunk(input)
    else EncodeChunk(input[..3]) + Encode(input[3..])
  }

  lemma EncodeStep(rest: seq<byte>)
    requires rest != []
    ensures var head := if |rest| <= 3 then rest else rest[..3];
            Encode(rest) == EncodeChunk(head) + Encode(rest[|head|..])
  {
    hide EncodeChunk;
    if |rest| <= 3 {
      assert rest[|rest|..] == [] && EncodeChunk(rest) + [] == EncodeChunk(rest);
    }
  }

  /** `b64_encode`: its loop over chunks of three. */
  method B64Encode(input: seq<byte>) returns (out: string)
    ensures out == Encode(input)
  {
    hide EncodeChunk, Encode;
    out := [];
    var i := 0;
    assert input[0..] == input && [] + Encode(input) == Encode(input);
    while i < |input|
      invariant 0 <= i <= |input|
      invariant out + Encode(input[i..]) == Encode(input)
    {
      var end := if i + 3 <= |input| then i + 3 else |input|;
      EncodeOne(input, i, end, out);
      out := out + EncodeChunk(input[i..end]);
      i := end;
    }
    EncodeNothing();
    assert input[i..] == [] && out + [] == out;
  }

  lemma EncodeOne(input: seq<byte>, i: nat, end: nat, out: string)
    requires i < |input| && end == if i + 3 <= |input| then i + 3 else |input|
    ensures out + EncodeChunk(input[i..end]) + Encode(input[end..]) == out + Encode(input[i..])
  {
    hide EncodeChunk, Encode;
    var rest := input[i..];
    EncodeStep(rest);
    assert input[i..end] == if |rest| <= 3 then rest else rest[..3];
    assert input[end..] == rest[end - i..];
  }

  lemma EncodeNothing()
    ensures Encode([]) == []
  {
  }

  function PadCount(quad: string): nat
    requires |quad| == 4
  {
    (if quad[0] == '=' then 1 else 0) + (if quad[1] == '=' then 1 else 0) +
    (if quad[2] == '=' then 1 else 0) + (if quad[3] == '=' then 1 else 0)
  }

  /** The digit's number, padding counting as zero. */
  function PaddedVal(c: char): (r: Option<nat>)
    ensures r.Some? ==> r.value < 64
  {
    if c == '=' then Some(0) else Val(c)
  }

  /** Four characters back to one to three bytes; padding may only trail. */
  function DecodeQuad(quad: string): (r: Option<seq<byte>>)
    requires |quad| == 4
    ensures r.Some? ==> |r.value| == 3 - PadCount(quad) && 1 <= |r.value|
  {
    var pad := PadCount(quad);
    if pad > 2 then None
    else if pad > 0 && (quad[3] != '=' || (pad == 2 && quad[2] != '=')) then None
    else
      match (PaddedVal(quad[0]), PaddedVal(quad[1]), PaddedVal(quad[2]), PaddedVal(quad[3]))
      case (Some(v0), Some(v1), Some(v2), Some(v3)) =>
        Some(Bytes(v0 * 262144 + v1 * 4096 + v2 * 64 + v3, 3 - pad))
      case _ => None
  }

  /** The first `count` bytes of a 24-bit group. */
  function Bytes(n: nat, count: nat): (r: seq<byte>)
    requires 1 <= count <= 3
    ensures |r| == count
  {
    [n / 65536 % 256] +
    (if count > 1 then [n / 256 % 256] else []) +
    (if count > 2 then [n % 256] else [])
  }

  function Decode(input: string): Option<seq<byte>> {
    if |input| % 4 != 0 then None else DecodeQuads(input)
  }

  function DecodeQuads(input: string): Option<seq<byte>>
    requires |input| % 4 == 0
  {
    if input == [] then Some([])
    else
      match (DecodeQuad(input[..4]), DecodeQuads(input[4..]))
      case (Some(head), Some(tail)) => Some(head + tail)
      case _ => None
  }

  /** `front` before whatever decodes. */
  ghost function Prepend(front: seq<byte>, r: Option<seq<byte>>): Option<seq<byte>> {
    if r.Some? then Some(front + r.value) else None
  }

  lemma PrependTwice(a: seq<byte>, b: seq<byte>, r: Option<seq<byte>>)
    ensures Prepend(a, Prepend(b, r)) == Prepend(a + b, r)
    ensures Prepend([], r) == r
  {
    if r.Some? {
      assert a + (b + r.value) == (a + b) + r.value && [] + r.value == r.value;
    }
  }

  lemma DecodeStep(rest: string)
    requires rest != [] && |rest| % 4 == 0
    ensures DecodeQuads(rest) ==
      match DecodeQuad(rest[..4]) case Some(head) => Prepend(head, DecodeQuads(rest[4..])) case None => None
  {
    hide DecodeQuad;
  }

  /** Whole quads up to `i`, and from there on. */
  ghost predicate Aligned(input: string, i: nat) {
    |input| % 4 == 0 && i % 4 == 0 && i <= |input|
  }

  /** What is still to decode after `i` characters, behind what was decoded from them. */
  ghost function Pending(out: seq<byte>, input: string, i: nat): Option<seq<byte>>
    requires Aligned(input, i)
  {
    Prepend(out, DecodeQuads(input[i..]))
  }

  lemma PendingStep(out: seq<byte>, input: string, i: nat)
    requires Aligned(input, i) && i < |input|
    ensures i + 4 <= |input| && Aligned(input, i + 4)
    ensures var quad := DecodeQuad(input[i..i + 4]);
            Pending(out, input, i) == if quad.Some? then Pending(out + quad.value, input, i + 4) else None
  {
    hide DecodeQuad, DecodeQuads;
    var rest := input[i..];
    assert rest[..4] == input[i..i + 4] && rest[4..] == input[i + 4..];
    DecodeStep(rest);
    var quad := DecodeQuad(input[i..i + 4]);
    if quad.Some? {
      PrependTwice(out, quad.value, DecodeQuads(input[i + 4..]));
    }
  }

  lemma PendingStarts(input: string)
    requires |input| % 4 == 0
    ensures Aligned(input, 0) && Pending([], input, 0) == Decode(input)
  {
    PrependTwice([], [], DecodeQuads(input));
    assert input[0..] == input;
  }

  lemma PendingEnds(out: seq<byte>, input: string, i: nat)
    requires Aligned(input, i) && i >= |input|
    ensures Pending(out, input, i) == Some(out)
  {
    assert input[i..] == [] && out + [] == out;
  }

  /** `b64_decode`: its loop over chunks of four, giving up at the first bad one. */
  method B64Decode(input: string) returns (r: Option<seq<byte>>)
    ensures r == Decode(input)
  {
    if |input| % 4 != 0 {
      return None;
    }
    PendingStarts(input);
    hide *;
    var out: seq<byte> := [];
    var i := 0;
    while i < |input|
      invariant 0 <= i && Aligned(input, i)
      invariant Pending(out, input, i) == Decode(input)
    {
      PendingStep(out, input, i);
      var quad := DecodeQuad(input[i..i + 4]);
      if quad == None {
        return None;
      }
      out := out + quad.value;
      i := i + 4;
    }
    PendingEnds(out, input, i);
    return Some(out);
  }

  lemma DivMod(n: nat, d: nat, q: nat, r: nat)
    requires r < d && n == q * d + r
    ensures n / d == q && n % d == r
  {
    var k := n / d - q;
    assert n == n / d * d + n % d;
    assert k * d == r - n % d;
    Multiple(k, d);
  }

  lemma Multiple(k: int, d: int)
    requires d >= 0
    ensures (k >= 1 ==> k * d >= d) && (k <= -1 ==> k * d <= -d)
  {
    assert k >= 1 ==> (k - 1) * d >= 0;
    assert k <= -1 ==> (-k - 1) * d >= 0;
  }

  lemma SextetsOfGroup(n: nat)
    requires n < 0x100_0000
    ensures n == Sextet(n, 0) * 262144 + Sextet(n, 1) * 4096 + Sextet(n, 2) * 64 + Sextet(n, 3)
  {
    var a := n / 64;
    var b := a / 64;
    var c := b / 64;
    assert n == 64 * a + n % 64 && a == 64 * b + a % 64 && b == 64 * c + b % 64;
    DivMod(n, 4096, b, a % 64 * 64 + n % 64);
    DivMod(n, 262144, c, b % 64 * 4096 + a % 64 * 64 + n % 64);
    assert c % 64 == c;
  }

  lemma GroupParts(b0: byte, b1: byte, b2: byte, n: nat)
    requires n == b0 * 65536 + b1 * 256 + b2
    ensures n / 65536 % 256 == b0 && n / 256 % 256 == b1 && n % 256 == b2
  {
    DivMod(n, 65536, b0, b1 * 256 + b2);
    DivMod(n, 256, b0 * 256 + b1, b2);
    DivMod(b0 * 256 + b1, 256, b0, b1);
  }

  lemma SpareBits(b0: byte, b1: byte, n: nat)
    requires n == b0 * 65536 + b1 * 256
    ensures n % 64 == 0 && (b1 == 0 ==> n / 64 % 64 == 0)
  {
    DivMod(n, 64, b0 * 1024 + b1 * 4, 0);
    if b1 == 0 {
      DivMod(b0 * 1024, 64, b0 * 16, 0);
    }
  }

  lemma GroupOfBytes(chunk: seq<byte>)
    requires 1 <= |chunk| <= 3
    ensures Bytes(Group(chunk), |chunk|) == chunk
    ensures |chunk| < 3 ==> Sextet(Group(chunk), 3) == 0
    ensures |chunk| < 2 ==> Sextet(Group(chunk), 2) == 0
  {
    var (b0, b1, b2) := (chunk[0], if |chunk| > 1 then chunk[1] else 0, if |chunk| > 2 then chunk[2] else 0);
    GroupParts(b0, b1, b2, Group(chunk));
    if |chunk| < 3 {
      SpareBits(b0, b1, Group(chunk));
    }
  }

  lemma ChunkRoundTrip(chunk: seq<byte>)
    requires 1 <= |chunk| <= 3
    ensures DecodeQuad(EncodeChunk(chunk)) == Some(chunk)
    ensures PadCount(EncodeChunk(chunk)) == 3 - |chunk|
  {
    var n := Group(chunk);
    var quad := EncodeChunk(chunk);
    SextetsOfGroup(n);
    GroupOfBytes(chunk);
    DigitOfVal('=');
    assert forall i :: 0 <= i < 4 ==> Digit(Sextet(n, i)) != '=';
    assert PadCount(quad) == 3 - |chunk|;
    assert forall i :: 0 <= i < 4 ==> PaddedVal(quad[i]) == Some(Sextet(n, i));
  }

  /** The first chunk of `x`, as the encoder cuts it. */
  function FirstChunk(x: seq<byte>): (head: seq<byte>)
    requires x != []
    ensures 1 <= |head| <= 3 && |head| <= |x|
    ensures x == head + x[|head|..]
    ensures Encode(x) == EncodeChunk(head) + Encode(x[|head|..])
    ensures |head| < 3 ==> head == x
  {
    assert |x| <= 3 ==> EncodeChunk(x) + [] == EncodeChunk(x);
    if |x| <= 3 then x else x[..3]
  }

  lemma DecodeCons(quad: string, rest: string)
    requires |quad| == 4 && |rest| % 4 == 0
    requires DecodeQuad(quad).Some? && DecodeQuads(rest).Some?
    ensures DecodeQuads(quad + rest) == Some(DecodeQuad(quad).value + DecodeQuads(rest).value)
  {
    assert (quad + rest)[..4] == quad && (quad + rest)[4..] == rest;
  }

  lemma {:induction false} QuadsRoundTrip(x: seq<byte>)
    ensures |Encode(x)| % 4 == 0 && DecodeQuads(Encode(x)) == Some(x)
  {
    hide DecodeQuad, EncodeChunk;
    if x != [] {
      var head := FirstChunk(x);
      var tail := x[|head|..];
      var rest := Encode(tail);
      ChunkRoundTrip(head);
      QuadsRoundTrip(tail);
      DecodeCons(EncodeChunk(head), rest);
    }
  }

  /** Decoding what was encoded gives every byte sequence back. */
  lemma RoundTrip(x: seq<byte>)
    ensures Decode(Encode(x)) == Some(x)
  {
    QuadsRoundTrip(x);
  }

  /** Four characters for every three bytes begun. */
  lemma {:induction false} EncodedLength(x: seq<byte>)
    ensures |Encode(x)| == 4 * ((|x| + 2) / 3)
  {
    hide EncodeChunk;
    if |x| > 3 {
      EncodedLength(x[3..]);
    }
  }

  lemma ChunkAlphabet(chunk: seq<byte>)
    requires 1 <= |chunk| <= 3
    ensures forall i :: 0 <= i < 4 ==>
              if i <= |chunk| then Val(EncodeChunk(chunk)[i]).Some? else EncodeChunk(chunk)[i] == '='
  {
    hide Group, Sextet, Digit;
  }

  /** Characters of an encoding: alphabet digits, then the one or two `=` the length asks
      for. */
  lemma {:induction false} EncodedAlphabet(x: seq<byte>)
    ensures var pad := (3 - |x| % 3) % 3;
            && |Encode(x)| >= pad
            && (forall i :: 0 <= i < |Encode(x)| - pad ==> Val(Encode(x)[i]).Some?)
            && (forall i :: |Encode(x)| - pad <= i < |Encode(x)| ==> Encode(x)[i] == '=')
  {
    hide EncodeChunk, Val, Encode;
    EncodedLength(x);
    if x != [] {
      var head := FirstChunk(x);
      var tail := x[|head|..];
      var quad := EncodeChunk(head);
      ChunkAlphabet(head);
      EncodedAlphabet(tail);
      EncodedLength(tail);
      var pad := (3 - |x| % 3) % 3;
      assert |head| < 3 ==> tail == [] && pad == 3 - |head|;
      assert |head| == 3 ==> pad == (3 - |tail| % 3) % 3 && forall i :: 0 <= i < 4 ==> Val(quad[i]).Some?;
      forall i | 0 <= i < |Encode(x)|
        ensures if i < |Encode(x)| - pad then Val(Encode(x)[i]).Some? else Encode(x)[i] == '='
      {
        assert Encode(x)[i] == if i < 4 then quad[i] else Encode(tail)[i - 4];
      }
    }
  }

  /** Canonical base64 (RFC 4648 section 3.5): padding only in the last quad, and the bits
      the padding leaves over are zero. */
  ghost predicate Canonical(s: string) {
    && |s| % 4 == 0
    && (s != [] ==> if |s| == 4 then CanonicalQuad(s) else PadCount(s[..4]) == 0 && Canonical(s[4..]))
  }

  ghost predicate CanonicalQuad(quad: string)
    requires |quad| == 4
  {
    match PadCount(quad)
    case 0 => true
    case 1 => Val(quad[2]).Some? && Val(quad[2]).value % 4 == 0
    case _ => Val(quad[1]).Some? && Val(quad[1]).value % 16 == 0
  }

  lemma QuadReencodes(quad: string)
    requires |quad| == 4 && DecodeQuad(quad).Some?
    ensures EncodeChunk(DecodeQuad(quad).value) == quad <==> CanonicalQuad(quad)
  {
    forall i | 0 <= i < 4
      ensures quad[i] != '=' ==> Val(quad[i]).Some? && Digit(Val(quad[i]).value) == quad[i]
      ensures Val('=') == None
    {
      DigitOfVal(quad[i]);
    }
    var x := DecodeQuad(quad).value;
    var v0, v1 := PaddedVal(quad[0]).value, PaddedVal(quad[1]).value;
    var v2, v3 := PaddedVal(quad[2]).value, PaddedVal(quad[3]).value;
    GroupOfDecoded(v0, v1, v2, v3, |x|);
  }

  /** Decoding `count` bytes keeps the group's leading bits and clears the rest. */
  lemma GroupOfDecoded(v0: nat, v1: nat, v2: nat, v3: nat, count: nat)
    requires v0 < 64 && v1 < 64 && v2 < 64 && v3 < 64 && 1 <= count <= 3
    ensures var m := Group(Bytes(v0 * 262144 + v1 * 4096 + v2 * 64 + v3, count));
            && Sextet(m, 0) == v0
            && Sextet(m, 1) == (if count == 1 then v1 - v1 % 16 else v1)
            && (count > 1 ==> Sextet(m, 2) == if count == 2 then v2 - v2 % 4 else v2)
            && (count > 2 ==> Sextet(m, 3) == v3)
  {
    hide Sextet, Group, Bytes;
    var n := v0 * 262144 + v1 * 4096 + v2 * 64 + v3;
    assert n / 65536 == v0 * 4 + v1 / 16;
    assert n / 256 == v0 * 1024 + v1 * 16 + v2 / 4;
    GroupOfTruncated(n, count);
    if count == 3 {
      SextetsAre(v0, v1, v2, v3);
    } else if count == 2 {
      SextetsAre(v0, v1, v2 - v2 % 4, 0);
    } else {
      SextetsAre(v0, v1 - v1 % 16, 0, 0);
    }
  }

  lemma GroupOfTruncated(n: nat, count: nat)
    requires n < 0x100_0000 && 1 <= count <= 3
    ensures Group(Bytes(n, count)) ==
            if count == 3 then n else if count == 2 then n / 256 * 256 else n / 65536 * 65536
  {
    assert n / 65536 < 256;
    assert n / 256 == n / 65536 * 256 + n / 256 % 256;
  }

  lemma SextetsAre(v0: nat, v1: nat, v2: nat, v3: nat)
    requires v0 < 64 && v1 < 64 && v2 < 64 && v3 < 64
    ensures var n := v0 * 262144 + v1 * 4096 + v2 * 64 + v3;
            Sextet(n, 0) == v0 && Sextet(n, 1) == v1 && Sextet(n, 2) == v2 && Sextet(n, 3) == v3
  {
    var n := v0 * 262144 + v1 * 4096 + v2 * 64 + v3;
    assert n / 64 == v0 * 4096 + v1 * 64 + v2;
    assert n / 4096 == v0 * 64 + v1;
    assert n / 262144 == v0;
  }

  /** Re-encoding a decoded string gives it back exactly when it is canonical. */
  lemma {:induction false} ReencodeIffCanonical(s: string)
    requires Decode(s).Some?
    ensures Encode(Decode(s).value) == s <==> Canonical(s)
  {
    if s != [] {
      var head, tail := DecodeQuad(s[..4]).value, DecodeQuads(s[4..]).value;
      var x := head + tail;
      QuadReencodes(s[..4]);
      if |s| == 4 {
        assert s[..4] == s && s[4..] == [] && tail == [] && x == head;
      } else {
        TailNonEmpty(s[4..]);
        ReencodeIffCanonical(s[4..]);
        if |head| == 3 {
          assert x[..3] == head && x[3..] == tail;
          assert Encode(x) == EncodeChunk(head) + Encode(tail);
          assert s == s[..4] + s[4..];
          assert Encode(x)[..4] == EncodeChunk(head) && Encode(x)[4..] == Encode(tail);
        } else {
          EncodedLength(x);
          if |x| > 3 {
            PaddingOnlyLast(x);
          }
        }
      }
    }
  }

  lemma TailNonEmpty(s: string)
    requires Decode(s).Some? && s != []
    ensures Decode(s).value != []
  {
  }

  /** Every quad of an encoding but the last is free of padding. */
  lemma PaddingOnlyLast(x: seq<byte>)
    requires |x| > 3
    ensures |Encode(x)| > 4 && PadCount(Encode(x)[..4]) == 0
  {
    EncodedLength(x);
    ChunkRoundTrip(x[..3]);
    assert Encode(x)[..4] == EncodeChunk(x[..3]);
  }

  // ---- what is accepted ---------------------------------------------------------------

  /** Two, three or four digits, filled up with padding. */
  predicate GoodQuad(quad: string)
    requires |quad| == 4
  {
    && Val(quad[0]).Some? && Val(quad[1]).Some?
    && (Val(quad[2]).Some? || (quad[2] == '=' && quad[3] == '='))
    && (Val(quad[3]).Some? || quad[3] == '=')
  }

  ghost predicate GoodQuads(s: string)
    requires |s| % 4 == 0
  {
    forall k :: 0 <= k < |s| / 4 ==> GoodQuad(s[4 * k..4 * k + 4])
  }

  lemma QuadAcceptedIff(quad: string)
    requires |quad| == 4
    ensures DecodeQuad(quad).Some? <==> GoodQuad(quad)
  {
    DigitOfVal('=');
    hide Val, Bytes;
  }

  /** Exactly these strings are accepted: whole quads, each with padding at its own end only. */
  lemma {:induction false} AcceptedIff(s: string)
    ensures Decode(s).Some? <==> |s| % 4 == 0 && GoodQuads(s)
    decreases |s|
  {
    hide DecodeQuad, GoodQuad;
    if |s| % 4 == 0 && s != [] {
      var rest := s[4..];
      QuadAcceptedIff(s[..4]);
      AcceptedIff(rest);
      assert s[4 * 0..4 * 0 + 4] == s[..4];
      forall k | 0 <= k < |rest| / 4
        ensures rest[4 * k..4 * k + 4] == s[4 * (k + 1)..4 * (k + 1) + 4]
      {
      }
      if forall k :: 0 <= k < |rest| / 4 ==> GoodQuad(rest[4 * k..4 * k + 4]) {
        forall k | 0 < k < |s| / 4
          ensures GoodQuad(s[4 * k..4 * k + 4])
        {
          assert GoodQuad(rest[4 * (k - 1)..4 * (k - 1) + 4]);
        }
      }
      if forall k :: 0 <= k < |s| / 4 ==> GoodQuad(s[4 * k..4 * k + 4]) {
        forall k | 0 <= k < |rest| / 4
          ensures GoodQuad(rest[4 * k..4 * k + 4])
        {
          assert GoodQuad(s[4 * (k + 1)..4 * (k + 1) + 4]);
        }
      }
    }
  }

  /** Well-formed base64 as the decoder's comment has it: a length in fours, digits of the
      alphabet, and padding nowhere but in the last two places. */
  ghost predicate WellFormed64(s: string) {
    && |s| % 4 == 0
    && (forall i :: 0 <= i < |s| ==> Val(s[i]).Some? || (s[i] == '=' && i >= |s| - 2))
    && (s != [] && s[|s| - 2] == '=' ==> s[|s| - 1] == '=')
  }

  /** All well-formed strings are accepted; a malformed one is accepted exactly when it has
      padding at the end of a quad before the last, and is well-formed quad by quad. */
  lemma MisplacedPaddingIff(s: string)
    ensures WellFormed64(s) ==> Decode(s).Some?
    ensures Decode(s).Some? && !WellFormed64(s) <==>
            |s| % 4 == 0 && GoodQuads(s) && exists i :: 0 <= i < |s| - 4 && s[i] == '='
  {
    AcceptedIff(s);
    if |s| % 4 == 0 {
      WellFormedIff(s);
    }
    hide Decode, WellFormed64, GoodQuad;
  }

  /** Well-formed is: well-formed quad by quad, and no padding before the last one. */
  lemma WellFormedIff(s: string)
    requires |s| % 4 == 0
    ensures WellFormed64(s) <==> GoodQuads(s) && forall i :: 0 <= i < |s| - 4 ==> s[i] != '='
  {
    DigitOfVal('=');
    hide Val;
    if WellFormed64(s) {
      forall k | 0 <= k < |s| / 4
        ensures GoodQuad(s[4 * k..4 * k + 4])
      {
        QuadAt(s, k);
      }
    }
    if GoodQuads(s) {
      QuadsAreDigits(s);
    }
  }

  lemma QuadAt(s: string, k: nat)
    requires 4 * k + 4 <= |s|
    ensures var quad := s[4 * k..4 * k + 4];
            quad[0] == s[4 * k] && quad[1] == s[4 * k + 1] && quad[2] == s[4 * k + 2] && quad[3] == s[4 * k + 3]
  {
  }

  lemma QuadsAreDigits(s: string)
    requires |s| % 4 == 0 && GoodQuads(s)
    ensures forall i :: 0 <= i < |s| ==> Val(s[i]).Some? || (s[i] == '=' && i % 4 >= 2)
    ensures s != [] && s[|s| - 2] == '=' ==> s[|s| - 1] == '='
  {
    DigitOfVal('=');
    hide Val;
    forall i | 0 <= i < |s|
      ensures Val(s[i]).Some? || (s[i] == '=' && i % 4 >= 2)
    {
      var k := i / 4;
      QuadAt(s, k);
      assert GoodQuad(s[4 * k..4 * k + 4]) && s[i] == s[4 * k..4 * k + 4][i - 4 * k];
    }
    if s != [] {
      var k := |s| / 4 - 1;
      QuadAt(s, k);
      assert GoodQuad(s[4 * k..4 * k + 4]) && 4 * k + 2 == |s| - 2;
    }
  }

  /** One such string: the encoding of one byte, twice. */
  lemma PaddedTwice()
    ensures Decode("QQ==QQ==") == Some([65, 65]) && !WellFormed64("QQ==QQ==")
  {
    var quad := "QQ==";
    assert "QQ==QQ==" == quad + quad && "QQ==QQ=="[2] == '=';
    DigitOfVal('=');
    QuadOfOneByte();
    hide DecodeQuad, Val;
    DecodeCons(quad, "");
    assert quad + "" == quad && [65] + [] == [65];
    DecodeCons(quad, quad);
    assert [65] + [65] == [65, 65];
    var s := "QQ==QQ==";
    assert !(Val(s[2]).Some? || (s[2] == '=' && 2 >= |s| - 2));
  }

  lemma QuadOfOneByte()
    ensures DecodeQuad("QQ==") == Some([65]) && DecodeQuads("") == Some([])
  {
    assert Bytes(16 * 262144 + 16 * 4096, 1) == [65];
  }

  // ---- the code itself ----------------------------------------------------------------------

  /** Table 1 of RFC 4648. */
  const ALPHABET: string := UPPER + (LOWER + DIGITS_AND_SIGNS)
  const UPPER := "ABCDEFGHIJKLMNOPQRSTUVWXYZ"
  const LOWER := "abcdefghijklmnopqrstuvwxyz"
  const DIGITS_AND_SIGNS := "0123456789+/"

  lemma Table()
    ensures |UPPER| == 26 && forall n :: 0 <= n < 26 ==> UPPER[n] == 'A' + n as char
    ensures |LOWER| == 26 && forall n :: 0 <= n < 26 ==> LOWER[n] == 'a' + n as char
    ensures |DIGITS_AND_SIGNS| == 12 && DIGITS_AND_SIGNS[10] == '+' && DIGITS_AND_SIGNS[11] == '/'
    ensures forall n :: 0 <= n < 10 ==> DIGITS_AND_SIGNS[n] == '0' + n as char
  {
  }

  lemma DigitIsInTable(n: nat)
    requires n < 64
    ensures |ALPHABET| == 64 && ALPHABET[n] == Digit(n)
  {
    Table();
    hide Val;
    assert ALPHABET[n] == if n < 26 then UPPER[n] else if n < 52 then LOWER[n - 26] else DIGITS_AND_SIGNS[n - 52];
  }

  /** `c` stands for `p`: it has that place in the alphabet, or is padding, which stands for 0. */
  ghost predicate StandsFor(c: char, p: nat) {
    (p < |ALPHABET| && ALPHABET[p] == c) || (c == '=' && p == 0)
  }

  /** Byte `i` of `x`, or 0 past its end. */
  function ByteAt(x: seq<byte>, i: nat): int {
    if i < |x| then x[i] else 0
  }

  lemma SextetsMakeGroup(n: nat)
    requires n < 0x100_0000
    ensures Sextet(n, 0) * 262144 + Sextet(n, 1) * 4096 + Sextet(n, 2) * 64 + Sextet(n, 3) == n
  {
    DividedTwice(n);
    var a := n / 64;
    var b := a / 64;
    var c := b / 64;
    assert c < 64;
    assert n == 64 * a + n % 64 && a == 64 * b + a % 64 && b == 64 * c + b % 64;
  }

  lemma DividedTwice(n: nat)
    ensures n / 64 / 64 == n / 4096 && n / 64 / 64 / 64 == n / 262144
  {
  }

  lemma ChunkSpells(chunk: seq<byte>) returns (p: seq<nat>)
    requires 1 <= |chunk| <= 3
    ensures |p| == 4 && forall k :: 0 <= k < 4 ==> StandsFor(EncodeChunk(chunk)[k], p[k])
    ensures p[0] * 262144 + p[1] * 4096 + p[2] * 64 + p[3]
         == ByteAt(chunk, 0) * 65536 + ByteAt(chunk, 1) * 256 + ByteAt(chunk, 2)
  {
    hide Digit, ALPHABET;
    var n := Group(chunk);
    p := [Sextet(n, 0), Sextet(n, 1), Sextet(n, 2), Sextet(n, 3)];
    DigitIsInTable(p[0]);
    DigitIsInTable(p[1]);
    DigitIsInTable(p[2]);
    DigitIsInTable(p[3]);
    SextetsMakeGroup(n);
    PaddingIsZero(chunk);
    hide Sextet, Group;
  }

  lemma PaddingIsZero(chunk: seq<byte>)
    requires 1 <= |chunk| <= 3
    ensures Group(chunk) == ByteAt(chunk, 0) * 65536 + ByteAt(chunk, 1) * 256 + ByteAt(chunk, 2)
    ensures |chunk| < 3 ==> Sextet(Group(chunk), 3) == 0
    ensures |chunk| < 2 ==> Sextet(Group(chunk), 2) == 0
  {
  }

  /** As section 4 of RFC 4648 has it: the places of every four characters in the alphabet are the three
      bytes they encode, read as one number of 24 bits, with zeros for the bytes that are missing. */
  lemma {:induction false} QuadsSpellBytes(x: seq<byte>, i: nat) returns (p: seq<nat>)
    requires 3 * i < |x|
    ensures |p| == 4 && 4 * i + 4 <= |Encode(x)|
    ensures forall k :: 0 <= k < 4 ==> StandsFor(Encode(x)[4 * i + k], p[k])
    ensures p[0] * 262144 + p[1] * 4096 + p[2] * 64 + p[3]
         == ByteAt(x, 3 * i) * 65536 + ByteAt(x, 3 * i + 1) * 256 + ByteAt(x, 3 * i + 2)
    decreases i
  {
    hide EncodeChunk, Encode, StandsFor;
    EncodeStep(x);
    var head := if |x| <= 3 then x else x[..3];
    if i == 0 {
      p := ChunkSpells(head);
    } else {
      p := QuadsSpellBytes(x[3..], i - 1);
      forall k | 0 <= k < 4
        ensures StandsFor(Encode(x)[4 * i + k], p[k])
      {
        assert Encode(x)[4 * i + k] == Encode(x[3..])[4 * (i - 1) + k];
      }
    }
  }
}
