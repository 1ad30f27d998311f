/**
 The bounded, canonical base64 body of the Lambda adapter, and the bounded read of a
 response body. The encoding is that of section 4 of RFC 4648; canonical means the padding
 bits are zero, as section 3.5 asks.
 */
module Base64 {
  import opened Prelude

  // ---- the alphabet ------------------------------------------------------------------------

  /** What a character means: six bits, padding, or nothing. */
  datatype Symbol = Six(value: nat) | Pad | Foreign(c: char) {
    predicate Valid() {
      match this
      case Six(n) => n < 64
      case Pad => true
      case Foreign(c) => Meaning(c) == this
    }
  }

  function Letter(n: nat): char
    requires n < 64
  {
    if n < 26 then 'A' + n as char
    else if n < 52 then 'a' + (n - 26) as char
    else if n < 62 then '0' + (n - 52) as char
    else if n == 62 then '+'
    else '/'
  }

  function Meaning(c: char): Symbol {
    if 'A' <= c <= 'Z' then Six((c - 'A') as nat)
    else if 'a' <= c <= 'z' then Six((c - 'a') as nat + 26)
    else if '0' <= c <= '9' then Six((c - '0') as nat + 52)
    else if c == '+' then Six(62)
    else if c == '/' then Six(63)
    else if c == '=' then Pad
    else Foreign(c)
  }

  function Character(s: Symbol): char
    requires s.Valid()
  {
    match s
    case Six(n) => Letter(n)
    case Pad => '='
    case Foreign(c) => c
  }

  lemma AlphabetExact(c: char, s: Symbol)
    ensures Meaning(c).Valid() && Character(Meaning(c)) == c
    ensures s.Valid() ==> Meaning(Character(s)) == s
  {
  }

  ghost predicate AllValid(symbols: seq<Symbol>) {
    forall s <- symbols :: s.Valid()
  }

  function Text(symbols: seq<Symbol>): (r: string)
    requires AllValid(symbols)
    ensures |r| == |symbols| && forall i | 0 <= i < |r| :: r[i] == Character(symbols[i])
  {
    if symbols == [] then "" else [Character(symbols[0])] + Text(symbols[1..])
  }

  function Symbols(v: string): (r: seq<Symbol>)
    ensures |r| == |v| && forall i | 0 <= i < |r| :: r[i] == Meaning(v[i])
  {
    if v == "" then [] else [Meaning(v[0])] + Symbols(v[1..])
  }

  /** Characters and their meanings correspond one to one. */
  lemma TextExact(v: string, symbols: seq<Symbol>)
    ensures AllValid(Symbols(v))
    ensures AllValid(symbols) ==> (v == Text(symbols) <==> Symbols(v) == symbols)
  {
    forall i | 0 <= i < |v| ensures Symbols(v)[i].Valid() && Character(Symbols(v)[i]) == v[i] {
      AlphabetExact(v[i], Pad);
    }
    if AllValid(symbols) {
      forall i | 0 <= i < |symbols| ensures Meaning(Character(symbols[i])) == symbols[i] {
        AlphabetExact('=', symbols[i]);
      }
    }
  }

  // ---- packing bits ------------------------------------------------------------------------------

  function Top(x: byte): Symbol { Six(x / 4) }
  function Middle(x: byte, y: byte): Symbol { Six(x % 4 * 16 + y / 16) }
  function Lower(y: byte, z: byte): Symbol { Six(y % 16 * 4 + z / 64) }
  function Last(z: byte): Symbol { Six(z % 64) }

  function First8(a: nat, b: nat): (r: nat)
    ensures a < 64 && b < 64 ==> r < 256
  {
    a * 4 + b / 16
  }

  function Second8(b: nat, c: nat): (r: nat)
    ensures c < 64 ==> r < 256
  {
    b % 16 * 16 + c / 4
  }

  function Third8(c: nat, d: nat): (r: nat)
    ensures d < 64 ==> r < 256
  {
    c % 4 * 64 + d
  }

  /** Three bytes into four sextets and back. */
  lemma Unpack(x: byte, y: byte, z: byte)
    ensures Top(x).Valid() && Middle(x, y).Valid() && Lower(y, z).Valid() && Last(z).Valid()
    ensures First8(Top(x).value, Middle(x, y).value) == x
    ensures Second8(Middle(x, y).value, Lower(y, z).value) == y
    ensures Third8(Lower(y, z).value, Last(z).value) == z
  {
  }

  /** Four sextets into three bytes and back. */
  lemma Repack(a: nat, b: nat, c: nat, d: nat)
    requires a < 64 && b < 64 && c < 64 && d < 64
    ensures Top(First8(a, b)) == Six(a)
    ensures Middle(First8(a, b), Second8(b, c)) == Six(b)
    ensures Lower(Second8(b, c), Third8(c, d)) == Six(c)
    ensures Last(Third8(c, d)) == Six(d)
  {
  }

  // ---- encoding -----------------------------------------------------------------------------------

  /** A last group of one or two bytes is filled up with zero bits and padding. */
  function Encode(b: Bytes): seq<Symbol>
    decreases |b|
  {
    if |b| == 0 then []
    else if |b| == 1 then [Top(b[0]), Middle(b[0], 0), Pad, Pad]
    else if |b| == 2 then [Top(b[0]), Middle(b[0], b[1]), Lower(b[1], 0), Pad]
    else [Top(b[0]), Middle(b[0], b[1]), Lower(b[1], b[2]), Last(b[2])] + Encode(b[3..])
  }

  // ---- shape and lenient decoding -------------------------------------------------------------------

  predicate IsSix(s: Symbol) {
    s.Six? && s.value < 64
  }

  /** Full groups of four letters, then at most one padded group. */
  predicate Shape(v: seq<Symbol>)
    decreases |v|
  {
    v == [] ||
    (|v| >= 4 && IsSix(v[0]) && IsSix(v[1]) &&
     if IsSix(v[2]) && IsSix(v[3]) then Shape(v[4..])
     else |v| == 4 && v[3] == Pad && (v[2] == Pad || IsSix(v[2])))
  }

  /** Decodes a well-shaped text and ignores padding bits. */
  function Decode(v: seq<Symbol>): Bytes
    requires Shape(v)
    decreases |v|
  {
    if v == [] then []
    else if v[2] == Pad then [First8(v[0].value, v[1].value)]
    else if v[3] == Pad then [First8(v[0].value, v[1].value), Second8(v[1].value, v[2].value)]
    else
      [First8(v[0].value, v[1].value), Second8(v[1].value, v[2].value), Third8(v[2].value, v[3].value)]
      + Decode(v[4..])
  }

  function CeilThird(n: nat): nat {
    (n + 2) / 3
  }

  function DecodeBounded(text: string, maximum: nat): Option<Bytes> {
    var v := Symbols(text);
    if |v| > 4 * CeilThird(maximum) || |v| % 4 != 0 || !Shape(v) then None
    else
      var decoded := Decode(v);
      if |decoded| > maximum || Encode(decoded) != v then None else Some(decoded)
  }

  // ---- the codec is exact -----------------------------------------------------------------------------

  lemma {:induction false} EncodedLength(b: Bytes)
    ensures |Encode(b)| == 4 * CeilThird(|b|) && AllValid(Encode(b))
    decreases |b|
  {
    if |b| >= 3 {
      EncodedLength(b[3..]);
    }
  }

  lemma FullGroupDecodes(x: byte, y: byte, z: byte, rest: seq<Symbol>)
    requires Shape(rest)
    ensures var v := [Top(x), Middle(x, y), Lower(y, z), Last(z)] + rest;
            Shape(v) && Decode(v) == [x, y, z] + Decode(rest)
  {
    Unpack(x, y, z);
    var v := [Top(x), Middle(x, y), Lower(y, z), Last(z)] + rest;
    assert v[4..] == rest;
    assert v[0] == Top(x) && v[1] == Middle(x, y) && v[2] == Lower(y, z) && v[3] == Last(z);
  }

  lemma OneByte(x: byte)
    ensures Shape(Encode([x])) && Decode(Encode([x])) == [x]
  {
  }

  lemma TwoBytes(x: byte, y: byte)
    ensures Shape(Encode([x, y])) && Decode(Encode([x, y])) == [x, y]
  {
  }

  lemma {:induction false} DecodeEncode(b: Bytes)
    ensures Shape(Encode(b)) && Decode(Encode(b)) == b
    decreases |b|
  {
    if |b| == 1 {
      OneByte(b[0]);
      assert b == [b[0]];
    } else if |b| == 2 {
      TwoBytes(b[0], b[1]);
      assert b == [b[0], b[1]];
    } else if |b| >= 3 {
      DecodeEncode(b[3..]);
      FullGroupDecodes(b[0], b[1], b[2], Encode(b[3..]));
      assert b == [b[0], b[1], b[2]] + b[3..];
    }
  }

  lemma LengthFits(n: nat, maximum: nat)
    requires n <= maximum
    ensures 4 * CeilThird(n) <= 4 * CeilThird(maximum) && 4 * CeilThird(n) % 4 == 0
  {
  }

  /** Decoding succeeds, with these bytes, exactly on their canonical encoding within the
      limit. So the length pre-check never rejects a valid body, and a text has at most one
      decoding. */
  lemma DecodeBoundedExact(text: string, maximum: nat, b: Bytes)
    ensures AllValid(Encode(b))
    ensures DecodeBounded(text, maximum) == Some(b) <==> text == Text(Encode(b)) && |b| <= maximum
  {
    EncodedLength(b);
    DecodeEncode(b);
    TextExact(text, Encode(b));
    if |b| <= maximum {
      LengthFits(|b|, maximum);
    }
  }

  /** The bits that padding leaves unused. */
  predicate PaddingIsZero(v: seq<Symbol>)
    requires Shape(v)
    decreases |v|
  {
    v == [] ||
    (if v[2] == Pad then v[1].value % 16 == 0
     else if v[3] == Pad then v[2].value % 4 == 0
     else PaddingIsZero(v[4..]))
  }

  lemma FullGroup(v: seq<Symbol>)
    requires Shape(v) && v != [] && v[2] != Pad && v[3] != Pad
    ensures Encode(Decode(v)) == v[..4] + Encode(Decode(v[4..]))
    ensures Encode(Decode(v)) == v <==> Encode(Decode(v[4..])) == v[4..]
  {
    var a, b, c, d := v[0].value, v[1].value, v[2].value, v[3].value;
    Repack(a, b, c, d);
    var decoded := Decode(v);
    assert decoded[3..] == Decode(v[4..]);
    assert v[..4] == [Six(a), Six(b), Six(c), Six(d)];
    var rest := Encode(Decode(v[4..]));
    assert (v[..4] + rest)[4..] == rest;
    assert v == v[..4] + v[4..];
  }

  lemma PaddedTwice(a: nat, b: nat)
    requires a < 64 && b < 64
    ensures Encode([First8(a, b)]) == [Six(a), Six(b), Pad, Pad] <==> b % 16 == 0
  {
    var x := First8(a, b);
    assert Top(x) == Six(a);
    assert Middle(x, 0) == Six(b - b % 16);
  }

  lemma PaddedOnce(a: nat, b: nat, c: nat)
    requires a < 64 && b < 64 && c < 64
    ensures Encode([First8(a, b), Second8(b, c)]) == [Six(a), Six(b), Six(c), Pad] <==> c % 4 == 0
  {
    var x, y := First8(a, b), Second8(b, c);
    assert Top(x) == Six(a) && Middle(x, y) == Six(b);
    assert Lower(y, 0) == Six(c - c % 4);
  }

  /** A well-shaped text is canonical exactly when its padding bits are zero. */
  lemma {:induction false} CanonicalIffPaddingIsZero(v: seq<Symbol>)
    requires Shape(v)
    ensures Encode(Decode(v)) == v <==> PaddingIsZero(v)
    decreases |v|
  {
    if v != [] {
      var a, b := v[0].value, v[1].value;
      if v[2] == Pad {
        PaddedTwice(a, b);
        assert v == [Six(a), Six(b), Pad, Pad];
      } else if v[3] == Pad {
        PaddedOnce(a, b, v[2].value);
        assert v == [Six(a), Six(b), v[2], Pad];
      } else {
        CanonicalIffPaddingIsZero(v[4..]);
        Repack(a, b, v[2].value, v[3].value);
        FullGroup(v);
      }
    }
  }

  // ---- the bounded response body ------------------------------------------------------------------------

  datatype BodyError = ResponseTooLarge | ReadFailed | CancelFailed

  function Total(chunks: seq<Bytes>): nat {
    if chunks == [] then 0 else Total(chunks[..|chunks| - 1]) + |chunks[|chunks| - 1]|
  }

  function Joined(chunks: seq<Bytes>): (r: Bytes)
    ensures |r| == Total(chunks)
  {
    if chunks == [] then [] else Joined(chunks[..|chunks| - 1]) + chunks[|chunks| - 1]
  }

  /** An upstream body: its chunks, whether it then fails instead of ending, and whether
      cancelling it fails. */
  datatype Upstream = Upstream(chunks: seq<Bytes>, fails: bool, cancelFails: bool)

  /** Why a body is refused. */
  function BodyRefusal(body: Upstream, maximum: nat): BodyError {
    if Total(body.chunks) <= maximum then ReadFailed
    else if body.cancelFails then CancelFailed
    else ResponseTooLarge
  }

  lemma {:induction false} TotalGrows(chunks: seq<Bytes>, i: nat)
    requires i <= |chunks|
    ensures Total(chunks[..i]) <= Total(chunks)
    decreases |chunks|
  {
    if i < |chunks| {
      assert chunks[..|chunks| - 1][..i] == chunks[..i];
      TotalGrows(chunks[..|chunks| - 1], i);
    } else {
      assert chunks[..i] == chunks;
    }
  }

  /** Copies the chunks one after the other into a buffer of their total size. */
  method JoinChunks(chunks: seq<Bytes>) returns (output: array<byte>)
    ensures fresh(output) && output[..] == Joined(chunks)
  {
    output := new byte[Total(chunks)];
    var offset := 0;
    for i := 0 to |chunks|
      invariant offset == Total(chunks[..i]) && offset <= output.Length
      invariant output[..offset] == Joined(chunks[..i])
    {
      var chunk := chunks[i];
      assert chunks[..i + 1][..i] == chunks[..i];
      TotalGrows(chunks, i + 1);
      forall k | 0 <= k < |chunk| {
        output[offset + k] := chunk[k];
      }
      offset := offset + |chunk|;
    }
    assert chunks[..|chunks|] == chunks;
  }

  /** Reads an upstream body, if there is one, into one buffer. The read succeeds exactly when
      the body ends and fits. The first chunk that would exceed the maximum decides before any
      later failure is seen; its error is replaced if cancelling the body fails. */
  method ReadBoundedBody(body: Option<Upstream>, maximum: nat) returns (r: Result<array<byte>, BodyError>)
    ensures body.None? ==> r.Ok? && r.value[..] == []
    ensures body.Some? && r.Ok? ==> r.value[..] == Joined(body.value.chunks)
    ensures body.Some? ==> (r.Ok? <==> !body.value.fails && Total(body.value.chunks) <= maximum)
    ensures r.Err? ==> body.Some? && r.error == BodyRefusal(body.value, maximum)
  {
    if body.None? {
      var none := new byte[0];
      return Ok(none);
    }
    var upstream := body.value.chunks;
    var chunks: seq<Bytes> := [];
    var total := 0;
    while |chunks| < |upstream|
      invariant |chunks| <= |upstream| && chunks == upstream[..|chunks|]
      invariant total == Total(chunks) <= maximum
      decreases |upstream| - |chunks|
    {
      var chunk := upstream[|chunks|];
      assert upstream[..|chunks| + 1][..|chunks|] == upstream[..|chunks|];
      TotalGrows(upstream, |chunks| + 1);
      if |chunk| > maximum - total {
        return Err(if body.value.cancelFails then CancelFailed else ResponseTooLarge);
      }
      chunks := chunks + [chunk];
      total := total + |chunk|;
    }
    assert chunks == upstream;
    if body.value.fails {
      return Err(ReadFailed);
    }
    var output := JoinChunks(chunks);
    r := Ok(output);
  }
}
