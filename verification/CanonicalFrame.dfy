/**
 The canonical frame: magic, type, version and field count, then fields with strictly
 increasing identifiers, each with its length. All integers are little-endian. Decoding
 accepts exactly the encodings, so a frame has one byte string and a byte string at most
 one frame.
 */
module CanonicalFrame {
  import opened Prelude

  const PROTOCOL_MAGIC: Bytes := [83, 78, 82, 69]
  const MAX_CANONICAL_FRAME_BYTES: nat := 32 * 1024 * 1024
  const FRAME_HEADER_BYTES: nat := 10
  const FIELD_HEADER_BYTES: nat := 6

  // ---- little-endian integers --------------------------------------------------------

  function ToLE(n: nat, width: nat): (r: Bytes)
    ensures |r| == width
  {
    if width == 0 then [] else [n % 256] + ToLE(n / 256, width - 1)
  }

  function FromLE(b: Bytes): nat {
    if b == [] then 0 else b[0] + 256 * FromLE(b[1..])
  }

  lemma {:induction false} FromToLE(n: nat, width: nat)
    requires n < Power(width)
    ensures FromLE(ToLE(n, width)) == n
  {
    if width > 0 {
      FromToLE(n / 256, width - 1);
      assert ToLE(n, width)[1..] == ToLE(n / 256, width - 1);
    }
  }

  lemma LowByte(low: byte, rest: nat)
    ensures (low + 256 * rest) % 256 == low && (low + 256 * rest) / 256 == rest
  {
  }

  lemma {:induction false} ToFromLE(b: Bytes)
    ensures FromLE(b) < Power(|b|) && ToLE(FromLE(b), |b|) == b
  {
    if b != [] {
      ToFromLE(b[1..]);
      LowByte(b[0], FromLE(b[1..]));
      assert b == [b[0]] + b[1..];
    }
  }

  // ---- frames ---------------------------------------------------------------------------

  datatype Field = Field(id: nat, bytes: Bytes)

  /** Identifiers increase from the previous one on, and every number fits its width. */
  ghost predicate FieldsValid(fields: seq<Field>, previous: Option<nat>) {
    fields == [] ||
    (&& (previous.Some? ==> previous.value < fields[0].id)
     && fields[0].id < Power(2) && |fields[0].bytes| < Power(4)
     && FieldsValid(fields[1..], Some(fields[0].id)))
  }

  function EncodeField(f: Field): Bytes {
    ToLE(f.id, 2) + ToLE(|f.bytes|, 4) + f.bytes
  }

  function EncodeFields(fields: seq<Field>): Bytes {
    if fields == [] then [] else EncodeField(fields[0]) + EncodeFields(fields[1..])
  }

  datatype Frame = Frame(typeId: nat, version: nat, fields: seq<Field>) {
    ghost predicate Valid() {
      && typeId < Power(2) && version < Power(2) && |fields| < Power(2)
      && FieldsValid(fields, None)
      && FRAME_HEADER_BYTES + |EncodeFields(fields)| <= MAX_CANONICAL_FRAME_BYTES
    }
  }

  function Header(typeId: nat, version: nat, count: nat): (r: Bytes)
    ensures |r| == FRAME_HEADER_BYTES
  {
    PROTOCOL_MAGIC + ToLE(typeId, 2) + ToLE(version, 2) + ToLE(count, 2)
  }

  function EncodeFrame(f: Frame): Bytes {
    Header(f.typeId, f.version, |f.fields|) + EncodeFields(f.fields)
  }

  /** The next field and the rest, or nothing if the input is truncated or out of order. */
  function TakeField(b: Bytes, previous: Option<nat>): Option<(Field, Bytes)> {
    if |b| < FIELD_HEADER_BYTES then None
    else
      var id, length := FromLE(b[..2]), FromLE(b[2..6]);
      if previous.Some? && id <= previous.value then None
      else if |b| - FIELD_HEADER_BYTES < length then None
      else Some((Field(id, b[6..6 + length]), b[6 + length..]))
  }

  function DecodeFields(b: Bytes, count: nat, previous: Option<nat>): Option<seq<Field>>
    decreases count
  {
    if count == 0 then (if b == [] then Some([]) else None)
    else
      match TakeField(b, previous)
      case None => None
      case Some((f, rest)) =>
        match DecodeFields(rest, count - 1, Some(f.id))
        case None => None
        case Some(fields) => Some([f] + fields)
  }

  function DecodeFrame(b: Bytes): Option<Frame> {
    if |b| > MAX_CANONICAL_FRAME_BYTES || |b| < FRAME_HEADER_BYTES || b[..4] != PROTOCOL_MAGIC then None
    else
      match DecodeFields(b[10..], FromLE(b[8..10]), None)
      case None => None
      case Some(fields) => Some(Frame(FromLE(b[4..6]), FromLE(b[6..8]), fields))
  }

  // ---- decoding accepts exactly the encodings ----------------------------------------------

  lemma TakenFieldEncodes(b: Bytes, previous: Option<nat>, f: Field, rest: Bytes)
    requires TakeField(b, previous) == Some((f, rest))
    ensures previous.Some? ==> previous.value < f.id
    ensures f.id < Power(2) && |f.bytes| < Power(4) && b == EncodeField(f) + rest
  {
    ToFromLE(b[..2]);
    ToFromLE(b[2..6]);
    assert b == b[..2] + b[2..6] + b[6..6 + |f.bytes|] + b[6 + |f.bytes|..];
  }

  lemma EncodedFieldIsTaken(previous: Option<nat>, f: Field, rest: Bytes)
    requires previous.Some? ==> previous.value < f.id
    requires f.id < Power(2) && |f.bytes| < Power(4)
    ensures TakeField(EncodeField(f) + rest, previous) == Some((f, rest))
  {
    var b := EncodeField(f) + rest;
    FromToLE(f.id, 2);
    FromToLE(|f.bytes|, 4);
    assert b[..2] == ToLE(f.id, 2) && b[2..6] == ToLE(|f.bytes|, 4);
    assert b[6..6 + |f.bytes|] == f.bytes && b[6 + |f.bytes|..] == rest;
  }

  lemma {:induction false} DecodedFieldsEncode(b: Bytes, count: nat, previous: Option<nat>)
    ensures match DecodeFields(b, count, previous)
            case None => true
            case Some(fields) => |fields| == count && FieldsValid(fields, previous) && b == EncodeFields(fields)
    decreases count
  {
    if count > 0 {
      match TakeField(b, previous)
      case None =>
      case Some((f, rest)) =>
        TakenFieldEncodes(b, previous, f, rest);
        DecodedFieldsEncode(rest, count - 1, Some(f.id));
        match DecodeFields(rest, count - 1, Some(f.id))
        case None =>
        case Some(fields) => assert ([f] + fields)[1..] == fields;
    }
  }

  lemma {:induction false} EncodedFieldsDecode(fields: seq<Field>, previous: Option<nat>)
    requires FieldsValid(fields, previous)
    ensures DecodeFields(EncodeFields(fields), |fields|, previous) == Some(fields)
    decreases |fields|
  {
    if fields != [] {
      var f, rest := fields[0], EncodeFields(fields[1..]);
      EncodedFieldIsTaken(previous, f, rest);
      EncodedFieldsDecode(fields[1..], Some(f.id));
      assert fields == [f] + fields[1..];
    }
  }

  lemma HeaderParts(b: Bytes, f: Frame)
    requires f.Valid() && b == EncodeFrame(f)
    ensures |b| >= FRAME_HEADER_BYTES && b[..4] == PROTOCOL_MAGIC && FromLE(b[4..6]) == f.typeId
    ensures FromLE(b[6..8]) == f.version && FromLE(b[8..10]) == |f.fields| && b[10..] == EncodeFields(f.fields)
  {
    FromToLE(f.typeId, 2);
    FromToLE(f.version, 2);
    FromToLE(|f.fields|, 2);
    assert b[4..6] == ToLE(f.typeId, 2) && b[6..8] == ToLE(f.version, 2) && b[8..10] == ToLE(|f.fields|, 2);
  }

  /** One byte string per frame and one frame per byte string. */
  lemma FrameCodecExact(b: Bytes, f: Frame)
    ensures DecodeFrame(b) == Some(f) <==> f.Valid() && b == EncodeFrame(f)
  {
    if DecodeFrame(b) == Some(f) {
      ToFromLE(b[4..6]);
      ToFromLE(b[6..8]);
      ToFromLE(b[8..10]);
      DecodedFieldsEncode(b[10..], FromLE(b[8..10]), None);
      assert b == b[..4] + b[4..6] + b[6..8] + b[8..10] + b[10..];
    }
    if f.Valid() && b == EncodeFrame(f) {
      HeaderParts(b, f);
      EncodedFieldsDecode(f.fields, None);
    }
  }

  /** The fields read so far, in front of what the rest decodes to. */
  function Before(fields: seq<Field>, rest: Option<seq<Field>>): Option<seq<Field>> {
    if rest.None? then None else Some(fields + rest.value)
  }

  lemma OneFieldRead(fields: seq<Field>, b: Bytes, count: nat, previous: Option<nat>, f: Field, tail: Bytes)
    requires count > 0 && TakeField(b, previous) == Some((f, tail))
    ensures Before(fields, DecodeFields(b, count, previous))
         == Before(fields + [f], DecodeFields(tail, count - 1, Some(f.id)))
  {
    var more := DecodeFields(tail, count - 1, Some(f.id));
    assert more.Some? ==> fields + ([f] + more.value) == (fields + [f]) + more.value;
  }

  /** The decoder's loop over the declared fields. */
  method ReadFields(b: Bytes, count: nat) returns (r: Option<seq<Field>>)
    ensures r == DecodeFields(b, count, None)
  {
    var fields: seq<Field>, previous: Option<nat>, rest := [], None, b;
    ghost var whole := DecodeFields(b, count, None);
    assert whole.Some? ==> [] + whole.value == whole.value;
    for i := 0 to count
      invariant whole == Before(fields, DecodeFields(rest, count - i, previous))
    {
      match TakeField(rest, previous)
      case None => return None;
      case Some((f, tail)) =>
        OneFieldRead(fields, rest, count - i, previous, f, tail);
        fields, previous, rest := fields + [f], Some(f.id), tail;
    }
    assert fields + [] == fields;
    r := if rest == [] then Some(fields) else None;
  }

  /** The decoder accepts exactly the encodings of valid frames. */
  method DecodeCanonicalFrame(input: Bytes) returns (r: Option<Frame>)
    ensures r == DecodeFrame(input)
    ensures r.Some? <==> exists f: Frame :: f.Valid() && input == EncodeFrame(f)
  {
    assert DecodeFrame(input).Some? <==> exists f: Frame :: f.Valid() && input == EncodeFrame(f) by {
      forall f: Frame ensures DecodeFrame(input) == Some(f) <==> f.Valid() && input == EncodeFrame(f) {
        FrameCodecExact(input, f);
      }
    }
    if |input| > MAX_CANONICAL_FRAME_BYTES || |input| < FRAME_HEADER_BYTES || input[..4] != PROTOCOL_MAGIC {
      return None;
    }
    var fields := ReadFields(input[10..], FromLE(input[8..10]));
    if fields.None? {
      return None;
    }
    r := Some(Frame(FromLE(input[4..6]), FromLE(input[6..8]), fields.value));
  }
}
