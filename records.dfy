/**
  Decoding a data message's payload into one value per field
  (sdlog2.py:153-162): `struct.unpack` with the descriptor's `<`-prefixed
  struct string, then each value with a multiplier is multiplied by it.
  An encoder is given beside it so that the decoding can be shown to be a
  bijection between payloads and well-typed records.
 */
module Records {
  import opened Bytes
  import opened Wrappers
  import opened Errors
  import opened Formats

  /**
    A decoded value. Int is an unscaled integer; Scaled(raw, factor) is the
    number raw * factor (the source computes it in floating point); F32 keeps
    the four bytes of a float; Str keeps the raw bytes of a fixed-width
    string, which Python 3's struct yields as bytes that line 158 leaves
    untrimmed. Nil is Python's None, the value of the last time before any
    time message has been seen.
   */
  datatype Value =
    | Nil
    | Int(n: int)
    | Scaled(raw: int, factor: real)
    | F32(bits: seq<Byte>)
    | Str(bytes: seq<Byte>)

  /** The number an integer value stands for. */
  function Magnitude(v: Value): real
    requires v.Int? || v.Scaled?
  {
    match v
    case Int(n) => n as real
    case Scaled(raw, factor) => raw as real * factor
  }

  /** The integer an integer field's bytes encode, two's complement for signed codes. */
  function RawInt(t: WireType, b: seq<Byte>): int
    requires IsInteger(t) && |b| == Width(t)
  {
    if IsSigned(t) then IntLE(b) else UIntLE(b)
  }

  /** What `struct.unpack` and the multiplier make of one field's bytes. */
  function DecodeField(f: FieldSpec, b: seq<Byte>): (v: Value)
    requires |b| == Width(f.wire)
    ensures v != Nil
  {
    match f.wire
    case Float32 => F32(b)
    case Chars(_) => Str(b)
    case _ =>
      var n := RawInt(f.wire, b);
      if f.scale.Some? then Scaled(n, f.scale.value) else Int(n)
  }

  /** The values of a payload of exactly the right size, field by field. */
  function DecodeAll(fields: seq<FieldSpec>, payload: seq<Byte>): (vs: seq<Value>)
    requires |payload| == TotalWidth(fields)
    ensures |vs| == |fields| && Nil !in vs
  {
    if fields == [] then []
    else
      var w := Width(fields[0].wire);
      [DecodeField(fields[0], payload[..w])] + DecodeAll(fields[1..], payload[w..])
  }

  /**
    `struct.unpack` followed by the scaling loop: fails unless the payload
    is exactly as long as the fields need, since `<` adds no padding.
   */
  function DecodeRecord(fields: seq<FieldSpec>, payload: seq<Byte>): (r: Result<seq<Value>, Error>)
    ensures r.Err? <==> |payload| != TotalWidth(fields)
    ensures r.Err? ==> r.error == SizeMismatch(TotalWidth(fields), |payload|)
    ensures r.Ok? ==> |r.value| == |fields|
  {
    if |payload| != TotalWidth(fields) then Err(SizeMismatch(TotalWidth(fields), |payload|))
    else Ok(DecodeAll(fields, payload))
  }

  /** Where field i starts in the payload. */
  function Offset(fields: seq<FieldSpec>, i: nat): nat
    requires i <= |fields|
  {
    TotalWidth(fields[..i])
  }

  /** Each field starts where the previous one ends, and the last ends at the payload's end. */
  lemma OffsetNext(fields: seq<FieldSpec>, i: nat)
    requires i < |fields|
    ensures Offset(fields, i + 1) == Offset(fields, i) + Width(fields[i].wire)
    ensures Offset(fields, i + 1) <= TotalWidth(fields)
  {
    assert fields[..i + 1] == fields[..i] + [fields[i]];
    TotalWidthAppend(fields[..i], [fields[i]]);
    assert TotalWidth([fields[i]]) == Width(fields[i].wire) by {
      assert [fields[i]][1..] == [];
    }
    assert fields == fields[..i + 1] + fields[i + 1..];
    TotalWidthAppend(fields[..i + 1], fields[i + 1..]);
  }

  /** Dropping the first field moves every later offset back by its width. */
  lemma OffsetTail(fields: seq<FieldSpec>, i: nat)
    requires 0 < i <= |fields|
    ensures Offset(fields, i) == Width(fields[0].wire) + Offset(fields[1..], i - 1)
  {
    assert fields[..i][1..] == fields[1..][..i - 1];
  }

  /** Field i of a record is decoded from its own bytes, at its offset. */
  lemma {:induction false} DecodeAllAt(fields: seq<FieldSpec>, payload: seq<Byte>, i: nat)
    requires |payload| == TotalWidth(fields) && i < |fields|
    ensures Offset(fields, i + 1) == Offset(fields, i) + Width(fields[i].wire) <= |payload|
    ensures DecodeAll(fields, payload)[i] ==
              DecodeField(fields[i], payload[Offset(fields, i)..Offset(fields, i + 1)])
  {
    OffsetNext(fields, i);
    var w := Width(fields[0].wire);
    if i == 0 {
      assert fields[..0] == [];
    } else {
      DecodeAllAt(fields[1..], payload[w..], i - 1);
      OffsetTail(fields, i);
      OffsetTail(fields, i + 1);
      assert payload[w..][Offset(fields[1..], i - 1)..Offset(fields[1..], i)]
          == payload[Offset(fields, i)..Offset(fields, i + 1)];
    }
  }

  /** The integer range of a code: what n of its bytes can hold. */
  predicate InRange(t: WireType, n: int)
    requires IsInteger(t)
  {
    var p := Pow256(Width(t));
    if IsSigned(t) then -(p / 2) <= n < p / 2 else 0 <= n < p
  }

  /** A value that a field of spec f can carry. */
  predicate Fits(f: FieldSpec, v: Value) {
    match f.wire
    case Float32 => v.F32? && |v.bits| == 4
    case Chars(n) => v.Str? && |v.bytes| == n
    case _ =>
      if f.scale.Some? then v.Scaled? && v.factor == f.scale.value && InRange(f.wire, v.raw)
      else v.Int? && InRange(f.wire, v.n)
  }

  /** The bytes a field of spec f holds for v: the inverse of DecodeField. */
  function EncodeField(f: FieldSpec, v: Value): (b: seq<Byte>)
    requires Fits(f, v)
    ensures |b| == Width(f.wire)
  {
    match f.wire
    case Float32 => v.bits
    case Chars(_) => v.bytes
    case _ => EncodeInt(f.wire, if f.scale.Some? then v.raw else v.n)
  }

  /** The payload of a record, field after field. */
  function EncodeRecord(fields: seq<FieldSpec>, vs: seq<Value>): (payload: seq<Byte>)
    requires |vs| == |fields| && forall i :: 0 <= i < |fields| ==> Fits(fields[i], vs[i])
    ensures |payload| == TotalWidth(fields)
  {
    if fields == [] then []
    else EncodeField(fields[0], vs[0]) + EncodeRecord(fields[1..], vs[1..])
  }

  /** The bytes an integer code holds for n. */
  function EncodeInt(t: WireType, n: int): (b: seq<Byte>)
    requires IsInteger(t) && InRange(t, n)
    ensures |b| == Width(t)
  {
    EncodeLE(TwosComplement(n, Pow256(Width(t))), Width(t))
  }

  /** An integer in its code's range survives encoding and decoding. */
  lemma RawIntEncodeInt(t: WireType, n: int)
    requires IsInteger(t) && InRange(t, n)
    ensures RawInt(t, EncodeInt(t, n)) == n
  {
    if IsSigned(t) {
      SignedRoundTrip(n, Width(t));
    } else {
      DecodeEncodeLE(n, Width(t));
    }
  }

  /** An integer field's bytes decode into its code's range and encode back to themselves. */
  lemma EncodeIntRawInt(t: WireType, b: seq<Byte>)
    requires IsInteger(t) && |b| == Width(t)
    ensures InRange(t, RawInt(t, b)) && EncodeInt(t, RawInt(t, b)) == b
  {
    EncodeDecodeLE(b);
    assert TwosComplement(RawInt(t, b), Pow256(|b|)) == UIntLE(b);
  }

  /** Decoding an encoded field gives back the value. */
  lemma DecodeEncodeField(f: FieldSpec, v: Value)
    requires Fits(f, v)
    ensures DecodeField(f, EncodeField(f, v)) == v
  {
    if IsInteger(f.wire) {
      RawIntEncodeInt(f.wire, if f.scale.Some? then v.raw else v.n);
    }
  }

  /** Every decoded field fits its spec, and encoding it gives back its bytes. */
  lemma EncodeDecodeField(f: FieldSpec, b: seq<Byte>)
    requires |b| == Width(f.wire)
    ensures Fits(f, DecodeField(f, b)) && EncodeField(f, DecodeField(f, b)) == b
  {
    if IsInteger(f.wire) {
      EncodeIntRawInt(f.wire, b);
    }
  }

  /** Round trip one way: a well-typed record survives encoding and decoding. */
  lemma {:induction false} DecodeEncodeRecord(fields: seq<FieldSpec>, vs: seq<Value>)
    requires |vs| == |fields| && forall i :: 0 <= i < |fields| ==> Fits(fields[i], vs[i])
    ensures DecodeRecord(fields, EncodeRecord(fields, vs)) == Ok(vs)
  {
    if fields != [] {
      var head := EncodeField(fields[0], vs[0]);
      var tail := EncodeRecord(fields[1..], vs[1..]);
      var p := head + tail;
      assert p[..|head|] == head && p[|head|..] == tail;
      DecodeEncodeField(fields[0], vs[0]);
      DecodeEncodeRecord(fields[1..], vs[1..]);
      assert vs == [vs[0]] + vs[1..];
    }
  }

  /** Round trip the other way: every payload of the right size is the encoding of its record. */
  lemma {:induction false} EncodeDecodeRecord(fields: seq<FieldSpec>, payload: seq<Byte>)
    requires |payload| == TotalWidth(fields)
    ensures var vs := DecodeAll(fields, payload);
      (forall i :: 0 <= i < |fields| ==> Fits(fields[i], vs[i])) && EncodeRecord(fields, vs) == payload
  {
    if fields != [] {
      var w := Width(fields[0].wire);
      var vs := DecodeAll(fields, payload);
      EncodeDecodeField(fields[0], payload[..w]);
      EncodeDecodeRecord(fields[1..], payload[w..]);
      assert vs[1..] == DecodeAll(fields[1..], payload[w..]);
      forall i | 0 <= i < |fields| ensures Fits(fields[i], vs[i]) {
        if i > 0 {
          assert vs[i] == vs[1..][i - 1];
        }
      }
      assert payload == payload[..w] + payload[w..];
    }
  }

  /**
    A field whose format character has a multiplier decodes to that
    multiplier times the integer its bytes encode; one without passes the
    integer through unchanged.
   */
  lemma ScaledField(c: char, b: seq<Byte>)
    requires FormatToStruct(c).Some? && IsInteger(FormatToStruct(c).value.wire)
    requires |b| == Width(FormatToStruct(c).value.wire)
    ensures var f := FormatToStruct(c).value;
      var v := DecodeField(f, b);
      && (c in "cCeEL" ==> v.Scaled? && v.raw == RawInt(f.wire, b) && v.factor == f.scale.value
                           && Magnitude(v) == RawInt(f.wire, b) as real * f.scale.value)
      && (c !in "cCeEL" ==> v == Int(RawInt(f.wire, b)))
  {
    FormatTableScales(c);
  }
}
