/**
  The format-character table of SDLog2Parser (FORMAT_TO_STRUCT,
  sdlog2.py:26-45): each character of a FORMAT message's format string names
  a struct code, which fixes the field's width and coding, and an optional
  factor that the decoded integer is multiplied by.
 */
module Formats {
  import opened Wrappers

  /** The struct codes the table uses; Chars(n) is the code `ns`, n raw bytes. */
  datatype WireType =
    | Int8 | UInt8 | Int16 | UInt16 | Int32 | UInt32 | Float32 | Int64 | UInt64
    | Chars(n: nat)

  /** Bytes a field of type t occupies (struct.calcsize with the `<` prefix). */
  function Width(t: WireType): nat {
    match t
    case Int8 => 1
    case UInt8 => 1
    case Int16 => 2
    case UInt16 => 2
    case Int32 => 4
    case UInt32 => 4
    case Float32 => 4
    case Int64 => 8
    case UInt64 => 8
    case Chars(n) => n
  }

  /** The integer codes, which decode to a Python int. */
  predicate IsInteger(t: WireType) {
    !t.Float32? && !t.Chars?
  }

  /** The two's-complement codes (struct's lower-case letters). */
  predicate IsSigned(t: WireType) {
    t.Int8? || t.Int16? || t.Int32? || t.Int64?
  }

  /** A struct code with its multiplier, an entry of the table. */
  datatype FieldSpec = FieldSpec(wire: WireType, scale: Option<real>)

  /** The multiplier 0.01 of c, C, e and E. */
  const CENTI: real := 0.01
  /** The multiplier 0.0000001 of L (degrees times 1e7). */
  const DEG_E7: real := 0.0000001

  /** The table, or None for a character it does not hold (a KeyError in the source). */
  function FormatToStruct(c: char): Option<FieldSpec> {
    match c
    case 'b' => Some(FieldSpec(Int8, None))
    case 'B' => Some(FieldSpec(UInt8, None))
    case 'h' => Some(FieldSpec(Int16, None))
    case 'H' => Some(FieldSpec(UInt16, None))
    case 'i' => Some(FieldSpec(Int32, None))
    case 'I' => Some(FieldSpec(UInt32, None))
    case 'f' => Some(FieldSpec(Float32, None))
    case 'n' => Some(FieldSpec(Chars(4), None))
    case 'N' => Some(FieldSpec(Chars(16), None))
    case 'Z' => Some(FieldSpec(Chars(64), None))
    case 'c' => Some(FieldSpec(Int16, Some(CENTI)))
    case 'C' => Some(FieldSpec(UInt16, Some(CENTI)))
    case 'e' => Some(FieldSpec(Int32, Some(CENTI)))
    case 'E' => Some(FieldSpec(UInt32, Some(CENTI)))
    case 'L' => Some(FieldSpec(Int32, Some(DEG_E7)))
    case 'M' => Some(FieldSpec(Int8, None))
    case 'q' => Some(FieldSpec(Int64, None))
    case 'Q' => Some(FieldSpec(UInt64, None))
    case _ => None
  }

  /** The characters the table holds. */
  const FORMAT_CHARS: string := "bBhHiIfnNZcCeELMqQ"

  /** The table holds exactly the characters of FORMAT_CHARS. */
  lemma FormatTableKeys(c: char)
    ensures FormatToStruct(c).Some? <==> c in FORMAT_CHARS
  {
  }

  /**
    Integer fields are 1, 2, 4 or 8 bytes, strings 4, 16 or 64 bytes,
    floats 4. Which characters are integers, signed, strings or the float,
    and the width of each, together fix every character's struct code.
   */
  lemma FormatTableWidths(c: char)
    requires FormatToStruct(c).Some?
    ensures var f := FormatToStruct(c).value;
      && (IsInteger(f.wire) ==> Width(f.wire) in {1, 2, 4, 8})
      && (f.wire.Chars? ==> Width(f.wire) in {4, 16, 64})
      && (f.wire.Float32? ==> Width(f.wire) == 4)
      && (IsInteger(f.wire) <==> c in "bBhHiIcCeELMqQ")
      && (IsSigned(f.wire) <==> c in "bhiceLMq")
      && (f.wire.Chars? <==> c in "nNZ")
      && (f.wire.Float32? <==> c == 'f')
      && (Width(f.wire) == 1 <==> c in "bBM")
      && (Width(f.wire) == 2 <==> c in "hHcC")
      && (Width(f.wire) == 4 <==> c in "iIfneEL")
      && (Width(f.wire) == 8 <==> c in "qQ")
      && (Width(f.wire) == 16 <==> c == 'N')
      && (Width(f.wire) == 64 <==> c == 'Z')
  {
  }

  /**
    c, C, e and E scale by 0.01, L by 0.0000001, and nothing else is scaled;
    only integers carry a scale.
   */
  lemma FormatTableScales(c: char)
    requires FormatToStruct(c).Some?
    ensures var f := FormatToStruct(c).value;
      && (f.scale == Some(CENTI) <==> c in "cCeE")
      && (f.scale == Some(DEG_E7) <==> c == 'L')
      && (f.scale.None? <==> c !in "cCeEL")
      && (f.scale.Some? ==> IsInteger(f.wire))
  {
  }

  /**
    The loop of sdlog2.py:136-142 from character i on, with the specs of the
    characters before i in acc: fails with the first character that the
    table does not hold.
   */
  function FieldSpecsFrom(fmt: string, i: nat, acc: seq<FieldSpec>): Result<seq<FieldSpec>, char>
    requires i <= |fmt|
    decreases |fmt| - i
  {
    if i == |fmt| then Ok(acc)
    else match FormatToStruct(fmt[i])
      case None => Err(fmt[i])
      case Some(f) => FieldSpecsFrom(fmt, i + 1, acc + [f])
  }

  /** Every character of fmt is in the table. */
  predicate Supported(fmt: string) {
    forall i :: 0 <= i < |fmt| ==> FormatToStruct(fmt[i]).Some?
  }

  /**
    The conversion succeeds exactly when every character is in the table,
    and then gives one spec per character, the table's; otherwise it names
    the first character the table does not hold.
   */
  lemma {:induction false} FieldSpecsFromMeaning(fmt: string, i: nat, acc: seq<FieldSpec>)
    requires i <= |fmt|
    requires |acc| == i && forall j :: 0 <= j < i ==> FormatToStruct(fmt[j]) == Some(acc[j])
    ensures var r := FieldSpecsFrom(fmt, i, acc);
      && (r.Ok? <==> forall j :: i <= j < |fmt| ==> FormatToStruct(fmt[j]).Some?)
      && (r.Ok? ==> |r.value| == |fmt| && forall j :: 0 <= j < |fmt| ==> FormatToStruct(fmt[j]) == Some(r.value[j]))
      && (r.Err? ==> exists k :: i <= k < |fmt| && fmt[k] == r.error && FormatToStruct(fmt[k]).None?
                                 && forall j :: i <= j < k ==> FormatToStruct(fmt[j]).Some?)
    decreases |fmt| - i
  {
    if i < |fmt| {
      match FormatToStruct(fmt[i])
      case None =>
      case Some(f) =>
        FieldSpecsFromMeaning(fmt, i + 1, acc + [f]);
        var r := FieldSpecsFrom(fmt, i + 1, acc + [f]);
        if r.Err? {
          var k :| i + 1 <= k < |fmt| && fmt[k] == r.error && FormatToStruct(fmt[k]).None?
                    && forall j :: i + 1 <= j < k ==> FormatToStruct(fmt[j]).Some?;
          assert i <= k;
        }
    }
  }

  /**
    The field specs of a whole format string: one per character, the
    table's, when the table holds every character; otherwise the first
    character that it does not hold.
   */
  function FieldSpecs(fmt: string): (r: Result<seq<FieldSpec>, char>)
    ensures r.Ok? <==> Supported(fmt)
    ensures r.Ok? ==>
      |r.value| == |fmt| && forall j :: 0 <= j < |fmt| ==> FormatToStruct(fmt[j]) == Some(r.value[j])
    ensures r.Err? ==>
      exists k :: 0 <= k < |fmt| && fmt[k] == r.error && FormatToStruct(fmt[k]).None?
                  && forall j :: 0 <= j < k ==> FormatToStruct(fmt[j]).Some?
  {
    FieldSpecsFromMeaning(fmt, 0, []);
    FieldSpecsFrom(fmt, 0, [])
  }

  /** The payload size a list of specs needs: struct.calcsize of `<` and their codes. */
  function TotalWidth(fields: seq<FieldSpec>): nat {
    if fields == [] then 0 else Width(fields[0].wire) + TotalWidth(fields[1..])
  }

  /** The widths of a concatenation add up. */
  lemma {:induction false} TotalWidthAppend(a: seq<FieldSpec>, b: seq<FieldSpec>)
    ensures TotalWidth(a + b) == TotalWidth(a) + TotalWidth(b)
  {
    if a != [] {
      assert (a + b)[1..] == a[1..] + b;
      TotalWidthAppend(a[1..], b);
    } else {
      assert a + b == b;
    }
  }
}
