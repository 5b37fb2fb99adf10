/**
  The schema registry of SDLog2Parser: FORMAT messages (type 0x80, always 89
  bytes) declare the id, length, name, format string and labels of another
  message type (`__parseMsgDescr`, sdlog2.py:122-147). The registry keeps
  the descriptors by type id, the labels by name and the names in the order
  of their FORMAT messages.
 */
module Registry {
  import opened Bytes
  import opened Wrappers
  import opened Errors
  import opened CStrings
  import opened Formats

  /** Every message starts with A3 95 and its type id. */
  const MSG_HEADER_LEN: nat := 3
  /** A FORMAT message is always this long, header included. */
  const MSG_FORMAT_PACKET_LEN: nat := 89
  /** The type id of FORMAT messages. */
  const MSG_TYPE_FORMAT: Byte := 0x80
  /** The FORMAT payload "BB4s16s64s": type id, length, name, format, labels. */
  const FORMAT_PAYLOAD_LEN: nat := MSG_FORMAT_PACKET_LEN - MSG_HEADER_LEN

  /**
    A message descriptor, the tuple (msg_length, msg_name, msg_format,
    msg_labels, msg_struct, msg_mults) of sdlog2.py:144; the struct codes and
    multipliers are kept together, one FieldSpec per format character.
   */
  datatype Descr = Descr(length: Byte, name: string, format: string, labels: seq<string>, fields: seq<FieldSpec>)

  /** The fields `__msg_descrs`, `__msg_labels` and `__msg_names`. */
  datatype Schema = Schema(descrs: map<Byte, Descr>, labels: map<string, seq<string>>, names: seq<string>)

  /** The registry after `reset`. */
  const EmptySchema: Schema := Schema(map[], map[], [])

  /** A fixed-width string of the FORMAT payload, or NotAscii when `str(..., 'ascii')` raises. */
  function Text(b: seq<Byte>): (r: Result<string, Error>)
    ensures r.Err? <==> !IsAscii(b)
    ensures r.Err? ==> r.error == NotAscii
    ensures r.Ok? ==> ParseCString(b) == Some(r.value)
  {
    match ParseCString(b)
    case Some(s) => Ok(s)
    case None => Err(NotAscii)
  }

  /** The pieces of the FORMAT payload p (struct "BB4s16s64s"). */
  function TypeField(p: seq<Byte>): Byte requires |p| == FORMAT_PAYLOAD_LEN { p[0] }
  function LengthField(p: seq<Byte>): Byte requires |p| == FORMAT_PAYLOAD_LEN { p[1] }
  function NameField(p: seq<Byte>): seq<Byte> requires |p| == FORMAT_PAYLOAD_LEN { p[2..6] }
  function FormatField(p: seq<Byte>): seq<Byte> requires |p| == FORMAT_PAYLOAD_LEN { p[6..22] }
  function LabelsField(p: seq<Byte>): seq<Byte> requires |p| == FORMAT_PAYLOAD_LEN { p[22..86] }

  /**
    `__parseMsgDescr` without the pointer increment: a FORMAT message that
    declares type 0x80 itself registers nothing; any other declares (or
    re-declares, overwriting) a descriptor, records its labels under its
    name and appends the name to the list of names, duplicates included.
   */
  function Register(s: Schema, p: seq<Byte>): (r: Result<Schema, Error>)
    requires |p| == FORMAT_PAYLOAD_LEN
  {
    var msgType := TypeField(p);
    if msgType == MSG_TYPE_FORMAT then Ok(s)
    else
      var name :- Text(NameField(p));
      var format :- Text(FormatField(p));
      var labelText :- Text(LabelsField(p));
      var labels := Split(labelText, ',');
      match FieldSpecs(format)
      case Err(c) => Err(UnsupportedFormatChar(c, name, msgType))
      case Ok(fields) =>
        Ok(Schema(s.descrs[msgType := Descr(LengthField(p), name, format, labels, fields)],
                  s.labels[name := labels],
                  s.names + [name]))
  }

  /** A FORMAT message that describes type 0x80 is consumed without a trace. */
  lemma RegisterSelfDescriptor(s: Schema, p: seq<Byte>)
    requires |p| == FORMAT_PAYLOAD_LEN && TypeField(p) == MSG_TYPE_FORMAT
    ensures Register(s, p) == Ok(s)
  {
  }

  /**
    What registering another type does: it succeeds exactly when the three
    strings are ASCII and every format character is in the table; it then
    stores the descriptor under the declared id (overwriting any earlier one),
    with the C-string-trimmed name and format, the labels split on commas and
    one field spec per format character, sets the labels of the name and
    appends the name. A bad format character is reported with the name and id.
   */
  lemma RegisterDeclares(s: Schema, p: seq<Byte>)
    requires |p| == FORMAT_PAYLOAD_LEN && TypeField(p) != MSG_TYPE_FORMAT
    ensures var r := Register(s, p);
      && (r.Ok? <==> IsAscii(NameField(p)) && IsAscii(FormatField(p)) && IsAscii(LabelsField(p))
                     && Supported(ParseCString(FormatField(p)).value))
      && (r.Ok? ==>
            var name := ParseCString(NameField(p)).value;
            var format := ParseCString(FormatField(p)).value;
            var labels := Split(ParseCString(LabelsField(p)).value, ',');
            && TypeField(p) in r.value.descrs
            && r.value.descrs == s.descrs[TypeField(p) := r.value.descrs[TypeField(p)]]
            && var d := r.value.descrs[TypeField(p)];
            && d.length == LengthField(p) && d.name == name && d.format == format && d.labels == labels
            && |d.fields| == |format|
            && (forall j :: 0 <= j < |format| ==> FormatToStruct(format[j]) == Some(d.fields[j]))
            && r.value.labels == s.labels[name := labels]
            && r.value.names == s.names + [name])
      && (r.Err? && IsAscii(NameField(p)) && IsAscii(FormatField(p)) && IsAscii(LabelsField(p)) ==>
            var format := ParseCString(FormatField(p)).value;
            && r.error.UnsupportedFormatChar?
            && r.error.name == ParseCString(NameField(p)).value
            && r.error.msgType == TypeField(p)
            && exists k :: 0 <= k < |format| && format[k] == r.error.c && FormatToStruct(format[k]).None?)
      && (r.Err? && !(IsAscii(NameField(p)) && IsAscii(FormatField(p)) && IsAscii(LabelsField(p))) ==>
            r.error == NotAscii)
  {
  }

  /** The registry only grows: no id, name or entry of the name list is lost. */
  lemma RegisterGrows(s: Schema, p: seq<Byte>)
    requires |p| == FORMAT_PAYLOAD_LEN && Register(s, p).Ok?
    ensures var s' := Register(s, p).value;
      && s.descrs.Keys <= s'.descrs.Keys
      && s.labels.Keys <= s'.labels.Keys
      && s'.names[..|s.names|] == s.names
  {
  }

  /** Whether a descriptor can be written in a FORMAT message and read back unchanged. */
  predicate Declarable(msgType: Byte, name: string, format: string, labels: seq<string>) {
    && msgType != MSG_TYPE_FORMAT
    && CStringFits(name, 4)
    && CStringFits(format, 16)
    && Supported(format)
    && |labels| >= 1
    && (forall i :: 0 <= i < |labels| ==> ',' !in labels[i])
    && CStringFits(Join(labels, ','), 64)
  }

  /** The payload of the FORMAT message a logger writes to declare a type. */
  function EncodeFormat(msgType: Byte, length: Byte, name: string, format: string, labels: seq<string>): (p: seq<Byte>)
    requires Declarable(msgType, name, format, labels)
    ensures |p| == FORMAT_PAYLOAD_LEN
  {
    [msgType, length] + EncodeCString(name, 4) + EncodeCString(format, 16) + EncodeCString(Join(labels, ','), 64)
  }

  /** Reading a written FORMAT message registers exactly the declared descriptor. */
  lemma RegisterEncodeFormat(s: Schema, msgType: Byte, length: Byte, name: string, format: string, labels: seq<string>)
    requires Declarable(msgType, name, format, labels)
    ensures Register(s, EncodeFormat(msgType, length, name, format, labels)) ==
      Ok(Schema(s.descrs[msgType := Descr(length, name, format, labels, FieldSpecs(format).value)],
                s.labels[name := labels],
                s.names + [name]))
  {
    var p := EncodeFormat(msgType, length, name, format, labels);
    assert NameField(p) == EncodeCString(name, 4);
    assert FormatField(p) == EncodeCString(format, 16);
    assert LabelsField(p) == EncodeCString(Join(labels, ','), 64);
    ParseEncodeCString(name, 4);
    ParseEncodeCString(format, 16);
    ParseEncodeCString(Join(labels, ','), 64);
    SplitJoin(labels, ',');
  }
}
