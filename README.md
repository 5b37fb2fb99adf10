# SDLog2Parser in Dafny

This project models the parser of PX4 `sdlog2` binary logs (`SDLog2Parser` in
`sdlog2.py`) and proves properties of it.

## The log format

A log is a stream of messages. Each message starts with the bytes `A3 95` and
a type id.

- **FORMAT messages** have type `0x80` and are always 89 bytes long. Each one
  declares another message type: its id, its length, a name, a format string
  and comma-separated labels.
- **Data messages** of a declared type are decoded field by field. Each format
  character maps to a little-endian struct code and an optional multiplier.
  The values are appended to one column per label under the message's name.

One configured message name, the *time message*, is special:

- its records set the *last time*;
- the records of every other name append that time to the name's shadow
  column `<time>__`.

## Modules

The model follows the structure of the source.

- `bytes.dfy` (`Bytes`): little-endian unsigned and two's-complement integers, with their encoders.
- `cstrings.dfy` (`CStrings`): Python's `split` on one character, and `_parseCString`.
- `formats.dfy` (`Formats`): the `FORMAT_TO_STRUCT` table, and the conversion of a format string to field specs.
- `records.dfy` (`Records`): decoding a payload into values (`struct.unpack` and the multipliers), with an inverse encoder.
- `registry.dfy` (`Registry`): the registration done by a FORMAT message (`__parseMsgDescr`), as a function on the registry.
- `accumulator.dfy` (`Accumulator`): storing a decoded record into the log and handling the time message (`__parseMsg`), as functions.
- `stream.dfy` (`Stream`): the driver of `process`, as functions.
  - `Step` is one iteration of the inner loop; `Scan` is the inner loop and `Run` the outer loop.
  - `Scan` and `Run` take the step as a parameter. What chunking does is proved once, for every step that consumes bytes and, unless it stops, has decided on the bytes buffered so far, whatever follows them. `Parse` instantiates the driver with `Step`.
- `parser.dfy` (`SDLog2`): the class `SDLog2Parser`, whose fields the methods update in place.
  - Its loops are `while` loops with invariants.
  - Each method is proved to do what the matching function says, so `Process` returns exactly `Stream.Parse` of its chunks.
- `errors.dfy` and `wrappers.dfy`: the exception kinds, and `Option`/`Result`.

## Where the code and its description differ

The model follows the code (the Python 3 branch):

- **String fields stay untrimmed.** String fields of data messages (`n`, `N`, `Z`) keep their raw bytes, padding included. Under Python 3, `struct.unpack` yields `bytes`, so the `type(data[i]) is str` test at line 158 never holds.
- **Time message unset.** Without a time message, every data record fails. Line 177 evaluates `None + "__"`.
- **Unknown type id.** An unknown type id fails on the dictionary lookup at line 100. The `None` test after it can never fire.

## Model

| member | source | states |
|---|---|---|
| Bytes.UIntLE | sdlog2.py:154 | the unsigned little-endian value of n bytes is below 256^n; DecodeEncodeLE and EncodeDecodeLE make it a bijection with its encoder |
| Bytes.DecodeEncodeLE | sdlog2.py:143 | little-endian decoding inverts encoding for every value below 256^n |
| Bytes.EncodeDecodeLE | sdlog2.py:143 | every byte string is the little-endian encoding of its value |
| Bytes.IntLE | sdlog2.py:154 | a signed field lies in [-2^(8n-1), 2^(8n-1)); it equals its unsigned reading when non-negative, and that reading minus 256^n otherwise |
| Bytes.SignedRoundTrip | sdlog2.py:154 | two's-complement encoding then signed decoding gives back every in-range integer |
| CStrings.Split | sdlog2.py:132 | a split always yields at least one piece |
| CStrings.JoinSplit | sdlog2.py:132 | joining the pieces of `split(",")` with commas gives back the label string |
| CStrings.SplitJoin | sdlog2.py:132 | splitting a comma-join of comma-free pieces gives back the pieces |
| CStrings.SplitPiecesLackSep | sdlog2.py:132 | no label produced by the split contains a comma |
| CStrings.SplitHead | sdlog2.py:12 | the first piece is the prefix of the string before the first separator, and holds none |
| CStrings.ParseCString | sdlog2.py:11-12 | fails exactly when some byte is not ASCII; otherwise yields the bytes before the first NUL, as characters, with no NUL |
| CStrings.CStringStopsAtNul | sdlog2.py:11-12 | a field whose first NUL is at k decodes to exactly its first k bytes |
| CStrings.ParseEncodeCString | sdlog2.py:11-12 | a NUL-padded ASCII field reads back as the string written into it |
| Formats.FormatToStruct | sdlog2.py:26-45 | the `FORMAT_TO_STRUCT` table; FormatTableKeys, FormatTableWidths and FormatTableScales fix its keys, each key's struct code and each factor |
| Formats.FormatTableKeys | sdlog2.py:26-45 | the table holds exactly the 18 characters `bBhHiIfnNZcCeELMqQ` |
| Formats.FormatTableWidths | sdlog2.py:26-45 | integer codes are 1, 2, 4 or 8 bytes, string codes 4, 16 or 64, the float code 4; which characters are integer, signed, string or float, and each character's width, which together fix its struct code |
| Formats.FormatTableScales | sdlog2.py:26-45 | c, C, e and E scale by 0.01; L by 0.0000001; every other character has no factor; only integer codes carry a scale |
| Formats.FieldSpecsFrom | sdlog2.py:136-142 | the conversion loop over the format string; FieldSpecsFromMeaning states what it yields and when it fails |
| Formats.FieldSpecsFromMeaning | sdlog2.py:136-142 | the conversion loop succeeds iff every remaining character is in the table; it then gives the table's spec for each; otherwise it reports the first character missing from the table |
| Formats.FieldSpecs | sdlog2.py:134-143 | a format string converts iff all its characters are supported, into one spec per character; otherwise the error names the first unsupported character |
| Formats.TotalWidthAppend | sdlog2.py:154 | the payload size of concatenated fields is the sum of their sizes |
| Records.RawInt | sdlog2.py:154 | the integer `struct.unpack` reads for an integer code, signed or not; RawIntEncodeInt and EncodeIntRawInt make it the inverse of the integer encoder |
| Records.DecodeField | sdlog2.py:154-162 | a decoded field is never None |
| Records.DecodeAll | sdlog2.py:154-162 | a record has one value per field and contains no None |
| Records.DecodeRecord | sdlog2.py:154 | decoding fails iff the payload size differs from the fields' total width, and reports both sizes; otherwise yields one value per field |
| Records.OffsetNext | sdlog2.py:154 | each field starts where the previous one ends, within the payload |
| Records.DecodeAllAt | sdlog2.py:154-162 | value i is decoded from exactly the bytes of field i, at its offset |
| Records.RawIntEncodeInt | sdlog2.py:154 | an integer in its code's range survives encoding and decoding |
| Records.EncodeIntRawInt | sdlog2.py:154 | the bytes of an integer field decode into the code's range and re-encode to themselves |
| Records.DecodeEncodeField | sdlog2.py:154-162 | decoding an encoded field value gives the value back |
| Records.EncodeDecodeField | sdlog2.py:154-162 | every decoded field fits its spec and re-encodes to its bytes |
| Records.DecodeEncodeRecord | sdlog2.py:154-162 | a well-typed record survives encoding and decoding |
| Records.EncodeDecodeRecord | sdlog2.py:154-162 | every payload of the right size is the encoding of its decoded record |
| Records.ScaledField | sdlog2.py:160-162 | fields of c, C, e, E and L become their raw integer times the table's factor; the others keep the raw integer |
| Registry.Register | sdlog2.py:122-147 | `__parseMsgDescr` on the registry; RegisterDeclares, RegisterSelfDescriptor, RegisterGrows and RegisterEncodeFormat state what it registers, when it fails and what it keeps |
| Registry.Text | sdlog2.py:130-132 | a string field fails with NotAscii iff it holds a non-ASCII byte, and otherwise is its C string |
| Registry.RegisterSelfDescriptor | sdlog2.py:127-128 | a FORMAT message declaring type 0x80 leaves the registry unchanged |
| Registry.RegisterDeclares | sdlog2.py:127-146 | registration succeeds iff the three strings are ASCII and the format is supported; then it stores the descriptor under the declared id (overwriting), with the trimmed name and format, the split labels and one spec per character; it sets the name's labels and appends the name; a bad format character is reported with the name and id |
| Registry.RegisterGrows | sdlog2.py:144-146 | registration loses no id and no name, and the earlier name list is a prefix of the new one |
| Registry.RegisterEncodeFormat | sdlog2.py:124-146 | reading back a FORMAT message as a logger writes it registers exactly the declared descriptor |
| Accumulator.ColumnsFor | sdlog2.py:163-169 | the columns a record goes into, the name's own or fresh ones; InitColumns and IngestFirstRecord state the fresh ones |
| Accumulator.InitColumns | sdlog2.py:164-169 | a new name starts with an empty column per label, plus the shadow column iff a time message is set, differs from the name and a time has been seen |
| Accumulator.StoreFrom | sdlog2.py:170-172 | the storing loop from value i on; StoreFromAppends, StoreFromExtends, StoreShadowUntouched and StoreKeepsNoNil state what it appends and what it keeps |
| Accumulator.Store | sdlog2.py:170-172 | the storing loop over the whole record; see StoreFrom |
| Accumulator.StoreFromAppends | sdlog2.py:171-172 | with distinct labels, at least one per value, each with a column: storing succeeds, appends value i to the column of label i and leaves the other columns alone |
| Accumulator.StoreFromExtends | sdlog2.py:171-172 | storing keeps the set of columns, and each old column is a prefix of its new one |
| Accumulator.StoreShadowUntouched | sdlog2.py:171-172 | storing leaves a column that is not a label unchanged |
| Accumulator.StoreKeepsNoNil | sdlog2.py:171-172 | storing values that are not None into columns without None leaves none |
| Accumulator.UpdateTime | sdlog2.py:173-178 | the time handling after storing; UpdateTimeShape states what it changes |
| Accumulator.Accumulate | sdlog2.py:163-178 | `__parseMsg` on the decoded values: column set-up, storing and time handling; the Ingest lemmas state its effect |
| Accumulator.UpdateTimeShape | sdlog2.py:173-178 | the time update changes only the record's name: a time record sets the last time to its first field; another appends the last time to its shadow column if it has one |
| Accumulator.Ingest | sdlog2.py:149-178 | `__parseMsg` on the log and last time; IngestSizeMismatch, IngestNoTimeMessage, IngestFirstRecord, IngestKeepsOtherNames, IngestAppends, IngestTimeRecord, IngestShadowRecord, IngestExtends and IngestKeepsNoNil state its effect and its errors |
| Accumulator.IngestSizeMismatch | sdlog2.py:154 | a payload of the wrong size aborts the record with SizeMismatch before anything is stored |
| Accumulator.IngestNoTimeMessage | sdlog2.py:174-178 | without a time message every data record fails, with NoTimeMessage once decoding and storing succeed |
| Accumulator.IngestFirstRecord | sdlog2.py:163-178 | a name's first record creates its columns, each holding only its value, plus the shadow column holding the last time exactly when one is due |
| Accumulator.IngestKeepsOtherNames | sdlog2.py:163-178 | a record adds its own name to the log if new, and changes no other name |
| Accumulator.IngestAppends | sdlog2.py:170-172 | a later record appends exactly one value to each label's column |
| Accumulator.IngestTimeRecord | sdlog2.py:174-175 | a time-message record has a first field; that field becomes the last time and is never None |
| Accumulator.IngestShadowRecord | sdlog2.py:176-178 | a record of another name with a shadow column appends the last time to it and keeps the last time |
| Accumulator.IngestExtends | sdlog2.py:163-178 | the log only grows: no name or column disappears, and every column's old values stay as a prefix |
| Accumulator.IngestKeepsNoNil | sdlog2.py:168-178 | if no label is named like the shadow column, the log never receives None, and a shadow column exists only once a time has been seen |
| Stream.Payload | sdlog2.py:154 | the slice from after the header to the declared length, empty when that length is below 3; StepData states that it is what ingestion reads |
| Stream.Step | sdlog2.py:83-108 | one iteration consumes between 1 and all of the buffered bytes |
| Stream.StepAdvances | sdlog2.py:86-108 | the pointer moves by 1 for a skipped byte, by 89 for a FORMAT message, by the registered length for a data message |
| Stream.StepHeaderMismatch | sdlog2.py:84-91 | a wrong header skips one byte when errors are corrected, and raises InvalidHeader with both bytes otherwise |
| Stream.StepStops | sdlog2.py:83-105 | the loop stops iff fewer than 3 bytes are left, or the FORMAT or registered data message at the pointer is incomplete |
| Stream.StepUnknownType | sdlog2.py:100-102 | a data message of an undeclared type raises UnknownMsgType, complete or not |
| Stream.StepFormat | sdlog2.py:93-97 | a complete FORMAT message is registered, leaves the log alone and consumes 89 bytes, or raises the registration's error |
| Stream.StepData | sdlog2.py:99-108 | a complete data message is ingested from its payload and consumes its length; the registry stays unchanged |
| Stream.StepExtend | sdlog2.py:81-108 | an iteration that does not stop has decided on the bytes buffered so far: appending input does not change it |
| Stream.StepIsLocal | sdlog2.py:81-108 | the parser's step always consumes at least one byte, and a step that does not stop is unchanged by appended bytes |
| Stream.Scan | sdlog2.py:83-108 | the inner loop ends at bytes on which the step stops |
| Stream.ScanLeavesSuffix | sdlog2.py:81-83 | what the inner loop leaves unconsumed is a suffix of its input |
| Stream.ScanExtend | sdlog2.py:77-108 | more input does not change the loop up to where it stopped; scanning resumes there with the leftover bytes plus the new ones, and an error stays the same error |
| Stream.ScanThenStop | sdlog2.py:95-105 | bytes that do not complete the message the loop stopped at stay unconsumed, and the state is unchanged |
| Stream.Run | sdlog2.py:77-109 | the outer loop; RunIsScan, EmptyChunkEndsInput and RunGrows state what it computes |
| Stream.RunIsScan | sdlog2.py:77-109 | feeding non-empty chunks one by one is scanning their concatenation at once |
| Stream.EmptyChunkEndsInput | sdlog2.py:78-80 | an empty chunk ends the outer loop; the chunks after it are never read |
| Stream.Parse | sdlog2.py:72-111 | `process` as a function of its chunks; ChunkingDoesNotMatter, SameBytesSameLog, ParseStopsAtEmptyChunk and TrailingPartialDropped state its log and errors |
| Stream.ChunkingDoesNotMatter | sdlog2.py:72-111 | the log of a chunked stream is the log of its bytes parsed in one go |
| Stream.SameBytesSameLog | sdlog2.py:72-111 | two splittings of the same bytes into non-empty chunks give the same log, or the same error |
| Stream.ParseStopsAtEmptyChunk | sdlog2.py:78-80 | the result of `process` depends only on the chunks before the first empty one |
| Stream.TrailingPartialDropped | sdlog2.py:95-111 | a stream that ends inside a message yields the log of the messages before it, without an error |
| Stream.StrayByte | sdlog2.py:86-91 | with correction a stray byte is skipped as if absent; without it the stray byte raises InvalidHeader |
| Stream.GrowsTrans | sdlog2.py:144-146 | growth of the registry and log is transitive |
| Stream.StepGrows | sdlog2.py:93-108 | an iteration only adds registrations and appended values |
| Stream.ScanGrows | sdlog2.py:83-108 | the inner loop, with a step that only adds, only adds |
| Stream.RunGrows | sdlog2.py:77-109 | the outer loop, with a step that only adds, only adds to the state it starts from |
| Stream.ParseRunGrows | sdlog2.py:77-109 | the parser's outer loop, resumed from any state and carry, loses no registration, no name and no logged value |
| SDLog2.NewColumns | sdlog2.py:166-167 | it returns exactly one empty column per label |
| SDLog2.SDLog2Parser.constructor | sdlog2.py:50-61 | a new parser is in the state that `reset` leaves |
| SDLog2.SDLog2Parser.Reset | sdlog2.py:53-61 | the registry, buffer, filter map and log are empty; no time has been seen; the pointer is 0 |
| SDLog2.SDLog2Parser.BytesLeft | sdlog2.py:113-114 | the pointer plus the bytes left is the buffer's length, i.e. the unconsumed window's size |
| SDLog2.SDLog2Parser.FilterMsg | sdlog2.py:116-120 | every field while the filter map is empty; otherwise the name's entry, None if it has none |
| SDLog2.SDLog2Parser.ParseMsgDescr | sdlog2.py:122-147 | the registry becomes Register of the message's payload and the pointer moves 89 bytes; on error, the error is returned and nothing changes |
| SDLog2.SDLog2Parser.StoreRecord | sdlog2.py:171-172 | the name's columns become what Store makes of them, nothing else changes, or Store's error is returned |
| SDLog2.SDLog2Parser.UpdateLastTime | sdlog2.py:173-178 | the log and last time become UpdateTime's result, or its error is returned |
| SDLog2.SDLog2Parser.AppendRecord | sdlog2.py:163-178 | the log and last time become Accumulate's result for the decoded record, or its error is returned |
| SDLog2.SDLog2Parser.ParseMsg | sdlog2.py:149-179 | the log and last time become Ingest's result for the message's payload and the pointer moves by the declared length, or Ingest's error is returned |
| SDLog2.SDLog2Parser.ParseNext | sdlog2.py:84-108 | one iteration: stops (changing nothing), raises, or moves to Step's next state and past the bytes Step consumes, as Step says |
| SDLog2.SDLog2Parser.ParseBuffered | sdlog2.py:83-108 | the inner loop ends with Scan's state and leftover window, or with Scan's error |
| SDLog2.SDLog2Parser.Process | sdlog2.py:72-111 | returns exactly Parse of the chunks; on success, the log field is that log and the whole state is the one the outer loop ends in |

## Left out

- File I/O and `BLOCK_SIZE`: the stream is given as its sequence of chunks. An empty chunk plays the part of the end of the file.
- `setMsgFilter`, `setTimeMsg`, `setCorrectErrors` and `parseLog`: the time message and the error-correction flag are parameters.
  - `__msg_filter_map` is never filled, because `reset` empties it and nothing writes to it. The model keeps it as a field that stays empty, so every record is stored.
- The Python 2 branches of `_parseCString`, `__parseMsgDescr` and `__parseMsg`: only the Python 3 behaviour is modelled.
- Floating point:
  - `f` fields keep their four raw bytes;
  - scaled fields are the exact product of the raw integer and the factor, not the rounded float.
- The order of keys in the dictionaries: Dafny maps are unordered. `msgNames` keeps the order of the FORMAT messages.
- The text and offsets of exception messages, `bytes_read` and `first_data_msg`: an error is its kind and the values that identify it.
- `__init__` leaves the fields unset until `process` calls `reset`. The constructor initialises them as `reset` does.
- A data message declared 0 bytes long whose record is decoded and stored without error makes the source loop forever without reading further. The model reports it as the error Diverges. When decoding or storing that record fails, the source raises that error first, and so does the model.
- SDLog2.SDLog2Parser.Process: when a parse ends in an error, the contract gives only the error. It does not state what the fields then hold, that is, the log values stored before the error.
