/**
  The ways a parse of an sdlog2 stream ends in failure. Each one is an
  exception that the parser raises (or, for Diverges, a loop it never
  leaves); any of them aborts the whole parse and no log is returned.
 */
module Errors {
  import opened Bytes

  datatype Error =
      /** The two bytes at the read pointer are not A3 95 and errors are not corrected. */
    | InvalidHeader(head1: Byte, head2: Byte)
      /** A data message whose type id no FORMAT message has declared (a KeyError). */
    | UnknownMsgType(msgType: Byte)
      /** A FORMAT message uses a format character that has no struct code. */
    | UnsupportedFormatChar(c: char, name: string, msgType: Byte)
      /** A fixed-width string of a FORMAT message holds a byte that is not ASCII. */
    | NotAscii
      /** A data payload whose size is not the sum of its fields' widths (struct.error). */
    | SizeMismatch(expected: nat, actual: nat)
      /** A record with more fields than its descriptor has labels (an IndexError). */
    | LabelIndexOutOfRange
      /** A label that the record's column dictionary does not hold (a KeyError). */
    | MissingColumn(column: string)
      /** A time-message record with no fields: it has no timestamp (an IndexError). */
    | EmptyTimeRecord
      /** A data record while no time message is configured (None + "__", a TypeError). */
    | NoTimeMessage
      /** A data message declared 0 bytes long whose record is stored without error: the read pointer never moves. */
    | Diverges
}
