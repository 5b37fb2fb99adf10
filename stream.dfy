/**
  The stream driver of SDLog2Parser (`process`, sdlog2.py:72-111), as
  functions: Step is one iteration of the inner loop on the unconsumed bytes
  of the buffer, Scan runs the inner loop until it stops, Run feeds the
  chunks one by one, carrying the unconsumed tail into the next chunk. Scan
  and Run take the step as a parameter, so that what chunking does is proved
  once for every step that consumes bytes and, unless it stops, has decided
  on the bytes buffered so far, whatever follows them; Parse plugs in Step.
  The class in parser.dfy is proved to compute exactly Parse.
 */
module Stream {
  import opened Bytes
  import opened Wrappers
  import opened Errors
  import opened Registry
  import opened Accumulator

  /** The first header byte of every message. */
  const MSG_HEAD1: Byte := 0xA3
  /** The second header byte of every message. */
  const MSG_HEAD2: Byte := 0x95

  /** Everything the parser has learnt: its registry and its log. */
  datatype State = State(schema: Schema, acc: Accum)

  /** The state after `reset`. */
  const Initial: State := State(EmptySchema, EmptyAccum)

  /** What one iteration of the inner loop does. */
  datatype StepResult =
      /** The loop ends: fewer than 3 bytes, or an incomplete message; nothing is consumed. */
    | Stop
      /** n bytes are consumed and the state becomes next. */
    | Advance(next: State, n: nat)
      /** An exception ends the parse. */
    | Raise(error: Error)

  /** The bytes w start with the magic pair A3 95. */
  predicate HasHeader(w: seq<Byte>)
    requires |w| >= 2
  {
    w[0] == MSG_HEAD1 && w[1] == MSG_HEAD2
  }

  /** The slice `buffer[ptr+3:ptr+msg_length]`: empty when the declared length is below 3. */
  function Payload(w: seq<Byte>, length: nat): seq<Byte>
    requires MSG_HEADER_LEN <= |w| && length <= |w|
  {
    if length >= MSG_HEADER_LEN then w[MSG_HEADER_LEN..length] else []
  }

  /**
    One iteration of the loop at sdlog2.py:83-108 on the unconsumed bytes w:
    check the header (skip a byte or fail), then register a FORMAT message
    or decode a data message once it is wholly buffered.
   */
  function Step(st: State, w: seq<Byte>, timeMsg: Option<string>, correctErrors: bool): (r: StepResult)
    ensures r.Advance? ==> 1 <= r.n <= |w|
  {
    if |w| < MSG_HEADER_LEN then Stop
    else if !HasHeader(w) then
      if correctErrors then Advance(st, 1) else Raise(InvalidHeader(w[0], w[1]))
    else if w[2] == MSG_TYPE_FORMAT then
      if |w| < MSG_FORMAT_PACKET_LEN then Stop
      else match Register(st.schema, w[MSG_HEADER_LEN..MSG_FORMAT_PACKET_LEN])
        case Err(e) => Raise(e)
        case Ok(schema) => Advance(State(schema, st.acc), MSG_FORMAT_PACKET_LEN)
    else if w[2] !in st.schema.descrs then Raise(UnknownMsgType(w[2]))
    else
      var d := st.schema.descrs[w[2]];
      if |w| < d.length then Stop
      else match Ingest(st.acc, d, Payload(w, d.length), timeMsg)
        case Err(e) => Raise(e)
        case Ok(acc) => if d.length == 0 then Raise(Diverges) else Advance(State(st.schema, acc), d.length)
  }

  // ---------------------------------------------------------------------
  // One iteration

  /**
    The read pointer moves by 1 (a skipped byte), by 89 (a FORMAT message)
    or by the registered length of the message's type, and never past the
    buffered bytes.
   */
  lemma StepAdvances(st: State, w: seq<Byte>, timeMsg: Option<string>, correctErrors: bool)
    requires Step(st, w, timeMsg, correctErrors).Advance?
    ensures var n := Step(st, w, timeMsg, correctErrors).n;
      && 1 <= n <= |w|
      && (|w| >= MSG_HEADER_LEN && !HasHeader(w) ==> n == 1)
      && (|w| >= MSG_HEADER_LEN && HasHeader(w) && w[2] == MSG_TYPE_FORMAT ==> n == MSG_FORMAT_PACKET_LEN)
      && (|w| >= MSG_HEADER_LEN && HasHeader(w) && w[2] != MSG_TYPE_FORMAT ==>
            w[2] in st.schema.descrs && n == st.schema.descrs[w[2]].length)
  {
  }

  /**
    A wrong header skips exactly one byte and changes nothing else when
    errors are corrected, and is fatal otherwise.
   */
  lemma StepHeaderMismatch(st: State, w: seq<Byte>, timeMsg: Option<string>, correctErrors: bool)
    requires |w| >= MSG_HEADER_LEN && !HasHeader(w)
    ensures Step(st, w, timeMsg, correctErrors) ==
      if correctErrors then Advance(st, 1) else Raise(InvalidHeader(w[0], w[1]))
  {
  }

  /**
    The loop stops exactly when fewer than 3 bytes are left, or a FORMAT
    message has fewer than 89 bytes, or a registered data message fewer than
    its length; a stop leaves the state and the bytes untouched.
   */
  lemma StepStops(st: State, w: seq<Byte>, timeMsg: Option<string>, correctErrors: bool)
    ensures Step(st, w, timeMsg, correctErrors) == Stop <==>
      || |w| < MSG_HEADER_LEN
      || (HasHeader(w) && w[2] == MSG_TYPE_FORMAT && |w| < MSG_FORMAT_PACKET_LEN)
      || (HasHeader(w) && w[2] != MSG_TYPE_FORMAT && w[2] in st.schema.descrs && |w| < st.schema.descrs[w[2]].length)
  {
  }

  /** A data message of a type no FORMAT message has declared is fatal, complete or not. */
  lemma StepUnknownType(st: State, w: seq<Byte>, timeMsg: Option<string>, correctErrors: bool)
    requires |w| >= MSG_HEADER_LEN && HasHeader(w) && w[2] != MSG_TYPE_FORMAT && w[2] !in st.schema.descrs
    ensures Step(st, w, timeMsg, correctErrors) == Raise(UnknownMsgType(w[2]))
  {
  }

  /** A complete FORMAT message is registered, leaves the log alone and consumes 89 bytes. */
  lemma StepFormat(st: State, w: seq<Byte>, timeMsg: Option<string>, correctErrors: bool)
    requires |w| >= MSG_FORMAT_PACKET_LEN && HasHeader(w) && w[2] == MSG_TYPE_FORMAT
    ensures var r := Register(st.schema, w[MSG_HEADER_LEN..MSG_FORMAT_PACKET_LEN]);
      Step(st, w, timeMsg, correctErrors) ==
        if r.Ok? then Advance(State(r.value, st.acc), MSG_FORMAT_PACKET_LEN) else Raise(r.error)
  {
  }

  /** A complete data message is accumulated, leaves the registry alone and consumes its length. */
  lemma StepData(st: State, w: seq<Byte>, timeMsg: Option<string>, correctErrors: bool)
    requires |w| >= MSG_HEADER_LEN && HasHeader(w) && w[2] != MSG_TYPE_FORMAT && w[2] in st.schema.descrs
    requires |w| >= st.schema.descrs[w[2]].length
    ensures var d := st.schema.descrs[w[2]];
      var r := Ingest(st.acc, d, Payload(w, d.length), timeMsg);
      Step(st, w, timeMsg, correctErrors) ==
        if r.Err? then Raise(r.error)
        else if d.length == 0 then Raise(Diverges)
        else Advance(State(st.schema, r.value), d.length)
  {
  }

  /** A step that does not stop has decided on the bytes buffered so far, whatever follows them. */
  lemma StepExtend(st: State, w: seq<Byte>, c: seq<Byte>, timeMsg: Option<string>, correctErrors: bool)
    requires Step(st, w, timeMsg, correctErrors) != Stop
    ensures Step(st, w + c, timeMsg, correctErrors) == Step(st, w, timeMsg, correctErrors)
  {
    var v := w + c;
    assert v[0] == w[0] && v[1] == w[1] && v[2] == w[2];
    if HasHeader(w) {
      if w[2] == MSG_TYPE_FORMAT {
        assert v[MSG_HEADER_LEN..MSG_FORMAT_PACKET_LEN] == w[MSG_HEADER_LEN..MSG_FORMAT_PACKET_LEN];
      } else if w[2] in st.schema.descrs {
        var d := st.schema.descrs[w[2]];
        assert Payload(v, d.length) == Payload(w, d.length);
      }
    }
  }


  // ---------------------------------------------------------------------
  // The loops, for any step

  /** One iteration of the inner loop, as a function of the state and the unconsumed bytes. */
  type Stepper = (State, seq<Byte>) -> StepResult

  /** The step consumes at least one byte and no more than are buffered. */
  ghost predicate Progressive(step: Stepper) {
    forall st, w :: step(st, w).Advance? ==> 1 <= step(st, w).n <= |w|
  }

  /** A step that does not stop has decided on the bytes it has, whatever follows them. */
  ghost predicate Local(step: Stepper) {
    forall st, w, c {:trigger step(st, w + c)} :: step(st, w) != Stop ==> step(st, w + c) == step(st, w)
  }

  /** The step only ever adds to the registry and the log. */
  ghost predicate Monotone(step: Stepper) {
    forall st, w :: step(st, w).Advance? ==> Grows(st, step(st, w).next)
  }

  /** Where the inner loop stopped: the state, and the bytes it left unconsumed. */
  datatype Scanned = Scanned(st: State, rest: seq<Byte>)

  /**
    The inner loop run to its end on the unconsumed bytes w: it ends at bytes
    on which the step stops.
   */
  function Scan(step: Stepper, st: State, w: seq<Byte>): (r: Result<Scanned, Error>)
    requires Progressive(step)
    ensures r.Ok? ==> step(r.value.st, r.value.rest) == Stop
    decreases |w|
  {
    match step(st, w)
    case Stop => Ok(Scanned(st, w))
    case Raise(e) => Err(e)
    case Advance(next, n) => Scan(step, next, w[n..])
  }

  /** What the inner loop leaves unconsumed is a suffix of its bytes: it only ever drops a prefix. */
  lemma {:induction false} ScanLeavesSuffix(step: Stepper, st: State, w: seq<Byte>)
    requires Progressive(step) && Scan(step, st, w).Ok?
    ensures var rest := Scan(step, st, w).value.rest;
      |rest| <= |w| && rest == w[|w| - |rest|..]
    decreases |w|
  {
    var s := step(st, w);
    if s.Advance? {
      ScanLeavesSuffix(step, s.next, w[s.n..]);
      var rest := Scan(step, st, w).value.rest;
      assert w[s.n..][|w[s.n..]| - |rest|..] == w[|w| - |rest|..];
    }
  }

  /**
    The outer loop (sdlog2.py:77-109) from the state st with the unconsumed
    bytes carry: each chunk is appended to the carry and scanned; an empty
    chunk, like the end of the input, ends the parse, and whatever is still
    unconsumed then is dropped without an error.
   */
  function Run(step: Stepper, st: State, carry: seq<Byte>, chunks: seq<seq<Byte>>): Result<State, Error>
    requires Progressive(step)
    decreases |chunks|
  {
    if |chunks| == 0 || |chunks[0]| == 0 then Ok(st)
    else match Scan(step, st, carry + chunks[0])
      case Err(e) => Err(e)
      case Ok(s) => Run(step, s.st, s.rest, chunks[1..])
  }

  /** The chunks glued together. */
  function Flatten(chunks: seq<seq<Byte>>): seq<Byte> {
    if chunks == [] then [] else chunks[0] + Flatten(chunks[1..])
  }

  /** A stop ends the inner loop where it is. */
  lemma ScanStop(step: Stepper, st: State, w: seq<Byte>)
    requires Progressive(step) && step(st, w) == Stop
    ensures Scan(step, st, w) == Ok(Scanned(st, w))
  {
  }

  /** A step that consumes n bytes leaves the rest of the loop to the remaining bytes. */
  lemma ScanAdvance(step: Stepper, st: State, w: seq<Byte>)
    requires Progressive(step) && step(st, w).Advance?
    ensures Scan(step, st, w) == Scan(step, step(st, w).next, w[step(st, w).n..])
  {
  }

  /** A step that raises ends the loop with that error. */
  lemma ScanRaise(step: Stepper, st: State, w: seq<Byte>)
    requires Progressive(step) && step(st, w).Raise?
    ensures Scan(step, st, w) == Err(step(st, w).error)
  {
  }

  /** One round of the outer loop: the chunk is scanned together with the carry. */
  lemma RunChunk(step: Stepper, st: State, carry: seq<Byte>, chunks: seq<seq<Byte>>)
    requires Progressive(step) && |chunks| > 0 && |chunks[0]| > 0
    ensures var t := Scan(step, st, carry + chunks[0]);
      Run(step, st, carry, chunks) ==
        if t.Err? then Err(t.error) else Run(step, t.value.st, t.value.rest, chunks[1..])
  {
  }

  /** The outer loop ends at the end of the input or at an empty chunk. */
  lemma RunEnd(step: Stepper, st: State, carry: seq<Byte>, chunks: seq<seq<Byte>>)
    requires Progressive(step) && (|chunks| == 0 || |chunks[0]| == 0)
    ensures Run(step, st, carry, chunks) == Ok(st)
  {
  }

  /**
    More input does not change what the loop does up to where it stopped:
    scanning w + c picks up from the stopping point with the carry rest + c,
    and an exception on w is the same exception on w + c.
   */
  lemma {:induction false} ScanExtend(step: Stepper, st: State, w: seq<Byte>, c: seq<Byte>)
    requires Progressive(step) && Local(step)
    ensures var r := Scan(step, st, w);
      && (r.Ok? ==> Scan(step, st, w + c) == Scan(step, r.value.st, r.value.rest + c))
      && (r.Err? ==> Scan(step, st, w + c) == r)
    decreases |w|
  {
    var s := step(st, w);
    if s != Stop {
      assert step(st, w + c) == s;
      if s.Advance? {
        assert (w + c)[s.n..] == w[s.n..] + c;
        ScanExtend(step, s.next, w[s.n..], c);
      }
    }
  }

  /**
    Bytes that still do not complete the message the loop stopped at are
    left unconsumed with the rest: the loop stops at the same place.
   */
  lemma ScanThenStop(step: Stepper, st: State, w: seq<Byte>, partial: seq<Byte>)
    requires Progressive(step) && Local(step) && Scan(step, st, w).Ok?
    requires var s := Scan(step, st, w).value; step(s.st, s.rest + partial) == Stop
    ensures var s := Scan(step, st, w).value;
      Scan(step, st, w + partial) == Ok(Scanned(s.st, s.rest + partial))
  {
    var s := Scan(step, st, w).value;
    ScanExtend(step, st, w, partial);
    ScanStop(step, s.st, s.rest + partial);
  }

  /** The chunks after the first, glued, follow the first. */
  lemma FlattenCons(chunks: seq<seq<Byte>>)
    requires chunks != []
    ensures Flatten(chunks) == chunks[0] + Flatten(chunks[1..])
  {
  }

  /** What the outer loop ends with, read off a scan of everything. */
  function Final(r: Result<Scanned, Error>): Result<State, Error> {
    match r
    case Ok(s) => Ok(s.st)
    case Err(e) => Err(e)
  }

  /**
    Feeding non-empty chunks one by one is scanning their concatenation in
    one go: the inner loop's stops at chunk boundaries change nothing.
   */
  lemma {:induction false} RunIsScan(step: Stepper, st: State, carry: seq<Byte>, chunks: seq<seq<Byte>>)
    requires Progressive(step) && Local(step) && step(st, carry) == Stop
    requires forall i :: 0 <= i < |chunks| ==> |chunks[i]| > 0
    ensures Run(step, st, carry, chunks) == Final(Scan(step, st, carry + Flatten(chunks)))
    decreases |chunks|
  {
    if chunks == [] {
      assert carry + Flatten(chunks) == carry;
      RunEnd(step, st, carry, chunks);
      ScanStop(step, st, carry);
    } else {
      var w := carry + chunks[0];
      var more := Flatten(chunks[1..]);
      FlattenCons(chunks);
      assert carry + Flatten(chunks) == w + more;
      RunChunk(step, st, carry, chunks);
      ScanExtend(step, st, w, more);
      var r := Scan(step, st, w);
      if r.Ok? {
        RunIsScan(step, r.value.st, r.value.rest, chunks[1..]);
      }
    }
  }

  /** An empty chunk (a read of zero bytes) ends the input: later chunks are never read. */
  lemma {:induction false} EmptyChunkEndsInput(step: Stepper, st: State, carry: seq<Byte>, chunks: seq<seq<Byte>>, k: nat)
    requires Progressive(step) && k < |chunks| && chunks[k] == []
    ensures Run(step, st, carry, chunks) == Run(step, st, carry, chunks[..k])
    decreases k
  {
    if k > 0 {
      var r := Scan(step, st, carry + chunks[0]);
      if |chunks[0]| > 0 && r.Ok? {
        EmptyChunkEndsInput(step, r.value.st, r.value.rest, chunks[1..], k - 1);
        assert chunks[1..][..k - 1] == chunks[..k][1..];
      }
    }
  }

  /** The inner loop, run with a step that only adds, only adds. */
  lemma {:induction false} ScanGrows(step: Stepper, st: State, w: seq<Byte>)
    requires Progressive(step) && Monotone(step) && Scan(step, st, w).Ok?
    ensures Grows(st, Scan(step, st, w).value.st)
    decreases |w|
  {
    var s := step(st, w);
    if s.Advance? {
      ScanGrows(step, s.next, w[s.n..]);
      GrowsTrans(st, s.next, Scan(step, s.next, w[s.n..]).value.st);
    } else {
      GrowsRefl(st);
    }
  }

  /** The outer loop, run with a step that only adds, only adds. */
  lemma {:induction false} RunGrows(step: Stepper, st: State, carry: seq<Byte>, chunks: seq<seq<Byte>>)
    requires Progressive(step) && Monotone(step) && Run(step, st, carry, chunks).Ok?
    ensures Grows(st, Run(step, st, carry, chunks).value)
    decreases |chunks|
  {
    if |chunks| == 0 || |chunks[0]| == 0 {
      RunEnd(step, st, carry, chunks);
      GrowsRefl(st);
    } else {
      var w := carry + chunks[0];
      RunChunk(step, st, carry, chunks);
      var s := Scan(step, st, w).value;
      ScanGrows(step, st, w);
      RunGrows(step, s.st, s.rest, chunks[1..]);
      GrowsTrans(st, s.st, Run(step, s.st, s.rest, chunks[1..]).value);
    }
  }

  // ---------------------------------------------------------------------
  // The parser's loops

  /** The parser's step for the given time message and error policy. */
  function StepWith(timeMsg: Option<string>, correctErrors: bool): (step: Stepper)
    ensures forall st, w :: step(st, w) == Step(st, w, timeMsg, correctErrors)
    ensures Progressive(step) && Local(step)
  {
    var step := (st, w) => Step(st, w, timeMsg, correctErrors);
    StepIsLocal(step, timeMsg, correctErrors);
    step
  }

  /** Step consumes at least one byte, and a step that does not stop is unchanged by appended bytes. */
  lemma StepIsLocal(step: Stepper, timeMsg: Option<string>, correctErrors: bool)
    requires forall st, w :: step(st, w) == Step(st, w, timeMsg, correctErrors)
    ensures Progressive(step) && Local(step)
  {
    forall st, w, c | step(st, w) != Stop ensures step(st, w + c) == step(st, w) {
      StepExtend(st, w, c, timeMsg, correctErrors);
    }
  }

  /** Step only adds to the registry and the log. */
  lemma StepIsMonotone(timeMsg: Option<string>, correctErrors: bool)
    ensures Monotone(StepWith(timeMsg, correctErrors))
  {
    forall st, w | StepWith(timeMsg, correctErrors)(st, w).Advance?
      ensures Grows(st, StepWith(timeMsg, correctErrors)(st, w).next)
    {
      StepGrows(st, w, timeMsg, correctErrors);
    }
  }

  /** `process`: the log of a stream supplied chunk by chunk, or the exception it raises. */
  function Parse(chunks: seq<seq<Byte>>, timeMsg: Option<string>, correctErrors: bool): Result<Log, Error> {
    match Run(StepWith(timeMsg, correctErrors), Initial, [], chunks)
    case Ok(st) => Ok(st.acc.log)
    case Err(e) => Err(e)
  }

  /** The log of a whole stream scanned at once, the trailing partial message dropped. */
  function ParseBytes(bytes: seq<Byte>, timeMsg: Option<string>, correctErrors: bool): Result<Log, Error> {
    match Scan(StepWith(timeMsg, correctErrors), Initial, bytes)
    case Ok(s) => Ok(s.st.acc.log)
    case Err(e) => Err(e)
  }

  /** The log of a chunked stream is the log of its bytes, however they are split. */
  lemma ChunkingDoesNotMatter(chunks: seq<seq<Byte>>, timeMsg: Option<string>, correctErrors: bool)
    requires forall i :: 0 <= i < |chunks| ==> |chunks[i]| > 0
    ensures Parse(chunks, timeMsg, correctErrors) == ParseBytes(Flatten(chunks), timeMsg, correctErrors)
  {
    var step := StepWith(timeMsg, correctErrors);
    assert step(Initial, []) == Stop;
    RunIsScan(step, Initial, [], chunks);
    assert [] + Flatten(chunks) == Flatten(chunks);
  }

  /** Two splittings of the same bytes into non-empty chunks give the same log or the same error. */
  lemma SameBytesSameLog(a: seq<seq<Byte>>, b: seq<seq<Byte>>, timeMsg: Option<string>, correctErrors: bool)
    requires forall i :: 0 <= i < |a| ==> |a[i]| > 0
    requires forall i :: 0 <= i < |b| ==> |b[i]| > 0
    requires Flatten(a) == Flatten(b)
    ensures Parse(a, timeMsg, correctErrors) == Parse(b, timeMsg, correctErrors)
  {
    ChunkingDoesNotMatter(a, timeMsg, correctErrors);
    ChunkingDoesNotMatter(b, timeMsg, correctErrors);
  }

  /** A read of zero bytes ends the parse: the chunks after it are never looked at. */
  lemma ParseStopsAtEmptyChunk(chunks: seq<seq<Byte>>, k: nat, timeMsg: Option<string>, correctErrors: bool)
    requires k < |chunks| && chunks[k] == []
    ensures Parse(chunks, timeMsg, correctErrors) == Parse(chunks[..k], timeMsg, correctErrors)
  {
    EmptyChunkEndsInput(StepWith(timeMsg, correctErrors), Initial, [], chunks, k);
  }

  /**
    A stream that ends inside a message yields the log of the complete
    messages before it, without an error.
   */
  lemma TrailingPartialDropped(complete: seq<Byte>, partial: seq<Byte>, timeMsg: Option<string>, correctErrors: bool)
    requires Scan(StepWith(timeMsg, correctErrors), Initial, complete).Ok?
    requires var s := Scan(StepWith(timeMsg, correctErrors), Initial, complete).value;
      Step(s.st, s.rest + partial, timeMsg, correctErrors) == Stop
    ensures ParseBytes(complete + partial, timeMsg, correctErrors) ==
      Ok(Scan(StepWith(timeMsg, correctErrors), Initial, complete).value.st.acc.log)
  {
    ScanThenStop(StepWith(timeMsg, correctErrors), Initial, complete, partial);
  }

  /**
    With error correction a stray byte before a message is skipped and the
    rest decodes as if it were not there; without it the stray byte is fatal.
   */
  lemma StrayByte(st: State, x: Byte, w: seq<Byte>, timeMsg: Option<string>)
    requires |w| >= 2 && !(x == MSG_HEAD1 && w[0] == MSG_HEAD2)
    ensures Scan(StepWith(timeMsg, true), st, [x] + w) == Scan(StepWith(timeMsg, true), st, w)
    ensures Scan(StepWith(timeMsg, false), st, [x] + w) == Err(InvalidHeader(x, w[0]))
  {
    var v := [x] + w;
    assert v[0] == x && v[1] == w[0] && v[1..] == w;
    StepHeaderMismatch(st, v, timeMsg, true);
    StepHeaderMismatch(st, v, timeMsg, false);
    ScanAdvance(StepWith(timeMsg, true), st, v);
    ScanRaise(StepWith(timeMsg, false), st, v);
  }

  /**
    The parser's outer loop, resumed from any state and carry, only adds to
    the registry and the log it starts from.
   */
  lemma ParseRunGrows(st: State, carry: seq<Byte>, chunks: seq<seq<Byte>>, timeMsg: Option<string>, correctErrors: bool)
    requires Run(StepWith(timeMsg, correctErrors), st, carry, chunks).Ok?
    ensures Grows(st, Run(StepWith(timeMsg, correctErrors), st, carry, chunks).value)
  {
    StepIsMonotone(timeMsg, correctErrors);
    RunGrows(StepWith(timeMsg, correctErrors), st, carry, chunks);
  }

  // ---------------------------------------------------------------------
  // What only grows

  /** The registry never loses a type id, a name or an entry of the name list. */
  predicate SchemaGrows(a: Schema, b: Schema) {
    && a.descrs.Keys <= b.descrs.Keys
    && a.labels.Keys <= b.labels.Keys
    && |a.names| <= |b.names| && b.names[..|a.names|] == a.names
  }

  /** One state is a later stage of another: registry and log only grew. */
  predicate Grows(a: State, b: State) {
    SchemaGrows(a.schema, b.schema) && LogExtends(a.acc.log, b.acc.log)
  }

  /** Grows is reflexive. */
  lemma GrowsRefl(a: State)
    ensures Grows(a, a)
  {
    assert a.schema.names[..|a.schema.names|] == a.schema.names;
    forall n | n in a.acc.log ensures ColumnsExtend(a.acc.log[n], a.acc.log[n]) {
      forall l | l in a.acc.log[n] ensures a.acc.log[n][l][..|a.acc.log[n][l]|] == a.acc.log[n][l] {
      }
    }
  }

  /** Grows is transitive. */
  lemma GrowsTrans(a: State, b: State, c: State)
    requires Grows(a, b) && Grows(b, c)
    ensures Grows(a, c)
  {
    LogExtendsTrans(a.acc.log, b.acc.log, c.acc.log);
    assert c.schema.names[..|b.schema.names|][..|a.schema.names|] == c.schema.names[..|a.schema.names|];
  }

  /** A step only adds: registrations and appended values. */
  lemma StepGrows(st: State, w: seq<Byte>, timeMsg: Option<string>, correctErrors: bool)
    requires Step(st, w, timeMsg, correctErrors).Advance?
    ensures Grows(st, Step(st, w, timeMsg, correctErrors).next)
  {
    var next := Step(st, w, timeMsg, correctErrors).next;
    GrowsRefl(st);
    if HasHeader(w) {
      if w[2] == MSG_TYPE_FORMAT {
        RegisterGrows(st.schema, w[MSG_HEADER_LEN..MSG_FORMAT_PACKET_LEN]);
      } else {
        var d := st.schema.descrs[w[2]];
        IngestExtends(st.acc, d, Payload(w, d.length), timeMsg);
      }
    }
  }

}
