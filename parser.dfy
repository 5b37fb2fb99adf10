/**
  The class SDLog2Parser (sdlog2.py:18-179): the buffer and read pointer,
  the registry fields, the log and the last time, updated in place by
  `process`, `__parseMsgDescr` and `__parseMsg`. Each method is proved to do
  what the functions of the modules Registry, Accumulator and Stream say, so
  `Process` returns exactly Stream.Parse of its chunks.
 */
module SDLog2 {
  import opened Bytes
  import opened Wrappers
  import opened Errors
  import opened CStrings
  import opened Formats
  import opened Records
  import opened Registry
  import opened Accumulator
  import opened Stream

  /** An entry of the filter map: every field ("*") or the listed ones. */
  datatype FieldFilter = AllFields | Only(fields: seq<string>)

  /** The loop of sdlog2.py:166-167: one empty column per label. */
  method NewColumns(labels: seq<string>) returns (cols: Columns)
    ensures forall l :: l in cols <==> l in labels
    ensures forall l :: l in cols ==> cols[l] == []
    ensures cols == map l | l in labels :: []
  {
    cols := map[];
    var i := 0;
    while i < |labels|
      invariant 0 <= i <= |labels|
      invariant forall l :: l in cols <==> l in labels[..i]
      invariant forall l :: l in cols ==> cols[l] == []
    {
      assert labels[..i + 1] == labels[..i] + [labels[i]];
      cols := cols[labels[i] := []];
      i := i + 1;
    }
    assert labels[..i] == labels;
  }

  class SDLog2Parser {
    /** `__msg_descrs`: descriptor by type id. */
    var msgDescrs: map<Byte, Descr>
    /** `__msg_labels`: labels by message name. */
    var msgLabels: map<string, seq<string>>
    /** `__msg_names`: names in the order of their FORMAT messages. */
    var msgNames: seq<string>
    /** `__buffer`: the bytes read and not yet dropped. */
    var buffer: seq<Byte>
    /** `__ptr`: where the next message starts in buffer. */
    var ptr: nat
    /** `__msg_filter_map`: reset to empty and never filled. */
    var msgFilterMap: map<string, FieldFilter>
    /** `__last_time`: the first field of the last time-message record, Nil before one. */
    var lastTime: Value
    /** `__log`: message name to label to values. */
    var log: Log

    /** The pointer stays inside the buffer, and the filter map stays empty. */
    predicate Valid()
      reads this
    {
      ptr <= |buffer| && msgFilterMap == map[]
    }

    /** The registry and the accumulator held in the fields. */
    function Model(): State
      reads this
    {
      State(Schema(msgDescrs, msgLabels, msgNames), Accum(log, lastTime))
    }

    /** The unconsumed bytes, `buffer[ptr:]`. */
    function Window(): seq<Byte>
      requires ptr <= |buffer|
      reads this
    {
      buffer[ptr..]
    }

    /** A parser in the state `reset` leaves (the source's `__init__` leaves the fields unset). */
    constructor ()
      ensures Valid() && Model() == Initial && buffer == [] && ptr == 0
    {
      msgDescrs := map[];
      msgLabels := map[];
      msgNames := [];
      buffer := [];
      ptr := 0;
      msgFilterMap := map[];
      lastTime := Nil;
      log := map[];
    }

    /** `reset` (sdlog2.py:53-61): empty registry, buffer, filter and log, no time seen. */
    method Reset()
      modifies this
      ensures Valid() && Model() == Initial && buffer == [] && ptr == 0
    {
      msgDescrs := map[];
      msgLabels := map[];
      msgNames := [];
      buffer := [];
      ptr := 0;
      msgFilterMap := map[];
      lastTime := Nil;
      log := map[];
    }

    /** `__bytesLeft` (sdlog2.py:113-114): how many buffered bytes follow the pointer. */
    function BytesLeft(): (n: nat)
      requires ptr <= |buffer|
      reads this
      ensures ptr + n == |buffer| && n == |Window()|
    {
      |buffer| - ptr
    }

    /**
      `__filterMsg` (sdlog2.py:116-120): every field while the filter map is
      empty, which it always is, and otherwise the map's entry for the name.
     */
    function FilterMsg(name: string): (r: Option<FieldFilter>)
      reads this
      ensures Valid() ==> r == Some(AllFields)
      ensures msgFilterMap != map[] ==> (r.Some? <==> name in msgFilterMap)
      ensures r.Some? && msgFilterMap != map[] ==> r.value == msgFilterMap[name]
    {
      if |msgFilterMap| > 0 then
        if name in msgFilterMap then Some(msgFilterMap[name]) else None
      else Some(AllFields)
    }

    /**
      `__parseMsgDescr` (sdlog2.py:122-147) on the FORMAT message at the
      pointer: the registry becomes what Register makes of its payload and
      the pointer moves past its 89 bytes, or the registration's error is
      returned and nothing changes.
     */
    method ParseMsgDescr() returns (err: Option<Error>)
      requires Valid() && ptr + MSG_FORMAT_PACKET_LEN <= |buffer|
      modifies this
      ensures var r := Register(old(Model()).schema, old(buffer[ptr + MSG_HEADER_LEN..ptr + MSG_FORMAT_PACKET_LEN]));
        && (err.Some? <==> r.Err?)
        && (r.Err? ==> err.value == r.error && Model() == old(Model()) && ptr == old(ptr))
        && (r.Ok? ==> Model() == State(r.value, old(Model()).acc) && ptr == old(ptr) + MSG_FORMAT_PACKET_LEN)
      ensures buffer == old(buffer) && msgFilterMap == old(msgFilterMap) && Valid()
    {
      var p := buffer[ptr + MSG_HEADER_LEN..ptr + MSG_FORMAT_PACKET_LEN];
      var msgType := TypeField(p);
      if msgType != MSG_TYPE_FORMAT {
        var msgLength := LengthField(p);
        var name := Text(NameField(p));
        if name.Err? {
          return Some(name.error);
        }
        var format := Text(FormatField(p));
        if format.Err? {
          return Some(format.error);
        }
        var labelText := Text(LabelsField(p));
        if labelText.Err? {
          return Some(labelText.error);
        }
        var labels := Split(labelText.value, ',');
        var fmt := format.value;
        var fields: seq<FieldSpec> := [];
        var i := 0;
        while i < |fmt|
          invariant 0 <= i <= |fmt|
          invariant FieldSpecsFrom(fmt, i, fields) == FieldSpecs(fmt)
        {
          var f := FormatToStruct(fmt[i]);
          if f.None? {
            return Some(UnsupportedFormatChar(fmt[i], name.value, msgType));
          }
          fields := fields + [f.value];
          i := i + 1;
        }
        msgDescrs := msgDescrs[msgType := Descr(msgLength, name.value, fmt, labels, fields)];
        msgLabels := msgLabels[name.value := labels];
        msgNames := msgNames + [name.value];
      }
      ptr := ptr + MSG_FORMAT_PACKET_LEN;
      return None;
    }

    /**
      The loop of sdlog2.py:171-172 on the columns of name: value i goes to
      the end of the column of label i, as Store says, or Store's error is
      returned.
     */
    method StoreRecord(name: string, labels: seq<string>, data: seq<Value>) returns (err: Option<Error>)
      requires name in log
      modifies this
      ensures var r := Store(old(log[name]), labels, data);
        && (err.Some? <==> r.Err?)
        && (r.Err? ==> err.value == r.error)
        && (r.Ok? ==> log == old(log)[name := r.value])
      ensures lastTime == old(lastTime) && buffer == old(buffer) && ptr == old(ptr) && msgFilterMap == old(msgFilterMap)
      ensures msgDescrs == old(msgDescrs) && msgLabels == old(msgLabels) && msgNames == old(msgNames)
    {
      var i := 0;
      while i < |data|
        invariant 0 <= i <= |data|
        invariant name in log && log == old(log)[name := log[name]]
        invariant StoreFrom(log[name], labels, data, i) == Store(old(log[name]), labels, data)
        invariant lastTime == old(lastTime) && buffer == old(buffer) && ptr == old(ptr) && msgFilterMap == old(msgFilterMap)
        invariant msgDescrs == old(msgDescrs) && msgLabels == old(msgLabels) && msgNames == old(msgNames)
      {
        if i >= |labels| {
          return Some(LabelIndexOutOfRange);
        }
        var lbl := labels[i];
        if lbl !in log[name] {
          return Some(MissingColumn(lbl));
        }
        log := log[name := log[name][lbl := log[name][lbl] + [data[i]]]];
        i := i + 1;
      }
      return None;
    }

    /**
      sdlog2.py:173-178, once a record of name is stored: a time-message
      record sets the last time, any other appends it to the name's shadow
      column if there is one, as UpdateTime says.
     */
    method UpdateLastTime(name: string, data: seq<Value>, timeMsg: Option<string>) returns (err: Option<Error>)
      requires name in log
      modifies this
      ensures var r := UpdateTime(old(Accum(log, lastTime)), name, old(log[name]), data, timeMsg);
        && (err.Some? <==> r.Err?)
        && (r.Err? ==> err.value == r.error)
        && (r.Ok? ==> Accum(log, lastTime) == r.value)
      ensures buffer == old(buffer) && ptr == old(ptr) && msgFilterMap == old(msgFilterMap)
      ensures msgDescrs == old(msgDescrs) && msgLabels == old(msgLabels) && msgNames == old(msgNames)
    {
      if timeMsg.Some? && name == timeMsg.value {
        if |data| == 0 {
          return Some(EmptyTimeRecord);
        }
        lastTime := data[0];
      } else {
        if timeMsg.None? {
          return Some(NoTimeMessage);
        }
        var shadow := ShadowName(timeMsg.value);
        if shadow in log[name] {
          log := log[name := log[name][shadow := log[name][shadow] + [lastTime]]];
        }
      }
      return None;
    }

    /**
      sdlog2.py:163-178 on the decoded values of a record of d: create the
      name's columns on its first record, store the values, then set or use
      the last time, as Accumulate says, or return Accumulate's error.
     */
    method AppendRecord(d: Descr, data: seq<Value>, timeMsg: Option<string>) returns (err: Option<Error>)
      modifies this
      ensures var r := Accumulate(old(Accum(log, lastTime)), d, data, timeMsg);
        && (err.Some? <==> r.Err?)
        && (r.Err? ==> err.value == r.error)
        && (r.Ok? ==> Accum(log, lastTime) == r.value)
      ensures buffer == old(buffer) && ptr == old(ptr) && msgFilterMap == old(msgFilterMap)
      ensures msgDescrs == old(msgDescrs) && msgLabels == old(msgLabels) && msgNames == old(msgNames)
    {
      ghost var a := Accum(log, lastTime);
      AccumulateSteps(a, d, data, timeMsg);
      if d.name !in log {
        var cols := NewColumns(d.labels);
        if timeMsg.Some? && d.name != timeMsg.value && lastTime != Nil {
          cols := cols[ShadowName(timeMsg.value) := []];
        }
        log := log[d.name := cols];
      } else {
        LogRewrite(log, d.name);
      }
      assert log == a.log[d.name := ColumnsFor(a, d, timeMsg)];
      err := StoreRecord(d.name, d.labels, data);
      if err.Some? {
        return;
      }
      ghost var stored := log[d.name];
      LogOverwrite(a.log, d.name, ColumnsFor(a, d, timeMsg), stored);
      assert log == a.log[d.name := stored];
      UpdateTimeOverwrite(a, d.name, stored, data, timeMsg);
      err := UpdateLastTime(d.name, data, timeMsg);
    }

    /**
      `__parseMsg` (sdlog2.py:149-179) on the wholly buffered data message of
      descriptor d at the pointer: the log and the last time become what
      Ingest makes of its payload and the pointer moves past its declared
      length, or Ingest's error is returned.
     */
    method ParseMsg(d: Descr, timeMsg: Option<string>) returns (err: Option<Error>)
      requires Valid() && ptr + MSG_HEADER_LEN <= |buffer| && ptr + d.length <= |buffer|
      modifies this
      ensures var r := Ingest(old(Accum(log, lastTime)), d, Payload(old(Window()), d.length), timeMsg);
        && (err.Some? <==> r.Err?)
        && (r.Err? ==> err.value == r.error)
        && (r.Ok? ==> Accum(log, lastTime) == r.value && ptr == old(ptr) + d.length)
      ensures buffer == old(buffer) && msgFilterMap == old(msgFilterMap) && Valid()
      ensures msgDescrs == old(msgDescrs) && msgLabels == old(msgLabels) && msgNames == old(msgNames)
    {
      var show := FilterMsg(d.name);
      if show.Some? {
        var payload := if d.length >= MSG_HEADER_LEN then buffer[ptr + MSG_HEADER_LEN..ptr + d.length] else [];
        assert payload == Payload(Window(), d.length);
        IngestSteps(Accum(log, lastTime), d, payload, timeMsg);
        var decoded := DecodeRecord(d.fields, payload);
        if decoded.Err? {
          return Some(decoded.error);
        }
        err := AppendRecord(d, decoded.value, timeMsg);
        if err.Some? {
          return;
        }
      }
      ptr := ptr + d.length;
      return None;
    }

    /**
      One iteration of the inner loop of `process` (sdlog2.py:84-108) with at
      least 3 bytes left: skip a byte that does not start a message, or
      parse the FORMAT or data message at the pointer once it is wholly
      buffered. It does what Step says: stop (nothing changes), raise, or move
      to Step's next state and past the bytes Step consumes.
     */
    method ParseNext(timeMsg: Option<string>, correctErrors: bool) returns (stop: bool, err: Option<Error>)
      requires Valid() && BytesLeft() >= MSG_HEADER_LEN
      modifies this
      ensures Valid() && buffer == old(buffer)
      ensures var s := Step(old(Model()), old(Window()), timeMsg, correctErrors);
        && (stop <==> s.Stop?)
        && (s.Stop? ==> err.None? && Model() == old(Model()) && ptr == old(ptr))
        && (s.Raise? ==> err == Some(s.error))
        && (s.Advance? ==> err.None? && Model() == s.next && ptr == old(ptr) + s.n)
    {
      ghost var st := Model();
      ghost var w := Window();
      stop, err := false, None;
      var head1 := buffer[ptr];
      var head2 := buffer[ptr + 1];
      if head1 != MSG_HEAD1 || head2 != MSG_HEAD2 {
        StepHeaderMismatch(st, w, timeMsg, correctErrors);
        if correctErrors {
          ptr := ptr + 1;
        } else {
          err := Some(InvalidHeader(head1, head2));
        }
        return;
      }
      var msgType := buffer[ptr + 2];
      if msgType == MSG_TYPE_FORMAT {
        if BytesLeft() < MSG_FORMAT_PACKET_LEN {
          StepStops(st, w, timeMsg, correctErrors);
          return true, None;
        }
        StepFormat(st, w, timeMsg, correctErrors);
        assert w[MSG_HEADER_LEN..MSG_FORMAT_PACKET_LEN] == buffer[ptr + MSG_HEADER_LEN..ptr + MSG_FORMAT_PACKET_LEN];
        err := ParseMsgDescr();
      } else {
        if msgType !in msgDescrs {
          StepUnknownType(st, w, timeMsg, correctErrors);
          return false, Some(UnknownMsgType(msgType));
        }
        var d := msgDescrs[msgType];
        if BytesLeft() < d.length {
          StepStops(st, w, timeMsg, correctErrors);
          return true, None;
        }
        StepData(st, w, timeMsg, correctErrors);
        ghost var r := Ingest(st.acc, d, Payload(w, d.length), timeMsg);
        err := ParseMsg(d, timeMsg);
        if err.None? {
          if d.length == 0 {
            err := Some(Diverges);
          } else {
            assert Accum(log, lastTime) == r.value;
          }
        }
      }
    }

    /**
      The inner loop of `process` (sdlog2.py:83-108): parse every message
      wholly in the buffer, skipping or rejecting bytes that do not start a
      message. It ends as Scan does: with the state and the unconsumed bytes
      Scan gives, or with its error.
     */
    method ParseBuffered(timeMsg: Option<string>, correctErrors: bool) returns (err: Option<Error>)
      requires Valid()
      modifies this
      ensures Valid() && buffer == old(buffer)
      ensures var t := Scan(StepWith(timeMsg, correctErrors), old(Model()), old(Window()));
        && (err.Some? <==> t.Err?)
        && (t.Err? ==> err.value == t.error)
        && (t.Ok? ==> Model() == t.value.st && Window() == t.value.rest)
    {
      ghost var step := StepWith(timeMsg, correctErrors);
      ghost var target := Scan(step, Model(), Window());
      while BytesLeft() >= MSG_HEADER_LEN
        invariant Valid() && buffer == old(buffer)
        invariant Scan(step, Model(), Window()) == target
        decreases |buffer| - ptr
      {
        ghost var st := Model();
        ghost var w := Window();
        var stop;
        stop, err := ParseNext(timeMsg, correctErrors);
        if stop {
          ScanStop(step, st, w);
          break;
        }
        if err.Some? {
          ScanRaise(step, st, w);
          return;
        }
        ScanAdvance(step, st, w);
        assert Window() == w[step(st, w).n..];
      }
      if BytesLeft() < MSG_HEADER_LEN {
        assert step(Model(), Window()) == Stop;
        ScanStop(step, Model(), Window());
      }
      return None;
    }

    /**
      `process` (sdlog2.py:72-111) on a stream given as its chunks: reset,
      then for each chunk drop the consumed bytes, append the chunk and parse
      every message wholly in the buffer. The result is exactly
      Parse(chunks, timeMsg, correctErrors); on success the log field is that
      log and the whole state is the one the outer loop ends in.
     */
    method Process(chunks: seq<seq<Byte>>, timeMsg: Option<string>, correctErrors: bool) returns (r: Result<Log, Error>)
      modifies this
      ensures r == Parse(chunks, timeMsg, correctErrors)
      ensures r.Ok? ==> r.value == log
      ensures r.Ok? ==> Model() == Run(StepWith(timeMsg, correctErrors), Initial, [], chunks).value
      ensures Valid()
    {
      Reset();
      ghost var step := StepWith(timeMsg, correctErrors);
      ghost var goal := Run(step, Initial, [], chunks);
      assert chunks[0..] == chunks;
      var k := 0;
      while k < |chunks|
        invariant Valid() && 0 <= k <= |chunks|
        invariant Run(step, Model(), Window(), chunks[k..]) == goal
        decreases |chunks| - k
      {
        var chunk := chunks[k];
        if |chunk| == 0 {
          break;
        }
        ghost var st := Model();
        ghost var carry := Window();
        assert chunks[k..][0] == chunk && chunks[k..][1..] == chunks[k + 1..];
        RunChunk(step, st, carry, chunks[k..]);
        buffer := buffer[ptr..] + chunk;
        ptr := 0;
        assert Model() == st && Window() == carry + chunk;
        var err := ParseBuffered(timeMsg, correctErrors);
        if err.Some? {
          return Err(err.value);
        }
        k := k + 1;
      }
      RunEnd(step, Model(), Window(), chunks[k..]);
      return Ok(log);
    }
  }
}
