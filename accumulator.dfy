/**
  The log accumulator of SDLog2Parser (`__parseMsg`, sdlog2.py:149-178):
  a decoded record is appended, one value per label, to the columns of its
  message name, which are created on the name's first record; the first
  field of each time-message record becomes the last time, and the other
  messages' time-shadow columns `<time>__` receive it.
 */
module Accumulator {
  import opened Bytes
  import opened Wrappers
  import opened Errors
  import opened Formats
  import opened Records
  import opened Registry

  /** The columns of one message name: label to the values in arrival order. */
  type Columns = map<string, seq<Value>>

  /** `__log`: message name to its columns. */
  type Log = map<string, Columns>

  /** The fields `__log` and `__last_time`. */
  datatype Accum = Accum(log: Log, lastTime: Value)

  /** The accumulator after `reset`: no log, no time seen. */
  const EmptyAccum: Accum := Accum(map[], Nil)

  /** The label of the time-shadow column of time message timeMsg. */
  function ShadowName(timeMsg: string): string {
    timeMsg + "__"
  }

  /** Whether a name's first record gets a time-shadow column (sdlog2.py:168). */
  predicate WantsShadow(name: string, timeMsg: Option<string>, lastTime: Value) {
    timeMsg.Some? && name != timeMsg.value && lastTime != Nil
  }

  /** The columns a name starts with: one empty list per label, and a shadow column (sdlog2.py:165-169). */
  function InitColumns(labels: seq<string>, name: string, timeMsg: Option<string>, lastTime: Value): (cols: Columns)
    ensures forall l :: l in cols <==> l in labels || (WantsShadow(name, timeMsg, lastTime) && l == ShadowName(timeMsg.value))
    ensures forall l :: l in cols ==> cols[l] == []
  {
    var cols: Columns := map l | l in labels :: [];
    if WantsShadow(name, timeMsg, lastTime) then cols[ShadowName(timeMsg.value) := []] else cols
  }

  /**
    The loop of sdlog2.py:171-172 from field i on: value i goes to the end of
    the column of label i. Fails when there are more values than labels, or
    when the label has no column.
   */
  function StoreFrom(cols: Columns, labels: seq<string>, data: seq<Value>, i: nat): Result<Columns, Error>
    decreases |data| - i
  {
    if i >= |data| then Ok(cols)
    else if i >= |labels| then Err(LabelIndexOutOfRange)
    else if labels[i] !in cols then Err(MissingColumn(labels[i]))
    else StoreFrom(cols[labels[i] := cols[labels[i]] + [data[i]]], labels, data, i + 1)
  }

  /** The whole storing loop. */
  function Store(cols: Columns, labels: seq<string>, data: seq<Value>): Result<Columns, Error> {
    StoreFrom(cols, labels, data, 0)
  }

  /** The columns a record of d is stored into: the name's, or fresh ones on its first record. */
  function ColumnsFor(a: Accum, d: Descr, timeMsg: Option<string>): Columns {
    if d.name in a.log then a.log[d.name] else InitColumns(d.labels, d.name, timeMsg, a.lastTime)
  }

  /**
    The end of `__parseMsg` (sdlog2.py:173-178), once the record's values are
    stored in the name's columns: a time-message record sets the last time to
    its first field; any other record appends the last time to its shadow
    column if the name has one.
   */
  function UpdateTime(a: Accum, name: string, stored: Columns, data: seq<Value>, timeMsg: Option<string>): Result<Accum, Error> {
    if timeMsg.Some? && name == timeMsg.value then
      if |data| == 0 then Err(EmptyTimeRecord)
      else Ok(Accum(a.log[name := stored], data[0]))
    else if timeMsg.None? then Err(NoTimeMessage)
    else
      var shadow := ShadowName(timeMsg.value);
      if shadow in stored then Ok(Accum(a.log[name := stored[shadow := stored[shadow] + [a.lastTime]]], a.lastTime))
      else Ok(Accum(a.log[name := stored], a.lastTime))
  }

  /**
    `__parseMsg` without the pointer increment: decode, create the name's
    columns on its first record, store, then update or use the last time.
   */
  function Ingest(a: Accum, d: Descr, payload: seq<Byte>, timeMsg: Option<string>): Result<Accum, Error> {
    var data :- DecodeRecord(d.fields, payload);
    Accumulate(a, d, data, timeMsg)
  }

  /** The accumulating half of `__parseMsg` (sdlog2.py:163-178) on decoded values. */
  function Accumulate(a: Accum, d: Descr, data: seq<Value>, timeMsg: Option<string>): Result<Accum, Error> {
    var stored :- Store(ColumnsFor(a, d, timeMsg), d.labels, data);
    UpdateTime(a, d.name, stored, data, timeMsg)
  }

  /** No label occurs twice. */
  predicate Distinct(labels: seq<string>) {
    forall i, j :: 0 <= i < j < |labels| ==> labels[i] != labels[j]
  }

  /** Old columns are prefixes of new ones, and no column disappears. */
  predicate ColumnsExtend(old_: Columns, new_: Columns) {
    forall l :: l in old_ ==> l in new_ && |old_[l]| <= |new_[l]| && new_[l][..|old_[l]|] == old_[l]
  }

  /** Every name and column of the old log is still there, with its values as a prefix. */
  predicate LogExtends(old_: Log, new_: Log) {
    forall n :: n in old_ ==> n in new_ && ColumnsExtend(old_[n], new_[n])
  }

  /** ColumnsExtend is transitive. */
  lemma ColumnsExtendTrans(a: Columns, b: Columns, c: Columns)
    requires ColumnsExtend(a, b) && ColumnsExtend(b, c)
    ensures ColumnsExtend(a, c)
  {
    forall l | l in a ensures l in c && |a[l]| <= |c[l]| && c[l][..|a[l]|] == a[l] {
      assert c[l][..|b[l]|][..|a[l]|] == c[l][..|a[l]|];
    }
  }

  /** LogExtends is transitive. */
  lemma LogExtendsTrans(a: Log, b: Log, c: Log)
    requires LogExtends(a, b) && LogExtends(b, c)
    ensures LogExtends(a, c)
  {
    forall n | n in a ensures n in c && ColumnsExtend(a[n], c[n]) {
      ColumnsExtendTrans(a[n], b[n], c[n]);
    }
  }

  /** Storing only appends: the same columns, each old one a prefix of the new. */
  lemma {:induction false} StoreFromExtends(cols: Columns, labels: seq<string>, data: seq<Value>, i: nat)
    requires StoreFrom(cols, labels, data, i).Ok?
    ensures var r := StoreFrom(cols, labels, data, i).value;
      r.Keys == cols.Keys && ColumnsExtend(cols, r)
    decreases |data| - i
  {
    if i < |data| {
      var next := cols[labels[i] := cols[labels[i]] + [data[i]]];
      StoreFromExtends(next, labels, data, i + 1);
      assert ColumnsExtend(cols, next) by {
        forall l | l in cols ensures l in next && |cols[l]| <= |next[l]| && next[l][..|cols[l]|] == cols[l] {
          if l == labels[i] {
            assert next[l] == cols[l] + [data[i]];
          }
        }
      }
      ColumnsExtendTrans(cols, next, StoreFrom(next, labels, data, i + 1).value);
    }
  }

  /**
    With distinct labels, at least one per value, all holding a column, storing
    succeeds and appends value i to the column of label i and touches no
    other column.
   */
  lemma {:induction false} StoreFromAppends(cols: Columns, labels: seq<string>, data: seq<Value>, i: nat)
    requires i <= |data| <= |labels| && Distinct(labels)
    requires forall j :: i <= j < |data| ==> labels[j] in cols
    ensures StoreFrom(cols, labels, data, i).Ok?
    ensures var r := StoreFrom(cols, labels, data, i).value;
      && r.Keys == cols.Keys
      && (forall j :: i <= j < |data| ==> r[labels[j]] == cols[labels[j]] + [data[j]])
      && (forall l :: l in cols && (forall j :: i <= j < |data| ==> l != labels[j]) ==> r[l] == cols[l])
    decreases |data| - i
  {
    if i < |data| {
      var next := cols[labels[i] := cols[labels[i]] + [data[i]]];
      StoreFromAppends(next, labels, data, i + 1);
      var r := StoreFrom(next, labels, data, i + 1).value;
      assert r[labels[i]] == cols[labels[i]] + [data[i]] by {
        assert forall j :: i + 1 <= j < |data| ==> labels[i] != labels[j];
      }
    }
  }

  /**
    What the time step does to a record's stored columns: only the name's
    entry of the log changes; it keeps the stored columns, except that a
    non-time record's shadow column gets the last time appended; a time
    record (which must have a field) makes its first value the last time.
   */
  lemma UpdateTimeShape(a: Accum, name: string, stored: Columns, data: seq<Value>, timeMsg: Option<string>)
    requires UpdateTime(a, name, stored, data, timeMsg).Ok?
    ensures var r := UpdateTime(a, name, stored, data, timeMsg).value;
      && timeMsg.Some?
      && name in r.log && r.log == a.log[name := r.log[name]]
      && r.log[name].Keys == stored.Keys
      && (forall l :: l in stored && (name == timeMsg.value || l != ShadowName(timeMsg.value)) ==> r.log[name][l] == stored[l])
      && (name != timeMsg.value && ShadowName(timeMsg.value) in stored ==>
            r.log[name][ShadowName(timeMsg.value)] == stored[ShadowName(timeMsg.value)] + [a.lastTime])
      && (if name == timeMsg.value then |data| > 0 && r.lastTime == data[0] else r.lastTime == a.lastTime)
  {
  }

  /** Ingest step by step: decode, then accumulate. */
  lemma IngestSteps(a: Accum, d: Descr, payload: seq<Byte>, timeMsg: Option<string>)
    ensures var dec := DecodeRecord(d.fields, payload);
      Ingest(a, d, payload, timeMsg) == if dec.Err? then Err(dec.error) else Accumulate(a, d, dec.value, timeMsg)
  {
  }

  /** Accumulate step by step: store, then the time update. */
  lemma AccumulateSteps(a: Accum, d: Descr, data: seq<Value>, timeMsg: Option<string>)
    ensures var s := Store(ColumnsFor(a, d, timeMsg), d.labels, data);
      Accumulate(a, d, data, timeMsg) == if s.Err? then Err(s.error) else UpdateTime(a, d.name, s.value, data, timeMsg)
  {
  }

  /** The time update only looks at the log outside the record's name through the map it rewrites. */
  lemma UpdateTimeOverwrite(a: Accum, name: string, stored: Columns, data: seq<Value>, timeMsg: Option<string>)
    ensures UpdateTime(Accum(a.log[name := stored], a.lastTime), name, stored, data, timeMsg)
         == UpdateTime(a, name, stored, data, timeMsg)
  {
    LogOverwrite(a.log, name, stored, stored);
    if timeMsg.Some? {
      var shadow := ShadowName(timeMsg.value);
      if shadow in stored {
        LogOverwrite(a.log, name, stored, stored[shadow := stored[shadow] + [a.lastTime]]);
      }
    }
  }

  /** Writing a name's columns twice keeps the second write. */
  lemma LogOverwrite(l: Log, name: string, x: Columns, y: Columns)
    ensures l[name := x][name := y] == l[name := y]
  {
  }

  /** Writing a name's own columns back changes nothing. */
  lemma LogRewrite(l: Log, name: string)
    requires name in l
    ensures l[name := l[name]] == l
  {
  }

  /** No label is named like the time-shadow column, if there is a time message. */
  predicate NotShadow(labels: seq<string>, timeMsg: Option<string>) {
    timeMsg.Some? ==> ShadowName(timeMsg.value) !in labels
  }

  /** A descriptor as the format intends: one distinct label per field, none named like the shadow column. */
  predicate WellLabelled(d: Descr, timeMsg: Option<string>) {
    |d.labels| == |d.fields| && Distinct(d.labels) && NotShadow(d.labels, timeMsg)
  }

  /** Decoding failures abort the record before anything is stored. */
  lemma IngestSizeMismatch(a: Accum, d: Descr, payload: seq<Byte>, timeMsg: Option<string>)
    requires |payload| != TotalWidth(d.fields)
    ensures Ingest(a, d, payload, timeMsg) == Err(SizeMismatch(TotalWidth(d.fields), |payload|))
  {
  }

  /** Without a time message every data record fails, at the latest at `None + "__"`. */
  lemma IngestNoTimeMessage(a: Accum, d: Descr, payload: seq<Byte>)
    ensures var r := Ingest(a, d, payload, None);
      && r.Err?
      && ((|payload| == TotalWidth(d.fields) && Store(ColumnsFor(a, d, None), d.labels, DecodeAll(d.fields, payload)).Ok?)
          ==> r.error == NoTimeMessage)
  {
  }

  /**
    The first record of a name with well-formed labels creates one column per
    label holding its value, plus a shadow column holding the last time
    exactly when a time message is set, the name is not it, and a time has
    already been seen.
   */
  lemma IngestFirstRecord(a: Accum, d: Descr, payload: seq<Byte>, timeMsg: string)
    requires d.name !in a.log && WellLabelled(d, Some(timeMsg)) && |payload| == TotalWidth(d.fields)
    requires d.name == timeMsg ==> |d.fields| > 0
    ensures Ingest(a, d, payload, Some(timeMsg)).Ok?
    ensures var cols := Ingest(a, d, payload, Some(timeMsg)).value.log[d.name];
      var data := DecodeAll(d.fields, payload);
      && (forall l :: l in cols <==> l in d.labels || (WantsShadow(d.name, Some(timeMsg), a.lastTime) && l == ShadowName(timeMsg)))
      && (forall j :: 0 <= j < |d.labels| ==> cols[d.labels[j]] == [data[j]])
      && (WantsShadow(d.name, Some(timeMsg), a.lastTime) ==> cols[ShadowName(timeMsg)] == [a.lastTime])
  {
    IngestSteps(a, d, payload, Some(timeMsg));
    AccumulateFirstRecord(a, d, DecodeAll(d.fields, payload), timeMsg);
  }

  /** IngestFirstRecord on the decoded values. */
  lemma AccumulateFirstRecord(a: Accum, d: Descr, data: seq<Value>, timeMsg: string)
    requires d.name !in a.log && WellLabelled(d, Some(timeMsg)) && |data| == |d.labels|
    requires d.name == timeMsg ==> |data| > 0
    ensures Accumulate(a, d, data, Some(timeMsg)).Ok?
    ensures var cols := Accumulate(a, d, data, Some(timeMsg)).value.log[d.name];
      && (forall l :: l in cols <==> l in d.labels || (WantsShadow(d.name, Some(timeMsg), a.lastTime) && l == ShadowName(timeMsg)))
      && (forall j :: 0 <= j < |d.labels| ==> cols[d.labels[j]] == [data[j]])
      && (WantsShadow(d.name, Some(timeMsg), a.lastTime) ==> cols[ShadowName(timeMsg)] == [a.lastTime])
  {
    var init := InitColumns(d.labels, d.name, Some(timeMsg), a.lastTime);
    StoreFromAppends(init, d.labels, data, 0);
    var stored := Store(init, d.labels, data).value;
    AccumulateSteps(a, d, data, Some(timeMsg));
    UpdateTimeShape(a, d.name, stored, data, Some(timeMsg));
    var fin := Accumulate(a, d, data, Some(timeMsg)).value.log[d.name];
    forall j | 0 <= j < |d.labels| ensures fin[d.labels[j]] == [data[j]] {
      assert d.labels[j] != ShadowName(timeMsg);
      assert stored[d.labels[j]] == init[d.labels[j]] + [data[j]];
    }
    var sh := ShadowName(timeMsg);
    if WantsShadow(d.name, Some(timeMsg), a.lastTime) {
      assert forall j :: 0 <= j < |d.labels| ==> sh != d.labels[j];
      assert stored[sh] == [];
    }
  }

  /** A record changes the log only at its own name, which it adds if new. */
  lemma IngestKeepsOtherNames(a: Accum, d: Descr, payload: seq<Byte>, timeMsg: Option<string>)
    requires Ingest(a, d, payload, timeMsg).Ok?
    ensures var a' := Ingest(a, d, payload, timeMsg).value;
      && a'.log.Keys == a.log.Keys + {d.name}
      && (forall n :: n in a.log && n != d.name ==> a'.log[n] == a.log[n])
  {
    IngestSteps(a, d, payload, timeMsg);
    AccumulateKeepsOtherNames(a, d, DecodeAll(d.fields, payload), timeMsg);
  }

  /** IngestKeepsOtherNames on the decoded values. */
  lemma AccumulateKeepsOtherNames(a: Accum, d: Descr, data: seq<Value>, timeMsg: Option<string>)
    requires Accumulate(a, d, data, timeMsg).Ok?
    ensures var a' := Accumulate(a, d, data, timeMsg).value;
      && a'.log.Keys == a.log.Keys + {d.name}
      && (forall n :: n in a.log && n != d.name ==> a'.log[n] == a.log[n])
  {
    AccumulateSteps(a, d, data, timeMsg);
    UpdateTimeShape(a, d.name, Store(ColumnsFor(a, d, timeMsg), d.labels, data).value, data, timeMsg);
  }

  /**
    A later record of a name whose columns hold its labels appends exactly
    one value to each label's column.
   */
  lemma IngestAppends(a: Accum, d: Descr, payload: seq<Byte>, timeMsg: string)
    requires d.name in a.log && WellLabelled(d, Some(timeMsg)) && |payload| == TotalWidth(d.fields)
    requires forall j :: 0 <= j < |d.labels| ==> d.labels[j] in a.log[d.name]
    requires d.name == timeMsg ==> |d.fields| > 0
    ensures Ingest(a, d, payload, Some(timeMsg)).Ok?
    ensures var a' := Ingest(a, d, payload, Some(timeMsg)).value;
      var data := DecodeAll(d.fields, payload);
      && d.name in a'.log
      && (forall j :: 0 <= j < |d.labels| ==> d.labels[j] in a'.log[d.name])
      && (forall j :: 0 <= j < |d.labels| ==> a'.log[d.name][d.labels[j]] == a.log[d.name][d.labels[j]] + [data[j]])
  {
    IngestSteps(a, d, payload, Some(timeMsg));
    AccumulateAppends(a, d, DecodeAll(d.fields, payload), timeMsg);
  }

  /** IngestAppends on the decoded values. */
  lemma AccumulateAppends(a: Accum, d: Descr, data: seq<Value>, timeMsg: string)
    requires d.name in a.log && WellLabelled(d, Some(timeMsg)) && |data| == |d.labels|
    requires forall j :: 0 <= j < |d.labels| ==> d.labels[j] in a.log[d.name]
    requires d.name == timeMsg ==> |data| > 0
    ensures Accumulate(a, d, data, Some(timeMsg)).Ok?
    ensures var a' := Accumulate(a, d, data, Some(timeMsg)).value;
      && d.name in a'.log
      && (forall j :: 0 <= j < |d.labels| ==> d.labels[j] in a'.log[d.name])
      && (forall j :: 0 <= j < |d.labels| ==> a'.log[d.name][d.labels[j]] == a.log[d.name][d.labels[j]] + [data[j]])
  {
    var cols := a.log[d.name];
    StoreFromAppends(cols, d.labels, data, 0);
    var stored := Store(cols, d.labels, data).value;
    AccumulateSteps(a, d, data, Some(timeMsg));
    UpdateTimeShape(a, d.name, stored, data, Some(timeMsg));
    var fin := Accumulate(a, d, data, Some(timeMsg)).value.log[d.name];
    forall j | 0 <= j < |d.labels|
      ensures d.labels[j] in fin && fin[d.labels[j]] == cols[d.labels[j]] + [data[j]]
    {
      assert d.labels[j] != ShadowName(timeMsg);
      assert stored[d.labels[j]] == cols[d.labels[j]] + [data[j]];
    }
  }

  /** A time-message record needs a first field, and makes that field, never None, the last time. */
  lemma IngestTimeRecord(a: Accum, d: Descr, payload: seq<Byte>, timeMsg: string)
    requires d.name == timeMsg && Ingest(a, d, payload, Some(timeMsg)).Ok?
    ensures |d.fields| > 0 && |payload| == TotalWidth(d.fields)
    ensures Ingest(a, d, payload, Some(timeMsg)).value.lastTime == DecodeAll(d.fields, payload)[0]
    ensures Ingest(a, d, payload, Some(timeMsg)).value.lastTime != Nil
  {
  }

  /**
    Any other record of a name that has a shadow column (and no label of
    that name) appends the last time to it and keeps the last time.
   */
  lemma IngestShadowRecord(a: Accum, d: Descr, payload: seq<Byte>, timeMsg: string)
    requires d.name != timeMsg && d.name in a.log && ShadowName(timeMsg) in a.log[d.name]
    requires NotShadow(d.labels, Some(timeMsg)) && Ingest(a, d, payload, Some(timeMsg)).Ok?
    ensures var a' := Ingest(a, d, payload, Some(timeMsg)).value;
      && a'.lastTime == a.lastTime
      && d.name in a'.log && ShadowName(timeMsg) in a'.log[d.name]
      && a'.log[d.name][ShadowName(timeMsg)] == a.log[d.name][ShadowName(timeMsg)] + [a.lastTime]
  {
    IngestSteps(a, d, payload, Some(timeMsg));
    AccumulateShadowRecord(a, d, DecodeAll(d.fields, payload), timeMsg);
  }

  /** IngestShadowRecord on the decoded values. */
  lemma AccumulateShadowRecord(a: Accum, d: Descr, data: seq<Value>, timeMsg: string)
    requires d.name != timeMsg && d.name in a.log && ShadowName(timeMsg) in a.log[d.name]
    requires NotShadow(d.labels, Some(timeMsg)) && Accumulate(a, d, data, Some(timeMsg)).Ok?
    ensures var a' := Accumulate(a, d, data, Some(timeMsg)).value;
      && a'.lastTime == a.lastTime
      && d.name in a'.log && ShadowName(timeMsg) in a'.log[d.name]
      && a'.log[d.name][ShadowName(timeMsg)] == a.log[d.name][ShadowName(timeMsg)] + [a.lastTime]
  {
    var cols := a.log[d.name];
    AccumulateSteps(a, d, data, Some(timeMsg));
    StoreShadowUntouched(cols, d.labels, data, 0, ShadowName(timeMsg));
    UpdateTimeShape(a, d.name, Store(cols, d.labels, data).value, data, Some(timeMsg));
  }

  /** Storing leaves a column alone whose name is not a label. */
  lemma {:induction false} StoreShadowUntouched(cols: Columns, labels: seq<string>, data: seq<Value>, i: nat, l: string)
    requires StoreFrom(cols, labels, data, i).Ok? && l in cols && l !in labels
    ensures l in StoreFrom(cols, labels, data, i).value
    ensures StoreFrom(cols, labels, data, i).value[l] == cols[l]
    decreases |data| - i
  {
    if i < |data| {
      StoreShadowUntouched(cols[labels[i] := cols[labels[i]] + [data[i]]], labels, data, i + 1, l);
    }
  }

  /** Lists only grow by appending, and no name or column is ever removed. */
  lemma IngestExtends(a: Accum, d: Descr, payload: seq<Byte>, timeMsg: Option<string>)
    requires Ingest(a, d, payload, timeMsg).Ok?
    ensures LogExtends(a.log, Ingest(a, d, payload, timeMsg).value.log)
  {
    IngestSteps(a, d, payload, timeMsg);
    AccumulateExtends(a, d, DecodeAll(d.fields, payload), timeMsg);
  }

  /** IngestExtends on the decoded values. */
  lemma AccumulateExtends(a: Accum, d: Descr, data: seq<Value>, timeMsg: Option<string>)
    requires Accumulate(a, d, data, timeMsg).Ok?
    ensures LogExtends(a.log, Accumulate(a, d, data, timeMsg).value.log)
  {
    var cols := ColumnsFor(a, d, timeMsg);
    AccumulateSteps(a, d, data, timeMsg);
    StoreFromExtends(cols, d.labels, data, 0);
    var stored := Store(cols, d.labels, data).value;
    UpdateTimeShape(a, d.name, stored, data, timeMsg);
    var fin := Accumulate(a, d, data, timeMsg).value.log[d.name];
    assert ColumnsExtend(stored, fin) by {
      forall l | l in stored ensures l in fin && |stored[l]| <= |fin[l]| && fin[l][..|stored[l]|] == stored[l] {
        if d.name != timeMsg.value && l == ShadowName(timeMsg.value) {
          assert fin[l] == stored[l] + [a.lastTime];
        }
      }
    }
    if d.name in a.log {
      ColumnsExtendTrans(a.log[d.name], stored, fin);
    }
  }

  /**
    The log holds no None and, while a shadow column exists, a time has been
    seen: so no shadow column ever receives None.
   */
  predicate NoNil(a: Accum, timeMsg: Option<string>) {
    && (forall n, l :: n in a.log && l in a.log[n] ==> Nil !in a.log[n][l])
    && (forall n :: n in a.log && timeMsg.Some? && ShadowName(timeMsg.value) in a.log[n] ==> a.lastTime != Nil)
  }

  /** Ingesting a record whose labels are not named like the shadow column keeps NoNil. */
  lemma IngestKeepsNoNil(a: Accum, d: Descr, payload: seq<Byte>, timeMsg: Option<string>)
    requires NoNil(a, timeMsg) && NotShadow(d.labels, timeMsg) && Ingest(a, d, payload, timeMsg).Ok?
    ensures NoNil(Ingest(a, d, payload, timeMsg).value, timeMsg)
  {
    IngestSteps(a, d, payload, timeMsg);
    AccumulateKeepsNoNil(a, d, DecodeAll(d.fields, payload), timeMsg);
  }

  /** IngestKeepsNoNil on decoded values, which are never None. */
  lemma AccumulateKeepsNoNil(a: Accum, d: Descr, data: seq<Value>, timeMsg: Option<string>)
    requires NoNil(a, timeMsg) && NotShadow(d.labels, timeMsg) && Nil !in data
    requires Accumulate(a, d, data, timeMsg).Ok?
    ensures NoNil(Accumulate(a, d, data, timeMsg).value, timeMsg)
  {
    var cols := ColumnsFor(a, d, timeMsg);
    AccumulateSteps(a, d, data, timeMsg);
    StoreKeepsNoNil(cols, d.labels, data, 0);
    StoreFromExtends(cols, d.labels, data, 0);
    var stored := Store(cols, d.labels, data).value;
    UpdateTimeShape(a, d.name, stored, data, timeMsg);
    var a' := Accumulate(a, d, data, timeMsg).value;
    assert ShadowName(timeMsg.value) in stored ==> a.lastTime != Nil;
    var fin := a'.log[d.name];
    forall l | l in fin ensures Nil !in fin[l] {
      if l == ShadowName(timeMsg.value) && d.name != timeMsg.value {
        assert fin[l] == stored[l] + [a.lastTime];
      }
    }
  }

  /** Storing non-None values into columns without None leaves none. */
  lemma {:induction false} StoreKeepsNoNil(cols: Columns, labels: seq<string>, data: seq<Value>, i: nat)
    requires StoreFrom(cols, labels, data, i).Ok?
    requires forall l :: l in cols ==> Nil !in cols[l]
    requires Nil !in data
    ensures var r := StoreFrom(cols, labels, data, i).value;
      forall l :: l in r ==> Nil !in r[l]
    decreases |data| - i
  {
    if i < |data| {
      StoreKeepsNoNil(cols[labels[i] := cols[labels[i]] + [data[i]]], labels, data, i + 1);
    }
  }
}
