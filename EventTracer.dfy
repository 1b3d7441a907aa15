/**
 * The tracer object.  Built without a file it buffers event records in
 * memory until `flush`; built with a file it appends every event to that
 * file at once.  Time and the process id are passed to every call, and
 * `json_encode` of one record is the tracer's `Encoder`.
 */
module Tracing {
  import opened Wrappers
  import opened TraceJson
  import opened TraceRecords
  import opened TraceLayout
  import opened Depths

  /** A trace file on disk: text that writers only ever append to. */
  class TraceFile {
    var text: string

    constructor (text: string)
      ensures this.text == text
    {
      this.text := text;
    }

    /** One `fwrite` in append mode. */
    method Append(s: string)
      modifies this
      ensures text == old(text) + s
    {
      text := text + s;
    }
  }

  /**
   * How `flush` ends: normally, with the `Exception` it throws, or with
   * the PHP `Error` raised by reading the never-initialised typed
   * `buffer` property of a streaming tracer.
   */
  datatype Outcome = Pass | Fail(message: string) | Crash(message: string)

  /** The `Exception` `flush` throws for an empty buffer. */
  const UnbufferedMessage := "Called flush() on an unbuffered stream"

  /** The `Error` PHP raises when `flush` reads the buffer of a streaming tracer. */
  const UninitialisedMessage := "Typed property EventTracer::$buffer must not be accessed before initialization"

  /**
   * How `flush` ends, as written: reading a never-set buffer crashes, and
   * an empty one (`[] == null` in PHP) throws.
   */
  function FlushOutcome(buffer: Option<seq<Record>>): (r: Outcome)
    ensures r.Crash? <==> buffer.None?
    ensures r.Fail? <==> buffer == Some([])
    ensures !r.Pass? ==> r.message == if buffer.None? then UninitialisedMessage else UnbufferedMessage
  {
    match buffer
    case None => Crash(UninitialisedMessage)
    case Some(recs) => if recs == [] then Fail(UnbufferedMessage) else Pass
  }

  /**
   * How `flush` was meant to end: with `buffer` a nullable property that
   * defaults to null, a streaming tracer throws the same `Exception` as an
   * empty buffer, and nothing crashes.
   */
  function IntendedFlushOutcome(buffer: Option<seq<Record>>): (r: Outcome)
    ensures !r.Crash?
    ensures r.Fail? <==> buffer.None? || buffer == Some([])
    ensures r.Fail? ==> r.message == UnbufferedMessage
  {
    if buffer.None? || buffer == Some([]) then Fail(UnbufferedMessage) else Pass
  }

  /** On a buffering tracer the source and the intended guard agree. */
  lemma IntendedAgreesWhenBuffered(buffer: Option<seq<Record>>)
    requires buffer.Some?
    ensures FlushOutcome(buffer) == IntendedFlushOutcome(buffer)
  {
  }

  /**
   * On a streaming tracer they differ: the source crashes, and only the
   * intended guard throws the `Exception` the test expects.
   */
  lemma IntendedFailsWhenStreaming()
    ensures FlushOutcome(None).Crash?
    ensures IntendedFlushOutcome(None) == Fail(UnbufferedMessage)
  {
  }

  /** What streaming the records writes: each encoding followed by a comma and a newline. */
  function StreamText(enc: Encoder, recs: seq<Record>): string
  {
    if recs == [] then "" else StreamText(enc, recs[..|recs| - 1]) + enc(recs[|recs| - 1]) + ",\n"
  }

  /** Streaming one more record appends its encoding, a comma and a newline. */
  lemma StreamTextSnoc(enc: Encoder, recs: seq<Record>, rec: Record)
    ensures StreamText(enc, recs + [rec]) == StreamText(enc, recs) + enc(rec) + ",\n"
  {
    assert (recs + [rec])[..|recs|] == recs;
  }

  /** Streaming the records `done` and then `rec` streams `done + [rec]`. */
  lemma StreamedOneMore(enc: Encoder, text0: string, text1: string, text2: string, done: seq<Record>, rec: Record)
    requires text1 == text0 + StreamText(enc, done) && text2 == text1 + StreamText(enc, [rec])
    ensures text2 == text0 + StreamText(enc, done + [rec])
  {
    StreamTextSnoc(enc, done, rec);
    StreamTextSnoc(enc, [], rec);
    assert [] + [rec] == [rec];
  }

  /** Buffering the records `done` and then `rec` buffers `done + [rec]`. */
  lemma BufferedOneMore(buffer0: seq<Record>, done: seq<Record>, rec: Record, buffer1: seq<Record>, buffer2: seq<Record>)
    requires buffer1 == buffer0 + done && buffer2 == buffer1 + [rec]
    ensures buffer2 == buffer0 + (done + [rec])
  {
  }

  /** One more copy of a record is one more at the end. */
  lemma RepeatSnoc(rec: Record, n: nat)
    ensures Repeat(rec, n + 1) == Repeat(rec, n) + [rec]
  {
  }

  /** `n` copies of one record. */
  function Repeat(rec: Record, n: nat): (r: seq<Record>)
    ensures |r| == n && forall i :: 0 <= i < n ==> r[i] == rec
  {
    seq(n, i => rec)
  }

  class EventTracer {
    const enc: Encoder
    /** The file streamed to, or null for a buffering tracer. */
    const fp: TraceFile?
    /** The buffered records; never set on a streaming tracer. */
    var buffer: Option<seq<Record>>
    /** The nesting counter of each process. */
    var depths: DepthTable

    /** Exactly one mode: a file to stream to, or a buffer. */
    ghost predicate Valid()
      reads this
    {
      fp == null <==> buffer.Some?
    }

    /** The records `rec` were logged, in order: appended to the buffer, or streamed to the file. */
    twostate predicate Logged(recs: seq<Record>)
      reads this, fp
    {
      && (fp == null ==> old(buffer).Some? && buffer == Some(old(buffer).value + recs))
      && (fp != null ==> buffer == old(buffer) && fp.text == old(fp.text) + StreamText(enc, recs))
    }

    /**
     * Without a file, start with an empty buffer; with one, write the
     * opening "[\n" only when the file is empty.
     */
    constructor (enc: Encoder, file: TraceFile?)
      modifies file
      ensures Valid() && this.enc == enc && fp == file && depths == map[]
      ensures file == null ==> buffer == Some([])
      ensures file != null ==> file.text == Apply(old(file.text), Open)
      ensures file != null ==> (file.text == old(file.text) + "[\n" <==> old(file.text) == "")
      ensures file != null ==> file.text == old(file.text) || old(file.text) == ""
    {
      this.enc := enc;
      fp := file;
      depths := map[];
      buffer := if file == null then Some([]) else None;
      new;
      if file != null && file.text == "" {
        file.Append("[\n");
      }
    }
  

    /**
     * `log_event`: build the record of an event with phase `ph` and log
     * it, appended to the buffer or streamed to the file.
     */
    method LogEvent(ph: string, pid: int, now: int, optionals: Optionals)
      requires Valid() && DistinctKeys(optionals)
      modifies this, fp
      ensures Valid() && depths == old(depths)
      ensures Logged([EventRecord(ph, now, pid, optionals)])
      ensures fp != null ==> fp.text == Apply(old(fp.text), Line(enc(EventRecord(ph, now, pid, optionals))))
    {
      var dict := BuildRecord(ph, now, pid, optionals);
      if fp != null {
        fp.Append(enc(dict) + ",\n");
        assert StreamText(enc, [dict]) == enc(dict) + ",\n";
      } else {
        buffer := Some(buffer.value + [dict]);
      }
    }

    /** `begin`: log a Begin event and count one more open span in process `pid`. */
    method Begin(pid: int, now: int, name: string, args: Option<map<string, Value>>, cat: Option<string>)
      requires Valid()
      modifies this, fp
      ensures Valid() && depths == Begun(old(depths), pid)
      ensures Logged([EventRecord("B", now, pid, BeginFields(name, args, cat))])
    {
      LogEvent("B", pid, now, BeginFields(name, args, cat));
      depths := Begun(depths, pid);
    }

    /**
     * `end`: log an End event and count one open span fewer in process
     * `pid`.  It never fails; on a process without a counter PHP also emits
     * a warning (and, from 8.3, a deprecation notice), which are not modelled.
     */
    method End(pid: int, now: int, name: Option<string>, args: Option<map<string, Value>>, cat: Option<string>)
      requires Valid()
      modifies this, fp
      ensures Valid() && depths == Ended(old(depths), pid)
      ensures Logged([EventRecord("E", now, pid, EndFields(name, args, cat))])
    {
      LogEvent("E", pid, now, EndFields(name, args, cat));
      depths := Ended(depths, pid);
    }

    /** `complete`: log a Complete event that starts at `start` and lasts `duration`. */
    method Complete(pid: int, now: int, start: int, duration: int, name: Option<string>,
                    args: Option<map<string, Value>>, cat: Option<string>)
      requires Valid()
      modifies this, fp
      ensures Valid() && depths == old(depths)
      ensures Logged([EventRecord("X", now, pid, CompleteFields(start, duration, name, args, cat))])
    {
      LogEvent("X", pid, now, CompleteFields(start, duration, name, args, cat));
    }

    /** `instant`: log an Instant event. */
    method Instant(pid: int, now: int, name: Option<string>, scope: Option<string>,
                   args: Option<map<string, Value>>, cat: Option<string>)
      requires Valid()
      modifies this, fp
      ensures Valid() && depths == old(depths)
      ensures Logged([EventRecord("I", now, pid, InstantFields(name, scope, args, cat))])
    {
      LogEvent("I", pid, now, InstantFields(name, scope, args, cat));
    }

    /** `async_start`: log the start of an async span. */
    method AsyncStart(pid: int, now: int, name: Option<string>, id: Option<string>,
                      args: Option<map<string, Value>>, cat: Option<string>)
      requires Valid()
      modifies this, fp
      ensures Valid() && depths == old(depths)
      ensures Logged([EventRecord("b", now, pid, AsyncStartFields(name, id, args, cat))])
    {
      LogEvent("b", pid, now, AsyncStartFields(name, id, args, cat));
    }

    /** `clock_sync`: log a clock-sync event. */
    method ClockSync(pid: int, now: int, name: Option<string>, syncId: Option<string>, issueTs: Option<int>)
      requires Valid()
      modifies this, fp
      ensures Valid() && depths == old(depths)
      ensures Logged([EventRecord("c", now, pid, ClockSyncFields(name, syncId, issueTs))])
    {
      LogEvent("c", pid, now, ClockSyncFields(name, syncId, issueTs));
    }

    /**
     * `clear`: while process `pid` has spans open, log a bare End; a
     * process without a counter is left alone.  This is exactly
     * `ClearCount` calls of `end()`.
     */
    method Clear(pid: int, now: int)
      requires Valid()
      modifies this, fp
      ensures Valid()
      ensures pid in old(depths) ==> depths == old(depths)[pid := if old(depths)[pid] > 0 then 0 else old(depths)[pid]]
      ensures pid !in old(depths) ==> depths == old(depths)
      ensures Logged(Repeat(BareEnd(now, pid), ClearCount(old(depths), pid)))
    {
      assert Repeat(BareEnd(now, pid), 0) == [];
      assert buffer.Some? ==> buffer.value + [] == buffer.value;
      if pid !in depths {
        return;
      }
      ghost var d0 := depths;
      ghost var n := ClearCount(d0, pid);
      ghost var e := BareEnd(now, pid);
      ghost var buffer0 := buffer;
      ghost var text0 := if fp != null then fp.text else "";
      ghost var k: nat := 0;
      while depths[pid] > 0
        invariant Valid() && pid in depths && k <= n
        invariant depths == d0[pid := d0[pid] - k]
        invariant depths[pid] > 0 <==> k < n
        invariant fp == null ==> buffer == Some(buffer0.value + Repeat(e, k))
        invariant fp != null ==> buffer == buffer0 && fp.text == text0 + StreamText(enc, Repeat(e, k))
        decreases depths[pid]
      {
        ghost var done := Repeat(e, k);
        ghost var textBefore := if fp != null then fp.text else "";
        ghost var bufferBefore := buffer;
        ghost var depthsBefore := depths;
        End(pid, now, None, None, None);
        assert depths == d0[pid := d0[pid] - (k + 1)] by {
          EndedAgain(d0, pid, k);
          assert depths == Ended(depthsBefore, pid);
        }
        assert n == d0[pid] && depths[pid] == d0[pid] - (k + 1);
        if fp != null {
          StreamedOneMore(enc, text0, textBefore, fp.text, done, e);
        } else {
          BufferedOneMore(buffer0.value, done, e, bufferBefore.value, buffer.value);
        }
        RepeatSnoc(e, k);
        k := k + 1;
      }
      assert d0[pid] - k == if d0[pid] > 0 then 0 else d0[pid];
    }

    /**
     * `flush`: crash on a streaming tracer, whose buffer was never
     * initialised; throw on an empty buffer (`[] == null` in PHP);
     * otherwise empty the buffer and, when the lock on `target` is
     * obtained, splice the encoded buffer into it.
     */
    method Flush(target: TraceFile, locked: bool) returns (outcome: Outcome)
      requires Valid()
      modifies this, target
      ensures Valid() && depths == old(depths)
      ensures outcome == FlushOutcome(old(buffer))
      ensures outcome.Crash? <==> old(buffer).None?
      ensures outcome.Crash? ==> outcome.message == UninitialisedMessage
      ensures outcome.Fail? <==> old(buffer) == Some([])
      ensures outcome.Fail? ==> outcome.message == UnbufferedMessage
      ensures !outcome.Pass? ==> buffer == old(buffer) && target.text == old(target.text)
      ensures outcome.Pass? ==> buffer == Some([])
      ensures outcome.Pass? && locked ==> target.text == Apply(old(target.text), Splice(EncodeAll(enc, old(buffer).value)))
      ensures outcome.Pass? ==> target.text == old(target.text) +
                                  if locked then Spliced(EncodeArray(EncodeAll(enc, old(buffer).value)), old(target.text) == "")
                                  else ""
    {
      if buffer.None? {
        return Crash(UninitialisedMessage);
      }
      if buffer.value == [] {
        return Fail(UnbufferedMessage);
      }
      var encoded := EncodeArray(EncodeAll(enc, buffer.value));
      buffer := Some([]);
      if locked {
        var fileEmpty := target.text == "";
        var chunk := if fileEmpty then encoded else DropFirst(encoded);
        chunk := DropLast(chunk) + ",\n";
        target.Append(chunk);
      }
      outcome := Pass;
    }
  }
}
