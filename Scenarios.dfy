/**
 * Whole-tracer runs: the situations the repository's own tests set up,
 * replayed against the model.  Each returns what the test inspects and
 * states what the test expects of it.
 */
module TracerScenarios {
  import opened Wrappers
  import opened TraceJson
  import opened TraceRecords
  import opened TraceLayout
  import opened Depths
  import opened Tracing

  /** `begin("running program")` then `end()` on a buffering tracer. */
  method BeginThenEnd(enc: Encoder, pid: int, t1: int, t2: int) returns (events: seq<Record>)
    ensures |events| == 2
    ensures "ph" in events[0] && events[0]["ph"] == Str("B")
    ensures "name" in events[0] && events[0]["name"] == Str("running program")
    ensures "ph" in events[1] && events[1]["ph"] == Str("E") && "name" !in events[1]
  {
    var et := new EventTracer(enc, null);
    et.Begin(pid, t1, "running program", None, None);
    et.End(pid, t2, None, None, None);
    events := et.buffer.value;
    BeginRecordFields(t1, pid, "running program", None, None);
    BareEndHasBaseFieldsOnly(t2, pid);
  }

  /**
   * `clear()` on an unused tracer does nothing; after three begins it logs
   * three bare Ends; a flush then empties the buffer.
   */
  method EndOutstanding(enc: Encoder, pid: int, now: int)
    returns (afterBegins: nat, afterClear: nat, afterFlush: nat, closing: seq<Record>)
    ensures afterBegins == 3 && afterClear == 6 && afterFlush == 0
    ensures |closing| == 3
    ensures forall i :: 0 <= i < 3 ==> closing[i] == BareEnd(now, pid) && "ph" in closing[i] && closing[i]["ph"] == Str("E")
  {
    var et := ThreeOpenSpans(enc, pid, now);
    afterBegins := |et.buffer.value|;
    ghost var begun := et.buffer.value;
    et.Clear(pid, now);
    afterClear := |et.buffer.value|;
    closing := et.buffer.value[3..];
    assert closing == Repeat(BareEnd(now, pid), 3) by {
      assert ClearCount(Begun(Begun(Begun(map[], pid), pid), pid), pid) == 3;
    }
    assert "ph" in BareEnd(now, pid) && BareEnd(now, pid)["ph"] == Str("E") by {
      BareEndHasBaseFieldsOnly(now, pid);
    }
    var file := new TraceFile("");
    var outcome := et.Flush(file, true);
    afterFlush := |et.buffer.value|;
  }

  /** A buffering tracer on which `clear` was called unused, and then three spans begun. */
  method ThreeOpenSpans(enc: Encoder, pid: int, now: int) returns (et: EventTracer)
    ensures fresh(et) && et.Valid() && et.fp == null
    ensures et.buffer.Some? && |et.buffer.value| == 3 && et.depths == Begun(Begun(Begun(map[], pid), pid), pid)
  {
    et := new EventTracer(enc, null);
    et.Clear(pid, now);
    assert et.buffer == Some([]) && et.depths == map[] by {
      assert ClearCount(map[], pid) == 0;
      assert Repeat(BareEnd(now, pid), 0) == [];
      assert [] + Repeat(BareEnd(now, pid), 0) == [];
    }
    et.Begin(pid, now, "a", None, None);
    et.Begin(pid, now, "b", None, None);
    et.Begin(pid, now, "c", None, None);
  }

  /** The record `complete(start, 1, name)` logs at time `now`. */
  function CompleteItem(pid: int, now: int, start: int, name: string): Record
  {
    EventRecord("X", now, pid, CompleteFields(start, 1, Some(name), None, None))
  }

  /**
   * Two streaming tracers open the same empty file and log one Complete
   * event each: the opening bracket is written once, and the finalised
   * file is an array of exactly those two events.
   */
  method StreamingWrites(enc: Encoder, pid: int, t1: int, t2: int, s1: int, s2: int) returns (doc: string)
    ensures doc == "[\n" + enc(CompleteItem(pid, t1, s1, "item 1")) + ",\n" + enc(CompleteItem(pid, t2, s2, "item 2")) + "\n]"
    ensures doc == ArrayText([enc(CompleteItem(pid, t1, s1, "item 1")), enc(CompleteItem(pid, t2, s2, "item 2"))], [true, true])
  {
    var r1 := CompleteItem(pid, t1, s1, "item 1");
    var r2 := CompleteItem(pid, t2, s2, "item 2");
    var file := new TraceFile("");
    var et1 := new EventTracer(enc, file);
    var et2 := new EventTracer(enc, file);
    assert file.text == "[\n";
    StreamComplete(et1, pid, t1, s1, "item 1");
    assert file.text == "[\n" + (enc(r1) + ",\n");
    assert et2.Valid() && et2.fp == file && et2.enc == enc;
    StreamComplete(et2, pid, t2, s2, "item 2");
    assert file.text == "[\n" + (enc(r1) + ",\n") + (enc(r2) + ",\n");
    doc := Finalise(file.text);
    FinaliseTwoStreamed(enc(r1), enc(r2), file.text);
  }

  /** `complete(start, 1, name)` at time `now` on a streaming tracer. */
  method StreamComplete(et: EventTracer, pid: int, now: int, start: int, name: string)
    requires et.Valid() && et.fp != null
    modifies et, et.fp
    ensures et.fp.text == old(et.fp.text) + (et.enc(CompleteItem(pid, now, start, name)) + ",\n")
  {
    et.Complete(pid, now, start, 1, Some(name), None, None);
    StreamTextSnoc(et.enc, [], CompleteItem(pid, now, start, name));
    assert [] + [CompleteItem(pid, now, start, name)] == [CompleteItem(pid, now, start, name)];
  }

  /**
   * Two buffering tracers log one Complete event each and flush in turn to
   * the same empty file: the finalised file is an array of exactly those
   * two events, the first tracer's first.
   */
  method FlushingWrites(enc: Encoder, pid: int, t1: int, t2: int, s1: int, s2: int) returns (doc: string)
    ensures doc == "[" + enc(CompleteItem(pid, t1, s1, "flushed 1")) + ",\n" + enc(CompleteItem(pid, t2, s2, "flushed 2")) + "\n]"
    ensures doc == ArrayText([enc(CompleteItem(pid, t1, s1, "flushed 1")), enc(CompleteItem(pid, t2, s2, "flushed 2"))], [false, true])
  {
    var r1 := CompleteItem(pid, t1, s1, "flushed 1");
    var r2 := CompleteItem(pid, t2, s2, "flushed 2");
    var et1 := BufferedComplete(enc, pid, t1, s1, "flushed 1");
    var et2 := BufferedComplete(enc, pid, t2, s2, "flushed 2");
    var file := new TraceFile("");
    assert et1 != et2;
    FlushOne(et1, file, r1);
    ghost var text1 := file.text;
    assert text1 == Spliced(EncodeArray([enc(r1)]), true);
    assert text1 != "" by {
      assert |Spliced(EncodeArray([enc(r1)]), true)| >= 2;
    }
    assert et2.Valid() && et2.buffer == Some([r2]);
    FlushOne(et2, file, r2);
    assert file.text == text1 + Spliced(EncodeArray([enc(r2)]), false);
    doc := Finalise(file.text);
    FinaliseTwoFlushed(enc(r1), enc(r2), file.text);
  }

  /** `flush` of a tracer that buffers the one record `rec`, holding the lock on `file`. */
  method FlushOne(et: EventTracer, file: TraceFile, ghost rec: Record)
    requires et.Valid() && et.buffer == Some([rec])
    modifies et, file
    ensures file.text == old(file.text) + Spliced(EncodeArray([et.enc(rec)]), old(file.text) == "")
  {
    var outcome := et.Flush(file, true);
    assert EncodeAll(et.enc, [rec]) == [et.enc(rec)];
  }

  /** A new buffering tracer that has logged `complete(start, 1, name)` at time `now`. */
  method BufferedComplete(enc: Encoder, pid: int, now: int, start: int, name: string) returns (et: EventTracer)
    ensures fresh(et) && et.Valid() && et.fp == null && et.enc == enc
    ensures et.buffer == Some([CompleteItem(pid, now, start, name)])
  {
    et := new EventTracer(enc, null);
    et.Complete(pid, now, start, 1, Some(name), None, None);
    assert [] + [CompleteItem(pid, now, start, name)] == [CompleteItem(pid, now, start, name)];
  }

  /**
   * `flush` on a streaming tracer: the source reads the never-initialised
   * buffer and raises an `Error`, not the `Exception` with the message
   * "Called flush() on an unbuffered stream" that the test expects.
   */
  method FlushUnbuffered(enc: Encoder) returns (outcome: Outcome)
    ensures outcome == Crash(UninitialisedMessage)
    ensures !outcome.Fail? && outcome != IntendedFlushOutcome(None)
  {
    var file := new TraceFile("");
    var et := new EventTracer(enc, file);
    outcome := et.Flush(file, true);
  }
}
