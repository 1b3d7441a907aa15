/**
 * How `log_event` builds one event record, and the optional-field lists
 * that the event methods hand to it.  A record starts from the four base
 * fields and then takes every optional whose value is not null, in order,
 * so that a later optional replaces an earlier value under the same key.
 */
module TraceRecords {
  import opened Wrappers
  import opened TraceJson

  /** The optional fields of one call, in the order the event method lists them. */
  type Optionals = seq<(string, Value)>

  /** The fields every record starts from; the thread id mirrors the process id. */
  function Base(ph: string, now: int, pid: int): (r: Record)
    ensures r.Keys == {"ph", "ts", "pid", "tid"}
    ensures r["ph"] == Str(ph) && r["ts"] == Num(now)
    ensures r["pid"] == Num(pid) && r["tid"] == r["pid"]
  {
    map["ph" := Str(ph), "ts" := Num(now), "pid" := Num(pid), "tid" := Num(pid)]
  }

  /** The record after the optionals are merged into it, one after another. */
  function Merge(dict: Record, optionals: Optionals): Record
    decreases |optionals|
  {
    if optionals == [] then dict
    else
      Merge(Put(dict, optionals[0]), optionals[1..])
  }

  /** One step of the merge: a non-null value is stored under its key, a null one is skipped. */
  function Put(dict: Record, kv: (string, Value)): Record
  {
    if kv.1 == Null then dict else dict[kv.0 := kv.1]
  }

  /** Merging a two-element list of optionals, one step after another. */
  lemma MergeTwo(dict: Record, a: (string, Value), b: (string, Value))
    ensures Merge(dict, [a, b]) == Put(Put(dict, a), b)
  {
    assert [a, b][1..] == [b];
    assert [b][1..] == [];
    assert Merge(Put(dict, a), [b]) == Merge(Put(Put(dict, a), b), []);
  }

  /** Merging a three-element list of optionals, one step after another. */
  lemma MergeThree(dict: Record, a: (string, Value), b: (string, Value), c: (string, Value))
    ensures Merge(dict, [a, b, c]) == Put(Put(Put(dict, a), b), c)
  {
    assert [a, b, c][1..] == [b, c];
    MergeTwo(Put(dict, a), b, c);
  }

  /** Merging a four-element list of optionals, one step after another. */
  lemma MergeFour(dict: Record, a: (string, Value), b: (string, Value), c: (string, Value), d: (string, Value))
    ensures Merge(dict, [a, b, c, d]) == Put(Put(Put(Put(dict, a), b), c), d)
  {
    assert [a, b, c, d][1..] == [b, c, d];
    MergeThree(Put(dict, a), b, c, d);
  }

  /** Merging a five-element list of optionals, one step after another. */
  lemma MergeFive(dict: Record, a: (string, Value), b: (string, Value), c: (string, Value), d: (string, Value),
                  e: (string, Value))
    ensures Merge(dict, [a, b, c, d, e]) == Put(Put(Put(Put(Put(dict, a), b), c), d), e)
  {
    assert [a, b, c, d, e][1..] == [b, c, d, e];
    MergeFour(Put(dict, a), b, c, d, e);
  }

  /** The record `log_event(ph, optionals)` builds at time `now` in process `pid`. */
  function EventRecord(ph: string, now: int, pid: int, optionals: Optionals): Record
  {
    Merge(Base(ph, now, pid), optionals)
  }

  /** The value of the last non-null optional with key `k`, if any. */
  function LastNonNull(optionals: Optionals, k: string): (r: Option<Value>)
    ensures r.Some? ==> r.value != Null
    decreases |optionals|
  {
    if optionals == [] then None
    else
      match LastNonNull(optionals[1..], k)
      case Some(v) => Some(v)
      case None =>
        if optionals[0].0 == k && optionals[0].1 != Null then Some(optionals[0].1) else None
  }

  /**
   * Merging, key by key: a key is in the result exactly when it was in
   * the record or some optional gives it a non-null value, and its value
   * is that of the last such optional, or else the record's own.
   */
  lemma {:induction false} MergeAt(dict: Record, optionals: Optionals, k: string)
    ensures k in Merge(dict, optionals) <==> k in dict || LastNonNull(optionals, k).Some?
    ensures k in Merge(dict, optionals) ==>
      Merge(dict, optionals)[k] ==
        match LastNonNull(optionals, k)
        case Some(v) => v
        case None => dict[k]
    decreases |optionals|
  {
    if optionals != [] {
      MergeAt(Put(dict, optionals[0]), optionals[1..], k);
    }
  }

  /** Optionals whose every entry under `k` is null give `k` no value. */
  lemma {:induction false} NullsGiveNoValue(optionals: Optionals, k: string)
    requires forall j :: 0 <= j < |optionals| && optionals[j].0 == k ==> optionals[j].1 == Null
    ensures LastNonNull(optionals, k).None?
    decreases |optionals|
  {
    if optionals != [] {
      NullsGiveNoValue(optionals[1..], k);
    }
  }

  /** A key that every optional leaves null is not added: null arguments leave no trace in the record. */
  lemma NullOptionalsAddNothing(dict: Record, optionals: Optionals, k: string)
    requires k !in dict
    requires forall j :: 0 <= j < |optionals| && optionals[j].0 == k ==> optionals[j].1 == Null
    ensures k !in Merge(dict, optionals)
  {
    NullsGiveNoValue(optionals, k);
    MergeAt(dict, optionals, k);
  }

  /** A merged record holds a null only where the record it started from did. */
  lemma {:induction false} MergeIsSparse(dict: Record, optionals: Optionals, k: string)
    requires k in Merge(dict, optionals) && Merge(dict, optionals)[k] == Null
    ensures k in dict && dict[k] == Null
  {
    MergeAt(dict, optionals, k);
  }

  /**
   * Every record has `ph`, `ts`, `pid` and `tid`; without an optional of
   * that name, `ph`, `pid` and `tid` keep their base values, and `ts` is
   * the call's time unless an optional `ts` overrides it.  Every other key
   * is present exactly when a non-null optional supplies it, with the last
   * such value, and no field of the record is null.
   */
  lemma RecordFields(ph: string, now: int, pid: int, optionals: Optionals, k: string)
    ensures "ph" in EventRecord(ph, now, pid, optionals) && "ts" in EventRecord(ph, now, pid, optionals)
    ensures "pid" in EventRecord(ph, now, pid, optionals) && "tid" in EventRecord(ph, now, pid, optionals)
    ensures k in EventRecord(ph, now, pid, optionals) ==> EventRecord(ph, now, pid, optionals)[k] != Null
    ensures k !in {"ph", "ts", "pid", "tid"} ==>
      (k in EventRecord(ph, now, pid, optionals) <==> LastNonNull(optionals, k).Some?)
    ensures LastNonNull(optionals, k).Some? ==> EventRecord(ph, now, pid, optionals)[k] == LastNonNull(optionals, k).value
    ensures LastNonNull(optionals, k).None? && k in Base(ph, now, pid) ==>
      EventRecord(ph, now, pid, optionals)[k] == Base(ph, now, pid)[k]
  {
    var base := Base(ph, now, pid);
    MergeAt(base, optionals, k);
    MergeAt(base, optionals, "ph");
    MergeAt(base, optionals, "ts");
    MergeAt(base, optionals, "pid");
    MergeAt(base, optionals, "tid");
  }

  /** The keys are pairwise distinct, as in a PHP array literal. */
  predicate DistinctKeys(optionals: Optionals)
  {
    forall i, j :: 0 <= i < j < |optionals| ==> optionals[i].0 != optionals[j].0
  }

  /**
   * With distinct keys, the optional with key `k` decides alone: its value
   * is used unless it is null, in which case the key is skipped.
   */
  lemma {:induction false} LastNonNullDistinct(optionals: Optionals, i: nat)
    requires DistinctKeys(optionals) && i < |optionals|
    ensures LastNonNull(optionals, optionals[i].0) == if optionals[i].1 == Null then None else Some(optionals[i].1)
    decreases |optionals|
  {
    var k := optionals[i].0;
    var rest := optionals[1..];
    assert DistinctKeys(rest) by {
      forall a, b | 0 <= a < b < |rest|
        ensures rest[a].0 != rest[b].0
      {
        assert rest[a] == optionals[a + 1] && rest[b] == optionals[b + 1];
      }
    }
    if i == 0 {
      NullsGiveNoValue(rest, k);
    } else {
      LastNonNullDistinct(rest, i - 1);
    }
  }

  /** PHP's null for an absent string argument. */
  function OptStr(s: Option<string>): (v: Value)
    ensures v == Null <==> s.None?
  {
    match s
    case Some(x) => Str(x)
    case None => Null
  }

  /** PHP's null for an absent `args` array. */
  function OptArgs(args: Option<map<string, Value>>): (v: Value)
    ensures v == Null <==> args.None?
  {
    match args
    case Some(a) => Obj(a)
    case None => Null
  }

  /** The optionals of `begin(name, args, cat)`. */
  function BeginFields(name: string, args: Option<map<string, Value>>, cat: Option<string>): (r: Optionals)
    ensures DistinctKeys(r)
  {
    [("name", Str(name)), ("cat", OptStr(cat)), ("args", OptArgs(args))]
  }

  /** The optionals of `end(name, args, cat)`. */
  function EndFields(name: Option<string>, args: Option<map<string, Value>>, cat: Option<string>): (r: Optionals)
    ensures DistinctKeys(r)
  {
    [("name", OptStr(name)), ("cat", OptStr(cat)), ("args", OptArgs(args))]
  }

  /** The optionals of `complete(start, duration, name, args, cat)`. */
  function CompleteFields(start: int, duration: int, name: Option<string>, args: Option<map<string, Value>>,
                          cat: Option<string>): (r: Optionals)
    ensures DistinctKeys(r)
  {
    [("ts", Num(start)), ("dur", Num(duration)), ("name", OptStr(name)), ("cat", OptStr(cat)), ("args", OptArgs(args))]
  }

  /** The optionals of `instant(name, scope, args, cat)`. */
  function InstantFields(name: Option<string>, scope: Option<string>, args: Option<map<string, Value>>,
                         cat: Option<string>): (r: Optionals)
    ensures DistinctKeys(r)
  {
    [("name", OptStr(name)), ("cat", OptStr(cat)), ("scope", OptStr(scope)), ("args", OptArgs(args))]
  }

  /** The optionals of `async_start(name, id, args, cat)`. */
  function AsyncStartFields(name: Option<string>, id: Option<string>, args: Option<map<string, Value>>,
                            cat: Option<string>): (r: Optionals)
    ensures DistinctKeys(r)
  {
    [("name", OptStr(name)), ("id", OptStr(id)), ("cat", OptStr(cat)), ("args", OptArgs(args))]
  }

  /** The optionals of `clock_sync(name, sync_id, issue_ts)`: `args` is always an array. */
  function ClockSyncFields(name: Option<string>, syncId: Option<string>, issueTs: Option<int>): (r: Optionals)
    ensures DistinctKeys(r)
  {
    var issue := match issueTs case Some(t) => Num(t) case None => Null;
    [("name", OptStr(name)), ("args", Obj(map["sync_id" := OptStr(syncId), "issue_ts" := issue]))]
  }

  /** The bare End record that `end()` without arguments logs, and that `clear` synthesises. */
  function BareEnd(now: int, pid: int): Record
  {
    EventRecord("E", now, pid, EndFields(None, None, None))
  }

  /** A bare End record holds the four base fields and nothing else. */
  lemma BareEndHasBaseFieldsOnly(now: int, pid: int)
    ensures BareEnd(now, pid) == Base("E", now, pid)
    ensures BareEnd(now, pid).Keys == {"ph", "ts", "pid", "tid"}
    ensures "name" !in BareEnd(now, pid) && "cat" !in BareEnd(now, pid) && "args" !in BareEnd(now, pid)
  {
    MergeThree(Base("E", now, pid), ("name", Null), ("cat", Null), ("args", Null));
  }

  /** A Begin record has phase "B", the given name, and `cat`/`args` only when they are given. */
  lemma BeginRecordFields(now: int, pid: int, name: string, args: Option<map<string, Value>>, cat: Option<string>)
    ensures var r := EventRecord("B", now, pid, BeginFields(name, args, cat));
      && "ph" in r && r["ph"] == Str("B") && "name" in r && r["name"] == Str(name) && "ts" in r && r["ts"] == Num(now)
      && "pid" in r && r["pid"] == Num(pid) && "tid" in r && r["tid"] == Num(pid)
      && ("cat" in r <==> cat.Some?) && (cat.Some? ==> "cat" in r && r["cat"] == Str(cat.value))
      && ("args" in r <==> args.Some?) && (args.Some? ==> "args" in r && r["args"] == Obj(args.value))
  {
    MergeThree(Base("B", now, pid), ("name", Str(name)), ("cat", OptStr(cat)), ("args", OptArgs(args)));
  }

  /**
   * A Complete record stores the caller's `start` as `ts`, overriding the
   * time of the call, and the duration as `dur`.
   */
  lemma CompleteStoresStart(now: int, pid: int, start: int, duration: int, name: Option<string>,
                            args: Option<map<string, Value>>, cat: Option<string>)
    ensures var r := EventRecord("X", now, pid, CompleteFields(start, duration, name, args, cat));
      && "ph" in r && r["ph"] == Str("X") && "ts" in r && r["ts"] == Num(start) && "dur" in r && r["dur"] == Num(duration)
      && "pid" in r && r["pid"] == Num(pid) && "tid" in r && r["tid"] == Num(pid)
      && ("name" in r <==> name.Some?)
  {
    MergeFive(Base("X", now, pid), ("ts", Num(start)), ("dur", Num(duration)), ("name", OptStr(name)),
              ("cat", OptStr(cat)), ("args", OptArgs(args)));
  }

  /** An Instant record carries `scope` exactly when one is given. */
  lemma InstantRecordFields(now: int, pid: int, name: Option<string>, scope: Option<string>,
                            args: Option<map<string, Value>>, cat: Option<string>)
    ensures var r := EventRecord("I", now, pid, InstantFields(name, scope, args, cat));
      && "ph" in r && r["ph"] == Str("I") && "ts" in r && r["ts"] == Num(now)
      && ("scope" in r <==> scope.Some?) && (scope.Some? ==> "scope" in r && r["scope"] == Str(scope.value))
      && "dur" !in r && "id" !in r
  {
    MergeFour(Base("I", now, pid), ("name", OptStr(name)), ("cat", OptStr(cat)), ("scope", OptStr(scope)),
              ("args", OptArgs(args)));
  }

  /** An async-start record carries the correlation `id` exactly when one is given. */
  lemma AsyncStartRecordFields(now: int, pid: int, name: Option<string>, id: Option<string>,
                               args: Option<map<string, Value>>, cat: Option<string>)
    ensures var r := EventRecord("b", now, pid, AsyncStartFields(name, id, args, cat));
      && "ph" in r && r["ph"] == Str("b") && "ts" in r && r["ts"] == Num(now)
      && ("id" in r <==> id.Some?) && (id.Some? ==> "id" in r && r["id"] == Str(id.value))
      && "scope" !in r
  {
    MergeFour(Base("b", now, pid), ("name", OptStr(name)), ("id", OptStr(id)), ("cat", OptStr(cat)),
              ("args", OptArgs(args)));
  }

  /**
   * A clock-sync record always has `args`, holding `sync_id` and
   * `issue_ts` even when they are null: nulls nested in `args` are kept.
   */
  lemma ClockSyncRecordFields(now: int, pid: int, name: Option<string>, syncId: Option<string>, issueTs: Option<int>)
    ensures var r := EventRecord("c", now, pid, ClockSyncFields(name, syncId, issueTs));
      && "ph" in r && r["ph"] == Str("c") && "args" in r && r["args"].Obj?
      && r["args"].fields.Keys == {"sync_id", "issue_ts"}
      && "issue_ts" in r["args"].fields && (r["args"].fields["issue_ts"] == Null <==> issueTs.None?)
      && "sync_id" in r["args"].fields && (r["args"].fields["sync_id"] == Null <==> syncId.None?)
      && ("name" in r <==> name.Some?)
  {
    var opts := ClockSyncFields(name, syncId, issueTs);
    MergeTwo(Base("c", now, pid), opts[0], opts[1]);
  }

  /**
   * The first half of `log_event`: start from the base fields and copy in
   * every non-null optional, in order.
   */
  method BuildRecord(ph: string, now: int, pid: int, optionals: Optionals) returns (dict: Record)
    ensures dict == EventRecord(ph, now, pid, optionals)
  {
    dict := Base(ph, now, pid);
    var i := 0;
    while i < |optionals|
      invariant 0 <= i <= |optionals|
      invariant Merge(dict, optionals[i..]) == EventRecord(ph, now, pid, optionals)
    {
      var (k, v) := optionals[i];
      assert optionals[i..][1..] == optionals[i + 1..];
      if v != Null {
        dict := dict[k := v];
      }
      i := i + 1;
    }
  }
}
