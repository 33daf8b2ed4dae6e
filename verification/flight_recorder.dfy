/** The flight recorder: a bounded telemetry log of the agent's transitions, bridge actions and errors.
    The clock and the random session id are parameters. */
module FlightRecorder {
  import opened Common

  /** Capacity of the ring buffer. */
  const MaxEntries: nat := 500

  datatype EntryKind = StateChange | BridgeAction | Error | UserInterrupt | SelfCorrect

  /** The values that appear in entry metadata. Coordinates and whole verification
      records are kept abstract. */
  datatype MetaValue = Text(text: string) | Path(path: seq<string>) | Opaque

  /** An entry as handed to `record`, without its timestamp. */
  datatype Draft = Draft(
    kind: EntryKind,
    from: Option<string>,
    to: Option<string>,
    target: Option<string>,
    metadata: map<string, MetaValue>)

  datatype FlightEntry = FlightEntry(timestamp: int, draft: Draft)

  datatype Recorder = Recorder(sessionId: string, log: seq<FlightEntry>)

  datatype Export = Export(sessionId: string, entries: seq<FlightEntry>)

  /** Shorthands for the drafts the rest of the system records. */
  function StateChangeTo(to: string): Draft {
    Draft(StateChange, None, Some(to), None, map[])
  }

  function StateChangeFromTo(from: string, to: string): Draft {
    Draft(StateChange, Some(from), Some(to), None, map[])
  }

  function WithReason(kind: EntryKind, target: Option<string>, reason: string): Draft {
    Draft(kind, None, None, target, map["reason" := Text(reason)])
  }

  predicate Valid(r: Recorder) {
    |r.log| <= MaxEntries
  }

  /** The last `MaxEntries` elements of `s` (all of them if there are fewer). */
  function Newest(s: seq<FlightEntry>): (r: seq<FlightEntry>)
    ensures |r| <= MaxEntries
    ensures |r| == if |s| <= MaxEntries then |s| else MaxEntries
    ensures r == s[|s| - |r|..]
  {
    if |s| > MaxEntries then s[|s| - MaxEntries..] else s
  }

  /** `generateSessionId()`: `stamp` stands for `Date.now()` in decimal and `base36` for
      `Math.random().toString(36)`, of which `slice(2, 8)` keeps at most six characters. */
  function SessionId(stamp: string, base36: string): (id: string)
    ensures |id| >= 5 + |stamp| && id[..4] == "awf-" && id[4..4 + |stamp|] == stamp
    ensures id[4 + |stamp|] == '-' && |id| <= 11 + |stamp|
    ensures |base36| >= 8 ==> id[5 + |stamp|..] == base36[2..8]
  {
    var lo := if |base36| < 2 then |base36| else 2;
    var hi := if |base36| < 8 then |base36| else 8;
    "awf-" + stamp + "-" + base36[lo..hi]
  }

  /** `new FlightRecorder()` with its generated session id supplied. */
  function Create(sessionId: string): (r: Recorder)
    ensures Valid(r) && r.log == [] && r.sessionId == sessionId
  {
    Recorder(sessionId, [])
  }

  /** `record(entry)` at time `now`. */
  function Record(r: Recorder, d: Draft, now: int): (r': Recorder)
    requires Valid(r)
    ensures Valid(r')
    ensures r'.sessionId == r.sessionId
    ensures |r'.log| > 0 && r'.log[|r'.log| - 1] == FlightEntry(now, d)
    ensures |r'.log| == if |r.log| < MaxEntries then |r.log| + 1 else MaxEntries
    ensures r'.log[..|r'.log| - 1] == r.log[|r.log| + 1 - |r'.log|..]
  {
    var log := r.log + [FlightEntry(now, d)];
    Recorder(r.sessionId, if |log| > MaxEntries then log[|log| - MaxEntries..] else log)
  }

  /** `export()` */
  function ExportLog(r: Recorder): (x: Export)
    ensures x.sessionId == r.sessionId && x.entries == r.log
  {
    Export(r.sessionId, r.log)
  }

  /** `tail(n)`, that is `log.slice(-n)` with JavaScript's negative-index rules. */
  function Tail(r: Recorder, n: int): (t: seq<FlightEntry>)
    ensures n > 0 ==> |t| == (if n < |r.log| then n else |r.log|) && t == r.log[|r.log| - |t|..]
    ensures n == 0 ==> t == r.log
    ensures n < 0 ==> t == r.log[(if -n < |r.log| then -n else |r.log|)..]
  {
    var start := -n;
    if start < 0 then
      (if |r.log| + start < 0 then r.log else r.log[|r.log| + start..])
    else
      (if start < |r.log| then r.log[start..] else [])
  }

  /** `tail()` with its default argument. */
  function TailDefault(r: Recorder): (t: seq<FlightEntry>)
    ensures |t| == (if |r.log| < 10 then |r.log| else 10) && t == r.log[|r.log| - |t|..]
  {
    Tail(r, 10)
  }

  function FilterErrors(s: seq<FlightEntry>): (e: seq<FlightEntry>)
    ensures |e| <= |s|
    ensures forall i :: 0 <= i < |e| ==> e[i].draft.kind == Error
  {
    if s == [] then []
    else (if s[0].draft.kind == Error then [s[0]] else []) + FilterErrors(s[1..])
  }

  /** `errors()` */
  function Errors(r: Recorder): (e: seq<FlightEntry>)
    ensures forall i :: 0 <= i < |e| ==> e[i].draft.kind == Error
  {
    FilterErrors(r.log)
  }

  /** `clear()` */
  function Clear(r: Recorder): (r': Recorder)
    ensures Valid(r') && r'.log == [] && r'.sessionId == r.sessionId
  {
    Recorder(r.sessionId, [])
  }

  // ---------------------------------------------------------------------------
  // Properties over many calls

  /** The error filter distributes over concatenation: it keeps exactly the error entries,
      in their original order. */
  lemma {:induction false} FilterErrorsAppend(a: seq<FlightEntry>, b: seq<FlightEntry>)
    ensures FilterErrors(a + b) == FilterErrors(a) + FilterErrors(b)
    decreases |a|
  {
    if a == [] {
      assert a + b == b;
    } else {
      assert (a + b)[1..] == a[1..] + b;
      FilterErrorsAppend(a[1..], b);
    }
  }

  /** A single entry survives the filter exactly when it is an error. */
  lemma FilterErrorsSingle(e: FlightEntry)
    ensures FilterErrors([e]) == if e.draft.kind == Error then [e] else []
  {
    assert [e][1..] == [];
  }

  /** Appending an entry adds it to `errors()` exactly when it is an error. */
  lemma ErrorsAfterRecord(r: Recorder, d: Draft, now: int)
    requires Valid(r) && |r.log| < MaxEntries
    ensures Errors(Record(r, d, now)) ==
      Errors(r) + (if d.kind == Error then [FlightEntry(now, d)] else [])
  {
    FilterErrorsAppend(r.log, [FlightEntry(now, d)]);
    FilterErrorsSingle(FlightEntry(now, d));
  }

  /** The entries a sequence of `record` calls appends, one timestamp per draft. */
  function Stamp(drafts: seq<Draft>, times: seq<int>): (s: seq<FlightEntry>)
    requires |drafts| == |times|
    ensures |s| == |drafts|
    ensures forall i :: 0 <= i < |s| ==> s[i] == FlightEntry(times[i], drafts[i])
  {
    if drafts == [] then [] else [FlightEntry(times[0], drafts[0])] + Stamp(drafts[1..], times[1..])
  }

  function RecordAll(r: Recorder, drafts: seq<Draft>, times: seq<int>): (r': Recorder)
    requires Valid(r) && |drafts| == |times|
    ensures Valid(r')
    decreases |drafts|
  {
    if drafts == [] then r else RecordAll(Record(r, drafts[0], times[0]), drafts[1..], times[1..])
  }

  lemma NewestOfNewest(s: seq<FlightEntry>, e: FlightEntry)
    ensures Newest(Newest(s) + [e]) == Newest(s + [e])
  {
    var t := Newest(s);
    if |s| > MaxEntries {
      assert t + [e] == (s + [e])[|s| - MaxEntries..];
      assert (t + [e])[|t + [e]| - MaxEntries..] == (s + [e])[|s + [e]| - MaxEntries..];
    }
  }

  /** After any number of `record` calls the log holds exactly the `MaxEntries` most recent
      entries, oldest first, with nothing reordered or invented. */
  lemma {:induction false} RecordAllKeepsNewest(r: Recorder, drafts: seq<Draft>, times: seq<int>)
    requires Valid(r) && |drafts| == |times|
    ensures RecordAll(r, drafts, times).log == Newest(r.log + Stamp(drafts, times))
    ensures RecordAll(r, drafts, times).sessionId == r.sessionId
    decreases |drafts|
  {
    if drafts == [] {
      assert r.log + Stamp(drafts, times) == r.log;
    } else {
      var e := FlightEntry(times[0], drafts[0]);
      var r1 := Record(r, drafts[0], times[0]);
      RecordIsNewest(r, drafts[0], times[0]);
      RecordAllKeepsNewest(r1, drafts[1..], times[1..]);
      StampCons(drafts, times);
      NewestAppend(r.log + [e], Stamp(drafts[1..], times[1..]));
    }
  }

  lemma RecordIsNewest(r: Recorder, d: Draft, now: int)
    requires Valid(r)
    ensures Record(r, d, now).log == Newest(r.log + [FlightEntry(now, d)])
  {
  }

  lemma StampCons(drafts: seq<Draft>, times: seq<int>)
    requires |drafts| == |times| && drafts != []
    ensures forall log: seq<FlightEntry> {:trigger log + Stamp(drafts, times)} ::
      log + [FlightEntry(times[0], drafts[0])] + Stamp(drafts[1..], times[1..]) == log + Stamp(drafts, times)
  {
    assert Stamp(drafts, times) == [FlightEntry(times[0], drafts[0])] + Stamp(drafts[1..], times[1..]);
  }

  /** Trimming early and then appending is the same as appending and trimming once. */
  lemma {:induction false} NewestAppend(s: seq<FlightEntry>, rest: seq<FlightEntry>)
    ensures Newest(Newest(s) + rest) == Newest(s + rest)
    decreases |rest|
  {
    if rest == [] {
      NewestIdempotent(s);
      assert Newest(s) + rest == Newest(s);
      assert s + rest == s;
    } else {
      var e := rest[0];
      NewestOfNewest(s, e);
      NewestAppend(s + [e], rest[1..]);
      NewestAppend(Newest(s) + [e], rest[1..]);
      AppendFirst(Newest(s), rest);
      AppendFirst(s, rest);
    }
  }

  /** Trimming twice is trimming once. */
  lemma NewestIdempotent(s: seq<FlightEntry>)
    ensures Newest(Newest(s)) == Newest(s)
  {
  }

  lemma AppendFirst(s: seq<FlightEntry>, rest: seq<FlightEntry>)
    requires rest != []
    ensures s + rest == s + [rest[0]] + rest[1..]
  {
    assert rest == [rest[0]] + rest[1..];
  }

  /** A recorder operation other than the read-only ones. */
  datatype Op = RecordOp(draft: Draft, now: int) | ClearOp

  function Apply(r: Recorder, ops: seq<Op>): (r': Recorder)
    requires Valid(r)
    ensures Valid(r')
    decreases |ops|
  {
    if ops == [] then r
    else
      var r1 := match ops[0]
        case RecordOp(d, now) => Record(r, d, now)
        case ClearOp => Clear(r);
      Apply(r1, ops[1..])
  }

  /** The session id fixed at construction is the one every later `export()` reports. */
  lemma {:induction false} SessionIdStable(id: string, ops: seq<Op>)
    ensures ExportLog(Apply(Create(id), ops)).sessionId == id
  {
    SessionIdStableFrom(Create(id), ops);
  }

  lemma {:induction false} SessionIdStableFrom(r: Recorder, ops: seq<Op>)
    requires Valid(r)
    ensures Apply(r, ops).sessionId == r.sessionId
    decreases |ops|
  {
    if ops != [] {
      var r1 := match ops[0]
        case RecordOp(d, now) => Record(r, d, now)
        case ClearOp => Clear(r);
      SessionIdStableFrom(r1, ops[1..]);
    }
  }
}
