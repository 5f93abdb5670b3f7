/**
 Which version of the origin a stored entry stands for, and whether a store ever goes back to an
 older one: an answer that came first may be written last.
 */
module FeedVersions {
  import opened FeedCache
  import opened Wrappers

  /** The version that was current when the origin last vouched for what is stored, and for what each call writes. */
  datatype Vouched = Vouched(redis: Option<nat>, file: Option<nat>, held: map<nat, nat>)

  const NOTHING := Vouched(None, None, map[])

  predicate Writing(t: Task) {
    t.WritingRedis? || t.WritingFile?
  }

  ghost predicate Pending(s: State, k: nat) {
    k in s.tasks && Writing(s.tasks[k])
  }

  function Version(x: Vouched, k: nat): nat {
    if k in x.held then x.held[k] else 0
  }

  /** Both a new answer and a 304 vouch for the current version. */
  function NextVouched(o: Origin, s: State, x: Vouched, ev: Event): Vouched
    requires Enabled(o, s, ev)
  {
    match ev
    case Respond(k, response, now) =>
      if Writing(AfterResponse(o, s, s.tasks[k], response, now)) then x.(held := x.held[k := s.version]) else x
    case WriteRedis(k, outcome) => if outcome == Reached then x.(redis := Some(Version(x, k))) else x
    case WriteFile(k, ok) => if ok then x.(file := Some(Version(x, k))) else x
    case RedisCleared(_, outcome) => if outcome == Reached then x.(redis := None) else x
    case FileCleared(_, outcome) => if outcome == Reached then x.(file := None) else x
    case LoseRedis => x.(redis := None)
    case LoseFile => x.(file := None)
    case _ => x
  }

  predicate Older(written: nat, stored: Option<nat>) {
    stored.Some? && written < stored.value
  }

  /** The step replaces an entry by one of an older version. */
  predicate GoesBack(x: Vouched, ev: Event) {
    match ev
    case WriteRedis(k, outcome) => outcome == Reached && Older(Version(x, k), x.redis)
    case WriteFile(k, ok) => ok && Older(Version(x, k), x.file)
    case _ => false
  }

  ghost predicate NeverBack(o: Origin, ttlMs: int, s: State, x: Vouched, events: seq<Event>)
    requires ValidRun(o, ttlMs, s, events)
    decreases |events|
  {
    events == []
    || (&& !GoesBack(x, events[0])
        && NeverBack(o, ttlMs, Next(o, ttlMs, s, events[0]), NextVouched(o, s, x, events[0]), events[1..]))
  }

  // ---------- What the versions mean ----------

  ghost predicate StoredIs(o: Origin, entry: Option<Entry>, version: Option<nat>) {
    entry.Some? ==> version.Some? && entry.value.data == o.data(version.value)
  }

  /** Stored and written data are those of the recorded versions. */
  ghost predicate Recorded(o: Origin, s: State, x: Vouched) {
    && StoredIs(o, s.redis, x.redis)
    && StoredIs(o, s.file, x.file)
    && (forall k :: Pending(s, k) ==> s.tasks[k].written.data == o.data(Version(x, k)))
  }

  lemma AnswerRecorded(o: Origin, s: State, ev: Event)
    requires Honest(o) && Coherent(o, s) && Enabled(o, s, ev) && ev.Respond?
    ensures var t := AfterResponse(o, s, s.tasks[ev.task], ev.response, ev.now);
      Writing(t) ==> t.written.data == o.data(s.version)
  {
    assert TaskPaired(o, s.tasks[ev.task]);
  }

  lemma PendingRecorded(o: Origin, ttlMs: int, s: State, x: Vouched, ev: Event, k: nat)
    requires Honest(o) && Coherent(o, s) && Enabled(o, s, ev) && Recorded(o, s, x)
    requires Pending(Next(o, ttlMs, s, ev), k)
    ensures Next(o, ttlMs, s, ev).tasks[k].written.data == o.data(Version(NextVouched(o, s, x, ev), k))
  {
    if ev.Respond? && ev.task == k {
      AnswerRecorded(o, s, ev);
    } else {
      StillPending(o, ttlMs, s, ev, k);
      assert s.tasks[k].written.data == o.data(Version(x, k));
    }
  }

  lemma StoresRecorded(o: Origin, ttlMs: int, s: State, x: Vouched, ev: Event)
    requires Enabled(o, s, ev) && Recorded(o, s, x)
    ensures StoredIs(o, Next(o, ttlMs, s, ev).redis, NextVouched(o, s, x, ev).redis)
    ensures StoredIs(o, Next(o, ttlMs, s, ev).file, NextVouched(o, s, x, ev).file)
  {
    if ev.WriteRedis? || ev.WriteFile? { assert Pending(s, ev.task); }
  }

  lemma StepRecorded(o: Origin, ttlMs: int, s: State, x: Vouched, ev: Event)
    requires Honest(o) && Coherent(o, s) && Enabled(o, s, ev) && Recorded(o, s, x)
    ensures Recorded(o, Next(o, ttlMs, s, ev), NextVouched(o, s, x, ev))
  {
    StoresRecorded(o, ttlMs, s, x, ev);
    var s', x' := Next(o, ttlMs, s, ev), NextVouched(o, s, x, ev);
    forall k | Pending(s', k) ensures s'.tasks[k].written.data == o.data(Version(x', k)) {
      PendingRecorded(o, ttlMs, s, x, ev, k);
    }
  }

  lemma StillPending(o: Origin, ttlMs: int, s: State, ev: Event, k: nat)
    requires Enabled(o, s, ev) && Pending(Next(o, ttlMs, s, ev), k)
    ensures Pending(s, k) || (ev.Respond? && ev.task == k)
    ensures !(ev.Respond? && ev.task == k) ==> Next(o, ttlMs, s, ev).tasks[k].written == s.tasks[k].written
  {
  }

  // ---------- When a store goes back ----------

  /** No two writes under way carry different versions. */
  ghost predicate Uniform(s: State, x: Vouched) {
    forall j, k :: Pending(s, j) && Pending(s, k) ==> Version(x, j) == Version(x, k)
  }

  /** What is stored is no newer than what is being written, and nothing is newer than the origin. */
  ghost predicate Ahead(s: State, x: Vouched) {
    && !Older(s.version, x.redis) && !Older(s.version, x.file)
    && forall k :: Pending(s, k) ==>
         Version(x, k) <= s.version && !Older(Version(x, k), x.redis) && !Older(Version(x, k), x.file)
  }

  /** The same, without the origin. */
  ghost predicate WritesAhead(s: State, x: Vouched) {
    forall k :: Pending(s, k) ==> !Older(Version(x, k), x.redis) && !Older(Version(x, k), x.file)
  }

  predicate NoAnswers(events: seq<Event>) {
    forall i :: 0 <= i < |events| ==> !events[i].Respond?
  }

  /** However the writes under way end, no store goes back. */
  ghost predicate Safe(o: Origin, ttlMs: int, s: State, x: Vouched) {
    forall more | NoAnswers(more) && ValidRun(o, ttlMs, s, more) :: NeverBack(o, ttlMs, s, x, more)
  }

  lemma UniformStep(o: Origin, ttlMs: int, s: State, x: Vouched, ev: Event)
    requires Enabled(o, s, ev) && !ev.Respond? && Uniform(s, x) && WritesAhead(s, x)
    ensures !GoesBack(x, ev)
    ensures var s', x' := Next(o, ttlMs, s, ev), NextVouched(o, s, x, ev); Uniform(s', x') && WritesAhead(s', x')
  {
    var s', x' := Next(o, ttlMs, s, ev), NextVouched(o, s, x, ev);
    assert x'.held == x.held;
    if ev.WriteRedis? || ev.WriteFile? { assert Pending(s, ev.task); }
    forall k | Pending(s', k) ensures Pending(s, k) {
      StillPending(o, ttlMs, s, ev, k);
    }
  }

  lemma {:induction false} UniformNeverBack(o: Origin, ttlMs: int, s: State, x: Vouched, more: seq<Event>)
    requires Uniform(s, x) && WritesAhead(s, x) && NoAnswers(more) && ValidRun(o, ttlMs, s, more)
    ensures NeverBack(o, ttlMs, s, x, more)
    decreases |more|
  {
    if more != [] {
      UniformStep(o, ttlMs, s, x, more[0]);
      UniformNeverBack(o, ttlMs, Next(o, ttlMs, s, more[0]), NextVouched(o, s, x, more[0]), more[1..]);
    }
  }

  /** The file write of a call under way, behind its write to the first store if that is still due. */
  function FileWrites(s: State, k: nat): seq<Event>
    requires k in s.tasks
  {
    (if s.tasks[k].WritingRedis? then [WriteRedis(k, Skipped)] else []) + [WriteFile(k, true)]
  }

  lemma OneStepBack(o: Origin, ttlMs: int, s: State, x: Vouched, ev: Event, rest: seq<Event>)
    requires Enabled(o, s, ev) && ValidRun(o, ttlMs, Next(o, ttlMs, s, ev), rest)
    ensures ValidRun(o, ttlMs, s, [ev] + rest)
    ensures NeverBack(o, ttlMs, s, x, [ev] + rest)
      <==> !GoesBack(x, ev) && NeverBack(o, ttlMs, Next(o, ttlMs, s, ev), NextVouched(o, s, x, ev), rest)
  {
    assert ([ev] + rest)[1..] == rest;
  }

  /** The state after a call wrote the file, and the versions with it. */
  function AfterFile(s: State, k: nat): State
    requires Pending(s, k)
  {
    var t := s.tasks[k];
    SetTask(s, k, if t.foreground then Returned(t.written.data) else Ended).(file := Some(t.written))
  }

  lemma FileWritesRun(o: Origin, ttlMs: int, s: State, x: Vouched, k: nat, rest: seq<Event>)
    requires Pending(s, k) && ValidRun(o, ttlMs, AfterFile(s, k), rest)
    ensures ValidRun(o, ttlMs, s, FileWrites(s, k) + rest)
    ensures var after, run := x.(file := Some(Version(x, k))), FileWrites(s, k) + rest;
      var goesOn := NeverBack(o, ttlMs, AfterFile(s, k), after, rest);
      NeverBack(o, ttlMs, s, x, run) <==> !Older(Version(x, k), x.file) && goesOn
  {
    var t := s.tasks[k];
    var due := SetTask(s, k, WritingFile(t.written, t.foreground));
    assert due.tasks[k := if t.foreground then Returned(t.written.data) else Ended] == AfterFile(s, k).tasks;
    if t.WritingRedis? {
      OneStepBack(o, ttlMs, due, x, WriteFile(k, true), rest);
      OneStepBack(o, ttlMs, s, x, WriteRedis(k, Skipped), [WriteFile(k, true)] + rest);
      assert FileWrites(s, k) + rest == [WriteRedis(k, Skipped)] + ([WriteFile(k, true)] + rest);
    } else {
      assert due.tasks == s.tasks;
      OneStepBack(o, ttlMs, s, x, WriteFile(k, true), rest);
      assert FileWrites(s, k) + rest == [WriteFile(k, true)] + rest;
    }
  }

  /** Of two writes under way the newer one may end first. */
  lemma NewerFirst(o: Origin, ttlMs: int, s: State, x: Vouched, j: nat, k: nat) returns (more: seq<Event>)
    requires Pending(s, j) && Pending(s, k) && Version(x, j) < Version(x, k)
    ensures NoAnswers(more) && ValidRun(o, ttlMs, s, more) && !NeverBack(o, ttlMs, s, x, more)
  {
    var s1 := AfterFile(s, k);
    assert Pending(s1, j);
    var x1 := x.(file := Some(Version(x, k)));
    FileWritesRun(o, ttlMs, s1, x1, j, []);
    assert FileWrites(s1, j) + [] == FileWrites(s1, j);
    FileWritesRun(o, ttlMs, s, x, k, FileWrites(s1, j));
    more := FileWrites(s, k) + FileWrites(s1, j);
  }

  /** No way of ending the writes goes back exactly when no two of them carry different versions. */
  lemma SafeExactlyWhen(o: Origin, ttlMs: int, s: State, x: Vouched)
    requires WritesAhead(s, x)
    ensures Safe(o, ttlMs, s, x) <==> Uniform(s, x)
  {
    if Uniform(s, x) {
      forall more | NoAnswers(more) && ValidRun(o, ttlMs, s, more) ensures NeverBack(o, ttlMs, s, x, more) {
        UniformNeverBack(o, ttlMs, s, x, more);
      }
    } else {
      var j, k :| Pending(s, j) && Pending(s, k) && Version(x, j) != Version(x, k);
      if Version(x, j) < Version(x, k) {
        var more := NewerFirst(o, ttlMs, s, x, j, k);
      } else {
        var more := NewerFirst(o, ttlMs, s, x, k, j);
      }
    }
  }

  // ---------- Runs ----------

  /** The origin publishes newer versions only. */
  ghost predicate Advancing(o: Origin, ttlMs: int, s: State, events: seq<Event>)
    requires ValidRun(o, ttlMs, s, events)
    decreases |events|
  {
    events == []
    || (&& (events[0].Publish? ==> s.version <= events[0].version)
        && Advancing(o, ttlMs, Next(o, ttlMs, s, events[0]), events[1..]))
  }

  ghost predicate SafeThroughout(o: Origin, ttlMs: int, s: State, x: Vouched, events: seq<Event>)
    requires ValidRun(o, ttlMs, s, events)
    decreases |events|
  {
    && Safe(o, ttlMs, s, x)
    && (events != [] ==>
          SafeThroughout(o, ttlMs, Next(o, ttlMs, s, events[0]), NextVouched(o, s, x, events[0]), events[1..]))
  }

  ghost predicate UniformThroughout(o: Origin, ttlMs: int, s: State, x: Vouched, events: seq<Event>)
    requires ValidRun(o, ttlMs, s, events)
    decreases |events|
  {
    && Uniform(s, x)
    && (events != [] ==>
          UniformThroughout(o, ttlMs, Next(o, ttlMs, s, events[0]), NextVouched(o, s, x, events[0]), events[1..]))
  }

  lemma AheadStep(o: Origin, ttlMs: int, s: State, x: Vouched, ev: Event)
    requires Enabled(o, s, ev) && Uniform(s, x) && Ahead(s, x)
    requires ev.Publish? ==> s.version <= ev.version
    ensures Ahead(Next(o, ttlMs, s, ev), NextVouched(o, s, x, ev)) && !GoesBack(x, ev)
  {
    var s', x' := Next(o, ttlMs, s, ev), NextVouched(o, s, x, ev);
    if ev.WriteRedis? || ev.WriteFile? { assert Pending(s, ev.task); }
    forall k | Pending(s', k)
      ensures Version(x', k) <= s'.version && !Older(Version(x', k), x'.redis) && !Older(Version(x', k), x'.file)
    {
      StillPending(o, ttlMs, s, ev, k);
    }
  }

  /**
   At every point of a run no store goes back to an older version, however the writes under way
   end, exactly when at no point two of them carry different versions.
   */
  lemma {:induction false} NeverBackExactlyWhen(o: Origin, ttlMs: int, s: State, x: Vouched, events: seq<Event>)
    requires ValidRun(o, ttlMs, s, events) && Advancing(o, ttlMs, s, events) && Ahead(s, x)
    ensures SafeThroughout(o, ttlMs, s, x, events) <==> UniformThroughout(o, ttlMs, s, x, events)
    ensures UniformThroughout(o, ttlMs, s, x, events) ==> NeverBack(o, ttlMs, s, x, events)
    decreases |events|
  {
    SafeExactlyWhen(o, ttlMs, s, x);
    if events != [] && Uniform(s, x) {
      AheadStep(o, ttlMs, s, x, events[0]);
      NeverBackExactlyWhen(o, ttlMs, Next(o, ttlMs, s, events[0]), NextVouched(o, s, x, events[0]), events[1..]);
    }
  }

  ghost function RunVouched(o: Origin, ttlMs: int, s: State, x: Vouched, events: seq<Event>): Vouched
    requires ValidRun(o, ttlMs, s, events)
    decreases |events|
  {
    if events == [] then x
    else RunVouched(o, ttlMs, Next(o, ttlMs, s, events[0]), NextVouched(o, s, x, events[0]), events[1..])
  }

  /** After any coherent run against an honest origin every store holds the data of the version recorded for it. */
  lemma {:induction false} RunRecorded(o: Origin, ttlMs: int, s: State, x: Vouched, events: seq<Event>)
    requires Honest(o) && ValidRun(o, ttlMs, s, events) && CoherentThroughout(o, ttlMs, s, events)
    requires Recorded(o, s, x)
    ensures Recorded(o, Run(o, ttlMs, s, events), RunVouched(o, ttlMs, s, x, events))
    decreases |events|
  {
    if events != [] {
      StepRecorded(o, ttlMs, s, x, events[0]);
      RunRecorded(o, ttlMs, Next(o, ttlMs, s, events[0]), NextVouched(o, s, x, events[0]), events[1..]);
    }
  }

  /** Each answer is written before another one comes. */
  ghost predicate OneAnswerAtATime(o: Origin, ttlMs: int, s: State, events: seq<Event>)
    requires ValidRun(o, ttlMs, s, events)
    decreases |events|
  {
    events == []
    || (&& (events[0].Respond? ==> forall k :: k in s.tasks ==> !Pending(s, k))
        && OneAnswerAtATime(o, ttlMs, Next(o, ttlMs, s, events[0]), events[1..]))
  }

  ghost predicate OnePending(s: State) {
    forall j, k :: Pending(s, j) && Pending(s, k) ==> j == k
  }

  lemma {:induction false} OneAnswerUniform(o: Origin, ttlMs: int, s: State, x: Vouched, events: seq<Event>)
    requires ValidRun(o, ttlMs, s, events) && OneAnswerAtATime(o, ttlMs, s, events) && OnePending(s)
    ensures UniformThroughout(o, ttlMs, s, x, events)
    decreases |events|
  {
    if events != [] {
      var s' := Next(o, ttlMs, s, events[0]);
      forall k | Pending(s', k) ensures Pending(s, k) || (events[0].Respond? && events[0].task == k) {
        StillPending(o, ttlMs, s, events[0], k);
      }
      OneAnswerUniform(o, ttlMs, s', NextVouched(o, s, x, events[0]), events[1..]);
    }
  }

  /** One step towards a run that goes back. */
  lemma BackFrom(o: Origin, s: State, x: Vouched, ev: Event, n: State, after: Vouched, rest: seq<Event>)
    requires Enabled(o, s, ev) && Next(o, 10, s, ev) == n && NextVouched(o, s, x, ev) == after
    requires ValidRun(o, 10, n, rest) && (GoesBack(x, ev) || !NeverBack(o, 10, n, after, rest))
    ensures ValidRun(o, 10, s, [ev] + rest) && Run(o, 10, s, [ev] + rest) == Run(o, 10, n, rest)
    ensures !NeverBack(o, 10, s, x, [ev] + rest)
  {
    StepTo(o, s, ev, n, rest);
    OneStepBack(o, 10, s, x, ev, rest);
  }

  /** Any later version, which another call has returned, can be overwritten by an answer of version 0. */
  lemma OlderAnswerOverwrites(o: Origin, v: nat) returns (events: seq<Event>)
    requires v > 0
    ensures ValidRun(o, 10, EMPTY, events) && !NeverBack(o, 10, EMPTY, NOTHING, events)
    ensures var s := Run(o, 10, EMPTY, events);
      && s.version == v && s.file == Some(Entry(0, o.data(0), Some(o.etag(0))))
      && 1 in s.tasks && s.tasks[1] == Returned(o.data(v))
  {
    var e0, e1 := Entry(0, o.data(0), Some(o.etag(0))), Entry(5, o.data(v), Some(o.etag(v)));
    var s1 := State(None, None, map[0 := ReadingFile(false)], 1, 0);
    var s2 := State(None, None, map[0 := Fetching(false, None, 0)], 1, 0);
    var s3 := State(None, None, map[0 := WritingFile(e0, true)], 1, 0);
    var s4 := State(None, None, map[0 := WritingFile(e0, true)], 1, v);
    var s5 := State(None, None, map[0 := WritingFile(e0, true), 1 := ReadingFile(false)], 2, v);
    var s6 := State(None, None, map[0 := WritingFile(e0, true), 1 := Fetching(false, None, 5)], 2, v);
    var s7 := State(None, None, map[0 := WritingFile(e0, true), 1 := WritingFile(e1, true)], 2, v);
    var s8 := State(None, Some(e1), map[0 := WritingFile(e0, true), 1 := Returned(o.data(v))], 2, v);
    var s9 := State(None, Some(e0), map[0 := Returned(o.data(0)), 1 := Returned(o.data(v))], 2, v);
    var x3, x7 := Vouched(None, None, map[0 := 0]), Vouched(None, None, map[0 := 0, 1 := v]);
    var x8, x9 := x7.(file := Some(v)), x7.(file := Some(0));
    events := [];
    BackFrom(o, s8, x8, WriteFile(0, true), s9, x9, events);
    events := [WriteFile(0, true)] + events;
    BackFrom(o, s7, x7, WriteFile(1, true), s8, x8, events);
    events := [WriteFile(1, true)] + events;
    BackFrom(o, s6, x3, Respond(1, Fresh(true), 5), s7, x7, events);
    events := [Respond(1, Fresh(true), 5)] + events;
    BackFrom(o, s5, x3, ReadFile(1, true, 5), s6, x3, events);
    events := [ReadFile(1, true, 5)] + events;
    BackFrom(o, s4, x3, Call(false), s5, x3, events);
    events := [Call(false)] + events;
    BackFrom(o, s3, x3, Publish(v), s4, x3, events);
    events := [Publish(v)] + events;
    BackFrom(o, s2, NOTHING, Respond(0, Fresh(true), 0), s3, x3, events);
    events := [Respond(0, Fresh(true), 0)] + events;
    BackFrom(o, s1, NOTHING, ReadFile(0, true, 0), s2, NOTHING, events);
    events := [ReadFile(0, true, 0)] + events;
    BackFrom(o, EMPTY, NOTHING, Call(false), s1, NOTHING, events);
    events := [Call(false)] + events;
  }
}
