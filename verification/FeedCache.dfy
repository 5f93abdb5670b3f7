/**
 The conditional-GET feed cache for one URL, as steps between awaits. Foreground calls and
 background revalidations interleave freely over a Redis store and a file store.
 */
module FeedCache {
  import opened Utf16
  import opened Wrappers

  /** What the origin served in each version, and the etag it gave that version. */
  datatype Origin = Origin(data: nat -> Text, etag: nat -> Text)

  datatype Entry = Entry(fetchedAt: int, data: Text, etag: Option<Text>)

  /** A suspended call: what it awaits next and what it holds. */
  datatype Task =
    | Direct
    | ReadingRedis
    | ReadingFile(redis: bool)
    | Fetching(redis: bool, entry: Option<Entry>, now: int)
    | Revalidating(redis: bool, etag: Option<Text>)
    | WritingRedis(written: Entry, foreground: bool)
    | WritingFile(written: Entry, foreground: bool)
    | ClearingFile(redis: bool)
    | ClearingRedis
    | Returned(data: Text)
    | Ended

  datatype Response = NotModified | Fresh(sendsEtag: bool) | Rejected

  /** A store was reached, was not there to be asked, or the request threw. */
  datatype Outcome = Reached | Skipped | Thrown

  datatype Event =
    | Call(redis: bool)
    | ReadRedis(task: nat, outcome: Outcome, now: int)
    | ReadFile(task: nat, readable: bool, now: int)
    | Respond(task: nat, response: Response, now: int)
    | WriteRedis(task: nat, outcome: Outcome)
    | WriteFile(task: nat, ok: bool)
    | Clear(redis: bool)
    | FileCleared(task: nat, outcome: Outcome)
    | RedisCleared(task: nat, outcome: Outcome)
    | LoseRedis
    | LoseFile
    | Publish(version: nat)

  datatype State = State(redis: Option<Entry>, file: Option<Entry>, tasks: map<nat, Task>, next: nat, version: nat)

  const EMPTY := State(None, None, map[], 0, 0)

  // ---------- Steps ----------

  /** The If-None-Match header a task sends, if it sends one. */
  function Condition(t: Task): Option<Text> {
    match t
    case Fetching(_, Some(e), _) => NonEmpty(e.etag)
    case Revalidating(_, etag) => NonEmpty(etag)
    case _ => None
  }

  function NonEmpty(etag: Option<Text>): Option<Text> {
    if etag == Some([]) then None else etag
  }

  predicate AwaitsResponse(t: Task) {
    t.Direct? || t.Fetching? || t.Revalidating?
  }

  /** An origin answers 304 only to a condition that names its current version. */
  predicate Enabled(o: Origin, s: State, ev: Event) {
    match ev
    case ReadRedis(k, _, _) => k in s.tasks && s.tasks[k].ReadingRedis?
    case ReadFile(k, _, _) => k in s.tasks && s.tasks[k].ReadingFile?
    case Respond(k, response, _) =>
      && k in s.tasks && AwaitsResponse(s.tasks[k])
      && (response.NotModified? ==> Condition(s.tasks[k]) == Some(o.etag(s.version)))
    case WriteRedis(k, _) => k in s.tasks && s.tasks[k].WritingRedis?
    case WriteFile(k, _) => k in s.tasks && s.tasks[k].WritingFile?
    case FileCleared(k, _) => k in s.tasks && s.tasks[k].ClearingFile?
    case RedisCleared(k, _) => k in s.tasks && s.tasks[k].ClearingRedis?
    case _ => true
  }

  function SetTask(s: State, k: nat, t: Task): State {
    s.(tasks := s.tasks[k := t])
  }

  function Spawn(s: State, t: Task): State {
    s.(tasks := s.tasks[s.next := t], next := s.next + 1)
  }

  /** A call that has read the cache: serve a fresh entry and revalidate, or fetch. */
  function AfterRead(ttlMs: int, s: State, k: nat, redis: bool, entry: Option<Entry>, now: int): State {
    if entry.Some? && now - entry.value.fetchedAt <= ttlMs then
      Spawn(SetTask(s, k, Returned(entry.value.data)), Revalidating(redis, entry.value.etag))
    else SetTask(s, k, Fetching(redis, entry, now))
  }

  function StartWrite(redis: bool, e: Entry, foreground: bool): Task {
    if redis then WritingRedis(e, foreground) else WritingFile(e, foreground)
  }

  function SentEtag(o: Origin, s: State, sendsEtag: bool): Option<Text> {
    if sendsEtag then Some(o.etag(s.version)) else None
  }

  /** What a task becomes when the origin, at its current version, answers. */
  function AfterResponse(o: Origin, s: State, t: Task, response: Response, now: int): Task
    requires AwaitsResponse(t)
  {
    match (t, response)
    case (Direct, Fresh(_)) => Returned(o.data(s.version))
    case (Fetching(redis, Some(e), started), NotModified) => StartWrite(redis, e.(fetchedAt := started), true)
    case (Fetching(redis, entry, started), Fresh(sends)) =>
      var kept := if entry.Some? then entry.value.etag else None;
      StartWrite(redis, Entry(started, o.data(s.version), SentEtag(o, s, sends).OrElse(kept)), true)
    case (Revalidating(redis, _), Fresh(sends)) =>
      StartWrite(redis, Entry(now, o.data(s.version), SentEtag(o, s, sends)), false)
    case _ => Ended
  }

  function Next(o: Origin, ttlMs: int, s: State, ev: Event): State
    requires Enabled(o, s, ev)
  {
    match ev
    case Call(redis) =>
      Spawn(s, if ttlMs <= 0 then Direct else if redis then ReadingRedis else ReadingFile(false))
    case ReadRedis(k, outcome, now) =>
      if outcome == Thrown then SetTask(s, k, Ended)
      else if outcome == Reached && s.redis.Some? then AfterRead(ttlMs, s, k, true, s.redis, now)
      else SetTask(s, k, ReadingFile(true))
    case ReadFile(k, readable, now) =>
      AfterRead(ttlMs, s, k, s.tasks[k].redis, if readable then s.file else None, now)
    case Respond(k, response, now) => SetTask(s, k, AfterResponse(o, s, s.tasks[k], response, now))
    case WriteRedis(k, outcome) =>
      var t := s.tasks[k];
      if outcome == Thrown then SetTask(s, k, Ended)
      else
        SetTask(s, k, WritingFile(t.written, t.foreground))
          .(redis := if outcome == Reached then Some(t.written) else s.redis)
    case WriteFile(k, ok) =>
      var t := s.tasks[k];
      SetTask(s, k, if t.foreground then Returned(t.written.data) else Ended)
        .(file := if ok then Some(t.written) else s.file)
    case Clear(redis) => Spawn(s, ClearingFile(redis))
    case FileCleared(k, outcome) =>
      SetTask(s, k, if s.tasks[k].redis then ClearingRedis else Ended)
        .(file := if outcome == Reached then None else s.file)
    case RedisCleared(k, outcome) =>
      SetTask(s, k, Ended).(redis := if outcome == Reached then None else s.redis)
    case LoseRedis => s.(redis := None)
    case LoseFile => s.(file := None)
    case Publish(version) => s.(version := version)
  }

  ghost predicate ValidRun(o: Origin, ttlMs: int, s: State, events: seq<Event>)
    decreases |events|
  {
    events == [] || (Enabled(o, s, events[0]) && ValidRun(o, ttlMs, Next(o, ttlMs, s, events[0]), events[1..]))
  }

  ghost function Run(o: Origin, ttlMs: int, s: State, events: seq<Event>): State
    requires ValidRun(o, ttlMs, s, events)
    decreases |events|
  {
    if events == [] then s else Run(o, ttlMs, Next(o, ttlMs, s, events[0]), events[1..])
  }

  // ---------- Pairing ----------

  /** Data and etag belong to one version of the origin. */
  ghost predicate Paired(o: Origin, e: Entry) {
    exists v: nat :: e.data == o.data(v) && (e.etag == None || e.etag == Some(o.etag(v)))
  }

  ghost predicate PairedOption(o: Origin, e: Option<Entry>) {
    e.Some? ==> Paired(o, e.value)
  }

  ghost predicate TaskPaired(o: Origin, t: Task) {
    match t
    case Fetching(_, entry, _) => PairedOption(o, entry)
    case WritingRedis(e, _) => Paired(o, e)
    case WritingFile(e, _) => Paired(o, e)
    case Returned(data) => exists v: nat :: data == o.data(v)
    case _ => true
  }

  /** Every stored entry, and every entry a suspended call holds, is paired. */
  ghost predicate Coherent(o: Origin, s: State) {
    && PairedOption(o, s.redis)
    && PairedOption(o, s.file)
    && (forall k :: k in s.tasks ==> TaskPaired(o, s.tasks[k]))
    && (forall k :: k in s.tasks ==> k < s.next)
  }

  /** The entry that a foreground answer without etag makes from new data and the old etag. */
  ghost predicate FallsBack(s: State, ev: Event) {
    && ev.Respond? && ev.task in s.tasks && ev.response == Fresh(false)
    && s.tasks[ev.task].Fetching? && s.tasks[ev.task].entry.Some?
    && s.tasks[ev.task].entry.value.etag.Some?
  }

  /** The old etag also names some version with the new data. */
  ghost predicate FallbackFits(o: Origin, s: State, ev: Event)
    requires FallsBack(s, ev)
  {
    exists v: nat :: o.data(s.version) == o.data(v) && s.tasks[ev.task].entry.value.etag == Some(o.etag(v))
  }

  /** An etag names its data. */
  ghost predicate Honest(o: Origin) {
    forall v: nat, w: nat :: o.etag(v) == o.etag(w) ==> o.data(v) == o.data(w)
  }

  /** Not a fallback, or one whose answer brings the data the call already holds. */
  ghost predicate BringsNothingNew(o: Origin, s: State, ev: Event) {
    FallsBack(s, ev) ==> s.tasks[ev.task].entry.value.data == o.data(s.version)
  }

  /** For an honest origin the old etag fits exactly when the data has not changed. */
  lemma FallbackFitsExactlyWhen(o: Origin, s: State, ev: Event)
    requires Honest(o) && Coherent(o, s) && FallsBack(s, ev)
    ensures FallbackFits(o, s, ev) <==> BringsNothingNew(o, s, ev)
  {
    var e := s.tasks[ev.task].entry.value;
    assert TaskPaired(o, s.tasks[ev.task]);
    var v: nat :| e.data == o.data(v) && e.etag == Some(o.etag(v));
    if FallbackFits(o, s, ev) {
      var w: nat :| o.data(s.version) == o.data(w) && e.etag == Some(o.etag(w));
      assert o.data(v) == o.data(w);
    }
  }

  lemma CurrentPaired(o: Origin, s: State, at: int, sends: bool)
    ensures Paired(o, Entry(at, o.data(s.version), SentEtag(o, s, sends)))
  {
  }

  lemma ResponseKeepsPairing(o: Origin, s: State, ev: Event)
    requires ev.Respond? && Enabled(o, s, ev) && Coherent(o, s)
    requires !FallsBack(s, ev) || FallbackFits(o, s, ev)
    ensures TaskPaired(o, AfterResponse(o, s, s.tasks[ev.task], ev.response, ev.now))
  {
    var t := s.tasks[ev.task];
    CurrentPaired(o, s, ev.now, ev.response.Fresh? && ev.response.sendsEtag);
    if t.Fetching? {
      CurrentPaired(o, s, t.now, ev.response.Fresh? && ev.response.sendsEtag);
      if ev.response.NotModified? && t.entry.Some? {
        var v: nat :| t.entry.value.data == o.data(v)
          && (t.entry.value.etag == None || t.entry.value.etag == Some(o.etag(v)));
        assert Paired(o, t.entry.value.(fetchedAt := t.now));
      }
    }
  }

  lemma AfterReadKeeps(o: Origin, ttlMs: int, s: State, k: nat, redis: bool, entry: Option<Entry>, now: int)
    requires Coherent(o, s) && k in s.tasks && PairedOption(o, entry)
    ensures Coherent(o, AfterRead(ttlMs, s, k, redis, entry, now))
  {
  }

  lemma StepKeepsPairing(o: Origin, ttlMs: int, s: State, ev: Event)
    requires Enabled(o, s, ev) && Coherent(o, s)
    requires !FallsBack(s, ev) || FallbackFits(o, s, ev)
    ensures Coherent(o, Next(o, ttlMs, s, ev))
  {
    match ev {
      case ReadRedis(k, outcome, now) =>
        if outcome == Reached && s.redis.Some? { AfterReadKeeps(o, ttlMs, s, k, true, s.redis, now); }
      case ReadFile(k, readable, now) =>
        AfterReadKeeps(o, ttlMs, s, k, s.tasks[k].redis, if readable then s.file else None, now);
      case Respond(k, response, now) => ResponseKeepsPairing(o, s, ev);
      case WriteRedis(k, outcome) => assert TaskPaired(o, s.tasks[k]);
      case WriteFile(k, ok) => assert TaskPaired(o, s.tasks[k]);
      case _ =>
    }
  }

  /**
   Against an honest origin a step keeps every entry paired, exactly when it is not a
   foreground answer without etag that brings other data than the call had found stored.
   */
  lemma StepKeepsPairingExactlyWhen(o: Origin, ttlMs: int, s: State, ev: Event)
    requires Honest(o) && Enabled(o, s, ev) && Coherent(o, s)
    ensures Coherent(o, Next(o, ttlMs, s, ev)) <==> BringsNothingNew(o, s, ev)
  {
    if FallsBack(s, ev) {
      FallbackFitsExactlyWhen(o, s, ev);
      assert FallbackFits(o, s, ev) <==> TaskPaired(o, Next(o, ttlMs, s, ev).tasks[ev.task]);
    }
    if BringsNothingNew(o, s, ev) {
      StepKeepsPairing(o, ttlMs, s, ev);
    }
  }

  ghost predicate CoherentThroughout(o: Origin, ttlMs: int, s: State, events: seq<Event>)
    requires ValidRun(o, ttlMs, s, events)
    decreases |events|
  {
    && Coherent(o, s)
    && (events != [] ==> CoherentThroughout(o, ttlMs, Next(o, ttlMs, s, events[0]), events[1..]))
  }

  /** No answer of the run without etag brings other data than its call had found stored. */
  ghost predicate NeverBringsNew(o: Origin, ttlMs: int, s: State, events: seq<Event>)
    requires ValidRun(o, ttlMs, s, events)
    decreases |events|
  {
    events == []
    || (BringsNothingNew(o, s, events[0]) && NeverBringsNew(o, ttlMs, Next(o, ttlMs, s, events[0]), events[1..]))
  }

  /** Against an honest origin the condition decides whole runs as well. */
  lemma {:induction false} RunKeepsPairingExactlyWhen(o: Origin, ttlMs: int, s: State, events: seq<Event>)
    requires Honest(o) && ValidRun(o, ttlMs, s, events) && Coherent(o, s)
    ensures CoherentThroughout(o, ttlMs, s, events) <==> NeverBringsNew(o, ttlMs, s, events)
    decreases |events|
  {
    if events != [] {
      var next := Next(o, ttlMs, s, events[0]);
      StepKeepsPairingExactlyWhen(o, ttlMs, s, events[0]);
      if Coherent(o, next) {
        RunKeepsPairingExactlyWhen(o, ttlMs, next, events[1..]);
      }
    }
  }

  ghost predicate AlwaysSendsEtag(events: seq<Event>) {
    forall i :: 0 <= i < |events| && events[i].Respond? ==> events[i].response != Fresh(false)
  }

  /** In every run against an origin that always sends an etag, every entry stays paired. */
  lemma {:induction false} RunKeepsPairing(o: Origin, ttlMs: int, s: State, events: seq<Event>)
    requires ValidRun(o, ttlMs, s, events) && Coherent(o, s)
    requires AlwaysSendsEtag(events)
    ensures Coherent(o, Run(o, ttlMs, s, events))
    decreases |events|
  {
    if events != [] {
      assert events[0].Respond? ==> events[0].response != Fresh(false);
      StepKeepsPairing(o, ttlMs, s, events[0]);
      RunKeepsPairing(o, ttlMs, Next(o, ttlMs, s, events[0]), events[1..]);
    }
  }

  /**
   After any such run a 304 certifies the data: the foreground call goes on to return exactly
   what the origin serves at that moment.
   */
  lemma NotModifiedCertifies(o: Origin, ttlMs: int, events: seq<Event>, ev: Event)
    requires Honest(o) && ValidRun(o, ttlMs, EMPTY, events) && AlwaysSendsEtag(events)
    requires ev.Respond? && ev.response.NotModified? && Enabled(o, Run(o, ttlMs, EMPTY, events), ev)
    requires Run(o, ttlMs, EMPTY, events).tasks[ev.task].Fetching?
    ensures var s := Run(o, ttlMs, EMPTY, events);
      var t := Next(o, ttlMs, s, ev).tasks[ev.task];
      (t.WritingRedis? || t.WritingFile?) && t.foreground && t.written.data == o.data(s.version)
  {
    RunKeepsPairing(o, ttlMs, EMPTY, events);
    var s := Run(o, ttlMs, EMPTY, events);
    assert TaskPaired(o, s.tasks[ev.task]);
  }

  lemma Prepend(o: Origin, ttlMs: int, s: State, ev: Event, rest: seq<Event>)
    requires Enabled(o, s, ev) && ValidRun(o, ttlMs, Next(o, ttlMs, s, ev), rest)
    ensures ValidRun(o, ttlMs, s, [ev] + rest)
    ensures Run(o, ttlMs, s, [ev] + rest) == Run(o, ttlMs, Next(o, ttlMs, s, ev), rest)
  {
    assert ([ev] + rest)[1..] == rest;
  }

  /** Whenever an honest origin changes its data, an answer without etag can leave the new data under the old etag. */
  lemma FallbackCanMispair(o: Origin, v: nat) returns (events: seq<Event>)
    requires Honest(o) && o.data(v) != o.data(0)
    ensures ValidRun(o, 10, EMPTY, events) && !Coherent(o, Run(o, 10, EMPTY, events))
  {
    var e := Entry(0, o.data(0), Some(o.etag(0)));
    var bad := Entry(20, o.data(v), Some(o.etag(0)));
    var s1 := State(None, None, map[0 := ReadingFile(false)], 1, 0);
    var s2 := State(None, None, map[0 := Fetching(false, None, 0)], 1, 0);
    var s3 := State(None, None, map[0 := WritingFile(e, true)], 1, 0);
    var s4 := State(None, Some(e), map[0 := Returned(o.data(0))], 1, 0);
    var s5 := State(None, Some(e), map[0 := Returned(o.data(0))], 1, v);
    var s6 := State(None, Some(e), map[0 := Returned(o.data(0)), 1 := ReadingFile(false)], 2, v);
    var s7 := State(None, Some(e), map[0 := Returned(o.data(0)), 1 := Fetching(false, Some(e), 20)], 2, v);
    var s8 := State(None, Some(e), map[0 := Returned(o.data(0)), 1 := WritingFile(bad, true)], 2, v);
    assert !Paired(o, bad);
    assert !TaskPaired(o, s8.tasks[1]);
    events := [];
    StepTo(o, s7, Respond(1, Fresh(false), 20), s8, events);
    events := [Respond(1, Fresh(false), 20)] + events;
    StepTo(o, s6, ReadFile(1, true, 20), s7, events);
    events := [ReadFile(1, true, 20)] + events;
    StepTo(o, s5, Call(false), s6, events);
    events := [Call(false)] + events;
    StepTo(o, s4, Publish(v), s5, events);
    events := [Publish(v)] + events;
    StepTo(o, s3, WriteFile(0, true), s4, events);
    events := [WriteFile(0, true)] + events;
    StepTo(o, s2, Respond(0, Fresh(true), 0), s3, events);
    events := [Respond(0, Fresh(true), 0)] + events;
    StepTo(o, s1, ReadFile(0, true, 0), s2, events);
    events := [ReadFile(0, true, 0)] + events;
    StepTo(o, EMPTY, Call(false), s1, events);
    events := [Call(false)] + events;
  }

  lemma StepTo(o: Origin, s: State, ev: Event, n: State, rest: seq<Event>)
    requires Enabled(o, s, ev) && Next(o, 10, s, ev) == n && ValidRun(o, 10, n, rest)
    ensures ValidRun(o, 10, s, [ev] + rest)
    ensures Run(o, 10, s, [ev] + rest) == Run(o, 10, n, rest)
  {
    Prepend(o, 10, s, ev, rest);
  }

  // ---------- The cache as an object ----------

  /** The stores and the suspended calls, updated in place one step at a time. */
  class Cache {
    const origin: Origin
    const ttlMs: int
    var redis: Option<Entry>
    var file: Option<Entry>
    var tasks: map<nat, Task>
    var next: nat
    var version: nat

    constructor (origin: Origin, ttlMs: int)
      ensures this.origin == origin && this.ttlMs == ttlMs && View() == EMPTY
    {
      this.origin, this.ttlMs := origin, ttlMs;
      redis, file, tasks, next, version := None, None, map[], 0, 0;
    }

    ghost function View(): State
      reads this
    {
      State(redis, file, tasks, next, version)
    }

    /** getCachedFeed up to its first await. */
    method GetCachedFeed(useRedis: bool) returns (k: nat)
      modifies this
      ensures View() == Next(origin, ttlMs, old(View()), Call(useRedis))
    {
      k := next;
      next := next + 1;
      if ttlMs <= 0 {
        tasks := tasks[k := Direct];
      } else if useRedis {
        tasks := tasks[k := ReadingRedis];
      } else {
        tasks := tasks[k := ReadingFile(false)];
      }
    }

    /** The part of getCachedFeed between reading the cache and the next await. */
    method ServeOrFetch(k: nat, useRedis: bool, entry: Option<Entry>, now: int)
      modifies this
      ensures View() == AfterRead(ttlMs, old(View()), k, useRedis, entry, now)
    {
      var stale := entry.None? || now - entry.value.fetchedAt > ttlMs;
      if !stale && entry.Some? {
        tasks := tasks[k := Returned(entry.value.data)];
        tasks := tasks[next := Revalidating(useRedis, entry.value.etag)];
        next := next + 1;
      } else {
        tasks := tasks[k := Fetching(useRedis, entry, now)];
      }
    }

    /** readCacheEntry after Redis answered; an exception there rejects the call. */
    method RedisRead(k: nat, outcome: Outcome, now: int)
      requires Enabled(origin, View(), ReadRedis(k, outcome, now))
      modifies this
      ensures View() == Next(origin, ttlMs, old(View()), ReadRedis(k, outcome, now))
    {
      if outcome == Thrown {
        tasks := tasks[k := Ended];
      } else if outcome == Reached && redis.Some? {
        ServeOrFetch(k, true, redis, now);
      } else {
        tasks := tasks[k := ReadingFile(true)];
      }
    }

    /** readCacheEntry after the file was read, or could not be. */
    method FileRead(k: nat, readable: bool, now: int)
      requires Enabled(origin, View(), ReadFile(k, readable, now))
      modifies this
      ensures View() == Next(origin, ttlMs, old(View()), ReadFile(k, readable, now))
    {
      ServeOrFetch(k, tasks[k].redis, if readable then file else None, now);
    }

    /** The fetch of getCachedFeed or of revalidateAsync settles. */
    method Settle(k: nat, response: Response, now: int)
      requires Enabled(origin, View(), Respond(k, response, now))
      modifies this
      ensures View() == Next(origin, ttlMs, old(View()), Respond(k, response, now))
    {
      var t := tasks[k];
      if response.Rejected? {
        tasks := tasks[k := Ended];
      } else if t.Fetching? && response.NotModified? && t.entry.Some? {
        tasks := tasks[k := StartWrite(t.redis, t.entry.value.(fetchedAt := t.now), true)];
      } else if response.NotModified? {
        tasks := tasks[k := Ended];
      } else {
        var data := origin.data(version);
        var etag := if response.sendsEtag then Some(origin.etag(version)) else None;
        if t.Direct? {
          tasks := tasks[k := Returned(data)];
        } else if t.Fetching? {
          if etag.None? && t.entry.Some? {
            etag := t.entry.value.etag;
          }
          tasks := tasks[k := StartWrite(t.redis, Entry(t.now, data, etag), true)];
        } else {
          tasks := tasks[k := StartWrite(t.redis, Entry(now, data, etag), false)];
        }
      }
    }

    /** writeCacheEntry: Redis first; an exception there abandons the call. */
    method RedisWrite(k: nat, outcome: Outcome)
      requires Enabled(origin, View(), WriteRedis(k, outcome))
      modifies this
      ensures View() == Next(origin, ttlMs, old(View()), WriteRedis(k, outcome))
    {
      var t := tasks[k];
      if outcome == Thrown {
        tasks := tasks[k := Ended];
        return;
      }
      if outcome == Reached {
        redis := Some(t.written);
      }
      tasks := tasks[k := WritingFile(t.written, t.foreground)];
    }

    /** writeCacheEntry: then the file, whose failures are ignored. */
    method FileWrite(k: nat, ok: bool)
      requires Enabled(origin, View(), WriteFile(k, ok))
      modifies this
      ensures View() == Next(origin, ttlMs, old(View()), WriteFile(k, ok))
    {
      var t := tasks[k];
      if ok {
        file := Some(t.written);
      }
      tasks := tasks[k := if t.foreground then Returned(t.written.data) else Ended];
    }

    /** clearCache up to its first await. */
    method ClearCache(useRedis: bool) returns (k: nat)
      modifies this
      ensures View() == Next(origin, ttlMs, old(View()), Clear(useRedis))
    {
      k := next;
      next := next + 1;
      tasks := tasks[k := ClearingFile(useRedis)];
    }

    /** clearCache after the file was deleted, was missing or could not be deleted. */
    method FileDeleted(k: nat, outcome: Outcome)
      requires Enabled(origin, View(), FileCleared(k, outcome))
      modifies this
      ensures View() == Next(origin, ttlMs, old(View()), FileCleared(k, outcome))
    {
      if outcome == Reached {
        file := None;
      }
      tasks := tasks[k := if tasks[k].redis then ClearingRedis else Ended];
    }

    /** clearCache after Redis was asked to delete its entry. */
    method RedisDeleted(k: nat, outcome: Outcome)
      requires Enabled(origin, View(), RedisCleared(k, outcome))
      modifies this
      ensures View() == Next(origin, ttlMs, old(View()), RedisCleared(k, outcome))
    {
      if outcome == Reached {
        redis := None;
      }
      tasks := tasks[k := Ended];
    }
  }
}
