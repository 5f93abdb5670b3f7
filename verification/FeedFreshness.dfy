/**
 When the cache serves what it stored, and how old that is: a call returns what the origin served
 at an answer to the call itself, or at one that came no earlier than ttlMs before the call read the
 cache.
 */
module FeedFreshness {
  import opened FeedCache
  import opened Utf16
  import opened Wrappers

  // ---------- One read ----------

  /** The step with which a call has read the cache. */
  predicate EndsReading(s: State, ev: Event) {
    ev.ReadFile? || (ev.ReadRedis? && ev.outcome == Reached && s.redis.Some?)
  }

  /** The entry it has found. */
  function FoundEntry(s: State, ev: Event): Option<Entry>
    requires EndsReading(s, ev)
  {
    if ev.ReadRedis? then s.redis else if ev.readable then s.file else None
  }

  /** No task has the number that the next one gets. */
  ghost predicate Numbered(s: State) {
    forall k :: k in s.tasks ==> k < s.next
  }

  /**
   A call that has read the cache returns some data exactly when the entry it has found holds that
   data and is no older than ttlMs.
   */
  lemma ServedExactlyWhen(o: Origin, ttlMs: int, s: State, ev: Event, data: Text)
    requires Enabled(o, s, ev) && EndsReading(s, ev) && Numbered(s)
    ensures var e, served := FoundEntry(s, ev), Next(o, ttlMs, s, ev).tasks[ev.task] == Returned(data);
      served <==> e.Some? && e.value.data == data && ev.now - e.value.fetchedAt <= ttlMs
  {
  }

  /** Then one revalidation with the etag of that entry is under way; otherwise the call awaits the origin. */
  lemma ReadGoesOn(o: Origin, ttlMs: int, s: State, ev: Event)
    requires Enabled(o, s, ev) && EndsReading(s, ev) && Numbered(s)
    ensures var e, n := FoundEntry(s, ev), Next(o, ttlMs, s, ev);
      var redis := ev.ReadRedis? || s.tasks[ev.task].redis;
      && n.redis == s.redis && n.file == s.file && n.version == s.version
      && (n.tasks[ev.task].Returned? ==>
            && e.Some? && n.next == s.next + 1
            && n.tasks == s.tasks[ev.task := Returned(e.value.data)][s.next := Revalidating(redis, e.value.etag)])
      && (!n.tasks[ev.task].Returned? ==>
            n.next == s.next && n.tasks == s.tasks[ev.task := Fetching(redis, e, ev.now)])
  {
  }

  /** A request is conditional exactly when the entry at hand has an etag that is not empty, and then on that etag. */
  lemma ConditionMeans(t: Task, etag: Text)
    ensures Condition(t) == Some(etag) <==> (
      && etag != []
      && ((t.Fetching? && t.entry.Some? && t.entry.value.etag == Some(etag))
          || (t.Revalidating? && t.etag == Some(etag))))
  {
  }

  // ---------- One answer ----------

  /** The answer to a call and its writes, when both stores are reached. */
  function AnswerAndWrites(k: nat, redis: bool, response: Response, now: int): seq<Event> {
    [Respond(k, response, now)] + ((if redis then [WriteRedis(k, Reached)] else []) + [WriteFile(k, true)])
  }

  lemma TwoSteps(o: Origin, ttlMs: int, s: State, a: Event, b: Event)
    requires Enabled(o, s, a) && Enabled(o, Next(o, ttlMs, s, a), b)
    ensures ValidRun(o, ttlMs, s, [a] + ([] + [b]))
    ensures Run(o, ttlMs, s, [a] + ([] + [b])) == Next(o, ttlMs, Next(o, ttlMs, s, a), b)
  {
    var none: seq<Event> := [];
    Prepend(o, ttlMs, Next(o, ttlMs, s, a), b, none);
    Prepend(o, ttlMs, s, a, [b]);
    assert none + [b] == [b] && [b] + none == [b];
  }

  lemma ThreeSteps(o: Origin, ttlMs: int, s: State, a: Event, b: Event, c: Event)
    requires Enabled(o, s, a) && Enabled(o, Next(o, ttlMs, s, a), b)
    requires Enabled(o, Next(o, ttlMs, Next(o, ttlMs, s, a), b), c)
    ensures ValidRun(o, ttlMs, s, [a] + ([b] + [c]))
    ensures Run(o, ttlMs, s, [a] + ([b] + [c])) == Next(o, ttlMs, Next(o, ttlMs, Next(o, ttlMs, s, a), b), c)
  {
    var none: seq<Event> := [];
    TwoSteps(o, ttlMs, Next(o, ttlMs, s, a), b, c);
    assert [b] + (none + [c]) == [b] + [c];
    Prepend(o, ttlMs, s, a, [b] + [c]);
  }

  /**
   A call that was not served stores what the origin answers, new data or on a 304 what it had
   found, under the time of its read, in every store it uses, and returns it.
   */
  lemma FetchStores(o: Origin, ttlMs: int, s: State, k: nat, response: Response, now: int) returns (written: Entry)
    requires k in s.tasks && s.tasks[k].Fetching? && !response.Rejected? && Enabled(o, s, Respond(k, response, now))
    ensures written.fetchedAt == s.tasks[k].now
    ensures response.NotModified? ==> s.tasks[k].entry == Some(written.(fetchedAt := s.tasks[k].entry.value.fetchedAt))
    ensures response.Fresh? ==> written.data == o.data(s.version)
    ensures response == Fresh(true) ==> written.etag == Some(o.etag(s.version))
    ensures response == Fresh(false) ==>
      written.etag == if s.tasks[k].entry.Some? then s.tasks[k].entry.value.etag else None
    ensures var run := AnswerAndWrites(k, s.tasks[k].redis, response, now);
      && ValidRun(o, ttlMs, s, run)
      && Run(o, ttlMs, s, run) == State(if s.tasks[k].redis then Some(written) else s.redis, Some(written),
           s.tasks[k := Returned(written.data)], s.next, s.version)
  {
    var answer := Respond(k, response, now);
    var t := Next(o, ttlMs, s, answer).tasks[k];
    written := t.written;
    if s.tasks[k].redis {
      ThreeSteps(o, ttlMs, s, answer, WriteRedis(k, Reached), WriteFile(k, true));
      assert s.tasks[k := t][k := WritingFile(written, true)][k := Returned(written.data)]
          == s.tasks[k := Returned(written.data)];
    } else {
      TwoSteps(o, ttlMs, s, answer, WriteFile(k, true));
      assert s.tasks[k := t][k := Returned(written.data)] == s.tasks[k := Returned(written.data)];
    }
  }

  /** A revalidation stores new data with its own etag under the time of the answer, and nothing on a 304. */
  lemma RevalidationStores(o: Origin, ttlMs: int, s: State, k: nat, sendsEtag: bool, now: int) returns (written: Entry)
    requires k in s.tasks && s.tasks[k].Revalidating?
    ensures written == Entry(now, o.data(s.version), if sendsEtag then Some(o.etag(s.version)) else None)
    ensures var run := AnswerAndWrites(k, s.tasks[k].redis, Fresh(sendsEtag), now);
      && ValidRun(o, ttlMs, s, run)
      && Run(o, ttlMs, s, run) == State(if s.tasks[k].redis then Some(written) else s.redis, Some(written),
           s.tasks[k := Ended], s.next, s.version)
    ensures Enabled(o, s, Respond(k, NotModified, now)) ==>
      Next(o, ttlMs, s, Respond(k, NotModified, now)) == s.(tasks := s.tasks[k := Ended])
  {
    var answer := Respond(k, Fresh(sendsEtag), now);
    var t := Next(o, ttlMs, s, answer).tasks[k];
    written := t.written;
    if s.tasks[k].redis {
      ThreeSteps(o, ttlMs, s, answer, WriteRedis(k, Reached), WriteFile(k, true));
      assert s.tasks[k := t][k := WritingFile(written, false)][k := Ended] == s.tasks[k := Ended];
    } else {
      TwoSteps(o, ttlMs, s, answer, WriteFile(k, true));
      assert s.tasks[k := t][k := Ended] == s.tasks[k := Ended];
    }
  }

  /** A call on empty stores asks them one after the other and then fills every one of them with the answer. */
  lemma FirstCallFills(o: Origin, ttlMs: int, s: State, redis: bool, sendsEtag: bool, started: int, now: int)
      returns (steps: seq<Event>, written: Entry)
    requires ttlMs > 0 && s.redis == None && s.file == None
    ensures steps == [Call(redis)]
      + ((if redis then [ReadRedis(s.next, Reached, started)] else []) + [ReadFile(s.next, true, started)])
    ensures written.fetchedAt == started && written.data == o.data(s.version)
    ensures var run := steps + AnswerAndWrites(s.next, redis, Fresh(sendsEtag), now);
      && ValidRun(o, ttlMs, s, run)
      && Run(o, ttlMs, s, run).file == Some(written)
      && Run(o, ttlMs, s, run).redis == (if redis then Some(written) else None)
      && s.next in Run(o, ttlMs, s, run).tasks
      && Run(o, ttlMs, s, run).tasks[s.next] == Returned(written.data)
  {
    var k := s.next;
    var file, answer := ReadFile(k, true, started), AnswerAndWrites(k, redis, Fresh(sendsEtag), now);
    var called := Next(o, ttlMs, s, Call(redis));
    var asked := if redis then Next(o, ttlMs, called, ReadRedis(k, Reached, started)) else called;
    var waiting := Next(o, ttlMs, asked, file);
    assert waiting.tasks[k] == Fetching(redis, None, started);
    written := FetchStores(o, ttlMs, waiting, k, Fresh(sendsEtag), now);
    Prepend(o, ttlMs, asked, file, answer);
    if redis {
      Prepend(o, ttlMs, called, ReadRedis(k, Reached, started), [file] + answer);
      Prepend(o, ttlMs, s, Call(redis), [ReadRedis(k, Reached, started)] + ([file] + answer));
      steps := [Call(redis)] + ([ReadRedis(k, Reached, started)] + [file]);
      assert steps + answer == [Call(redis)] + ([ReadRedis(k, Reached, started)] + ([file] + answer));
    } else {
      Prepend(o, ttlMs, s, Call(redis), [file] + answer);
      steps := [Call(redis)] + ([] + [file]);
      assert steps + answer == [Call(redis)] + ([file] + answer);
    }
  }

  /** A store changes only when it is reached or loses its entry, and a call that met an exception has ended. */
  lemma FailuresTouchNothing(o: Origin, ttlMs: int, s: State, ev: Event)
    requires Enabled(o, s, ev)
    ensures var n := Next(o, ttlMs, s, ev);
      && (n.redis != s.redis ==>
            ev.LoseRedis? || ((ev.WriteRedis? || ev.RedisCleared?) && ev.outcome == Reached))
      && (n.file != s.file ==>
            ev.LoseFile? || (ev.WriteFile? && ev.ok) || (ev.FileCleared? && ev.outcome == Reached))
      && ((ev.ReadRedis? || ev.WriteRedis?) && ev.outcome == Thrown ==> n.tasks == s.tasks[ev.task := Ended])
      && (ev.Respond? && ev.response.Rejected? ==> n == s.(tasks := s.tasks[ev.task := Ended]))
  {
  }

  /** Clearing empties every store it reaches. */
  lemma ClearEmpties(o: Origin, ttlMs: int, s: State)
    ensures var run := [Clear(true)] + ([FileCleared(s.next, Reached)] + [RedisCleared(s.next, Reached)]);
      && ValidRun(o, ttlMs, s, run)
      && Run(o, ttlMs, s, run).file == None && Run(o, ttlMs, s, run).redis == None
    ensures var run := [Clear(false)] + ([] + [FileCleared(s.next, Reached)]);
      && ValidRun(o, ttlMs, s, run)
      && Run(o, ttlMs, s, run).file == None && Run(o, ttlMs, s, run).redis == s.redis
  {
    ThreeSteps(o, ttlMs, s, Clear(true), FileCleared(s.next, Reached), RedisCleared(s.next, Reached));
    TwoSteps(o, ttlMs, s, Clear(false), FileCleared(s.next, Reached));
  }

  /** Stores are empty and no call is to fill them. */
  ghost predicate Uncached(s: State) {
    && s.redis == None && s.file == None
    && forall k :: k in s.tasks ==>
         var t := s.tasks[k];
         t.Direct? || t.Returned? || t.Ended? || t.ClearingFile? || t.ClearingRedis?
  }

  /** Without a positive ttlMs nothing is ever stored or read. */
  lemma {:induction false} NothingCached(o: Origin, ttlMs: int, s: State, events: seq<Event>)
    requires ttlMs <= 0 && ValidRun(o, ttlMs, s, events) && Uncached(s)
    ensures Uncached(Run(o, ttlMs, s, events))
    decreases |events|
  {
    if events != [] { NothingCached(o, ttlMs, Next(o, ttlMs, s, events[0]), events[1..]); }
  }

  /** With one every call reads the cache before it asks the origin. */
  lemma CallReads(o: Origin, ttlMs: int, s: State, redis: bool)
    requires ttlMs > 0
    ensures var t := Next(o, ttlMs, s, Call(redis)).tasks[s.next];
      (redis ==> t == ReadingRedis) && (!redis ==> t == ReadingFile(false))
  {
  }

  // ---------- What a run has seen ----------

  /** An answer of the origin: when it came, what was current then, and whose request it answered. */
  datatype Answer = Answer(at: int, data: Text, task: nat)

  datatype Look = Look(at: int, found: Option<Entry>)

  datatype History = History(clock: int, answers: set<Answer>, looks: map<nat, Look>)

  function Beginning(clock: int): History {
    History(clock, {}, map[])
  }

  /** Both new data and a 304 are answers; a request that throws is none. */
  function NextHistory(o: Origin, s: State, h: History, ev: Event): History {
    match ev
    case Respond(k, response, now) =>
      h.(clock := now,
         answers := if response.Rejected? then h.answers else h.answers + {Answer(now, o.data(s.version), k)})
    case ReadRedis(k, _, now) =>
      h.(clock := now, looks := if EndsReading(s, ev) then h.looks[k := Look(now, FoundEntry(s, ev))] else h.looks)
    case ReadFile(k, _, now) => h.(clock := now, looks := h.looks[k := Look(now, FoundEntry(s, ev))])
    case _ => h
  }

  ghost function RunHistory(o: Origin, ttlMs: int, s: State, h: History, events: seq<Event>): History
    requires ValidRun(o, ttlMs, s, events)
    decreases |events|
  {
    if events == [] then h
    else RunHistory(o, ttlMs, Next(o, ttlMs, s, events[0]), NextHistory(o, s, h, events[0]), events[1..])
  }

  ghost predicate Answered(h: History, k: nat) {
    exists a :: a in h.answers && a.task == k
  }

  ghost predicate AnsweredWith(h: History, k: nat, data: Text) {
    exists a :: a in h.answers && a.task == k && a.data == data
  }

  /** The call has found such an entry, no older than ttlMs. */
  predicate ReadFresh(ttlMs: int, h: History, k: nat, data: Text) {
    && k in h.looks && h.looks[k].found.Some?
    && h.looks[k].found.value.data == data
    && h.looks[k].at - h.looks[k].found.value.fetchedAt <= ttlMs
  }

  predicate Foreground(t: Task) {
    (t.WritingRedis? || t.WritingFile?) && t.foreground
  }

  // ---------- Fresh by its own clock ----------

  ghost predicate TaskServed(ttlMs: int, h: History, k: nat, t: Task) {
    && (Foreground(t) ==> Answered(h, k))
    && (t.Returned? ==> Answered(h, k) || ReadFresh(ttlMs, h, k, t.data))
  }

  ghost predicate Served(ttlMs: int, s: State, h: History) {
    Numbered(s) && forall k :: k in s.tasks ==> TaskServed(ttlMs, h, k, s.tasks[k])
  }

  lemma StepServed(o: Origin, ttlMs: int, s: State, h: History, ev: Event)
    requires Enabled(o, s, ev) && Served(ttlMs, s, h)
    ensures Served(ttlMs, Next(o, ttlMs, s, ev), NextHistory(o, s, h, ev))
  {
    var n, h' := Next(o, ttlMs, s, ev), NextHistory(o, s, h, ev);
    forall k | k in n.tasks ensures TaskServed(ttlMs, h', k, n.tasks[k]) {
      if ev.Respond? && ev.task == k {
        if !ev.response.Rejected? { assert Answer(ev.now, o.data(s.version), k) in h'.answers; }
      } else if k in s.tasks {
        assert TaskServed(ttlMs, h, k, s.tasks[k]);
      }
    }
  }

  /** Every call that returned without an answer of its own was served an entry no older than ttlMs. */
  lemma {:induction false} RunServed(o: Origin, ttlMs: int, s: State, h: History, events: seq<Event>)
    requires ValidRun(o, ttlMs, s, events) && Served(ttlMs, s, h)
    ensures Served(ttlMs, Run(o, ttlMs, s, events), RunHistory(o, ttlMs, s, h, events))
    decreases |events|
  {
    if events != [] {
      StepServed(o, ttlMs, s, h, events[0]);
      RunServed(o, ttlMs, Next(o, ttlMs, s, events[0]), NextHistory(o, s, h, events[0]), events[1..]);
    }
  }

  // ---------- Fresh by what the origin served ----------

  /** The origin served the data of the entry at an answer no earlier than the entry's own time. */
  ghost predicate Witnessed(h: History, e: Entry) {
    exists a :: a in h.answers && a.data == e.data && a.at >= e.fetchedAt
  }

  ghost predicate WitnessedOption(h: History, e: Option<Entry>) {
    e.Some? ==> Witnessed(h, e.value)
  }

  ghost predicate TaskWitnessed(h: History, k: nat, t: Task) {
    && (t.ReadingRedis? || t.ReadingFile? || AwaitsResponse(t) ==> !Answered(h, k))
    && (t.Fetching? ==> WitnessedOption(h, t.entry) && t.now <= h.clock)
    && (t.WritingRedis? || t.WritingFile? ==> Witnessed(h, t.written))
    && (Foreground(t) ==> AnsweredWith(h, k, t.written.data))
    && (t.Returned? && Answered(h, k) ==> AnsweredWith(h, k, t.data))
  }

  /** Everything stored, held or found is what the origin served at some answer in time. */
  ghost predicate AllWitnessed(s: State, h: History) {
    && WitnessedOption(h, s.redis) && WitnessedOption(h, s.file)
    && (forall k :: k in s.tasks ==> TaskWitnessed(h, k, s.tasks[k]))
    && (forall k :: k in h.looks ==> WitnessedOption(h, h.looks[k].found))
    && (forall a :: a in h.answers ==> a.task in s.tasks)
  }

  /** The clock does not run backwards. */
  ghost predicate OnTime(h: History, ev: Event) {
    ev.ReadRedis? || ev.ReadFile? || ev.Respond? ==> h.clock <= ev.now
  }

  ghost predicate Ordered(o: Origin, ttlMs: int, s: State, h: History, events: seq<Event>)
    requires ValidRun(o, ttlMs, s, events)
    decreases |events|
  {
    events == []
    || (OnTime(h, events[0])
        && Ordered(o, ttlMs, Next(o, ttlMs, s, events[0]), NextHistory(o, s, h, events[0]), events[1..]))
  }

  lemma MoreWitnesses(h: History, h': History)
    requires h.answers <= h'.answers
    ensures forall e :: Witnessed(h, e) ==> Witnessed(h', e)
    ensures forall k, data :: AnsweredWith(h, k, data) ==> AnsweredWith(h', k, data)
  {
  }

  /** What a call makes of an answer it gets. */
  lemma AnswerWitnessed(o: Origin, s: State, h: History, ev: Event)
    requires Honest(o) && Coherent(o, s) && Enabled(o, s, ev) && ev.Respond? && OnTime(h, ev)
    requires AllWitnessed(s, h)
    ensures TaskWitnessed(NextHistory(o, s, h, ev), ev.task, AfterResponse(o, s, s.tasks[ev.task], ev.response, ev.now))
  {
    var h', t := NextHistory(o, s, h, ev), s.tasks[ev.task];
    assert TaskPaired(o, t) && TaskWitnessed(h, ev.task, t);
    var a := Answer(ev.now, o.data(s.version), ev.task);
    if !ev.response.Rejected? {
      assert a in h'.answers;
    }
  }

  lemma OthersUnanswered(o: Origin, s: State, h: History, ev: Event, k: nat)
    requires !(ev.Respond? && ev.task == k)
    ensures Answered(NextHistory(o, s, h, ev), k) <==> Answered(h, k)
  {
  }

  lemma KeptWitnessed(h: History, h': History, k: nat, t: Task)
    requires TaskWitnessed(h, k, t) && h.answers <= h'.answers && h.clock <= h'.clock
    requires Answered(h', k) <==> Answered(h, k)
    ensures TaskWitnessed(h', k, t)
  {
    MoreWitnesses(h, h');
  }

  /** The task of an event that is no answer goes on with an entry that is witnessed. */
  lemma StepperWitnessed(o: Origin, ttlMs: int, s: State, h: History, ev: Event, k: nat)
    requires Numbered(s) && Enabled(o, s, ev) && !ev.Respond? && OnTime(h, ev) && AllWitnessed(s, h)
    requires k in Next(o, ttlMs, s, ev).tasks && (k in s.tasks ==> Next(o, ttlMs, s, ev).tasks[k] != s.tasks[k])
    ensures TaskWitnessed(NextHistory(o, s, h, ev), k, Next(o, ttlMs, s, ev).tasks[k])
  {
    OthersUnanswered(o, s, h, ev, k);
    MoreWitnesses(h, NextHistory(o, s, h, ev));
    if k in s.tasks {
      assert TaskWitnessed(h, k, s.tasks[k]);
    }
  }

  lemma OthersWitnessed(o: Origin, ttlMs: int, s: State, h: History, ev: Event, k: nat)
    requires Numbered(s) && Enabled(o, s, ev) && OnTime(h, ev) && AllWitnessed(s, h)
    requires k in Next(o, ttlMs, s, ev).tasks && !(ev.Respond? && ev.task == k)
    ensures TaskWitnessed(NextHistory(o, s, h, ev), k, Next(o, ttlMs, s, ev).tasks[k])
  {
    if k in s.tasks && Next(o, ttlMs, s, ev).tasks[k] == s.tasks[k] {
      OthersUnanswered(o, s, h, ev, k);
      KeptWitnessed(h, NextHistory(o, s, h, ev), k, s.tasks[k]);
    } else {
      StepperWitnessed(o, ttlMs, s, h, ev, k);
    }
  }

  lemma StepWitnessed(o: Origin, ttlMs: int, s: State, h: History, ev: Event)
    requires Honest(o) && Coherent(o, s) && Enabled(o, s, ev) && OnTime(h, ev) && AllWitnessed(s, h)
    ensures AllWitnessed(Next(o, ttlMs, s, ev), NextHistory(o, s, h, ev))
  {
    var n, h' := Next(o, ttlMs, s, ev), NextHistory(o, s, h, ev);
    MoreWitnesses(h, h');
    forall k | k in n.tasks ensures TaskWitnessed(h', k, n.tasks[k]) {
      if ev.Respond? && ev.task == k {
        AnswerWitnessed(o, s, h, ev);
      } else {
        OthersWitnessed(o, ttlMs, s, h, ev, k);
      }
    }
    if ev.WriteRedis? || ev.WriteFile? {
      assert TaskWitnessed(h, ev.task, s.tasks[ev.task]);
    }
  }

  lemma {:induction false} RunWitnessed(o: Origin, ttlMs: int, s: State, h: History, events: seq<Event>)
    requires Honest(o) && ValidRun(o, ttlMs, s, events) && CoherentThroughout(o, ttlMs, s, events)
    requires Ordered(o, ttlMs, s, h, events) && AllWitnessed(s, h)
    ensures AllWitnessed(Run(o, ttlMs, s, events), RunHistory(o, ttlMs, s, h, events))
    decreases |events|
  {
    if events != [] {
      StepWitnessed(o, ttlMs, s, h, events[0]);
      RunWitnessed(o, ttlMs, Next(o, ttlMs, s, events[0]), NextHistory(o, s, h, events[0]), events[1..]);
    }
  }

  /**
   Staleness is bounded: against an honest origin, in every run whose clock does not run backwards and
   whose answers without etag bring nothing new, what a call returned is what the origin served at
   an answer to that call, or at an answer no earlier than ttlMs before the call read the cache.
   */
  lemma StalenessBounded(o: Origin, ttlMs: int, clock: int, events: seq<Event>, k: nat)
    requires Honest(o) && ValidRun(o, ttlMs, EMPTY, events) && NeverBringsNew(o, ttlMs, EMPTY, events)
    requires Ordered(o, ttlMs, EMPTY, Beginning(clock), events)
    requires var s := Run(o, ttlMs, EMPTY, events); k in s.tasks && s.tasks[k].Returned?
    ensures var t, h := Run(o, ttlMs, EMPTY, events).tasks[k],
      RunHistory(o, ttlMs, EMPTY, Beginning(clock), events);
      exists a :: a in h.answers && a.data == t.data
        && (a.task == k || (k in h.looks && a.at >= h.looks[k].at - ttlMs))
  {
    RunKeepsPairingExactlyWhen(o, ttlMs, EMPTY, events);
    RunServed(o, ttlMs, EMPTY, Beginning(clock), events);
    RunWitnessed(o, ttlMs, EMPTY, Beginning(clock), events);
    var s, h := Run(o, ttlMs, EMPTY, events), RunHistory(o, ttlMs, EMPTY, Beginning(clock), events);
    assert TaskServed(ttlMs, h, k, s.tasks[k]) && TaskWitnessed(h, k, s.tasks[k]);
    if !Answered(h, k) {
      assert WitnessedOption(h, h.looks[k].found);
      var a :| a in h.answers && a.data == h.looks[k].found.value.data && a.at >= h.looks[k].found.value.fetchedAt;
    }
  }
}
