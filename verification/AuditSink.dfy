/**
 The audit sink's concurrent appends. An append first awaits the encryption of its entry and
 then joins a chain of writes, each of which starts when the one before it has settled.
 */
module AuditSink {
  import opened AuditLog
  import opened Buffers
  import opened Sequences
  import opened Utf16
  import opened Wrappers
  import AesGcm
  import Base64
  import Compress
  import Json

  /** A write that fails leaves the file as it is. */
  function Appended(file: Option<Text>, line: Text, ok: bool): Option<Text> {
    if ok then Some(file.GetOr([]) + line + [LINE_FEED]) else file
  }

  class Sink {
    const platform: Platform
    const options: Options
    /** The file at the sink's path; None before the first write. */
    var file: Option<Text>
    /** The lines whose writes have not settled. */
    var chain: seq<Text>

    constructor (platform: Platform, options: Options, file: Option<Text>)
      ensures this.platform == platform && this.options == options
      ensures this.file == file && chain == []
    {
      this.platform := platform;
      this.options := options;
      this.file := file;
      chain := [];
    }

    /** What an append does once its entry is encrypted. */
    method Append(entry: Json.Tree, iv: Bytes)
      requires AesGcm.Sealing(platform.cipher)
      modifies this`chain
      ensures chain == old(chain) + [LineFor(platform, Compression(options), entry, iv)]
    {
      var envelope := AesGcm.EncryptText(platform.cipher, platform.codec, iv, Json.Print(entry));
      var payload := platform.codec.encode(Json.Print(EnvelopeTree(envelope)));
      if options.compress {
        var packed := Compress.CompressBytes(platform.compressors, payload, options.compressionFormat);
        payload := packed[..];
      }
      chain := chain + [Base64.Encode(payload)];
    }

    /** The oldest write of the chain settles. */
    method Settle(ok: bool)
      requires chain != []
      modifies this
      ensures file == Appended(old(file), old(chain[0]), ok)
      ensures chain == old(chain[1..])
    {
      if ok {
        file := Some(file.GetOr([]) + chain[0] + [LINE_FEED]);
      }
      chain := chain[1..];
    }

    method Stored() returns (entries: seq<Json.Tree>)
      ensures entries == Entries(platform, options.compress, file.GetOr([]))
    {
      entries := ReadAll(platform, options.compress, file);
    }
  }

  // ---------- Runs ----------

  /** calls are the entries still being encrypted. */
  datatype State = State(file: Option<Text>, calls: multiset<Json.Tree>, chain: seq<Text>)

  datatype Event =
    | Called(entry: Json.Tree)
    | Encrypted(entry: Json.Tree, iv: Bytes)
    | Settled(ok: bool)

  predicate Enabled(s: State, e: Event) {
    match e
    case Called(_) => true
    case Encrypted(entry, _) => entry in s.calls
    case Settled(_) => s.chain != []
  }

  function Next(p: Platform, o: Options, s: State, e: Event): State
    requires AesGcm.Sealing(p.cipher) && Enabled(s, e)
  {
    match e
    case Called(entry) => s.(calls := s.calls + multiset{entry})
    case Encrypted(entry, iv) =>
      s.(calls := s.calls - multiset{entry}, chain := s.chain + [LineFor(p, Compression(o), entry, iv)])
    case Settled(ok) => s.(file := Appended(s.file, s.chain[0], ok), chain := s.chain[1..])
  }

  /** The state after a run; None when some event was not enabled. */
  function After(p: Platform, o: Options, s: State, events: seq<Event>): Option<State>
    requires AesGcm.Sealing(p.cipher)
  {
    if events == [] then Some(s)
    else
      var before, last := After(p, o, s, events[..|events| - 1]), events[|events| - 1];
      if before.Some? && Enabled(before.value, last) then Some(Next(p, o, before.value, last)) else None
  }

  predicate Idle(s: State) {
    s.calls == multiset{} && s.chain == []
  }

  function CalledBy(e: Event): seq<Json.Tree> {
    if e.Called? then [e.entry] else []
  }

  function EnqueuedBy(o: Options, e: Event): seq<Line> {
    if e.Encrypted? then [Written(e.entry, e.iv, Compression(o))] else []
  }

  function Enqueuer(o: Options): Event -> seq<Line> {
    e => EnqueuedBy(o, e)
  }

  function OutcomeOf(e: Event): seq<bool> {
    if e.Settled? then [e.ok] else []
  }

  /** The entries that append was called with, in call order. */
  function CalledEntries(events: seq<Event>): seq<Json.Tree> {
    FlatMap(CalledBy, events)
  }

  /** The lines that joined the chain, in that order. */
  function Enqueued(o: Options, events: seq<Event>): seq<Line> {
    FlatMap(Enqueuer(o), events)
  }

  /** How the writes settled, oldest first. */
  function Outcomes(events: seq<Event>): seq<bool> {
    FlatMap(OutcomeOf, events)
  }

  /** The items whose write succeeded, in order. */
  function Succeeded<T>(items: seq<T>, outcomes: seq<bool>): seq<T>
    requires |outcomes| <= |items|
  {
    if outcomes == [] then []
    else
      var n := |outcomes| - 1;
      Succeeded(items, outcomes[..n]) + if outcomes[n] then [items[n]] else []
  }

  function Texts(p: Platform, lines: seq<Line>): seq<Text>
    requires AesGcm.Sealing(p.cipher)
  {
    seq(|lines|, i requires 0 <= i < |lines| => LineText(p, lines[i]))
  }

  /** The file, when these lines were added to it. */
  function WithLines(p: Platform, file: Option<Text>, lines: seq<Line>): Option<Text>
    requires AesGcm.Sealing(p.cipher)
  {
    if lines == [] then file else Some(file.GetOr([]) + FileOf(p, lines))
  }

  lemma HistoryNext(o: Options, events: seq<Event>, e: Event)
    ensures CalledEntries(events + [e]) == CalledEntries(events) + CalledBy(e)
    ensures Enqueued(o, events + [e]) == Enqueued(o, events) + EnqueuedBy(o, e)
    ensures Outcomes(events + [e]) == Outcomes(events) + OutcomeOf(e)
  {
    FlatMapNext(CalledBy, events, e);
    FlatMapNext(Enqueuer(o), events, e);
    FlatMapNext(OutcomeOf, events, e);
  }

  /** Later items do not change which of the earlier ones succeeded. */
  lemma {:induction false} SucceededPrefix<T>(items: seq<T>, more: seq<T>, outcomes: seq<bool>)
    requires |outcomes| <= |items|
    ensures Succeeded(items + more, outcomes) == Succeeded(items, outcomes)
  {
    if outcomes != [] { SucceededPrefix(items, more, outcomes[..|outcomes| - 1]); }
  }

  lemma SucceededNext<T>(items: seq<T>, outcomes: seq<bool>, ok: bool)
    requires |outcomes| < |items|
    ensures Succeeded(items, outcomes + [ok])
      == Succeeded(items, outcomes) + if ok then [items[|outcomes|]] else []
  {
    assert (outcomes + [ok])[..|outcomes|] == outcomes;
  }

  lemma WithOneMore(p: Platform, file: Option<Text>, lines: seq<Line>, line: Line)
    requires AesGcm.Sealing(p.cipher)
    ensures WithLines(p, file, lines + [line]) == Appended(WithLines(p, file, lines), LineText(p, line), true)
  {
    assert (lines + [line])[..|lines|] == lines;
    var start, body, t := file.GetOr([]), FileOf(p, lines), LineText(p, line);
    Extend(start, body, start + body, t + [LINE_FEED]);
    assert body + t + [LINE_FEED] == body + (t + [LINE_FEED]);
    assert start + body + t + [LINE_FEED] == start + body + (t + [LINE_FEED]);
    if lines == [] { assert start + body == start; }
  }

  /** What every run from an idle sink has done. */
  ghost predicate Consistent(p: Platform, o: Options, s0: State, events: seq<Event>, s: State)
    requires AesGcm.Sealing(p.cipher)
  {
    var lines, outcomes := Enqueued(o, events), Outcomes(events);
    && |outcomes| <= |lines|
    && s.file == WithLines(p, s0.file, Succeeded(lines, outcomes))
    && s.chain == Texts(p, lines[|outcomes|..])
  }

  lemma EncryptedKeeps(p: Platform, o: Options, s0: State, events: seq<Event>, s: State, e: Event)
    requires AesGcm.Sealing(p.cipher) && Consistent(p, o, s0, events, s)
    requires e.Encrypted? && Enabled(s, e)
    ensures Consistent(p, o, s0, events + [e], Next(p, o, s, e))
  {
    HistoryNext(o, events, e);
    var lines, outcomes := Enqueued(o, events), Outcomes(events);
    var line := Written(e.entry, e.iv, Compression(o));
    assert outcomes + [] == outcomes;
    SucceededPrefix(lines, [line], outcomes);
    DropThenAdd(lines, |outcomes|, line);
    TextsNext(p, lines[|outcomes|..], line);
  }

  lemma DropThenAdd<T>(s: seq<T>, n: nat, x: T)
    requires n <= |s|
    ensures (s + [x])[n..] == s[n..] + [x]
  {
  }

  lemma TextsNext(p: Platform, lines: seq<Line>, line: Line)
    requires AesGcm.Sealing(p.cipher)
    ensures Texts(p, lines + [line]) == Texts(p, lines) + [LineText(p, line)]
  {
    var all, ends := Texts(p, lines + [line]), Texts(p, lines) + [LineText(p, line)];
    assert |all| == |ends| && forall i :: 0 <= i < |all| ==> all[i] == ends[i];
  }

  /** What a settled write makes of the file. */
  lemma FileAfterWrite(p: Platform, file: Option<Text>, lines: seq<Line>, outcomes: seq<bool>, ok: bool)
    requires AesGcm.Sealing(p.cipher) && |outcomes| < |lines|
    ensures WithLines(p, file, Succeeded(lines, outcomes + [ok]))
      == Appended(WithLines(p, file, Succeeded(lines, outcomes)), LineText(p, lines[|outcomes|]), ok)
  {
    var kept := Succeeded(lines, outcomes);
    SucceededNext(lines, outcomes, ok);
    if ok {
      WithOneMore(p, file, kept, lines[|outcomes|]);
    } else {
      assert kept + [] == kept;
    }
  }

  lemma SettledKeeps(p: Platform, o: Options, s0: State, events: seq<Event>, s: State, e: Event)
    requires AesGcm.Sealing(p.cipher) && Consistent(p, o, s0, events, s)
    requires e.Settled? && Enabled(s, e)
    ensures Consistent(p, o, s0, events + [e], Next(p, o, s, e))
  {
    HistoryNext(o, events, e);
    var lines, outcomes := Enqueued(o, events), Outcomes(events);
    assert lines + [] == lines;
    OldestLine(p, lines, |outcomes|);
    FileAfterWrite(p, s0.file, lines, outcomes, e.ok);
  }

  lemma Dropped<T>(s: seq<T>, n: nat)
    requires n < |s|
    ensures s[n..] == [s[n]] + s[n + 1..]
  {
  }

  lemma OldestLine(p: Platform, lines: seq<Line>, n: nat)
    requires AesGcm.Sealing(p.cipher) && n < |lines|
    ensures Texts(p, lines[n..])[0] == LineText(p, lines[n])
    ensures Texts(p, lines[n..])[1..] == Texts(p, lines[n + 1..])
  {
    Dropped(lines, n);
    var older, newer := Texts(p, lines[n..])[1..], Texts(p, lines[n + 1..]);
    assert |older| == |newer| && forall i :: 0 <= i < |newer| ==> older[i] == newer[i];
  }

  lemma CalledKeeps(p: Platform, o: Options, s0: State, events: seq<Event>, s: State, e: Event)
    requires AesGcm.Sealing(p.cipher) && Consistent(p, o, s0, events, s)
    requires e.Called?
    ensures Consistent(p, o, s0, events + [e], Next(p, o, s, e))
  {
    HistoryNext(o, events, e);
    assert Enqueued(o, events) + [] == Enqueued(o, events) && Outcomes(events) + [] == Outcomes(events);
  }

  /**
   After any run the file holds, in enqueue order, exactly the lines whose writes succeeded, and
   the chain holds the lines enqueued after the last settled one.
   */
  lemma {:induction false} RunConsistent(p: Platform, o: Options, s0: State, events: seq<Event>)
    requires AesGcm.Sealing(p.cipher) && Idle(s0)
    requires After(p, o, s0, events).Some?
    ensures Consistent(p, o, s0, events, After(p, o, s0, events).value)
  {
    if events != [] {
      var init, last := events[..|events| - 1], events[|events| - 1];
      RunConsistent(p, o, s0, init);
      var s := After(p, o, s0, init).value;
      LastApart([], events);
      match last {
        case Called(_) => CalledKeeps(p, o, s0, init, s, last);
        case Encrypted(_, _) => EncryptedKeeps(p, o, s0, init, s, last);
        case Settled(_) => SettledKeeps(p, o, s0, init, s, last);
      }
    }
  }

  // ---------- What is read back ----------

  ghost predicate AllStorable(p: Platform, events: seq<Event>) {
    forall i :: 0 <= i < |events| && events[i].Called? ==> Storable(p, events[i].entry)
  }

  ghost predicate AllStand(p: Platform, compress: bool, lines: seq<Line>) {
    forall i :: 0 <= i < |lines| ==> lines[i].Written? && Stands(p, compress, lines[i])
  }

  lemma {:induction false} EnqueuedStand(p: Platform, o: Options, compress: bool, s0: State, events: seq<Event>)
    requires AesGcm.Sealing(p.cipher) && Idle(s0) && AllStorable(p, events)
    requires o.compress ==> compress
    requires After(p, o, s0, events).Some?
    ensures forall entry :: entry in After(p, o, s0, events).value.calls ==> Storable(p, entry)
    ensures AllStand(p, compress, Enqueued(o, events))
  {
    if events != [] {
      var init, last := events[..|events| - 1], events[|events| - 1];
      EnqueuedStand(p, o, compress, s0, init);
      LastApart([], events);
      HistoryNext(o, init, last);
    }
  }

  lemma {:induction false} SucceededStand(p: Platform, compress: bool, lines: seq<Line>, outcomes: seq<bool>)
    requires |outcomes| <= |lines| && AllStand(p, compress, lines)
    ensures AllStand(p, compress, Succeeded(lines, outcomes))
  {
    if outcomes != [] { SucceededStand(p, compress, lines, outcomes[..|outcomes| - 1]); }
  }

  /**
   After any run, concurrent or not, a reader that decompresses if the sink compresses finds what
   it found before and then, in enqueue order, the entries whose writes succeeded. A file left
   with part of a line merges that part with the first line added and with no other.
   */
  lemma LogReadsBack(p: Platform, o: Options, compress: bool, s0: State, events: seq<Event>)
    requires Reasonable(p) && Idle(s0) && AllStorable(p, events)
    requires o.compress ==> compress
    requires After(p, o, s0, events).Some?
    ensures |Outcomes(events)| <= |Enqueued(o, events)|
    ensures Entries(p, compress, After(p, o, s0, events).value.file.GetOr([]))
      == Continued(p, compress, s0.file.GetOr([]), Succeeded(Enqueued(o, events), Outcomes(events)))
  {
    RunConsistent(p, o, s0, events);
    EnqueuedStand(p, o, compress, s0, events);
    var lines := Succeeded(Enqueued(o, events), Outcomes(events));
    SucceededStand(p, compress, Enqueued(o, events), Outcomes(events));
    ContinuedBack(p, compress, s0.file.GetOr([]), lines);
  }

  lemma FirstSucceeded(p: Platform, compress: bool, lines: seq<Line>)
    requires Reasonable(p) && lines != [] && AllStand(p, compress, lines)
    ensures LINE_FEED !in LineText(p, lines[0])
  {
    LineBack(p, compress, lines[0]);
  }

  /** The file ends in part of a line. */
  ghost predicate EndsIn(file: Option<Text>, before: Text, partial: Text) {
    file == Some(before + partial) && Terminated(before) && partial != [] && LINE_FEED !in partial
  }

  /**
   When an earlier write had left part of a line, all complete lines and all lines after the
   first one added are still read; the line that merges with that part yields one entry or none.
   */
  lemma PartialLineMerges(p: Platform, o: Options, compress: bool, s0: State, events: seq<Event>,
                          before: Text, partial: Text)
    requires Reasonable(p) && Idle(s0) && AllStorable(p, events)
    requires o.compress ==> compress
    requires EndsIn(s0.file, before, partial) && After(p, o, s0, events).Some?
    ensures |Outcomes(events)| <= |Enqueued(o, events)|
    ensures var lines := Succeeded(Enqueued(o, events), Outcomes(events));
      lines != [] ==>
        var merged := Entries(p, compress, partial + LineText(p, lines[0]));
        && |merged| <= 1
        && Entries(p, compress, After(p, o, s0, events).value.file.GetOr([]))
          == Entries(p, compress, before) + merged + Undamaged(lines[1..])
  {
    LogReadsBack(p, o, compress, s0, events);
    EnqueuedStand(p, o, compress, s0, events);
    SucceededStand(p, compress, Enqueued(o, events), Outcomes(events));
    var lines := Succeeded(Enqueued(o, events), Outcomes(events));
    if lines != [] {
      FirstSucceeded(p, compress, lines);
      NotTerminated(before, partial);
      OneLineMerged(p, compress, before, partial, LineText(p, lines[0]));
    }
  }

  lemma LinesStand(p: Platform, o: Options, compress: bool, s0: State, events: seq<Event>)
    requires AesGcm.Sealing(p.cipher) && Idle(s0) && AllStorable(p, events)
    requires o.compress ==> compress
    requires After(p, o, s0, events).Some? && |Outcomes(events)| <= |Enqueued(o, events)|
    ensures AllStand(p, compress, Succeeded(Enqueued(o, events), Outcomes(events)))
  {
    EnqueuedStand(p, o, compress, s0, events);
    SucceededStand(p, compress, Enqueued(o, events), Outcomes(events));
  }

  /** Nothing is lost behind part of a line exactly when nothing is lost by the first line behind it. */
  lemma RunContinues(p: Platform, o: Options, compress: bool, s0: State, events: seq<Event>,
                     before: Text, partial: Text, lines: seq<Line>)
    requires Reasonable(p) && Idle(s0) && AllStorable(p, events)
    requires o.compress ==> compress
    requires EndsIn(s0.file, before, partial) && After(p, o, s0, events).Some?
    requires |Outcomes(events)| <= |Enqueued(o, events)|
    requires lines == Succeeded(Enqueued(o, events), Outcomes(events)) && lines != []
    ensures lines[0].Written? && Stands(p, compress, lines[0])
    ensures var final := Entries(p, compress, After(p, o, s0, events).value.file.GetOr([]));
      var merged := Entries(p, compress, partial + LineText(p, lines[0]));
      && (final == Entries(p, compress, s0.file.GetOr([])) + Undamaged(lines)
          <==> merged == Entries(p, compress, partial) + [lines[0].entry])
  {
    LogReadsBack(p, o, compress, s0, events);
    LinesStand(p, o, compress, s0, events);
    ReadExactlyWhen(p, compress, before, partial, lines, s0.file.GetOr([]),
      Entries(p, compress, After(p, o, s0, events).value.file.GetOr([])));
  }

  /**
   After any run behind part of a line nothing is lost exactly when decoding finds nothing in
   that part, which opens with no brace, or when the bytes it makes together with the first line
   written decrypt to the entry of that line all the same.
   */
  lemma PartialLineCostsNothingExactlyWhen(p: Platform, o: Options, compress: bool, s0: State, events: seq<Event>,
                                           before: Text, partial: Text, lines: seq<Line>)
    requires Reasonable(p) && StrictJson(p) && Idle(s0) && AllStorable(p, events)
    requires o.compress ==> compress
    requires EndsIn(s0.file, before, partial) && After(p, o, s0, events).Some?
    requires |Outcomes(events)| <= |Enqueued(o, events)|
    requires lines == Succeeded(Enqueued(o, events), Outcomes(events)) && lines != []
    ensures lines[0].Written?
    ensures Entries(p, compress, After(p, o, s0, events).value.file.GetOr([]))
        == Entries(p, compress, s0.file.GetOr([])) + Undamaged(lines)
      <==> AddsNothing(partial) || MergesUnharmed(p, compress, partial, lines[0])
  {
    RunContinues(p, o, compress, s0, events, before, partial, lines);
    PartialCostsNothingExactlyWhen(p, compress, partial, lines[0]);
  }

  /** The file ends in what an append that failed halfway wrote of its line, if anything. */
  ghost predicate TornBy(p: Platform, file: Option<Text>, before: Text, partial: Text, torn: Line)
    requires AesGcm.Sealing(p.cipher)
  {
    && file == Some(before + partial) && Terminated(before)
    && torn.Written? && partial <= LineText(p, torn)
  }

  /**
   After any run behind a torn append nothing is lost exactly when nothing of its line had been
   written, provided the first line written does not decrypt to its entry together with it.
   */
  lemma TornAppendCostsNothingExactlyWhen(p: Platform, o: Options, compress: bool, s0: State, events: seq<Event>,
                                          before: Text, partial: Text, torn: Line, lines: seq<Line>)
    requires Reasonable(p) && StrictJson(p) && Idle(s0) && AllStorable(p, events)
    requires o.compress ==> compress
    requires TornBy(p, s0.file, before, partial, torn) && Stands(p, compress, torn)
    requires After(p, o, s0, events).Some?
    requires |Outcomes(events)| <= |Enqueued(o, events)|
    requires lines == Succeeded(Enqueued(o, events), Outcomes(events)) && lines != []
    requires lines[0].Written? && MergeFails(p, compress, partial, lines[0])
    ensures Entries(p, compress, After(p, o, s0, events).value.file.GetOr([]))
        == Entries(p, compress, s0.file.GetOr([])) + Undamaged(lines)
      <==> partial == []
  {
    TornPrefix(p, compress, partial, torn);
    if partial == [] {
      assert before + partial == before;
      LogReadsBack(p, o, compress, s0, events);
    } else {
      RunContinues(p, o, compress, s0, events, before, partial, lines);
      TornCostsNothingExactlyWhen(p, compress, partial, torn, lines[0]);
    }
  }

  lemma {:induction false} AllSucceeded(lines: seq<Line>, outcomes: seq<bool>)
    requires |outcomes| <= |lines| && forall i :: 0 <= i < |outcomes| ==> outcomes[i]
    ensures Succeeded(lines, outcomes) == lines[..|outcomes|]
  {
    if outcomes != [] { AllSucceeded(lines, outcomes[..|outcomes| - 1]); }
  }

  ghost predicate CallsAdd(o: Options, events: seq<Event>, s: State) {
    multiset(CalledEntries(events)) == s.calls + multiset(Undamaged(Enqueued(o, events)))
  }

  lemma UndamagedNext(lines: seq<Line>, line: Line)
    requires line.Written?
    ensures Undamaged(lines + [line]) == Undamaged(lines) + [line.entry]
  {
    assert (lines + [line])[..|lines|] == lines;
  }

  lemma AddOne<T>(called: seq<T>, pending: multiset<T>, done: seq<T>, x: T)
    requires multiset(called) == pending + multiset(done)
    ensures multiset(called + [x]) == pending + multiset{x} + multiset(done)
  {
    assert multiset(called + [x]) == multiset(called) + multiset{x};
  }

  lemma MoveOne<T>(called: seq<T>, pending: multiset<T>, done: seq<T>, x: T)
    requires multiset(called) == pending + multiset(done) && x in pending
    ensures multiset(called) == pending - multiset{x} + multiset(done + [x])
  {
    assert multiset(done + [x]) == multiset(done) + multiset{x};
  }

  lemma CallsNext(p: Platform, o: Options, events: seq<Event>, s: State, e: Event)
    requires AesGcm.Sealing(p.cipher) && CallsAdd(o, events, s) && Enabled(s, e)
    ensures CallsAdd(o, events + [e], Next(p, o, s, e))
  {
    HistoryNext(o, events, e);
    var called, lines := CalledEntries(events), Enqueued(o, events);
    assert called + [] == called && lines + [] == lines;
    match e {
      case Called(entry) => AddOne(called, s.calls, Undamaged(lines), entry);
      case Encrypted(entry, iv) =>
        UndamagedNext(lines, Written(entry, iv, Compression(o)));
        MoveOne(called, s.calls, Undamaged(lines), entry);
      case Settled(_) =>
    }
  }

  /** Every call is either still being encrypted or has joined the chain once. */
  lemma {:induction false} CallsConserved(p: Platform, o: Options, s0: State, events: seq<Event>)
    requires AesGcm.Sealing(p.cipher) && Idle(s0)
    requires After(p, o, s0, events).Some?
    ensures multiset(CalledEntries(events))
      == After(p, o, s0, events).value.calls + multiset(Undamaged(Enqueued(o, events)))
  {
    if events != [] {
      var init, last := events[..|events| - 1], events[|events| - 1];
      CallsConserved(p, o, s0, init);
      LastApart([], events);
      CallsNext(p, o, init, After(p, o, s0, init).value, last);
    }
  }

  /** When all work is done and no write failed, every line called for was added once, and nothing else. */
  lemma AllEnqueued(p: Platform, o: Options, s0: State, events: seq<Event>)
    requires AesGcm.Sealing(p.cipher) && Idle(s0)
    requires After(p, o, s0, events).Some? && Idle(After(p, o, s0, events).value)
    requires forall i :: 0 <= i < |Outcomes(events)| ==> Outcomes(events)[i]
    ensures |Outcomes(events)| == |Enqueued(o, events)|
    ensures Succeeded(Enqueued(o, events), Outcomes(events)) == Enqueued(o, events)
    ensures multiset(Undamaged(Enqueued(o, events))) == multiset(CalledEntries(events))
  {
    RunConsistent(p, o, s0, events);
    CallsConserved(p, o, s0, events);
    var lines, outcomes := Enqueued(o, events), Outcomes(events);
    AllSucceeded(lines, outcomes);
    assert |Texts(p, lines[|outcomes|..])| == 0;
    assert lines[..|outcomes|] == lines;
  }

  lemma ConcatCounts<T>(a: seq<T>, b: seq<T>)
    ensures multiset(a + b) == multiset(a) + multiset(b)
  {
  }

  lemma OneApart<T>(a: seq<T>, b: seq<T>, x: T)
    ensures multiset(a + b) + multiset{x} == multiset(a) + multiset([x] + b)
  {
    ConcatCounts(a, b);
    ConcatCounts([x], b);
  }

  lemma NothingLostOfLines(p: Platform, compress: bool, start: Text, lines: seq<Line>, called: seq<Json.Tree>)
    requires AesGcm.Sealing(p.cipher) && AllStand(p, compress, lines)
    requires multiset(Undamaged(lines)) == multiset(called)
    ensures Terminated(start) ==>
      multiset(Continued(p, compress, start, lines)) == multiset(Entries(p, compress, start)) + multiset(called)
    ensures !Terminated(start) && lines != [] ==>
      multiset(Continued(p, compress, start, lines)) + multiset{lines[0].entry}
        == multiset(Entries(p, compress, start + LineText(p, lines[0]))) + multiset(called)
  {
    if !Terminated(start) && lines != [] {
      var first, rest := lines[0], lines[1..];
      assert lines == [first] + rest;
      UndamagedCons(first, rest);
      OneApart(Entries(p, compress, start + LineText(p, first)), Undamaged(rest), first.entry);
    } else {
      ConcatCounts(Entries(p, compress, start), Undamaged(lines));
    }
  }

  /**
   When all work is done and no write failed, every entry appended is read exactly once, but for
   the first one added to a partial line.
   */
  lemma NothingLost(p: Platform, o: Options, compress: bool, s0: State, events: seq<Event>)
    requires Reasonable(p) && Idle(s0) && AllStorable(p, events)
    requires o.compress ==> compress
    requires After(p, o, s0, events).Some? && Idle(After(p, o, s0, events).value)
    requires forall i :: 0 <= i < |Outcomes(events)| ==> Outcomes(events)[i]
    ensures Terminated(s0.file.GetOr([])) ==>
      multiset(Entries(p, compress, After(p, o, s0, events).value.file.GetOr([])))
        == multiset(Entries(p, compress, s0.file.GetOr([]))) + multiset(CalledEntries(events))
    ensures !Terminated(s0.file.GetOr([])) && Enqueued(o, events) != [] ==>
      var first := Enqueued(o, events)[0];
      first.Written?
      && multiset(Entries(p, compress, After(p, o, s0, events).value.file.GetOr([]))) + multiset{first.entry}
        == multiset(Entries(p, compress, s0.file.GetOr([]) + LineText(p, first))) + multiset(CalledEntries(events))
  {
    LogReadsBack(p, o, compress, s0, events);
    AllEnqueued(p, o, s0, events);
    EnqueuedStand(p, o, compress, s0, events);
    NothingLostOfLines(p, compress, s0.file.GetOr([]), Enqueued(o, events), CalledEntries(events));
  }

  lemma AfterNext(p: Platform, o: Options, s0: State, events: seq<Event>, e: Event)
    requires AesGcm.Sealing(p.cipher) && After(p, o, s0, events).Some?
    requires Enabled(After(p, o, s0, events).value, e)
    ensures After(p, o, s0, events + [e]) == Some(Next(p, o, After(p, o, s0, events).value, e))
  {
    assert (events + [e])[..|events|] == events;
  }

  lemma AfterLast(p: Platform, o: Options, s0: State, events: seq<Event>, e: Event)
    requires AesGcm.Sealing(p.cipher) && After(p, o, s0, events + [e]).Some?
    ensures After(p, o, s0, events).Some? && Enabled(After(p, o, s0, events).value, e)
    ensures After(p, o, s0, events + [e]) == Some(Next(p, o, After(p, o, s0, events).value, e))
  {
    assert (events + [e])[..|events|] == events;
  }

  lemma NewLogReadsBack(p: Platform, o: Options, events: seq<Event>)
    requires Reasonable(p) && AllStorable(p, events)
    requires After(p, o, State(None, multiset{}, []), events).Some?
    ensures |Outcomes(events)| <= |Enqueued(o, events)|
    ensures Entries(p, o.compress, After(p, o, State(None, multiset{}, []), events).value.file.GetOr([]))
      == Undamaged(Succeeded(Enqueued(o, events), Outcomes(events)))
  {
    LogReadsBack(p, o, o.compress, State(None, multiset{}, []), events);
    NothingInNothing(p, o.compress);
  }

  // ---------- Call order ----------

  /** The entries that joined the chain are the first ones that append was called with. */
  ghost predicate InOrder(o: Options, events: seq<Event>) {
    Undamaged(Enqueued(o, events)) <= CalledEntries(events)
  }

  /** No two different entries are being encrypted. */
  ghost predicate Uniform(calls: multiset<Json.Tree>) {
    forall a, b :: a in calls && b in calls ==> a == b
  }

  /** The lines added to the file are those of the calls, in call order, whose writes succeeded. */
  ghost predicate OrderKept(o: Options, events: seq<Event>) {
    && |Outcomes(events)| <= |Enqueued(o, events)|
    && |Outcomes(events)| <= |CalledEntries(events)|
    && Undamaged(Succeeded(Enqueued(o, events), Outcomes(events)))
      == Succeeded(CalledEntries(events), Outcomes(events))
  }

  predicate NoCalls(events: seq<Event>) {
    forall i :: 0 <= i < |events| ==> !events[i].Called?
  }

  /** However the work under way is finished, call order is kept. */
  ghost predicate OrderSafe(p: Platform, o: Options, s0: State, events: seq<Event>)
    requires AesGcm.Sealing(p.cipher)
  {
    forall more | NoCalls(more) && After(p, o, s0, events + more).Some? :: OrderKept(o, events + more)
  }

  ghost predicate SafeThroughout(p: Platform, o: Options, s0: State, events: seq<Event>)
    requires AesGcm.Sealing(p.cipher)
  {
    && OrderSafe(p, o, s0, events)
    && (events != [] ==> SafeThroughout(p, o, s0, events[..|events| - 1]))
  }

  ghost predicate UniformThroughout(p: Platform, o: Options, s0: State, events: seq<Event>)
    requires AesGcm.Sealing(p.cipher) && After(p, o, s0, events).Some?
  {
    && Uniform(After(p, o, s0, events).value.calls)
    && (events != [] ==> UniformThroughout(p, o, s0, events[..|events| - 1]))
  }

  /** Each append is called when no other one is being encrypted, as when each is awaited. */
  ghost predicate OneAtATime(p: Platform, o: Options, s0: State, events: seq<Event>)
    requires AesGcm.Sealing(p.cipher) && After(p, o, s0, events).Some?
  {
    events == [] ||
    (var init := events[..|events| - 1];
     && (events[|events| - 1].Called? ==> After(p, o, s0, init).value.calls == multiset{})
     && OneAtATime(p, o, s0, init))
  }

  lemma RestPends<T>(called: seq<T>, done: seq<T>, pending: multiset<T>)
    requires done <= called && multiset(called) == pending + multiset(done)
    ensures multiset(called[|done|..]) == pending
  {
    var rest := called[|done|..];
    assert called == done + rest;
    assert multiset(done + rest) == multiset(done) + multiset(rest);
    assert multiset(rest) == multiset(called) - multiset(done);
  }

  lemma NextIsFirst(called: seq<Json.Tree>, done: seq<Json.Tree>, pending: multiset<Json.Tree>, x: Json.Tree)
    requires done <= called && multiset(called) == pending + multiset(done)
    requires x in pending && Uniform(pending)
    ensures done + [x] <= called
  {
    RestPends(called, done, pending);
    var rest := called[|done|..];
    assert rest[0] in pending;
  }

  lemma StepInOrder(p: Platform, o: Options, s0: State, events: seq<Event>, e: Event)
    requires AesGcm.Sealing(p.cipher) && Idle(s0) && After(p, o, s0, events).Some?
    requires Enabled(After(p, o, s0, events).value, e)
    requires InOrder(o, events) && Uniform(After(p, o, s0, events).value.calls)
    ensures InOrder(o, events + [e])
  {
    HistoryNext(o, events, e);
    var called, lines := CalledEntries(events), Enqueued(o, events);
    assert lines + [] == lines && called + [] == called;
    if e.Encrypted? {
      CallsConserved(p, o, s0, events);
      UndamagedNext(lines, Written(e.entry, e.iv, Compression(o)));
      NextIsFirst(called, Undamaged(lines), After(p, o, s0, events).value.calls, e.entry);
    }
  }

  lemma {:induction false} EnqueuedWritten(o: Options, events: seq<Event>)
    ensures forall i :: 0 <= i < |Enqueued(o, events)| ==> Enqueued(o, events)[i].Written?
  {
    if events != [] {
      var init, last := events[..|events| - 1], events[|events| - 1];
      EnqueuedWritten(o, init);
      LastApart([], events);
      HistoryNext(o, init, last);
    }
  }

  lemma {:induction false} EntriesOfWritten(lines: seq<Line>)
    requires forall i :: 0 <= i < |lines| ==> lines[i].Written?
    ensures |Undamaged(lines)| == |lines|
    ensures forall i :: 0 <= i < |lines| ==> Undamaged(lines)[i] == lines[i].entry
  {
    if lines != [] { EntriesOfWritten(lines[..|lines| - 1]); }
  }

  /** Which writes succeed does not depend on what is written. */
  lemma {:induction false} UndamagedSucceeded(lines: seq<Line>, outcomes: seq<bool>)
    requires |outcomes| <= |lines| && forall i :: 0 <= i < |lines| ==> lines[i].Written?
    ensures |Undamaged(lines)| == |lines|
    ensures Undamaged(Succeeded(lines, outcomes)) == Succeeded(Undamaged(lines), outcomes)
  {
    EntriesOfWritten(lines);
    if outcomes != [] {
      var n := |outcomes| - 1;
      var before := Succeeded(lines, outcomes[..n]);
      UndamagedSucceeded(lines, outcomes[..n]);
      UndamagedNext(before, lines[n]);
      assert before + [] == before && Undamaged(before) + [] == Undamaged(before);
    }
  }

  lemma InOrderKept(p: Platform, o: Options, s0: State, events: seq<Event>)
    requires AesGcm.Sealing(p.cipher) && Idle(s0) && After(p, o, s0, events).Some?
    requires InOrder(o, events)
    ensures OrderKept(o, events)
  {
    RunConsistent(p, o, s0, events);
    var called, lines := CalledEntries(events), Enqueued(o, events);
    EnqueuedWritten(o, events);
    UndamagedSucceeded(lines, Outcomes(events));
    var done := Undamaged(lines);
    assert called == done + called[|done|..];
    SucceededPrefix(done, called[|done|..], Outcomes(events));
  }

  lemma StepUniform(p: Platform, o: Options, s: State, e: Event)
    requires AesGcm.Sealing(p.cipher) && Enabled(s, e) && Uniform(s.calls) && !e.Called?
    ensures Uniform(Next(p, o, s, e).calls)
  {
    assert Next(p, o, s, e).calls <= s.calls;
  }

  /** While equal entries are being encrypted, finishing them keeps the order. */
  lemma {:induction false} UniformFinishes(p: Platform, o: Options, s0: State, events: seq<Event>, more: seq<Event>)
    requires AesGcm.Sealing(p.cipher) && Idle(s0) && After(p, o, s0, events).Some?
    requires InOrder(o, events) && Uniform(After(p, o, s0, events).value.calls)
    requires NoCalls(more) && After(p, o, s0, events + more).Some?
    ensures InOrder(o, events + more) && Uniform(After(p, o, s0, events + more).value.calls)
  {
    if more == [] {
      assert events + more == events;
    } else {
      var init, last := more[..|more| - 1], more[|more| - 1];
      LastApart(events, more);
      AfterLast(p, o, s0, events + init, last);
      UniformFinishes(p, o, s0, events, init);
      StepInOrder(p, o, s0, events + init, last);
      StepUniform(p, o, After(p, o, s0, events + init).value, last);
    }
  }

  function Successes(n: nat): seq<Event> {
    Repeat(n, Settled(true))
  }

  lemma SettleNext(p: Platform, o: Options, s0: State, events: seq<Event>)
    requires AesGcm.Sealing(p.cipher) && After(p, o, s0, events).Some?
    requires After(p, o, s0, events).value.chain != []
    ensures var after := After(p, o, s0, events + [Settled(true)]);
      after.Some? && |after.value.chain| == |After(p, o, s0, events).value.chain| - 1
    ensures CalledEntries(events + [Settled(true)]) == CalledEntries(events)
    ensures Enqueued(o, events + [Settled(true)]) == Enqueued(o, events)
    ensures Outcomes(events + [Settled(true)]) == Outcomes(events) + [true]
  {
    AfterNext(p, o, s0, events, Settled(true));
    HistoryNext(o, events, Settled(true));
    assert CalledEntries(events) + [] == CalledEntries(events);
    assert Enqueued(o, events) + [] == Enqueued(o, events);
  }

  /** The writes of the chain can succeed one after the other. */
  lemma {:induction false} SettleChain(p: Platform, o: Options, s0: State, events: seq<Event>, n: nat, all: seq<Event>)
    requires AesGcm.Sealing(p.cipher) && After(p, o, s0, events).Some?
    requires n <= |After(p, o, s0, events).value.chain| && all == events + Successes(n)
    ensures After(p, o, s0, all).Some?
    ensures |After(p, o, s0, all).value.chain| == |After(p, o, s0, events).value.chain| - n
    ensures CalledEntries(all) == CalledEntries(events)
    ensures Enqueued(o, all) == Enqueued(o, events)
    ensures Outcomes(all) == Outcomes(events) + Repeat(n, true)
    decreases n
  {
    if n == 0 {
      RepeatNothing(events, Settled(true));
      RepeatNothing(Outcomes(events), true);
    } else {
      var before := events + Successes(n - 1);
      SettleChain(p, o, s0, events, n - 1, before);
      SettleNext(p, o, s0, before);
      RepeatOneMore(events, n - 1, Settled(true));
      RepeatOneMore(Outcomes(events), n - 1, true);
    }
  }

  /** Of two different entries one is not the next but one in call order. */
  lemma SomeOvertaker(called: seq<Json.Tree>, done: seq<Json.Tree>, pending: multiset<Json.Tree>)
      returns (x: Json.Tree, y: Json.Tree)
    requires done <= called && multiset(called) == pending + multiset(done) && !Uniform(pending)
    ensures x in pending && y in pending - multiset{x}
    ensures |done| + 1 < |called| && called[|done| + 1] != y
  {
    var rest := Rest(called, done, pending);
    var a, b :| a in pending && b in pending && a != b;
    AtLeastTwo(pending, a, b);
    x, y := if a == rest[1] then a else b, if a == rest[1] then b else a;
  }

  lemma AtLeastTwo<T>(m: multiset<T>, a: T, b: T)
    requires a in m && b in m && a != b
    ensures |m| > 1
  {
    assert m == (m - multiset{a, b}) + multiset{a, b};
  }

  lemma LastSucceeds<T>(items: seq<T>, outcomes: seq<bool>)
    requires 0 < |outcomes| <= |items| && outcomes[|outcomes| - 1]
    ensures var kept := Succeeded(items, outcomes);
      kept != [] && kept[|kept| - 1] == items[|outcomes| - 1]
  {
  }

  lemma LastTwoSucceed<T>(items: seq<T>, outcomes: seq<bool>)
    requires 1 < |outcomes| <= |items| && outcomes[|outcomes| - 2] && outcomes[|outcomes| - 1]
    ensures var kept := Succeeded(items, outcomes);
      |kept| > 1 && kept[|kept| - 1] == items[|outcomes| - 1]
  {
    LastSucceeds(items, outcomes[..|outcomes| - 1]);
    LastSucceeds(items, outcomes);
  }

  /** At least two entries were written, and the last of them was not the next in call order. */
  predicate OutOfTurn(kept: seq<Json.Tree>, due: seq<Json.Tree>) {
    |kept| > 1 && |due| > 1 && kept[|kept| - 1] != due[|due| - 1]
  }

  ghost predicate Overtaken(o: Options, events: seq<Event>) {
    && |Outcomes(events)| <= |Enqueued(o, events)|
    && |Outcomes(events)| <= |CalledEntries(events)|
    && OutOfTurn(Undamaged(Succeeded(Enqueued(o, events), Outcomes(events))),
      Succeeded(CalledEntries(events), Outcomes(events)))
  }

  lemma OvertakenNotKept(o: Options, events: seq<Event>)
    requires Overtaken(o, events)
    ensures !OrderKept(o, events)
  {
  }

  lemma LastsDiffer(lines: seq<Line>, called: seq<Json.Tree>, outcomes: seq<bool>)
    requires forall i :: 0 <= i < |lines| ==> lines[i].Written?
    requires 1 < |outcomes| == |lines| <= |called| && outcomes[|outcomes| - 2] && outcomes[|outcomes| - 1]
    requires called[|lines| - 1] != lines[|lines| - 1].entry
    ensures OutOfTurn(Undamaged(Succeeded(lines, outcomes)), Succeeded(called, outcomes))
  {
    UndamagedSucceeded(lines, outcomes);
    EntriesOfWritten(lines);
    LastTwoSucceed(Undamaged(lines), outcomes);
    LastTwoSucceed(called, outcomes);
  }

  lemma TwoMoreDiffer(lines: seq<Line>, x: Line, y: Line, called: seq<Json.Tree>, outcomes: seq<bool>, n: nat,
                      all: seq<Line>, ended: seq<bool>)
    requires (forall i :: 0 <= i < |lines| ==> lines[i].Written?) && x.Written? && y.Written?
    requires |outcomes| + n == |lines| && |lines| + 1 < |called| && called[|lines| + 1] != y.entry
    requires all == lines + [x] + [y] && ended == outcomes + Repeat(n + 2, true)
    ensures |ended| == |all| <= |called|
    ensures OutOfTurn(Undamaged(Succeeded(all, ended)), Succeeded(called, ended))
  {
    LastsDiffer(all, called, ended);
  }

  lemma JoinNext(p: Platform, o: Options, s0: State, events: seq<Event>, x: Json.Tree)
    requires AesGcm.Sealing(p.cipher) && After(p, o, s0, events).Some?
    requires x in After(p, o, s0, events).value.calls
    ensures var s, next := After(p, o, s0, events).value, After(p, o, s0, events + [Encrypted(x, [])]);
      next.Some? && next.value.calls == s.calls - multiset{x} && |next.value.chain| == |s.chain| + 1
    ensures CalledEntries(events + [Encrypted(x, [])]) == CalledEntries(events)
    ensures Enqueued(o, events + [Encrypted(x, [])]) == Enqueued(o, events) + [Written(x, [], Compression(o))]
    ensures Outcomes(events + [Encrypted(x, [])]) == Outcomes(events)
  {
    var e := Encrypted(x, []);
    AfterNext(p, o, s0, events, e);
    HistoryNext(o, events, e);
    assert CalledEntries(events) + [] == CalledEntries(events) && Outcomes(events) + [] == Outcomes(events);
  }

  /** What a run becomes when two entries join the chain and all writes then succeed. */
  lemma TwoJoinAndSettle(p: Platform, o: Options, s0: State, events: seq<Event>,
                         x: Json.Tree, y: Json.Tree, n: nat, all: seq<Event>)
    requires AesGcm.Sealing(p.cipher) && After(p, o, s0, events).Some?
    requires x in After(p, o, s0, events).value.calls
    requires y in After(p, o, s0, events).value.calls - multiset{x}
    requires n == |After(p, o, s0, events).value.chain|
    requires all == events + [Encrypted(x, [])] + [Encrypted(y, [])] + Successes(n + 2)
    ensures After(p, o, s0, all).Some?
    ensures CalledEntries(all) == CalledEntries(events)
    ensures Enqueued(o, all)
      == Enqueued(o, events) + [Written(x, [], Compression(o))] + [Written(y, [], Compression(o))]
    ensures Outcomes(all) == Outcomes(events) + Repeat(n + 2, true)
  {
    JoinNext(p, o, s0, events, x);
    var one := events + [Encrypted(x, [])];
    JoinNext(p, o, s0, one, y);
    SettleChain(p, o, s0, one + [Encrypted(y, [])], n + 2, all);
  }

  lemma WorkUnderWay(p: Platform, o: Options, s0: State, events: seq<Event>)
    requires AesGcm.Sealing(p.cipher) && Idle(s0) && After(p, o, s0, events).Some?
    ensures var s, lines := After(p, o, s0, events).value, Enqueued(o, events);
      && (forall i :: 0 <= i < |lines| ==> lines[i].Written?) && |Undamaged(lines)| == |lines|
      && multiset(CalledEntries(events)) == s.calls + multiset(Undamaged(lines))
      && |s.chain| == |lines| - |Outcomes(events)|
  {
    CallsConserved(p, o, s0, events);
    RunConsistent(p, o, s0, events);
    EnqueuedWritten(o, events);
    EntriesOfWritten(Enqueued(o, events));
  }

  lemma OvertakenBy(p: Platform, o: Options, s0: State, events: seq<Event>,
                    x: Json.Tree, y: Json.Tree, n: nat, all: seq<Event>)
    requires AesGcm.Sealing(p.cipher) && Idle(s0) && After(p, o, s0, events).Some?
    requires x in After(p, o, s0, events).value.calls
    requires y in After(p, o, s0, events).value.calls - multiset{x}
    requires |Enqueued(o, events)| + 1 < |CalledEntries(events)|
    requires CalledEntries(events)[|Enqueued(o, events)| + 1] != y
    requires n == |After(p, o, s0, events).value.chain|
    requires all == events + [Encrypted(x, [])] + [Encrypted(y, [])] + Successes(n + 2)
    ensures After(p, o, s0, all).Some? && Overtaken(o, all)
  {
    WorkUnderWay(p, o, s0, events);
    TwoJoinAndSettle(p, o, s0, events, x, y, n, all);
    TwoMoreDiffer(Enqueued(o, events), Written(x, [], Compression(o)), Written(y, [], Compression(o)),
      CalledEntries(events), Outcomes(events), n, Enqueued(o, all), Outcomes(all));
  }

  /** Two pending entries of which the second is not to be the second. */
  lemma Overtaker(p: Platform, o: Options, s0: State, events: seq<Event>) returns (x: Json.Tree, y: Json.Tree)
    requires AesGcm.Sealing(p.cipher) && Idle(s0) && After(p, o, s0, events).Some?
    requires InOrder(o, events) && !Uniform(After(p, o, s0, events).value.calls)
    ensures var calls := After(p, o, s0, events).value.calls; x in calls && y in calls - multiset{x}
    ensures |Enqueued(o, events)| + 1 < |CalledEntries(events)|
    ensures CalledEntries(events)[|Enqueued(o, events)| + 1] != y
  {
    WorkUnderWay(p, o, s0, events);
    x, y := SomeOvertaker(CalledEntries(events), Undamaged(Enqueued(o, events)), After(p, o, s0, events).value.calls);
  }

  lemma Interlude(events: seq<Event>, x: Event, y: Event, n: nat) returns (more: seq<Event>)
    requires !x.Called? && !y.Called?
    ensures NoCalls(more) && events + more == events + [x] + [y] + Successes(n)
  {
    more := [x] + [y] + Successes(n);
    Regroup(events, [x], events + [x], [y], Successes(n));
  }

  /** While two different entries are being encrypted, one can be written out of its turn. */
  lemma OvertakeFrom(p: Platform, o: Options, s0: State, events: seq<Event>) returns (more: seq<Event>)
    requires AesGcm.Sealing(p.cipher) && Idle(s0) && After(p, o, s0, events).Some?
    requires InOrder(o, events) && !Uniform(After(p, o, s0, events).value.calls)
    ensures NoCalls(more) && After(p, o, s0, events + more).Some? && Overtaken(o, events + more)
  {
    var x, y := Overtaker(p, o, s0, events);
    var n := |After(p, o, s0, events).value.chain|;
    more := Interlude(events, Encrypted(x, []), Encrypted(y, []), n + 2);
    OvertakenBy(p, o, s0, events, x, y, n, events + more);
  }

  /**
   From a run in order, call order is kept however the run ends, exactly when no two different
   entries are being encrypted.
   */
  lemma SafeExactlyWhen(p: Platform, o: Options, s0: State, events: seq<Event>)
    requires AesGcm.Sealing(p.cipher) && Idle(s0) && After(p, o, s0, events).Some?
    requires InOrder(o, events)
    ensures OrderSafe(p, o, s0, events) <==> Uniform(After(p, o, s0, events).value.calls)
  {
    if Uniform(After(p, o, s0, events).value.calls) {
      forall more | NoCalls(more) && After(p, o, s0, events + more).Some? ensures OrderKept(o, events + more) {
        UniformFinishes(p, o, s0, events, more);
        InOrderKept(p, o, s0, events + more);
      }
    } else {
      var more := OvertakeFrom(p, o, s0, events);
      OvertakenNotKept(o, events + more);
    }
  }

  lemma {:induction false} UniformRunInOrder(p: Platform, o: Options, s0: State, events: seq<Event>)
    requires AesGcm.Sealing(p.cipher) && Idle(s0) && After(p, o, s0, events).Some?
    requires events != [] ==> UniformThroughout(p, o, s0, events[..|events| - 1])
    ensures InOrder(o, events)
  {
    if events != [] {
      var init, last := events[..|events| - 1], events[|events| - 1];
      UniformRunInOrder(p, o, s0, init);
      StepInOrder(p, o, s0, init, last);
      LastApart([], events);
    }
  }

  /**
   At every point of a run call order is kept, however the work under way is finished, exactly
   when at no point two different entries are being encrypted.
   */
  lemma {:induction false} OrderKeptExactlyWhen(p: Platform, o: Options, s0: State, events: seq<Event>)
    requires AesGcm.Sealing(p.cipher) && Idle(s0) && After(p, o, s0, events).Some?
    ensures SafeThroughout(p, o, s0, events) <==> UniformThroughout(p, o, s0, events)
  {
    if events == [] {
      SafeExactlyWhen(p, o, s0, events);
    } else {
      OrderKeptExactlyWhen(p, o, s0, events[..|events| - 1]);
      if UniformThroughout(p, o, s0, events[..|events| - 1]) {
        UniformRunInOrder(p, o, s0, events);
        SafeExactlyWhen(p, o, s0, events);
      }
    }
  }

  lemma {:induction false} OneAtATimeUniform(p: Platform, o: Options, s0: State, events: seq<Event>)
    requires AesGcm.Sealing(p.cipher) && Idle(s0) && After(p, o, s0, events).Some?
    requires OneAtATime(p, o, s0, events)
    ensures |After(p, o, s0, events).value.calls| <= 1
    ensures UniformThroughout(p, o, s0, events)
  {
    var calls := After(p, o, s0, events).value.calls;
    if events != [] {
      OneAtATimeUniform(p, o, s0, events[..|events| - 1]);
    }
    AtMostOne(calls);
  }

  lemma AtMostOne(calls: multiset<Json.Tree>)
    requires |calls| <= 1
    ensures Uniform(calls)
  {
    forall a, b | a in calls && b in calls ensures a == b {
      assert |calls - multiset{a}| == 0;
      assert calls == calls - multiset{a} + multiset{a};
    }
  }

  lemma Rest<T>(called: seq<T>, done: seq<T>, pending: multiset<T>) returns (rest: seq<T>)
    requires done <= called && multiset(called) == pending + multiset(done)
    ensures called == done + rest && multiset(rest) == pending && |rest| == |pending|
  {
    RestPends(called, done, pending);
    rest := called[|done|..];
    assert |multiset(rest)| == |rest|;
  }

  /** Awaited appends join the chain in call order; at most the last one called has not joined it. */
  lemma AwaitedInOrder(p: Platform, o: Options, s0: State, events: seq<Event>) returns (pending: seq<Json.Tree>)
    requires AesGcm.Sealing(p.cipher) && Idle(s0) && After(p, o, s0, events).Some?
    requires OneAtATime(p, o, s0, events)
    ensures CalledEntries(events) == Undamaged(Enqueued(o, events)) + pending
    ensures |pending| <= 1 && multiset(pending) == After(p, o, s0, events).value.calls
  {
    OneAtATimeUniform(p, o, s0, events);
    UniformRunInOrder(p, o, s0, events);
    CallsConserved(p, o, s0, events);
    pending := Rest(CalledEntries(events), Undamaged(Enqueued(o, events)), After(p, o, s0, events).value.calls);
  }

  /**
   When no two different entries were being encrypted at once, a reader finds what it found
   before and then, in call order, the entries whose writes succeeded; behind a partial line it
   finds what that line makes of the first of them and then the others, in call order.
   */
  lemma CallOrderReadsBack(p: Platform, o: Options, compress: bool, s0: State, events: seq<Event>)
    requires Reasonable(p) && Idle(s0) && AllStorable(p, events)
    requires o.compress ==> compress
    requires After(p, o, s0, events).Some? && UniformThroughout(p, o, s0, events)
    ensures |Outcomes(events)| <= |CalledEntries(events)| && |Outcomes(events)| <= |Enqueued(o, events)|
    ensures Terminated(s0.file.GetOr([])) ==>
      Entries(p, compress, After(p, o, s0, events).value.file.GetOr([]))
        == Entries(p, compress, s0.file.GetOr([])) + Succeeded(CalledEntries(events), Outcomes(events))
    ensures var lines := Succeeded(Enqueued(o, events), Outcomes(events));
      !Terminated(s0.file.GetOr([])) && lines != [] ==>
        && Succeeded(CalledEntries(events), Outcomes(events)) != []
        && Entries(p, compress, After(p, o, s0, events).value.file.GetOr([]))
          == Entries(p, compress, s0.file.GetOr([]) + LineText(p, lines[0]))
            + Succeeded(CalledEntries(events), Outcomes(events))[1..]
  {
    UniformRunInOrder(p, o, s0, events);
    InOrderKept(p, o, s0, events);
    LogReadsBack(p, o, compress, s0, events);
    EnqueuedStand(p, o, compress, s0, events);
    var lines := Succeeded(Enqueued(o, events), Outcomes(events));
    SucceededStand(p, compress, Enqueued(o, events), Outcomes(events));
    if lines != [] { FirstApart(lines); }
  }

  lemma FirstApart(lines: seq<Line>)
    requires lines != [] && lines[0].Written?
    ensures Undamaged(lines) != [] && Undamaged(lines)[1..] == Undamaged(lines[1..])
  {
    var first, rest := lines[0], lines[1..];
    assert lines == [first] + rest;
    UndamagedCons(first, rest);
    assert ([first.entry] + Undamaged(rest))[1..] == Undamaged(rest);
  }

  lemma EndsApart<T>(a: seq<T>, kept: seq<T>, b: seq<T>, due: seq<T>)
    requires kept != [] && due != [] && kept[|kept| - 1] != due[|due| - 1]
    ensures a + kept != b + due
  {
    assert (a + kept)[|a + kept| - 1] == kept[|kept| - 1];
    assert (b + due)[|b + due| - 1] == due[|due| - 1];
  }

  /**
   Otherwise some way of finishing the appends makes a reader find another order: neither what it
   found before and then the entries in call order nor, behind whatever a partial line makes of
   the first of them, the others in call order.
   */
  lemma OvertakenReadsBack(p: Platform, o: Options, compress: bool, s0: State, events: seq<Event>)
      returns (more: seq<Event>)
    requires Reasonable(p) && Idle(s0) && AllStorable(p, events)
    requires o.compress ==> compress
    requires After(p, o, s0, events).Some? && InOrder(o, events)
    requires !Uniform(After(p, o, s0, events).value.calls)
    ensures NoCalls(more) && After(p, o, s0, events + more).Some?
    ensures |Outcomes(events + more)| <= |CalledEntries(events + more)|
    ensures var found := Entries(p, compress, After(p, o, s0, events + more).value.file.GetOr([]));
      var due := Succeeded(CalledEntries(events + more), Outcomes(events + more));
      && due != [] && found != Entries(p, compress, s0.file.GetOr([])) + due
      && forall front :: found != front + due[1..]
  {
    more := OvertakeFrom(p, o, s0, events);
    var all := events + more;
    assert AllStorable(p, all);
    LogReadsBack(p, o, compress, s0, all);
    LinesStand(p, o, compress, s0, all);
    ReadOutOfTurn(p, compress, s0.file.GetOr([]), Succeeded(Enqueued(o, all), Outcomes(all)),
      Succeeded(CalledEntries(all), Outcomes(all)));
  }

  lemma ReadOutOfTurn(p: Platform, compress: bool, text: Text, lines: seq<Line>, due: seq<Json.Tree>)
    requires AesGcm.Sealing(p.cipher) && AllStand(p, compress, lines) && OutOfTurn(Undamaged(lines), due)
    ensures Continued(p, compress, text, lines) != Entries(p, compress, text) + due
    ensures forall front :: Continued(p, compress, text, lines) != front + due[1..]
  {
    FirstApart(lines);
    var kept := Undamaged(lines);
    if Terminated(text) {
      NeverTheSame(Entries(p, compress, text), kept, Entries(p, compress, text), due);
    } else {
      NeverTheSame(Entries(p, compress, text + LineText(p, lines[0])), kept[1..], Entries(p, compress, text), due);
    }
  }

  lemma NeverTheSame<T>(a: seq<T>, kept: seq<T>, b: seq<T>, due: seq<T>)
    requires kept != [] && |due| > 1 && kept[|kept| - 1] != due[|due| - 1]
    ensures a + kept != b + due && forall front :: a + kept != front + due[1..]
  {
    EndsApart(a, kept, b, due);
    forall front ensures a + kept != front + due[1..] {
      EndsApart(a, kept, front, due[1..]);
    }
  }

  lemma TwoMore(o: Options, events: seq<Event>, e: Event, f: Event)
    ensures CalledEntries(events + [e] + [f]) == CalledEntries(events) + CalledBy(e) + CalledBy(f)
    ensures Enqueued(o, events + [e] + [f]) == Enqueued(o, events) + EnqueuedBy(o, e) + EnqueuedBy(o, f)
    ensures Outcomes(events + [e] + [f]) == Outcomes(events) + OutcomeOf(e) + OutcomeOf(f)
  {
    HistoryNext(o, events, e);
    HistoryNext(o, events + [e], f);
  }

  /** One append, called, encrypted and written. */
  function OneAppend(entry: Json.Tree, iv: Bytes): seq<Event> {
    [] + [Called(entry)] + [Encrypted(entry, iv)] + [Settled(true)]
  }

  lemma OneAppendEnabled(p: Platform, o: Options, s0: State, entry: Json.Tree, iv: Bytes)
    requires AesGcm.Sealing(p.cipher) && Idle(s0)
    ensures After(p, o, s0, OneAppend(entry, iv)).Some?
  {
    var e0: seq<Event> := [];
    AfterNext(p, o, s0, e0, Called(entry));
    AfterNext(p, o, s0, e0 + [Called(entry)], Encrypted(entry, iv));
    AfterNext(p, o, s0, e0 + [Called(entry)] + [Encrypted(entry, iv)], Settled(true));
  }

  lemma OneAppendRuns(p: Platform, o: Options, s0: State, entry: Json.Tree, iv: Bytes)
    requires AesGcm.Sealing(p.cipher) && Idle(s0)
    ensures After(p, o, s0, OneAppend(entry, iv)).Some?
    ensures Enqueued(o, OneAppend(entry, iv)) == [Written(entry, iv, Compression(o))]
    ensures Outcomes(OneAppend(entry, iv)) == [true]
  {
    OneAppendEnabled(p, o, s0, entry, iv);
    var e0: seq<Event> := [];
    TwoMore(o, e0, Called(entry), Encrypted(entry, iv));
    HistoryNext(o, e0 + [Called(entry)] + [Encrypted(entry, iv)], Settled(true));
  }

  lemma OneSucceeds(line: Line)
    ensures Succeeded([line], [true]) == [line]
  {
    AllSucceeded([line], [true]);
    assert [line][..1] == [line];
  }

  /** What is read after one line was added to a file that ends in part of a line. */
  lemma OneLineReadsBack(p: Platform, o: Options, s0: State, events: seq<Event>, t: Text, line: Line)
    requires Reasonable(p) && AllStorable(p, events) && Idle(s0) && s0.file == Some(t) && !Terminated(t)
    requires After(p, o, s0, events).Some?
    requires Enqueued(o, events) == [line] && Outcomes(events) == [true]
    ensures Entries(p, o.compress, After(p, o, s0, events).value.file.GetOr([]))
      == Entries(p, o.compress, t + LineText(p, line))
  {
    LogReadsBack(p, o, o.compress, s0, events);
    OneSucceeds(line);
    assert [line][1..] == [];
    assert Entries(p, o.compress, t + LineText(p, line)) + [] == Entries(p, o.compress, t + LineText(p, line));
  }

  lemma StorableNext(p: Platform, events: seq<Event>, e: Event)
    requires AllStorable(p, events) && (e.Called? ==> Storable(p, e.entry))
    ensures AllStorable(p, events + [e])
  {
  }

  lemma OneAppendStorable(p: Platform, entry: Json.Tree, iv: Bytes)
    requires Storable(p, entry)
    ensures AllStorable(p, OneAppend(entry, iv))
  {
    var e0: seq<Event> := [];
    StorableNext(p, e0, Called(entry));
    StorableNext(p, e0 + [Called(entry)], Encrypted(entry, iv));
    StorableNext(p, e0 + [Called(entry)] + [Encrypted(entry, iv)], Settled(true));
  }

  lemma WrittenUnterminated(p: Platform, compress: bool, line: Line)
    requires Reasonable(p) && line.Written? && Stands(p, compress, line)
    ensures !Terminated(LineText(p, line))
  {
    var t := LineText(p, line);
    WrittenHolds(p, compress, line);
    assert t[|t| - 1] in t;
  }

  /** An entry appended to a file whose last line is padded and lacks only its line feed is never read. */
  lemma UnfinishedFileLosesAppend(p: Platform, o: Options, s0: State, events: seq<Event>,
                                  first: Line, entry: Json.Tree, iv: Bytes)
    requires Reasonable(p) && StrictJson(p) && Storable(p, entry)
    requires first.Written? && Stands(p, o.compress, first) && |LineBytes(p, first)| % 3 != 0
    requires s0 == State(Some(LineText(p, first)), multiset{}, []) && events == OneAppend(entry, iv)
    ensures After(p, o, s0, events).Some?
    ensures Entries(p, o.compress, s0.file.value) == [first.entry]
    ensures Entries(p, o.compress, After(p, o, s0, events).value.file.GetOr([])) == [first.entry]
  {
    var second := Written(entry, iv, Compression(o));
    OneAppendRuns(p, o, s0, entry, iv);
    OneAppendStorable(p, entry, iv);
    WrittenUnterminated(p, o.compress, first);
    OneLineReadsBack(p, o, s0, events, LineText(p, first), second);
    UnfinishedLineSwallows(p, o.compress, first, second);
  }

  /** Two concurrent appends, the second of which is encrypted first. */
  function Overtaking(a: Json.Tree, b: Json.Tree, iv: Bytes): seq<Event> {
    [] + [Called(a)] + [Called(b)] + [Encrypted(b, iv)] + [Encrypted(a, iv)] + [Settled(true)] + [Settled(true)]
  }

  lemma OvertakingRuns(p: Platform, o: Options, a: Json.Tree, b: Json.Tree, iv: Bytes)
    requires AesGcm.Sealing(p.cipher)
    ensures After(p, o, State(None, multiset{}, []), Overtaking(a, b, iv)).Some?
  {
    var s0 := State(None, multiset{}, []);
    var e0: seq<Event> := [];
    AfterNext(p, o, s0, e0, Called(a));
    AfterNext(p, o, s0, e0 + [Called(a)], Called(b));
    var e2 := e0 + [Called(a)] + [Called(b)];
    AfterNext(p, o, s0, e2, Encrypted(b, iv));
    AfterNext(p, o, s0, e2 + [Encrypted(b, iv)], Encrypted(a, iv));
    var e4 := e2 + [Encrypted(b, iv)] + [Encrypted(a, iv)];
    AfterNext(p, o, s0, e4, Settled(true));
    AfterNext(p, o, s0, e4 + [Settled(true)], Settled(true));
  }

  lemma OvertakingHistory(o: Options, a: Json.Tree, b: Json.Tree, iv: Bytes)
    ensures CalledEntries(Overtaking(a, b, iv)) == [a, b]
    ensures Enqueued(o, Overtaking(a, b, iv)) == [Written(b, iv, Compression(o)), Written(a, iv, Compression(o))]
    ensures Outcomes(Overtaking(a, b, iv)) == [true, true]
  {
    var e0: seq<Event> := [];
    var e2 := e0 + [Called(a)] + [Called(b)];
    TwoMore(o, e0, Called(a), Called(b));
    TwoMore(o, e2, Encrypted(b, iv), Encrypted(a, iv));
    TwoMore(o, e2 + [Encrypted(b, iv)] + [Encrypted(a, iv)], Settled(true), Settled(true));
  }

  lemma BothSucceed(first: Line, second: Line)
    requires first.Written? && second.Written?
    ensures Undamaged(Succeeded([first, second], [true, true])) == [first.entry, second.entry]
  {
    AllSucceeded([first, second], [true, true]);
    assert [first, second][..2] == [first, second] == [] + [first] + [second];
    UndamagedNext([], first);
    UndamagedNext([] + [first], second);
  }

  lemma OvertakingStorable(p: Platform, a: Json.Tree, b: Json.Tree, iv: Bytes)
    requires Storable(p, a) && Storable(p, b)
    ensures AllStorable(p, Overtaking(a, b, iv))
  {
    var e0: seq<Event> := [];
    StorableNext(p, e0, Called(a));
    StorableNext(p, e0 + [Called(a)], Called(b));
    var e2 := e0 + [Called(a)] + [Called(b)];
    StorableNext(p, e2, Encrypted(b, iv));
    StorableNext(p, e2 + [Encrypted(b, iv)], Encrypted(a, iv));
    var e4 := e2 + [Encrypted(b, iv)] + [Encrypted(a, iv)];
    StorableNext(p, e4, Settled(true));
    StorableNext(p, e4 + [Settled(true)], Settled(true));
  }

  /** Enqueue order need not be call order: an append may overtake one called before it. */
  lemma AppendsOvertake(p: Platform, o: Options, a: Json.Tree, b: Json.Tree, iv: Bytes)
    requires Reasonable(p) && Storable(p, a) && Storable(p, b)
    ensures CalledEntries(Overtaking(a, b, iv)) == [a, b]
    ensures After(p, o, State(None, multiset{}, []), Overtaking(a, b, iv)).Some?
    ensures Entries(p, o.compress,
      After(p, o, State(None, multiset{}, []), Overtaking(a, b, iv)).value.file.GetOr([])) == [b, a]
  {
    var events := Overtaking(a, b, iv);
    OvertakingRuns(p, o, a, b, iv);
    OvertakingHistory(o, a, b, iv);
    OvertakingStorable(p, a, b, iv);
    NewLogReadsBack(p, o, events);
    BothSucceed(Written(b, iv, Compression(o)), Written(a, iv, Compression(o)));
  }
}
