/**
 The domain registry: a map of loaded domains, a cache of security contexts derived from it,
 and asynchronous reloads that interleave with both. A step runs from one await to the next.
 */
module Registry {
  import opened KeyedList
  import opened Utf16
  import opened Wrappers
  import Sets

  datatype Loaded = Loaded(domain: Text, path: Text, config: Text)

  /** A security context: what it was requested for and what it was built from. */
  datatype Context = Context(domain: Text, config: Text, secret: Option<Text>)

  datatype Task =
    | CheckingFile(path: Text)
    | LoadingFile(path: Text, previous: Option<Loaded>)
    | LoadingAll
    | Done

  datatype FileResult = Parsed(domain: Text, config: Text) | Unreadable

  datatype Event =
    | Security(domain: Text, secret: Option<Text>)
    | Reload(path: Text)
    | Checked(task: nat, exists_: bool, previous: Option<Text>)
    | FileLoaded(task: nat, result: FileResult)
    | LoadAll
    | AllLoaded(task: nat, all: Option<seq<Loaded>>)

  datatype State = State(domains: map<Text, Loaded>, cache: map<Text, Context>, tasks: map<nat, Task>, next: nat)

  const EMPTY := State(map[], map[], map[], 0)

  // ---------- Cache keys ----------

  function CacheKey(domain: Text, secret: Option<Text>): Text {
    domain + [COLON] + secret.GetOr([])
  }

  /** A key that clearing the domain deletes. */
  predicate ClearedFor(domain: Text, key: Text) {
    key == domain || domain + [COLON] <= key
  }

  function Clear(cache: map<Text, Context>, domain: Text): map<Text, Context> {
    map key | key in cache && !ClearedFor(domain, key) :: cache[key]
  }

  // ---------- Steps ----------

  function Remove(domains: map<Text, Loaded>, domain: Text): map<Text, Loaded> {
    map d | d in domains && d != domain :: domains[d]
  }

  /** Drops a domain together with its cached contexts. */
  function Drop(s: State, domain: Text): State {
    s.(domains := Remove(s.domains, domain), cache := Clear(s.cache, domain))
  }

  function Install(s: State, loaded: Loaded): State {
    s.(domains := s.domains[loaded.domain := loaded], cache := Clear(s.cache, loaded.domain))
  }

  function Refill(domains: map<Text, Loaded>, loaded: seq<Loaded>): map<Text, Loaded> {
    if loaded == [] then domains
    else
      var last := loaded[|loaded| - 1];
      Refill(domains, loaded[..|loaded| - 1])[last.domain := last]
  }

  function Spawn(s: State, t: Task): State {
    s.(tasks := s.tasks[s.next := t], next := s.next + 1)
  }

  function Finish(s: State, k: nat): State {
    s.(tasks := s.tasks[k := Done])
  }

  /** previous is an entry of the file, absent only when the file has none. */
  ghost predicate IsPrevious(domains: map<Text, Loaded>, path: Text, previous: Option<Text>) {
    match previous
    case Some(d) => d in domains && domains[d].path == path
    case None => forall d :: d in domains ==> domains[d].path != path
  }

  ghost predicate Enabled(s: State, ev: Event) {
    match ev
    case Checked(k, _, previous) =>
      k in s.tasks && s.tasks[k].CheckingFile? && IsPrevious(s.domains, s.tasks[k].path, previous)
    case FileLoaded(k, _) => k in s.tasks && s.tasks[k].LoadingFile?
    case AllLoaded(k, _) => k in s.tasks && s.tasks[k].LoadingAll?
    case _ => true
  }

  ghost function Next(s: State, ev: Event): State
    requires Enabled(s, ev)
  {
    match ev
    case Security(domain, secret) =>
      var key := CacheKey(domain, secret);
      if domain !in s.domains || key in s.cache then s
      else s.(cache := s.cache[key := Context(domain, s.domains[domain].config, secret)])
    case Reload(path) => Spawn(s, CheckingFile(path))
    case Checked(k, exists_, previous) =>
      if exists_ then
        s.(tasks := s.tasks[k := LoadingFile(s.tasks[k].path,
          if previous.Some? then Some(s.domains[previous.value]) else None)])
      else Finish(if previous.Some? then Drop(s, s.domains[previous.value].domain) else s, k)
    case FileLoaded(k, result) =>
      var t := s.tasks[k];
      (match result
       case Parsed(domain, config) =>
         var dropped := if t.previous.Some? && t.previous.value.domain != domain
           then Drop(s, t.previous.value.domain) else s;
         Finish(Install(dropped, Loaded(domain, t.path, config)), k)
       case Unreadable =>
         Finish(if t.previous.Some? then Drop(s, t.previous.value.domain) else s, k))
    case LoadAll => Spawn(s.(domains := map[], cache := map[]), LoadingAll)
    case AllLoaded(k, all) =>
      Finish(if all.Some? then s.(domains := Refill(s.domains, all.value)) else s, k)
  }

  ghost predicate ValidRun(s: State, events: seq<Event>)
    decreases |events|
  {
    events == [] || (Enabled(s, events[0]) && ValidRun(Next(s, events[0]), events[1..]))
  }

  ghost function Run(s: State, events: seq<Event>): State
    requires ValidRun(s, events)
    decreases |events|
  {
    if events == [] then s else Run(Next(s, events[0]), events[1..])
  }

  // ---------- Coherence ----------

  /** The context was built from the config that the registry now holds for its domain. */
  ghost predicate Current(s: State, key: Text)
    requires key in s.cache
  {
    var c := s.cache[key];
    key == CacheKey(c.domain, c.secret) && c.domain in s.domains && s.domains[c.domain].config == c.config
  }

  ghost predicate Coherent(s: State) {
    && (forall d :: d in s.domains ==> s.domains[d].domain == d)
    && (forall key :: key in s.cache ==> Current(s, key))
    && (forall k :: k in s.tasks ==> k < s.next)
  }

  /** The last entry for a domain among those loaded. */
  function LastLoaded(all: seq<Loaded>, d: Text): Option<Loaded> {
    LastWith(all, IdOf, d)
  }

  function IdOf(loaded: Loaded): Text {
    loaded.domain
  }

  /** A refill leaves the last entry loaded for a domain, or what stood there before. */
  lemma {:induction false} RefillAt(domains: map<Text, Loaded>, loaded: seq<Loaded>, d: Text)
    ensures d in Refill(domains, loaded) <==> d in domains || LastLoaded(loaded, d).Some?
    ensures d in Refill(domains, loaded) ==>
      Refill(domains, loaded)[d]
        == if LastLoaded(loaded, d).Some? then LastLoaded(loaded, d).value else domains[d]
    ensures LastLoaded(loaded, d).Some? ==>
      LastLoaded(loaded, d).value in loaded && LastLoaded(loaded, d).value.domain == d
  {
    if loaded != [] {
      var init, last := loaded[..|loaded| - 1], loaded[|loaded| - 1];
      RefillAt(domains, init, d);
      assert loaded == init + [last];
    }
  }

  /** No cached context belongs to a domain for which another config was loaded. */
  ghost predicate RefillFits(s: State, ev: Event) {
    ev.AllLoaded? && ev.all.Some? ==>
      forall key :: key in s.cache ==>
        var c, loaded := s.cache[key], LastLoaded(ev.all.value, s.cache[key].domain);
        loaded.Some? ==> loaded.value.config == c.config
  }

  lemma DropCoherent(s: State, domain: Text)
    requires Coherent(s)
    ensures Coherent(Drop(s, domain))
  {
    var n := Drop(s, domain);
    forall key | key in n.cache ensures Current(n, key) {
      assert Current(s, key);
    }
  }

  lemma InstallCoherent(s: State, loaded: Loaded)
    requires Coherent(s)
    ensures Coherent(Install(s, loaded))
  {
    var n := Install(s, loaded);
    forall key | key in n.cache ensures Current(n, key) {
      assert Current(s, key);
    }
  }

  lemma FinishCoherent(s: State, k: nat)
    requires Coherent(s) && k in s.tasks
    ensures Coherent(Finish(s, k))
  {
    forall key | key in s.cache ensures Current(Finish(s, k), key) {
      assert Current(s, key);
    }
  }

  /** Whether a refill keeps the cache coherent can be told by comparing configs before it. */
  lemma RefillCoherentExactlyWhen(s: State, ev: Event)
    requires Coherent(s) && Enabled(s, ev) && ev.AllLoaded?
    ensures Coherent(Next(s, ev)) <==> RefillFits(s, ev)
  {
    var n := Next(s, ev);
    if ev.all.Some? {
      forall d | d in n.domains ensures n.domains[d].domain == d {
        RefillAt(s.domains, ev.all.value, d);
      }
      forall key | key in s.cache
        ensures Current(n, key) <==>
          var loaded := LastLoaded(ev.all.value, s.cache[key].domain);
          loaded.Some? ==> loaded.value.config == s.cache[key].config
      {
        assert Current(s, key);
        RefillAt(s.domains, ev.all.value, s.cache[key].domain);
      }
    } else {
      FinishCoherent(s, ev.task);
    }
  }

  /** A pending load is safe, whatever the files hold, exactly when nothing is cached. */
  lemma LoadSafeExactlyWhen(s: State, k: nat)
    requires Coherent(s) && k in s.tasks && s.tasks[k].LoadingAll?
    ensures (forall all: seq<Loaded> :: Coherent(Next(s, AllLoaded(k, Some(all))))) <==> s.cache == map[]
  {
    if s.cache == map[] {
      forall all: seq<Loaded> ensures Coherent(Next(s, AllLoaded(k, Some(all)))) {
        RefillCoherentExactlyWhen(s, AllLoaded(k, Some(all)));
      }
    } else {
      var key := Sets.Pick(s.cache.Keys);
      var c := s.cache[key];
      var all := [Loaded(c.domain, [], c.config + [0])];
      assert LastLoaded(all, c.domain) == Some(all[0]) && |all[0].config| != |c.config|;
      RefillCoherentExactlyWhen(s, AllLoaded(k, Some(all)));
    }
  }

  lemma SecurityCoherent(s: State, domain: Text, secret: Option<Text>)
    requires Coherent(s)
    ensures Coherent(Next(s, Security(domain, secret)))
  {
    var n := Next(s, Security(domain, secret));
    forall key | key in n.cache ensures Current(n, key) {
      assert key in s.cache ==> Current(s, key);
    }
  }

  lemma FileLoadedCoherent(s: State, ev: Event)
    requires Coherent(s) && Enabled(s, ev) && ev.FileLoaded?
    ensures Coherent(Next(s, ev))
  {
    var t := s.tasks[ev.task];
    var dropped := if t.previous.Some? then Drop(s, t.previous.value.domain) else s;
    if t.previous.Some? { DropCoherent(s, t.previous.value.domain); }
    FinishCoherent(dropped, ev.task);
    if ev.result.Parsed? {
      var loaded := Loaded(ev.result.domain, t.path, ev.result.config);
      InstallCoherent(s, loaded);
      InstallCoherent(dropped, loaded);
      FinishCoherent(Install(s, loaded), ev.task);
      FinishCoherent(Install(dropped, loaded), ev.task);
    }
  }

  lemma CheckedCoherent(s: State, ev: Event)
    requires Coherent(s) && Enabled(s, ev) && ev.Checked?
    ensures Coherent(Next(s, ev))
  {
    if ev.exists_ {
      var n := Next(s, ev);
      forall key | key in n.cache ensures Current(n, key) { assert Current(s, key); }
    } else {
      var dropped := if ev.previous.Some? then Drop(s, s.domains[ev.previous.value].domain) else s;
      if ev.previous.Some? { DropCoherent(s, s.domains[ev.previous.value].domain); }
      FinishCoherent(dropped, ev.task);
    }
  }

  /** A step keeps the cache coherent exactly when it is no refill under a stale context. */
  lemma StepCoherentExactlyWhen(s: State, ev: Event)
    requires Coherent(s) && Enabled(s, ev)
    ensures Coherent(Next(s, ev)) <==> RefillFits(s, ev)
  {
    match ev {
      case Security(domain, secret) => SecurityCoherent(s, domain, secret);
      case Reload(path) =>
        forall key | key in s.cache ensures Current(Next(s, ev), key) { assert Current(s, key); }
      case Checked(_, _, _) => CheckedCoherent(s, ev);
      case FileLoaded(_, _) => FileLoadedCoherent(s, ev);
      case LoadAll =>
      case AllLoaded(_, _) => RefillCoherentExactlyWhen(s, ev);
    }
  }

  /** Every refill of the run finds the cache empty. */
  ghost predicate RefillsFindNothing(s: State, events: seq<Event>)
    requires ValidRun(s, events)
    decreases |events|
  {
    events == [] ||
    ((events[0].AllLoaded? && events[0].all.Some? ==> s.cache == map[])
      && RefillsFindNothing(Next(s, events[0]), events[1..]))
  }

  /** In every run whose refills find the cache empty, each cached context has the config now held. */
  lemma {:induction false} RunCoherent(s: State, events: seq<Event>)
    requires Coherent(s) && ValidRun(s, events) && RefillsFindNothing(s, events)
    ensures Coherent(Run(s, events))
    decreases |events|
  {
    if events != [] {
      StepCoherentExactlyWhen(s, events[0]);
      RunCoherent(Next(s, events[0]), events[1..]);
    }
  }

  /** Every refill of the run fits the contexts it finds. */
  ghost predicate RefillsFit(s: State, events: seq<Event>)
    requires ValidRun(s, events)
    decreases |events|
  {
    events == [] || (RefillFits(s, events[0]) && RefillsFit(Next(s, events[0]), events[1..]))
  }

  ghost predicate CoherentThroughout(s: State, events: seq<Event>)
    requires ValidRun(s, events)
    decreases |events|
  {
    Coherent(s) && (events == [] || CoherentThroughout(Next(s, events[0]), events[1..]))
  }

  /** A run is coherent at every moment exactly when each refill loads the configs it finds in use. */
  lemma {:induction false} RunCoherentExactlyWhen(s: State, events: seq<Event>)
    requires Coherent(s) && ValidRun(s, events)
    ensures CoherentThroughout(s, events) <==> RefillsFit(s, events)
    decreases |events|
  {
    if events != [] {
      StepCoherentExactlyWhen(s, events[0]);
      if RefillFits(s, events[0]) {
        RunCoherentExactlyWhen(Next(s, events[0]), events[1..]);
      }
    }
  }

  /** loadAll has been called and has not refilled the domains yet. */
  ghost predicate LoadPending(s: State) {
    exists k :: k in s.tasks && s.tasks[k].LoadingAll?
  }

  /** Nobody asks for a security context while a load is pending. */
  ghost predicate QuietLoads(s: State, events: seq<Event>)
    requires ValidRun(s, events)
    decreases |events|
  {
    events == [] ||
    ((events[0].Security? ==> !LoadPending(s)) && QuietLoads(Next(s, events[0]), events[1..]))
  }

  lemma QuietStep(s: State, ev: Event)
    requires Enabled(s, ev) && (LoadPending(s) ==> s.cache == map[]) && (ev.Security? ==> !LoadPending(s))
    ensures LoadPending(Next(s, ev)) ==> Next(s, ev).cache == map[]
  {
    var n := Next(s, ev);
    if LoadPending(n) && !ev.LoadAll? {
      var k :| k in n.tasks && n.tasks[k].LoadingAll?;
      assert k in s.tasks && s.tasks[k].LoadingAll?;
    }
  }

  /** Then every refill finds the cache empty, so the run stays coherent. */
  lemma {:induction false} QuietRunCoherent(s: State, events: seq<Event>)
    requires Coherent(s) && (LoadPending(s) ==> s.cache == map[])
    requires ValidRun(s, events) && QuietLoads(s, events)
    ensures RefillsFindNothing(s, events) && Coherent(Run(s, events))
    decreases |events|
  {
    if events != [] {
      StepCoherentExactlyWhen(s, events[0]);
      QuietStep(s, events[0]);
      QuietRunCoherent(Next(s, events[0]), events[1..]);
    }
  }

  /** Every load is over as soon as it has begun. */
  ghost predicate AtomicLoads(s: State, events: seq<Event>)
    requires ValidRun(s, events)
    decreases |events|
  {
    events == [] ||
    ((events[0].LoadAll? ==> |events| > 1 && events[1].AllLoaded? && events[1].task == s.next)
      && AtomicLoads(Next(s, events[0]), events[1..]))
  }

  ghost predicate OnlyLoad(s: State, k: nat) {
    forall j :: j in s.tasks && s.tasks[j].LoadingAll? ==> j == k
  }

  /** In every run from a state without pending loads whose loads are atomic, the cache stays coherent. */
  lemma {:induction false} AtomicRunCoherent(s: State, events: seq<Event>)
    requires Coherent(s) && !LoadPending(s) && ValidRun(s, events) && AtomicLoads(s, events)
    ensures Coherent(Run(s, events))
    decreases |events|
  {
    if events != [] {
      var n := Next(s, events[0]);
      StepCoherentExactlyWhen(s, events[0]);
      if events[0].LoadAll? {
        var rest := events[1..];
        assert OnlyLoad(n, s.next);
        StepCoherentExactlyWhen(n, rest[0]);
        NoneAfterOnly(n, rest[0]);
        AtomicRunCoherent(Next(n, rest[0]), rest[1..]);
      } else {
        forall j | j in n.tasks ensures !n.tasks[j].LoadingAll? {
          assert j in s.tasks ==> !s.tasks[j].LoadingAll?;
        }
        AtomicRunCoherent(n, events[1..]);
      }
    }
  }

  lemma NoneAfterOnly(s: State, ev: Event)
    requires Enabled(s, ev) && ev.AllLoaded? && OnlyLoad(s, ev.task)
    ensures !LoadPending(Next(s, ev))
  {
  }

  // ---------- What a caller is served ----------

  /** The context that security() answers with, or nothing for an unknown domain. */
  ghost function Served(s: State, domain: Text, secret: Option<Text>): Option<Context> {
    if domain !in s.domains then None
    else Some(Next(s, Security(domain, secret)).cache[CacheKey(domain, secret)])
  }

  /** No id is another id followed by a colon. */
  ghost predicate Separable(ids: set<Text>) {
    forall a, b :: a in ids && b in ids ==> !(a + [COLON] <= b)
  }

  lemma KeyOwner(a: Text, s: Option<Text>, b: Text, t: Option<Text>)
    requires CacheKey(a, s) == CacheKey(b, t) && |a| <= |b|
    ensures a == b || a + [COLON] <= b
  {
    var key := CacheKey(a, s);
    assert a + [COLON] <= key;
    assert b <= key;
    if |a| == |b| {
      assert a == key[..|a|] == b;
    } else {
      assert a + [COLON] == key[..|a| + 1] == b[..|a| + 1];
    }
  }

  lemma ClearedOwner(domain: Text, other: Text, secret: Option<Text>)
    requires ClearedFor(domain, CacheKey(other, secret))
    ensures domain == other || domain + [COLON] <= other || other + [COLON] <= domain
  {
    var key := CacheKey(other, secret);
    assert other + [COLON] <= key && domain <= key;
    if |domain| == |other| {
      assert domain == key[..|domain|] == other;
    } else if |domain| < |other| {
      assert domain + [COLON] == key[..|domain| + 1] == other[..|domain| + 1];
    } else {
      assert other + [COLON] == key[..|other| + 1] == domain[..|other| + 1];
    }
  }

  /** Of separable ids, clearing one deletes all its contexts and none of the other. */
  lemma ClearMeans(cache: map<Text, Context>, domain: Text, other: Text, secret: Option<Text>)
    requires Separable({domain, other})
    ensures CacheKey(other, secret) in Clear(cache, domain) <==> CacheKey(other, secret) in cache && other != domain
  {
    if ClearedFor(domain, CacheKey(other, secret)) { ClearedOwner(domain, other, secret); }
  }

  /** A file that is loaded clears the contexts of its own id and of the one it had, and keeps all others. */
  lemma ReloadClears(s: State, k: nat, domain: Text, config: Text, other: Text, secret: Option<Text>)
    requires Enabled(s, FileLoaded(k, Parsed(domain, config))) && Separable({domain, other})
    requires s.tasks[k].previous.Some? ==> Separable({s.tasks[k].previous.value.domain, other})
    ensures var n, t, key := Next(s, FileLoaded(k, Parsed(domain, config))), s.tasks[k], CacheKey(other, secret);
      && (key in n.cache <==>
            key in s.cache && other != domain && (t.previous.Some? ==> other != t.previous.value.domain))
      && (key in n.cache ==> n.cache[key] == s.cache[key])
  {
    var t := s.tasks[k];
    if t.previous.Some? && t.previous.value.domain != domain {
      ClearMeans(s.cache, t.previous.value.domain, other, secret);
      ClearMeans(Clear(s.cache, t.previous.value.domain), domain, other, secret);
    } else {
      ClearMeans(s.cache, domain, other, secret);
    }
  }

  /** With separable ids every caller is served a context for its own domain, from its config. */
  lemma ServedCurrent(s: State, domain: Text, secret: Option<Text>)
    requires Coherent(s) && domain in s.domains && Separable(s.domains.Keys)
    ensures Served(s, domain, secret).value.domain == domain
    ensures Served(s, domain, secret).value.config == s.domains[domain].config
    ensures Served(s, domain, secret).value.secret.GetOr([]) == secret.GetOr([])
  {
    var key := CacheKey(domain, secret);
    if key in s.cache {
      assert Current(s, key);
      var c := s.cache[key];
      if |c.domain| <= |domain| {
        KeyOwner(c.domain, c.secret, domain, secret);
      } else {
        KeyOwner(domain, secret, c.domain, c.secret);
      }
      assert c.domain == domain;
      assert key[|domain| + 1..] == c.secret.GetOr([]) == secret.GetOr([]);
    }
  }

  /** The state in which only this domain and one context of it are held. */
  ghost function Holding(domain: Text, secret: Option<Text>): State {
    State(map[domain := Loaded(domain, [], [])],
          map[CacheKey(domain, secret) := Context(domain, [], secret)], map[], 0)
  }

  /**
   Callers are always served the secret they pass exactly when it is not empty: an empty explicit
   secret shares the key of an omitted one.
   */
  lemma SecretServedExactlyWhen(domain: Text, secret: Option<Text>)
    ensures secret.GetOr([]) != [] <==>
      forall s :: Coherent(s) && domain in s.domains && Separable(s.domains.Keys) ==>
        Served(s, domain, secret).value.secret == secret
  {
    if secret.GetOr([]) != [] {
      forall s | Coherent(s) && domain in s.domains && Separable(s.domains.Keys)
        ensures Served(s, domain, secret).value.secret == secret
      {
        ServedCurrent(s, domain, secret);
      }
    } else {
      var other := if secret.Some? then None else Some([]);
      var s := Holding(domain, other);
      assert Current(s, CacheKey(domain, other));
      assert !(domain + [COLON] <= domain);
      assert Served(s, domain, secret).value.secret == other;
    }
  }

  lemma StepTo(s: State, ev: Event, n: State, rest: seq<Event>)
    requires Enabled(s, ev) && Next(s, ev) == n && ValidRun(n, rest)
    ensures ValidRun(s, [ev] + rest) && Run(s, [ev] + rest) == Run(n, rest)
  {
    assert ([ev] + rest)[1..] == rest;
  }

  /** Loading one new file, as a run. */
  lemma LoadFile(s: State, path: Text, domain: Text, config: Text, rest: seq<Event>) returns (events: seq<Event>)
    requires forall d :: d in s.domains ==> s.domains[d].path != path
    requires s.next !in s.tasks
    requires ValidRun(Finish(Install(s.(next := s.next + 1), Loaded(domain, path, config)), s.next), rest)
    ensures ValidRun(s, events)
    ensures Run(s, events) == Run(Finish(Install(s.(next := s.next + 1), Loaded(domain, path, config)), s.next), rest)
  {
    var k := s.next;
    var s1 := Spawn(s, CheckingFile(path));
    var s2 := s1.(tasks := s1.tasks[k := LoadingFile(path, None)]);
    var s3 := Finish(Install(s2, Loaded(domain, path, config)), k);
    assert s2.tasks[k := Done] == s.tasks[k := Done];
    events := [FileLoaded(k, Parsed(domain, config))] + rest;
    StepTo(s2, FileLoaded(k, Parsed(domain, config)), s3, rest);
    StepTo(s1, Checked(k, true, None), s2, events);
    events := [Checked(k, true, None)] + events;
    StepTo(s, Reload(path), s1, events);
    events := [Reload(path)] + events;
  }

  /** A run after which the omitted secret is answered with the empty one that was given before. */
  lemma EmptySecretShared(path: Text, domain: Text, config: Text) returns (events: seq<Event>)
    ensures ValidRun(EMPTY, events)
    ensures var s := Run(EMPTY, events);
      domain in s.domains && Served(s, domain, None) == Some(Context(domain, config, Some([])))
  {
    var loaded := Loaded(domain, path, config);
    var s1 := State(map[domain := loaded], map[], map[0 := Done], 1);
    var call := Security(domain, Some([]));
    StepTo(s1, call, Next(s1, call), []);
    assert Finish(Install(EMPTY.(next := 1), loaded), 0) == s1;
    events := LoadFile(EMPTY, path, domain, config, [call]);
  }

  /**
   A load that refills under a context built while it waited leaves the context stale: the
   registry holds the new config and serves the old one.
   */
  lemma LoadLeavesStale(path: Text, domain: Text, config: Text, newer: Text) returns (events: seq<Event>)
    requires config != newer
    ensures ValidRun(EMPTY, events)
    ensures var s := Run(EMPTY, events);
      && domain in s.domains && s.domains[domain].config == newer
      && Served(s, domain, None) == Some(Context(domain, config, None))
      && !Coherent(s)
  {
    var loaded, reread := Loaded(domain, path, config), Loaded(domain, path, newer);
    var s1 := State(map[], map[], map[0 := LoadingAll], 1);
    var s2 := State(map[domain := loaded], map[], map[0 := LoadingAll, 1 := Done], 2);
    var call, last := Security(domain, None), AllLoaded(0, Some([reread]));
    var s3 := Next(s2, call);
    var s4 := Next(s3, last);
    assert [reread][..0] == [];
    assert !Current(s4, CacheKey(domain, None));
    StepTo(s3, last, s4, []);
    StepTo(s2, call, s3, [last]);
    assert Finish(Install(s1.(next := 2), loaded), 1) == s2;
    assert [call] + [last] == [call, last];
    events := LoadFile(s1, path, domain, config, [call, last]);
    StepTo(EMPTY, LoadAll, s1, events);
    events := [LoadAll] + events;
  }

  lemma ClashingKeys(a: Text, b: Text, secret: Text)
    requires a + [COLON] <= b && secret == b[|a| + 1..] + [COLON]
    ensures CacheKey(a, Some(secret)) == CacheKey(b, None) && a != b
  {
    assert b == a + [COLON] + b[|a| + 1..];
  }

  /**
   Separability is needed: whenever one id extends another past a colon, some run of two reloads
   and one security call leaves the longer id served a context of the shorter one.
   */
  lemma ColonIdsClash(a: Text, b: Text, configA: Text, configB: Text) returns (events: seq<Event>)
    requires a + [COLON] <= b
    ensures ValidRun(EMPTY, events)
    ensures var s := Run(EMPTY, events);
      && b in s.domains && s.domains[b].config == configB
      && Served(s, b, None).Some? && Served(s, b, None).value.domain == a
      && Served(s, b, None).value.config == configA
  {
    var secret := b[|a| + 1..] + [COLON];
    ClashingKeys(a, b, secret);
    var la, lb := Loaded(a, [0], configA), Loaded(b, [1], configB);
    var s1 := State(map[a := la], map[], map[0 := Done], 1);
    var s2 := State(map[a := la, b := lb], map[], map[0 := Done, 1 := Done], 2);
    var call := Security(a, Some(secret));
    StepTo(s2, call, Next(s2, call), []);
    assert Finish(Install(s1.(next := 2), lb), 1) == s2;
    events := LoadFile(s1, [1], b, configB, [call]);
    assert Finish(Install(EMPTY.(next := 1), la), 0) == s1;
    events := LoadFile(EMPTY, [0], a, configA, events);
  }

  lemma ClashServed(ids: set<Text>, a: Text, b: Text) returns (s: State)
    requires a in ids && b in ids && a + [COLON] <= b
    ensures Coherent(s) && s.domains.Keys == ids && Served(s, b, None).value.domain == a != b
  {
    var secret := b[|a| + 1..] + [COLON];
    ClashingKeys(a, b, secret);
    var key := CacheKey(a, Some(secret));
    s := State(map d | d in ids :: Loaded(d, [], []), map[key := Context(a, [], Some(secret))], map[], 0);
    assert Current(s, key);
  }

  /** Every caller is always served a context of its own domain exactly when no id extends another past a colon. */
  lemma OwnContextExactlyWhen(ids: set<Text>)
    ensures Separable(ids) <==>
      forall s, domain, secret :: Coherent(s) && s.domains.Keys == ids && domain in ids ==>
        Served(s, domain, secret).value.domain == domain
  {
    if Separable(ids) {
      forall s, domain, secret | Coherent(s) && s.domains.Keys == ids && domain in ids
        ensures Served(s, domain, secret).value.domain == domain
      {
        ServedCurrent(s, domain, secret);
      }
    } else {
      var a, b :| a in ids && b in ids && a + [COLON] <= b;
      var s := ClashServed(ids, a, b);
      assert Served(s, b, None).value.domain != b;
    }
  }

  // ---------- One entry a file ----------

  /** The file that a suspended reload is about. */
  function PendingPath(t: Task): Option<Text> {
    match t
    case CheckingFile(path) => Some(path)
    case LoadingFile(path, _) => Some(path)
    case _ => None
  }

  ghost predicate UniquePaths(domains: map<Text, Loaded>) {
    forall a, b :: a in domains && b in domains && domains[a].path == domains[b].path ==> a == b
  }

  /** What a suspended reload remembers of its file is still all there is of it. */
  ghost predicate Remembers(domains: map<Text, Loaded>, t: Task) {
    t.LoadingFile? ==>
      forall d :: d in domains && domains[d].path == t.path ==> t.previous.Some? && t.previous.value.domain == d
  }

  ghost predicate OneEntryPerFile(s: State) {
    && UniquePaths(s.domains)
    && (forall d :: d in s.domains ==> s.domains[d].domain == d)
    && (forall k :: k in s.tasks ==> k < s.next && Remembers(s.domains, s.tasks[k]))
    && (forall j, k :: j in s.tasks && k in s.tasks && j != k && PendingPath(s.tasks[j]).Some? ==>
          PendingPath(s.tasks[j]) != PendingPath(s.tasks[k]))
  }

  /**
   Reloads of one file do not overlap, and loading everything is atomic, covers each file once
   and does not run while a file is being loaded.
   */
  ghost predicate Disciplined(s: State, ev: Event)
    requires Enabled(s, ev)
  {
    match ev
    case Reload(path) => forall k :: k in s.tasks ==> PendingPath(s.tasks[k]) != Some(path)
    case AllLoaded(_, Some(all)) =>
      && s.domains == map[]
      && (forall k :: k in s.tasks ==> !s.tasks[k].LoadingFile?)
      && (forall i, j :: 0 <= i < j < |all| ==> all[i].path != all[j].path)
    case _ => true
  }

  lemma RefillUnique(all: seq<Loaded>)
    requires forall i, j :: 0 <= i < j < |all| ==> all[i].path != all[j].path
    ensures UniquePaths(Refill(map[], all))
    ensures forall d :: d in Refill(map[], all) ==> Refill(map[], all)[d].domain == d
  {
    var r := Refill(map[], all);
    forall d | d in r ensures exists i :: 0 <= i < |all| && all[i] == r[d] && all[i].domain == d {
      RefillAt(map[], all, d);
    }
  }

  /** The domains after a reload replaced what it remembered of its file. */
  function Replace(domains: map<Text, Loaded>, previous: Option<Text>, loaded: Loaded): map<Text, Loaded> {
    (if previous.Some? && previous.value != loaded.domain then Remove(domains, previous.value) else domains)
      [loaded.domain := loaded]
  }

  lemma ReplaceUnique(domains: map<Text, Loaded>, previous: Option<Text>, loaded: Loaded)
    requires UniquePaths(domains)
    requires forall d :: d in domains && domains[d].path == loaded.path ==> previous == Some(d)
    ensures UniquePaths(Replace(domains, previous, loaded))
  {
    var r := Replace(domains, previous, loaded);
    forall d | d in r && d != loaded.domain
      ensures d in domains && r[d] == domains[d] && domains[d].path != loaded.path
    {
    }
  }

  lemma ReplaceRemembers(domains: map<Text, Loaded>, previous: Option<Text>, loaded: Loaded, t: Task)
    requires Remembers(domains, t) && PendingPath(t) != Some(loaded.path)
    ensures Remembers(Replace(domains, previous, loaded), t)
  {
  }

  /** Replacing what a reload remembers by what it loaded keeps one entry a file. */
  lemma ReplaceKeeps(s: State, k: nat, previous: Option<Text>, loaded: Loaded)
    requires OneEntryPerFile(s) && k in s.tasks && PendingPath(s.tasks[k]) == Some(loaded.path)
    requires forall d :: d in s.domains && s.domains[d].path == loaded.path ==> previous == Some(d)
    ensures var dropped := if previous.Some? && previous.value != loaded.domain then Drop(s, previous.value) else s;
      OneEntryPerFile(Finish(Install(dropped, loaded), k))
  {
    var dropped := if previous.Some? && previous.value != loaded.domain then Drop(s, previous.value) else s;
    var n := Finish(Install(dropped, loaded), k);
    assert n.domains == Replace(s.domains, previous, loaded);
    ReplaceUnique(s.domains, previous, loaded);
    forall j | j in n.tasks && j != k ensures j < n.next && Remembers(n.domains, n.tasks[j]) {
      assert j in s.tasks && n.tasks[j] == s.tasks[j];
      ReplaceRemembers(s.domains, previous, loaded, s.tasks[j]);
    }
  }

  lemma RemoveKeeps(s: State, k: nat, domain: Option<Text>)
    requires OneEntryPerFile(s) && k in s.tasks
    ensures OneEntryPerFile(Finish(if domain.Some? then Drop(s, domain.value) else s, k))
  {
    var n := Finish(if domain.Some? then Drop(s, domain.value) else s, k);
    forall j | j in n.tasks ensures j < n.next && Remembers(n.domains, n.tasks[j]) {
      assert j in s.tasks && Remembers(s.domains, s.tasks[j]);
    }
  }

  lemma FileLoadedKeeps(s: State, k: nat, result: FileResult)
    requires OneEntryPerFile(s) && Enabled(s, FileLoaded(k, result))
    ensures OneEntryPerFile(Next(s, FileLoaded(k, result)))
  {
    var t := s.tasks[k];
    var previous := if t.previous.Some? then Some(t.previous.value.domain) else None;
    assert Remembers(s.domains, t);
    if result.Parsed? {
      ReplaceKeeps(s, k, previous, Loaded(result.domain, t.path, result.config));
    } else {
      RemoveKeeps(s, k, previous);
    }
  }

  lemma CheckedKeeps(s: State, ev: Event)
    requires OneEntryPerFile(s) && Enabled(s, ev) && ev.Checked?
    ensures OneEntryPerFile(Next(s, ev))
  {
    if ev.exists_ {
      var n := Next(s, ev);
      assert n.domains == s.domains;
      forall j | j in n.tasks ensures j < n.next && Remembers(n.domains, n.tasks[j]) {
        assert j in s.tasks && Remembers(s.domains, s.tasks[j]);
      }
      assert PendingPath(n.tasks[ev.task]) == PendingPath(s.tasks[ev.task]);
    } else {
      RemoveKeeps(s, ev.task, if ev.previous.Some? then Some(s.domains[ev.previous.value].domain) else None);
    }
  }

  lemma AllLoadedKeeps(s: State, ev: Event)
    requires OneEntryPerFile(s) && Enabled(s, ev) && ev.AllLoaded? && Disciplined(s, ev)
    ensures OneEntryPerFile(Next(s, ev))
  {
    if ev.all.Some? {
      RefillUnique(ev.all.value);
    } else {
      RemoveKeeps(s, ev.task, None);
    }
  }

  lemma StepKeepsOneEntry(s: State, ev: Event)
    requires OneEntryPerFile(s) && Enabled(s, ev) && Disciplined(s, ev)
    ensures OneEntryPerFile(Next(s, ev))
  {
    match ev {
      case Checked(_, _, _) => CheckedKeeps(s, ev);
      case FileLoaded(k, result) => FileLoadedKeeps(s, k, result);
      case AllLoaded(_, _) => AllLoadedKeeps(s, ev);
      case _ =>
    }
  }

  ghost predicate DisciplinedRun(s: State, events: seq<Event>)
    requires ValidRun(s, events)
    decreases |events|
  {
    events == [] || (Disciplined(s, events[0]) && DisciplinedRun(Next(s, events[0]), events[1..]))
  }

  /** Entry i is the last one loaded for its id. */
  ghost predicate Survives(all: seq<Loaded>, i: int)
    requires 0 <= i < |all|
  {
    LastLoaded(all, all[i].domain) == Some(all[i])
  }

  /**
   Whether the step leaves every file under one id, told before it: what is loaded meets its file
   only under its own id or the one remembered, and a refill brings each file under one id.
   */
  ghost predicate KeepsPaths(s: State, ev: Event)
    requires Enabled(s, ev)
  {
    match ev
    case FileLoaded(k, Parsed(d, _)) =>
      var t := s.tasks[k];
      forall e :: e in s.domains && s.domains[e].path == t.path ==>
        e == d || (t.previous.Some? && e == t.previous.value.domain)
    case AllLoaded(_, Some(all)) =>
      && (forall i, j | 0 <= i < |all| && 0 <= j < |all| && Survives(all, i) && Survives(all, j) ::
            all[i].path == all[j].path ==> all[i].domain == all[j].domain)
      && (forall i, e | 0 <= i < |all| && Survives(all, i) && e in s.domains && LastLoaded(all, e).None? ::
            s.domains[e].path != all[i].path)
    case _ => true
  }

  lemma FileLoadedUniqueExactlyWhen(s: State, k: nat, d: Text, c: Text)
    requires UniquePaths(s.domains) && k in s.tasks && s.tasks[k].LoadingFile?
    ensures var ev := FileLoaded(k, Parsed(d, c));
      UniquePaths(Next(s, ev).domains) <==> KeepsPaths(s, ev)
  {
    var ev := FileLoaded(k, Parsed(d, c));
    var t, n := s.tasks[k], Next(s, ev).domains;
    assert d in n && n[d].path == t.path;
    if !KeepsPaths(s, ev) {
      var e :| e in s.domains && s.domains[e].path == t.path
        && e != d && !(t.previous.Some? && e == t.previous.value.domain);
      assert e in n && n[e] == s.domains[e];
    }
  }

  /** Each entry after a refill is a surviving one or one that nothing was loaded for. */
  lemma RefillSource(domains: map<Text, Loaded>, all: seq<Loaded>, d: Text) returns (i: int)
    requires d in Refill(domains, all)
    ensures LastLoaded(all, d).Some? ==>
      0 <= i < |all| && all[i].domain == d && Survives(all, i) && Refill(domains, all)[d] == all[i]
    ensures LastLoaded(all, d).None? ==> d in domains && Refill(domains, all)[d] == domains[d]
  {
    RefillAt(domains, all, d);
    i := 0;
    if LastLoaded(all, d).Some? {
      i :| 0 <= i < |all| && all[i] == LastLoaded(all, d).value;
    }
  }

  lemma RefillUniqueWhen(s: State, ev: Event)
    requires UniquePaths(s.domains) && Enabled(s, ev) && ev.AllLoaded? && ev.all.Some? && KeepsPaths(s, ev)
    ensures UniquePaths(Next(s, ev).domains)
  {
    var all, n := ev.all.value, Next(s, ev).domains;
    forall a, b | a in n && b in n && n[a].path == n[b].path ensures a == b {
      var i := RefillSource(s.domains, all, a);
      var j := RefillSource(s.domains, all, b);
    }
  }

  lemma RefillUniqueOnlyWhen(s: State, ev: Event)
    requires Enabled(s, ev) && ev.AllLoaded? && ev.all.Some? && UniquePaths(Next(s, ev).domains)
    ensures KeepsPaths(s, ev)
  {
    var all, n := ev.all.value, Next(s, ev).domains;
    forall i | 0 <= i < |all| && Survives(all, i)
      ensures all[i].domain in n && n[all[i].domain] == all[i]
    {
      RefillAt(s.domains, all, all[i].domain);
    }
    forall e | e in s.domains && LastLoaded(all, e).None? ensures e in n && n[e] == s.domains[e] {
      RefillAt(s.domains, all, e);
    }
    forall i, e | 0 <= i < |all| && Survives(all, i) && e in s.domains && LastLoaded(all, e).None?
      ensures s.domains[e].path != all[i].path
    {
      assert e != all[i].domain;
    }
  }

  /** A step leaves every file under one id exactly when its guard holds. */
  lemma StepUniqueExactlyWhen(s: State, ev: Event)
    requires UniquePaths(s.domains) && Enabled(s, ev)
    ensures UniquePaths(Next(s, ev).domains) <==> KeepsPaths(s, ev)
  {
    match ev {
      case FileLoaded(k, Parsed(d, c)) => FileLoadedUniqueExactlyWhen(s, k, d, c);
      case AllLoaded(_, Some(_)) =>
        if KeepsPaths(s, ev) { RefillUniqueWhen(s, ev); }
        if UniquePaths(Next(s, ev).domains) { RefillUniqueOnlyWhen(s, ev); }
      case _ =>
    }
  }

  ghost predicate GuardedRun(s: State, events: seq<Event>)
    requires ValidRun(s, events)
    decreases |events|
  {
    events == [] || (KeepsPaths(s, events[0]) && GuardedRun(Next(s, events[0]), events[1..]))
  }

  ghost predicate UniqueThroughout(s: State, events: seq<Event>)
    requires ValidRun(s, events)
    decreases |events|
  {
    UniquePaths(s.domains) && (events == [] || UniqueThroughout(Next(s, events[0]), events[1..]))
  }

  /** No file stands under two ids at any moment of a run exactly when every step passes its guard. */
  lemma {:induction false} RunUniqueExactlyWhen(s: State, events: seq<Event>)
    requires UniquePaths(s.domains) && ValidRun(s, events)
    ensures UniqueThroughout(s, events) <==> GuardedRun(s, events)
    decreases |events|
  {
    if events != [] {
      StepUniqueExactlyWhen(s, events[0]);
      if KeepsPaths(s, events[0]) {
        RunUniqueExactlyWhen(Next(s, events[0]), events[1..]);
      }
    }
  }

  /** Disciplined runs pass every guard. */
  lemma {:induction false} DisciplinedGuarded(s: State, events: seq<Event>)
    requires OneEntryPerFile(s) && ValidRun(s, events) && DisciplinedRun(s, events)
    ensures GuardedRun(s, events)
    decreases |events|
  {
    if events != [] {
      StepKeepsOneEntry(s, events[0]);
      StepUniqueExactlyWhen(s, events[0]);
      DisciplinedGuarded(Next(s, events[0]), events[1..]);
    }
  }

  /** In every disciplined run no file stands under two ids. */
  lemma {:induction false} RunKeepsOneEntry(s: State, events: seq<Event>)
    requires OneEntryPerFile(s) && ValidRun(s, events) && DisciplinedRun(s, events)
    ensures OneEntryPerFile(Run(s, events))
    decreases |events|
  {
    if events != [] {
      StepKeepsOneEntry(s, events[0]);
      RunKeepsOneEntry(Next(s, events[0]), events[1..]);
    }
  }

  /** Overlapping reloads of one file whose id changes in between leave two entries for it. */
  lemma OverlapDuplicates(path: Text, a: Text, b: Text, config: Text) returns (events: seq<Event>)
    requires a != b
    ensures ValidRun(EMPTY, events) && !UniquePaths(Run(EMPTY, events).domains)
  {
    var la, lb := Loaded(a, path, config), Loaded(b, path, config);
    var s1 := State(map[], map[], map[0 := CheckingFile(path)], 1);
    var s2 := State(map[], map[], map[0 := LoadingFile(path, None)], 1);
    var s3 := State(map[a := la], map[], map[0 := LoadingFile(path, None), 1 := Done], 2);
    var s4 := State(map[a := la, b := lb], map[], map[0 := Done, 1 := Done], 2);
    assert s4.domains[a].path == s4.domains[b].path;
    var last := FileLoaded(0, Parsed(b, config));
    StepTo(s3, last, s4, []);
    assert Finish(Install(s2.(next := 2), la), 1) == s3;
    events := LoadFile(s2, path, a, config, [last]);
    StepTo(s1, Checked(0, true, None), s2, events);
    events := [Checked(0, true, None)] + events;
    StepTo(EMPTY, Reload(path), s1, events);
    events := [Reload(path)] + events;
  }

  // ---------- The registry as an object ----------

  /** What a reload reports; a failure of a file without an entry names no domain. */
  datatype WatchEvent =
    | Added(domain: Text, path: Text)
    | Changed(domain: Text, path: Text)
    | Removed(domain: Text, path: Text)
    | Failed(previous: Option<Text>, path: Text)

  function Reported(t: Task, result: FileResult): WatchEvent
    requires t.LoadingFile?
  {
    match result
    case Parsed(domain, _) => if t.previous.Some? then Changed(domain, t.path) else Added(domain, t.path)
    case Unreadable => Failed(if t.previous.Some? then Some(t.previous.value.domain) else None, t.path)
  }

  /** A file that had an entry when it was checked is reported changed, any other added; a failure names that entry. */
  lemma ReportedMeans(s: State, k: nat, previous: Option<Text>, domain: Text, config: Text)
    requires Enabled(s, Checked(k, true, previous))
    ensures var t, path := Next(s, Checked(k, true, previous)).tasks[k], s.tasks[k].path;
      var known := exists d :: d in s.domains && s.domains[d].path == path;
      && t.LoadingFile?
      && Reported(t, Parsed(domain, config)) == (if known then Changed(domain, path) else Added(domain, path))
      && Reported(t, Unreadable)
        == Failed(if previous.Some? then Some(s.domains[previous.value].domain) else None, path)
  {
  }

  /** The closure of createDomainRegistry: its maps, updated in place one step at a time. */
  class DomainRegistry {
    var domains: map<Text, Loaded>
    var securityCache: map<Text, Context>
    var tasks: map<nat, Task>
    var next: nat

    /** Makes a path absolute, against the root directory. */
    const resolve: Text -> Text

    constructor (resolve: Text -> Text)
      ensures View() == EMPTY && this.resolve == resolve
    {
      this.resolve := resolve;
      domains, securityCache, tasks, next := map[], map[], map[], 0;
    }

    ghost function View(): State
      reads this
    {
      State(domains, securityCache, tasks, next)
    }

    /** The result is absent when the domain is unknown and the call throws. */
    method GetSecurity(domain: Text, csrfSecret: Option<Text>) returns (r: Option<Context>)
      modifies this
      ensures View() == Next(old(View()), Security(domain, csrfSecret))
      ensures r == Served(old(View()), domain, csrfSecret)
    {
      if domain !in domains {
        return None;
      }
      var cacheKey := CacheKey(domain, csrfSecret);
      if cacheKey in securityCache {
        return Some(securityCache[cacheKey]);
      }
      var pending := Context(domain, domains[domain].config, csrfSecret);
      securityCache := securityCache[cacheKey := pending];
      return Some(pending);
    }

    /** Deletes, key by key, what the cache holds for a domain. */
    method ClearSecurityCacheForDomain(domain: Text)
      modifies this
      ensures View() == old(View()).(cache := Clear(old(securityCache), domain))
    {
      var todo := securityCache.Keys;
      while todo != {}
        invariant unchanged(`domains) && unchanged(`tasks) && unchanged(`next)
        invariant todo <= old(securityCache).Keys
        invariant forall key :: key in securityCache <==>
          key in old(securityCache) && (key in todo || !ClearedFor(domain, key))
        invariant forall key :: key in securityCache ==> securityCache[key] == old(securityCache)[key]
        decreases todo
      {
        var key := Sets.Choose(todo);
        if ClearedFor(domain, key) {
          securityCache := map other | other in securityCache && other != key :: securityCache[other];
        }
        todo := todo - {key};
      }
    }

    /** Some entry of the file; the insertion order that would choose among several is left open. */
    method FindByPath(path: Text) returns (previous: Option<Text>)
      ensures IsPrevious(domains, path, previous)
    {
      var todo := domains.Keys;
      while todo != {}
        invariant todo <= domains.Keys
        invariant forall d :: d in domains && d !in todo ==> domains[d].path != path
        decreases todo
      {
        var d := Sets.Choose(todo);
        if domains[d].path == path {
          return Some(d);
        }
        todo := todo - {d};
      }
      return None;
    }

    method DeleteDomain(domain: Text)
      modifies this
      ensures View() == Drop(old(View()), domain)
    {
      domains := map d | d in domains && d != domain :: domains[d];
      ClearSecurityCacheForDomain(domain);
    }

    method ReloadDomain(filePath: Text) returns (k: nat)
      modifies this
      ensures View() == Next(old(View()), Reload(resolve(filePath)))
    {
      k := next;
      tasks := tasks[k := CheckingFile(resolve(filePath))];
      next := next + 1;
    }

    /** reloadDomainFile once it is known whether the file exists. */
    method ResumeChecked(k: nat, exists_: bool)
      returns (previous: Option<Text>, event: Option<WatchEvent>)
      requires k in tasks && tasks[k].CheckingFile?
      modifies this
      ensures Enabled(old(View()), Checked(k, exists_, previous))
      ensures View() == Next(old(View()), Checked(k, exists_, previous))
      ensures event ==
        if exists_ || previous.None? then None
        else Some(Removed(old(domains)[previous.value].domain, old(tasks)[k].path))
    {
      previous := FindByPath(tasks[k].path);
      event := None;
      if !exists_ {
        if previous.Some? {
          event := Some(Removed(domains[previous.value].domain, tasks[k].path));
          DeleteDomain(domains[previous.value].domain);
        }
        tasks := tasks[k := Done];
        return;
      }
      var entry := if previous.Some? then Some(domains[previous.value]) else None;
      tasks := tasks[k := LoadingFile(tasks[k].path, entry)];
    }

    /** reloadDomainFile once loading the file succeeded or threw. */
    method ResumeLoaded(k: nat, result: FileResult) returns (event: WatchEvent)
      requires k in tasks && tasks[k].LoadingFile?
      modifies this
      ensures View() == Next(old(View()), FileLoaded(k, result))
      ensures event == Reported(old(tasks)[k], result)
    {
      var t := tasks[k];
      match result {
        case Parsed(domain, config) =>
          if t.previous.Some? && t.previous.value.domain != domain {
            DeleteDomain(t.previous.value.domain);
          }
          domains := domains[domain := Loaded(domain, t.path, config)];
          ClearSecurityCacheForDomain(domain);
        case Unreadable =>
          if t.previous.Some? {
            DeleteDomain(t.previous.value.domain);
          }
      }
      tasks := tasks[k := Done];
      event := Reported(t, result);
    }

    /** loadAll up to its await. */
    method StartLoadAll() returns (k: nat)
      modifies this
      ensures View() == Next(old(View()), LoadAll)
    {
      domains := map[];
      securityCache := map[];
      k := next;
      tasks := tasks[k := LoadingAll];
      next := next + 1;
    }

    /** loadAll after its await. */
    method FinishLoadAll(k: nat, all: Option<seq<Loaded>>)
      requires k in tasks && tasks[k].LoadingAll?
      modifies this
      ensures View() == Next(old(View()), AllLoaded(k, all))
    {
      if all.Some? {
        var loaded := all.value;
        for i := 0 to |loaded|
          invariant unchanged(`securityCache) && unchanged(`tasks) && unchanged(`next)
          invariant domains == Refill(old(domains), loaded[..i])
        {
          assert loaded[..i + 1][..i] == loaded[..i];
          domains := domains[loaded[i].domain := loaded[i]];
        }
        assert loaded[..|loaded|] == loaded;
      }
      tasks := tasks[k := Done];
    }
  }
}
