/** The debounced file watch: one pending timer a file, restarted by every change. */
module DomainWatch {
  import opened Utf16
  import Registry

  /** What happens to a watch: a change of a file, a timer that goes off, or the end of watching. */
  datatype Event =
    | Changed(path: Text, now: int)
    | Fired(path: Text, now: int)
    | Unwatched

  /** The moment at which each pending timer may go off, by file. */
  type Timers = map<Text, int>

  /** A timer goes off no earlier than it was set for. */
  predicate Enabled(pending: Timers, ev: Event) {
    ev.Fired? ==> ev.path in pending && pending[ev.path] <= ev.now
  }

  function Next(debounceMs: int, pending: Timers, ev: Event): Timers {
    match ev
    case Changed(path, now) => pending[path := now + debounceMs]
    case Fired(path, _) => map p | p in pending && p != path :: pending[p]
    case Unwatched => map[]
  }

  class Watch {
    const debounceMs: int
    var pending: Timers

    constructor (debounceMs: int)
      ensures this.debounceMs == debounceMs && pending == map[]
    {
      this.debounceMs := debounceMs;
      pending := map[];
    }

    /** A change: the file's timer, if it has one, is cleared and set anew. */
    method Schedule(path: Text, now: int)
      modifies this
      ensures pending == Next(debounceMs, old(pending), Changed(path, now))
    {
      if path in pending {
        pending := map p | p in pending && p != path :: pending[p];
      }
      pending := pending[path := now + debounceMs];
    }

    /** The timer's callback: the timer is forgotten and one reload of its file starts. */
    method Fire(path: Text, now: int) returns (starts: Registry.Event)
      requires Enabled(pending, Fired(path, now))
      modifies this
      ensures pending == Next(debounceMs, old(pending), Fired(path, now))
      ensures starts == Registry.Reload(path)
    {
      pending := map p | p in pending && p != path :: pending[p];
      starts := Registry.Reload(path);
    }

    method Unwatch()
      modifies this
      ensures pending == Next(debounceMs, old(pending), Unwatched)
    {
      pending := map[];
    }
  }

  // ---------- Runs ----------

  ghost function Pending(debounceMs: int, events: seq<Event>, n: nat): Timers
    requires n <= |events|
  {
    if n == 0 then map[] else Next(debounceMs, Pending(debounceMs, events, n - 1), events[n - 1])
  }

  ghost predicate ValidRun(debounceMs: int, events: seq<Event>) {
    forall i :: 0 <= i < |events| ==> Enabled(Pending(debounceMs, events, i), events[i])
  }

  /** The event neither changes nor consumes the timer of the file. */
  predicate Leaves(ev: Event, path: Text) {
    match ev
    case Changed(p, _) => p != path
    case Fired(p, _) => p != path
    case Unwatched => false
  }

  /** Change j is the last thing that happened to the file's timer before position n. */
  ghost predicate LastChange(events: seq<Event>, path: Text, j: int, n: int)
    requires n <= |events|
  {
    && 0 <= j < n
    && events[j].Changed? && events[j].path == path
    && forall i :: j < i < n ==> Leaves(events[i], path)
  }

  /** A timer is pending exactly for the files whose last event is a change, set from that change. */
  lemma {:induction false} PendingMeans(debounceMs: int, events: seq<Event>, n: nat, path: Text, due: int)
    requires n <= |events|
    ensures path in Pending(debounceMs, events, n) && Pending(debounceMs, events, n)[path] == due <==>
      exists j :: LastChange(events, path, j, n) && due == events[j].now + debounceMs
  {
    if n > 0 {
      PendingMeans(debounceMs, events, n - 1, path, due);
      var ev := events[n - 1];
      if Leaves(ev, path) {
        forall j ensures LastChange(events, path, j, n) <==> LastChange(events, path, j, n - 1) {
        }
      } else if ev.Changed? {
        assert LastChange(events, path, n - 1, n);
      }
    }
  }

  /**
   A reload starts at least debounceMs after the last change of its file, with nothing about the
   file in between: a burst of changes leads to one reload, after the burst is over.
   */
  lemma ReloadFollowsQuiet(debounceMs: int, events: seq<Event>, n: nat)
    requires ValidRun(debounceMs, events) && n < |events| && events[n].Fired?
    ensures exists j :: LastChange(events, events[n].path, j, n) && events[n].now >= events[j].now + debounceMs
  {
    assert Enabled(Pending(debounceMs, events, n), events[n]);
    PendingMeans(debounceMs, events, n, events[n].path, Pending(debounceMs, events, n)[events[n].path]);
  }

  /** No change leads to two reloads. */
  lemma OneReloadPerChange(debounceMs: int, events: seq<Event>, m: nat, n: nat, j: int)
    requires m < n < |events| && events[m].Fired? && events[n].Fired? && events[m].path == events[n].path
    requires LastChange(events, events[m].path, j, m)
    ensures !LastChange(events, events[n].path, j, n)
  {
    assert !Leaves(events[m], events[n].path);
  }
}
