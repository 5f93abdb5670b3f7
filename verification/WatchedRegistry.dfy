/**
 The watch and the registry together: a timer that goes off starts a reload. When every reload
 is over within debounceMs of its start, reloads of one file never overlap.
 */
module WatchedRegistry {
  import opened Utf16
  import opened Wrappers
  import DomainWatch
  import Registry
  import RegistryFiles

  /** started tells when each reload was started; clock is the time of the last change or firing. */
  datatype System = System(
    pending: DomainWatch.Timers,
    registry: Registry.State,
    started: map<nat, int>,
    clock: int)

  /** Something that happens to the watch, or a step of the registry that no timer starts. */
  datatype Move = OfWatch(happens: DomainWatch.Event) | OfRegistry(step: Registry.Event)

  function Time(s: System, m: Move): int {
    match m
    case OfWatch(Changed(_, now)) => now
    case OfWatch(Fired(_, now)) => now
    case _ => s.clock
  }

  ghost predicate Enabled(s: System, m: Move) {
    && s.clock <= Time(s, m)
    && match m
       case OfWatch(ev) => DomainWatch.Enabled(s.pending, ev)
       case OfRegistry(ev) => !ev.Reload? && Registry.Enabled(s.registry, ev)
  }

  ghost function Next(debounceMs: int, s: System, m: Move): System
    requires Enabled(s, m)
  {
    match m
    case OfWatch(ev) =>
      var s' := s.(pending := DomainWatch.Next(debounceMs, s.pending, ev), clock := Time(s, m));
      if ev.Fired? then
        s'.(registry := Registry.Next(s.registry, Registry.Reload(ev.path)),
            started := s.started[s.registry.next := ev.now])
      else s'
    case OfRegistry(ev) => s.(registry := Registry.Next(s.registry, ev))
  }

  /** The task reloads the file and has not finished. */
  ghost predicate Reloading(s: System, k: nat, path: Text) {
    k in s.registry.tasks && Registry.PendingPath(s.registry.tasks[k]) == Some(path)
  }

  /** At this time no reload has been under way for debounceMs or longer. */
  ghost predicate Punctual(debounceMs: int, s: System, now: int) {
    forall k, path :: Reloading(s, k, path) && k in s.started ==> now < s.started[k] + debounceMs
  }

  ghost predicate ValidRun(debounceMs: int, s: System, moves: seq<Move>)
    decreases |moves|
  {
    moves == [] || (Enabled(s, moves[0]) && ValidRun(debounceMs, Next(debounceMs, s, moves[0]), moves[1..]))
  }

  ghost function Run(debounceMs: int, s: System, moves: seq<Move>): System
    requires ValidRun(debounceMs, s, moves)
    decreases |moves|
  {
    if moves == [] then s else Run(debounceMs, Next(debounceMs, s, moves[0]), moves[1..])
  }

  ghost predicate PunctualRun(debounceMs: int, s: System, moves: seq<Move>)
    requires ValidRun(debounceMs, s, moves)
    decreases |moves|
  {
    moves == []
    || (&& Punctual(debounceMs, s, Time(s, moves[0]))
        && PunctualRun(debounceMs, Next(debounceMs, s, moves[0]), moves[1..]))
  }

  /** Loading everything is atomic, covers each file once and does not run while a file is being loaded. */
  ghost predicate LoadsDisciplined(debounceMs: int, s: System, moves: seq<Move>)
    requires ValidRun(debounceMs, s, moves)
    decreases |moves|
  {
    moves == []
    || (&& (moves[0].OfRegistry? ==> Registry.Disciplined(s.registry, moves[0].step))
        && LoadsDisciplined(debounceMs, Next(debounceMs, s, moves[0]), moves[1..]))
  }

  /** A timer is due no earlier than debounceMs after the start of a reload of its file. */
  ghost predicate Spaced(debounceMs: int, s: System) {
    && (forall k :: k in s.registry.tasks ==> k < s.registry.next)
    && (forall k, path :: Reloading(s, k, path) ==>
          && k in s.started && s.started[k] <= s.clock
          && (path in s.pending ==> s.started[k] + debounceMs <= s.pending[path]))
  }

  lemma WatchSpaced(debounceMs: int, s: System, ev: DomainWatch.Event)
    requires Spaced(debounceMs, s) && Enabled(s, OfWatch(ev))
    ensures Spaced(debounceMs, Next(debounceMs, s, OfWatch(ev)))
  {
    var s' := Next(debounceMs, s, OfWatch(ev));
    forall k, path | Reloading(s', k, path)
      ensures k in s'.started && s'.started[k] <= s'.clock
      ensures path in s'.pending ==> s'.started[k] + debounceMs <= s'.pending[path]
    {
      if k in s.registry.tasks { assert Reloading(s, k, path); }
    }
  }

  lemma RegistrySpaced(debounceMs: int, s: System, ev: Registry.Event)
    requires Spaced(debounceMs, s) && Enabled(s, OfRegistry(ev))
    ensures Spaced(debounceMs, Next(debounceMs, s, OfRegistry(ev)))
  {
    var s' := Next(debounceMs, s, OfRegistry(ev));
    forall k, path | Reloading(s', k, path) ensures Reloading(s, k, path) {
    }
  }

  /** A timer that goes off while reloads are punctual finds no reload of its file under way. */
  lemma FiringDisciplined(debounceMs: int, s: System, path: Text, now: int)
    requires Spaced(debounceMs, s) && Enabled(s, OfWatch(DomainWatch.Fired(path, now)))
    requires Punctual(debounceMs, s, now)
    ensures Registry.Disciplined(s.registry, Registry.Reload(path))
  {
    forall k | k in s.registry.tasks ensures Registry.PendingPath(s.registry.tasks[k]) != Some(path) {
      if Reloading(s, k, path) {
        assert s.started[k] + debounceMs <= s.pending[path];
      }
    }
  }

  lemma StepKeeps(debounceMs: int, s: System, m: Move)
    requires Spaced(debounceMs, s) && Registry.OneEntryPerFile(s.registry)
    requires Enabled(s, m) && Punctual(debounceMs, s, Time(s, m))
    requires m.OfRegistry? ==> Registry.Disciplined(s.registry, m.step)
    ensures Spaced(debounceMs, Next(debounceMs, s, m))
    ensures Registry.OneEntryPerFile(Next(debounceMs, s, m).registry)
  {
    match m {
      case OfWatch(ev) =>
        WatchSpaced(debounceMs, s, ev);
        if ev.Fired? {
          FiringDisciplined(debounceMs, s, ev.path, ev.now);
          Registry.StepKeepsOneEntry(s.registry, Registry.Reload(ev.path));
        }
      case OfRegistry(ev) =>
        RegistrySpaced(debounceMs, s, ev);
        Registry.StepKeepsOneEntry(s.registry, ev);
    }
  }

  /**
   A watched registry whose reloads are over within debounceMs of their start never reloads a
   file twice at once, so that no file ever stands under two ids.
   */
  lemma {:induction false} WatchedRunKeepsOneEntry(debounceMs: int, s: System, moves: seq<Move>)
    requires Spaced(debounceMs, s) && Registry.OneEntryPerFile(s.registry)
    requires ValidRun(debounceMs, s, moves)
    requires PunctualRun(debounceMs, s, moves) && LoadsDisciplined(debounceMs, s, moves)
    ensures Registry.OneEntryPerFile(Run(debounceMs, s, moves).registry)
    decreases |moves|
  {
    if moves != [] {
      StepKeeps(debounceMs, s, moves[0]);
      WatchedRunKeepsOneEntry(debounceMs, Next(debounceMs, s, moves[0]), moves[1..]);
    }
  }

  // ---------- The files ----------

  /** The step of the registry that a move takes, if it takes one. */
  function Taken(m: Move): Option<Registry.Event> {
    match m
    case OfWatch(Fired(path, _)) => Some(Registry.Reload(path))
    case OfWatch(_) => None
    case OfRegistry(ev) => Some(ev)
  }

  lemma MoveTakes(debounceMs: int, s: System, m: Move)
    requires Enabled(s, m)
    ensures Taken(m).Some? ==>
      Registry.Enabled(s.registry, Taken(m).value)
      && Next(debounceMs, s, m).registry == Registry.Next(s.registry, Taken(m).value)
    ensures Taken(m).None? ==> Next(debounceMs, s, m).registry == s.registry
  {
  }

  ghost function NextFiles(s: System, files: RegistryFiles.Files, m: Move): RegistryFiles.Files
    requires Enabled(s, m)
  {
    match Taken(m)
    case Some(ev) => RegistryFiles.NextFiles(s.registry, files, ev)
    case None => files
  }

  /** No two files load one id: owner gives the file of each. */
  ghost predicate OwnIds(owner: Text -> Text, debounceMs: int, s: System, moves: seq<Move>)
    requires ValidRun(debounceMs, s, moves)
    decreases |moves|
  {
    moves == []
    || (&& (moves[0].OfRegistry? ==> RegistryFiles.OwnIds(owner, s.registry, moves[0].step))
        && OwnIds(owner, debounceMs, Next(debounceMs, s, moves[0]), moves[1..]))
  }

  ghost predicate MirrorsThroughout(debounceMs: int, s: System, files: RegistryFiles.Files, moves: seq<Move>)
    requires ValidRun(debounceMs, s, moves)
    decreases |moves|
  {
    && RegistryFiles.Mirrors(s.registry.domains, files)
    && (moves != [] ==>
          MirrorsThroughout(debounceMs, Next(debounceMs, s, moves[0]), NextFiles(s, files, moves[0]), moves[1..]))
  }

  /** Every step of the registry that a punctual move takes is disciplined. */
  lemma MoveDisciplined(debounceMs: int, s: System, m: Move)
    requires Spaced(debounceMs, s) && Enabled(s, m) && Punctual(debounceMs, s, Time(s, m))
    requires m.OfRegistry? ==> Registry.Disciplined(s.registry, m.step)
    ensures Taken(m).Some? ==>
      Registry.Enabled(s.registry, Taken(m).value) && Registry.Disciplined(s.registry, Taken(m).value)
  {
    match m
    case OfWatch(Fired(path, now)) => FiringDisciplined(debounceMs, s, path, now);
    case _ =>
  }

  lemma StepMirrors(owner: Text -> Text, debounceMs: int, s: System, files: RegistryFiles.Files, m: Move)
    requires Spaced(debounceMs, s) && Registry.OneEntryPerFile(s.registry)
    requires RegistryFiles.Mirrors(s.registry.domains, files) && RegistryFiles.Owned(owner, s.registry)
    requires Enabled(s, m) && Punctual(debounceMs, s, Time(s, m))
    requires m.OfRegistry? ==>
      Registry.Disciplined(s.registry, m.step) && RegistryFiles.OwnIds(owner, s.registry, m.step)
    ensures var n := Next(debounceMs, s, m).registry;
      RegistryFiles.Mirrors(n.domains, NextFiles(s, files, m)) && RegistryFiles.Owned(owner, n)
  {
    MoveTakes(debounceMs, s, m);
    MoveDisciplined(debounceMs, s, m);
    if Taken(m).Some? {
      var ev := Taken(m).value;
      RegistryFiles.OwnedKeepsMirror(owner, s.registry, files, ev);
      RegistryFiles.StepMirrorsExactlyWhen(s.registry, files, ev);
      RegistryFiles.OwnedStep(owner, s.registry, ev);
    }
  }

  /**
   A watched registry whose reloads are over within debounceMs of their start, and of whose files
   no two load one id, holds at every moment exactly what each file last loaded.
   */
  lemma {:induction false} WatchedRunMirrors(owner: Text -> Text, debounceMs: int, s: System,
                                             files: RegistryFiles.Files, moves: seq<Move>)
    requires Spaced(debounceMs, s) && Registry.OneEntryPerFile(s.registry)
    requires RegistryFiles.Mirrors(s.registry.domains, files) && RegistryFiles.Owned(owner, s.registry)
    requires ValidRun(debounceMs, s, moves) && PunctualRun(debounceMs, s, moves)
    requires LoadsDisciplined(debounceMs, s, moves) && OwnIds(owner, debounceMs, s, moves)
    ensures MirrorsThroughout(debounceMs, s, files, moves)
    decreases |moves|
  {
    if moves != [] {
      StepMirrors(owner, debounceMs, s, files, moves[0]);
      StepKeeps(debounceMs, s, moves[0]);
      WatchedRunMirrors(owner, debounceMs, Next(debounceMs, s, moves[0]), NextFiles(s, files, moves[0]), moves[1..]);
    }
  }

  /** The bound is sharp: a reload still under way debounceMs after its start can be overlapped. */
  lemma SlowReloadOverlapped(debounceMs: int, s: System, k: nat, path: Text, change: int)
    requires debounceMs >= 0 && Spaced(debounceMs, s)
    requires Reloading(s, k, path) && s.clock <= change
    ensures var late := OfWatch(DomainWatch.Changed(path, change));
      var again := OfWatch(DomainWatch.Fired(path, change + debounceMs));
      && ValidRun(debounceMs, s, [late, again])
      && var s' := Run(debounceMs, s, [late, again]);
         && Reloading(s', k, path) && Reloading(s', s.registry.next, path) && k != s.registry.next
         && s.registry.next in s'.started && s'.started[s.registry.next] == change + debounceMs
  {
    var late := OfWatch(DomainWatch.Changed(path, change));
    var again := OfWatch(DomainWatch.Fired(path, change + debounceMs));
    assert [late, again][1..] == [again] && [again][1..] == [];
    var s1 := Next(debounceMs, s, late);
    assert Enabled(s1, again);
    var s2 := Next(debounceMs, s1, again);
    assert Run(debounceMs, s1, [again]) == s2;
  }
}
