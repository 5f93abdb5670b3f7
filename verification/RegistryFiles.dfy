/**
 What the registry holds against what its files last loaded: when no two files load one id, the
 registry is the mirror of its files.
 */
module RegistryFiles {
  import opened KeyedList
  import opened Registry
  import opened Utf16
  import opened Wrappers

  /** What each file last gave; a missing file counts as unreadable. */
  type Files = map<Text, FileResult>

  function PathOf(loaded: Loaded): Text {
    loaded.path
  }

  /** The last entry loaded from a file among those of one load. */
  function LastFrom(all: seq<Loaded>, path: Text): Option<Loaded> {
    LastWith(all, PathOf, path)
  }

  function Contents(loaded: Loaded): FileResult {
    Parsed(loaded.domain, loaded.config)
  }

  function AllRead(files: Files, all: seq<Loaded>): Files {
    if all == [] then files
    else
      var last := all[|all| - 1];
      AllRead(files, all[..|all| - 1])[last.path := Contents(last)]
  }

  ghost function NextFiles(s: State, files: Files, ev: Event): Files
    requires Enabled(s, ev)
  {
    match ev
    case Checked(k, exists_, _) => if exists_ then files else files[s.tasks[k].path := Unreadable]
    case FileLoaded(k, result) => files[s.tasks[k].path := result]
    case LoadAll => map[]
    case AllLoaded(_, Some(all)) => AllRead(files, all)
    case _ => files
  }

  /** The registry holds, under its id, what each file last loaded, and nothing else. */
  ghost predicate Mirrors(domains: map<Text, Loaded>, files: Files) {
    && (forall d :: d in domains ==>
          domains[d].domain == d && domains[d].path in files && files[domains[d].path] == Contents(domains[d]))
    && (forall p :: p in files && files[p].Parsed? ==>
          files[p].domain in domains && domains[files[p].domain] == Loaded(files[p].domain, p, files[p].config))
  }

  lemma {:induction false} AllReadAt(files: Files, all: seq<Loaded>, p: Text)
    ensures p in AllRead(files, all) <==> p in files || LastFrom(all, p).Some?
    ensures p in AllRead(files, all) ==>
      AllRead(files, all)[p] == if LastFrom(all, p).Some? then Contents(LastFrom(all, p).value) else files[p]
    ensures LastFrom(all, p).Some? ==> LastFrom(all, p).value in all && LastFrom(all, p).value.path == p
  {
    if all != [] {
      AllReadAt(files, all[..|all| - 1], p);
      assert all == all[..|all| - 1] + [all[|all| - 1]];
    }
  }

  // ---------- When a step keeps the mirror ----------

  /** The id, if it is held, is that of the file. */
  ghost predicate FreeFor(domains: map<Text, Loaded>, id: Text, path: Text) {
    id in domains ==> domains[id].path == path
  }

  /** What a reload remembers covers all that the file stands for, and nothing of another file. */
  ghost predicate RemembersItsOwn(s: State, files: Files, t: Task, loaded: Option<Text>)
    requires t.LoadingFile?
  {
    && (t.previous.Some? && loaded != Some(t.previous.value.domain) ==>
          FreeFor(s.domains, t.previous.value.domain, t.path))
    && (t.path in files && files[t.path].Parsed? && loaded != Some(files[t.path].domain) ==>
          t.previous.Some? && t.previous.value.domain == files[t.path].domain)
  }

  /** The last entry of every id is the last one of its file, and the other way round, also where nothing was loaded. */
  ghost predicate LoadsApart(domains: map<Text, Loaded>, files: Files, all: seq<Loaded>) {
    && (forall d :: LastLoaded(all, d).Some? ==>
          LastFrom(all, LastLoaded(all, d).value.path) == LastLoaded(all, d))
    && (forall p :: LastFrom(all, p).Some? ==>
          LastLoaded(all, LastFrom(all, p).value.domain) == LastFrom(all, p))
    && (forall d :: d in domains && LastLoaded(all, d).None? ==> LastFrom(all, domains[d].path).None?)
    && (forall p :: p in files && files[p].Parsed? && LastFrom(all, p).None? ==>
          LastLoaded(all, files[p].domain).None?)
  }

  ghost predicate KeepsMirror(s: State, files: Files, ev: Event)
    requires Enabled(s, ev)
  {
    match ev
    case FileLoaded(k, Parsed(d, _)) =>
      FreeFor(s.domains, d, s.tasks[k].path) && RemembersItsOwn(s, files, s.tasks[k], Some(d))
    case FileLoaded(k, Unreadable) => RemembersItsOwn(s, files, s.tasks[k], None)
    case AllLoaded(_, Some(all)) => LoadsApart(s.domains, files, all)
    case _ => true
  }

  /** A file of which another file takes the id away is no longer mirrored. */
  lemma LostFile(domains: map<Text, Loaded>, files: Files, q: Text)
    requires q in files && files[q].Parsed?
    requires files[q].domain in domains ==> domains[files[q].domain].path != q
    ensures !Mirrors(domains, files)
  {
  }

  /** An id under which a file stood before it was loaded under another one is no longer right. */
  lemma StaleId(domains: map<Text, Loaded>, files: Files, x: Text)
    requires x in domains && domains[x].path in files
    requires files[domains[x].path].Parsed? ==> files[domains[x].path].domain != x
    ensures !Mirrors(domains, files)
  {
  }

  lemma ParsedOnlyWhen(s: State, files: Files, k: nat, d: Text, c: Text)
    requires Mirrors(s.domains, files) && k in s.tasks && s.tasks[k].LoadingFile?
    requires !KeepsMirror(s, files, FileLoaded(k, Parsed(d, c)))
    ensures var ev := FileLoaded(k, Parsed(d, c)); !Mirrors(Next(s, ev).domains, NextFiles(s, files, ev))
  {
    var ev, t := FileLoaded(k, Parsed(d, c)), s.tasks[k];
    var domains, after := Next(s, ev).domains, NextFiles(s, files, ev);
    if !FreeFor(s.domains, d, t.path) {
      LostFile(domains, after, s.domains[d].path);
    } else if t.previous.Some? && t.previous.value.domain != d && !FreeFor(s.domains, t.previous.value.domain, t.path) {
      LostFile(domains, after, s.domains[t.previous.value.domain].path);
    } else {
      StaleId(domains, after, files[t.path].domain);
    }
  }

  lemma UnreadableOnlyWhen(s: State, files: Files, k: nat)
    requires Mirrors(s.domains, files) && k in s.tasks && s.tasks[k].LoadingFile?
    requires !KeepsMirror(s, files, FileLoaded(k, Unreadable))
    ensures var ev := FileLoaded(k, Unreadable); !Mirrors(Next(s, ev).domains, NextFiles(s, files, ev))
  {
    var ev, t := FileLoaded(k, Unreadable), s.tasks[k];
    var domains, after := Next(s, ev).domains, NextFiles(s, files, ev);
    if t.previous.Some? && !FreeFor(s.domains, t.previous.value.domain, t.path) {
      LostFile(domains, after, s.domains[t.previous.value.domain].path);
    } else {
      StaleId(domains, after, files[t.path].domain);
    }
  }

  lemma FileLoadedMirrors(s: State, files: Files, k: nat, result: FileResult)
    requires Mirrors(s.domains, files) && k in s.tasks && s.tasks[k].LoadingFile?
    requires KeepsMirror(s, files, FileLoaded(k, result))
    ensures var ev := FileLoaded(k, result); Mirrors(Next(s, ev).domains, NextFiles(s, files, ev))
  {
  }

  lemma RefillMirrors(s: State, files: Files, ev: Event)
    requires Mirrors(s.domains, files) && Enabled(s, ev) && ev.AllLoaded? && ev.all.Some?
    requires LoadsApart(s.domains, files, ev.all.value)
    ensures Mirrors(Next(s, ev).domains, NextFiles(s, files, ev))
  {
    var all := ev.all.value;
    var domains, after := Next(s, ev).domains, NextFiles(s, files, ev);
    forall d | d in domains
      ensures domains[d].domain == d && domains[d].path in after && after[domains[d].path] == Contents(domains[d])
    {
      RefillAt(s.domains, all, d);
      AllReadAt(files, all, domains[d].path);
    }
    forall p | p in after && after[p].Parsed?
      ensures after[p].domain in domains && domains[after[p].domain] == Loaded(after[p].domain, p, after[p].config)
    {
      AllReadAt(files, all, p);
      RefillAt(s.domains, all, after[p].domain);
    }
  }

  lemma RefillMirrorsOnlyWhen(s: State, files: Files, ev: Event)
    requires Mirrors(s.domains, files) && Enabled(s, ev) && ev.AllLoaded? && ev.all.Some?
    requires Mirrors(Next(s, ev).domains, NextFiles(s, files, ev))
    ensures LoadsApart(s.domains, files, ev.all.value)
  {
    var all := ev.all.value;
    var domains, after := Next(s, ev).domains, NextFiles(s, files, ev);
    forall d | LastLoaded(all, d).Some? ensures LastFrom(all, LastLoaded(all, d).value.path) == LastLoaded(all, d) {
      LastIdKept(s, files, ev, d);
    }
    forall p | LastFrom(all, p).Some? ensures LastLoaded(all, LastFrom(all, p).value.domain) == LastFrom(all, p) {
      LastFileKept(s, files, ev, p);
    }
    forall d | d in s.domains && LastLoaded(all, d).None? ensures LastFrom(all, s.domains[d].path).None? {
      RefillAt(s.domains, all, d);
      assert d in domains && domains[d] == s.domains[d];
      AllReadAt(files, all, s.domains[d].path);
      LastOfId(all, LastFrom(all, s.domains[d].path), d);
    }
    forall p | p in files && files[p].Parsed? && LastFrom(all, p).None? ensures LastLoaded(all, files[p].domain).None? {
      AllReadAt(files, all, p);
      assert p in after && after[p] == files[p];
      RefillAt(s.domains, all, files[p].domain);
      LastOfFile(all, LastLoaded(all, files[p].domain), p);
    }
  }

  /** An entry of the list is found by its id and by its file. */
  lemma {:induction false} LastOfId(all: seq<Loaded>, l: Option<Loaded>, d: Text)
    requires l.Some? ==> l.value in all
    ensures l.Some? && l.value.domain == d ==> LastLoaded(all, d).Some?
  {
    if all != [] && l.Some? && all[|all| - 1].domain != d {
      assert all == all[..|all| - 1] + [all[|all| - 1]];
      if l.value.domain == d { LastOfId(all[..|all| - 1], l, d); }
    }
  }

  lemma {:induction false} LastOfFile(all: seq<Loaded>, l: Option<Loaded>, p: Text)
    requires l.Some? ==> l.value in all
    ensures l.Some? && l.value.path == p ==> LastFrom(all, p).Some?
  {
    if all != [] && l.Some? && all[|all| - 1].path != p {
      assert all == all[..|all| - 1] + [all[|all| - 1]];
      if l.value.path == p { LastOfFile(all[..|all| - 1], l, p); }
    }
  }

  lemma LastIdKept(s: State, files: Files, ev: Event, d: Text)
    requires Enabled(s, ev) && ev.AllLoaded? && ev.all.Some? && LastLoaded(ev.all.value, d).Some?
    requires Mirrors(Next(s, ev).domains, NextFiles(s, files, ev))
    ensures LastFrom(ev.all.value, LastLoaded(ev.all.value, d).value.path) == LastLoaded(ev.all.value, d)
  {
    var all, l := ev.all.value, LastLoaded(ev.all.value, d).value;
    RefillAt(s.domains, all, d);
    assert d in Next(s, ev).domains && Next(s, ev).domains[d] == l;
    AllReadAt(files, all, l.path);
    LastOfFile(all, Some(l), l.path);
  }

  lemma LastFileKept(s: State, files: Files, ev: Event, p: Text)
    requires Enabled(s, ev) && ev.AllLoaded? && ev.all.Some? && LastFrom(ev.all.value, p).Some?
    requires Mirrors(Next(s, ev).domains, NextFiles(s, files, ev))
    ensures LastLoaded(ev.all.value, LastFrom(ev.all.value, p).value.domain) == LastFrom(ev.all.value, p)
  {
    AllReadAt(files, ev.all.value, p);
    var all, l := ev.all.value, LastFrom(ev.all.value, p).value;
    assert NextFiles(s, files, ev)[p] == Contents(l);
    RefillAt(s.domains, all, l.domain);
    LastOfId(all, Some(l), l.domain);
  }

  lemma MissingMirrors(s: State, files: Files, ev: Event)
    requires Mirrors(s.domains, files) && Enabled(s, ev) && ev.Checked?
    ensures Mirrors(Next(s, ev).domains, NextFiles(s, files, ev))
  {
  }

  /** A step leaves the registry the mirror of its files exactly when its guard, read before the step, holds. */
  lemma StepMirrorsExactlyWhen(s: State, files: Files, ev: Event)
    requires Mirrors(s.domains, files) && Enabled(s, ev)
    ensures Mirrors(Next(s, ev).domains, NextFiles(s, files, ev)) <==> KeepsMirror(s, files, ev)
  {
    match ev {
      case Checked(_, _, _) => MissingMirrors(s, files, ev);
      case FileLoaded(k, result) =>
        if KeepsMirror(s, files, ev) {
          FileLoadedMirrors(s, files, k, result);
        } else if result.Parsed? {
          ParsedOnlyWhen(s, files, k, result.domain, result.config);
        } else {
          UnreadableOnlyWhen(s, files, k);
        }
      case AllLoaded(_, Some(all)) =>
        if LoadsApart(s.domains, files, all) { RefillMirrors(s, files, ev); }
        if Mirrors(Next(s, ev).domains, NextFiles(s, files, ev)) { RefillMirrorsOnlyWhen(s, files, ev); }
      case _ =>
    }
  }

  // ---------- Runs ----------

  ghost predicate MirrorsThroughout(s: State, files: Files, events: seq<Event>)
    requires ValidRun(s, events)
    decreases |events|
  {
    && Mirrors(s.domains, files)
    && (events != [] ==> MirrorsThroughout(Next(s, events[0]), NextFiles(s, files, events[0]), events[1..]))
  }

  ghost predicate KeepsMirrorThroughout(s: State, files: Files, events: seq<Event>)
    requires ValidRun(s, events)
    decreases |events|
  {
    events == []
    || (KeepsMirror(s, files, events[0])
        && KeepsMirrorThroughout(Next(s, events[0]), NextFiles(s, files, events[0]), events[1..]))
  }

  /** At every moment of a run the registry mirrors its files exactly when every step passes its guard. */
  lemma {:induction false} RunMirrorsExactlyWhen(s: State, files: Files, events: seq<Event>)
    requires Mirrors(s.domains, files) && ValidRun(s, events)
    ensures MirrorsThroughout(s, files, events) <==> KeepsMirrorThroughout(s, files, events)
    decreases |events|
  {
    if events != [] {
      StepMirrorsExactlyWhen(s, files, events[0]);
      if KeepsMirror(s, files, events[0]) {
        RunMirrorsExactlyWhen(Next(s, events[0]), NextFiles(s, files, events[0]), events[1..]);
      }
    }
  }

  /** Every id belongs to one file: owner gives it. */
  ghost predicate OwnIds(owner: Text -> Text, s: State, ev: Event)
    requires Enabled(s, ev)
  {
    match ev
    case FileLoaded(k, Parsed(d, _)) => owner(d) == s.tasks[k].path
    case AllLoaded(_, Some(all)) => forall i :: 0 <= i < |all| ==> owner(all[i].domain) == all[i].path
    case _ => true
  }

  ghost predicate Owned(owner: Text -> Text, s: State) {
    && (forall d :: d in s.domains ==> owner(d) == s.domains[d].path)
    && (forall k :: k in s.tasks && s.tasks[k].LoadingFile? && s.tasks[k].previous.Some? ==>
          owner(s.tasks[k].previous.value.domain) == s.tasks[k].path)
  }

  ghost predicate OwnIdsThroughout(owner: Text -> Text, s: State, events: seq<Event>)
    requires ValidRun(s, events)
    decreases |events|
  {
    events == [] || (OwnIds(owner, s, events[0]) && OwnIdsThroughout(owner, Next(s, events[0]), events[1..]))
  }

  lemma OwnedStep(owner: Text -> Text, s: State, ev: Event)
    requires Enabled(s, ev) && Owned(owner, s) && OwnIds(owner, s, ev) && OneEntryPerFile(s)
    ensures Owned(owner, Next(s, ev))
  {
    if ev.AllLoaded? && ev.all.Some? {
      var all, n := ev.all.value, Next(s, ev).domains;
      forall d | d in n ensures owner(d) == n[d].path {
        RefillAt(s.domains, all, d);
        if LastLoaded(all, d).Some? {
          var i :| 0 <= i < |all| && all[i] == LastLoaded(all, d).value;
        }
      }
    }
  }

  /** Where ids are owned and paths distinct, a load into an empty registry keeps the mirror. */
  lemma OwnedLoadsApart(owner: Text -> Text, files: Files, all: seq<Loaded>)
    requires forall i :: 0 <= i < |all| ==> owner(all[i].domain) == all[i].path
    requires forall i, j :: 0 <= i < j < |all| ==> all[i].path != all[j].path
    requires forall p :: p in files ==> !files[p].Parsed?
    ensures LoadsApart(map[], files, all)
  {
    forall d | LastLoaded(all, d).Some? ensures LastFrom(all, LastLoaded(all, d).value.path) == LastLoaded(all, d) {
      RefillAt(map[], all, d);
      var l := LastLoaded(all, d).value;
      LastOfFile(all, Some(l), l.path);
      AllReadAt(map[], all, l.path);
      SamePathSame(all, l, LastFrom(all, l.path).value);
    }
    forall p | LastFrom(all, p).Some? ensures LastLoaded(all, LastFrom(all, p).value.domain) == LastFrom(all, p) {
      AllReadAt(map[], all, p);
      var l := LastFrom(all, p).value;
      LastOfId(all, Some(l), l.domain);
      RefillAt(map[], all, l.domain);
      SameIdSame(owner, all, l, LastLoaded(all, l.domain).value);
    }
  }

  lemma SamePathSame(all: seq<Loaded>, a: Loaded, b: Loaded)
    requires forall i, j :: 0 <= i < j < |all| ==> all[i].path != all[j].path
    requires a in all && b in all && a.path == b.path
    ensures a == b
  {
    var i :| 0 <= i < |all| && all[i] == a;
    var j :| 0 <= j < |all| && all[j] == b;
    assert i == j;
  }

  lemma SameIdSame(owner: Text -> Text, all: seq<Loaded>, a: Loaded, b: Loaded)
    requires forall i :: 0 <= i < |all| ==> owner(all[i].domain) == all[i].path
    requires forall i, j :: 0 <= i < j < |all| ==> all[i].path != all[j].path
    requires a in all && b in all && a.domain == b.domain
    ensures a == b
  {
    var i :| 0 <= i < |all| && all[i] == a;
    var j :| 0 <= j < |all| && all[j] == b;
    SamePathSame(all, a, b);
  }

  lemma OwnedKeepsMirror(owner: Text -> Text, s: State, files: Files, ev: Event)
    requires Enabled(s, ev) && OneEntryPerFile(s) && Disciplined(s, ev)
    requires Mirrors(s.domains, files) && Owned(owner, s) && OwnIds(owner, s, ev)
    ensures KeepsMirror(s, files, ev)
  {
    match ev {
      case FileLoaded(k, _) => assert Remembers(s.domains, s.tasks[k]);
      case AllLoaded(_, Some(all)) => OwnedLoadsApart(owner, files, all);
      case _ =>
    }
  }

  /**
   In every run in which reloads of one file do not overlap and no two files load one id, the
   registry holds at every moment exactly what each file last loaded.
   */
  lemma {:induction false} OwnedRunMirrors(owner: Text -> Text, s: State, files: Files, events: seq<Event>)
    requires OneEntryPerFile(s) && Mirrors(s.domains, files) && Owned(owner, s)
    requires ValidRun(s, events) && DisciplinedRun(s, events) && OwnIdsThroughout(owner, s, events)
    ensures MirrorsThroughout(s, files, events)
    decreases |events|
  {
    if events != [] {
      var ev := events[0];
      OwnedKeepsMirror(owner, s, files, ev);
      StepMirrorsExactlyWhen(s, files, ev);
      StepKeepsOneEntry(s, ev);
      OwnedStep(owner, s, ev);
      OwnedRunMirrors(owner, Next(s, ev), NextFiles(s, files, ev), events[1..]);
    }
  }

  /** What the files gave in a run. */
  ghost function RunFiles(s: State, files: Files, events: seq<Event>): Files
    requires ValidRun(s, events)
    decreases |events|
  {
    if events == [] then files else RunFiles(Next(s, events[0]), NextFiles(s, files, events[0]), events[1..])
  }

  /** One step of a disciplined run, with what the files gave. */
  lemma StepOn(s: State, files: Files, ev: Event, n: State, after: Files, rest: seq<Event>)
    requires Enabled(s, ev) && Next(s, ev) == n && NextFiles(s, files, ev) == after && Disciplined(s, ev)
    requires ValidRun(n, rest) && DisciplinedRun(n, rest)
    ensures ValidRun(s, [ev] + rest) && DisciplinedRun(s, [ev] + rest)
    ensures Run(s, [ev] + rest) == Run(n, rest)
    ensures RunFiles(s, files, [ev] + rest) == RunFiles(n, after, rest)
  {
    StepTo(s, ev, n, rest);
    assert ([ev] + rest)[1..] == rest;
  }

  /**
   A reload that deletes the id it remembers deletes the entry of another file that has loaded
   this id meanwhile: afterwards the other file, though loaded, stands under no id.
   */
  lemma TakenIdDeleted(first: Text, second: Text, a: Text, b: Text, config: Text) returns (events: seq<Event>)
    requires first != second && a != b
    ensures ValidRun(EMPTY, events) && DisciplinedRun(EMPTY, events)
    ensures var s, files := Run(EMPTY, events), RunFiles(EMPTY, map[], events);
      && second in files && files[second] == Parsed(a, config)
      && (forall d :: d in s.domains ==> s.domains[d].path != second)
      && (forall k :: k in s.tasks ==> s.tasks[k] == Done)
      && !Mirrors(s.domains, files)
  {
    var la, taken, lb := Loaded(a, first, config), Loaded(a, second, config), Loaded(b, first, config);
    var s3 := State(map[a := la], map[], map[0 := Done], 1);
    var s7 := State(map[a := la], map[],
      map[0 := Done, 1 := LoadingFile(first, Some(la)), 2 := LoadingFile(second, None)], 3);
    var s8 := State(map[a := taken], map[], map[0 := Done, 1 := LoadingFile(first, Some(la)), 2 := Done], 3);
    var s9 := State(map[b := lb], map[], map[0 := Done, 1 := Done, 2 := Done], 3);
    var f3: Files := map[first := Parsed(a, config)];
    var f8: Files := map[first := Parsed(a, config), second := Parsed(a, config)];
    var f9: Files := map[first := Parsed(b, config), second := Parsed(a, config)];
    LostFile(s9.domains, f9, second);
    events := [];
    StepOn(s8, f8, FileLoaded(1, Parsed(b, config)), s9, f9, events);
    events := [FileLoaded(1, Parsed(b, config))] + events;
    StepOn(s7, f3, FileLoaded(2, Parsed(a, config)), s8, f8, events);
    events := [FileLoaded(2, Parsed(a, config))] + events;
    events := BothLoading(first, second, la, s3, s7, f3, events);
    events := FirstLoaded(la, s3, f3, events);
  }

  lemma FirstLoaded(la: Loaded, s3: State, f3: Files, rest: seq<Event>) returns (events: seq<Event>)
    requires s3 == State(map[la.domain := la], map[], map[0 := Done], 1) && f3 == map[la.path := Contents(la)]
    requires ValidRun(s3, rest) && DisciplinedRun(s3, rest)
    ensures ValidRun(EMPTY, events) && DisciplinedRun(EMPTY, events) && Run(EMPTY, events) == Run(s3, rest)
    ensures RunFiles(EMPTY, map[], events) == RunFiles(s3, f3, rest)
  {
    var s1 := State(map[], map[], map[0 := CheckingFile(la.path)], 1);
    var s2 := State(map[], map[], map[0 := LoadingFile(la.path, None)], 1);
    events := rest;
    StepOn(s2, map[], FileLoaded(0, Contents(la)), s3, f3, events);
    events := [FileLoaded(0, Contents(la))] + events;
    StepOn(s1, map[], Checked(0, true, None), s2, map[], events);
    events := [Checked(0, true, None)] + events;
    StepOn(EMPTY, map[], Reload(la.path), s1, map[], events);
    events := [Reload(la.path)] + events;
  }

  lemma BothLoading(first: Text, second: Text, la: Loaded, s3: State, s7: State, files: Files, rest: seq<Event>)
    returns (events: seq<Event>)
    requires first != second && la.path == first
    requires s3 == State(map[la.domain := la], map[], map[0 := Done], 1)
    requires s7 == State(map[la.domain := la], map[],
      map[0 := Done, 1 := LoadingFile(first, Some(la)), 2 := LoadingFile(second, None)], 3)
    requires ValidRun(s7, rest) && DisciplinedRun(s7, rest)
    ensures ValidRun(s3, events) && DisciplinedRun(s3, events) && Run(s3, events) == Run(s7, rest)
    ensures RunFiles(s3, files, events) == RunFiles(s7, files, rest)
  {
    var s4 := s3.(tasks := map[0 := Done, 1 := CheckingFile(first)], next := 2);
    var s5 := s4.(tasks := map[0 := Done, 1 := LoadingFile(first, Some(la))]);
    var s6 := s5.(tasks := map[0 := Done, 1 := LoadingFile(first, Some(la)), 2 := CheckingFile(second)], next := 3);
    events := rest;
    StepOn(s6, files, Checked(2, true, None), s7, files, events);
    events := [Checked(2, true, None)] + events;
    StepOn(s5, files, Reload(second), s6, files, events);
    events := [Reload(second)] + events;
    StepOn(s4, files, Checked(1, true, Some(la.domain)), s5, files, events);
    events := [Checked(1, true, Some(la.domain))] + events;
    StepOn(s3, files, Reload(first), s4, files, events);
    events := [Reload(first)] + events;
  }
}
