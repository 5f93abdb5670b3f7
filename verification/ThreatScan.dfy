/** Matching packages against a threat feed, one after the other or fanned out over workers. */
module ThreatScan {
  import opened KeyedList
  import opened Sequences
  import opened Sets
  import opened Utf16
  import opened Wrappers

  datatype Package = Package(name: Text, version: Text)

  datatype FeedItem = FeedItem(package: Text, range: Text, note: Text)

  datatype AllowlistItem = AllowlistItem(package: Text, range: Text)

  datatype Match = Match(item: FeedItem, packages: seq<Package>)

  /** The feed, the allowlist and the decision whether a version lies in a range. */
  datatype Feed = Feed(rules: seq<FeedItem>, allowlist: seq<AllowlistItem>, satisfies: (Text, Text) -> bool)

  const PARALLEL_THRESHOLD := 8

  // ---------- One after the other ----------

  predicate AllowedBy(f: Feed, p: Package, entry: AllowlistItem) {
    entry.package == p.name && f.satisfies(p.version, entry.range)
  }

  predicate Hits(f: Feed, p: Package, item: FeedItem) {
    && p.name == item.package
    && f.satisfies(p.version, item.range)
    && forall entry :: entry in f.allowlist ==> !AllowedBy(f, p, entry)
  }

  function Filter(f: Feed, packages: seq<Package>, item: FeedItem): seq<Package> {
    if packages == [] then []
    else
      var last := packages[|packages| - 1];
      Filter(f, packages[..|packages| - 1], item) + if Hits(f, last, item) then [last] else []
  }

  function MatchOf(f: Feed, packages: seq<Package>, item: FeedItem): Match {
    Match(item, Filter(f, packages, item))
  }

  /** What a rule adds to the result: one match, or nothing when it finds no package. */
  function Found(f: Feed, packages: seq<Package>, item: FeedItem): seq<Match> {
    if Filter(f, packages, item) == [] then [] else [MatchOf(f, packages, item)]
  }

  function Finder(f: Feed, packages: seq<Package>): FeedItem -> seq<Match> {
    item => Found(f, packages, item)
  }

  /** The matches of the first n rules, in rule order. */
  function Matches(f: Feed, packages: seq<Package>, n: nat): seq<Match>
    requires n <= |f.rules|
  {
    FlatMap(Finder(f, packages), f.rules[..n])
  }

  lemma MatchesNext(f: Feed, packages: seq<Package>, n: nat)
    requires n < |f.rules|
    ensures Matches(f, packages, n + 1) == Matches(f, packages, n) + Found(f, packages, f.rules[n])
  {
    FlatMapNext(Finder(f, packages), f.rules[..n], f.rules[n]);
    assert f.rules[..n + 1] == f.rules[..n] + [f.rules[n]];
  }

  function AllMatches(f: Feed, packages: seq<Package>): seq<Match> {
    Matches(f, packages, |f.rules|)
  }

  /** The first entry of the allowlist that covers the package stands at i. */
  ghost predicate FirstAllowing(f: Feed, p: Package, i: nat)
    requires i < |f.allowlist|
  {
    AllowedBy(f, p, f.allowlist[i]) && forall j :: 0 <= j < i ==> !AllowedBy(f, p, f.allowlist[j])
  }

  method IsAllowed(f: Feed, p: Package) returns (r: Option<AllowlistItem>)
    ensures r.Some? ==> exists i :: 0 <= i < |f.allowlist| && FirstAllowing(f, p, i) && r.value == f.allowlist[i]
    ensures r.None? ==> forall entry :: entry in f.allowlist ==> !AllowedBy(f, p, entry)
  {
    for i := 0 to |f.allowlist|
      invariant forall j :: 0 <= j < i ==> !AllowedBy(f, p, f.allowlist[j])
    {
      var entry := f.allowlist[i];
      if entry.package == p.name && f.satisfies(p.version, entry.range) {
        assert FirstAllowing(f, p, i);
        return Some(entry);
      }
    }
    return None;
  }

  method FilterPackages(f: Feed, packages: seq<Package>, item: FeedItem) returns (found: seq<Package>)
    ensures found == Filter(f, packages, item)
  {
    found := [];
    for i := 0 to |packages|
      invariant found == Filter(f, packages[..i], item)
    {
      var p := packages[i];
      assert packages[..i + 1][..i] == packages[..i];
      var allowed := IsAllowed(f, p);
      if p.name == item.package && f.satisfies(p.version, item.range) && allowed.None? {
        found := found + [p];
      }
    }
    assert packages[..|packages|] == packages;
  }

  method MatchThreats(f: Feed, packages: seq<Package>) returns (result: seq<Match>)
    ensures result == AllMatches(f, packages)
  {
    result := [];
    for n := 0 to |f.rules|
      invariant result == Matches(f, packages, n)
    {
      MatchesNext(f, packages, n);
      var matchingPackages := FilterPackages(f, packages, f.rules[n]);
      if |matchingPackages| > 0 {
        result := result + [Match(f.rules[n], matchingPackages)];
      }
    }
  }

  // ---------- Fanned out ----------

  function Chunks<T>(items: seq<T>, size: nat): (chunks: seq<seq<T>>)
    requires size > 0 || items == []
    decreases |items|
  {
    if items == [] then []
    else if |items| <= size then [items]
    else [items[..size]] + Chunks(items[size..], size)
  }

  function Remaining<T>(items: seq<T>, index: nat): seq<T> {
    if index < |items| then items[index..] else []
  }

  lemma NextChunk<T>(items: seq<T>, index: nat, size: nat, chunk: seq<T>)
    requires size > 0 && index < |items|
    requires chunk == items[index..if index + size < |items| then index + size else |items|]
    ensures Chunks(Remaining(items, index), size) == [chunk] + Chunks(Remaining(items, index + size), size)
  {
    var rest := items[index..];
    if index + size < |items| {
      assert rest[..size] == chunk && rest[size..] == items[index + size..];
    } else {
      assert rest == chunk;
    }
  }

  method ChunkPackages<T>(items: seq<T>, size: nat) returns (chunks: seq<seq<T>>)
    requires size > 0 || items == []
    ensures chunks == Chunks(items, size)
  {
    chunks := [];
    var index := 0;
    ghost var after := Chunks(items, size);
    while index < |items|
      invariant 0 <= index
      invariant after == Chunks(Remaining(items, index), size)
      invariant chunks + after == Chunks(items, size)
      decreases |items| - index
    {
      var end := if index + size < |items| then index + size else |items|;
      var chunk := items[index..end];
      NextChunk(items, index, size, chunk);
      after := Chunks(Remaining(items, index + size), size);
      Extend(chunks, [chunk], chunks + [chunk], after);
      chunks := chunks + [chunk];
      index := index + size;
    }
  }

  /** The position of the entry with this package name, or the number of entries. */
  function Find(merged: seq<Match>, name: Text): (i: nat)
    ensures i <= |merged|
    ensures i < |merged| ==> merged[i].item.package == name
    ensures forall j :: 0 <= j < i ==> merged[j].item.package != name
  {
    IndexOf(merged, NameOf, name)
  }

  function NameOf(m: Match): Text {
    m.item.package
  }

  /** One step of the merge, whose key is the package name. */
  function Add(merged: seq<Match>, m: Match): seq<Match> {
    var i := Find(merged, m.item.package);
    if i < |merged| then merged[i := Match(merged[i].item, merged[i].packages + m.packages)]
    else merged + [m]
  }

  function Merge(matches: seq<Match>): seq<Match> {
    if matches == [] then [] else Add(Merge(matches[..|matches| - 1]), matches[|matches| - 1])
  }

  /** All matches found in the chunks, in chunk order. */
  function ChunkMatches(f: Feed, chunks: seq<seq<Package>>): seq<Match> {
    FlatMap(Scanner(f), chunks)
  }

  function Scanner(f: Feed): seq<Package> -> seq<Match> {
    chunk => AllMatches(f, chunk)
  }

  lemma ChunkMatchesNext(f: Feed, chunks: seq<seq<Package>>, i: nat)
    requires i < |chunks|
    ensures ChunkMatches(f, chunks[..i + 1]) == ChunkMatches(f, chunks[..i]) + AllMatches(f, chunks[i])
  {
    FlatMapNext(Scanner(f), chunks[..i], chunks[i]);
    assert chunks[..i + 1] == chunks[..i] + [chunks[i]];
  }

  lemma ChunkMatchesLast(f: Feed, chunks: seq<seq<Package>>)
    requires chunks != []
    ensures ChunkMatches(f, chunks)
      == ChunkMatches(f, chunks[..|chunks| - 1]) + AllMatches(f, chunks[|chunks| - 1])
  {
  }

  function CeilDiv(n: nat, d: nat): nat
    requires d > 0
  {
    (n + d - 1) / d
  }

  /** The chunks that so many requested workers get. */
  function WorkerChunks(packages: seq<Package>, workerCount: int): seq<seq<Package>> {
    var workers := if workerCount > 1 then workerCount else 1;
    CeilPositive(|packages|, workers);
    Chunks(packages, CeilDiv(|packages|, workers))
  }

  lemma CeilPositive(n: nat, d: nat)
    requires d > 0
    ensures n > 0 ==> CeilDiv(n, d) > 0
  {
  }

  lemma MergeNext(seen: seq<Match>, matches: seq<Match>, k: nat)
    requires k < |matches|
    ensures Merge(seen + matches[..k + 1]) == Add(Merge(seen + matches[..k]), matches[k])
  {
    assert seen + matches[..k + 1] == seen + matches[..k] + [matches[k]];
    assert (seen + matches[..k + 1])[..|seen| + k] == seen + matches[..k];
  }

  /** Merges the answer of one worker into what was merged from the earlier ones. */
  method MergeAnswer(merged: seq<Match>, matches: seq<Match>, ghost seen: seq<Match>) returns (r: seq<Match>)
    requires merged == Merge(seen)
    ensures r == Merge(seen + matches)
  {
    r := merged;
    assert seen + matches[..0] == seen;
    for k := 0 to |matches|
      invariant r == Merge(seen + matches[..k])
    {
      MergeNext(seen, matches, k);
      r := Add(r, matches[k]);
    }
    assert matches[..|matches|] == matches;
  }

  /** Promise.all over the workers, then the merge; answers says which workers answer in time. */
  method RunWorkers(f: Feed, chunks: seq<seq<Package>>, answers: nat -> bool) returns (result: Option<seq<Match>>)
    ensures result.None? <==> exists i :: 0 <= i < |chunks| && !answers(i)
    ensures result.Some? ==> result.value == Merge(ChunkMatches(f, chunks))
  {
    var merged: seq<Match> := [];
    for i := 0 to |chunks|
      invariant forall j :: 0 <= j < i ==> answers(j)
      invariant merged == Merge(ChunkMatches(f, chunks[..i]))
    {
      if !answers(i) {
        return None;
      }
      var matches := MatchThreats(f, chunks[i]);
      ChunkMatchesNext(f, chunks, i);
      merged := MergeAnswer(merged, matches, ChunkMatches(f, chunks[..i]));
    }
    assert chunks[..|chunks|] == chunks;
    return Some(merged);
  }

  method MatchThreatsParallel(f: Feed, packages: seq<Package>, enabledOption: Option<bool>,
                              workerOption: Option<int>, answers: nat -> bool)
    returns (result: Option<seq<Match>>)
    ensures !enabledOption.GetOr(|packages| >= PARALLEL_THRESHOLD) ==> result == Some(AllMatches(f, packages))
    ensures enabledOption.GetOr(|packages| >= PARALLEL_THRESHOLD) ==>
      (result.None? <==> exists i :: 0 <= i < |WorkerChunks(packages, workerOption.GetOr(2))| && !answers(i))
    ensures enabledOption.GetOr(|packages| >= PARALLEL_THRESHOLD) && result.Some? ==>
      result.value == FanOut(f, packages, workerOption.GetOr(2))
  {
    var enabled := enabledOption.GetOr(|packages| >= PARALLEL_THRESHOLD);
    if !enabled {
      var plain := MatchThreats(f, packages);
      return Some(plain);
    }
    var workerCount := if workerOption.GetOr(2) > 1 then workerOption.GetOr(2) else 1;
    CeilPositive(|packages|, workerCount);
    var chunks := ChunkPackages(packages, CeilDiv(|packages|, workerCount));
    result := RunWorkers(f, chunks, answers);
  }

  // ---------- What the merge keeps ----------

  ghost predicate DistinctNames(matches: seq<Match>) {
    forall i, j :: 0 <= i < j < |matches| ==> matches[i].item.package != matches[j].item.package
  }

  /** The packages matched under a package name, in order. */
  function PackagesFor(matches: seq<Match>, name: Text): seq<Package> {
    FlatMap(Holder(name), matches)
  }

  function Holder(name: Text): Match -> seq<Package> {
    (m: Match) => if m.item.package == name then m.packages else []
  }

  lemma PackagesForConcat(a: seq<Match>, b: seq<Match>, name: Text)
    ensures PackagesFor(a + b, name) == PackagesFor(a, name) + PackagesFor(b, name)
  {
    FlatMapConcat(Holder(name), a, b);
  }

  lemma {:induction false} NoneFor(matches: seq<Match>, name: Text)
    requires forall i :: 0 <= i < |matches| ==> matches[i].item.package != name
    ensures PackagesFor(matches, name) == []
  {
    if matches != [] { NoneFor(matches[..|matches| - 1], name); }
  }

  /** An entry whose name is unique holds all packages of that name. */
  lemma {:induction false} OnlyEntry(matches: seq<Match>, i: nat, name: Text)
    requires i < |matches| && matches[i].item.package == name
    requires forall j :: 0 <= j < |matches| && j != i ==> matches[j].item.package != name
    ensures PackagesFor(matches, name) == matches[i].packages
  {
    var init := matches[..|matches| - 1];
    if i == |matches| - 1 {
      NoneFor(init, name);
    } else {
      OnlyEntry(init, i, name);
    }
  }

  lemma Singleton(m: Match, name: Text)
    ensures PackagesFor([m], name) == if m.item.package == name then m.packages else []
  {
    FlatMapOne(Holder(name), m);
  }

  lemma ReplaceKeeps(a: seq<Match>, e: Match, b: seq<Match>, m: Match, name: Text)
    requires DistinctNames(a + [e] + b) && e.item.package == m.item.package
    ensures var e' := Match(e.item, e.packages + m.packages);
      && DistinctNames(a + [e'] + b)
      && PackagesFor(a + [e'] + b, name)
        == PackagesFor(a + [e] + b, name) + if m.item.package == name then m.packages else []
  {
    var e' := Match(e.item, e.packages + m.packages);
    var s, t := a + [e] + b, a + [e'] + b;
    forall i | 0 <= i < |t| ensures t[i].item == s[i].item {
    }
    if m.item.package == name {
      OnlyEntry(s, |a|, name);
      OnlyEntry(t, |a|, name);
    } else {
      PackagesForConcat(a + [e], b, name);
      PackagesForConcat(a, [e], name);
      PackagesForConcat(a + [e'], b, name);
      PackagesForConcat(a, [e'], name);
      Singleton(e, name);
      Singleton(e', name);
    }
  }

  lemma AddKeeps(merged: seq<Match>, m: Match, name: Text)
    requires DistinctNames(merged)
    ensures DistinctNames(Add(merged, m))
    ensures PackagesFor(Add(merged, m), name)
      == PackagesFor(merged, name) + if m.item.package == name then m.packages else []
  {
    var i := Find(merged, m.item.package);
    if i < |merged| {
      assert merged == merged[..i] + [merged[i]] + merged[i + 1..];
      assert Add(merged, m)
          == merged[..i] + [Match(merged[i].item, merged[i].packages + m.packages)] + merged[i + 1..];
      ReplaceKeeps(merged[..i], merged[i], merged[i + 1..], m, name);
    } else {
      assert (merged + [m])[..|merged|] == merged;
    }
  }

  /** Merging leaves one entry a name, which holds all packages of that name in order. */
  lemma {:induction false} MergeKeeps(matches: seq<Match>, name: Text)
    ensures DistinctNames(Merge(matches))
    ensures PackagesFor(Merge(matches), name) == PackagesFor(matches, name)
  {
    if matches != [] {
      MergeKeeps(matches[..|matches| - 1], name);
      AddKeeps(Merge(matches[..|matches| - 1]), matches[|matches| - 1], name);
    }
  }

  lemma FirstUnmoved(matches: seq<Match>, m: Match, i: nat)
    requires i < |matches|
    ensures Find(matches + [m], matches[i].item.package) == Find(matches, matches[i].item.package) < |matches|
  {
    var name := matches[i].item.package;
    var j, k := Find(matches, name), Find(matches + [m], name);
    assert (matches + [m])[j] == matches[j];
    assert k < |matches| ==> (matches + [m])[k] == matches[k];
  }

  /** An entry stands for the first match of its name. */
  ghost predicate ItemOfFirst(matches: seq<Match>, e: Match) {
    var i := Find(matches, e.item.package);
    i < |matches| && matches[i].item == e.item
  }

  lemma AddOrdered(matches: seq<Match>, merged: seq<Match>, m: Match)
    requires forall k :: 0 <= k < |merged| ==> ItemOfFirst(matches, merged[k])
    requires forall i :: 0 <= i < |matches| ==> Find(merged, matches[i].item.package) < |merged|
    ensures forall k :: 0 <= k < |Add(merged, m)| ==> ItemOfFirst(matches + [m], Add(merged, m)[k])
    ensures forall i :: 0 <= i <= |matches| ==>
      Find(Add(merged, m), (matches + [m])[i].item.package) < |Add(merged, m)|
  {
    var after, all := Add(merged, m), matches + [m];
    var n := Find(merged, m.item.package);
    forall k | 0 <= k < |after| ensures ItemOfFirst(all, after[k]) {
      if k < |merged| {
        assert after[k].item == merged[k].item;
        FirstUnmoved(matches, m, Find(matches, merged[k].item.package));
      } else {
        assert after[k] == m && all[|matches|] == m;
        assert forall i :: 0 <= i < |matches| ==> all[i] == matches[i];
        forall i | 0 <= i < |matches| ensures matches[i].item.package != m.item.package {
          assert Find(merged, matches[i].item.package) < |merged|;
        }
      }
    }
    forall i | 0 <= i <= |matches| ensures Find(after, all[i].item.package) < |after| {
      var j := if i < |matches| then Find(merged, matches[i].item.package) else n;
      assert after[j].item.package == all[i].item.package;
    }
  }

  /** The entries stand in the order in which their names were first found, each with the item of its first match. */
  lemma {:induction false} MergeOrdered(matches: seq<Match>)
    ensures |Merge(matches)| == |FirstKeys(matches, NameOf)|
    ensures forall k :: 0 <= k < |Merge(matches)| ==> NameOf(Merge(matches)[k]) == FirstKeys(matches, NameOf)[k]
    ensures forall k :: 0 <= k < |Merge(matches)| ==> ItemOfFirst(matches, Merge(matches)[k])
    ensures forall i :: 0 <= i < |matches| ==> Find(Merge(matches), matches[i].item.package) < |Merge(matches)|
  {
    if matches != [] {
      var init, last := matches[..|matches| - 1], matches[|matches| - 1];
      MergeOrdered(init);
      LastApart([], matches);
      AddOrdered(init, Merge(init), last);
      NamesNext(Merge(init), FirstKeys(init, NameOf), last);
    }
  }

  lemma NamesNext(merged: seq<Match>, keys: seq<Text>, m: Match)
    requires |merged| == |keys| && forall k :: 0 <= k < |merged| ==> NameOf(merged[k]) == keys[k]
    ensures var next := if m.item.package in keys then keys else keys + [m.item.package];
      |Add(merged, m)| == |next| && forall k :: 0 <= k < |next| ==> NameOf(Add(merged, m)[k]) == next[k]
  {
    var i := Find(merged, m.item.package);
    if i < |merged| { assert keys[i] == m.item.package; }
  }

  lemma {:induction false} MergeItems(matches: seq<Match>, e: Match)
    requires e in Merge(matches)
    ensures exists m :: m in matches && m.item == e.item
  {
    var init, last := matches[..|matches| - 1], matches[|matches| - 1];
    var merged := Merge(init);
    var i := Find(merged, last.item.package);
    if e in merged {
      MergeItems(init, e);
    } else if i < |merged| {
      assert e.item == merged[i].item;
      assert merged[i] in merged;
      MergeItems(init, merged[i]);
    } else {
      assert last in matches;
    }
  }

  // ---------- Chunks hold the packages ----------

  lemma {:induction false} ChunksHold<T>(items: seq<T>, size: nat)
    requires size > 0 || items == []
    ensures Flatten(Chunks(items, size)) == items
    decreases |items|
  {
    if items != [] {
      if |items| <= size {
        FlattenCons(items, []);
        assert [items] + [] == [items];
      } else {
        ChunksHold(items[size..], size);
        FlattenCons(items[..size], Chunks(items[size..], size));
      }
    }
  }

  /** Every chunk but the last is full, and none is empty. */
  lemma {:induction false} ChunksSized<T>(items: seq<T>, size: nat)
    requires size > 0
    ensures forall i :: 0 <= i < |Chunks(items, size)| ==> 0 < |Chunks(items, size)[i]| <= size
    ensures forall i :: 0 <= i < |Chunks(items, size)| - 1 ==> |Chunks(items, size)[i]| == size
    ensures items != [] ==> (|Chunks(items, size)| - 1) * size < |items|
    decreases |items|
  {
    if |items| > size { ChunksSized(items[size..], size); }
  }

  lemma FewerTimes(a: int, b: nat, size: nat)
    ensures (a - 1) * size < b * size ==> a <= b
  {
    if a > b {
      assert (a - 1) * size == b * size + (a - 1 - b) * size;
    }
  }

  lemma CeilMeans(n: nat, d: nat)
    requires d > 0 && n > 0
    ensures (CeilDiv(n, d) - 1) * d < n <= CeilDiv(n, d) * d
  {
  }

  /** Chunks are the smallest that so many workers can share: no more are made, and all but the last are full. */
  lemma WorkersSuffice(packages: seq<Package>, workerCount: int) returns (size: nat)
    requires packages != []
    ensures var chunks, workers := WorkerChunks(packages, workerCount), if workerCount > 1 then workerCount else 1;
      && (size - 1) * workers < |packages| <= size * workers
      && |chunks| <= workers
      && (forall i :: 0 <= i < |chunks| ==> 0 < |chunks[i]| <= size)
      && (forall i :: 0 <= i < |chunks| - 1 ==> |chunks[i]| == size)
  {
    var workers := if workerCount > 1 then workerCount else 1;
    size := CeilDiv(|packages|, workers);
    CeilMeans(|packages|, workers);
    CeilPositive(|packages|, workers);
    ChunksSized(packages, size);
    FewerTimes(|Chunks(packages, size)|, workers, size);
  }

  lemma {:induction false} FilterConcat(f: Feed, a: seq<Package>, b: seq<Package>, item: FeedItem)
    ensures Filter(f, a + b, item) == Filter(f, a, item) + Filter(f, b, item)
  {
    if b == [] {
      assert a + b == a;
    } else {
      assert (a + b)[..|a + b| - 1] == a + b[..|b| - 1];
      FilterConcat(f, a, b[..|b| - 1], item);
    }
  }

  /** What the first n rules find under a package name. */
  function FoundBy(f: Feed, packages: seq<Package>, n: nat, name: Text): seq<Package>
    requires n <= |f.rules|
  {
    FlatMap(Under(f, packages, name), f.rules[..n])
  }

  function Under(f: Feed, packages: seq<Package>, name: Text): FeedItem -> seq<Package> {
    (item: FeedItem) => if item.package == name then Filter(f, packages, item) else []
  }

  lemma FoundByNext(f: Feed, packages: seq<Package>, n: nat, name: Text)
    requires n < |f.rules|
    ensures FoundBy(f, packages, n + 1, name)
      == FoundBy(f, packages, n, name)
        + if f.rules[n].package == name then Filter(f, packages, f.rules[n]) else []
  {
    FlatMapNext(Under(f, packages, name), f.rules[..n], f.rules[n]);
    assert f.rules[..n + 1] == f.rules[..n] + [f.rules[n]];
  }

  lemma MatchesFor(f: Feed, packages: seq<Package>, n: nat, name: Text)
    requires n <= |f.rules|
    ensures PackagesFor(Matches(f, packages, n), name) == FoundBy(f, packages, n, name)
  {
    forall item | item in f.rules[..n]
      ensures Under(f, packages, name)(item) == FlatMap(Holder(name), Finder(f, packages)(item))
    {
      FoundFor(f, packages, item, name);
    }
    FlatMapTwice(Finder(f, packages), Holder(name), Under(f, packages, name), f.rules[..n]);
  }

  lemma FoundFor(f: Feed, packages: seq<Package>, item: FeedItem, name: Text)
    ensures PackagesFor(Found(f, packages, item), name)
      == if item.package == name then Filter(f, packages, item) else []
  {
    if Filter(f, packages, item) != [] {
      Singleton(MatchOf(f, packages, item), name);
    }
  }

  lemma JoinBoth(both: seq<Package>, a: seq<Package>, b: seq<Package>, x: seq<Package>, y: seq<Package>)
    requires multiset(both) == multiset(a) + multiset(b)
    ensures multiset(both + (x + y)) == multiset(a + x) + multiset(b + y)
  {
  }

  lemma {:induction false} FoundByConcat(f: Feed, a: seq<Package>, b: seq<Package>, n: nat, name: Text)
    requires n <= |f.rules|
    ensures multiset(FoundBy(f, a + b, n, name)) == multiset(FoundBy(f, a, n, name)) + multiset(FoundBy(f, b, n, name))
  {
    if n > 0 {
      FoundByConcat(f, a, b, n - 1, name);
      FoundByNext(f, a + b, n - 1, name);
      FoundByNext(f, a, n - 1, name);
      FoundByNext(f, b, n - 1, name);
      if f.rules[n - 1].package == name {
        var item := f.rules[n - 1];
        FilterConcat(f, a, b, item);
        JoinBoth(FoundBy(f, a + b, n - 1, name), FoundBy(f, a, n - 1, name), FoundBy(f, b, n - 1, name),
          Filter(f, a, item), Filter(f, b, item));
      }
    }
  }

  lemma {:induction false} ChunksConserve(f: Feed, chunks: seq<seq<Package>>, name: Text)
    ensures multiset(PackagesFor(ChunkMatches(f, chunks), name))
      == multiset(FoundBy(f, Flatten(chunks), |f.rules|, name))
  {
    if chunks == [] {
      EmptyFinds(f, |f.rules|, name);
    } else {
      var init, last := chunks[..|chunks| - 1], chunks[|chunks| - 1];
      ChunksConserve(f, init, name);
      ChunkMatchesLast(f, chunks);
      PackagesForConcat(ChunkMatches(f, init), AllMatches(f, last), name);
      MatchesFor(f, last, |f.rules|, name);
      FoundByConcat(f, Flatten(init), last, |f.rules|, name);
    }
  }

  lemma {:induction false} EmptyFinds(f: Feed, n: nat, name: Text)
    requires n <= |f.rules|
    ensures FoundBy(f, [], n, name) == []
  {
    if n > 0 {
      EmptyFinds(f, n - 1, name);
      FoundByNext(f, [], n - 1, name);
    }
  }

  /** What the fan-out returns when every worker answers. */
  function FanOut(f: Feed, packages: seq<Package>, workerCount: int): seq<Match> {
    Merge(ChunkMatches(f, WorkerChunks(packages, workerCount)))
  }

  lemma WorkerChunksHold(packages: seq<Package>, workerCount: int)
    ensures Flatten(WorkerChunks(packages, workerCount)) == packages
  {
    var workers := if workerCount > 1 then workerCount else 1;
    CeilPositive(|packages|, workers);
    ChunksHold(packages, CeilDiv(|packages|, workers));
  }

  /** For any number of workers the fan-out conserves the matched packages of every rule name. */
  lemma FanOutConserves(f: Feed, packages: seq<Package>, workerCount: int, name: Text)
    ensures multiset(PackagesFor(FanOut(f, packages, workerCount), name))
      == multiset(PackagesFor(AllMatches(f, packages), name))
  {
    var chunks := WorkerChunks(packages, workerCount);
    WorkerChunksHold(packages, workerCount);
    MergeKeeps(ChunkMatches(f, chunks), name);
    ChunksConserve(f, chunks, name);
    MatchesFor(f, packages, |f.rules|, name);
  }

  // ---------- What is reported ----------

  /** A rule finds the packages it hits, in the order in which they are listed. */
  lemma {:induction false} FilterInOrder(f: Feed, packages: seq<Package>, item: FeedItem) returns (at: seq<nat>)
    ensures Chosen(packages, (p: Package) => Hits(f, p, item), at, Filter(f, packages, item))
  {
    at := [];
    if packages != [] {
      var init, last := packages[..|packages| - 1], packages[|packages| - 1];
      at := FilterInOrder(f, init, item);
      LastApart([], packages);
      ChosenNext(init, last, (p: Package) => Hits(f, p, item), at, Filter(f, init, item));
      if Hits(f, last, item) {
        at := at + [|init|];
      } else {
        assert Filter(f, init, item) + [] == Filter(f, init, item);
      }
    }
  }

  /** The matches belong to the rules, among the first n, that hit some package, in the order of the feed. */
  ghost predicate InRuleOrder(f: Feed, packages: seq<Package>, n: nat, at: seq<nat>, found: seq<Match>)
    requires n <= |f.rules|
  {
    && |at| == |found|
    && (forall k :: 0 <= k < |at| ==> at[k] < n && found[k] == MatchOf(f, packages, f.rules[at[k]]))
    && (forall k, l :: 0 <= k < l < |at| ==> at[k] < at[l])
    && (forall i :: 0 <= i < n ==> (i in at <==> HitsSome(f, packages, f.rules[i])))
  }

  lemma InRuleOrderNext(f: Feed, packages: seq<Package>, n: nat, at: seq<nat>, found: seq<Match>)
    requires n < |f.rules| && InRuleOrder(f, packages, n, at, found)
    ensures var item := f.rules[n];
      if HitsSome(f, packages, item)
      then InRuleOrder(f, packages, n + 1, at + [n], found + [MatchOf(f, packages, item)])
      else InRuleOrder(f, packages, n + 1, at, found)
  {
    forall i ensures i in at + [n] <==> i in at || i == n {
      InConcat(at, [n], i);
    }
  }

  lemma RuleOrderStep(f: Feed, packages: seq<Package>, n: nat, at: seq<nat>, found: seq<Match>, next: seq<Match>)
      returns (longer: seq<nat>)
    requires n < |f.rules| && InRuleOrder(f, packages, n, at, found)
    requires next == found + Found(f, packages, f.rules[n])
    ensures InRuleOrder(f, packages, n + 1, longer, next)
  {
    FilterEmpty(f, packages, f.rules[n]);
    InRuleOrderNext(f, packages, n, at, found);
    if HitsSome(f, packages, f.rules[n]) {
      longer := at + [n];
    } else {
      longer := at;
      assert found + [] == found;
    }
  }

  lemma NoRuleYet(f: Feed, packages: seq<Package>)
    ensures InRuleOrder(f, packages, 0, [], Matches(f, packages, 0))
  {
    assert Matches(f, packages, 0) == [];
  }

  lemma RuleOrderNext(f: Feed, packages: seq<Package>, n: nat, at: seq<nat>) returns (longer: seq<nat>)
    requires n < |f.rules| && InRuleOrder(f, packages, n, at, Matches(f, packages, n))
    ensures InRuleOrder(f, packages, n + 1, longer, Matches(f, packages, n + 1))
  {
    MatchesNext(f, packages, n);
    longer := RuleOrderStep(f, packages, n, at, Matches(f, packages, n), Matches(f, packages, n + 1));
  }

  /** Rules that hit a package are reported, each with all it hits, in the order of the feed. */
  lemma {:induction false} MatchesInOrder(f: Feed, packages: seq<Package>, n: nat) returns (at: seq<nat>)
    requires n <= |f.rules|
    ensures InRuleOrder(f, packages, n, at, Matches(f, packages, n))
  {
    if n == 0 {
      at := [];
      NoRuleYet(f, packages);
    } else {
      var before := MatchesInOrder(f, packages, n - 1);
      at := RuleOrderNext(f, packages, n - 1, before);
    }
  }

  lemma {:induction false} FilterCounts(f: Feed, packages: seq<Package>, item: FeedItem, p: Package)
    ensures multiset(Filter(f, packages, item))[p] == if Hits(f, p, item) then multiset(packages)[p] else 0
  {
    if packages != [] {
      FilterCounts(f, packages[..|packages| - 1], item, p);
      LastApart([], packages);
    }
  }

  lemma FilterHolds(f: Feed, packages: seq<Package>, item: FeedItem, p: Package)
    ensures p in Filter(f, packages, item) <==> p in packages && Hits(f, p, item)
  {
    FilterCounts(f, packages, item, p);
    assert p in Filter(f, packages, item) <==> multiset(Filter(f, packages, item))[p] > 0;
    assert p in packages <==> multiset(packages)[p] > 0;
  }

  /**
   A rule is reported with a package exactly when the package is installed, the rule names it with
   a range that its version satisfies, and the allowlist has no entry of its name with such a range.
   */
  lemma SequentialMeans(f: Feed, packages: seq<Package>, item: FeedItem, p: Package)
    ensures (exists m :: m in AllMatches(f, packages) && m.item == item && p in m.packages)
      <==>
      && p in packages && item in f.rules
      && item.package == p.name && f.satisfies(p.version, item.range)
      && !exists e :: e in f.allowlist && e.package == p.name && f.satisfies(p.version, e.range)
  {
    if m :| m in AllMatches(f, packages) && m.item == item && p in m.packages {
      var i := MatchFromRule(f, packages, |f.rules|, m);
      FilterHolds(f, packages, item, p);
      forall e | e in f.allowlist && e.package == p.name ensures !f.satisfies(p.version, e.range) {
        assert !AllowedBy(f, p, e);
      }
    }
    if item in f.rules && p in packages && Hits(f, p, item) {
      var i :| 0 <= i < |f.rules| && f.rules[i] == item;
      FilterHolds(f, packages, item, p);
      RuleGivesMatch(f, packages, |f.rules|, i);
    }
  }

  /** The rules among the first n that hit a package. */
  ghost function HittingRules(f: Feed, p: Package, n: nat): set<nat>
    requires n <= |f.rules|
  {
    set i | 0 <= i < n && Hits(f, p, f.rules[i])
  }

  lemma CountsAdd<T>(a: seq<T>, b: seq<T>, x: T, each: nat, times: nat, more: bool)
    requires multiset(a)[x] == each * times && multiset(b)[x] == if more then each else 0
    ensures multiset(a + b)[x] == each * (times + if more then 1 else 0)
  {
  }

  lemma HittingNext(f: Feed, p: Package, n: nat)
    requires n < |f.rules|
    ensures |HittingRules(f, p, n + 1)| == |HittingRules(f, p, n)| + if Hits(f, p, f.rules[n]) then 1 else 0
  {
    CountNext(HittingRules(f, p, n), HittingRules(f, p, n + 1), n, Hits(f, p, f.rules[n]));
  }

  lemma NoneHits(f: Feed, p: Package)
    ensures |HittingRules(f, p, 0)| == 0
  {
    assert HittingRules(f, p, 0) == {};
  }

  lemma FoundCountsNext(f: Feed, packages: seq<Package>, n: nat, p: Package, each: nat, times: nat, after: nat)
    requires n < |f.rules| && each == multiset(packages)[p]
    requires multiset(FoundBy(f, packages, n, p.name))[p] == each * times
    requires after == times + if Hits(f, p, f.rules[n]) then 1 else 0
    ensures multiset(FoundBy(f, packages, n + 1, p.name))[p] == each * after
  {
    var item := f.rules[n];
    FoundByNext(f, packages, n, p.name);
    FilterCounts(f, packages, item, p);
    var found := if item.package == p.name then Filter(f, packages, item) else [];
    CountsAdd(FoundBy(f, packages, n, p.name), found, p, each, times, Hits(f, p, item));
  }

  lemma {:induction false} FoundCounts(f: Feed, packages: seq<Package>, n: nat, p: Package, each: nat)
    requires n <= |f.rules| && each == multiset(packages)[p]
    ensures multiset(FoundBy(f, packages, n, p.name))[p] == each * |HittingRules(f, p, n)|
  {
    if n == 0 {
      NoneHits(f, p);
    } else {
      FoundCounts(f, packages, n - 1, p, each);
      HittingNext(f, p, n - 1);
      FoundCountsNext(f, packages, n - 1, p, each, |HittingRules(f, p, n - 1)|, |HittingRules(f, p, n)|);
    }
  }

  /** However many workers there are, a package is listed once for each rule that hits it. */
  lemma FanOutCounts(f: Feed, packages: seq<Package>, workerCount: int, p: Package)
    ensures multiset(PackagesFor(FanOut(f, packages, workerCount), p.name))[p]
      == multiset(packages)[p] * |HittingRules(f, p, |f.rules|)|
  {
    FanOutConserves(f, packages, workerCount, p.name);
    MatchesFor(f, packages, |f.rules|, p.name);
    FoundCounts(f, packages, |f.rules|, p, multiset(packages)[p]);
  }

  lemma ForMatch(matches: seq<Match>, name: Text, p: Package)
    ensures p in PackagesFor(matches, name)
      <==> exists m :: m in matches && m.item.package == name && p in m.packages
  {
    if p in PackagesFor(matches, name) {
      var i := FromItem(Holder(name), matches, p);
      assert matches[i] in matches;
    }
    if m :| m in matches && m.item.package == name && p in m.packages {
      var i :| 0 <= i < |matches| && matches[i] == m;
      ToResult(Holder(name), matches, i, p);
    }
  }

  /** The fan-out reports under a name exactly the packages that some rule of the feed is to report. */
  lemma FanOutMeans(f: Feed, packages: seq<Package>, workerCount: int, name: Text, p: Package)
    ensures p in PackagesFor(FanOut(f, packages, workerCount), name)
      <==>
      && p in packages && p.name == name
      && (exists item :: item in f.rules && item.package == name && f.satisfies(p.version, item.range))
      && !exists e :: e in f.allowlist && e.package == name && f.satisfies(p.version, e.range)
  {
    var all, fan := AllMatches(f, packages), FanOut(f, packages, workerCount);
    FanOutConserves(f, packages, workerCount, name);
    assert p in PackagesFor(fan, name) <==> p in multiset(PackagesFor(fan, name));
    assert p in PackagesFor(all, name) <==> p in multiset(PackagesFor(all, name));
    ForMatch(all, name, p);
    forall m | m in all && m.item.package == name && p in m.packages
      ensures p in packages && p.name == name && m.item in f.rules && f.satisfies(p.version, m.item.range)
      ensures !exists e :: e in f.allowlist && e.package == name && f.satisfies(p.version, e.range)
    {
      SequentialMeans(f, packages, m.item, p);
    }
    forall item | item in f.rules && item.package == name && f.satisfies(p.version, item.range)
      ensures p in packages && p.name == name
        && (!exists e :: e in f.allowlist && e.package == name && f.satisfies(p.version, e.range))
        ==> exists m :: m in all && m.item == item && p in m.packages
    {
      SequentialMeans(f, packages, item, p);
    }
  }

  // ---------- When the fan-out is a permutation ----------

  lemma {:induction false} FilterEmpty(f: Feed, packages: seq<Package>, item: FeedItem)
    ensures Filter(f, packages, item) == [] <==> forall p :: p in packages ==> !Hits(f, p, item)
  {
    if packages != [] {
      FilterEmpty(f, packages[..|packages| - 1], item);
      assert packages == packages[..|packages| - 1] + [packages[|packages| - 1]];
    }
  }

  /** An entry of the sequential result is what one of the rules finds. */
  lemma MatchFromRule(f: Feed, packages: seq<Package>, n: nat, m: Match) returns (i: nat)
    requires n <= |f.rules| && m in Matches(f, packages, n)
    ensures i < n && m == MatchOf(f, packages, f.rules[i]) && m.packages != []
  {
    i := FromItem(Finder(f, packages), f.rules[..n], m);
  }

  /** What a rule finds is an entry of the sequential result. */
  lemma RuleGivesMatch(f: Feed, packages: seq<Package>, n: nat, i: nat)
    requires i < n <= |f.rules| && Filter(f, packages, f.rules[i]) != []
    ensures MatchOf(f, packages, f.rules[i]) in Matches(f, packages, n)
  {
    assert Finder(f, packages)(f.rules[i]) == [MatchOf(f, packages, f.rules[i])];
    ToResult(Finder(f, packages), f.rules[..n], i, MatchOf(f, packages, f.rules[i]));
  }

  /** No two rules of one name both find something. */
  ghost predicate OneFinder(f: Feed, packages: seq<Package>, n: nat)
    requires n <= |f.rules|
  {
    forall i, j :: 0 <= i < j < n && f.rules[i].package == f.rules[j].package ==>
      Filter(f, packages, f.rules[i]) == [] || Filter(f, packages, f.rules[j]) == []
  }

  /** No earlier rule of the name of the last one finds something if the last one does. */
  ghost predicate LastFindsAlone(f: Feed, packages: seq<Package>, n: nat)
    requires 0 < n <= |f.rules|
  {
    Filter(f, packages, f.rules[n - 1]) == []
    || forall i | 0 <= i < n - 1 && f.rules[i].package == f.rules[n - 1].package ::
      Filter(f, packages, f.rules[i]) == []
  }

  lemma OneFinderNext(f: Feed, packages: seq<Package>, n: nat)
    requires 0 < n <= |f.rules|
    ensures OneFinder(f, packages, n) <==> OneFinder(f, packages, n - 1) && LastFindsAlone(f, packages, n)
  {
  }

  lemma DistinctNext(f: Feed, packages: seq<Package>, n: nat)
    requires 0 < n <= |f.rules|
    ensures DistinctNames(Matches(f, packages, n))
      <==> DistinctNames(Matches(f, packages, n - 1)) && LastFindsAlone(f, packages, n)
  {
    var before, found := Matches(f, packages, n - 1), Filter(f, packages, f.rules[n - 1]);
    MatchesNext(f, packages, n - 1);
    if found == [] {
      assert before + [] == before;
    } else {
      NameIsNew(f, packages, n - 1, f.rules[n - 1].package);
      DistinctLast(before, Match(f.rules[n - 1], found));
    }
  }

  lemma {:induction false} DistinctMeansOneFinder(f: Feed, packages: seq<Package>, n: nat)
    requires n <= |f.rules|
    ensures DistinctNames(Matches(f, packages, n)) <==> OneFinder(f, packages, n)
  {
    if n == 0 {
      assert Matches(f, packages, 0) == [];
    } else {
      DistinctMeansOneFinder(f, packages, n - 1);
      DistinctNext(f, packages, n);
      OneFinderNext(f, packages, n);
    }
  }

  ghost predicate Names(matches: seq<Match>, name: Text) {
    exists i :: 0 <= i < |matches| && matches[i].item.package == name
  }

  lemma DistinctLast(before: seq<Match>, m: Match)
    ensures DistinctNames(before + [m]) <==> DistinctNames(before) && !Names(before, m.item.package)
  {
    var all := before + [m];
    assert all[|before|] == m;
    assert forall i :: 0 <= i < |before| ==> all[i] == before[i];
  }

  lemma NameIsNew(f: Feed, packages: seq<Package>, n: nat, name: Text)
    requires n <= |f.rules|
    ensures Names(Matches(f, packages, n), name) <==>
      exists i :: 0 <= i < n && f.rules[i].package == name && Filter(f, packages, f.rules[i]) != []
  {
    var matches := Matches(f, packages, n);
    if Names(matches, name) {
      var k :| 0 <= k < |matches| && matches[k].item.package == name;
      var i := MatchFromRule(f, packages, n, matches[k]);
    }
    if i :| 0 <= i < n && f.rules[i].package == name && Filter(f, packages, f.rules[i]) != [] {
      RuleGivesMatch(f, packages, n, i);
    }
  }

  /** A rule that alone finds something under its name finds all that is found under it. */
  lemma {:induction false} OnlyFinder(f: Feed, packages: seq<Package>, n: nat, i: nat)
    requires i < |f.rules| && n <= |f.rules|
    requires forall j :: 0 <= j < |f.rules| && j != i && f.rules[j].package == f.rules[i].package ==>
      Filter(f, packages, f.rules[j]) == []
    ensures FoundBy(f, packages, n, f.rules[i].package)
      == if i < n then Filter(f, packages, f.rules[i]) else []
  {
    if n > 0 {
      OnlyFinder(f, packages, n - 1, i);
      FoundByNext(f, packages, n - 1, f.rules[i].package);
    }
  }

  lemma {:induction false} OnlyFinderInChunks(f: Feed, chunks: seq<seq<Package>>, i: nat)
    requires i < |f.rules|
    requires forall j :: 0 <= j < |f.rules| && j != i && f.rules[j].package == f.rules[i].package ==>
      Filter(f, Flatten(chunks), f.rules[j]) == []
    ensures PackagesFor(ChunkMatches(f, chunks), f.rules[i].package) == Filter(f, Flatten(chunks), f.rules[i])
  {
    if chunks != [] {
      var init, last := chunks[..|chunks| - 1], chunks[|chunks| - 1];
      forall j | 0 <= j < |f.rules| && j != i && f.rules[j].package == f.rules[i].package
        ensures Filter(f, Flatten(init), f.rules[j]) == [] && Filter(f, last, f.rules[j]) == []
      {
        FilterConcat(f, Flatten(init), last, f.rules[j]);
      }
      OnlyFinderInChunks(f, init, i);
      ChunkMatchesLast(f, chunks);
      PackagesForConcat(ChunkMatches(f, init), AllMatches(f, last), f.rules[i].package);
      MatchesFor(f, last, |f.rules|, f.rules[i].package);
      OnlyFinder(f, last, |f.rules|, i);
      FilterConcat(f, Flatten(init), last, f.rules[i]);
    }
  }

  /** Every match of a chunk comes from a rule that finds something in the whole list. */
  lemma ChunkFinders(f: Feed, chunks: seq<seq<Package>>, m: Match) returns (i: nat)
    requires m in ChunkMatches(f, chunks)
    ensures i < |f.rules| && f.rules[i] == m.item && Filter(f, Flatten(chunks), m.item) != []
  {
    var k := FromItem(Scanner(f), chunks, m);
    i := MatchFromRule(f, chunks[k], |f.rules|, m);
    FilterOfChunk(f, chunks, k, m.item);
  }

  /** What a rule finds in a chunk it finds in the whole list. */
  lemma {:induction false} FilterOfChunk(f: Feed, chunks: seq<seq<Package>>, k: nat, item: FeedItem)
    requires k < |chunks| && Filter(f, chunks[k], item) != []
    ensures Filter(f, Flatten(chunks), item) != []
  {
    var init, last := chunks[..|chunks| - 1], chunks[|chunks| - 1];
    FilterConcat(f, Flatten(init), last, item);
    if k < |init| { FilterOfChunk(f, init, k, item); }
  }

  lemma {:induction false} EntryFor(merged: seq<Match>, name: Text) returns (k: nat)
    requires PackagesFor(merged, name) != []
    ensures k < |merged| && merged[k].item.package == name
  {
    if merged[|merged| - 1].item.package == name {
      k := |merged| - 1;
    } else {
      k := EntryFor(merged[..|merged| - 1], name);
    }
  }

  /** When names are found once, each sequential entry is an entry of the fan-out. */
  lemma SequentialEntry(f: Feed, chunks: seq<seq<Package>>, i: nat)
    requires i < |f.rules| && OneFinder(f, Flatten(chunks), |f.rules|)
    requires Filter(f, Flatten(chunks), f.rules[i]) != []
    ensures Match(f.rules[i], Filter(f, Flatten(chunks), f.rules[i])) in Merge(ChunkMatches(f, chunks))
  {
    var name, found := f.rules[i].package, ChunkMatches(f, chunks);
    var merged := Merge(found);
    OnlyFinderInChunks(f, chunks, i);
    MergeKeeps(found, name);
    var k := EntryFor(merged, name);
    OnlyEntry(merged, k, name);
    MergeItems(found, merged[k]);
    var m :| m in found && m.item == merged[k].item;
    var j := ChunkFinders(f, chunks, m);
    assert j == i;
  }

  lemma {:induction false} DistinctCounts(s: seq<Match>, m: Match)
    requires DistinctNames(s)
    ensures multiset(s)[m] == if m in s then 1 else 0
  {
    if s != [] {
      var init, last := s[..|s| - 1], s[|s| - 1];
      DistinctCounts(init, m);
      assert s == init + [last];
    }
  }

  lemma SameEntries(a: seq<Match>, b: seq<Match>)
    requires DistinctNames(a) && DistinctNames(b)
    requires forall m :: m in a <==> m in b
    ensures multiset(a) == multiset(b)
  {
    forall m: Match ensures multiset(a)[m] == multiset(b)[m] {
      DistinctCounts(a, m);
      DistinctCounts(b, m);
    }
  }

  lemma PermutationDistinct(a: seq<Match>, b: seq<Match>)
    requires DistinctNames(a) && multiset(a) == multiset(b)
    ensures DistinctNames(b)
  {
    forall i, j | 0 <= i < j < |b| ensures b[i].item.package != b[j].item.package {
      assert b[i] in multiset(b) && b[j] in multiset(b);
      assert b[i] in a && b[j] in a;
      assert b == b[..j] + [b[j]] + b[j + 1..];
      assert b[i] in b[..j];
      DistinctCounts(a, b[i]);
      assert multiset(b[..j])[b[i]] >= 1;
      assert multiset(b)[b[i]] == multiset(b[..j])[b[i]] + multiset([b[j]])[b[i]] + multiset(b[j + 1..])[b[i]];
    }
  }

  ghost predicate HitsSome(f: Feed, packages: seq<Package>, item: FeedItem) {
    exists p :: p in packages && Hits(f, p, item)
  }

  /** Of two rules for one package name at most one hits any of the packages. */
  ghost predicate RulesApart(f: Feed, packages: seq<Package>) {
    forall i, j | 0 <= i < j < |f.rules| && f.rules[i].package == f.rules[j].package ::
      !HitsSome(f, packages, f.rules[i]) || !HitsSome(f, packages, f.rules[j])
  }

  lemma ApartMeansOneFinder(f: Feed, packages: seq<Package>)
    ensures RulesApart(f, packages) <==> OneFinder(f, packages, |f.rules|)
  {
    forall i | 0 <= i < |f.rules|
      ensures Filter(f, packages, f.rules[i]) == [] <==> !HitsSome(f, packages, f.rules[i])
    {
      FilterEmpty(f, packages, f.rules[i]);
    }
  }

  lemma SequentialInFan(f: Feed, chunks: seq<seq<Package>>, m: Match)
    requires OneFinder(f, Flatten(chunks), |f.rules|)
    requires m in AllMatches(f, Flatten(chunks))
    ensures m in Merge(ChunkMatches(f, chunks))
  {
    var i := MatchFromRule(f, Flatten(chunks), |f.rules|, m);
    SequentialEntry(f, chunks, i);
  }

  lemma FanInSequential(f: Feed, chunks: seq<seq<Package>>, m: Match)
    requires OneFinder(f, Flatten(chunks), |f.rules|)
    requires m in Merge(ChunkMatches(f, chunks))
    ensures m in AllMatches(f, Flatten(chunks))
  {
    MergeItems(ChunkMatches(f, chunks), m);
    var c :| c in ChunkMatches(f, chunks) && c.item == m.item;
    var i := ChunkFinders(f, chunks, c);
    SequentialEntry(f, chunks, i);
    RuleGivesMatch(f, Flatten(chunks), |f.rules|, i);
    MergeKeeps(ChunkMatches(f, chunks), m.item.package);
  }

  /**
   The fan-out is a permutation of the sequential result, with the same item and the same ordered
   packages in every entry, exactly when no two rules for one package name hit some package each.
   */
  lemma PermutationExactlyWhen(f: Feed, packages: seq<Package>, workerCount: int)
    ensures multiset(FanOut(f, packages, workerCount)) == multiset(AllMatches(f, packages))
      <==> RulesApart(f, packages)
  {
    var chunks := WorkerChunks(packages, workerCount);
    WorkerChunksHold(packages, workerCount);
    var fan, all := FanOut(f, packages, workerCount), AllMatches(f, packages);
    ApartMeansOneFinder(f, packages);
    DistinctMeansOneFinder(f, packages, |f.rules|);
    MergeKeeps(ChunkMatches(f, chunks), []);
    if multiset(fan) == multiset(all) {
      PermutationDistinct(fan, all);
    }
    if DistinctNames(all) {
      forall m ensures m in fan <==> m in all {
        if m in all { SequentialInFan(f, chunks, m); }
        if m in fan { FanInSequential(f, chunks, m); }
      }
      SameEntries(fan, all);
    }
  }

  /** Two rules for one package that both hit it: the fan-out lists the package twice, under the first rule alone. */
  lemma SharedNameMerges(p: Package, a: FeedItem, b: FeedItem, satisfies: (Text, Text) -> bool, workerCount: int)
    requires a.package == b.package == p.name && satisfies(p.version, a.range) && satisfies(p.version, b.range)
    ensures var f := Feed([a, b], [], satisfies);
      && AllMatches(f, [p]) == [Match(a, [p]), Match(b, [p])]
      && FanOut(f, [p], workerCount) == [Match(a, [p, p])]
      && multiset(FanOut(f, [p], workerCount)) != multiset(AllMatches(f, [p]))
  {
    var f := Feed([a, b], [], satisfies);
    var first, second := Match(a, [p]), Match(b, [p]);
    FilterOne(f, p, a);
    FilterOne(f, p, b);
    TwoMatches(f, [p]);
    OneChunk(p, workerCount);
    OneAnswer(f, [p]);
    MergeTwo(first, second);
    assert first.packages + second.packages == [p, p];
    PermutationExactlyWhen(f, [p], workerCount);
    assert HitsSome(f, [p], f.rules[0]) && HitsSome(f, [p], f.rules[1]);
  }

  lemma FilterOne(f: Feed, p: Package, item: FeedItem)
    requires Hits(f, p, item)
    ensures Filter(f, [p], item) == [p]
  {
    assert [p][..0] == [];
  }

  lemma TwoMatches(f: Feed, packages: seq<Package>)
    requires |f.rules| == 2 && forall i :: 0 <= i < 2 ==> Filter(f, packages, f.rules[i]) == packages != []
    ensures AllMatches(f, packages) == [Match(f.rules[0], packages), Match(f.rules[1], packages)]
  {
    MatchesNext(f, packages, 0);
    MatchesNext(f, packages, 1);
    assert Matches(f, packages, 0) == [];
    assert [] + [Match(f.rules[0], packages)] == [Match(f.rules[0], packages)];
  }

  lemma OneChunk(p: Package, workerCount: int)
    ensures WorkerChunks([p], workerCount) == [[p]]
  {
    var workers := if workerCount > 1 then workerCount else 1;
    CeilPositive(1, workers);
  }

  lemma OneAnswer(f: Feed, chunk: seq<Package>)
    ensures ChunkMatches(f, [chunk]) == AllMatches(f, chunk)
  {
    FlatMapOne(Scanner(f), chunk);
  }

  lemma MergeTwo(m: Match, n: Match)
    requires m.item.package == n.item.package
    ensures Merge([m, n]) == [Match(m.item, m.packages + n.packages)]
  {
    assert [m, n][..1] == [m] && [m][..0] == [];
    assert Merge([m]) == [] + [m] == [m];
    assert Find([m], n.item.package) == 0;
  }

  /** Distinct rule names suffice, for every list of packages and every number of workers. */
  lemma DistinctRulesSuffice(f: Feed, packages: seq<Package>, workerCount: int)
    requires forall i, j :: 0 <= i < j < |f.rules| ==> f.rules[i].package != f.rules[j].package
    ensures multiset(FanOut(f, packages, workerCount)) == multiset(AllMatches(f, packages))
  {
    DistinctMeansOneFinder(f, packages, |f.rules|);
    PermutationExactlyWhen(f, packages, workerCount);
  }
}
