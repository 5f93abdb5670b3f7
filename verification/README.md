# Verification of the security planner's algorithms

This project models the self-contained algorithms of a Bun security planner (a command-line tool that
guards domains: their configuration, threat feeds, policies, audit logs and reports) and proves what
they promise. Code that changes state step by step is a method with loops or a class with fields, and
is proved against a specification function; the properties of runs, round trips and transformations
are lemmas about those functions.

| file | models |
|---|---|
| `Registry.dfy`, `RegistryFiles.dfy`, `DomainWatch.dfy`, `WatchedRegistry.dfy` | the domain registry, its derived cache of security contexts, reloads split at their awaits, the registry against its files, the debounce timers of the watcher, and watcher and registry together |
| `FeedCache.dfy`, `FeedVersions.dfy`, `FeedFreshness.dfy` | the conditional-GET feed cache, foreground calls and background revalidations interleaved; which version of the origin its stores hold; how old what it serves can be |
| `AuditSink.dfy`, `AuditLog.dfy`, `AesGcm.dfy`, `Compress.dfy`, `Base64.dfy`, `TextEncoding.dfy` | the encrypted audit log: appends, framings, reading back |
| `SamplePlatform.dfy` | a platform with every property the audit log takes for granted |
| `DoctorSnapshot.dfy`, `Json.dfy`, `JsonReader.dfy` | the key-sorting printer, snapshot comparison, JSON text and a reader of it (sections 2 to 7 of RFC 8259) |
| `RateLimiter.dfy` | the sliding-window rate limiter |
| `Terminal.dfy` | greedy line wrapping |
| `Glob.dfy`, `Policy.dfy` | package globs compiled to regular expressions, the policy engine, merging of policy documents |
| `Crc32.dfy`, `CrcOfIend.dfy`, `Png.dfy`, `Bits.dfy`, `Buffers.dfy` | the CRC and the solid-colour PNG writer, with a reader (RFC 2083) |
| `ConfigMerge.dfy`, `ConfigDefaults.dfy`, `DefaultConfig.dfy`, `KeyedList.dfy` | deep merging, reading by path, completing a configuration |
| `ThreatScan.dfy` | sequential and fanned-out threat matching |
| `CommandLine.dfy` | the REPL tokenizer |
| `CertChain.dfy` | the issuer-chain walk |
| `Utf16.dfy`, `Numerals.dfy`, `Splitting.dfy`, `Sequences.dfy`, `Sets.dfy`, `Wrappers.dfy` | strings as UTF-16 code units, splitting them, and small helpers |

Strings are sequences of UTF-16 code units, lone surrogates included. Ciphers, compressors, JSON
parsing, UTF-8, display widths, version ranges and CVE patterns are function parameters; each theorem
states as a `requires` what it takes for granted of them, mostly that one function undoes another.

## Where a promise fails

The code is modelled as it is; where a promise does not hold of it, a lemma gives the input and
another says exactly when it holds.

- The CRC shifts the register by one bit per byte (`src/utils/crc32.ts:17`); the CRC of section 15 of
  RFC 2083 shifts by eight. `Crc32.OneByteDiffers` shows that every one-byte buffer gets a wrong value,
  `Crc32.IntendedIsBitwise` proves the eight-bit form, `Png.StandardReaderAcceptsExactlyWhen` says when
  a reader with the standard CRC accepts a file, and `Png.StandardReaderRejects` that it accepts none
  that this writer makes: the CRC of the closing IEND chunk is always wrong.
- Deep merging is not associative (`ConfigMerge.MergeNotAssociative`); it is exactly on trees that
  `ConfigMerge.Associates` describes.
- Fanned-out matching is a permutation of sequential matching exactly when no two rules for one package
  name hit some package each (`ThreatScan.PermutationExactlyWhen`); with two such rules the fan-out lists
  the package twice under the first of them (`ThreatScan.SharedNameMerges`).
- The etag fallback of the feed cache can pair new data with an old etag (`FeedCache.FallbackCanMispair`).
  Against an origin whose etags name their data it does so exactly when an answer without etag brings
  other data than the call had found stored (`FeedCache.StepKeepsPairingExactlyWhen`, and for runs
  `FeedCache.RunKeepsPairingExactlyWhen`).
- A feed answer that came first may be written last, over a newer one
  (`FeedVersions.OlderAnswerOverwrites`). No store goes back, however the writes under way end, exactly
  when no two of them carry different versions (`FeedVersions.NeverBackExactlyWhen`).
- Cached contexts go stale when `loadAll` refills under a context built while it waited
  (`Registry.LoadLeavesStale`). A pending load is safe, whatever the files hold, exactly when nothing is
  cached (`Registry.LoadSafeExactlyWhen`); a run stays coherent when its refills find the cache empty
  (`Registry.RunCoherent`), and exactly when they load the configs they find in use
  (`Registry.RunCoherentExactlyWhen`).
- Ids that extend one another past a colon share cache keys (`Registry.ColonIdsClash`); callers are always
  served a context of their own domain exactly when no two ids do (`Registry.OwnContextExactlyWhen`).
- An empty explicit secret shares the key of an omitted one (`Registry.EmptySecretShared`); callers are
  always served the secret they pass exactly when it is not empty (`Registry.SecretServedExactlyWhen`).
- Overlapping reloads of one file can leave two entries for it (`Registry.OverlapDuplicates`); what a
  step meets in the registry tells exactly when it does (`Registry.StepUniqueExactlyWhen`, and for runs
  `Registry.RunUniqueExactlyWhen`). A watch whose reloads are over within the debounce time never
  overlaps them (`WatchedRegistry.WatchedRunKeepsOneEntry`).
- A reload whose file changes its id deletes the id it remembers, also when another file has loaded that id
  meanwhile and then stands under none, though loaded (`RegistryFiles.TakenIdDeleted`).
  `RegistryFiles.StepMirrorsExactlyWhen` says when a step leaves the registry with exactly what its files
  last loaded; when reloads of one file do not overlap and no two files load one id, it always does
  (`RegistryFiles.OwnedRunMirrors`), as behind a watch whose reloads are over within the debounce time
  (`WatchedRegistry.WatchedRunMirrors`).
- The rate limiter is maximal for every run exactly when the window or the limit is positive
  (`RateLimiter.MaximalExactlyWhen`).
- A space separates the tokens of two command lines exactly when the first ends outside quotes
  (`CommandLine.SpaceSeparatesExactlyWhen`).
- The issuer walk need not end for certificates without fingerprint and serial number
  (`CertChain.UnkeyedRootNeverStops`). `CertChain.LoopEndsExactlyWhen` says when it ends, and
  `CertChain.EndsWithin` after how many certificates this is known.
- Appends stand in the order in which their encryption finished, not in call order
  (`AuditSink.AppendsOvertake`). Call order is kept, however the appends end, exactly when no two
  different entries are being encrypted at once (`AuditSink.OrderKeptExactlyWhen`); awaited appends keep
  it (`AuditSink.AwaitedInOrder`).
- Hard wrapping cuts words by code units; its lines stay within the columns exactly when the pieces it
  cuts do (`Terminal.HardFitsExactlyWhen`), which pieces of wide units do not
  (`Terminal.WideUnitsOverflow`).
- An append to a file whose last line lacks its line feed can be lost: a padded line swallows the next one
  (`AuditSink.UnfinishedFileLosesAppend`). Nothing is lost exactly when what stands behind the last line
  feed holds no base64 symbol and no padding and opens with no brace, or when it yields nothing and the
  bytes it makes together with the next line decrypt to the entry of that line all the same
  (`AuditSink.PartialLineCostsNothingExactlyWhen`), as with encoded white space in front of JSON text
  (`AuditLog.SkippedBytesCostNothing`). Behind a torn append, unless its part of a line and the next line
  decrypt together, nothing is lost exactly when nothing of it had been written
  (`AuditSink.TornAppendCostsNothingExactlyWhen`).

Where comments and code disagree the model follows the code: a rule without `to` escalates to fatal
and downgrades to info, not one step (`src/policy/engine.ts:62-63` and `:83`), and a downgrade to info
leaves a warning (`:53-55`); `crc32` is called PNG-compatible (`src/utils/crc32.ts:13`).

## Model

| member | source | states |
|---|---|---|
| JsonReader.ReadBack | src/domain/doctor-snapshot.ts:69-80 | a reader of JSON text, white space and all escapes included, gives back every tree from its printed text |
| JsonReader.StringBodyUnique | src/domain/doctor-snapshot.ts:69-80 | a printed string can be read back in one way only, whatever text follows it |
| JsonReader.PrintInjective | src/domain/doctor-snapshot.ts:69-80 | JSON text is injective: two trees print alike exactly when they are one tree |
| JsonReader.PrintSpaces | src/domain/doctor-snapshot.ts:70 | printing without indentation adds no white space: the only spaces are those of strings and keys |
| JsonReader.EscapesMean | src/domain/doctor-snapshot.ts:70 | which units are escaped, and with how many units |
| JsonReader.PairsMean | src/domain/doctor-snapshot.ts:70 | surrogate pairs are printed as they are, every other unit on its own |
| JsonReader.NumeralMeans | src/domain/doctor-snapshot.ts:70 | a numeral is a number of the grammar of section 6 of RFC 8259 |
| JsonReader.NumberRead | src/domain/doctor-snapshot.ts:70 | every number of that grammar is a numeral |
| DoctorSnapshot.OrderCanonical | src/domain/doctor-snapshot.ts:71-76 | sorting the entries of an object, in the order in which objects then list their keys, forgets their order and nothing else |
| DoctorSnapshot.ConvertDecides | src/domain/doctor-snapshot.ts:71-78 | the replacer maps two values to one tree exactly when they are equal up to key order at every depth, undefined fields dropped |
| DoctorSnapshot.StableStringifyCanonical | src/domain/doctor-snapshot.ts:69-80 | stableStringify is canonical: one text exactly when the documents are equal up to key order at every depth |
| DoctorSnapshot.StableStringifyMeans | src/domain/doctor-snapshot.ts:69-80 | read as JSON, the text shows the value: scalars as they are, elements in place, printed fields under their keys, array indices first by value, then the other keys by their first differing unit |
| DoctorSnapshot.OrderedKeys | src/domain/doctor-snapshot.ts:71-76 | the entries of an object are printed in that order |
| DoctorSnapshot.IndexKeyMeans | src/domain/doctor-snapshot.ts:72-76 | the keys that come first are exactly the numerals of array indices |
| DoctorSnapshot.First | src/domain/doctor-snapshot.ts:195-196 | the find callback gives the entry that has the id and before which none has |
| DoctorSnapshot.CompareDoctorSnapshots | src/domain/doctor-snapshot.ts:180-211 | the sets of ids, the loop over shared ids and the verdict, as a relation between the documents and the result |
| DoctorSnapshot.IdsInOrder | src/domain/doctor-snapshot.ts:184-185 | every id is listed once, in the order in which the ids first appear |
| DoctorSnapshot.WithoutInOrder | src/domain/doctor-snapshot.ts:187-188 | missing and extra keep that order |
| DoctorSnapshot.ListsMean | src/domain/doctor-snapshot.ts:187-203 | missing, extra and changed hold exactly the ids of the previous document alone, of the current one alone, and of both with first records that differ beyond key order |
| DoctorSnapshot.OkMeansSame | src/domain/doctor-snapshot.ts:205-210 | a comparison is ok exactly when both documents have the same ids and, per id, first entries equal up to key order |
| DoctorSnapshot.SwapComparison | src/domain/doctor-snapshot.ts:184-210 | swapping the arguments swaps missing and extra and keeps the changed ids and the verdict |
| Registry.DomainRegistry.constructor | src/config/registry.ts:28-31 | a new registry holds no domains, no contexts and no tasks |
| Registry.DomainRegistry.GetSecurity | src/config/registry.ts:55-71 | security() throws for an unknown domain, serves the cached context under its key, and otherwise builds and caches one from the current config |
| Registry.DomainRegistry.StartLoadAll | src/config/registry.ts:34-37 | loadAll clears domains and cache before it awaits the files |
| Registry.DomainRegistry.FinishLoadAll | src/config/registry.ts:38-41 | after the await loadAll sets every loaded domain and clears nothing again |
| Registry.DomainRegistry.ReloadDomain | src/config/registry.ts:102-105 | a reload begins by asking whether the file at the resolved path exists |
| Registry.RefillAt | src/config/registry.ts:38-40 | the refill leaves under an id the last entry loaded for it, or what stood there before when none was loaded |
| Registry.RefillCoherentExactlyWhen | src/config/registry.ts:34-41 | a refill keeps the cache coherent exactly when no context in use belongs to an id for which another config was loaded |
| Registry.LoadSafeExactlyWhen | src/config/registry.ts:34-41 | while a load waits, every content of the files leaves the cache coherent exactly when nothing is cached |
| Registry.LoadLeavesStale | src/config/registry.ts:34-41 | a run in which a load leaves the registry with a new config and callers with a context of the old one |
| Registry.ServedCurrent | src/config/registry.ts:55-71 | when no id extends another past a colon, callers get a context of their own domain, built from the current config |
| Registry.SecretServedExactlyWhen | src/config/registry.ts:61-66 | callers are served the secret they pass, in every coherent registry, exactly when it is not empty |
| Registry.EmptySecretShared | src/config/registry.ts:61-66 | a run after which a caller without secret is served the context with the empty secret of another one |
| Registry.ColonIdsClash | src/config/registry.ts:61 | for all ids one of which extends the other past a colon, some run serves the longer id the context of the shorter |
| Registry.OwnContextExactlyWhen | src/config/registry.ts:55-71 | every caller is served a context of its own domain, in every coherent registry with these ids, exactly when no id extends another past a colon |
| Registry.DomainRegistry.ClearSecurityCacheForDomain | src/config/registry-watch.ts:92-101 | exactly the keys that equal the id, or extend it past a colon, leave the cache |
| Registry.ClearMeans | src/config/registry-watch.ts:92-101 | of separable ids, clearing one deletes all its contexts and none of the other |
| Registry.ReloadClears | src/config/registry-watch.ts:120-133 | a file that is loaded clears the contexts of its own id and of the one it had, and keeps all others |
| Registry.DomainRegistry.FindByPath | src/config/registry-watch.ts:109 | the previous entry is some entry with the path, absent when there is none |
| Registry.DomainRegistry.DeleteDomain | src/config/registry-watch.ts:112-114 | removing a domain also removes its contexts |
| Registry.DomainRegistry.ResumeChecked | src/config/registry-watch.ts:108-118 | a missing file removes its previous entry and reports this; an existing one goes on to be loaded |
| Registry.DomainRegistry.ResumeLoaded | src/config/registry-watch.ts:120-147 | a loaded file replaces its previous entry, also under a new id; a file that fails to load removes it; what happened is reported |
| Registry.ReportedMeans | src/config/registry-watch.ts:106-147 | a file that had an entry when it was checked is reported changed, any other added, and a failure names that entry |
| Registry.StepCoherentExactlyWhen | src/config/registry-watch.ts:92-148 | a step of the registry keeps the cache coherent exactly when it is not a refill with another config for a context in use |
| Registry.RunCoherent | src/config/registry.ts:34-41 | in every interleaving of reloads, loads and security calls whose refills find the cache empty, each cached context was built from the config its id now has |
| Registry.RunCoherentExactlyWhen | src/config/registry.ts:34-71 | any run is coherent at every moment exactly when each refill loads the configs it finds in use |
| Registry.QuietRunCoherent | src/config/registry.ts:34-71 | runs without security calls while a load is pending stay coherent, however reloads and loads overlap |
| Registry.AtomicRunCoherent | src/config/registry.ts:34-41 | runs whose loads are over as soon as they begin stay coherent |
| Registry.FileLoadedUniqueExactlyWhen | src/config/registry-watch.ts:120-128 | a loaded file stands under one id afterwards exactly when no third id had it |
| Registry.StepUniqueExactlyWhen | src/config/registry-watch.ts:103-148 | a step leaves every file under one id exactly when its guard, read before the step, holds |
| Registry.RunUniqueExactlyWhen | src/config/registry-watch.ts:103-148 | no file stands under two ids at any moment of a run exactly when every step passes its guard |
| Registry.DisciplinedGuarded | src/config/registry-watch.ts:103-148 | runs in which reloads of one path do not overlap pass every guard |
| Registry.StepKeepsOneEntry | src/config/registry-watch.ts:103-148 | a step keeps one entry a file when reloads of one path do not overlap |
| Registry.RunKeepsOneEntry | src/config/registry-watch.ts:103-148 | in every such run no file stands under two ids |
| Registry.OverlapDuplicates | src/config/registry-watch.ts:108-128 | overlapping reloads of a file whose id changes in between leave two entries for it |
| RegistryFiles.StepMirrorsExactlyWhen | src/config/registry-watch.ts:103-148 | a step leaves in the registry exactly what each file last loaded, exactly when its guard, read before the step, holds |
| RegistryFiles.RunMirrorsExactlyWhen | src/config/registry-watch.ts:103-148 | the guards decide whole runs |
| RegistryFiles.OwnedRunMirrors | src/config/registry-watch.ts:103-148 | when reloads of one file do not overlap and no two files load one id, the registry holds at every moment exactly what each file last loaded |
| RegistryFiles.TakenIdDeleted | src/config/registry-watch.ts:112-128 | a run without overlapping reloads of one file after which all reloads are over and a file that was loaded stands under no id |
| DomainWatch.Watch.constructor | src/config/registry-watch.ts:50-52 | a watch starts without timers |
| DomainWatch.Watch.Schedule | src/config/registry-watch.ts:54-71 | a change clears the timer of its file and sets it anew |
| DomainWatch.Watch.Fire | src/config/registry-watch.ts:60-62 | a timer that fires leaves the map and starts one reload of its file |
| DomainWatch.Watch.Unwatch | src/config/registry-watch.ts:82-88 | unwatching drops every timer |
| DomainWatch.PendingMeans | src/config/registry-watch.ts:54-71 | a timer is pending exactly for the files whose last event is a change, due debounceMs after that change |
| DomainWatch.ReloadFollowsQuiet | src/config/registry-watch.ts:54-71 | a reload starts debounceMs or more after the last change of its file, with no other event of that file in between |
| DomainWatch.OneReloadPerChange | src/config/registry-watch.ts:54-71 | no change leads to two reloads |
| WatchedRegistry.FiringDisciplined | src/config/registry-watch.ts:54-71 | a timer that fires while every reload is younger than debounceMs finds no reload of its file under way |
| WatchedRegistry.WatchedRunKeepsOneEntry | src/config/registry-watch.ts:45-148 | in every run of watch and registry together whose reloads are over within debounceMs of their start, no file stands under two ids |
| WatchedRegistry.WatchedRunMirrors | src/config/registry-watch.ts:45-148 | in every run of watch and registry whose reloads are over within debounceMs of their start, and of whose files no two load one id, the registry holds at every moment exactly what each file last loaded |
| WatchedRegistry.SlowReloadOverlapped | src/config/registry-watch.ts:54-71 | a reload still under way debounceMs after a change of its file can be joined by a second one |
| FeedCache.Cache.constructor | src/provider/cache.ts:134-139 | a cache starts with both stores empty and no call under way |
| FeedCache.Cache.GetCachedFeed | src/provider/cache.ts:134-145 | a call fetches at once when ttlMs is not positive, and otherwise reads its stores |
| FeedCache.Cache.RedisRead | src/provider/cache.ts:82-86 | the first store is asked first; its absence leads to the file and an exception in it rejects the call |
| FeedCache.Cache.FileRead | src/provider/cache.ts:56-70 | an unreadable file counts as no entry |
| FeedCache.Cache.ServeOrFetch | src/provider/cache.ts:145-154 | a fresh entry is returned and revalidated in the background; otherwise the origin is asked with the stored etag |
| FeedCache.Cache.Settle | src/provider/cache.ts:111-127 | what a settled fetch does in the foreground and in the background: keep on 304, write on 200, give up on failure |
| FeedCache.Cache.RedisWrite | src/provider/cache.ts:96-98 | the first store is written first and its failure abandons the write |
| FeedCache.Cache.FileWrite | src/provider/cache.ts:72-80 | the file is written next and its failures are ignored |
| FeedCache.Cache.ClearCache | src/provider/cache.ts:174-177 | clearing first asks for the file |
| FeedCache.Cache.FileDeleted | src/provider/cache.ts:176-181 | a file that is there and can be deleted is dropped, and the first store comes next when it is in use |
| FeedCache.Cache.RedisDeleted | src/provider/cache.ts:181-184 | the first store drops its entry when it can be reached |
| FeedCache.StepKeepsPairingExactlyWhen | src/provider/cache.ts:160-170 | against an origin whose etags name their data, a step keeps all data paired with etags of one origin version exactly when it is not an answer without etag that brings other data than the call had found stored |
| FeedCache.RunKeepsPairingExactlyWhen | src/provider/cache.ts:103-172 | a run keeps everything paired at every moment exactly when no such answer occurs in it |
| FeedCache.RunKeepsPairing | src/provider/cache.ts:103-172 | in every interleaving of calls, revalidations and lost stores, against an origin that always sends an etag, every stored and carried entry belongs to one origin version |
| FeedCache.NotModifiedCertifies | src/provider/cache.ts:155-158 | after any such run a 304 means the data the call goes on to return is what the origin serves at that moment |
| FeedCache.FallbackCanMispair | src/provider/cache.ts:167 | whenever an origin changes its data, an answer without etag can leave the new data under the old etag |
| FeedVersions.SafeExactlyWhen | src/provider/cache.ts:155-172 | from a state whose stores are not ahead of its writes, no way of ending the writes goes back exactly when all carry one version |
| FeedVersions.NeverBackExactlyWhen | src/provider/cache.ts:155-172 | against an origin that advances, no store goes back at any point of a run, however the writes end, exactly when no two writes under way ever carry different versions |
| FeedVersions.OneAnswerUniform | src/provider/cache.ts:155-172 | that is so when each answer is written before another one comes |
| FeedVersions.RunRecorded | src/provider/cache.ts:155-172 | after a coherent run against an origin whose etags name their data, the stores hold the data of the versions recorded for them, 304 answers included |
| FeedVersions.OlderAnswerOverwrites | src/provider/cache.ts:160-172 | for every later version, a run in which the file goes back from it to an older answer, after another call returned the newer one |
| FeedFreshness.ServedExactlyWhen | src/provider/cache.ts:143-151 | a call that has read the cache returns data exactly when the entry found holds it and is no older than ttlMs |
| FeedFreshness.ReadGoesOn | src/provider/cache.ts:147-154 | then one revalidation with the etag of that entry is under way; otherwise the call awaits the origin with the entry found |
| FeedFreshness.ConditionMeans | src/provider/cache.ts:128-130 | a request is conditional exactly when the entry at hand has an etag that is not empty, and then on that etag |
| FeedFreshness.FetchStores | src/provider/cache.ts:154-172 | a call that was not served stores the answer, on a 304 what it had found, under the time of its read in every store it uses, and returns it |
| FeedFreshness.RevalidationStores | src/provider/cache.ts:108-127 | a revalidation stores new data under the time of the answer, and nothing on a 304 |
| FeedFreshness.FirstCallFills | src/provider/cache.ts:132-173 | a call on empty stores asks each of them and then fills every one with the answer |
| FeedFreshness.FailuresTouchNothing | src/provider/cache.ts:92-101 | a store changes only when it is reached, and an exception ends the call as it is |
| FeedFreshness.ClearEmpties | src/provider/cache.ts:175-186 | clearing empties every store it reaches |
| FeedFreshness.NothingCached | src/provider/cache.ts:137-141 | without a positive ttlMs no run stores or reads anything |
| FeedFreshness.RunServed | src/provider/cache.ts:132-173 | in every run, a call that returned without an answer of its own was served an entry no older than ttlMs |
| FeedFreshness.StalenessBounded | src/provider/cache.ts:132-173 | in every run with a clock that does not run backwards, what a call returned is what the origin served at an answer to it, or at an answer no earlier than ttlMs before it read the cache |
| AuditSink.Sink.constructor | src/audit/encrypted-jsonl-sink.ts:22-29 | a sink starts with the file as it is and an empty chain of writes |
| AuditSink.Sink.Append | src/audit/encrypted-jsonl-sink.ts:34-47 | an encrypted entry joins the chain as one base64 line, compressed when the sink compresses |
| AuditSink.Sink.Settle | src/audit/encrypted-jsonl-sink.ts:42-47 | the oldest write settles: it adds its line, or fails and leaves the file as it is, and the next one starts either way |
| AuditSink.Sink.Stored | src/audit/encrypted-jsonl-sink.ts:74-80 | reading yields what the lines of the file hold |
| AuditSink.RunConsistent | src/audit/encrypted-jsonl-sink.ts:34-49 | after any run the file holds, in enqueue order, exactly the lines whose writes succeeded, and the chain those after the last settled one |
| AuditSink.LogReadsBack | src/audit/encrypted-jsonl-sink.ts:34-69 | after any run, concurrent or not, and on any file, a reader finds what it found before and then, in enqueue order, the entries whose writes succeeded; a partial last line merges with the first of them alone |
| AuditSink.PartialLineMerges | src/audit/encrypted-jsonl-sink.ts:34-69 | behind part of a line all complete lines and all lines after the next one are read, and the line that merges with that part yields one entry or none |
| AuditSink.PartialLineCostsNothingExactlyWhen | src/audit/encrypted-jsonl-sink.ts:34-69 | after any run behind part of a line, every old and every written entry is read exactly when decoding finds nothing in that part and it opens with no brace, or when it yields nothing and merges with the next line into bytes that decrypt to the entry of that line |
| AuditSink.TornAppendCostsNothingExactlyWhen | src/audit/encrypted-jsonl-sink.ts:34-69 | after any run behind a torn append, whose part of a line does not decrypt together with the next line, nothing is lost exactly when nothing of it had been written |
| SamplePlatform.SampleReasonable | src/audit/encrypted-jsonl-sink.ts:96-122 | what is taken for granted of encoder, cipher, compressors and parser can be had together, with the JSON reader as parser |
| SamplePlatform.TornAppendMet | src/audit/encrypted-jsonl-sink.ts:34-69 | some platform, file, torn append and run meet all that is required where the cost of a torn append is stated |
| SamplePlatform.TornAppendLoses | src/audit/encrypted-jsonl-sink.ts:34-69 | there an append behind one symbol of a torn line is not read back |
| AuditSink.UnfinishedFileLosesAppend | src/audit/encrypted-jsonl-sink.ts:34-69 | an entry appended behind a padded line that lacks only its line feed is never read |
| AuditSink.CallsConserved | src/audit/encrypted-jsonl-sink.ts:34-49 | every call is still being encrypted or has joined the chain once |
| AuditSink.NothingLost | src/audit/encrypted-jsonl-sink.ts:34-80 | when all work is done and no write failed, every entry appended is read exactly once, but for the first one added to a partial line |
| AuditSink.OrderKeptExactlyWhen | src/audit/encrypted-jsonl-sink.ts:34-52 | at every point of a run call order is kept, however the work under way is finished, exactly when at no point two different entries are being encrypted |
| AuditSink.SafeExactlyWhen | src/audit/encrypted-jsonl-sink.ts:34-49 | from a run in order so far, no way of finishing it breaks call order exactly when the entries being encrypted are all equal |
| AuditSink.AwaitedInOrder | src/audit/encrypted-jsonl-sink.ts:34-49 | when each append is called while no other one is being encrypted, the entries called are those enqueued, in order, and at most one more |
| AuditSink.CallOrderReadsBack | src/audit/encrypted-jsonl-sink.ts:34-69 | then a reader finds, in call order, exactly the entries whose writes succeeded, on any file; behind part of a line the first of them is what the merged line makes of it |
| AuditSink.OvertakenReadsBack | src/audit/encrypted-jsonl-sink.ts:34-69 | with two different entries being encrypted, some way of finishing makes a reader find another order, behind complete and partial last lines |
| AuditSink.AppendsOvertake | src/audit/encrypted-jsonl-sink.ts:34-49 | an append may overtake one called before it |
| AuditLog.SplitLinesMeans | src/audit/encrypted-jsonl-sink.ts:61 | the lines hold no line feed, and joined by line feeds they are the text |
| AuditLog.TryDecryptEnvelope | src/audit/encrypted-jsonl-sink.ts:115-122 | an envelope that does not decrypt or parse yields nothing |
| AuditLog.TryDecryptLine | src/audit/encrypted-jsonl-sink.ts:96-113 | a line that opens with a brace is read as JSON, any other one as base64, decompressed by a reader that does so |
| AuditLog.LineFramed | src/audit/encrypted-jsonl-sink.ts:34-40 | a line decodes to the JSON text of its envelope, compressed behind the magic bytes and the number of the format when the sink compresses |
| AuditLog.TruthyMeans | src/audit/encrypted-jsonl-sink.ts:91-93 | entries are yielded unless they are null, false, 0 or empty strings |
| AuditLog.ParseChunk | src/audit/encrypted-jsonl-sink.ts:86-94 | the entries of the lines that are not blank and decrypt, in order |
| AuditLog.ReadAll | src/audit/encrypted-jsonl-sink.ts:56-80 | a missing file reads as no entries |
| AuditLog.SplitAtFeed | src/audit/encrypted-jsonl-sink.ts:61 | splitting a text at one of its line feeds splits its lines |
| AuditLog.EntriesSplit | src/audit/encrypted-jsonl-sink.ts:60-68 | what stands before a line feed and what stands after it are read independently |
| AuditLog.FaultIsolation | src/audit/encrypted-jsonl-sink.ts:9-16 | whatever a line is overwritten with, the entries before and after it are still read |
| AuditLog.PartialCostsNothingExactlyWhen | src/audit/encrypted-jsonl-sink.ts:96-113 | a line behind part of a line is read, and costs nothing, exactly when decoding finds nothing in that part and it opens with no brace, or when that part yields nothing and the merged bytes decrypt to the entry all the same |
| AuditLog.TornCostsNothingExactlyWhen | src/audit/encrypted-jsonl-sink.ts:96-113 | behind the beginning of a written line, which does not decrypt together with the next one, that is so exactly when the beginning is empty |
| AuditLog.MergedBytesDiffer | src/audit/encrypted-jsonl-sink.ts:96-113 | symbols in front of a line never leave it its own bytes |
| AuditLog.SkippedBytesCostNothing | src/audit/encrypted-jsonl-sink.ts:96-113 | encoded bytes that the parser skips hold symbols and cost nothing in front of a line |
| SamplePlatform.SkippedSpacesMet | src/audit/encrypted-jsonl-sink.ts:96-113 | encoded spaces in front of an uncompressed line are such bytes where the parser skips spaces |
| AuditLog.UnfinishedLineSwallows | src/audit/encrypted-jsonl-sink.ts:40-44 | a padded line without its line feed is read alone, together with the next line |
| AuditLog.UnpaddedLinesMerge | src/audit/encrypted-jsonl-sink.ts:40-44 | without padding the bytes of both lines are read as one payload |
| AuditLog.SymbolsPlain | src/audit/encrypted-jsonl-sink.ts:40 | base64 emits no white space, no line feed and no brace |
| AuditLog.SealedBack | src/audit/encrypted-jsonl-sink.ts:115-118 | the envelope of an entry decrypts to the entry |
| AuditLog.WrittenBack | src/audit/encrypted-jsonl-sink.ts:34-40 | a written line, uncompressed, gzip or zstd, decrypts to its entry |
| AuditLog.PlainBack | src/audit/encrypted-jsonl-sink.ts:98-101 | a bare JSON envelope decrypts to its entry |
| AuditLog.ReadBack | src/audit/encrypted-jsonl-sink.ts:56-69 | over any mix of bare JSON, uncompressed, gzip, zstd and damaged lines a reader returns, in order, exactly the entries of the undamaged ones |
| Base64.RoundTrip | src/audit/encrypted-jsonl-sink.ts:107 | decoding undoes encoding, as in section 4 of RFC 4648 |
| Base64.Alphabet | src/audit/encrypted-jsonl-sink.ts:40 | the symbols in the order of their values, as in section 4 of RFC 4648 |
| Base64.GroupValue | src/audit/encrypted-jsonl-sink.ts:40 | four symbols, the first the most significant, are worth their three bytes |
| Base64.EncodeMeans | src/audit/encrypted-jsonl-sink.ts:40 | three bytes become four symbols of their value, one or two are filled up with zero bits and padded |
| Base64.ValuesMean | src/audit/encrypted-jsonl-sink.ts:107 | the decoder reads the symbols and the two URL-safe ones, and no other unit |
| Base64.EncodedInFours | src/audit/encrypted-jsonl-sink.ts:40 | an encoded text comes in fours, padded by what its bytes lack to threes |
| Base64.OnlySymbols | src/audit/encrypted-jsonl-sink.ts:40 | an encoded text holds nothing but the alphabet and the padding |
| Base64.PaddedHides | src/audit/encrypted-jsonl-sink.ts:107 | a padded text decodes to its own bytes, whatever follows it |
| Base64.ShiftedDiffers | src/audit/encrypted-jsonl-sink.ts:107 | symbols in front of an encoded payload change what it decodes to |
| TextEncoding.PrintClean | src/audit/encrypted-jsonl-sink.ts:35-36 | printed JSON has no lone surrogate and no control character |
| TextEncoding.PrintedSurvives | src/audit/encrypted-jsonl-sink.ts:36-39 | printed JSON survives encoding to bytes and decoding |
| Compress.CompressBytes | src/crypto/compress.ts:24-37 | the buffer holds the magic bytes, the format byte and the compressed body |
| Compress.DecompressInverts | src/crypto/compress.ts:43-55 | a payload of either format comes back, whatever the format of the reader |
| Compress.LegacyUnchanged | src/crypto/compress.ts:39-55 | JSON text without a header is returned unchanged |
| Buffers.Set | src/crypto/compress.ts:33-36 | writing a part into a buffer changes that part and nothing else |
| AesGcm.DecryptText | src/crypto/aes-gcm.ts:55-68 | the ciphertext that is opened is the data followed by the tag |
| AesGcm.DecryptInverts | src/crypto/aes-gcm.ts:28-68 | an envelope opens to the text it was made from: the split off tag is joined back |
| AesGcm.EnvelopeMeans | src/crypto/aes-gcm.ts:43-51 | the tag is the last sixteen bytes of what the cipher returned, the data all others |
| RateLimiter.Limiter.constructor | src/utils/rate-limit.ts:18-22 | a limiter starts without attempts |
| RateLimiter.Limiter.Attempt | src/utils/rate-limit.ts:25-42 | expired attempts leave the queue; the attempt is admitted below the limit, or refused with the rounded time until the oldest expires |
| RateLimiter.Limiter.Reset | src/utils/rate-limit.ts:43-45 | resetting forgets all attempts |
| RateLimiter.QueueShape | src/utils/rate-limit.ts:29-35 | in every run the queue is sorted, within the limit and not ahead of the clock |
| RateLimiter.QueueCounts | src/utils/rate-limit.ts:29-35 | the queue is as long as there are admissions still in the window |
| RateLimiter.AdmittedWhen | src/utils/rate-limit.ts:33 | an arrival is admitted exactly when fewer than maxAttempts admissions are in its window |
| RateLimiter.Safe | src/utils/rate-limit.ts:25-42 | over any run at most maxAttempts admissions fall in any half-open window of windowMs |
| RateLimiter.StaysAhead | src/utils/rate-limit.ts:25-42 | at every moment of a run the admissions outnumber any choice of arrivals that respects the limit |
| RateLimiter.Maximal | src/utils/rate-limit.ts:25-42 | no choice of arrivals that respects the limit in every window is larger than the set admitted |
| RateLimiter.MaximalExactlyWhen | src/utils/rate-limit.ts:25-42 | maximality holds for every run exactly when the window or the limit is positive |
| RateLimiter.ReopensExactly | src/utils/rate-limit.ts:38-39 | after a refusal the next admission is exactly the first arrival at or after the oldest attempt expires |
| RateLimiter.RetryExact | src/utils/rate-limit.ts:38-41 | with multiplier 1 every attempt before now plus retryAfterMs is refused and the first one from then on is admitted |
| RateLimiter.RetryScales | src/utils/rate-limit.ts:38-41 | for any multiplier the time reported is the exact waiting time multiplied by it, rounded to the nearest millisecond, halves up |
| RateLimiter.AnswerMeans | src/utils/rate-limit.ts:33-41 | a call that is admitted joins the queue and has nothing to wait for; another one joins nothing |
| RateLimiter.NothingAdmitted | src/utils/rate-limit.ts:33-41 | where nothing may be admitted every call is refused and told the whole window, multiplied and rounded |
| Terminal.SplitMeans | src/utils/terminal.ts:45 | the parts hold no white space, only the outer ones can be empty, and non-empty runs of white space between them make up the text |
| Terminal.SplitKeepsVisible | src/utils/terminal.ts:45 | splitting loses no visible unit |
| Terminal.SplitKeepsWords | src/utils/terminal.ts:45 | splitting keeps the words in order |
| Terminal.SplitIsWords | src/utils/terminal.ts:45 | splitting gives the words of the text, and an empty part for white space at either end |
| Terminal.SplitNonEmpty | src/utils/terminal.ts:45 | no part is empty exactly when the text neither starts nor ends with white space |
| Terminal.PushPieces | src/utils/terminal.ts:57-64 | an over-wide word is cut into pieces of columns units |
| Terminal.AppendWord | src/utils/terminal.ts:68-73 | a word joins the line after a space, unless the line is empty |
| Terminal.PlaceWord | src/utils/terminal.ts:47-74 | one round of the loop: flush a full line, cut an over-wide word, or append |
| Terminal.WrapAnsi | src/utils/terminal.ts:33-81 | wrapping keeps every visible unit, and every word without hard breaks; wrapped at words, the result is the one division of the words of the text into full lines, which no other division beats, and a space for white space at its end where there is room; a text that is not split stays whole |
| Terminal.LoopLaysOut | src/utils/terminal.ts:47-78 | over words none of which is empty the loop finishes the lines of the layout, its last one being the line under way |
| Terminal.OuterLines | src/utils/terminal.ts:45-78 | outer white space adds no line: the empty parts it leaves change at most the end of the last line |
| Terminal.GreedyLegal | src/utils/terminal.ts:47-78 | the greedy lines hold exactly the words in order, and each fits or is one over-wide word |
| Terminal.FilledIsGreedy | src/utils/terminal.ts:47-78 | a legal division in which no line has room for the next word is the greedy one |
| Terminal.DropWords | src/utils/terminal.ts:47-78 | leading words can be dropped from a legal division without adding lines |
| Terminal.GreedyOptimal | src/utils/terminal.ts:47-78 | no legal division of the words into consecutive lines has fewer lines than the greedy one |
| Terminal.LayoutOptimal | src/utils/terminal.ts:33-81 | soft wrapping is optimal: its lines render a legal division that no other one beats |
| Terminal.HardApart | src/utils/terminal.ts:57-65 | with hard breaks an over-wide word is cut, and the words on both sides are wrapped on their own |
| Terminal.FittingWords | src/utils/terminal.ts:50-73 | words that all fit are wrapped alike with and without hard breaks |
| Terminal.PiecesMean | src/utils/terminal.ts:58-63 | the pieces make up the word, and all but the last have columns units |
| Terminal.HardLayoutFits | src/utils/terminal.ts:57-65 | with hard breaks every line is a piece of an over-wide word of the text or holds neighbouring words of it that fit |
| Terminal.HardFitsExactlyWhen | src/utils/terminal.ts:57-65 | with hard breaks every line is within the columns exactly when every piece of every over-wide word is |
| Terminal.NarrowFits | src/utils/terminal.ts:57-65 | where no unit is wider than one column, hard breaks keep every line within the columns |
| Terminal.WideUnitsOverflow | src/utils/terminal.ts:57-65 | a word whose first piece takes more columns than there are exceeds them |
| Glob.BodyUnit | src/policy/engine.ts:3-7 | the three rewrites act unit by unit and do not disturb each other |
| Glob.GlobParses | src/policy/engine.ts:3-9 | the compiled source is always a valid expression: start, the terms of the glob, end |
| Glob.DotStar | src/policy/engine.ts:6 | a dot-star matches exactly when some run without line terminators leads to the rest |
| Glob.GlobToRegexPreservesMeaning | src/policy/engine.ts:3-15 | for every pattern and name the compiled expression accepts exactly what the glob means |
| Policy.Advisory.constructor | src/policy/engine.ts:65-68 | an advisory is made with its facts and its level |
| Policy.FirstMatch | src/policy/engine.ts:74 | the rule found is the first one that matches |
| Policy.RuleMatchesMeans | src/policy/engine.ts:11-44 | a rule matches exactly when each field it gives agrees, the package by the meaning of the glob |
| Policy.UnmovedMeans | src/policy/engine.ts:74-80 | an advisory is dropped exactly when the first matching rule ignores it, and stays as it is without one |
| Policy.EscalationMeans | src/policy/engine.ts:82-89 | escalating raises to the level asked for, fatal if none is, and never lowers |
| Policy.DowngradeMeans | src/policy/engine.ts:82-95 | downgrading lowers to the level asked for, info if none is, stores info as warn, and never raises |
| Policy.Visit | src/policy/engine.ts:73-98 | the callback drops, escalates or downgrades by the first matching rule and says what it did |
| Policy.ApplyPolicy | src/policy/engine.ts:65-101 | kept and ignored advisories make up the input, and counters and levels are those of the visits, also when an object stands in the list twice |
| Policy.SettledTwice | src/policy/engine.ts:82-95 | looking at an advisory again does not move its level again |
| Policy.EscalatedMeans | src/policy/engine.ts:85-89 | escalated is exactly the number of changes from warn to fatal |
| Policy.DowngradedMeans | src/policy/engine.ts:90-95 | downgraded is the number of changes from fatal to warn and of warnings hit by a downgrade to info |
| Policy.KeptTwice | src/policy/engine.ts:73-98 | a second pass over the kept advisories drops nothing |
| Policy.SecondPassSettles | src/policy/engine.ts:65-101 | a second pass with the same rules drops nothing, changes no level and escalates nothing |
| Policy.LastBucketWins | src/policy/engine.ts:121-126 | a bucket of the merged document is that of the last document that has one |
| Policy.FirstOverrideDecides | src/policy/engine.ts:127-131 | merged overrides resolve the other way round: the first document with a matching rule decides |
| Crc32.ComputeEntry | src/utils/crc32.ts:4-8 | the inner loop computes eight steps of the register from one index |
| Crc32.BuildTable | src/utils/crc32.ts:1-11 | the table holds the entry of every index |
| Crc32.Compute | src/utils/crc32.ts:14-20 | the loop over a buffer computes the register as written, shift by one included |
| Crc32.PolynomialIs | src/utils/crc32.ts:6 | the polynomial of the model has exactly the bits of the constant 0xedb88320 |
| Crc32.EntryLinear | src/utils/crc32.ts:3-9 | the table is linear: the entry of an exclusive-or is the exclusive-or of the entries |
| Crc32.RegisterLinear | src/utils/crc32.ts:15-18 | the register after a buffer is affine over exclusive-or of start values and buffers |
| Crc32.CrcAffine | src/utils/crc32.ts:14-20 | crc(a) ^ crc(b) ^ crc(c) = crc(a ^ b ^ c) on buffers of one length |
| Crc32.IntendedIsBitwise | src/utils/crc32.ts:13-20 | with a shift by eight the loop computes the bit-at-a-time CRC of section 15 of RFC 2083 |
| Crc32.AgreementIgnoresLastByte | src/utils/crc32.ts:17 | whether code and intended CRC agree on a buffer is decided before its last byte |
| Crc32.OneByteDiffers | src/utils/crc32.ts:17 | the shift by one gives a wrong value for every one-byte buffer |
| CrcOfIend.EntryAt | src/utils/crc32.ts:3-9 | bit i of a table entry is a fixed parity of the bits of its index |
| CrcOfIend.IendDiffers | src/utils/crc32.ts:14-20 | every four-byte body that begins with I, E, N gets a CRC that is not the intended one |
| Png.MakeBody | src/image/png-solid.ts:8-10 | the body of a chunk is its type followed by its data |
| Png.MakeChunk | src/image/png-solid.ts:3-20 | a chunk is length, type, data and CRC of type and data, big-endian |
| Png.WordBytesMean | src/image/png-solid.ts:11-12 | the CRC is written as the number it stands for, most significant byte first |
| Png.Framed | src/image/png-solid.ts:15-19 | three parts side by side fill the buffer |
| Png.SetPixel | src/image/png-solid.ts:48-51 | a pixel is its three bytes at its offset; what lies behind them is not touched |
| Png.Uint8Means | src/image/png-solid.ts:48-51 | a channel is stored modulo 256, and as it is where it is a byte |
| Png.FillRow | src/image/png-solid.ts:45-52 | a row is filter byte zero and width pixels; what lies behind it is not touched |
| Png.RawImage | src/image/png-solid.ts:42-54 | the raw image is height rows |
| Png.HeaderData | src/image/png-solid.ts:32-40 | the header holds width, height and the five constants |
| Png.Concatenate | src/image/png-solid.ts:64-70 | the output is the parts in order |
| Png.SolidPng | src/image/png-solid.ts:25-72 | the file is the signature and the three chunks, whatever the deflate function |
| Png.ReadOneChunk | src/image/png-solid.ts:3-20 | a chunk written with one CRC is read with another exactly when they agree on its body |
| Png.ReadBack | src/image/png-solid.ts:25-72 | a reader recovers exactly the width by height image of (r,g,b) when its CRC agrees with the writer on the chunk bodies, and rejects the file otherwise |
| Png.ReadBackWithSameCrc | src/image/png-solid.ts:25-72 | reading with the CRC of the writer always recovers the image, for any deflate with a left inverse |
| Png.StandardReaderAcceptsExactlyWhen | src/image/png-solid.ts:13 | a reader with the standard CRC accepts the file exactly when the shift by one went unnoticed on all three chunks |
| Png.StandardReaderRejects | src/image/png-solid.ts:55-72 | a reader with the standard CRC rejects every file written, whatever its size, its colour and the deflate function |
| ConfigMerge.DeepMerge | src/config/defaults.ts:149-166 | the loop over the keys of both objects builds the recursive merge; a source that is no object leaves the target |
| ConfigMerge.MergeSelf | src/config/defaults.ts:149-166 | merging a tree into itself changes nothing |
| ConfigMerge.MergeTwice | src/config/defaults.ts:149-166 | merging the same source again changes nothing |
| ConfigMerge.MergeAgain | src/config/defaults.ts:149-166 | merging the result over the same target again changes nothing |
| ConfigMerge.CoversExactly | src/config/defaults.ts:154-163 | a merge returns its source exactly when the target has nothing to add to it |
| ConfigMerge.MergeAssociativeExactlyWhen | src/config/defaults.ts:149-166 | merging is associative exactly on trees where no plain value between two objects hides something |
| ConfigMerge.NoClashAssociates | src/config/defaults.ts:149-166 | merging is associative on trees that never clash object against non-object at one path |
| ConfigMerge.MergeNotAssociative | src/config/defaults.ts:157-163 | under any key an override by a plain value, itself overridden by an object, breaks associativity |
| KeyedList.MergeByKey | src/config/defaults.ts:103-113 | the map of target and source items, read back as a list |
| KeyedList.PutAllDistinct | src/config/defaults.ts:108-112 | no key stands twice in a merged list |
| KeyedList.LastItemWins | src/config/defaults.ts:108-112 | under every key the merged list holds the last item that has it |
| KeyedList.FirstPlaceKept | src/config/defaults.ts:108-112 | keys stand in the order of their first appearance |
| ConfigDefaults.MergeInventory | src/config/defaults.ts:115-123 | an array replaces the target by the merge of its secret entries; anything else leaves it |
| ConfigDefaults.InventoryTwice | src/config/defaults.ts:115-123 | de-duplicating an inventory by name again changes nothing |
| ConfigDefaults.MergeErrorOverrides | src/config/defaults.ts:125-138 | the loop over the codes keeps override objects and fills in the rest |
| ConfigDefaults.StringsMean | src/config/defaults.ts:140-143 | each string is kept as often as it is given |
| ConfigDefaults.StringsInOrder | src/config/defaults.ts:140-143 | filtering a policy array keeps exactly its strings, in the order in which they stand |
| ConfigDefaults.PolicyArrayTwice | src/config/defaults.ts:140-143 | filtering a policy array again changes nothing |
| ConfigDefaults.ApplyDefaults | src/config/defaults.ts:175-232 | the edits, one after the other, leave the merge with six sections replaced, or raise an error |
| ConfigDefaults.ApplyDefaultsTwice | src/config/defaults.ts:175-232 | whenever a partial is completed, completing the result again changes nothing, ill-typed values included |
| ConfigDefaults.DomainEverywhere | src/config/defaults.ts:186-189 | a completed configuration carries its domain as the service of its secrets and the issuer of its tokens |
| ConfigDefaults.OtherFieldsMerge | src/config/defaults.ts:180-185 | every field outside the six sections is the deep merge of default and partial |
| ConfigDefaults.InventoryMeans | src/config/defaults.ts:205-209 | the inventory holds, once, the last entry given under every name |
| ConfigDefaults.InventoryLast | src/config/defaults.ts:115-123 | under every name it holds the last entry whose name is that text, and nothing where none is |
| ConfigDefaults.PolicyMeans | src/config/defaults.ts:211-222 | fatal and warn each come from their own array of the partial, or from the defaults |
| ConfigDefaults.PolicyKept | src/config/defaults.ts:211-222 | an array that is given keeps exactly its strings in their order; anything else leaves the default |
| ConfigDefaults.FeedMeans | src/config/defaults.ts:191-204 | a feed with a key names the service the partial names, or else the domain |
| ConfigDefaults.TruthyMeans | src/config/defaults.ts:196-198 | which values count as a key that is set |
| ConfigDefaults.OverridesMean | src/config/defaults.ts:224-229 | error overrides are those given, code by code |
| ConfigDefaults.WellTypedCompletes | src/config/defaults.ts:175-189 | a well-typed partial is always completed |
| DefaultConfig.DefaultsShaped | src/config/defaults.ts:24-92 | the default configuration has the shape that completing relies on |
| DefaultConfig.CompletedOnce | src/config/defaults.ts:175-232 | with the actual defaults every well-typed partial is completed and completing is idempotent |
| ConfigDefaults.ApplyAuditDefaults | src/domain/audit-paths.ts:30-44 | audit.jsonl is completed in place when it has no path |
| ConfigDefaults.JsonlMeans | src/domain/audit-paths.ts:30-44 | an audit log without a path gets that of its domain and keeps what else it says |
| ConfigMerge.GetByPath | src/domain/field-matrix.ts:623-633 | the loop over the parts between dots reads a path, undefined as soon as a value has no fields |
| ConfigMerge.GetDotted | src/domain/field-matrix.ts:623-633 | reading a dotted field is reading the rest of it in what its first part gives |
| ConfigMerge.PathMergesExactlyWhen | src/domain/field-matrix.ts:623-633 | a path reads in a merged tree as the merge of what it reads in the two trees exactly when the source hides nothing on the way |
| ConfigMerge.PathSemantics | src/domain/field-matrix.ts:623-633 | on a path without other values at its prefixes the merged tree reads as the source when that is not null and otherwise as the target, null reading as absent |
| ThreatScan.IsAllowed | src/scan/matcher.ts:14-21 | the first allowlist entry that covers a package, or none |
| ThreatScan.FilterPackages | src/scan/matcher.ts:30-35 | the packages that a rule matches and no entry allows, in order |
| ThreatScan.MatchThreats | src/scan/matcher.ts:26-43 | one match per rule that finds something, in rule order |
| ThreatScan.SequentialMeans | src/scan/matcher.ts:26-43 | a rule is reported with a package exactly when it is installed, the rule names it with a range its version satisfies, and no allowlist entry of its name has such a range |
| ThreatScan.FilterInOrder | src/scan/matcher.ts:30-35 | a rule finds all packages it hits, as often and in the order in which they are listed |
| ThreatScan.MatchesInOrder | src/scan/matcher.ts:29-40 | the rules that hit some package are reported in the order of the feed |
| ThreatScan.ChunkPackages | src/scan/parallel.ts:12-18 | consecutive chunks of the given size |
| ThreatScan.ChunksHold | src/scan/parallel.ts:12-18 | the chunks hold exactly the packages in order |
| ThreatScan.ChunksSized | src/scan/parallel.ts:12-18 | every chunk but the last is full, and none is empty |
| ThreatScan.WorkersSuffice | src/scan/parallel.ts:62-63 | chunks are the smallest that so many workers can share: no more are made, and all but the last are full |
| ThreatScan.MergeAnswer | src/scan/parallel.ts:69-80 | the answer of one worker joins the merged matches, appended to the entry of its name |
| ThreatScan.RunWorkers | src/scan/parallel.ts:64-80 | one failing worker fails the scan; otherwise the answers are merged in order |
| ThreatScan.MatchThreatsParallel | src/scan/parallel.ts:51-84 | below the threshold the sequential result, otherwise the merge over the chunks |
| ThreatScan.MergeKeeps | src/scan/parallel.ts:68-81 | merging leaves one entry a name, which holds all packages of that name in order |
| ThreatScan.MergeOrdered | src/scan/parallel.ts:68-83 | entries stand in the order in which their names were first found, each with the item of its first match |
| ThreatScan.FanOutConserves | src/scan/parallel.ts:57-83 | for any worker count the matched packages of every rule name are those of the sequential result, as multisets |
| ThreatScan.FanOutMeans | src/scan/parallel.ts:57-83 | the fan-out lists under a name exactly the installed packages of that name that some rule hits and no allowlist entry covers |
| ThreatScan.FanOutCounts | src/scan/parallel.ts:57-83 | it lists an installed package once for each rule that hits it |
| ThreatScan.PermutationExactlyWhen | src/scan/parallel.ts:57-83 | the fan-out is a permutation of the sequential result, same items and same ordered packages, exactly when no two rules for one package name hit some package each |
| ThreatScan.SharedNameMerges | src/scan/parallel.ts:69-80 | two rules for one package that both hit it leave one entry with the package twice where the sequential result has two |
| ThreatScan.DistinctRulesSuffice | src/scan/parallel.ts:71 | distinct rule package names suffice for every list of packages and every worker count |
| CommandLine.ParseCommandLine | src/interactive/parse.ts:4-41 | the index loop computes the scan of the whole input |
| CommandLine.ParseMeans | src/interactive/parse.ts:4-41 | neighbouring plain and quoted stretches make one token, their texts one behind the other; blanks outside quotes separate tokens, and empty tokens are dropped |
| CommandLine.EveryInputLaid | src/interactive/parse.ts:4-41 | every input is made of such words and blanks, the last word perhaps with an open quote |
| CommandLine.PlainJoined | src/interactive/parse.ts:25-33 | words without quotes and blanks come back as typed, with spaces or tabs between them |
| CommandLine.ScanAfter | src/interactive/parse.ts:9-34 | finished tokens only stand in front of what is found later |
| CommandLine.ParseSpaced | src/interactive/parse.ts:25-31 | parse(a + " " + b) = parse(a) ++ parse(b) when a ends outside quotes |
| CommandLine.SpaceSeparatesExactlyWhen | src/interactive/parse.ts:11-31 | a space separates two inputs, whatever the second is, exactly when the first ends outside quotes |
| CommandLine.RoundTrip | src/interactive/parse.ts:4-41 | parsing the quoted, space-joined rendering of non-empty tokens over any units returns them |
| CommandLine.NoEmptyToken | src/interactive/parse.ts:26-38 | no input yields an empty token |
| CertChain.CollectChain | src/intel/tls/inspector.ts:43-66 | wherever the loop ends, its chain is the issuer walk up to the first certificate that is absent, the leaf again, or has a key seen before |
| CertChain.LongestPrefix | src/intel/tls/inspector.ts:52-63 | that chain is the longest prefix of the walk without an absent certificate, the leaf again or a repeated key |
| CertChain.ChainDistinct | src/intel/tls/inspector.ts:53-57 | no two certificates of a chain share a fingerprint, nor a serial number where neither has a fingerprint |
| CertChain.FingerprintsDecide | src/intel/tls/inspector.ts:53 | of two certificates with fingerprints these alone decide whether the second was seen |
| CertChain.SerialNumbersDecide | src/intel/tls/inspector.ts:53 | without fingerprints the serial numbers do, and without either the positions |
| CertChain.EndsWhenever | src/intel/tls/inspector.ts:52-63 | whatever the keys, the loop ends when the walk reaches an absent or empty certificate, returns to the leaf, or enters a cycle with a keyed certificate |
| CertChain.LoopEndsExactlyWhen | src/intel/tls/inspector.ts:52-63 | with distinct keys that are no numerals the loop ends exactly when the walk reaches an absent or empty certificate, returns to the leaf, or enters a cycle with a keyed certificate |
| CertChain.EndsWithin | src/intel/tls/inspector.ts:52-63 | then twice as many positions as there are certificates decide whether it ends |
| CertChain.AllKeyedEnds | src/intel/tls/inspector.ts:52-63 | where every certificate has a fingerprint or serial number the loop ends on every finite graph, cycles and equal keys included |
| Numerals.DecimalInjective | src/intel/tls/inspector.ts:53 | the keys made up from chain lengths are distinct |
| Numerals.ValueBack | src/domain/doctor-snapshot.ts:72-76 | digits without a leading zero are the numeral of their value |
| CertChain.UnkeyedRootNeverStops | src/intel/tls/inspector.ts:53-57 | below a self-issued root without fingerprint and serial number the loop never ends |

## Left out

- CLI, shell, report rendering, images, QR codes, doctor checks, web views: presentation and I/O.
- Derivation of keys, AES, gzip, zstd, deflate, JSON.parse, UTF-8, version ranges, CVE patterns, display widths and dates: parameters, with what is required of them stated in each theorem.
- The fixed catalogs (field matrix rows, feature flags, error codes, colors): finite tables.
- DoctorSnapshot.StableStringifyCanonical: does not model values with their own toJSON, bigints or cycles; snapshot documents hold none.
- DoctorSnapshot: building and writing the documents, which format and copy fields.
- Registry.DomainRegistry.GetSecurity: does not model a createDomainSecurity that rejects, whose promise the cache keeps.
- Registry.DomainRegistry.ResumeLoaded: does not model the message text of an error.
- Registry: the list and service methods.
- Registry.DomainRegistry.FindByPath: does not fix which of several entries of one file is found, because insertion order of the map is not modelled; in disciplined runs there is at most one.
- Registry.RunKeepsOneEntry: assumes that reloads of one path do not overlap and no refill runs while a file is being loaded; Registry.RunUniqueExactlyWhen has no such assumption.
- WatchedRegistry: reloads that are not started by the watch, and a load that finds a file being loaded.
- DomainWatch: file system events that name no file or another kind of file, which the watcher ignores.
- FeedCache: one URL and one path per store; expiry inside the Redis store is a store that loses its entry; clocks that run backwards are allowed.
- FeedVersions: a store that loses its entry, or is cleared, may then take an older one; only overwriting counts as going back.
- AuditSink: a write that fails halfway leaves part of a line in the file; within a run the model has it fail without effect, and AuditSink.PartialLineMerges covers runs that start from such a file. File text outside ASCII is read as text, its bytes are not modelled.
- AuditSink.PartialLineCostsNothingExactlyWhen: takes for granted that JSON.parse rejects the empty text and a text that opens with a brace and ends with neither a brace nor white space, as JsonReader.UnclosedUnread proves of a reader of all JSON text.
- AuditSink.TornAppendCostsNothingExactlyWhen: takes for granted that the cipher rejects the one string of bytes into which the torn line and the next one merge; SamplePlatform.TornAppendMet shows that this can be had.
- AuditLog.TryDecryptEnvelope: does not model an envelope whose fields are arrays of numbers, which the base64 decoder would accept.
- Base64: malformed input is decoded up to the first padding, other units skipped; decoders differ there and no theorem rests on it.
- RateLimiter: a clock that steps back; every theorem about runs takes arrival times in order. Time is in whole milliseconds and the multiplier is a real number.
- RateLimiter.RetryExact: stated for multiplier 1, since any other multiplier deliberately stretches or shortens the time reported; RateLimiter.RetryScales says by how much.
- Terminal: escape sequences count as the width function says; the padding functions are not modelled.
- Terminal.NarrowFits: takes for granted that joining by a space adds one column at most and trimming adds none.
- Terminal.WrapAnsi: takes for granted that the empty text has width 0.
- Glob: only what the rewrites can emit is parsed; other regular expressions are outside the model.
- Policy: loading of policy files and the built-in severity buckets, branch-by-branch copies.
- Png: dimensions and channels outside their ranges wrap as typed arrays wrap; a canvas too large for memory is not modelled.
- ConfigMerge: keys that an object inherits, such as __proto__, and the order of keys in merged objects.
- ConfigMerge.GetByPath: reading an index or another property of an array is a parameter.
- ConfigDefaults: a named property set on an array, which no configuration has, is dropped; edits of different sections, which do not interfere, are grouped by section.
- ThreatScan: the transport to workers and their time limits; a worker answers with the sequential result of its chunk or fails.
- ThreatScan.ChunkPackages: a size that is not positive is ruled out where there is something to cut, as it is at its only call.
- CertChain.CollectChain: is called only where the loop ends, which CertChain.LoopEndsExactlyWhen decides for distinct keys; for other keys CertChain.EndsWhenever gives one direction, since repeated keys and numerals can only make it end earlier.
- CertChain: the summaries of the certificates, field copies and date arithmetic.
