/** Completing a partial domain configuration: the defaults merge and the edits after it. */
module ConfigDefaults {
  import opened ConfigMerge
  import opened KeyedList
  import opened Sequences
  import opened Utf16
  import opened Wrappers

  const DOMAIN: Text := Lit("domain")
  const SECRETS: Text := Lit("secrets")
  const TOKEN: Text := Lit("token")
  const AUDIT: Text := Lit("audit")
  const SUPPLY_CHAIN: Text := Lit("supplyChain")
  const ERROR_OVERRIDES: Text := Lit("errorOverrides")
  const SERVICE: Text := Lit("service")
  const INVENTORY: Text := Lit("inventory")
  const ISSUER: Text := Lit("issuer")
  const NAME: Text := Lit("name")
  const JSONL: Text := Lit("jsonl")
  const PATH: Text := Lit("path")
  const MASTER_KEY: Text := Lit("masterKey")
  const COMPRESS: Text := Lit("compress")
  const COMPRESSION_FORMAT: Text := Lit("compressionFormat")
  const FEED: Text := Lit("feed")
  const POLICY: Text := Lit("policy")
  const API_KEY_VAULT: Text := Lit("apiKeyVault")
  const API_KEY_SERVICE: Text := Lit("apiKeyService")
  const FATAL: Text := Lit("fatal")
  const WARN: Text := Lit("warn")

  datatype Outcome = Config(fields: map<Text, Tree>) | Throws

  /** t?.key; properties of arrays and strings play no part here. */
  function Field(t: Tree, key: Text): Tree {
    if t.Obj? then Lookup(t.fields, key) else Undefined
  }

  /** t with t.key = value; a named property of an array is not part of the tree. */
  function Assign(t: Tree, key: Text, value: Tree): Tree {
    if t.Obj? then Obj(t.fields[key := value]) else t
  }

  /** Assigning a property of a primitive raises an error. */
  predicate Assignable(t: Tree) {
    t.Obj? || t.Arr?
  }

  predicate Truthy(t: Tree) {
    match t
    case Undefined => false
    case Null => false
    case Bool(b) => b
    case Number(n) => n != 0.0
    case Str(text) => text != []
    case Arr(_) => true
    case Obj(_) => true
  }

  lemma TruthyMeans(t: Tree)
    ensures Truthy(t) <==> t !in [Undefined, Null, Bool(false), Number(0.0), Str([])]
  {
  }

  function OrElse(t: Tree, other: Tree): Tree {
    if Nullish(t) then other else t
  }

  // ---------- Lists of the configuration ----------

  predicate IsSecretEntry(t: Tree) {
    Field(t, NAME).Str?
  }

  function NameOf(t: Tree): Text {
    if IsSecretEntry(t) then Field(t, NAME).text else []
  }

  function SecretEntries(items: seq<Tree>): seq<Tree> {
    if items == [] then []
    else
      var last := items[|items| - 1];
      SecretEntries(items[..|items| - 1]) + if IsSecretEntry(last) then [last] else []
  }

  function MergedInventory(target: seq<Tree>, source: Tree): seq<Tree> {
    if source.Arr? then PutAll([], NameOf, target + SecretEntries(source.items)) else target
  }

  method MergeInventory(target: seq<Tree>, source: Tree) returns (r: seq<Tree>)
    ensures r == MergedInventory(target, source)
  {
    if !source.Arr? {
      return target;
    }
    r := MergeByKey(target, SecretEntries(source.items), NameOf);
  }

  function Strings(items: seq<Tree>): seq<Tree> {
    if items == [] then []
    else
      var last := items[|items| - 1];
      Strings(items[..|items| - 1]) + if last.Str? then [last] else []
  }

  function MergePolicyArrays(target: Tree, source: Tree): Tree {
    if source.Arr? then Arr(Strings(source.items)) else target
  }

  function Overridden(target: map<Text, Tree>, source: map<Text, Tree>): map<Text, Tree> {
    map k | k in target.Keys + source.Keys ::
      if Lookup(source, k).Obj? then source[k] else OrElse(Lookup(target, k), Obj(map[]))
  }

  method MergeErrorOverrides(target: map<Text, Tree>, source: Tree) returns (r: map<Text, Tree>)
    ensures r == if source.Obj? then Overridden(target, source.fields) else target
  {
    if !source.Obj? {
      return target;
    }
    ghost var whole := Overridden(target, source.fields);
    r := map[];
    var keys := target.Keys + source.fields.Keys;
    while keys != {}
      invariant FilledBut(r, whole, keys)
      decreases |keys|
    {
      var key := Sets.Choose(keys);
      FillOne(r, whole, keys, key);
      var sourceValue := Lookup(source.fields, key);
      r := r[key := if sourceValue.Obj? then sourceValue else OrElse(Lookup(target, key), Obj(map[]))];
      keys := keys - {key};
    }
    assert r == whole;
  }

  /** Filtering twice is filtering once. */
  lemma {:induction false} SecretEntriesTwice(items: seq<Tree>)
    ensures forall i :: 0 <= i < |SecretEntries(items)| ==> IsSecretEntry(SecretEntries(items)[i])
  {
    if items != [] { SecretEntriesTwice(items[..|items| - 1]); }
  }

  lemma {:induction false} SecretEntriesSame(items: seq<Tree>)
    requires forall i :: 0 <= i < |items| ==> IsSecretEntry(items[i])
    ensures SecretEntries(items) == items
  {
    if items != [] { SecretEntriesSame(items[..|items| - 1]); }
  }

  lemma {:induction false} PutAllEntries(items: seq<Tree>)
    requires forall i :: 0 <= i < |items| ==> IsSecretEntry(items[i])
    ensures forall i :: 0 <= i < |PutAll([], NameOf, items)| ==> IsSecretEntry(PutAll([], NameOf, items)[i])
  {
    if items != [] { PutAllEntries(items[..|items| - 1]); }
  }

  /** De-duplicating an inventory again changes nothing. */
  lemma InventoryTwice(source: Tree)
    requires source.Arr?
    ensures MergedInventory([], Arr(MergedInventory([], source))) == MergedInventory([], source)
  {
    var entries := SecretEntries(source.items);
    var merged := PutAll([], NameOf, entries);
    assert [] + entries == entries;
    SecretEntriesTwice(source.items);
    PutAllEntries(entries);
    SecretEntriesSame(merged);
    assert [] + merged == merged;
    PutAllTwice(NameOf, entries);
  }

  lemma {:induction false} StringsAre(items: seq<Tree>)
    ensures forall i :: 0 <= i < |Strings(items)| ==> Strings(items)[i].Str?
  {
    if items != [] { StringsAre(items[..|items| - 1]); }
  }

  lemma {:induction false} StringsSame(items: seq<Tree>)
    requires forall i :: 0 <= i < |items| ==> items[i].Str?
    ensures Strings(items) == items
  {
    if items != [] { StringsSame(items[..|items| - 1]); }
  }

  ghost predicate StringArray(t: Tree) {
    t.Arr? && forall i :: 0 <= i < |t.items| ==> t.items[i].Str?
  }

  lemma PolicyArrayTwice(target: Tree, source: Tree)
    requires StringArray(target)
    ensures StringArray(MergePolicyArrays(target, source))
    ensures MergePolicyArrays(target, MergePolicyArrays(target, source)) == MergePolicyArrays(target, source)
  {
    if source.Arr? {
      StringsAre(source.items);
      StringsSame(Strings(source.items));
    } else {
      StringsSame(target.items);
    }
  }

  // ---------- The sections ----------

  function WithInventory(inventory: seq<Tree>, secrets: Tree, partial: Tree): Tree {
    var given := Field(partial, INVENTORY);
    if given.Arr? then Assign(secrets, INVENTORY, Arr(MergedInventory(inventory, given))) else secrets
  }

  /** secrets, with its service set and its inventory merged by name. */
  function SecretsOf(inventory: seq<Tree>, domain: Tree, merged: Tree, partial: Tree): Option<Tree> {
    if !Assignable(merged) then None
    else
      Some(WithInventory(inventory, Assign(merged, SERVICE, domain), partial))
  }

  function TokenOf(domain: Tree, merged: Tree): Option<Tree> {
    if Assignable(merged) then Some(Assign(merged, ISSUER, domain)) else None
  }

  function DefaultJsonl(path: Text, jsonl: Tree): Tree {
    Obj(map[
      PATH := Str(path),
      MASTER_KEY := OrElse(Field(jsonl, MASTER_KEY), Null),
      COMPRESS := OrElse(Field(jsonl, COMPRESS), Bool(false)),
      COMPRESSION_FORMAT := OrElse(Field(jsonl, COMPRESSION_FORMAT), Str(Lit("gzip")))])
  }

  function AuditOf(path: Text, merged: Tree): Option<Tree> {
    var audit := if Truthy(merged) then merged else Obj(map[]);
    var jsonl := Field(audit, JSONL);
    if Truthy(Field(jsonl, PATH)) then Some(audit)
    else if Assignable(audit) then Some(Assign(audit, JSONL, DefaultJsonl(path, jsonl)))
    else None
  }

  predicate ExplicitService(feed: Tree) {
    Field(feed, API_KEY_SERVICE).Str? && Field(feed, API_KEY_SERVICE).text != []
  }

  function FeedOf(domain: Tree, merged: Tree, partial: Tree): Tree {
    if Truthy(Field(merged, API_KEY_VAULT)) && !ExplicitService(partial) then
      Assign(merged, API_KEY_SERVICE, domain)
    else merged
  }

  function PolicyOf(defaults: Tree, merged: Tree, partial: Tree): Tree {
    if partial.Obj? then
      Assign(
        Assign(merged, FATAL, MergePolicyArrays(Field(defaults, FATAL), Field(partial, FATAL))),
        WARN, MergePolicyArrays(Field(defaults, WARN), Field(partial, WARN)))
    else merged
  }

  /** supplyChain; reading a field of a missing feed raises an error. */
  function SupplyChainOf(defaults: Tree, domain: Tree, merged: Tree, partial: Tree): Option<Tree> {
    var feed := Field(merged, FEED);
    if Nullish(feed) then None
    else
      var fed := Assign(merged, FEED, FeedOf(domain, feed, Field(partial, FEED)));
      var policy := Field(partial, POLICY);
      Some(if policy.Obj? then
             Assign(fed, POLICY,
                    PolicyOf(Field(defaults, POLICY), Field(merged, POLICY), policy))
           else fed)
  }

  function ErrorOverridesOf(target: map<Text, Tree>, merged: Tree, partial: Tree): Tree {
    if partial.Obj? then Obj(Overridden(target, partial.fields)) else merged
  }

  // ---------- The whole configuration ----------

  /** The shape of the defaults that the edits rely on. */
  ghost predicate Shaped(d: map<Text, Tree>) {
    var secrets, chain := Lookup(d, SECRETS), Lookup(d, SUPPLY_CHAIN);
    var policy := Field(chain, POLICY);
    && secrets.Obj? && Field(secrets, INVENTORY) == Arr([])
    && Lookup(d, TOKEN).Obj?
    && Lookup(d, AUDIT) == Obj(map[])
    && Field(chain, FEED).Obj?
    && StringArray(Field(policy, FATAL)) && StringArray(Field(policy, WARN))
    && Lookup(d, ERROR_OVERRIDES) == Obj(map[])
  }

  function JsonlPath(segment: Text -> Text, domain: Text): Text {
    Lit("./.security/") + segment(domain) + Lit("/audit.jsonl.enc")
  }

  /** The six sections that completing a configuration edits. */
  datatype Sections = Sections(domain: Tree, secrets: Tree, token: Tree, audit: Tree,
                               supplyChain: Tree, errorOverrides: Tree)

  function WithSections(base: map<Text, Tree>, x: Sections): map<Text, Tree> {
    base[DOMAIN := x.domain][SECRETS := x.secrets][TOKEN := x.token]
      [AUDIT := x.audit][SUPPLY_CHAIN := x.supplyChain][ERROR_OVERRIDES := x.errorOverrides]
  }

  /** The sections, from the merged fields and the partial; None when an edit raises an error. */
  function SectionsOf(d: map<Text, Tree>, segment: Text -> Text, domain: Tree, base: map<Text, Tree>,
                      partial: Tree): Option<Sections>
    requires domain.Str?
  {
    var secrets := SecretsOf([], domain, Lookup(base, SECRETS), Field(partial, SECRETS));
    var token := TokenOf(domain, Lookup(base, TOKEN));
    var audit := AuditOf(JsonlPath(segment, domain.text), Lookup(base, AUDIT));
    var supplyChain := SupplyChainOf(Lookup(d, SUPPLY_CHAIN), domain,
                                     Lookup(base, SUPPLY_CHAIN), Field(partial, SUPPLY_CHAIN));
    if secrets.None? || token.None? || audit.None? || supplyChain.None? then None
    else
      Some(Sections(domain, secrets.value, token.value, audit.value, supplyChain.value,
        ErrorOverridesOf(map[], Lookup(base, ERROR_OVERRIDES), Field(partial, ERROR_OVERRIDES))))
  }

  /** The configuration: the merge with the defaults, six sections aside. */
  function Configured(d: map<Text, Tree>, segment: Text -> Text, partial: Tree): Outcome {
    var domain := Field(partial, DOMAIN);
    if !domain.Str? then Throws
    else
      var base := Merge(Obj(d), partial).fields;
      match SectionsOf(d, segment, domain, base, partial)
      case None => Throws
      case Some(x) => Config(WithSections(base, x))
  }

  // ---------- The edits, one after the other ----------

  /** config.audit, completed in place. */
  method ApplyAuditDefaults(merged: map<Text, Tree>, path: Text) returns (r: Option<map<Text, Tree>>)
    ensures r == match AuditOf(path, Lookup(merged, AUDIT))
                 case None => None
                 case Some(audit) => Some(merged[AUDIT := audit])
  {
    var config := merged;
    if !Truthy(Lookup(config, AUDIT)) {
      config := config[AUDIT := Obj(map[])];
    }
    var audit := Lookup(config, AUDIT);
    var jsonl := Field(audit, JSONL);
    if !Truthy(Field(jsonl, PATH)) {
      if !Assignable(audit) {
        return None;
      }
      config := config[AUDIT := Assign(audit, JSONL, DefaultJsonl(path, jsonl))];
    }
    assert config == merged[AUDIT := Lookup(config, AUDIT)];
    return Some(config);
  }

  /** The feed's apiKeyService is the domain unless the partial names one. */
  method CompleteFeed(domain: Tree, merged: Tree, partial: Tree) returns (feed: Tree)
    ensures feed == FeedOf(domain, merged, partial)
  {
    feed := merged;
    if Truthy(Field(feed, API_KEY_VAULT)) {
      var explicitService := ExplicitService(partial);
      if !explicitService {
        feed := Assign(feed, API_KEY_SERVICE, domain);
      }
    }
  }

  method CompletePolicy(defaults: Tree, merged: Tree, partial: Tree) returns (policy: Tree)
    ensures policy == PolicyOf(defaults, merged, partial)
  {
    policy := merged;
    if partial.Obj? {
      policy := Assign(policy, FATAL, MergePolicyArrays(Field(defaults, FATAL), Field(partial, FATAL)));
      policy := Assign(policy, WARN, MergePolicyArrays(Field(defaults, WARN), Field(partial, WARN)));
    }
  }

  /** supplyChain, given the merged chain. */
  method CompleteSupplyChain(defaults: Tree, domain: Tree, merged: Tree, partial: Tree) returns (r: Option<Tree>)
    ensures r == SupplyChainOf(defaults, domain, merged, partial)
  {
    if Nullish(Field(merged, FEED)) {
      return None;
    }
    var feed := CompleteFeed(domain, Field(merged, FEED), Field(partial, FEED));
    var chain := Assign(merged, FEED, feed);
    if Field(partial, POLICY).Obj? {
      var policy := CompletePolicy(Field(defaults, POLICY), Field(merged, POLICY), Field(partial, POLICY));
      chain := Assign(chain, POLICY, policy);
    }
    r := Some(chain);
  }

  /** secrets.service and token.issuer are always the domain. */
  method SyncDomain(merged: map<Text, Tree>, domain: Tree) returns (r: Option<map<Text, Tree>>)
    ensures r ==
      if Assignable(Lookup(merged, SECRETS)) && Assignable(Lookup(merged, TOKEN)) then
        Some(merged[SECRETS := Assign(Lookup(merged, SECRETS), SERVICE, domain)]
                   [TOKEN := Assign(Lookup(merged, TOKEN), ISSUER, domain)])
      else None
  {
    if !Assignable(Lookup(merged, SECRETS)) {
      return None;
    }
    var config := merged[SECRETS := Assign(Lookup(merged, SECRETS), SERVICE, domain)];
    assert |SECRETS| == 7 && |TOKEN| == 5;
    if !Assignable(Lookup(config, TOKEN)) {
      return None;
    }
    return Some(config[TOKEN := Assign(Lookup(config, TOKEN), ISSUER, domain)]);
  }

  /** secrets.inventory and errorOverrides, when the partial gives them. */
  method CompleteLists(merged: map<Text, Tree>, partial: Tree) returns (config: map<Text, Tree>)
    requires SECRETS in merged && ERROR_OVERRIDES in merged
    ensures config == merged[SECRETS := WithInventory([], Lookup(merged, SECRETS), Field(partial, SECRETS))]
      [ERROR_OVERRIDES := ErrorOverridesOf(map[], Lookup(merged, ERROR_OVERRIDES), Field(partial, ERROR_OVERRIDES))]
  {
    config := merged;
    var inventory := Field(Field(partial, SECRETS), INVENTORY);
    if inventory.Arr? {
      var entries := MergeInventory([], inventory);
      config := config[SECRETS := Assign(Lookup(config, SECRETS), INVENTORY, Arr(entries))];
    } else {
      UpdateSame(merged, SECRETS);
    }
    assert |SECRETS| == 7 && |ERROR_OVERRIDES| == 14;
    if Field(partial, ERROR_OVERRIDES).Obj? {
      var overrides := MergeErrorOverrides(map[], Field(partial, ERROR_OVERRIDES));
      config := config[ERROR_OVERRIDES := Obj(overrides)];
    } else {
      UpdateSame(config, ERROR_OVERRIDES);
    }
  }

  lemma KeysDistinct()
    ensures DOMAIN != SECRETS && DOMAIN != TOKEN && DOMAIN != AUDIT && DOMAIN != SUPPLY_CHAIN
    ensures DOMAIN != ERROR_OVERRIDES && SECRETS != TOKEN && SECRETS != AUDIT && SECRETS != SUPPLY_CHAIN
    ensures SECRETS != ERROR_OVERRIDES && TOKEN != AUDIT && TOKEN != SUPPLY_CHAIN && TOKEN != ERROR_OVERRIDES
    ensures AUDIT != SUPPLY_CHAIN && AUDIT != ERROR_OVERRIDES && SUPPLY_CHAIN != ERROR_OVERRIDES
  {
    assert TOKEN[0] != AUDIT[0];
    assert |DOMAIN| == 6 && |SECRETS| == 7 && |TOKEN| == 5 && |AUDIT| == 5;
    assert |SUPPLY_CHAIN| == 11 && |ERROR_OVERRIDES| == 14;
  }

  /** How the sections of a configuration read. */
  lemma SectionsRead(base: map<Text, Tree>, x: Sections)
    ensures var m := WithSections(base, x);
      && Lookup(m, DOMAIN) == x.domain
      && Lookup(m, SECRETS) == x.secrets
      && Lookup(m, TOKEN) == x.token
      && Lookup(m, AUDIT) == x.audit
      && Lookup(m, SUPPLY_CHAIN) == x.supplyChain
      && Lookup(m, ERROR_OVERRIDES) == x.errorOverrides
  {
    KeysDistinct();
  }

  lemma SecretsLater(base: map<Text, Tree>, x: Sections, early: Tree)
    ensures base[DOMAIN := x.domain][SECRETS := early][TOKEN := x.token][AUDIT := x.audit]
        [SUPPLY_CHAIN := x.supplyChain][SECRETS := x.secrets][ERROR_OVERRIDES := x.errorOverrides]
      == WithSections(base, x)
  {
    KeysDistinct();
  }

  /** The edits that look at the merged fields alone. */
  method EditAlone(base: map<Text, Tree>, domain: Tree, path: Text) returns (r: Option<map<Text, Tree>>)
    ensures var secrets, token, audit := Lookup(base, SECRETS), TokenOf(domain, Lookup(base, TOKEN)),
        AuditOf(path, Lookup(base, AUDIT));
      r ==
      if !Assignable(secrets) || token.None? || audit.None? then None
      else
        Some(base[DOMAIN := domain][SECRETS := Assign(secrets, SERVICE, domain)]
          [TOKEN := token.value][AUDIT := audit.value])
  {
    KeysDistinct();
    r := SyncDomain(base[DOMAIN := domain], domain);
    if r.Some? {
      r := ApplyAuditDefaults(r.value, path);
    }
  }

  /** The edits of the merged fields. */
  method EditSections(d: map<Text, Tree>, segment: Text -> Text, domain: Tree, base: map<Text, Tree>, partial: Tree)
    returns (r: Outcome)
    requires domain.Str? && SECRETS in base && ERROR_OVERRIDES in base
    ensures r == match SectionsOf(d, segment, domain, base, partial)
                 case None => Throws
                 case Some(x) => Config(WithSections(base, x))
  {
    KeysDistinct();
    var edited := EditAlone(base, domain, JsonlPath(segment, domain.text));
    if edited.None? {
      return Throws;
    }
    var merged := edited.value;
    var chain := CompleteSupplyChain(Lookup(d, SUPPLY_CHAIN), domain,
                                     Lookup(merged, SUPPLY_CHAIN), Field(partial, SUPPLY_CHAIN));
    if chain.None? {
      return Throws;
    }
    merged := CompleteLists(merged[SUPPLY_CHAIN := chain.value], partial);
    SecretsLater(base, SectionsOf(d, segment, domain, base, partial).value,
                 Assign(Lookup(base, SECRETS), SERVICE, domain));
    r := Config(merged);
  }

  method ApplyDefaults(d: map<Text, Tree>, segment: Text -> Text, partial: Tree) returns (r: Outcome)
    requires Shaped(d)
    ensures r == Configured(d, segment, partial)
  {
    var domain := Field(partial, DOMAIN);
    if !domain.Str? {
      return Throws;
    }
    var base := DeepMerge(d, partial);
    r := EditSections(d, segment, domain, base, partial);
  }

  // ---------- Applying the defaults twice ----------

  lemma AssignCovers(t: Tree, s: Tree, key: Text, value: Tree)
    requires Covers(t, s) && Covers(Field(t, key), value)
    ensures Covers(t, Assign(s, key, value))
  {
    if t.Obj? && s.Obj? {
      var r := s.fields[key := value];
      forall k | k in r ensures Covers(Lookup(t.fields, k), r[k]) {
        if k != key { assert k in s.fields && r[k] == s.fields[k]; }
      }
    }
  }

  lemma AssignTwice(t: Tree, key: Text, value: Tree)
    ensures Assign(Assign(t, key, value), key, value) == Assign(t, key, value)
    ensures !Nullish(value) && Field(t, key) == value ==> Assign(t, key, value) == t
  {
    if t.Obj? && key in t.fields && t.fields[key] == value {
      assert t.fields[key := value] == t.fields;
    }
  }

  lemma NoEntries()
    ensures MergedInventory([], Arr([])) == []
  {
    assert SecretEntries([]) == [] && [] + SecretEntries([]) == [];
  }

  lemma SecretsGiven(ds: Tree, domain: Tree, ps: Tree, r: Tree)
    requires domain.Str? && Field(ps, INVENTORY).Arr?
    requires SecretsOf([], domain, Merge(ds, ps), ps) == Some(r)
    ensures SecretsOf([], domain, r, r) == Some(r) && Covers(ds, r)
  {
    var s := Assign(Merge(ds, ps), SERVICE, domain);
    var entries := Arr(MergedInventory([], Field(ps, INVENTORY)));
    InventoryTwice(Field(ps, INVENTORY));
    assert |SERVICE| == 7 && |INVENTORY| == 9;
    AssignTwice(r, SERVICE, domain);
    AssignTwice(r, INVENTORY, entries);
    MergeCovers(ds, ps);
    AssignCovers(ds, Merge(ds, ps), SERVICE, domain);
    AssignCovers(ds, s, INVENTORY, entries);
  }

  lemma MergeCovers(t: Tree, s: Tree)
    ensures Covers(t, Merge(t, s))
  {
    MergeAgain(t, s);
    CoversExactly(t, Merge(t, s));
  }

  lemma SecretsUngiven(ds: Tree, domain: Tree, ps: Tree, r: Tree)
    requires ds.Obj? && Field(ds, INVENTORY) == Arr([]) && domain.Str?
    requires !Field(ps, INVENTORY).Arr?
    requires SecretsOf([], domain, Merge(ds, ps), ps) == Some(r)
    ensures SecretsOf([], domain, r, r) == Some(r) && Covers(ds, r)
  {
    var s := Merge(ds, ps);
    assert |SERVICE| == 7 && |INVENTORY| == 9;
    if s.Obj? && ps.Obj? { MergeAt(ds, ps, INVENTORY); }
    assert Field(r, INVENTORY) == Field(s, INVENTORY);
    assert Field(r, INVENTORY).Arr? ==> Field(r, INVENTORY) == Arr([]);
    NoEntries();
    AssignTwice(s, SERVICE, domain);
    AssignTwice(r, INVENTORY, Arr([]));
    MergeCovers(ds, ps);
    AssignCovers(ds, s, SERVICE, domain);
  }

  lemma TokenTwice(dt: Tree, domain: Tree, pt: Tree, r: Tree)
    requires domain.Str? && TokenOf(domain, Merge(dt, pt)) == Some(r)
    ensures TokenOf(domain, r) == Some(r) && Covers(dt, r)
  {
    MergeCovers(dt, pt);
    AssignTwice(Merge(dt, pt), ISSUER, domain);
    AssignCovers(dt, Merge(dt, pt), ISSUER, domain);
  }

  lemma AuditTwice(da: Tree, path: Text, pa: Tree, r: Tree)
    requires da == Obj(map[]) && path != [] && AuditOf(path, Merge(da, pa)) == Some(r)
    ensures AuditOf(path, r) == Some(r)
    ensures Covers(da, r)
  {
    var a := Merge(da, pa);
    var audit := if Truthy(a) then a else Obj(map[]);
    var jsonl := Field(audit, JSONL);
    MergeCovers(da, pa);
    AssignCovers(da, audit, JSONL, DefaultJsonl(path, jsonl));
    JsonlReads(path, jsonl);
  }

  lemma JsonlReads(path: Text, jsonl: Tree)
    ensures var r := DefaultJsonl(path, jsonl);
      && Field(r, PATH) == Str(path)
      && Field(r, MASTER_KEY) == OrElse(Field(jsonl, MASTER_KEY), Null)
      && Field(r, COMPRESS) == OrElse(Field(jsonl, COMPRESS), Bool(false))
      && Field(r, COMPRESSION_FORMAT) == OrElse(Field(jsonl, COMPRESSION_FORMAT), Str(Lit("gzip")))
  {
    assert |PATH| == 4 && |MASTER_KEY| == 9;
    assert |COMPRESS| == 8 && |COMPRESSION_FORMAT| == 17;
  }

  lemma FeedTwice(df: Tree, domain: Tree, pf: Tree)
    requires domain.Str?
    ensures var r := FeedOf(domain, Merge(df, pf), pf);
      FeedOf(domain, r, r) == r && Covers(df, r)
  {
    MergeCovers(df, pf);
    AssignTwice(Merge(df, pf), API_KEY_SERVICE, domain);
    AssignCovers(df, Merge(df, pf), API_KEY_SERVICE, domain);
  }

  /** Two arrays of a policy, once assigned, are read as they are and assigned again as they are. */
  lemma AssignArrays(p: Tree, fatal: Tree, warn: Tree)
    requires p.Obj? && fatal.Arr? && warn.Arr?
    ensures var r := Assign(Assign(p, FATAL, fatal), WARN, warn);
      && r.Obj? && Field(r, FATAL) == fatal && Field(r, WARN) == warn
      && Assign(Assign(r, FATAL, fatal), WARN, warn) == r
  {
    var r := Assign(Assign(p, FATAL, fatal), WARN, warn);
    assert |FATAL| == 5 && |WARN| == 4;
    AssignTwice(r, FATAL, fatal);
    AssignTwice(r, WARN, warn);
  }

  lemma PolicyTwice(dp: Tree, pp: Tree)
    requires dp.Obj? && StringArray(Field(dp, FATAL)) && StringArray(Field(dp, WARN)) && pp.Obj?
    ensures var r := PolicyOf(dp, Merge(dp, pp), pp);
      r.Obj? && PolicyOf(dp, r, r) == r && Covers(dp, r)
  {
    var p := Merge(dp, pp);
    var fatal := MergePolicyArrays(Field(dp, FATAL), Field(pp, FATAL));
    var warn := MergePolicyArrays(Field(dp, WARN), Field(pp, WARN));
    PolicyArrayTwice(Field(dp, FATAL), Field(pp, FATAL));
    PolicyArrayTwice(Field(dp, WARN), Field(pp, WARN));
    AssignArrays(p, fatal, warn);
    MergeCovers(dp, pp);
    AssignCovers(dp, p, FATAL, fatal);
    AssignCovers(dp, Assign(p, FATAL, fatal), WARN, warn);
  }

  /** A policy that the partial does not give is that of the defaults, or is not an object. */
  lemma PolicyUngiven(dp: Tree, pp: Tree)
    requires dp.Obj? && StringArray(Field(dp, FATAL)) && StringArray(Field(dp, WARN)) && !pp.Obj?
    ensures var p := Merge(dp, pp);
      (p.Obj? ==> PolicyOf(dp, p, p) == p) && Covers(dp, p)
  {
    MergeCovers(dp, pp);
    if Nullish(pp) {
      PolicyArrayTwice(Field(dp, FATAL), Undefined);
      PolicyArrayTwice(Field(dp, WARN), Undefined);
      AssignTwice(dp, FATAL, Field(dp, FATAL));
      AssignTwice(dp, WARN, Field(dp, WARN));
    }
  }

  lemma FieldOfMerge(t: Tree, s: Tree, key: Text)
    requires t.Obj? && Merge(t, s).Obj?
    ensures Field(Merge(t, s), key) == Merge(Field(t, key), Field(s, key))
  {
    if s.Obj? { MergeAt(t, s, key); }
  }

  /** A chain whose feed and policy are settled is settled. */
  lemma ChainSame(dc: Tree, domain: Tree, r: Tree)
    requires r.Obj? && !Nullish(Field(r, FEED))
    requires FeedOf(domain, Field(r, FEED), Field(r, FEED)) == Field(r, FEED)
    requires Field(r, POLICY).Obj? ==>
      PolicyOf(Field(dc, POLICY), Field(r, POLICY), Field(r, POLICY)) == Field(r, POLICY)
    ensures SupplyChainOf(dc, domain, r, r) == Some(r)
  {
    AssignTwice(r, FEED, Field(r, FEED));
    if Field(r, POLICY).Obj? {
      AssignTwice(r, POLICY, Field(r, POLICY));
    }
  }

  lemma FeedPart(dc: Tree, domain: Tree, pc: Tree) returns (fed: Tree)
    requires dc.Obj? && domain.Str? && !Nullish(Field(Merge(dc, pc), FEED))
    ensures Merge(dc, pc).Obj?
    ensures fed == Assign(Merge(dc, pc), FEED,
      FeedOf(domain, Field(Merge(dc, pc), FEED), Field(pc, FEED)))
    ensures fed.Obj? && Covers(dc, fed)
    ensures !Nullish(Field(fed, FEED))
    ensures FeedOf(domain, Field(fed, FEED), Field(fed, FEED)) == Field(fed, FEED)
    ensures Field(fed, POLICY) == Merge(Field(dc, POLICY), Field(pc, POLICY))
  {
    var m := Merge(dc, pc);
    FieldOfMerge(dc, pc, FEED);
    FieldOfMerge(dc, pc, POLICY);
    FeedTwice(Field(dc, FEED), domain, Field(pc, FEED));
    var feed := FeedOf(domain, Field(m, FEED), Field(pc, FEED));
    fed := Assign(m, FEED, feed);
    MergeCovers(dc, pc);
    AssignCovers(dc, m, FEED, feed);
    assert |FEED| == 4 && |POLICY| == 6;
  }

  lemma SupplyChainTwice(dc: Tree, domain: Tree, pc: Tree, r: Tree)
    requires dc.Obj? && Field(dc, POLICY).Obj? && domain.Str?
    requires StringArray(Field(Field(dc, POLICY), FATAL))
    requires StringArray(Field(Field(dc, POLICY), WARN))
    requires SupplyChainOf(dc, domain, Merge(dc, pc), pc) == Some(r)
    ensures SupplyChainOf(dc, domain, r, r) == Some(r) && Covers(dc, r)
  {
    var fed := FeedPart(dc, domain, pc);
    var dp, pp := Field(dc, POLICY), Field(pc, POLICY);
    FieldOfMerge(dc, pc, POLICY);
    assert |FEED| == 4 && |POLICY| == 6;
    if pp.Obj? {
      PolicyTwice(dp, pp);
      var policy := PolicyOf(dp, Merge(dp, pp), pp);
      AssignCovers(dc, fed, POLICY, policy);
    } else {
      PolicyUngiven(dp, pp);
    }
    ChainSame(dc, domain, r);
  }

  lemma OverridesTwice(po: Tree)
    ensures var r := ErrorOverridesOf(map[], Merge(Obj(map[]), po), po);
      ErrorOverridesOf(map[], r, r) == r && Covers(Obj(map[]), r)
  {
    var r := ErrorOverridesOf(map[], Merge(Obj(map[]), po), po);
    MergeCovers(Obj(map[]), po);
    if r.Obj? {
      assert Overridden(map[], r.fields) == r.fields;
    }
  }

  // ---------- The main results ----------

  ghost predicate SectionsCovered(d: map<Text, Tree>, x: Sections) {
    && Covers(Lookup(d, DOMAIN), x.domain)
    && Covers(Lookup(d, SECRETS), x.secrets) && Covers(Lookup(d, TOKEN), x.token)
    && Covers(Lookup(d, AUDIT), x.audit) && Covers(Lookup(d, SUPPLY_CHAIN), x.supplyChain)
    && Covers(Lookup(d, ERROR_OVERRIDES), x.errorOverrides)
  }

  lemma SectionsCover(d: map<Text, Tree>, base: map<Text, Tree>, x: Sections)
    requires Covers(Obj(d), Obj(base)) && SectionsCovered(d, x)
    ensures Covers(Obj(d), Obj(WithSections(base, x)))
  {
    var m1 := base[DOMAIN := x.domain];
    UpdateCovers(d, base, DOMAIN, x.domain);
    var m2 := m1[SECRETS := x.secrets];
    UpdateCovers(d, m1, SECRETS, x.secrets);
    var m3 := m2[TOKEN := x.token];
    UpdateCovers(d, m2, TOKEN, x.token);
    var m4 := m3[AUDIT := x.audit];
    UpdateCovers(d, m3, AUDIT, x.audit);
    var m5 := m4[SUPPLY_CHAIN := x.supplyChain];
    UpdateCovers(d, m4, SUPPLY_CHAIN, x.supplyChain);
    UpdateCovers(d, m5, ERROR_OVERRIDES, x.errorOverrides);
  }

  lemma UpdateCovers(d: map<Text, Tree>, m: map<Text, Tree>, key: Text, value: Tree)
    requires Covers(Obj(d), Obj(m)) && Covers(Lookup(d, key), value)
    ensures Covers(Obj(d), Obj(m[key := value]))
  {
    AssignCovers(Obj(d), Obj(m), key, value);
  }

  lemma UpdateSame(m: map<Text, Tree>, key: Text)
    requires key in m
    ensures m[key := Lookup(m, key)] == m
  {
  }

  lemma SectionsAgain(base: map<Text, Tree>, x: Sections)
    ensures WithSections(WithSections(base, x), x) == WithSections(base, x)
  {
    var m := WithSections(base, x);
    SectionsRead(base, x);
    UpdateSame(m, DOMAIN);
    UpdateSame(m, SECRETS);
    UpdateSame(m, TOKEN);
    UpdateSame(m, AUDIT);
    UpdateSame(m, SUPPLY_CHAIN);
    UpdateSame(m, ERROR_OVERRIDES);
  }

  lemma BaseSections(d: map<Text, Tree>, partial: Tree)
    requires partial.Obj?
    ensures forall k :: Lookup(Merge(Obj(d), partial).fields, k) == Merge(Lookup(d, k), Field(partial, k))
  {
    forall k ensures Lookup(Merge(Obj(d), partial).fields, k) == Merge(Lookup(d, k), Field(partial, k)) {
      MergeAt(Obj(d), partial, k);
    }
  }

  lemma SecretsTwice(ds: Tree, domain: Tree, ps: Tree, r: Tree)
    requires ds.Obj? && Field(ds, INVENTORY) == Arr([]) && domain.Str?
    requires SecretsOf([], domain, Merge(ds, ps), ps) == Some(r)
    ensures SecretsOf([], domain, r, r) == Some(r) && Covers(ds, r)
  {
    if Field(ps, INVENTORY).Arr? {
      SecretsGiven(ds, domain, ps, r);
    } else {
      SecretsUngiven(ds, domain, ps, r);
    }
  }

  /** Settled sections are what the edits make of them. */
  lemma SectionsSettle(d: map<Text, Tree>, segment: Text -> Text, partial: Tree, x: Sections)
    requires Shaped(d) && partial.Obj? && Field(partial, DOMAIN).Str?
    requires SectionsOf(d, segment, Field(partial, DOMAIN), Merge(Obj(d), partial).fields, partial) == Some(x)
    ensures SectionsCovered(d, x)
    ensures SecretsOf([], x.domain, x.secrets, x.secrets) == Some(x.secrets)
    ensures x.domain.Str? && TokenOf(x.domain, x.token) == Some(x.token)
    ensures AuditOf(JsonlPath(segment, x.domain.text), x.audit) == Some(x.audit)
    ensures SupplyChainOf(Lookup(d, SUPPLY_CHAIN), x.domain, x.supplyChain, x.supplyChain) == Some(x.supplyChain)
    ensures ErrorOverridesOf(map[], x.errorOverrides, x.errorOverrides) == x.errorOverrides
  {
    BaseSections(d, partial);
    SecretsTwice(Lookup(d, SECRETS), x.domain, Field(partial, SECRETS), x.secrets);
    TokenTwice(Lookup(d, TOKEN), x.domain, Field(partial, TOKEN), x.token);
    AuditTwice(Lookup(d, AUDIT), JsonlPath(segment, x.domain.text), Field(partial, AUDIT), x.audit);
    SupplyChainTwice(Lookup(d, SUPPLY_CHAIN), x.domain, Field(partial, SUPPLY_CHAIN), x.supplyChain);
    OverridesTwice(Field(partial, ERROR_OVERRIDES));
  }

  lemma SettledSame(d: map<Text, Tree>, segment: Text -> Text, m: map<Text, Tree>, x: Sections)
    requires x.domain.Str? && Lookup(m, SECRETS) == x.secrets && Lookup(m, TOKEN) == x.token
    requires Lookup(m, AUDIT) == x.audit && Lookup(m, SUPPLY_CHAIN) == x.supplyChain
    requires Lookup(m, ERROR_OVERRIDES) == x.errorOverrides
    requires SecretsOf([], x.domain, x.secrets, x.secrets) == Some(x.secrets)
    requires TokenOf(x.domain, x.token) == Some(x.token)
    requires AuditOf(JsonlPath(segment, x.domain.text), x.audit) == Some(x.audit)
    requires SupplyChainOf(Lookup(d, SUPPLY_CHAIN), x.domain, x.supplyChain, x.supplyChain) == Some(x.supplyChain)
    requires ErrorOverridesOf(map[], x.errorOverrides, x.errorOverrides) == x.errorOverrides
    ensures SectionsOf(d, segment, x.domain, m, Obj(m)) == Some(x)
  {
  }

  /** Applying the defaults to a completed configuration changes nothing. */
  lemma ApplyDefaultsTwice(d: map<Text, Tree>, segment: Text -> Text, partial: Tree)
    requires Shaped(d) && Configured(d, segment, partial).Config?
    ensures Configured(d, segment, Obj(Configured(d, segment, partial).fields)) == Configured(d, segment, partial)
  {
    var domain := Field(partial, DOMAIN);
    var base := Merge(Obj(d), partial).fields;
    var x := SectionsOf(d, segment, domain, base, partial).value;
    var m := WithSections(base, x);
    SectionsSettle(d, segment, partial, x);
    MergeCovers(Obj(d), partial);
    SectionsCover(d, base, x);
    CoversExactly(Obj(d), Obj(m));
    SectionsRead(base, x);
    SettledSame(d, segment, m, x);
    SectionsAgain(base, x);
  }

  /**
   A completed configuration carries its domain as the service of its secrets and the issuer of
   its tokens, and names a path for its audit log.
   */
  lemma DomainEverywhere(d: map<Text, Tree>, segment: Text -> Text, partial: Tree)
    requires Shaped(d) && Configured(d, segment, partial).Config?
    ensures var m := Configured(d, segment, partial).fields;
      var domain := Field(partial, DOMAIN);
      && Lookup(m, DOMAIN) == domain
      && (Lookup(m, SECRETS).Obj? ==> Field(Lookup(m, SECRETS), SERVICE) == domain)
      && (Lookup(m, TOKEN).Obj? ==> Field(Lookup(m, TOKEN), ISSUER) == domain)
      && (Lookup(m, AUDIT).Obj? ==> Truthy(Field(Field(Lookup(m, AUDIT), JSONL), PATH)))
  {
    var domain := Field(partial, DOMAIN);
    var base := Merge(Obj(d), partial).fields;
    var x := SectionsOf(d, segment, domain, base, partial).value;
    SectionsRead(base, x);
    assert |SERVICE| == 7 && |INVENTORY| == 9;
    JsonlReads(JsonlPath(segment, domain.text), Field(Lookup(base, AUDIT), JSONL));
    JsonlReads(JsonlPath(segment, domain.text), Undefined);
  }

  /** Every other field is exactly the deep merge of the defaults and the partial. */
  lemma OtherFieldsMerge(d: map<Text, Tree>, segment: Text -> Text, partial: Tree, key: Text)
    requires Configured(d, segment, partial).Config?
    requires key !in [DOMAIN, SECRETS, TOKEN, AUDIT, SUPPLY_CHAIN, ERROR_OVERRIDES]
    ensures Lookup(Configured(d, segment, partial).fields, key) == Merge(Lookup(d, key), Field(partial, key))
  {
    MergeAt(Obj(d), partial, key);
  }

  /** An object or nothing. */
  predicate Section(t: Tree) {
    Nullish(t) || t.Obj?
  }

  lemma MergeSection(t: Tree, s: Tree)
    requires t.Obj? && Section(s)
    ensures Merge(t, s).Obj?
  {
  }

  /** The sections that the edits enter hold objects wherever they hold anything. */
  predicate WellTyped(partial: Tree) {
    && Field(partial, DOMAIN).Str?
    && Section(Field(partial, SECRETS)) && Section(Field(partial, TOKEN)) && Section(Field(partial, AUDIT))
    && Section(Field(partial, SUPPLY_CHAIN)) && Section(Field(Field(partial, SUPPLY_CHAIN), FEED))
  }

  lemma SectionsComplete(d: map<Text, Tree>, segment: Text -> Text, domain: Tree, base: map<Text, Tree>, partial: Tree)
    requires domain.Str?
    requires Lookup(base, SECRETS).Obj? && Lookup(base, TOKEN).Obj? && Lookup(base, AUDIT).Obj?
    requires Field(Lookup(base, SUPPLY_CHAIN), FEED).Obj?
    ensures SectionsOf(d, segment, domain, base, partial).Some?
  {
  }

  /** A well-typed partial is always completed. */
  lemma WellTypedCompletes(d: map<Text, Tree>, segment: Text -> Text, partial: Tree)
    requires Shaped(d) && WellTyped(partial)
    ensures Configured(d, segment, partial).Config?
  {
    var base := Merge(Obj(d), partial).fields;
    var chain, given := Lookup(d, SUPPLY_CHAIN), Field(partial, SUPPLY_CHAIN);
    BaseSections(d, partial);
    MergeSection(Lookup(d, SECRETS), Field(partial, SECRETS));
    MergeSection(Lookup(d, TOKEN), Field(partial, TOKEN));
    MergeSection(Lookup(d, AUDIT), Field(partial, AUDIT));
    MergeSection(chain, given);
    FieldOfMerge(chain, given, FEED);
    MergeSection(Field(chain, FEED), Field(given, FEED));
    SectionsComplete(d, segment, Field(partial, DOMAIN), base, partial);
  }

  // ---------- What the edited sections hold ----------

  /** The section values of a completed configuration. */
  lemma SectionsOfResult(d: map<Text, Tree>, segment: Text -> Text, partial: Tree) returns (x: Sections)
    requires Shaped(d) && Configured(d, segment, partial).Config?
    ensures partial.Obj? && x.domain == Field(partial, DOMAIN) && x.domain.Str?
    ensures SecretsOf([], x.domain, Merge(Lookup(d, SECRETS), Field(partial, SECRETS)), Field(partial, SECRETS))
      == Some(x.secrets)
    ensures AuditOf(JsonlPath(segment, x.domain.text), Merge(Lookup(d, AUDIT), Field(partial, AUDIT))) == Some(x.audit)
    ensures SupplyChainOf(Lookup(d, SUPPLY_CHAIN), x.domain,
      Merge(Lookup(d, SUPPLY_CHAIN), Field(partial, SUPPLY_CHAIN)), Field(partial, SUPPLY_CHAIN)) == Some(x.supplyChain)
    ensures x.errorOverrides == ErrorOverridesOf(map[],
      Merge(Lookup(d, ERROR_OVERRIDES), Field(partial, ERROR_OVERRIDES)), Field(partial, ERROR_OVERRIDES))
    ensures var m := Configured(d, segment, partial).fields;
      && Lookup(m, SECRETS) == x.secrets && Lookup(m, AUDIT) == x.audit
      && Lookup(m, SUPPLY_CHAIN) == x.supplyChain && Lookup(m, ERROR_OVERRIDES) == x.errorOverrides
  {
    var base := Merge(Obj(d), partial).fields;
    x := SectionsOf(d, segment, Field(partial, DOMAIN), base, partial).value;
    BaseSections(d, partial);
    SectionsRead(base, x);
  }

  /** The inventory holds, under every name given, the last entry given with it, once. */
  lemma InventoryMeans(d: map<Text, Tree>, segment: Text -> Text, partial: Tree, name: Text)
    requires Shaped(d) && Configured(d, segment, partial).Config?
    requires Field(Field(partial, SECRETS), INVENTORY).Arr?
    ensures var inventory := Field(Lookup(Configured(d, segment, partial).fields, SECRETS), INVENTORY);
      var given := SecretEntries(Field(Field(partial, SECRETS), INVENTORY).items);
      && inventory.Arr? && DistinctKeys(inventory.items, NameOf)
      && At(inventory.items, NameOf, name) == LastWith(given, NameOf, name)
  {
    var x := SectionsOfResult(d, segment, partial);
    var given := SecretEntries(Field(Field(partial, SECRETS), INVENTORY).items);
    assert [] + given == given;
    PutAllDistinct(NameOf, given);
    LastItemWins(NameOf, given, name);
  }

  /** An entry is given under a name by naming it with that text. */
  predicate Names(t: Tree, name: Text) {
    t.Obj? && NAME in t.fields && t.fields[NAME] == Str(name)
  }

  /** The entry is named so and no later one is. */
  ghost predicate LastNamed(items: seq<Tree>, i: nat, name: Text) {
    i < |items| && Names(items[i], name) && forall j :: i < j < |items| ==> !Names(items[j], name)
  }

  lemma NamesMeans(t: Tree, name: Text)
    ensures Names(t, name) <==> IsSecretEntry(t) && NameOf(t) == name
  {
  }

  lemma LastNamedNext(init: seq<Tree>, last: Tree, i: nat, name: Text)
    ensures Names(last, name) ==> LastNamed(init + [last], |init|, name)
    ensures !Names(last, name) && LastNamed(init, i, name) ==> LastNamed(init + [last], i, name)
  {
  }

  /** What stands under the name is the last entry of that name, if there is one. */
  ghost predicate HoldsLast(found: Option<Tree>, given: seq<Tree>, name: Text) {
    && (found.None? <==> forall i :: 0 <= i < |given| ==> !Names(given[i], name))
    && (found.Some? ==> exists i: nat :: LastNamed(given, i, name) && given[i] == found.value)
  }

  lemma HoldsLastNext(found: Option<Tree>, init: seq<Tree>, last: Tree, name: Text)
    requires HoldsLast(found, init, name)
    ensures HoldsLast(if Names(last, name) then Some(last) else found, init + [last], name)
  {
    var items := init + [last];
    assert items[|init|] == last;
    if Names(last, name) {
      LastNamedNext(init, last, 0, name);
    } else if found.Some? {
      var i: nat :| LastNamed(init, i, name) && init[i] == found.value;
      LastNamedNext(init, last, i, name);
      assert items[i] == init[i];
    } else {
      assert forall i :: 0 <= i < |init| ==> items[i] == init[i];
    }
  }

  lemma LastWithNext(items: seq<Tree>, last: Tree, name: Text)
    ensures LastWith(items + [last], NameOf, name)
      == if NameOf(last) == name then Some(last) else LastWith(items, NameOf, name)
  {
    assert (items + [last])[..|items|] == items;
  }

  lemma {:induction false} LastNamedGiven(items: seq<Tree>, name: Text)
    ensures HoldsLast(LastWith(SecretEntries(items), NameOf, name), items, name)
  {
    if items != [] {
      var init, last := items[..|items| - 1], items[|items| - 1];
      LastNamedGiven(init, name);
      LastApart([], items);
      HoldsLastNext(LastWith(SecretEntries(init), NameOf, name), init, last, name);
      NamesMeans(last, name);
      if IsSecretEntry(last) {
        LastWithNext(SecretEntries(init), last, name);
      } else {
        assert SecretEntries(items) == SecretEntries(init);
      }
    }
  }

  /** The inventory holds, for every name that the partial configuration names, the last entry of that name. */
  lemma InventoryLast(d: map<Text, Tree>, segment: Text -> Text, partial: Tree, name: Text)
    requires Shaped(d) && Configured(d, segment, partial).Config?
    requires Field(Field(partial, SECRETS), INVENTORY).Arr?
    ensures var inventory := Field(Lookup(Configured(d, segment, partial).fields, SECRETS), INVENTORY);
      var given := Field(Field(partial, SECRETS), INVENTORY).items;
      inventory.Arr? && HoldsLast(At(inventory.items, NameOf, name), given, name)
  {
    var given := Field(Field(partial, SECRETS), INVENTORY).items;
    LastNamedGiven(given, name);
    InventoryMeans(d, segment, partial, name);
  }

  /** A policy that is given keeps its strings, fatal and warn each on its own, or the defaults. */
  lemma PolicyMeans(d: map<Text, Tree>, segment: Text -> Text, partial: Tree)
    requires Shaped(d) && Configured(d, segment, partial).Config?
    requires Field(Field(partial, SUPPLY_CHAIN), POLICY).Obj?
    ensures var policy := Field(Lookup(Configured(d, segment, partial).fields, SUPPLY_CHAIN), POLICY);
      var given, default := Field(Field(partial, SUPPLY_CHAIN), POLICY), Field(Lookup(d, SUPPLY_CHAIN), POLICY);
      && Field(policy, FATAL) == MergePolicyArrays(Field(default, FATAL), Field(given, FATAL))
      && Field(policy, WARN) == MergePolicyArrays(Field(default, WARN), Field(given, WARN))
  {
    var x := SectionsOfResult(d, segment, partial);
    var chain, pc := Lookup(d, SUPPLY_CHAIN), Field(partial, SUPPLY_CHAIN);
    FieldOfMerge(chain, pc, POLICY);
    PolicyArrayTwice(Field(Field(chain, POLICY), FATAL), Field(Field(pc, POLICY), FATAL));
    PolicyArrayTwice(Field(Field(chain, POLICY), WARN), Field(Field(pc, POLICY), WARN));
    AssignArrays(Merge(Field(chain, POLICY), Field(pc, POLICY)),
                 MergePolicyArrays(Field(Field(chain, POLICY), FATAL), Field(Field(pc, POLICY), FATAL)),
                 MergePolicyArrays(Field(Field(chain, POLICY), WARN), Field(Field(pc, POLICY), WARN)));
  }

  /** Filtering keeps exactly the strings, in the order in which they stand. */
  lemma {:induction false} StringsInOrder(items: seq<Tree>) returns (at: seq<nat>)
    ensures Chosen(items, (t: Tree) => t.Str?, at, Strings(items))
  {
    at := [];
    if items != [] {
      var init, last := items[..|items| - 1], items[|items| - 1];
      at := StringsInOrder(init);
      ChosenNext(init, last, (t: Tree) => t.Str?, at, Strings(init));
      assert items == init + [last] && Strings(init) + [] == Strings(init);
      if last.Str? { at := at + [|init|]; }
    }
  }

  lemma {:induction false} StringsMean(items: seq<Tree>, t: Tree)
    ensures multiset(Strings(items))[t] == if t.Str? then multiset(items)[t] else 0
  {
    if items != [] {
      StringsMean(items[..|items| - 1], t);
      assert items == items[..|items| - 1] + [items[|items| - 1]];
    }
  }

  /** A policy that is given as an array keeps exactly its strings, in their order; otherwise the default stands. */
  lemma PolicyKept(d: map<Text, Tree>, segment: Text -> Text, partial: Tree, key: Text) returns (at: seq<nat>)
    requires Shaped(d) && Configured(d, segment, partial).Config? && (key == FATAL || key == WARN)
    requires Field(Field(partial, SUPPLY_CHAIN), POLICY).Obj?
    ensures var kept := Field(Field(Lookup(Configured(d, segment, partial).fields, SUPPLY_CHAIN), POLICY), key);
      var given := Field(Field(Field(partial, SUPPLY_CHAIN), POLICY), key);
      && (given.Arr? ==> kept.Arr? && Chosen(given.items, (t: Tree) => t.Str?, at, kept.items))
      && (!given.Arr? ==> kept == Field(Field(Lookup(d, SUPPLY_CHAIN), POLICY), key))
  {
    var given := Field(Field(Field(partial, SUPPLY_CHAIN), POLICY), key);
    at := [];
    if given.Arr? { at := StringsInOrder(given.items); }
    PolicyMeans(d, segment, partial);
  }

  /** The feed's key is looked up under the service it names, or else under the domain. */
  lemma FeedMeans(d: map<Text, Tree>, segment: Text -> Text, partial: Tree)
    requires Shaped(d) && Configured(d, segment, partial).Config?
    ensures var feed := Field(Lookup(Configured(d, segment, partial).fields, SUPPLY_CHAIN), FEED);
      var given := Field(Field(partial, SUPPLY_CHAIN), FEED);
      Truthy(Field(feed, API_KEY_VAULT)) ==>
        Field(feed, API_KEY_SERVICE)
          == if Field(given, API_KEY_SERVICE).Str? && Field(given, API_KEY_SERVICE).text != []
             then Field(given, API_KEY_SERVICE) else Field(partial, DOMAIN)
  {
    var x := SectionsOfResult(d, segment, partial);
    var chain, pc := Lookup(d, SUPPLY_CHAIN), Field(partial, SUPPLY_CHAIN);
    FeedOfChain(chain, pc, x.domain, x.supplyChain);
    FeedService(x.domain, Field(chain, FEED), Field(pc, FEED));
  }

  lemma FeedOfChain(chain: Tree, pc: Tree, domain: Tree, r: Tree)
    requires chain.Obj? && SupplyChainOf(chain, domain, Merge(chain, pc), pc) == Some(r)
    ensures Field(r, FEED) == FeedOf(domain, Merge(Field(chain, FEED), Field(pc, FEED)), Field(pc, FEED))
  {
    assert |FEED| == 4 && |POLICY| == 6;
    FieldOfMerge(chain, pc, FEED);
  }

  lemma FeedService(domain: Tree, default: Tree, given: Tree)
    requires default.Obj?
    ensures var feed := FeedOf(domain, Merge(default, given), given);
      Truthy(Field(feed, API_KEY_VAULT)) ==>
        Field(feed, API_KEY_SERVICE) == if ExplicitService(given) then Field(given, API_KEY_SERVICE) else domain
  {
    assert |API_KEY_VAULT| == 11 && |API_KEY_SERVICE| == 13;
    if given.Obj? {
      MergeAt(default, given, API_KEY_SERVICE);
    }
  }

  /** Overrides are those given, code by code; a value that is not an object counts as none. */
  lemma OverridesMean(d: map<Text, Tree>, segment: Text -> Text, partial: Tree, code: Text)
    requires Shaped(d) && Configured(d, segment, partial).Config?
    requires Field(partial, ERROR_OVERRIDES).Obj?
    ensures var overrides := Lookup(Configured(d, segment, partial).fields, ERROR_OVERRIDES);
      var given := Field(partial, ERROR_OVERRIDES).fields;
      && overrides.Obj? && (code in overrides.fields <==> code in given)
      && (code in given ==> overrides.fields[code] == if given[code].Obj? then given[code] else Obj(map[]))
  {
    var x := SectionsOfResult(d, segment, partial);
  }

  lemma GivenJsonl(path: Text, audit: Tree, r: Tree)
    requires audit.Obj? && AuditOf(path, audit) == Some(r)
    ensures Field(r, JSONL) ==
      if Truthy(Field(Field(audit, JSONL), PATH)) then Field(audit, JSONL) else DefaultJsonl(path, Field(audit, JSONL))
  {
  }

  /** An audit log without a path gets that of its domain; what else it says stays. */
  lemma JsonlMeans(d: map<Text, Tree>, segment: Text -> Text, partial: Tree)
    requires Shaped(d) && Configured(d, segment, partial).Config?
    requires Field(partial, AUDIT).Obj?
    ensures var jsonl := Field(Lookup(Configured(d, segment, partial).fields, AUDIT), JSONL);
      var given := Field(Field(partial, AUDIT), JSONL);
      if Truthy(Field(given, PATH)) then jsonl == given
      else
        && Field(jsonl, PATH) == Str(JsonlPath(segment, Field(partial, DOMAIN).text))
        && Field(jsonl, MASTER_KEY) == OrElse(Field(given, MASTER_KEY), Null)
        && Field(jsonl, COMPRESS) == OrElse(Field(given, COMPRESS), Bool(false))
        && Field(jsonl, COMPRESSION_FORMAT) == OrElse(Field(given, COMPRESSION_FORMAT), Str(Lit("gzip")))
  {
    var x := SectionsOfResult(d, segment, partial);
    var given := Field(Field(partial, AUDIT), JSONL);
    MergeAt(Obj(map[]), Field(partial, AUDIT), JSONL);
    GivenJsonl(JsonlPath(segment, x.domain.text), Merge(Obj(map[]), Field(partial, AUDIT)), x.audit);
    JsonlReads(JsonlPath(segment, x.domain.text), given);
  }
}
