/** The default configuration. */
module DefaultConfig {
  import opened ConfigDefaults
  import opened ConfigMerge
  import opened Utf16

  function StrOf(s: string): Tree
    requires forall i :: 0 <= i < |s| ==> (s[i] as int) < 0x1_0000
  {
    Str(Lit(s))
  }

  function Colors(): Tree {
    Obj(map[
      Lit("primary") := StrOf("#0A84FF"), Lit("secondary") := StrOf("#30D158"), Lit("fatal") := StrOf("#FF453A"),
      Lit("warn") := StrOf("#FF9500"), Lit("info") := StrOf("#0A84FF"), Lit("success") := StrOf("#30D158")])
  }

  function Channels(): Tree {
    Obj(map[
      Lit("vault") := StrOf("#0A84FF"), Lit("identity") := StrOf("#30D158"), Lit("token") := StrOf("#FF9500"),
      Lit("csrf") := StrOf("#FF453A"), Lit("supplyChain") := StrOf("#BF5AF2"), Lit("ops") := StrOf("#8E8E93")])
  }

  function Secrets(): Tree {
    Obj(map[
      SERVICE := StrOf("com.example.service"), Lit("allowUnrestrictedAccess") := Bool(false),
      INVENTORY := Arr([]), Lit("inventoryFile") := Undefined])
  }

  function Identity(): Tree {
    Obj(map[
      Lit("algorithm") := StrOf("bcrypt"), Lit("minLength") := Number(12.0),
      Lit("requireSpecialChar") := Bool(true), Lit("cost") := Number(10.0)])
  }

  function Token(): Tree {
    Obj(map[
      Lit("algorithm") := StrOf("HS256"), Lit("ttlSeconds") := Number(3600.0), ISSUER := StrOf("com.example.service")])
  }

  function Csrf(): Tree {
    Obj(map[
      Lit("enabled") := Bool(true), Lit("tokenLength") := Number(32.0), Lit("mode") := StrOf("stateless"),
      Lit("cookieName") := StrOf("_csrf"), Lit("headerName") := StrOf("X-CSRF-Token"),
      Lit("sessionCookieName") := StrOf("_session"), Lit("encoding") := StrOf("base64url"),
      Lit("algorithm") := StrOf("sha256")])
  }

  function Policy(): Tree {
    Obj(map[
      FATAL := Arr([StrOf("backdoor"), StrOf("botnet"), StrOf("token-stealer"), StrOf("malware")]),
      WARN := Arr([StrOf("protestware"), StrOf("adware"), StrOf("deprecated"), StrOf("unmaintained")])])
  }

  function SupplyChain(): Tree {
    Obj(map[
      Lit("enabled") := Bool(true),
      FEED := Obj(map[
        Lit("cachePath") := StrOf("./.security/threat-cache.json"), Lit("cacheTtl") := Number(3600.0)]),
      POLICY := Policy()])
  }

  function Ops(): Tree {
    Obj(map[
      Lit("watch") := Obj(map[Lit("debounceMs") := Number(300.0)]),
      Lit("report") := Obj(map[
        Lit("format") := StrOf("markdown"), Lit("output") := StrOf("./.security/reports"),
        Lit("operatorQr") := Obj(map[Lit("enabled") := Bool(true), Lit("size") := Number(180.0)])])])
  }

  function Visual(): Tree {
    Obj(map[Lit("qr") := Obj(map[Lit("enabled") := Bool(true)])])
  }

  function Service(): Tree {
    Obj(map[Lit("interactive") := Bool(false), Lit("http1") := Bool(true), Lit("http3") := Bool(false)])
  }

  function Defaults(): map<Text, Tree> {
    map[
      Lit("colors") := Colors(), Lit("channels") := Channels(), SECRETS := Secrets(), Lit("identity") := Identity(),
      TOKEN := Token(), Lit("csrf") := Csrf(), SUPPLY_CHAIN := SupplyChain(), Lit("ops") := Ops(),
      Lit("visual") := Visual(), SERVICE := Service(),
      AUDIT := Obj(map[]), Lit("intel") := Obj(map[]), Lit("tls") := Obj(map[]), ERROR_OVERRIDES := Obj(map[])]
  }

  lemma PolicyShape()
    ensures StringArray(Field(Policy(), FATAL)) && StringArray(Field(Policy(), WARN))
  {
    assert |FATAL| == 5 && |WARN| == 4;
  }

  lemma ChainShape()
    ensures Field(SupplyChain(), FEED).Obj? && Field(SupplyChain(), POLICY) == Policy()
  {
    assert |Lit("enabled")| == 7 && |FEED| == 4 && |POLICY| == 6;
  }

  lemma SecretsShape()
    ensures Secrets().Obj? && Field(Secrets(), INVENTORY) == Arr([])
  {
    assert |Lit("inventoryFile")| == 13 && |INVENTORY| == 9;
  }

  /** The keys between the edited sections and after them. */
  lemma OtherKeys()
    ensures SERVICE !in [SECRETS, TOKEN, AUDIT, SUPPLY_CHAIN, ERROR_OVERRIDES]
    ensures Lit("intel") !in [SECRETS, TOKEN, AUDIT, SUPPLY_CHAIN, ERROR_OVERRIDES]
    ensures forall name :: name in [Lit("csrf"), Lit("ops"), Lit("visual"), Lit("tls")] ==>
      name !in [SECRETS, TOKEN, AUDIT, SUPPLY_CHAIN, ERROR_OVERRIDES]
    ensures Lit("identity") !in [SECRETS, TOKEN, AUDIT, SUPPLY_CHAIN, ERROR_OVERRIDES]
  {
    assert |SERVICE| == |SECRETS| == 7 && SERVICE[2] != SECRETS[2];
    assert |Lit("intel")| == |TOKEN| == |AUDIT| == 5 && Lit("intel")[0] != TOKEN[0] && Lit("intel")[0] != AUDIT[0];
    assert |SUPPLY_CHAIN| == 11 && |ERROR_OVERRIDES| == 14;
    assert |Lit("csrf")| == 4 && |Lit("ops")| == 3 && |Lit("visual")| == 6 && |Lit("tls")| == 3;
    assert |Lit("identity")| == 8;
  }

  lemma DefaultSections()
    ensures Lookup(Defaults(), SECRETS) == Secrets() && Lookup(Defaults(), TOKEN) == Token()
    ensures Lookup(Defaults(), AUDIT) == Obj(map[]) && Lookup(Defaults(), SUPPLY_CHAIN) == SupplyChain()
    ensures Lookup(Defaults(), ERROR_OVERRIDES) == Obj(map[])
  {
    KeysDistinct();
    OtherKeys();
  }

  /** The defaults have the shape that completing a configuration relies on. */
  lemma DefaultsShaped()
    ensures Shaped(Defaults())
  {
    DefaultSections();
    PolicyShape();
    ChainShape();
    SecretsShape();
  }

  /** Every well-typed partial is completed, and completing the result again changes nothing. */
  lemma CompletedOnce(segment: Text -> Text, partial: Tree)
    requires WellTyped(partial)
    ensures var r := Configured(Defaults(), segment, partial);
      r.Config? && Configured(Defaults(), segment, Obj(r.fields)) == r
  {
    DefaultsShaped();
    WellTypedCompletes(Defaults(), segment, partial);
    ApplyDefaultsTwice(Defaults(), segment, partial);
  }
}
