/** The policy engine: the first matching rule drops an advisory or moves its level. */
module Policy {
  import opened Utf16
  import opened Wrappers
  import Glob
  import Sets

  datatype Severity = Fatal | Warn | Info

  /** A level as it may stand in an advisory; the declared type allows the first two only. */
  datatype Level = Known(severity: Severity) | Other(name: Text)

  datatype Action = Ignore | Downgrade | Escalate

  datatype Rule = Rule(
    package: Option<Text>,
    version: Option<Text>,
    cve: Option<Text>,
    category: Option<Text>,
    action: Action,
    to: Option<Severity>)

  /** The parts of an advisory that rules look at and never change. */
  datatype Facts = Facts(package: Text, version: Option<Text>, cve: Option<Text>, categories: seq<Text>)

  /** Version ranges and CVE patterns are decided outside the engine. */
  datatype Oracles = Oracles(satisfies: (Text, Text) -> bool, cveMatches: (Text, Text) -> bool)

  class Advisory {
    const facts: Facts
    var level: Level

    constructor (facts: Facts, level: Level)
      ensures this.facts == facts && this.level == level
    {
      this.facts := facts;
      this.level := level;
    }
  }

  // ---------- Matching ----------

  predicate Given(o: Option<Text>) {
    o.Some? && o.value != []
  }

  predicate RuleMatches(q: Oracles, rule: Rule, f: Facts) {
    && (Given(rule.package) ==> Glob.RegexTest(Glob.GlobToRegex(rule.package.value), f.package))
    && (Given(rule.version) ==> Given(f.version) && q.satisfies(f.version.value, rule.version.value))
    && (Given(rule.cve) ==> Given(f.cve) && q.cveMatches(rule.cve.value, f.cve.value))
    && (Given(rule.category) ==> rule.category.value in f.categories)
  }

  /** The index of the first rule that matches, or the number of rules. */
  function FirstMatch(q: Oracles, rules: seq<Rule>, f: Facts): (n: nat)
    ensures n <= |rules|
    ensures forall i :: 0 <= i < n ==> !RuleMatches(q, rules[i], f)
    ensures n < |rules| ==> RuleMatches(q, rules[n], f)
  {
    if rules == [] || RuleMatches(q, rules[0], f) then 0 else 1 + FirstMatch(q, rules[1..], f)
  }

  predicate Drops(q: Oracles, rules: seq<Rule>, f: Facts) {
    var n := FirstMatch(q, rules, f);
    n < |rules| && rules[n].action == Ignore
  }

  // ---------- Levels ----------

  function Rank(s: Severity): nat {
    match s
    case Fatal => 0
    case Warn => 1
    case Info => 2
  }

  function Coerce(level: Level): Severity {
    match level
    case Known(s) => s
    case Other(_) => Warn
  }

  function ToAdvisoryLevel(s: Severity): Level {
    if s == Info then Known(Warn) else Known(s)
  }

  function Target(rule: Rule): Severity {
    rule.to.GetOr(if rule.action == Escalate then Fatal else Info)
  }

  predicate Escalates(rule: Rule, level: Level) {
    rule.action == Escalate && Rank(Target(rule)) < Rank(Coerce(level))
  }

  predicate Downgrades(rule: Rule, level: Level) {
    rule.action == Downgrade && Rank(Target(rule)) > Rank(Coerce(level))
  }

  /** The first rule that matches raises the level. */
  predicate EscalatedBy(q: Oracles, rules: seq<Rule>, f: Facts, level: Level) {
    var n := FirstMatch(q, rules, f);
    n < |rules| && Escalates(rules[n], level)
  }

  predicate DowngradedBy(q: Oracles, rules: seq<Rule>, f: Facts, level: Level) {
    var n := FirstMatch(q, rules, f);
    n < |rules| && Downgrades(rules[n], level)
  }

  /** The level an advisory has after it was looked at once. */
  function Settled(q: Oracles, rules: seq<Rule>, f: Facts, level: Level): Level {
    var n := FirstMatch(q, rules, f);
    if EscalatedBy(q, rules, f, level) || DowngradedBy(q, rules, f, level) then
      ToAdvisoryLevel(Target(rules[n]))
    else level
  }

  /** Looking at an advisory again does not move its level again. */
  lemma SettledTwice(q: Oracles, rules: seq<Rule>, f: Facts, level: Level)
    ensures Settled(q, rules, f, Settled(q, rules, f, level)) == Settled(q, rules, f, level)
  {
  }

  /** A rule matches when each field it gives agrees, the package as a glob. */
  lemma RuleMatchesMeans(q: Oracles, rule: Rule, f: Facts)
    ensures RuleMatches(q, rule, f) <==> (
      && (rule.package.GetOr([]) == [] || Glob.GlobMatches(rule.package.value, f.package))
      && (rule.version.GetOr([]) == []
          || (f.version.GetOr([]) != [] && q.satisfies(f.version.value, rule.version.value)))
      && (rule.cve.GetOr([]) == []
          || (f.cve.GetOr([]) != [] && q.cveMatches(rule.cve.value, f.cve.value)))
      && (rule.category.GetOr([]) == [] || rule.category.value in f.categories))
  {
    if Given(rule.package) {
      Glob.GlobToRegexPreservesMeaning(rule.package.value, f.package);
    }
  }

  /** The rule at n decides: it matches and no earlier one does. */
  ghost predicate Decides(q: Oracles, rules: seq<Rule>, f: Facts, n: nat) {
    n < |rules| && RuleMatches(q, rules[n], f) && forall i :: 0 <= i < n ==> !RuleMatches(q, rules[i], f)
  }

  /** Without a rule that matches nothing happens; a rule that ignores drops the advisory as it is. */
  lemma UnmovedMeans(q: Oracles, rules: seq<Rule>, f: Facts, level: Level)
    ensures Drops(q, rules, f) <==> exists n: nat :: Decides(q, rules, f, n) && rules[n].action == Ignore
    ensures (forall n: nat :: Decides(q, rules, f, n) ==> rules[n].action == Ignore) ==>
      Settled(q, rules, f, level) == level && !EscalatedBy(q, rules, f, level) && !DowngradedBy(q, rules, f, level)
  {
    var n := FirstMatch(q, rules, f);
    assert n < |rules| ==> Decides(q, rules, f, n);
  }

  /** Escalating raises to the level asked for, fatal if none is, and never lowers. */
  lemma EscalationMeans(q: Oracles, rules: seq<Rule>, f: Facts, level: Level, n: nat)
    requires Decides(q, rules, f, n) && rules[n].action == Escalate
    ensures var to, after, up := rules[n].to, Settled(q, rules, f, level), EscalatedBy(q, rules, f, level);
      && (to == None || to == Some(Fatal) ==> after == Known(Fatal) && (up <==> level != Known(Fatal)))
      && (to == Some(Warn) ==> after == (if up then Known(Warn) else level) && (up <==> level == Known(Info)))
      && (to == Some(Info) ==> after == level && !up)
      && !DowngradedBy(q, rules, f, level)
  {
    assert FirstMatch(q, rules, f) == n;
  }

  /** Downgrading lowers to the level asked for, info if none is, and never raises; info is stored as a warning. */
  lemma DowngradeMeans(q: Oracles, rules: seq<Rule>, f: Facts, level: Level, n: nat)
    requires Decides(q, rules, f, n) && rules[n].action == Downgrade
    ensures var to, after, down := rules[n].to, Settled(q, rules, f, level), DowngradedBy(q, rules, f, level);
      && (to == None || to == Some(Info) ==>
            after == (if down then Known(Warn) else level) && (down <==> level != Known(Info)))
      && (to == Some(Warn) ==> after == (if down then Known(Warn) else level) && (down <==> level == Known(Fatal)))
      && (to == Some(Fatal) ==> after == level && !down)
      && !EscalatedBy(q, rules, f, level)
  {
    assert FirstMatch(q, rules, f) == n;
  }

  // ---------- Applying a policy ----------

  datatype Result = Result(filtered: seq<Advisory>, ignored: nat, escalated: nat, downgraded: nat)

  function Kept(q: Oracles, rules: seq<Rule>, advisories: seq<Advisory>): seq<Advisory> {
    if advisories == [] then []
    else
      var last := advisories[|advisories| - 1];
      Kept(q, rules, advisories[..|advisories| - 1]) + if Drops(q, rules, last.facts) then [] else [last]
  }

  ghost function Levels(advisories: seq<Advisory>): map<Advisory, Level>
    reads advisories
  {
    map a | a in advisories :: a.level
  }

  /** The level that position i of the list finds: an object may stand in the list twice. */
  ghost function LevelAt(q: Oracles, rules: seq<Rule>, advisories: seq<Advisory>,
                         levels: map<Advisory, Level>, i: nat): Level
    requires i < |advisories| && advisories[i] in levels
  {
    var a := advisories[i];
    if a in advisories[..i] then Settled(q, rules, a.facts, levels[a]) else levels[a]
  }

  ghost predicate Covers(levels: map<Advisory, Level>, advisories: seq<Advisory>) {
    forall i :: 0 <= i < |advisories| ==> advisories[i] in levels
  }

  /** How many of the first n positions are escalated. */
  ghost function EscalatedAmong(q: Oracles, rules: seq<Rule>, advisories: seq<Advisory>,
                                levels: map<Advisory, Level>, n: nat): nat
    requires n <= |advisories| && Covers(levels, advisories)
  {
    if n == 0 then 0
    else
      EscalatedAmong(q, rules, advisories, levels, n - 1)
      + (if EscalatedBy(q, rules, advisories[n - 1].facts, LevelAt(q, rules, advisories, levels, n - 1)) then 1 else 0)
  }

  ghost function DowngradedAmong(q: Oracles, rules: seq<Rule>, advisories: seq<Advisory>,
                                 levels: map<Advisory, Level>, n: nat): nat
    requires n <= |advisories| && Covers(levels, advisories)
  {
    if n == 0 then 0
    else
      DowngradedAmong(q, rules, advisories, levels, n - 1)
      + (if DowngradedBy(q, rules, advisories[n - 1].facts, LevelAt(q, rules, advisories, levels, n - 1)) then 1 else 0)
  }

  /** The callback of the filter: whether to keep the advisory, and which counter to bump. */
  method Visit(q: Oracles, rules: seq<Rule>, advisory: Advisory) returns (keep: bool, up: bool, down: bool)
    modifies advisory
    ensures keep == !Drops(q, rules, advisory.facts)
    ensures up == EscalatedBy(q, rules, advisory.facts, old(advisory.level))
    ensures down == DowngradedBy(q, rules, advisory.facts, old(advisory.level))
    ensures advisory.level == Settled(q, rules, advisory.facts, old(advisory.level))
  {
    var n := FirstMatch(q, rules, advisory.facts);
    if n == |rules| {
      return true, false, false;
    }
    var rule := rules[n];
    if rule.action == Ignore {
      return false, false, false;
    }
    up, down := false, false;
    var current := Coerce(advisory.level);
    var target := Target(rule);
    if rule.action == Escalate {
      if Rank(target) < Rank(current) {
        advisory.level := ToAdvisoryLevel(target);
        up := true;
      }
    } else if rule.action == Downgrade {
      if Rank(target) > Rank(current) {
        advisory.level := ToAdvisoryLevel(target);
        down := true;
      }
    }
    keep := true;
  }

  /** The first n positions have been visited; every other advisory has its first level. */
  ghost predicate Visited(q: Oracles, rules: seq<Rule>, advisories: seq<Advisory>, levels: map<Advisory, Level>, n: nat)
    requires n <= |advisories|
    reads advisories
  {
    forall a :: a in advisories ==>
      a in levels && a.level == if a in advisories[..n] then Settled(q, rules, a.facts, levels[a]) else levels[a]
  }

  /** What the callback has counted and kept at the first n positions. */
  ghost predicate Progress(q: Oracles, rules: seq<Rule>, advisories: seq<Advisory>, levels: map<Advisory, Level>,
                           n: nat, r: Result)
    requires n <= |advisories| && Covers(levels, advisories)
  {
    && r.filtered == Kept(q, rules, advisories[..n])
    && |r.filtered| + r.ignored == n
    && r.escalated == EscalatedAmong(q, rules, advisories, levels, n)
    && r.downgraded == DowngradedAmong(q, rules, advisories, levels, n)
  }

  lemma ProgressNext(q: Oracles, rules: seq<Rule>, advisories: seq<Advisory>, levels: map<Advisory, Level>,
                     i: nat, r: Result)
    requires i < |advisories| && Covers(levels, advisories) && Progress(q, rules, advisories, levels, i, r)
    ensures var a, level := advisories[i], LevelAt(q, rules, advisories, levels, i);
      Progress(q, rules, advisories, levels, i + 1,
        Counted(r, a, !Drops(q, rules, a.facts), EscalatedBy(q, rules, a.facts, level),
          DowngradedBy(q, rules, a.facts, level)))
  {
    KeptNext(q, rules, advisories, i);
    CountersNext(q, rules, advisories, levels, i);
    assert r.filtered + [] == r.filtered;
  }

  function Counted(r: Result, a: Advisory, keep: bool, up: bool, down: bool): Result {
    Result(
      if keep then r.filtered + [a] else r.filtered,
      if keep then r.ignored else r.ignored + 1,
      if up then r.escalated + 1 else r.escalated,
      if down then r.downgraded + 1 else r.downgraded)
  }

  method VisitAt(q: Oracles, rules: seq<Rule>, advisories: seq<Advisory>, ghost levels: map<Advisory, Level>, i: nat)
    returns (keep: bool, up: bool, down: bool)
    requires i < |advisories| && Covers(levels, advisories) && Visited(q, rules, advisories, levels, i)
    modifies advisories[i]
    ensures Visited(q, rules, advisories, levels, i + 1)
    ensures keep == !Drops(q, rules, advisories[i].facts)
    ensures up == EscalatedBy(q, rules, advisories[i].facts, LevelAt(q, rules, advisories, levels, i))
    ensures down == DowngradedBy(q, rules, advisories[i].facts, LevelAt(q, rules, advisories, levels, i))
  {
    var advisory := advisories[i];
    assert advisories[..i + 1] == advisories[..i] + [advisory];
    SettledTwice(q, rules, advisory.facts, levels[advisory]);
    keep, up, down := Visit(q, rules, advisory);
  }

  method ApplyPolicy(q: Oracles, advisories: seq<Advisory>, rules: seq<Rule>) returns (r: Result)
    modifies advisories
    ensures r.filtered == Kept(q, rules, advisories)
    ensures |r.filtered| + r.ignored == |advisories|
    ensures r.escalated == EscalatedAmong(q, rules, advisories, old(Levels(advisories)), |advisories|)
    ensures r.downgraded == DowngradedAmong(q, rules, advisories, old(Levels(advisories)), |advisories|)
    ensures forall a :: a in advisories ==> a.level == Settled(q, rules, a.facts, old(a.level))
  {
    ghost var levels := Levels(advisories);
    r := Result([], 0, 0, 0);
    for i := 0 to |advisories|
      invariant Progress(q, rules, advisories, levels, i, r)
      invariant Visited(q, rules, advisories, levels, i)
    {
      ProgressNext(q, rules, advisories, levels, i, r);
      var keep, up, down := VisitAt(q, rules, advisories, levels, i);
      r := Counted(r, advisories[i], keep, up, down);
    }
    assert advisories[..|advisories|] == advisories;
  }

  lemma CountersNext(q: Oracles, rules: seq<Rule>, advisories: seq<Advisory>, levels: map<Advisory, Level>, i: nat)
    requires i < |advisories| && Covers(levels, advisories)
    ensures EscalatedAmong(q, rules, advisories, levels, i + 1)
      == EscalatedAmong(q, rules, advisories, levels, i)
        + if EscalatedBy(q, rules, advisories[i].facts, LevelAt(q, rules, advisories, levels, i)) then 1 else 0
    ensures DowngradedAmong(q, rules, advisories, levels, i + 1)
      == DowngradedAmong(q, rules, advisories, levels, i)
        + if DowngradedBy(q, rules, advisories[i].facts, LevelAt(q, rules, advisories, levels, i)) then 1 else 0
  {
  }

  lemma KeptNext(q: Oracles, rules: seq<Rule>, advisories: seq<Advisory>, i: nat)
    requires i < |advisories|
    ensures Kept(q, rules, advisories[..i + 1])
      == Kept(q, rules, advisories[..i]) + if Drops(q, rules, advisories[i].facts) then [] else [advisories[i]]
  {
    assert advisories[..i + 1][..i] == advisories[..i];
  }

  // ---------- What the counters mean ----------

  /** Every level is one that the declared type of an advisory allows. */
  ghost predicate Typed(levels: map<Advisory, Level>) {
    forall a :: a in levels ==> levels[a] == Known(Fatal) || levels[a] == Known(Warn)
  }

  /** The level that position i leaves behind. */
  ghost function LevelAfter(q: Oracles, rules: seq<Rule>, advisories: seq<Advisory>,
                            levels: map<Advisory, Level>, i: nat): Level
    requires i < |advisories| && advisories[i] in levels
  {
    Settled(q, rules, advisories[i].facts, LevelAt(q, rules, advisories, levels, i))
  }

  ghost predicate ChangesAt(q: Oracles, rules: seq<Rule>, advisories: seq<Advisory>,
                            levels: map<Advisory, Level>, from: Severity, to: Severity, i: int)
    requires 0 <= i < |advisories| && advisories[i] in levels
  {
    && LevelAt(q, rules, advisories, levels, i) == Known(from)
    && LevelAfter(q, rules, advisories, levels, i) == Known(to)
  }

  /** The positions at which a level changes from one severity to another. */
  ghost function Changes(q: Oracles, rules: seq<Rule>, advisories: seq<Advisory>,
                         levels: map<Advisory, Level>, from: Severity, to: Severity, n: nat): set<int>
    requires n <= |advisories| && Covers(levels, advisories)
  {
    set i | 0 <= i < n && ChangesAt(q, rules, advisories, levels, from, to, i)
  }

  /** The first rule that matches is a downgrade to info. */
  predicate DowngradesToInfo(q: Oracles, rules: seq<Rule>, f: Facts) {
    var n := FirstMatch(q, rules, f);
    n < |rules| && rules[n].action == Downgrade && Target(rules[n]) == Info
  }

  ghost predicate WarnedToInfoAt(q: Oracles, rules: seq<Rule>, advisories: seq<Advisory>,
                                 levels: map<Advisory, Level>, i: int)
    requires 0 <= i < |advisories| && advisories[i] in levels
  {
    && LevelAt(q, rules, advisories, levels, i) == Known(Warn)
    && DowngradesToInfo(q, rules, advisories[i].facts)
  }

  /** The positions that hold a warning hit by a downgrade to info, which leaves it a warning. */
  ghost function WarnedToInfo(q: Oracles, rules: seq<Rule>, advisories: seq<Advisory>,
                              levels: map<Advisory, Level>, n: nat): set<int>
    requires n <= |advisories| && Covers(levels, advisories)
  {
    set i | 0 <= i < n && WarnedToInfoAt(q, rules, advisories, levels, i)
  }

  lemma LevelAtTyped(q: Oracles, rules: seq<Rule>, advisories: seq<Advisory>, levels: map<Advisory, Level>, i: nat)
    requires i < |advisories| && Covers(levels, advisories) && Typed(levels)
    ensures LevelAt(q, rules, advisories, levels, i) in {Known(Fatal), Known(Warn)}
  {
  }

  lemma ChangeCases(q: Oracles, rules: seq<Rule>, f: Facts, level: Level)
    requires level == Known(Fatal) || level == Known(Warn)
    ensures EscalatedBy(q, rules, f, level) <==> level == Known(Warn) && Settled(q, rules, f, level) == Known(Fatal)
    ensures DowngradedBy(q, rules, f, level) <==>
      || (level == Known(Fatal) && Settled(q, rules, f, level) == Known(Warn))
      || (level == Known(Warn) && DowngradesToInfo(q, rules, f))
  {
  }

  lemma CasesAt(q: Oracles, rules: seq<Rule>, advisories: seq<Advisory>, levels: map<Advisory, Level>, i: nat)
    requires i < |advisories| && Covers(levels, advisories) && Typed(levels)
    ensures EscalatedBy(q, rules, advisories[i].facts, LevelAt(q, rules, advisories, levels, i))
      <==> ChangesAt(q, rules, advisories, levels, Warn, Fatal, i)
    ensures DowngradedBy(q, rules, advisories[i].facts, LevelAt(q, rules, advisories, levels, i))
      <==> ChangesAt(q, rules, advisories, levels, Fatal, Warn, i) || WarnedToInfoAt(q, rules, advisories, levels, i)
    ensures ChangesAt(q, rules, advisories, levels, Fatal, Warn, i) ==>
      !WarnedToInfoAt(q, rules, advisories, levels, i)
  {
    LevelAtTyped(q, rules, advisories, levels, i);
    ChangeCases(q, rules, advisories[i].facts, LevelAt(q, rules, advisories, levels, i));
  }

  lemma EscalatedStep(q: Oracles, rules: seq<Rule>, advisories: seq<Advisory>, levels: map<Advisory, Level>, i: nat)
    requires i < |advisories| && Covers(levels, advisories) && Typed(levels)
    requires EscalatedAmong(q, rules, advisories, levels, i) == |Changes(q, rules, advisories, levels, Warn, Fatal, i)|
    ensures EscalatedAmong(q, rules, advisories, levels, i + 1)
      == |Changes(q, rules, advisories, levels, Warn, Fatal, i + 1)|
  {
    ChangesStep(q, rules, advisories, levels, Warn, Fatal, i);
    CasesAt(q, rules, advisories, levels, i);
    CountersNext(q, rules, advisories, levels, i);
  }

  /** escalated is exactly the number of changes from warn to fatal. */
  lemma {:induction false} EscalatedMeans(q: Oracles, rules: seq<Rule>, advisories: seq<Advisory>,
                                          levels: map<Advisory, Level>, n: nat)
    requires n <= |advisories| && Covers(levels, advisories) && Typed(levels)
    ensures EscalatedAmong(q, rules, advisories, levels, n) == |Changes(q, rules, advisories, levels, Warn, Fatal, n)|
  {
    if n > 0 {
      EscalatedMeans(q, rules, advisories, levels, n - 1);
      EscalatedStep(q, rules, advisories, levels, n - 1);
    }
  }

  /** downgraded is the number of changes from fatal to warn and of warnings downgraded to info. */
  lemma {:induction false} DowngradedMeans(q: Oracles, rules: seq<Rule>, advisories: seq<Advisory>,
                                           levels: map<Advisory, Level>, n: nat)
    requires n <= |advisories| && Covers(levels, advisories) && Typed(levels)
    ensures DowngradedAmong(q, rules, advisories, levels, n)
      == |Changes(q, rules, advisories, levels, Fatal, Warn, n)| + |WarnedToInfo(q, rules, advisories, levels, n)|
  {
    if n > 0 {
      DowngradedMeans(q, rules, advisories, levels, n - 1);
      DowngradedStep(q, rules, advisories, levels, n - 1);
    }
  }

  lemma DowngradedStep(q: Oracles, rules: seq<Rule>, advisories: seq<Advisory>, levels: map<Advisory, Level>, i: nat)
    requires i < |advisories| && Covers(levels, advisories) && Typed(levels)
    requires DowngradedAmong(q, rules, advisories, levels, i)
      == |Changes(q, rules, advisories, levels, Fatal, Warn, i)| + |WarnedToInfo(q, rules, advisories, levels, i)|
    ensures DowngradedAmong(q, rules, advisories, levels, i + 1)
      == |Changes(q, rules, advisories, levels, Fatal, Warn, i + 1)|
        + |WarnedToInfo(q, rules, advisories, levels, i + 1)|
  {
    ChangesStep(q, rules, advisories, levels, Fatal, Warn, i);
    InfoStep(q, rules, advisories, levels, i);
    DowngradedNext(q, rules, advisories, levels, i);
  }

  lemma DowngradedNext(q: Oracles, rules: seq<Rule>, advisories: seq<Advisory>, levels: map<Advisory, Level>, i: nat)
    requires i < |advisories| && Covers(levels, advisories) && Typed(levels)
    ensures DowngradedAmong(q, rules, advisories, levels, i + 1)
      == DowngradedAmong(q, rules, advisories, levels, i)
        + (if ChangesAt(q, rules, advisories, levels, Fatal, Warn, i) then 1 else 0)
        + (if WarnedToInfoAt(q, rules, advisories, levels, i) then 1 else 0)
  {
    CasesAt(q, rules, advisories, levels, i);
  }

  lemma ChangesStep(q: Oracles, rules: seq<Rule>, advisories: seq<Advisory>,
                    levels: map<Advisory, Level>, from: Severity, to: Severity, i: nat)
    requires i < |advisories| && Covers(levels, advisories)
    ensures |Changes(q, rules, advisories, levels, from, to, i + 1)|
      == |Changes(q, rules, advisories, levels, from, to, i)|
        + if ChangesAt(q, rules, advisories, levels, from, to, i) then 1 else 0
  {
    Sets.CountNext(Changes(q, rules, advisories, levels, from, to, i),
              Changes(q, rules, advisories, levels, from, to, i + 1),
              i, ChangesAt(q, rules, advisories, levels, from, to, i));
  }

  lemma InfoStep(q: Oracles, rules: seq<Rule>, advisories: seq<Advisory>, levels: map<Advisory, Level>, i: nat)
    requires i < |advisories| && Covers(levels, advisories)
    ensures |WarnedToInfo(q, rules, advisories, levels, i + 1)|
      == |WarnedToInfo(q, rules, advisories, levels, i)|
        + if WarnedToInfoAt(q, rules, advisories, levels, i) then 1 else 0
  {
    Sets.CountNext(WarnedToInfo(q, rules, advisories, levels, i),
              WarnedToInfo(q, rules, advisories, levels, i + 1),
              i, WarnedToInfoAt(q, rules, advisories, levels, i));
  }

  // ---------- A second pass ----------

  lemma {:induction false} KeptTwice(q: Oracles, rules: seq<Rule>, advisories: seq<Advisory>)
    ensures Kept(q, rules, Kept(q, rules, advisories)) == Kept(q, rules, advisories)
  {
    if advisories != [] {
      var init, last := advisories[..|advisories| - 1], advisories[|advisories| - 1];
      KeptTwice(q, rules, init);
      var kept := Kept(q, rules, init);
      assert (kept + [last])[..|kept|] == kept && kept + [] == kept;
    }
  }

  /** The levels that a pass over all these advisories leaves. */
  ghost function AllSettled(q: Oracles, rules: seq<Rule>, levels: map<Advisory, Level>): map<Advisory, Level> {
    map a | a in levels :: Settled(q, rules, a.facts, levels[a])
  }

  lemma AllSettledTwice(q: Oracles, rules: seq<Rule>, levels: map<Advisory, Level>)
    ensures AllSettled(q, rules, AllSettled(q, rules, levels)) == AllSettled(q, rules, levels)
  {
    var after := AllSettled(q, rules, levels);
    forall a | a in levels ensures Settled(q, rules, a.facts, after[a]) == after[a] {
      SettledTwice(q, rules, a.facts, levels[a]);
    }
  }

  lemma KeptCovered(q: Oracles, rules: seq<Rule>, advisories: seq<Advisory>, levels: map<Advisory, Level>)
    requires Covers(levels, advisories)
    ensures Covers(levels, Kept(q, rules, advisories))
  {
    var kept := Kept(q, rules, advisories);
    forall i | 0 <= i < |kept| ensures kept[i] in levels {
      assert kept[i] in kept;
      KeptHas(q, rules, advisories, kept[i]);
      var j :| 0 <= j < |advisories| && advisories[j] == kept[i];
    }
  }

  /**
   A second pass with the same rules, over what the first one kept and left, drops nothing,
   changes no level and escalates nothing.
   */
  lemma SecondPassSettles(q: Oracles, rules: seq<Rule>, advisories: seq<Advisory>, levels: map<Advisory, Level>)
    requires Covers(levels, advisories)
    ensures Kept(q, rules, Kept(q, rules, advisories)) == Kept(q, rules, advisories)
    ensures AllSettled(q, rules, AllSettled(q, rules, levels)) == AllSettled(q, rules, levels)
    ensures Covers(AllSettled(q, rules, levels), Kept(q, rules, advisories))
    ensures EscalatedAmong(q, rules, Kept(q, rules, advisories), AllSettled(q, rules, levels),
      |Kept(q, rules, advisories)|) == 0
  {
    KeptTwice(q, rules, advisories);
    AllSettledTwice(q, rules, levels);
    KeptCovered(q, rules, advisories, levels);
    NothingEscalates(q, rules, Kept(q, rules, advisories), levels, |Kept(q, rules, advisories)|);
  }

  lemma {:induction false} NothingEscalates(q: Oracles, rules: seq<Rule>, kept: seq<Advisory>,
                                            levels: map<Advisory, Level>, n: nat)
    requires n <= |kept| && Covers(levels, kept)
    ensures EscalatedAmong(q, rules, kept, AllSettled(q, rules, levels), n) == 0
  {
    if n > 0 {
      NothingEscalates(q, rules, kept, levels, n - 1);
      var a := kept[n - 1];
      SettledTwice(q, rules, a.facts, levels[a]);
      StaysUp(q, rules, a.facts, levels[a]);
    }
  }

  lemma StaysUp(q: Oracles, rules: seq<Rule>, f: Facts, level: Level)
    ensures !EscalatedBy(q, rules, f, Settled(q, rules, f, level))
  {
  }

  lemma {:induction false} KeptHas(q: Oracles, rules: seq<Rule>, advisories: seq<Advisory>, a: Advisory)
    ensures a in Kept(q, rules, advisories) <==> a in advisories && !Drops(q, rules, a.facts)
  {
    if advisories != [] {
      var init, last := advisories[..|advisories| - 1], advisories[|advisories| - 1];
      KeptHas(q, rules, init, a);
      assert advisories == init + [last];
    }
  }

  // ---------- Merging policy documents ----------

  datatype Buckets = Buckets(fatal: Option<seq<Text>>, warn: Option<seq<Text>>, info: Option<seq<Text>>)

  datatype Document = Document(defaults: Option<Buckets>, overrides: Option<seq<Rule>>)

  function Bucket(d: Document, s: Severity): Option<seq<Text>> {
    match d.defaults
    case None => None
    case Some(b) =>
      match s
      case Fatal => b.fatal
      case Warn => b.warn
      case Info => b.info
  }

  function MergeInto(acc: Document, d: Document): Document {
    Document(
      Some(Buckets(
        Bucket(d, Fatal).OrElse(Bucket(acc, Fatal)),
        Bucket(d, Warn).OrElse(Bucket(acc, Warn)),
        Bucket(d, Info).OrElse(Bucket(acc, Info)))),
      Some(acc.overrides.GetOr([]) + d.overrides.GetOr([])))
  }

  function MergePolicies(docs: seq<Document>): Document {
    if docs == [] then Document(None, None)
    else MergeInto(MergePolicies(docs[..|docs| - 1]), docs[|docs| - 1])
  }

  ghost predicate LastBucketIs(docs: seq<Document>, s: Severity, v: seq<Text>) {
    exists i :: 0 <= i < |docs| && Bucket(docs[i], s) == Some(v)
      && forall j :: i < j < |docs| ==> Bucket(docs[j], s) == None
  }

  lemma LastBucketStep(init: seq<Document>, last: Document, s: Severity, v: seq<Text>)
    ensures LastBucketIs(init + [last], s, v)
      <==> if Bucket(last, s).Some? then Bucket(last, s) == Some(v) else LastBucketIs(init, s, v)
  {
    var docs := init + [last];
    assert docs[|init|] == last;
    if Bucket(last, s).None? {
      if LastBucketIs(init, s, v) {
        var i :| 0 <= i < |init| && Bucket(init[i], s) == Some(v)
          && forall j :: i < j < |init| ==> Bucket(init[j], s) == None;
        assert docs[i] == init[i];
      }
      if LastBucketIs(docs, s, v) {
        var i :| 0 <= i < |docs| && Bucket(docs[i], s) == Some(v)
          && forall j :: i < j < |docs| ==> Bucket(docs[j], s) == None;
        assert init[i] == docs[i];
        assert forall j :: i < j < |init| ==> init[j] == docs[j];
      }
    }
  }

  /** A bucket of the merged document is that of the last document that has one. */
  lemma {:induction false} LastBucketWins(docs: seq<Document>, s: Severity, v: seq<Text>)
    ensures Bucket(MergePolicies(docs), s) == Some(v) <==> LastBucketIs(docs, s, v)
  {
    if docs != [] {
      var init, last := docs[..|docs| - 1], docs[|docs| - 1];
      LastBucketWins(init, s, v);
      LastBucketStep(init, last, s, v);
      assert docs == init + [last];
    }
  }

  lemma {:induction false} FirstMatchConcat(q: Oracles, a: seq<Rule>, b: seq<Rule>, f: Facts)
    ensures FirstMatch(q, a + b, f)
      == if FirstMatch(q, a, f) < |a| then FirstMatch(q, a, f) else |a| + FirstMatch(q, b, f)
  {
    if a == [] {
      assert a + b == b;
    } else {
      FirstMatchConcat(q, a[1..], b, f);
      assert (a + b)[1..] == a[1..] + b;
    }
  }

  /** The rule that decides an advisory under these rules, if any does. */
  function Deciding(q: Oracles, rules: seq<Rule>, f: Facts): Option<Rule> {
    var n := FirstMatch(q, rules, f);
    if n < |rules| then Some(rules[n]) else None
  }

  function Overrides(d: Document): seq<Rule> {
    d.overrides.GetOr([])
  }

  /** Merged overrides are decided by the earlier documents first. */
  lemma DecidingStep(q: Oracles, init: seq<Document>, last: Document, f: Facts)
    ensures Deciding(q, Overrides(MergePolicies(init + [last])), f)
      == Deciding(q, Overrides(MergePolicies(init)), f).OrElse(Deciding(q, Overrides(last), f))
  {
    assert (init + [last])[..|init|] == init;
    FirstMatchConcat(q, Overrides(MergePolicies(init)), Overrides(last), f);
  }

  ghost predicate FirstOverrideIs(q: Oracles, docs: seq<Document>, f: Facts, r: Option<Rule>) {
    match r
    case Some(_) =>
      exists i :: 0 <= i < |docs| && Deciding(q, Overrides(docs[i]), f) == r
        && forall j :: 0 <= j < i ==> Deciding(q, Overrides(docs[j]), f) == None
    case None => forall j :: 0 <= j < |docs| ==> Deciding(q, Overrides(docs[j]), f) == None
  }

  lemma FirstOverrideStep(q: Oracles, init: seq<Document>, last: Document, f: Facts, early: Option<Rule>)
    requires FirstOverrideIs(q, init, f, early)
    ensures FirstOverrideIs(q, init + [last], f, early.OrElse(Deciding(q, Overrides(last), f)))
  {
    var docs := init + [last];
    if early.Some? {
      var i :| 0 <= i < |init| && Deciding(q, Overrides(init[i]), f) == early
        && forall j :: 0 <= j < i ==> Deciding(q, Overrides(init[j]), f) == None;
      assert docs[i] == init[i];
    } else {
      assert docs[|init|] == last;
    }
  }

  /** Overrides resolve the other way round: the first document with a matching rule decides. */
  lemma {:induction false} FirstOverrideDecides(q: Oracles, docs: seq<Document>, f: Facts)
    ensures FirstOverrideIs(q, docs, f, Deciding(q, Overrides(MergePolicies(docs)), f))
  {
    if docs != [] {
      var init, last := docs[..|docs| - 1], docs[|docs| - 1];
      FirstOverrideDecides(q, init, f);
      DecidingStep(q, init, last, f);
      FirstOverrideStep(q, init, last, f, Deciding(q, Overrides(MergePolicies(init)), f));
      assert docs == init + [last];
    }
  }
}
