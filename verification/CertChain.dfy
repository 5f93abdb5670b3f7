/** The walk along issuer certificates, over a graph that may contain cycles. */
module CertChain {
  import opened Numerals
  import opened Utf16
  import opened Wrappers
  import Sets

  /** A peer certificate; an object without keys stands for the absence of one. */
  class Certificate {
    const empty: bool
    const fingerprint: Option<Text>
    const serialNumber: Option<Text>
    var issuer: Certificate?

    constructor (empty: bool, fingerprint: Option<Text>, serialNumber: Option<Text>)
      ensures this.empty == empty && this.fingerprint == fingerprint && this.serialNumber == serialNumber
      ensures issuer == null
    {
      this.empty, this.fingerprint, this.serialNumber := empty, fingerprint, serialNumber;
      issuer := null;
    }
  }

  /** What marks a certificate as seen when it stands at this position of the chain. */
  function Key(c: Certificate, position: nat): Text {
    c.fingerprint.OrElse(c.serialNumber).GetOr(Decimal(position))
  }

  predicate IsKeyed(c: Certificate) {
    c.fingerprint.Some? || c.serialNumber.Some?
  }

  /** A finite graph: every issuer of a member is a member. */
  ghost predicate Closed(graph: set<Certificate>)
    reads graph
  {
    forall c :: c in graph ==> c.issuer == null || c.issuer in graph
  }

  /** The certificate that n issuer steps lead to. */
  ghost function Issuer(graph: set<Certificate>, c: Certificate?, n: nat): (r: Certificate?)
    requires Closed(graph) && (c == null || c in graph)
    reads graph
    ensures r == null || r in graph
  {
    if c == null || n == 0 then c else Issuer(graph, c.issuer, n - 1)
  }

  lemma {:induction false} IssuerStep(graph: set<Certificate>, c: Certificate?, n: nat)
    requires Closed(graph) && (c == null || c in graph)
    ensures var at := Issuer(graph, c, n);
      Issuer(graph, c, n + 1) == if at == null then null else at.issuer
  {
    if c != null && n > 0 {
      IssuerStep(graph, c.issuer, n - 1);
    }
  }

  predicate Absent(c: Certificate?) {
    c == null || c.empty
  }

  /** The walk has a key at one position that it also has at a later one. */
  ghost predicate SameKey(graph: set<Certificate>, leaf: Certificate, i: nat, n: nat)
    requires Closed(graph) && leaf in graph
    reads graph
  {
    var c, d := Issuer(graph, leaf, i), Issuer(graph, leaf, n);
    c != null && d != null && Key(c, i) == Key(d, n)
  }

  /** The loop adds no certificate at this position of the walk: it is absent, the leaf again, or its key was seen. */
  ghost predicate StopsAt(graph: set<Certificate>, leaf: Certificate, n: nat)
    requires Closed(graph) && leaf in graph
    reads graph
  {
    || Absent(Issuer(graph, leaf, n))
    || (n > 0 && Issuer(graph, leaf, n) == leaf)
    || exists i: nat :: i < n && SameKey(graph, leaf, i, n)
  }

  ghost predicate Ends(graph: set<Certificate>, leaf: Certificate)
    requires Closed(graph) && leaf in graph
    reads graph
  {
    exists n: nat :: StopsAt(graph, leaf, n)
  }

  /** The chain is the walk up to the first position at which the loop stops. */
  ghost predicate FullChain(graph: set<Certificate>, leaf: Certificate, chain: seq<Certificate>)
    requires Closed(graph) && leaf in graph
    reads graph
  {
    && (forall i: nat :: i < |chain| ==> chain[i] == Issuer(graph, leaf, i) && !StopsAt(graph, leaf, i))
    && StopsAt(graph, leaf, |chain|)
  }

  /** It is called only where the loop ends, which LoopEndsExactlyWhen characterises. */
  method CollectChain(leaf: Certificate?, deep: bool, ghost graph: set<Certificate>)
    returns (r: Option<seq<Certificate>>)
    requires Closed(graph) && (leaf == null || leaf in graph)
    requires deep && !Absent(leaf) ==> Ends(graph, leaf)
    ensures r.None? <==> !deep || leaf == null || leaf.empty
    ensures r.Some? ==> r.value != [] && FullChain(graph, leaf, r.value)
  {
    if !deep || leaf == null || leaf.empty {
      return None;
    }
    var chain: seq<Certificate> := [];
    var seen: set<Text> := {};
    var current: Certificate? := leaf;
    ghost var bound: nat :| StopsAt(graph, leaf, bound);
    while current != null && !current.empty
      invariant current == Issuer(graph, leaf, |chain|)
      invariant |chain| <= bound && (chain == [] ==> current == leaf) && (chain != [] ==> current != leaf)
      invariant forall i: nat :: i < |chain| ==> chain[i] == Issuer(graph, leaf, i) && !StopsAt(graph, leaf, i)
      invariant forall k :: k in seen <==> exists i: nat :: i < |chain| && Key(chain[i], i) == k
      decreases bound - |chain|
    {
      SeenExactlyWhen(graph, leaf, chain, seen, current);
      var fingerprint := Key(current, |chain|);
      if fingerprint in seen {
        break;
      }
      seen := seen + {fingerprint};
      IssuerStep(graph, leaf, |chain|);
      chain := chain + [current];
      current := current.issuer;
      if current == leaf {
        break;
      }
    }
    r := Some(chain);
  }

  /** The set of seen keys tells whether the loop stops at the certificate it looks at. */
  lemma SeenExactlyWhen(graph: set<Certificate>, leaf: Certificate, chain: seq<Certificate>, seen: set<Text>,
      current: Certificate)
    requires Closed(graph) && leaf in graph && current == Issuer(graph, leaf, |chain|) && !current.empty
    requires chain != [] ==> current != leaf
    requires forall i: nat :: i < |chain| ==> chain[i] == Issuer(graph, leaf, i)
    requires forall k :: k in seen <==> exists i: nat :: i < |chain| && Key(chain[i], i) == k
    ensures StopsAt(graph, leaf, |chain|) <==> Key(current, |chain|) in seen
  {
    var n := |chain|;
    if Key(current, n) in seen {
      var i: nat :| i < n && Key(chain[i], i) == Key(current, n);
      assert SameKey(graph, leaf, i, n);
    }
    if StopsAt(graph, leaf, n) {
      var i: nat :| i < n && SameKey(graph, leaf, i, n);
      assert Key(chain[i], i) == Key(current, n);
    }
  }

  /** A prefix of the walk without an absent certificate, the leaf again or a repeated key. */
  ghost predicate DistinctPrefix(graph: set<Certificate>, leaf: Certificate, chain: seq<Certificate>)
    requires Closed(graph) && leaf in graph
    reads graph
  {
    && (forall i: nat :: i < |chain| ==> chain[i] == Issuer(graph, leaf, i) && !chain[i].empty)
    && (forall i: nat :: 0 < i < |chain| ==> chain[i] != leaf)
    && (forall i: nat, j: nat :: i < j < |chain| ==> Key(chain[i], i) != Key(chain[j], j))
  }

  lemma DistinctGoesOn(graph: set<Certificate>, leaf: Certificate, chain: seq<Certificate>, n: nat)
    requires Closed(graph) && leaf in graph && DistinctPrefix(graph, leaf, chain) && n < |chain|
    ensures !StopsAt(graph, leaf, n)
  {
    forall i: nat | i < n ensures !SameKey(graph, leaf, i, n) {
      assert chain[i] == Issuer(graph, leaf, i) && chain[n] == Issuer(graph, leaf, n);
    }
  }

  lemma FullDistinct(graph: set<Certificate>, leaf: Certificate, chain: seq<Certificate>)
    requires Closed(graph) && leaf in graph && FullChain(graph, leaf, chain)
    ensures DistinctPrefix(graph, leaf, chain)
  {
    forall i: nat, j: nat | i < j < |chain| ensures Key(chain[i], i) != Key(chain[j], j) {
      assert !SameKey(graph, leaf, i, j);
    }
  }

  /** The full chain is the longest distinct prefix of the walk: every other one is a prefix of it. */
  lemma LongestPrefix(graph: set<Certificate>, leaf: Certificate, chain: seq<Certificate>, other: seq<Certificate>)
    requires Closed(graph) && leaf in graph
    requires FullChain(graph, leaf, chain)
    ensures DistinctPrefix(graph, leaf, chain)
    ensures DistinctPrefix(graph, leaf, other) ==> |other| <= |chain| && other == chain[..|other|]
  {
    FullDistinct(graph, leaf, chain);
    if DistinctPrefix(graph, leaf, other) {
      if |chain| < |other| {
        DistinctGoesOn(graph, leaf, other, |chain|);
      }
      assert forall i: nat :: i < |other| && i < |chain| ==> other[i] == chain[i];
    }
  }

  // ---------- When the loop ends ----------

  /** Fingerprints and serial numbers are distinct, and none is a decimal numeral. */
  ghost predicate ProperKeys(graph: set<Certificate>) {
    && (forall c, d :: c in graph && d in graph && IsKeyed(c) && IsKeyed(d) && Key(c, 0) == Key(d, 0) ==> c == d)
    && (forall c, n: nat :: c in graph && IsKeyed(c) ==> Key(c, 0) != Decimal(n))
  }

  ghost predicate ReachesNothing(graph: set<Certificate>, leaf: Certificate)
    requires Closed(graph) && leaf in graph
    reads graph
  {
    exists n: nat :: Absent(Issuer(graph, leaf, n))
  }

  ghost predicate ReturnsToLeaf(graph: set<Certificate>, leaf: Certificate)
    requires Closed(graph) && leaf in graph
    reads graph
  {
    exists n: nat :: n > 0 && Issuer(graph, leaf, n) == leaf
  }

  /** The walk comes back to a certificate that has a fingerprint or a serial number. */
  ghost predicate KeyedAgain(graph: set<Certificate>, leaf: Certificate, i: nat, n: nat)
    requires Closed(graph) && leaf in graph
    reads graph
  {
    var c := Issuer(graph, leaf, i);
    i < n && c != null && IsKeyed(c) && Issuer(graph, leaf, n) == c
  }

  ghost predicate EntersKeyedCycle(graph: set<Certificate>, leaf: Certificate)
    requires Closed(graph) && leaf in graph
    reads graph
  {
    exists i: nat, n: nat :: KeyedAgain(graph, leaf, i, n)
  }

  /** With proper keys one key at two positions is one keyed certificate at both. */
  lemma SameKeyMeans(graph: set<Certificate>, leaf: Certificate, i: nat, n: nat)
    requires Closed(graph) && leaf in graph && ProperKeys(graph) && i < n
    ensures SameKey(graph, leaf, i, n) <==> KeyedAgain(graph, leaf, i, n)
  {
    var c, d := Issuer(graph, leaf, i), Issuer(graph, leaf, n);
    if SameKey(graph, leaf, i, n) && !IsKeyed(c) && !IsKeyed(d) {
      DecimalInjective(i, n);
    }
  }

  /** Of two certificates with fingerprints these alone decide whether the second was seen. */
  lemma FingerprintsDecide(graph: set<Certificate>, leaf: Certificate, i: nat, n: nat)
    requires Closed(graph) && leaf in graph
    requires var c, d := Issuer(graph, leaf, i), Issuer(graph, leaf, n);
      c != null && d != null && c.fingerprint.Some? && d.fingerprint.Some?
    ensures SameKey(graph, leaf, i, n)
      <==> Issuer(graph, leaf, i).fingerprint == Issuer(graph, leaf, n).fingerprint
  {
  }

  /** Without fingerprints their serial numbers do, and without either their positions. */
  lemma SerialNumbersDecide(graph: set<Certificate>, leaf: Certificate, i: nat, n: nat)
    requires Closed(graph) && leaf in graph
    requires var c, d := Issuer(graph, leaf, i), Issuer(graph, leaf, n);
      && c != null && d != null && c.fingerprint.None? && d.fingerprint.None?
      && c.serialNumber.Some? == d.serialNumber.Some?
    ensures SameKey(graph, leaf, i, n)
      <==> if Issuer(graph, leaf, i).serialNumber.Some?
           then Issuer(graph, leaf, i).serialNumber == Issuer(graph, leaf, n).serialNumber else i == n
  {
    if Decimal(i) == Decimal(n) { DecimalInjective(i, n); }
  }

  /** No two certificates of a chain share a fingerprint, nor a serial number where neither has a fingerprint. */
  lemma ChainDistinct(graph: set<Certificate>, leaf: Certificate, chain: seq<Certificate>, i: nat, n: nat)
    requires Closed(graph) && leaf in graph && FullChain(graph, leaf, chain) && i < n < |chain|
    ensures chain[i].fingerprint.Some? && chain[n].fingerprint.Some? ==> chain[i].fingerprint != chain[n].fingerprint
    ensures chain[i].fingerprint.None? && chain[n].fingerprint.None? && chain[i].serialNumber.Some? ==>
      chain[i].serialNumber != chain[n].serialNumber
  {
    assert !StopsAt(graph, leaf, n);
    assert !SameKey(graph, leaf, i, n);
  }

  /** Whatever the keys, each of these three ends the loop. */
  lemma EndsWhenever(graph: set<Certificate>, leaf: Certificate)
    requires Closed(graph) && leaf in graph
    requires ReachesNothing(graph, leaf) || ReturnsToLeaf(graph, leaf) || EntersKeyedCycle(graph, leaf)
    ensures Ends(graph, leaf)
  {
    if ReachesNothing(graph, leaf) {
      var n: nat :| Absent(Issuer(graph, leaf, n));
      assert StopsAt(graph, leaf, n);
    } else if ReturnsToLeaf(graph, leaf) {
      var n: nat :| n > 0 && Issuer(graph, leaf, n) == leaf;
      assert StopsAt(graph, leaf, n);
    } else {
      var i: nat, n: nat :| KeyedAgain(graph, leaf, i, n);
      assert SameKey(graph, leaf, i, n);
      assert StopsAt(graph, leaf, n);
    }
  }

  /**
   The loop ends exactly when the issuer walk reaches an absent or empty certificate, returns to
   the leaf, or enters a cycle that holds a certificate with fingerprint or serial number.
   */
  lemma LoopEndsExactlyWhen(graph: set<Certificate>, leaf: Certificate)
    requires Closed(graph) && leaf in graph && ProperKeys(graph)
    ensures Ends(graph, leaf)
      <==> ReachesNothing(graph, leaf) || ReturnsToLeaf(graph, leaf) || EntersKeyedCycle(graph, leaf)
  {
    if ReachesNothing(graph, leaf) || ReturnsToLeaf(graph, leaf) || EntersKeyedCycle(graph, leaf) {
      EndsWhenever(graph, leaf);
    }
    if Ends(graph, leaf) {
      var n: nat :| StopsAt(graph, leaf, n);
      if !Absent(Issuer(graph, leaf, n)) && !(n > 0 && Issuer(graph, leaf, n) == leaf) {
        var i: nat :| i < n && SameKey(graph, leaf, i, n);
        SameKeyMeans(graph, leaf, i, n);
      }
    }
  }

  /** A walk through a finite graph that is never absent comes back to where it was. */
  lemma WalkRecurs(graph: set<Certificate>, leaf: Certificate) returns (i: nat, n: nat)
    requires Closed(graph) && leaf in graph
    requires forall k: nat :: k <= |graph| ==> Issuer(graph, leaf, k) != null
    ensures i < n <= |graph| && Issuer(graph, leaf, i) == Issuer(graph, leaf, n)
  {
    var visited: set<Certificate> := {};
    n := 0;
    while n <= |graph|
      invariant n <= |graph| + 1 && |visited| == n && visited <= graph
      invariant forall c :: c in visited ==> exists k: nat :: k < n && Issuer(graph, leaf, k) == c
    {
      var c := Issuer(graph, leaf, n);
      if c in visited {
        i :| i < n && Issuer(graph, leaf, i) == c;
        return;
      }
      visited := visited + {c};
      assert Issuer(graph, leaf, n) == c;
      n := n + 1;
    }
    Sets.SubsetSize(visited, graph);
    assert false;
  }

  /** Where every certificate has a key the loop ends, whatever the keys and the graph. */
  lemma AllKeyedEnds(graph: set<Certificate>, leaf: Certificate)
    requires Closed(graph) && leaf in graph
    requires forall c :: c in graph && !c.empty ==> IsKeyed(c)
    ensures Ends(graph, leaf)
  {
    if n: nat :| Issuer(graph, leaf, n) == null {
      assert StopsAt(graph, leaf, n);
    } else {
      var i, n := WalkRecurs(graph, leaf);
      assert Absent(Issuer(graph, leaf, n)) || SameKey(graph, leaf, i, n);
      assert StopsAt(graph, leaf, n);
    }
  }

  /** Once the walk has come back to a certificate it repeats itself. */
  lemma {:induction false} Periodic(graph: set<Certificate>, leaf: Certificate, i: nat, n: nat, k: nat)
    requires Closed(graph) && leaf in graph && Issuer(graph, leaf, i) == Issuer(graph, leaf, n)
    ensures Issuer(graph, leaf, i + k) == Issuer(graph, leaf, n + k)
  {
    if k > 0 {
      Periodic(graph, leaf, i, n, k - 1);
      IssuerStep(graph, leaf, i + k - 1);
      IssuerStep(graph, leaf, n + k - 1);
    }
  }

  /** Every later certificate of the walk stands on the cycle. */
  lemma {:induction false} OnCycle(graph: set<Certificate>, leaf: Certificate, i: nat, n: nat, k: nat)
    returns (m: nat)
    requires Closed(graph) && leaf in graph && Issuer(graph, leaf, i) == Issuer(graph, leaf, n)
    requires i < n && i <= k
    ensures i <= m < n && m <= k && Issuer(graph, leaf, m) == Issuer(graph, leaf, k)
    decreases k
  {
    if k < n {
      m := k;
    } else {
      Periodic(graph, leaf, i, n, k - n);
      m := OnCycle(graph, leaf, i, n, i + (k - n));
    }
  }

  /** Looking at twice as many positions as there are certificates decides whether the loop ends. */
  lemma EndsWithin(graph: set<Certificate>, leaf: Certificate)
    requires Closed(graph) && leaf in graph && ProperKeys(graph)
    ensures Ends(graph, leaf) <==> exists n: nat :: n <= 2 * |graph| && StopsAt(graph, leaf, n)
  {
    if k: nat :| k <= |graph| && Issuer(graph, leaf, k) == null {
      assert StopsAt(graph, leaf, k);
    } else if Ends(graph, leaf) {
      var i, n := WalkRecurs(graph, leaf);
      var k: nat :| StopsAt(graph, leaf, k);
      if k >= i {
        var m := EndsOnCycle(graph, leaf, i, n, k);
      }
    }
  }

  lemma EndsOnCycle(graph: set<Certificate>, leaf: Certificate, i: nat, n: nat, k: nat) returns (m: nat)
    requires Closed(graph) && leaf in graph && ProperKeys(graph)
    requires i < n && Issuer(graph, leaf, i) == Issuer(graph, leaf, n)
    requires i <= k && StopsAt(graph, leaf, k)
    ensures m < 2 * n && StopsAt(graph, leaf, m)
  {
    var at := OnCycle(graph, leaf, i, n, k);
    Periodic(graph, leaf, i, n, at - i);
    m := at + (n - i);
    if !Absent(Issuer(graph, leaf, k)) && !(k > 0 && Issuer(graph, leaf, k) == leaf) {
      var j: nat :| j < k && SameKey(graph, leaf, j, k);
      SameKeyMeans(graph, leaf, j, k);
      SameKeyMeans(graph, leaf, at, m);
    }
  }

  // ---------- Certificates without a key ----------

  lemma {:induction false} SelfIssuedWalk(graph: set<Certificate>, root: Certificate, n: nat)
    requires Closed(graph) && root in graph && root.issuer == root
    ensures Issuer(graph, root, n) == root
  {
    if n > 0 { SelfIssuedWalk(graph, root, n - 1); }
  }

  /**
   Below a leaf whose key is no numeral, a self-issued root without fingerprint and serial
   number gives the loop a new key at every position, so that it never stops.
   */
  lemma UnkeyedRootNeverStops(graph: set<Certificate>, leaf: Certificate, root: Certificate)
    requires Closed(graph) && leaf in graph && root in graph
    requires leaf.issuer == root && root.issuer == root && leaf != root
    requires !root.empty && !IsKeyed(root)
    requires !leaf.empty && IsKeyed(leaf) && forall n: nat :: Key(leaf, 0) != Decimal(n)
    ensures !Ends(graph, leaf)
  {
    forall n: nat ensures !StopsAt(graph, leaf, n) {
      WalkToRoot(graph, leaf, root, n);
      forall i: nat | i < n ensures !SameKey(graph, leaf, i, n) {
        WalkToRoot(graph, leaf, root, i);
        if i > 0 && Decimal(i) == Decimal(n) {
          DecimalInjective(i, n);
        }
      }
    }
  }

  lemma WalkToRoot(graph: set<Certificate>, leaf: Certificate, root: Certificate, n: nat)
    requires Closed(graph) && leaf in graph && root in graph
    requires leaf.issuer == root && root.issuer == root
    ensures Issuer(graph, leaf, n) == if n == 0 then leaf else root
  {
    if n > 0 { SelfIssuedWalk(graph, root, n - 1); }
  }
}
