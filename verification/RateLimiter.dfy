/** The in-memory sliding-window rate limiter. Times are whole milliseconds. */
module RateLimiter {
  import opened Sets

  datatype Options = Options(maxAttempts: int, windowMs: int, backoffMultiplier: real)

  datatype Outcome = Outcome(allowed: bool, retryAfterMs: int)

  // ---------- One call ----------

  /** The queue without the leading times that have left the window. */
  function Prune(attempts: seq<int>, cutoff: int): seq<int> {
    if attempts != [] && attempts[0] <= cutoff then Prune(attempts[1..], cutoff) else attempts
  }

  /** Math.round: halves go up. */
  function Round(x: real): int {
    (x + 0.5).Floor
  }

  function Live(o: Options, attempts: seq<int>, now: int): seq<int> {
    Prune(attempts, now - o.windowMs)
  }

  predicate Admits(o: Options, attempts: seq<int>, now: int) {
    |Live(o, attempts, now)| < o.maxAttempts
  }

  /** Time until the oldest live admission leaves the window. */
  function Wait(o: Options, attempts: seq<int>, now: int): int {
    var live := Live(o, attempts, now);
    var oldest := if live == [] then now else live[0];
    if oldest + o.windowMs - now > 0 then oldest + o.windowMs - now else 0
  }

  function Decide(o: Options, attempts: seq<int>, now: int): Outcome {
    if Admits(o, attempts, now) then Outcome(true, 0)
    else Outcome(false, Round(Wait(o, attempts, now) as real * o.backoffMultiplier))
  }

  function Next(o: Options, attempts: seq<int>, now: int): seq<int> {
    Live(o, attempts, now) + if Admits(o, attempts, now) then [now] else []
  }

  class Limiter {
    const options: Options
    var attempts: seq<int>

    constructor (options: Options)
      ensures this.options == options && attempts == []
    {
      this.options := options;
      attempts := [];
    }

    method Attempt(now: int) returns (r: Outcome)
      modifies this
      ensures r == Decide(options, old(attempts), now)
      ensures attempts == Next(options, old(attempts), now)
    {
      var cutoff := now - options.windowMs;
      while |attempts| > 0 && attempts[0] <= cutoff
        invariant Prune(attempts, cutoff) == Prune(old(attempts), cutoff)
        decreases |attempts|
      {
        attempts := attempts[1..];
      }
      if |attempts| < options.maxAttempts {
        attempts := attempts + [now];
        return Outcome(true, 0);
      }
      var oldest := if attempts == [] then now else attempts[0];
      var retryAfterMs := if oldest + options.windowMs - now > 0 then oldest + options.windowMs - now else 0;
      var backoffMs := Round(retryAfterMs as real * options.backoffMultiplier);
      return Outcome(false, backoffMs);
    }

    method Reset()
      modifies this
      ensures attempts == []
    {
      attempts := [];
    }
  }

  // ---------- Runs ----------

  ghost predicate Monotone(times: seq<int>) {
    forall i, j :: 0 <= i <= j < |times| ==> times[i] <= times[j]
  }

  /** The queue after the first n arrivals. */
  ghost function Queue(o: Options, times: seq<int>, n: nat): seq<int>
    requires n <= |times|
  {
    if n == 0 then [] else Next(o, Queue(o, times, n - 1), times[n - 1])
  }

  /** The limiter's answer to arrival n. */
  ghost function Answer(o: Options, times: seq<int>, n: nat): Outcome
    requires n < |times|
  {
    Decide(o, Queue(o, times, n), times[n])
  }

  ghost predicate Allowed(o: Options, times: seq<int>, n: nat)
    requires n < |times|
  {
    Answer(o, times, n).allowed
  }

  /** The arrivals among the first n that were admitted. */
  ghost function Admitted(o: Options, times: seq<int>, n: nat): set<int>
    requires n <= |times|
  {
    set i | 0 <= i < n && Allowed(o, times, i)
  }

  ghost function After(s: set<int>, times: seq<int>, cutoff: int): set<int>
    requires forall i :: i in s ==> 0 <= i < |times|
  {
    set i | i in s && times[i] > cutoff
  }

  ghost function InWindow(s: set<int>, times: seq<int>, start: int, length: int): set<int>
    requires forall i :: i in s ==> 0 <= i < |times|
  {
    set i | i in s && start <= times[i] < start + length
  }

  /** A choice of arrivals with at most maxAttempts of them in any half-open window. */
  ghost predicate Feasible(o: Options, times: seq<int>, s: set<int>) {
    && (forall i :: i in s ==> 0 <= i < |times|)
    && forall start :: |InWindow(s, times, start, o.windowMs)| <= Limit(o)
  }

  function Limit(o: Options): nat {
    if o.maxAttempts > 0 then o.maxAttempts else 0
  }

  // ---------- The queue holds the recent admissions ----------

  lemma {:induction false} PruneTwice(q: seq<int>, c: int, d: int)
    requires c <= d
    ensures Prune(Prune(q, c), d) == Prune(q, d)
  {
    if q != [] && q[0] <= c {
      PruneTwice(q[1..], c, d);
    }
  }

  lemma {:induction false} PruneAppend(q: seq<int>, x: int, c: int)
    requires Monotone(q + [x])
    ensures Prune(q + [x], c) == if x > c then Prune(q, c) + [x] else []
  {
    var all := q + [x];
    assert all[|q|] == x;
    if q == [] {
      assert Prune([x], c) == if x > c then [x] else [];
      assert all == [x];
    } else {
      assert all[0] == q[0] <= x;
      if q[0] <= c {
        assert all[1..] == q[1..] + [x];
        PruneAppend(q[1..], x, c);
      }
    }
  }

  lemma {:induction false} PruneSuffix(q: seq<int>, c: int)
    ensures Prune(q, c) != [] ==> Prune(q, c)[0] > c
    ensures exists k :: 0 <= k <= |q| && Prune(q, c) == q[k..]
  {
    if q != [] && q[0] <= c {
      PruneSuffix(q[1..], c);
      var k :| 0 <= k <= |q[1..]| && Prune(q[1..], c) == q[1..][k..];
      assert Prune(q, c) == q[k + 1..];
    } else {
      assert Prune(q, c) == q[0..];
    }
  }

  lemma SuffixShape(q: seq<int>, k: nat, now: int)
    requires k <= |q| && Monotone(q) && forall i :: 0 <= i < |q| ==> q[i] <= now
    ensures Monotone(q[k..]) && Monotone(q[k..] + [now])
    ensures forall i :: 0 <= i < |q[k..]| ==> q[k..][i] <= now
    ensures forall i :: 0 <= i < |q[k..] + [now]| ==> (q[k..] + [now])[i] <= now
  {
  }

  lemma LiveShape(o: Options, q: seq<int>, now: int)
    requires Monotone(q) && forall i :: 0 <= i < |q| ==> q[i] <= now
    ensures Monotone(Live(o, q, now)) && Monotone(Live(o, q, now) + [now]) && |Live(o, q, now)| <= |q|
    ensures forall i :: 0 <= i < |Live(o, q, now)| ==> Live(o, q, now)[i] <= now
  {
    PruneSuffix(q, now - o.windowMs);
    var k :| 0 <= k <= |q| && Live(o, q, now) == q[k..];
    SuffixShape(q, k, now);
  }

  lemma NextShape(o: Options, q: seq<int>, now: int)
    requires Monotone(q) && |q| <= Limit(o) && forall i :: 0 <= i < |q| ==> q[i] <= now
    ensures Monotone(Next(o, q, now)) && |Next(o, q, now)| <= Limit(o)
    ensures forall i :: 0 <= i < |Next(o, q, now)| ==> Next(o, q, now)[i] <= now
  {
    var live := Live(o, q, now);
    LiveShape(o, q, now);
    if Admits(o, q, now) {
      assert Next(o, q, now) == live + [now];
    } else {
      assert Next(o, q, now) == live;
    }
  }

  /** In every run the queue is sorted, holds no time after the clock and is within the limit. */
  lemma {:induction false} QueueShape(o: Options, times: seq<int>, n: nat)
    requires Monotone(times) && n <= |times|
    ensures Monotone(Queue(o, times, n))
    ensures |Queue(o, times, n)| <= Limit(o)
    ensures forall i :: 0 <= i < |Queue(o, times, n)| ==> n > 0 && Queue(o, times, n)[i] <= times[n - 1]
  {
    if n > 0 {
      QueueShape(o, times, n - 1);
      NextShape(o, Queue(o, times, n - 1), times[n - 1]);
    }
  }

  lemma AdmittedCount(o: Options, times: seq<int>, n: nat)
    requires n < |times|
    ensures |Admitted(o, times, n + 1)| == |Admitted(o, times, n)| + if Allowed(o, times, n) then 1 else 0
  {
    AdmittedStep(o, times, n, 0);
  }

  lemma AdmittedStep(o: Options, times: seq<int>, n: nat, c: int)
    requires n < |times|
    ensures Admitted(o, times, n + 1) == Admitted(o, times, n) + if Allowed(o, times, n) then {n} else {}
    ensures After(Admitted(o, times, n + 1), times, c) == After(Admitted(o, times, n), times, c)
      + (if Allowed(o, times, n) && times[n] > c then {n} else {})
  {
  }

  /** The pruned queue is as long as the set of recent admissions is large. */
  lemma {:induction false} QueueCounts(o: Options, times: seq<int>, n: nat, c: int)
    requires Monotone(times) && n <= |times|
    requires n > 0 ==> c >= times[n - 1] - o.windowMs
    ensures |Prune(Queue(o, times, n), c)| == |After(Admitted(o, times, n), times, c)|
  {
    if n == 0 {
      assert Admitted(o, times, 0) == {};
    } else {
      assert n > 1 ==> times[n - 2] <= times[n - 1];
      QueueCounts(o, times, n - 1, c);
      PruneLive(o, Queue(o, times, n - 1), times[n - 1], c);
      CountNext(o, times, n - 1, c, |After(Admitted(o, times, n - 1), times, c)|);
    }
  }

  lemma PruneLive(o: Options, q: seq<int>, now: int, c: int)
    requires c >= now - o.windowMs
    ensures Prune(Live(o, q, now), c) == Prune(q, c)
  {
    PruneTwice(q, now - o.windowMs, c);
  }

  lemma CountNext(o: Options, times: seq<int>, n: nat, c: int, m: nat)
    requires Monotone(times) && n < |times|
    requires |Prune(Live(o, Queue(o, times, n), times[n]), c)| == m == |After(Admitted(o, times, n), times, c)|
    ensures |Prune(Queue(o, times, n + 1), c)| == |After(Admitted(o, times, n + 1), times, c)|
  {
    if Allowed(o, times, n) {
      var live := Live(o, Queue(o, times, n), times[n]);
      assert Queue(o, times, n + 1) == live + [times[n]];
      QueueShape(o, times, n + 1);
      PruneAppend(live, times[n], c);
      AfterNext(o, times, n, c);
    } else {
      assert Queue(o, times, n + 1) == Live(o, Queue(o, times, n), times[n]);
      AdmittedStep(o, times, n, c);
    }
  }

  lemma AfterNext(o: Options, times: seq<int>, n: nat, c: int)
    requires Monotone(times) && n < |times| && Allowed(o, times, n)
    ensures |After(Admitted(o, times, n + 1), times, c)|
      == if times[n] > c then |After(Admitted(o, times, n), times, c)| + 1 else 0
  {
    AdmittedStep(o, times, n, c);
    if times[n] <= c { NoneAfter(times, Admitted(o, times, n + 1), n + 1, c); }
  }

  lemma NoneAfter(times: seq<int>, s: set<int>, n: nat, c: int)
    requires Monotone(times) && 0 < n <= |times| && times[n - 1] <= c
    requires forall i :: i in s ==> 0 <= i < n
    ensures After(s, times, c) == {}
  {
    assert forall i :: i in s ==> times[i] <= times[n - 1];
  }

  /** An arrival is admitted exactly when fewer than maxAttempts admissions are still in its window. */
  lemma AdmittedWhen(o: Options, times: seq<int>, n: nat)
    requires Monotone(times) && n < |times|
    ensures Allowed(o, times, n)
      <==> |After(Admitted(o, times, n), times, times[n] - o.windowMs)| < o.maxAttempts
  {
    assert n > 0 ==> times[n - 1] <= times[n];
    QueueCounts(o, times, n, times[n] - o.windowMs);
  }

  // ---------- Safety ----------

  /** Over any run at most maxAttempts admissions fall in any half-open window of windowMs. */
  lemma Safe(o: Options, times: seq<int>)
    requires Monotone(times)
    ensures Feasible(o, times, Admitted(o, times, |times|))
  {
    var all := Admitted(o, times, |times|);
    forall start ensures |InWindow(all, times, start, o.windowMs)| <= Limit(o) {
      var w := InWindow(all, times, start, o.windowMs);
      if w != {} {
        var m := Largest(w);
        var recent := After(Admitted(o, times, m), times, times[m] - o.windowMs);
        AdmittedWhen(o, times, m);
        assert w - {m} <= recent;
        SubsetSize(w - {m}, recent);
        assert |w| == |w - {m}| + 1;
      }
    }
  }

  // ---------- Maximality ----------

  lemma {:induction false} Early(times: seq<int>, n: nat, c: int) returns (m: nat)
    requires Monotone(times) && n <= |times|
    ensures m <= n && forall i :: 0 <= i < n ==> (times[i] <= c <==> i < m)
  {
    if n == 0 || times[n - 1] <= c {
      m := n;
    } else {
      m := Early(times, n - 1, c);
    }
  }

  ghost predicate Below(s: set<int>, n: nat) {
    forall i :: i in s ==> 0 <= i < n
  }

  /** A part of a feasible choice is feasible. */
  lemma PartFeasible(o: Options, times: seq<int>, s: set<int>, t: set<int>)
    requires Feasible(o, times, s) && t <= s
    ensures Feasible(o, times, t)
  {
    forall start ensures |InWindow(t, times, start, o.windowMs)| <= Limit(o) {
      SubsetSize(InWindow(t, times, start, o.windowMs), InWindow(s, times, start, o.windowMs));
    }
  }

  /** When arrival n is refused, its window is full of admissions, all later than those before it. */
  lemma RefusedMeansFull(o: Options, times: seq<int>, n: nat, m: nat)
    requires Monotone(times) && m <= n < |times|
    requires !Allowed(o, times, n)
    requires forall i :: 0 <= i < n ==> (times[i] <= times[n] - o.windowMs <==> i < m)
    ensures |Admitted(o, times, n)| >= |Admitted(o, times, m)| + o.maxAttempts
    ensures |Admitted(o, times, n)| >= |Admitted(o, times, m)|
  {
    AdmittedWhen(o, times, n);
    var old' := Admitted(o, times, m);
    var recent := After(Admitted(o, times, n), times, times[n] - o.windowMs);
    assert old' !! recent;
    SubsetSize(old' + recent, Admitted(o, times, n));
    assert |old' + recent| == |old'| + |recent|;
  }

  /** A limiter whose window is empty admits every arrival, when its limit is positive. */
  lemma EmptyWindow(o: Options, times: seq<int>, n: nat)
    requires Monotone(times) && n < |times|
    ensures o.windowMs <= 0 && o.maxAttempts > 0 ==> Allowed(o, times, n)
  {
    AdmittedWhen(o, times, n);
    var recent := After(Admitted(o, times, n), times, times[n] - o.windowMs);
    assert recent != {} ==> o.windowMs > 0;
  }

  /** A choice that takes the refused last arrival leaves room in its window for at most the limit. */
  lemma LastRefused(o: Options, times: seq<int>, s: set<int>, last: nat, m: nat) returns (before: set<int>)
    requires Monotone(times) && m <= last < |times|
    requires o.windowMs > 0 || o.maxAttempts > 0
    requires Feasible(o, times, s) && Below(s, last + 1)
    requires !Allowed(o, times, last)
    requires forall i :: 0 <= i < last ==> (times[i] <= times[last] - o.windowMs <==> i < m)
    ensures Feasible(o, times, before) && Below(before, m)
    ensures |s| <= |before| + Limit(o)
    ensures |Admitted(o, times, last)| >= |Admitted(o, times, m)| + Limit(o)
  {
    var c := times[last] - o.windowMs;
    RefusedMeansFull(o, times, last, m);
    EmptyWindow(o, times, last);
    var within := InWindow(s, times, c + 1, o.windowMs);
    before := s - within;
    assert s == before + within;
    PartFeasible(o, times, s, before);
  }

  lemma WithoutLast(o: Options, times: seq<int>, s: set<int>, last: nat)
    requires Feasible(o, times, s) && Below(s, last + 1)
    ensures Feasible(o, times, s - {last}) && Below(s - {last}, last)
    ensures |s| == |s - {last}| + if last in s then 1 else 0
  {
    PartFeasible(o, times, s, s - {last});
    assert last in s ==> s == s - {last} + {last};
    assert last !in s ==> s == s - {last};
  }

  /** Greedy stays ahead: no feasible choice among the first n arrivals outnumbers the admissions. */
  lemma {:induction false} StaysAhead(o: Options, times: seq<int>, s: set<int>, n: nat)
    requires Monotone(times) && n <= |times|
    requires o.windowMs > 0 || o.maxAttempts > 0
    requires Feasible(o, times, s) && Below(s, n)
    ensures |s| <= |Admitted(o, times, n)|
    decreases n
  {
    if n == 0 {
      if s != {} {
        var i := Pick(s);
        assert false;
      }
    } else {
      var last := n - 1;
      AdmittedCount(o, times, last);
      if last in s && !Allowed(o, times, last) {
        var m := Early(times, last, times[last] - o.windowMs);
        var before := LastRefused(o, times, s, last, m);
        StaysAhead(o, times, before, m);
      } else {
        WithoutLast(o, times, s, last);
        StaysAhead(o, times, s - {last}, last);
      }
    }
  }

  /**
   The limiter is maximal: no choice of arrivals that respects the limit in every window is
   larger than the set it admits.
   */
  lemma Maximal(o: Options, times: seq<int>, s: set<int>)
    requires Monotone(times)
    requires o.windowMs > 0 || o.maxAttempts > 0
    requires Feasible(o, times, s)
    ensures |s| <= |Admitted(o, times, |times|)|
  {
    StaysAhead(o, times, s, |times|);
  }

  /** Maximality holds for every run exactly when the window or the limit is positive. */
  lemma MaximalExactlyWhen(o: Options)
    ensures (o.windowMs > 0 || o.maxAttempts > 0)
      <==> (forall times, s :: Monotone(times) && Feasible(o, times, s)
             ==> |s| <= |Admitted(o, times, |times|)|)
  {
    if o.windowMs > 0 || o.maxAttempts > 0 {
      forall times, s | Monotone(times) && Feasible(o, times, s)
        ensures |s| <= |Admitted(o, times, |times|)|
      {
        Maximal(o, times, s);
      }
    } else {
      forall start ensures InWindow({0}, [0], start, o.windowMs) == {} {}
      assert Feasible(o, [0], {0});
      assert Admitted(o, [0], 1) == {};
      assert Monotone([0]);
    }
  }

  // ---------- Retry times ----------

  /** The moment at which the oldest admission that blocks arrival n leaves the window. */
  ghost function Reopens(o: Options, times: seq<int>, n: nat): int
    requires n < |times|
  {
    times[n] + Wait(o, Queue(o, times, n), times[n])
  }

  /** Between a refusal and the moment of reopening, the queue stays as it was. */
  lemma {:induction false} QueueFrozen(o: Options, times: seq<int>, n: nat, k: nat)
    requires Monotone(times) && n < k < |times|
    requires o.maxAttempts >= 1 && !Allowed(o, times, n)
    requires forall j :: n < j < k ==> times[j] < Reopens(o, times, n)
    ensures Queue(o, times, k) == Live(o, Queue(o, times, n), times[n])
    ensures |Queue(o, times, k)| == o.maxAttempts
    ensures Reopens(o, times, n) == Queue(o, times, k)[0] + o.windowMs
  {
    if k == n + 1 {
      QueueShape(o, times, k);
      PruneSuffix(Queue(o, times, n), times[n] - o.windowMs);
    } else {
      QueueFrozen(o, times, n, k - 1);
      FullQueueKept(o, Queue(o, times, k - 1), times[k - 1]);
    }
  }

  /** A full queue whose oldest time is still in the window refuses and stays as it is. */
  lemma FullQueueKept(o: Options, q: seq<int>, now: int)
    requires q != [] && |q| == o.maxAttempts && now < q[0] + o.windowMs
    ensures Next(o, q, now) == q
  {
    assert Live(o, q, now) == q;
    assert q + [] == q;
  }

  /** After a refusal the next admission is exactly the first arrival at or after the reopening. */
  lemma ReopensExactly(o: Options, times: seq<int>, n: nat, k: nat)
    requires Monotone(times) && n < k < |times|
    requires o.maxAttempts >= 1 && !Allowed(o, times, n)
    requires forall j :: n < j < k ==> times[j] < Reopens(o, times, n)
    ensures Allowed(o, times, k) <==> times[k] >= Reopens(o, times, n)
  {
    QueueFrozen(o, times, n, k);
    var live := Queue(o, times, k);
    PruneSuffix(live[1..], times[k] - o.windowMs);
  }

  lemma RoundExact(x: int)
    ensures Round(x as real * 1.0) == x
  {
    assert x as real * 1.0 == x as real;
  }

  /**
   Retry times are exact: after a refusal every attempt before now + retryAfterMs is refused,
   and the first one at or after that moment is admitted.
   */
  lemma RetryExact(o: Options, times: seq<int>, n: nat, k: nat)
    requires Monotone(times) && n < k < |times|
    requires o.maxAttempts >= 1 && o.backoffMultiplier == 1.0
    requires !Answer(o, times, n).allowed
    requires forall j :: n < j < k ==> times[j] < times[n] + Answer(o, times, n).retryAfterMs
    ensures Answer(o, times, k).allowed <==> times[k] >= times[n] + Answer(o, times, n).retryAfterMs
  {
    RoundExact(Wait(o, Queue(o, times, n), times[n]));
    ReopensExactly(o, times, n, k);
  }

  /**
   Whatever the multiplier, the time reported is the exact one, until the first arrival that is
   admitted again, multiplied by it and rounded to the nearest millisecond, halves up.
   */
  lemma RetryScales(o: Options, times: seq<int>, n: nat) returns (wait: nat)
    requires Monotone(times) && n < |times|
    requires o.maxAttempts >= 1 && !Answer(o, times, n).allowed
    ensures var exact := wait as real * o.backoffMultiplier;
      Answer(o, times, n).retryAfterMs as real - 0.5 <= exact < Answer(o, times, n).retryAfterMs as real + 0.5
    ensures forall k :: n < k < |times| && (forall j :: n < j < k ==> times[j] < times[n] + wait) ==>
      (Allowed(o, times, k) <==> times[k] >= times[n] + wait)
  {
    wait := Wait(o, Queue(o, times, n), times[n]);
    forall k | n < k < |times| && (forall j :: n < j < k ==> times[j] < times[n] + wait)
      ensures Allowed(o, times, k) <==> times[k] >= times[n] + wait
    {
      ReopensExactly(o, times, n, k);
    }
  }

  /** A call that is admitted joins the queue and is told of nothing to wait for; another one joins nothing. */
  lemma AnswerMeans(o: Options, times: seq<int>, n: nat)
    requires n < |times|
    ensures Allowed(o, times, n) ==>
      Queue(o, times, n + 1) == Live(o, Queue(o, times, n), times[n]) + [times[n]]
        && Answer(o, times, n).retryAfterMs == 0
    ensures !Allowed(o, times, n) ==> Queue(o, times, n + 1) == Live(o, Queue(o, times, n), times[n])
  {
  }

  /** Where nothing may be admitted the whole window is reported, multiplied and rounded. */
  lemma {:induction false} NothingAdmitted(o: Options, times: seq<int>, n: nat)
    requires n < |times| && o.maxAttempts <= 0
    ensures Queue(o, times, n) == [] && !Answer(o, times, n).allowed
    ensures var exact := (if o.windowMs > 0 then o.windowMs else 0) as real * o.backoffMultiplier;
      Answer(o, times, n).retryAfterMs as real - 0.5 <= exact < Answer(o, times, n).retryAfterMs as real + 0.5
  {
    if n > 0 { NothingAdmitted(o, times, n - 1); }
  }
}
