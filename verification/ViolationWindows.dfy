/**
Fixed-window violation counting (src/security/ip_blocking.rs).  A rule window is a start and a
count; it restarts when it has run its length.  The lemmas say what a count proves about the
violations behind it, for one client and one rule, over any run.
*/
module ViolationWindows {
  /** Monotonic time in nanoseconds. */
  type Instant = nat

  const SECOND: nat := 1_000_000_000
  const U32_MAX: nat := 0xFFFF_FFFF
  const TEMPORARY_SECONDS: nat := 300
  const IDLE_SECONDS: nat := 1800

  datatype ViolationRule = InvalidWebsocket | InvalidGrpc | SizeViolation | NamespaceScan {
    function Index(): nat {
      match this
      case InvalidWebsocket => 0
      case InvalidGrpc => 1
      case SizeViolation => 2
      case NamespaceScan => 3
    }

    function Window(): nat {
      if SizeViolation? then 300 * SECOND else 60 * SECOND
    }
  }

  const RULES: nat := 4

  datatype RuleWindow = RuleWindow(since: Instant, count: nat)

  datatype ClientWindow = ClientWindow(rules: seq<RuleWindow>, lastSeen: Instant) {
    predicate Valid() {
      |rules| == RULES
    }
  }

  function FreshClient(now: Instant): ClientWindow {
    ClientWindow([RuleWindow(now, 0), RuleWindow(now, 0), RuleWindow(now, 0), RuleWindow(now, 0)], now)
  }

  function Increment(count: nat): nat {
    if count < U32_MAX then count + 1 else U32_MAX
  }

  /** `Instant::duration_since` never goes negative. */
  function Elapsed(now: Instant, since: Instant): nat {
    if now >= since then now - since else 0
  }

  function CountIn(window: RuleWindow, length: nat, now: Instant): RuleWindow {
    var current := if Elapsed(now, window.since) >= length then RuleWindow(now, 0) else window;
    current.(count := Increment(current.count))
  }

  function CountViolation(client: ClientWindow, rule: ViolationRule, now: Instant): ClientWindow
    requires client.Valid()
  {
    ClientWindow(client.rules[rule.Index() := CountIn(client.rules[rule.Index()], rule.Window(), now)], now)
  }

  predicate Idle(client: ClientWindow, now: Instant) {
    Elapsed(now, client.lastSeen) >= IDLE_SECONDS * SECOND
  }

  // ---- what one count says of the violations behind it ----

  /** One counted violation: when, and the window as it stood afterwards. */
  datatype Tally = Tally(at: Instant, since: Instant, count: nat)

  predicate Starts(t: Tally, length: nat) {
    t.count == 1 && t.since <= t.at < t.since + length
  }

  predicate Continues(a: Tally, b: Tally, length: nat) {
    a.at <= b.at < a.since + length && b.since == a.since && b.count == Increment(a.count)
  }

  /** A new window: the old one had run its length, and the new one starts no earlier than the last violation. */
  predicate Restarts(a: Tally, b: Tally, length: nat) {
    Starts(b, length) && a.at <= b.since && a.since + length <= b.at
  }

  /** The counted violations of one client and one rule, oldest first. */
  predicate Chain(tallies: seq<Tally>, length: nat) {
    && (tallies != [] ==> Starts(tallies[0], length))
    && forall i | 0 <= i < |tallies| - 1 :: Linked(tallies[i], tallies[i + 1], length)
  }

  predicate Linked(a: Tally, b: Tally, length: nat) {
    Continues(a, b, length) || Restarts(a, b, length)
  }

  lemma {:induction false} ChainOrdered(tallies: seq<Tally>, length: nat, i: nat, j: nat)
    requires Chain(tallies, length) && i <= j < |tallies|
    ensures tallies[i].at <= tallies[j].at
    decreases j - i
  {
    if i < j {
      ChainOrdered(tallies, length, i, j - 1);
      assert Linked(tallies[j - 1], tallies[j], length);
    }
  }

  lemma {:induction false} ChainInWindow(tallies: seq<Tally>, length: nat, k: nat)
    requires Chain(tallies, length) && k < |tallies|
    ensures tallies[k].since <= tallies[k].at < tallies[k].since + length
    ensures tallies[k].count >= 1
    decreases k
  {
    if k > 0 {
      assert Linked(tallies[k - 1], tallies[k], length);
      ChainInWindow(tallies, length, k - 1);
    }
  }

  /** The last `back` violations up to `k` belong to one window when the count says so. */
  lemma {:induction false} CountIsBacked(tallies: seq<Tally>, length: nat, k: nat, back: nat)
    requires Chain(tallies, length) && k < |tallies| && back < tallies[k].count
    ensures back <= k
    ensures tallies[k - back].since == tallies[k].since
    decreases back
  {
    assert k == 0 ==> Starts(tallies[k], length);
    if back > 0 && k > 0 {
      assert Linked(tallies[k - 1], tallies[k], length);
      CountIsBacked(tallies, length, k - 1, back - 1);
    }
  }

  /**
  Soundness: a count that reaches the threshold stands for at least `threshold` counted violations
  in a span shorter than the window.
  */
  lemma CrossingIsSound(tallies: seq<Tally>, length: nat, k: nat, threshold: nat)
    requires Chain(tallies, length) && k < |tallies| && 1 <= threshold <= tallies[k].count
    ensures threshold <= k + 1
    ensures tallies[k].at - tallies[k + 1 - threshold].at < length
  {
    CountIsBacked(tallies, length, k, threshold - 1);
    ChainInWindow(tallies, length, k + 1 - threshold);
    ChainInWindow(tallies, length, k);
  }

  /** Without a restart in between, the count grows by one each time. */
  lemma {:induction false} CountGrows(tallies: seq<Tally>, length: nat, i: nat, j: nat)
    requires Chain(tallies, length) && i <= j < |tallies|
    requires forall k | i < k <= j :: !Restarts(tallies[k - 1], tallies[k], length)
    ensures tallies[j].since == tallies[i].since
    ensures tallies[j].count >= (if j - i + 1 <= U32_MAX then j - i + 1 else U32_MAX)
    decreases j - i
  {
    ChainInWindow(tallies, length, i);
    if i < j {
      CountGrows(tallies, length, i, j - 1);
      assert Linked(tallies[j - 1], tallies[j], length);
    }
  }

  /**
  Completeness within a factor of two: any span shorter than the window that holds at least
  `2 * threshold - 1` counted violations contains a count that reaches the threshold.
  */
  lemma CrossingIsComplete(tallies: seq<Tally>, length: nat, i: nat, j: nat, threshold: nat)
    requires Chain(tallies, length) && i <= j < |tallies|
    requires 1 <= threshold <= U32_MAX && j - i + 1 >= 2 * threshold - 1
    requires tallies[j].at - tallies[i].at < length
    ensures exists k | i <= k <= j :: tallies[k].count >= threshold
  {
    if r :| i < r <= j && Restarts(tallies[r - 1], tallies[r], length) {
      var first := FirstRestart(tallies, length, i, r);
      CountGrows(tallies, length, i, first - 1);
      forall q | first < q <= j
        ensures !Restarts(tallies[q - 1], tallies[q], length)
      {
        NoSecondRestart(tallies, length, i, first, q, j);
      }
      CountGrows(tallies, length, first, j);
      assert first - i >= threshold || j - first + 1 >= threshold;
      assert tallies[first - 1].count >= threshold || tallies[j].count >= threshold;
    } else {
      CountGrows(tallies, length, i, j);
    }
  }

  /** One short of the threshold at the end of one window, and again at the start of the next. */
  function Straddling(start: Instant, length: nat, threshold: nat): (tallies: seq<Tally>)
    requires length >= 1 && threshold >= 1
    ensures |tallies| == 2 * threshold - 2
  {
    Below(start + length - 1, start, threshold - 1) + Below(start + length, start + length, threshold - 1)
  }

  /** So many violations at one moment, counted from one in a window. */
  function Below(at: Instant, since: Instant, n: nat): (tallies: seq<Tally>)
    ensures |tallies| == n
  {
    seq(n, i requires 0 <= i < n => Tally(at, since, i + 1))
  }

  /**
  One violation fewer is not enough, for any rule and threshold: the factor of two is real.  A run
  of the engine that counts this way is in ExampleRuns.
  */
  lemma FactorOfTwoIsTight(start: Instant, rule: ViolationRule, threshold: nat)
    requires 2 <= threshold <= U32_MAX
    ensures var tallies := Straddling(start, rule.Window(), threshold);
      && Chain(tallies, rule.Window())
      && tallies[|tallies| - 1].at - tallies[0].at < rule.Window()
      && forall k | 0 <= k < |tallies| :: tallies[k].count < threshold
  {
  }

  lemma {:induction false} FirstRestart(tallies: seq<Tally>, length: nat, i: nat, r: nat) returns (first: nat)
    requires i < r < |tallies| && Restarts(tallies[r - 1], tallies[r], length)
    ensures i < first <= r && Restarts(tallies[first - 1], tallies[first], length)
    ensures forall k | i < k < first :: !Restarts(tallies[k - 1], tallies[k], length)
  {
    first := i + 1;
    while !Restarts(tallies[first - 1], tallies[first], length)
      invariant i < first <= r
      invariant forall k | i < k < first :: !Restarts(tallies[k - 1], tallies[k], length)
      decreases r - first
    {
      first := first + 1;
    }
  }

  /** A window opened inside a short span cannot run its length inside it. */
  lemma {:induction false} NoSecondRestart(tallies: seq<Tally>, length: nat, i: nat, first: nat, q: nat, j: nat)
    requires Chain(tallies, length) && i < first < q <= j < |tallies|
    requires Restarts(tallies[first - 1], tallies[first], length)
    requires tallies[j].at - tallies[i].at < length
    ensures !Restarts(tallies[q - 1], tallies[q], length)
  {
    ChainOrdered(tallies, length, i, first - 1);
    ChainOrdered(tallies, length, q, j);
    SinceOrdered(tallies, length, first, q - 1);
  }

  lemma {:induction false} SinceOrdered(tallies: seq<Tally>, length: nat, i: nat, j: nat)
    requires Chain(tallies, length) && i <= j < |tallies|
    ensures tallies[i].since <= tallies[j].since
    decreases j - i
  {
    if i < j {
      SinceOrdered(tallies, length, i, j - 1);
      assert Linked(tallies[j - 1], tallies[j], length);
      ChainInWindow(tallies, length, j - 1);
    }
  }

  /** A violation counted a temporary block later than the one before it opens a fresh window, whatever the rule. */
  lemma FreshAfterTemporaryBlock(a: Tally, b: Tally, rule: ViolationRule, entered: Instant)
    requires Linked(a, b, rule.Window()) && a.since <= a.at <= entered
    requires entered + TEMPORARY_SECONDS * SECOND <= b.at
    ensures Restarts(a, b, rule.Window()) && b.count == 1
  {
  }

  // ---- violations counted later than they happened ----

  /** A counted violation that took its time before it got the shard lock. */
  datatype LateTally = LateTally(tally: Tally, locked: Instant)

  /** A window's first violation; the window was opened at a time that some request took before. */
  predicate LateStarts(a: LateTally) {
    a.tally.count == 1 && a.tally.since <= a.locked
  }

  predicate LateLinked(a: LateTally, b: LateTally) {
    && a.locked <= b.locked
    && (LateStarts(b) || (b.tally.since == a.tally.since && b.tally.count == Increment(a.tally.count)))
  }

  /** The counted violations of one client and one rule, in the order in which they got the lock. */
  predicate LateChain(tallies: seq<LateTally>, length: nat) {
    && (tallies != [] ==> LateStarts(tallies[0]))
    && (forall i | 0 <= i < |tallies| - 1 :: LateLinked(tallies[i], tallies[i + 1]))
    && forall i | 0 <= i < |tallies| :: tallies[i].tally.at < tallies[i].tally.since + length
  }

  lemma {:induction false} LateInWindow(tallies: seq<LateTally>, length: nat, k: nat)
    requires LateChain(tallies, length) && k < |tallies|
    ensures tallies[k].tally.since <= tallies[k].locked && tallies[k].tally.count >= 1
    decreases k
  {
    if k > 0 {
      assert LateLinked(tallies[k - 1], tallies[k]);
      LateInWindow(tallies, length, k - 1);
    }
  }

  lemma {:induction false} LateIsBacked(tallies: seq<LateTally>, length: nat, k: nat, back: nat)
    requires LateChain(tallies, length) && k < |tallies| && back < tallies[k].tally.count
    ensures back <= k
    ensures tallies[k - back].tally.since == tallies[k].tally.since
    decreases back
  {
    assert k == 0 ==> LateStarts(tallies[k]);
    if back > 0 && k > 0 {
      assert LateLinked(tallies[k - 1], tallies[k]);
      LateIsBacked(tallies, length, k - 1, back - 1);
    }
  }

  /**
  Soundness with delays: when no violation waits longer than `delay` for the lock, a count that
  reaches the threshold stands for that many violations, any two of them less than the window plus
  `delay` apart.
  */
  lemma LateCrossingIsSound(tallies: seq<LateTally>, length: nat, delay: nat, k: nat, threshold: nat)
    requires LateChain(tallies, length) && k < |tallies| && 1 <= threshold <= tallies[k].tally.count
    requires forall i | 0 <= i <= k :: tallies[i].locked <= tallies[i].tally.at + delay
    ensures threshold <= k + 1
    ensures forall i, j | k + 1 - threshold <= i <= k && k + 1 - threshold <= j <= k ::
      tallies[i].tally.at < tallies[j].tally.at + length + delay
  {
    LateIsBacked(tallies, length, k, threshold - 1);
    forall i | k + 1 - threshold <= i <= k
      ensures tallies[i].tally.since == tallies[k].tally.since && tallies[i].tally.since <= tallies[i].locked
    {
      LateIsBacked(tallies, length, k, k - i);
      LateInWindow(tallies, length, i);
    }
  }

  // ---- shards ----

  const SHARDS: nat := 64

  function ShardCapacity(maximum: nat, shard: nat): nat {
    maximum / SHARDS + (if shard < maximum % SHARDS then 1 else 0)
  }

  function CapacitySum(maximum: nat, shards: nat): nat {
    if shards == 0 then 0 else CapacitySum(maximum, shards - 1) + ShardCapacity(maximum, shards - 1)
  }

  lemma {:induction false} CapacityPrefix(maximum: nat, shards: nat)
    ensures CapacitySum(maximum, shards) ==
      shards * (maximum / SHARDS) + (if shards < maximum % SHARDS then shards else maximum % SHARDS)
    decreases shards
  {
    if shards > 0 {
      CapacityPrefix(maximum, shards - 1);
    }
  }

  /** The shards together track exactly the configured number of clients. */
  lemma CapacitiesSumToMaximum(maximum: nat)
    ensures CapacitySum(maximum, SHARDS) == maximum
  {
    CapacityPrefix(maximum, SHARDS);
  }
}
