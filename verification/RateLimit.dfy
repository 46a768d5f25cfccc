/** The sliding-window limiter of `pkg/ratelimit/ratelimit.go`. `Allow` and `purgeStale` are atomic
    steps; the clock is an argument. */
module RateLimit {
  import opened Shared

  const MINUTE := 60_000_000_000

  /** `InMemoryConfig`, in requests and nanoseconds. */
  datatype Config = Config(limit: int, window: int)

  datatype Verdict = Verdict(allowed: bool, remaining: int, limit: int, resetAt: int)

  type Buckets = map<string, seq<int>>

  /** The defaults applied by `NewInMemory`. */
  function Normalize(cfg: Config): Config {
    Config(if cfg.limit <= 0 then 300 else cfg.limit, if cfg.window <= 0 then MINUTE else cfg.window)
  }

  predicate Usable(cfg: Config) {
    cfg.limit > 0 && cfg.window > 0
  }

  // ---- The reference limiter: keep everything, count what lies in the window ----

  /** The entries of `s` that lie in the closed interval [from, to]. */
  function Within(s: seq<int>, from: int, to: int): seq<int> {
    if s == [] then []
    else if from <= s[0] <= to then [s[0]] + Within(s[1..], from, to)
    else Within(s[1..], from, to)
  }

  /** The verdict of a limiter that has kept every allowed timestamp of this key. */
  function Decide(cfg: Config, kept: seq<int>, now: int): Verdict
    requires Usable(cfg)
  {
    var w := Within(kept, now - cfg.window, now);
    if |w| >= cfg.limit then Verdict(false, 0, cfg.limit, w[0] + cfg.window)
    else Verdict(true, cfg.limit - |w| - 1, cfg.limit, (if w == [] then now else w[0]) + cfg.window)
  }

  datatype Op = Allow(key: string, now: int) | Purge(now: int)

  datatype Outcome = Outcome(key: string, verdict: Verdict)

  function ReferenceStep(cfg: Config, h: Buckets, op: Op): Buckets
    requires Usable(cfg)
  {
    if op.Allow? && Decide(cfg, Lookup(h, op.key), op.now).allowed
    then h[op.key := Lookup(h, op.key) + [op.now]] else h
  }

  function ReferenceRun(cfg: Config, h: Buckets, ops: seq<Op>): Buckets
    requires Usable(cfg)
    decreases |ops|
  {
    if ops == [] then h else ReferenceRun(cfg, ReferenceStep(cfg, h, ops[0]), ops[1..])
  }

  function ReferenceOutcomes(cfg: Config, h: Buckets, ops: seq<Op>): seq<Outcome>
    requires Usable(cfg)
    decreases |ops|
  {
    if ops == [] then [] else
      var rest := ReferenceOutcomes(cfg, ReferenceStep(cfg, h, ops[0]), ops[1..]);
      if ops[0].Allow? then [Outcome(ops[0].key, Decide(cfg, Lookup(h, ops[0].key), ops[0].now))] + rest else rest
  }

  // ---- The implementation's steps ----

  /** Drops leading entries before `start`. */
  function Evict(s: seq<int>, start: int): seq<int> {
    if s != [] && s[0] < start then Evict(s[1..], start) else s
  }

  lemma {:induction false} EvictFrom(s: seq<int>, cutoff: nat, start: int)
    requires cutoff <= |s| && (cutoff < |s| ==> s[cutoff] >= start)
    requires forall i :: 0 <= i < cutoff ==> s[i] < start
    ensures Evict(s, start) == s[cutoff..]
    decreases cutoff
  {
    if cutoff > 0 {
      EvictFrom(s[1..], cutoff - 1, start);
      assert s[1..][cutoff - 1..] == s[cutoff..];
    }
  }

  function AllowVerdict(cfg: Config, live: seq<int>, now: int): Verdict
    requires Usable(cfg)
  {
    if |live| >= cfg.limit then Verdict(false, 0, cfg.limit, live[0] + cfg.window)
    else Verdict(true, cfg.limit - (|live| + 1), cfg.limit, (if live == [] then now else live[0]) + cfg.window)
  }

  function AllowBuckets(cfg: Config, b: Buckets, key: string, now: int): Buckets
    requires Usable(cfg)
  {
    var live := Evict(Lookup(b, key), now - cfg.window);
    b[key := if |live| >= cfg.limit then live else live + [now]]
  }

  predicate Stale(ts: seq<int>, cutoff: int) {
    ts == [] || ts[|ts| - 1] < cutoff
  }

  function PurgeBuckets(cfg: Config, b: Buckets, now: int): Buckets {
    map k | k in b && !Stale(b[k], now - cfg.window) :: b[k]
  }

  function Step(cfg: Config, b: Buckets, op: Op): Buckets
    requires Usable(cfg)
  {
    match op
    case Allow(key, now) => AllowBuckets(cfg, b, key, now)
    case Purge(now) => PurgeBuckets(cfg, b, now)
  }

  function Outcomes(cfg: Config, b: Buckets, ops: seq<Op>): seq<Outcome>
    requires Usable(cfg)
    decreases |ops|
  {
    if ops == [] then [] else
      var rest := Outcomes(cfg, Step(cfg, b, ops[0]), ops[1..]);
      match ops[0]
      case Allow(key, now) =>
        [Outcome(key, AllowVerdict(cfg, Evict(Lookup(b, key), now - cfg.window), now))] + rest
      case Purge(_) => rest
  }

  predicate Admits(cfg: Config, b: Buckets, op: Op, key: string)
    requires Usable(cfg)
  {
    op.Allow? && op.key == key && AllowVerdict(cfg, Evict(Lookup(b, key), op.now - cfg.window), op.now).allowed
  }

  /** When the limiter allowed requests on `key` during a run. */
  function Admitted(cfg: Config, b: Buckets, ops: seq<Op>, key: string): seq<int>
    requires Usable(cfg)
    decreases |ops|
  {
    if ops == [] then [] else
      var rest := Admitted(cfg, Step(cfg, b, ops[0]), ops[1..], key);
      if Admits(cfg, b, ops[0], key) then [ops[0].now] + rest else rest
  }

  /** The eviction loop of `Allow`. */
  method EvictBefore(timestamps: seq<int>, windowStart: int) returns (live: seq<int>)
    ensures live == Evict(timestamps, windowStart)
  {
    var cutoff := 0;
    while cutoff < |timestamps| && timestamps[cutoff] < windowStart
      invariant 0 <= cutoff <= |timestamps|
      invariant forall i :: 0 <= i < cutoff ==> timestamps[i] < windowStart
    {
      cutoff := cutoff + 1;
    }
    EvictFrom(timestamps, cutoff, windowStart);
    return timestamps[cutoff..];
  }

  class InMemoryLimiter {
    const cfg: Config
    var buckets: Buckets

    ghost predicate Valid()
      reads this
    {
      Usable(cfg)
    }

    constructor (cfg: Config)
      ensures Valid() && this.cfg == Normalize(cfg) && buckets == map[]
      ensures this.cfg.limit == (if cfg.limit > 0 then cfg.limit else 300)
      ensures this.cfg.window == (if cfg.window > 0 then cfg.window else 60_000_000_000)
    {
      this.cfg := Normalize(cfg);
      buckets := map[];
    }

    method Allow(key: string, now: int) returns (v: Verdict)
      requires Valid()
      modifies this
      ensures Valid() && buckets == AllowBuckets(cfg, old(buckets), key, now)
      ensures v == AllowVerdict(cfg, Evict(Lookup(old(buckets), key), now - cfg.window), now)
    {
      var windowStart := now - cfg.window;
      ghost var live := Evict(Lookup(buckets, key), now - cfg.window);
      if key !in buckets { buckets := buckets[key := []]; }
      var timestamps := EvictBefore(buckets[key], windowStart);
      assert timestamps == live;
      if |timestamps| >= cfg.limit {
        buckets := buckets[key := timestamps];
        v := Verdict(false, 0, cfg.limit, timestamps[0] + cfg.window);
      } else {
        timestamps := timestamps + [now];
        buckets := buckets[key := timestamps];
        v := Verdict(true, cfg.limit - |timestamps|, cfg.limit, timestamps[0] + cfg.window);
      }
      assert v == AllowVerdict(cfg, live, now);
      hide AllowVerdict;
      assert buckets == old(buckets)[key := timestamps];
    }

    method PurgeStale(now: int)
      requires Valid()
      modifies this
      ensures Valid() && buckets == PurgeBuckets(cfg, old(buckets), now)
      ensures forall k :: k in buckets <==>
        k in old(buckets) && old(buckets)[k] != [] && old(buckets)[k][|old(buckets)[k]| - 1] >= now - cfg.window
      ensures forall k :: k in buckets ==> buckets[k] == old(buckets)[k]
    {
      var cutoff := now - cfg.window;
      var rest := buckets.Keys;
      while rest != {}
        invariant rest <= old(buckets).Keys
        invariant forall k :: k in buckets <==> k in old(buckets) && (k in rest || !Stale(old(buckets)[k], cutoff))
        invariant forall k :: k in buckets ==> buckets[k] == old(buckets)[k]
      {
        var k :| k in rest;
        rest := rest - {k};
        if Stale(buckets[k], cutoff) { buckets := buckets - {k}; }
      }
    }
  }

  // ---- Purging and eviction are unobservable ----

  ghost predicate SortedUpTo(s: seq<int>, last: int) {
    && (forall i, j :: 0 <= i < j < |s| ==> s[i] <= s[j])
    && (forall i :: 0 <= i < |s| ==> s[i] <= last)
  }

  /** The bucket has forgotten only entries that no later window can reach. */
  ghost predicate Abstracts(cfg: Config, bucket: seq<int>, kept: seq<int>, last: int) {
    && SortedUpTo(kept, last)
    && |bucket| <= |kept| && bucket == kept[|kept| - |bucket|..]
    && forall i :: 0 <= i < |kept| - |bucket| ==> kept[i] < last - cfg.window
  }

  ghost predicate Refines(cfg: Config, b: Buckets, h: Buckets, last: int) {
    forall key :: Abstracts(cfg, Lookup(b, key), Lookup(h, key), last)
  }

  ghost predicate ClockMonotone(last: int, ops: seq<Op>) {
    forall i :: 0 <= i < |ops| ==> last <= ops[i].now && forall j :: i < j < |ops| ==> ops[i].now <= ops[j].now
  }

  /** On a sorted list the window is a contiguous slice. */
  lemma WithinSlice(s: seq<int>, last: int, from: int, to: int) returns (lo: nat, hi: nat)
    requires SortedUpTo(s, last)
    ensures lo <= hi <= |s| && Within(s, from, to) == s[lo..hi]
    ensures forall i :: 0 <= i < lo ==> s[i] < from
    ensures forall i :: lo <= i < hi ==> from <= s[i] <= to
    ensures forall i :: hi <= i < |s| ==> s[i] > to
  {
    lo := 0;
    while lo < |s| && s[lo] < from
      invariant lo <= |s| && forall i :: 0 <= i < lo ==> s[i] < from
    {
      lo := lo + 1;
    }
    hi := lo;
    while hi < |s| && s[hi] <= to
      invariant lo <= hi <= |s| && forall i :: lo <= i < hi ==> from <= s[i] <= to
    {
      hi := hi + 1;
    }
    WithinPieces(s, lo, hi, from, to);
  }

  lemma {:induction false} WithinPieces(s: seq<int>, lo: nat, hi: nat, from: int, to: int)
    requires lo <= hi <= |s|
    requires forall i :: 0 <= i < lo ==> s[i] < from
    requires forall i :: lo <= i < hi ==> from <= s[i] <= to
    requires forall i :: hi <= i < |s| ==> s[i] > to
    ensures Within(s, from, to) == s[lo..hi]
    decreases |s|
  {
    if lo > 0 {
      WithinPieces(s[1..], lo - 1, hi - 1, from, to);
      assert s[1..][lo - 1..hi - 1] == s[lo..hi];
    } else if hi > 0 {
      WithinPieces(s[1..], 0, hi - 1, from, to);
      assert [s[0]] + s[1..][..hi - 1] == s[..hi];
    } else if s != [] {
      WithinPieces(s[1..], 0, 0, from, to);
    }
  }

  /** Eviction cuts a sorted list where the window begins. */
  lemma EvictExact(s: seq<int>, last: int, start: int) returns (cutoff: nat)
    requires SortedUpTo(s, last)
    ensures cutoff <= |s| && Evict(s, start) == s[cutoff..] == Within(s, start, last)
    ensures forall i :: 0 <= i < cutoff ==> s[i] < start
  {
    var hi;
    cutoff, hi := WithinSlice(s, last, start, last);
    if hi < |s| { NotLater(s, last, hi); }
    EvictFrom(s, cutoff, start);
  }

  /** What survives eviction is exactly the reference limiter's window. */
  lemma LiveIsWindow(cfg: Config, bucket: seq<int>, kept: seq<int>, last: int, now: int)
    requires Usable(cfg) && Abstracts(cfg, bucket, kept, last) && last <= now
    ensures Evict(bucket, now - cfg.window) == Within(kept, now - cfg.window, now)
    ensures Abstracts(cfg, Evict(bucket, now - cfg.window), kept, now)
  {
    var d := |kept| - |bucket|;
    var start := now - cfg.window;
    SuffixSorted(kept, d, last, now);
    SplitWithin(kept, d, start, now);
    hide SortedUpTo, Within;
    var cutoff := EvictExact(bucket, now, start);
    EvictedAbstracts(cfg, bucket, kept, now, cutoff);
  }

  lemma SuffixSorted(s: seq<int>, d: nat, last: int, now: int)
    requires SortedUpTo(s, last) && d <= |s| && last <= now
    ensures SortedUpTo(s[d..], now) && SortedUpTo(s, now)
  {
    var t := s[d..];
    assert forall i :: 0 <= i < |t| ==> t[i] == s[d + i];
  }

  lemma {:induction false} SplitWithin(kept: seq<int>, d: nat, from: int, to: int)
    requires d <= |kept| && forall i :: 0 <= i < d ==> kept[i] < from
    ensures Within(kept, from, to) == Within(kept[d..], from, to)
    decreases d
  {
    if d > 0 {
      SplitWithin(kept[1..], d - 1, from, to);
      assert kept[1..][d - 1..] == kept[d..];
    }
  }

  lemma EvictedAbstracts(cfg: Config, bucket: seq<int>, kept: seq<int>, now: int, k: nat)
    requires SortedUpTo(kept, now) && k <= |bucket| <= |kept| && bucket == kept[|kept| - |bucket|..]
    requires forall i :: 0 <= i < |kept| - |bucket| ==> kept[i] < now - cfg.window
    requires forall i :: 0 <= i < k ==> bucket[i] < now - cfg.window
    ensures Abstracts(cfg, bucket[k..], kept, now)
  {
    var d := |kept| - |bucket|;
    forall i | 0 <= i < d + k ensures kept[i] < now - cfg.window {
      if i >= d { assert kept[i] == bucket[i - d]; }
    }
  }

  lemma AbstractsLater(cfg: Config, bucket: seq<int>, kept: seq<int>, last: int, now: int)
    requires Abstracts(cfg, bucket, kept, last) && last <= now
    ensures Abstracts(cfg, bucket, kept, now)
  {
  }

  lemma AbstractsAppend(cfg: Config, bucket: seq<int>, kept: seq<int>, now: int)
    requires Abstracts(cfg, bucket, kept, now)
    ensures Abstracts(cfg, bucket + [now], kept + [now], now)
  {
  }

  lemma AllowRefines(cfg: Config, bucket: seq<int>, kept: seq<int>, last: int, now: int)
    requires Usable(cfg) && Abstracts(cfg, bucket, kept, last) && last <= now
    ensures var live := Evict(bucket, now - cfg.window);
            && AllowVerdict(cfg, live, now) == Decide(cfg, kept, now)
            && Abstracts(cfg, if |live| >= cfg.limit then live else live + [now],
                         if Decide(cfg, kept, now).allowed then kept + [now] else kept, now)
  {
    hide Abstracts;
    var live := Evict(bucket, now - cfg.window);
    LiveIsWindow(cfg, bucket, kept, last, now);
    AbstractsAppend(cfg, live, kept, now);
  }

  lemma AllowStepRefines(cfg: Config, b: Buckets, h: Buckets, last: int, key: string, now: int)
    requires Usable(cfg) && Refines(cfg, b, h, last) && last <= now
    ensures Refines(cfg, AllowBuckets(cfg, b, key, now), ReferenceStep(cfg, h, Allow(key, now)), now)
    ensures AllowVerdict(cfg, Evict(Lookup(b, key), now - cfg.window), now) == Decide(cfg, Lookup(h, key), now)
  {
    hide Abstracts, Decide, AllowVerdict;
    AllowRefines(cfg, Lookup(b, key), Lookup(h, key), last, now);
    var b', h' := AllowBuckets(cfg, b, key, now), ReferenceStep(cfg, h, Allow(key, now));
    forall k ensures Abstracts(cfg, Lookup(b', k), Lookup(h', k), now) {
      if k != key {
        assert Lookup(b', k) == Lookup(b, k) && Lookup(h', k) == Lookup(h, k);
        AbstractsLater(cfg, Lookup(b, k), Lookup(h, k), last, now);
      }
    }
  }

  lemma PurgeStepRefines(cfg: Config, b: Buckets, h: Buckets, last: int, now: int)
    requires Usable(cfg) && Refines(cfg, b, h, last) && last <= now
    ensures Refines(cfg, PurgeBuckets(cfg, b, now), h, now)
  {
    hide Abstracts;
    forall k ensures Abstracts(cfg, Lookup(PurgeBuckets(cfg, b, now), k), Lookup(h, k), now) {
      AbstractsLater(cfg, Lookup(b, k), Lookup(h, k), last, now);
      if k in b && Stale(b[k], now - cfg.window) {
        DropStale(cfg, b[k], Lookup(h, k), now);
      }
    }
  }

  lemma DropStale(cfg: Config, bucket: seq<int>, kept: seq<int>, now: int)
    requires Abstracts(cfg, bucket, kept, now) && Stale(bucket, now - cfg.window)
    ensures Abstracts(cfg, [], kept, now)
  {
    if bucket != [] {
      assert bucket[|bucket| - 1] == kept[|kept| - 1];
    }
  }

  lemma ClockTail(last: int, ops: seq<Op>)
    requires ClockMonotone(last, ops) && ops != []
    ensures last <= ops[0].now && ClockMonotone(ops[0].now, ops[1..])
  {
    var rest := ops[1..];
    assert forall i :: 0 <= i < |rest| ==> rest[i] == ops[i + 1];
  }

  /** On every interleaving of requests and purges over any keys, with a clock that does not run
      backwards, the limiter answers exactly like the reference limiter. */
  lemma {:induction false} PurgingIsUnobservable(cfg: Config, b: Buckets, h: Buckets, last: int, ops: seq<Op>)
    requires Usable(cfg) && Refines(cfg, b, h, last) && ClockMonotone(last, ops)
    ensures Outcomes(cfg, b, ops) == ReferenceOutcomes(cfg, h, ops)
    decreases |ops|
  {
    hide Refines, Decide, AllowVerdict, AllowBuckets, PurgeBuckets, Lookup, ClockMonotone;
    if ops != [] {
      ClockTail(last, ops);
      var b', h' := Step(cfg, b, ops[0]), ReferenceStep(cfg, h, ops[0]);
      match ops[0] {
        case Allow(key, now) =>
          AllowStepRefines(cfg, b, h, last, key, now);
        case Purge(now) =>
          PurgeStepRefines(cfg, b, h, last, now);
      }
      PurgingIsUnobservable(cfg, b', h', ops[0].now, ops[1..]);
    }
  }

  lemma EmptyRefines(cfg: Config, last: int)
    ensures Refines(cfg, map[], map[], last)
  {
    assert forall key: string :: Lookup<string, int>(map[], key) == [];
  }

  /** The case of a fresh limiter. */
  lemma LimiterMatchesReference(cfg: Config, last: int, ops: seq<Op>)
    requires Usable(cfg) && ClockMonotone(last, ops)
    ensures Outcomes(cfg, map[], ops) == ReferenceOutcomes(cfg, map[], ops)
  {
    EmptyRefines(cfg, last);
    PurgingIsUnobservable(cfg, map[], map[], last, ops);
  }

  lemma StepRefines(cfg: Config, b: Buckets, h: Buckets, last: int, op: Op, key: string)
    requires Usable(cfg) && Refines(cfg, b, h, last) && last <= op.now
    ensures Refines(cfg, Step(cfg, b, op), ReferenceStep(cfg, h, op), op.now)
    ensures Lookup(ReferenceStep(cfg, h, op), key) ==
            if Admits(cfg, b, op, key) then Lookup(h, key) + [op.now] else Lookup(h, key)
  {
    hide Refines, Decide, AllowVerdict, AllowBuckets, PurgeBuckets;
    match op {
      case Allow(k, now) => AllowStepRefines(cfg, b, h, last, k, now);
      case Purge(now) => PurgeStepRefines(cfg, b, h, last, now);
    }
  }

  ghost predicate Extends(after: seq<int>, before: seq<int>, more: seq<int>) {
    after == before + more
  }

  /** The reference limiter's history is the list of requests that the limiter admitted. */
  lemma {:induction false} AdmittedIsHistory(cfg: Config, b: Buckets, h: Buckets, last: int, ops: seq<Op>, key: string)
    requires Usable(cfg) && Refines(cfg, b, h, last) && ClockMonotone(last, ops)
    ensures Extends(Lookup(ReferenceRun(cfg, h, ops), key), Lookup(h, key), Admitted(cfg, b, ops, key))
    decreases |ops|
  {
    hide Refines, Admits, ReferenceStep, Step, Lookup, ClockMonotone;
    if ops != [] {
      ClockTail(last, ops);
      StepRefines(cfg, b, h, last, ops[0], key);
      AdmittedIsHistory(cfg, Step(cfg, b, ops[0]), ReferenceStep(cfg, h, ops[0]), ops[0].now, ops[1..], key);
    }
  }

  // ---- What the window guarantees ----

  /** Any `limit + 1` consecutive allowed requests span more than a window. */
  ghost predicate Spaced(cfg: Config, s: seq<int>) {
    forall i, j :: 0 <= i < j < |s| && j == i + cfg.limit ==> s[j] > s[i] + cfg.window
  }

  ghost predicate Sound(cfg: Config, h: Buckets, last: int) {
    forall key :: SortedUpTo(Lookup(h, key), last) && Spaced(cfg, Lookup(h, key))
  }

  /** The exact admission rule: a request is allowed iff fewer than `limit` requests were ever
      allowed, or the `limit`-th most recent one has left the window. */
  lemma AdmissionRule(cfg: Config, kept: seq<int>, now: int)
    requires Usable(cfg) && SortedUpTo(kept, now)
    ensures Decide(cfg, kept, now).allowed <==>
            |kept| < cfg.limit || now > kept[|kept| - cfg.limit] + cfg.window
    ensures !Decide(cfg, kept, now).allowed && Spaced(cfg, kept) ==>
            Decide(cfg, kept, now).resetAt == kept[|kept| - cfg.limit] + cfg.window
  {
    var lo, hi := WithinSlice(kept, now, now - cfg.window, now);
    if hi < |kept| { NotLater(kept, now, hi); }
    if hi - lo > cfg.limit && Spaced(cfg, kept) {
      SpacedAt(cfg, kept, lo);
    }
  }

  lemma NotLater(s: seq<int>, last: int, i: nat)
    requires SortedUpTo(s, last) && i < |s|
    ensures s[i] <= last
  {
  }

  lemma SpacedAt(cfg: Config, s: seq<int>, i: nat)
    requires Usable(cfg) && Spaced(cfg, s) && i + cfg.limit < |s|
    ensures s[i + cfg.limit] > s[i] + cfg.window
  {
  }

  lemma AppendSpaced(cfg: Config, kept: seq<int>, last: int, now: int)
    requires Usable(cfg) && SortedUpTo(kept, last) && Spaced(cfg, kept) && last <= now
    requires |kept| < cfg.limit || now > kept[|kept| - cfg.limit] + cfg.window
    ensures SortedUpTo(kept + [now], now) && Spaced(cfg, kept + [now])
  {
  }

  lemma StepSound(cfg: Config, h: Buckets, last: int, op: Op)
    requires Usable(cfg) && Sound(cfg, h, last) && last <= op.now
    ensures Sound(cfg, ReferenceStep(cfg, h, op), op.now)
  {
    hide Decide, SortedUpTo, Spaced;
    var h' := ReferenceStep(cfg, h, op);
    forall key ensures SortedUpTo(Lookup(h', key), op.now) && Spaced(cfg, Lookup(h', key)) {
      var kept := Lookup(h, key);
      assert SortedUpTo(kept, last) && Spaced(cfg, kept);
      SuffixSorted(kept, 0, last, op.now);
      AdmissionRule(cfg, kept, op.now);
      if Decide(cfg, kept, op.now).allowed {
        AppendSpaced(cfg, kept, last, op.now);
      }
    }
  }

  lemma {:induction false} RunSound(cfg: Config, h: Buckets, last: int, ops: seq<Op>)
    requires Usable(cfg) && Sound(cfg, h, last) && ClockMonotone(last, ops)
    ensures Sound(cfg, ReferenceRun(cfg, h, ops), if ops == [] then last else ops[|ops| - 1].now)
    decreases |ops|
  {
    hide Sound, ReferenceStep, ClockMonotone;
    if ops != [] {
      ClockTail(last, ops);
      StepSound(cfg, h, last, ops[0]);
      RunSound(cfg, ReferenceStep(cfg, h, ops[0]), ops[0].now, ops[1..]);
    }
  }

  lemma SpacedWindow(cfg: Config, kept: seq<int>, last: int, from: int)
    requires Usable(cfg) && SortedUpTo(kept, last) && Spaced(cfg, kept)
    ensures |Within(kept, from, from + cfg.window)| <= cfg.limit
  {
    var lo, hi := WithinSlice(kept, last, from, from + cfg.window);
    if hi - lo > cfg.limit {
      SpacedAt(cfg, kept, lo);
    }
  }

  /** Over any run from an empty limiter, no closed interval of one window length contains more
      than `limit` allowed requests of one key. */
  lemma NoWindowOverflows(cfg: Config, ops: seq<Op>, last: int, key: string, from: int)
    requires Usable(cfg) && ClockMonotone(last, ops)
    ensures |Within(Admitted(cfg, map[], ops, key), from, from + cfg.window)| <= cfg.limit
  {
    hide SortedUpTo, Spaced, Refines;
    var end := if ops == [] then last else ops[|ops| - 1].now;
    EmptyRefines(cfg, last);
    assert Sound(cfg, map[], last) by { EmptySound(cfg, last); }
    RunSound(cfg, map[], last, ops);
    AdmittedIsHistory(cfg, map[], map[], last, ops, key);
    var kept := Lookup(ReferenceRun(cfg, map[], ops), key);
    assert Lookup<string, int>(map[], key) == [] && kept == Admitted(cfg, map[], ops, key);
    SpacedWindow(cfg, kept, end, from);
  }

  lemma EmptySound(cfg: Config, last: int)
    ensures Sound(cfg, map[], last)
  {
    assert forall key: string :: Lookup<string, int>(map[], key) == [];
  }

  /** The key is at its limit until `reset`. */
  ghost predicate Blocked(cfg: Config, kept: seq<int>, reset: int)
    requires Usable(cfg)
  {
    |kept| >= cfg.limit && reset == kept[|kept| - cfg.limit] + cfg.window
  }

  lemma {:induction false} BlockedStays(cfg: Config, h: Buckets, key: string, last: int, ops: seq<Op>, reset: int)
    requires Usable(cfg) && SortedUpTo(Lookup(h, key), last) && ClockMonotone(last, ops)
    requires Blocked(cfg, Lookup(h, key), reset)
    requires forall i :: 0 <= i < |ops| && ops[i].Allow? && ops[i].key == key ==> ops[i].now <= reset
    ensures forall o :: o in ReferenceOutcomes(cfg, h, ops) && o.key == key ==> !o.verdict.allowed
    ensures Lookup(ReferenceRun(cfg, h, ops), key) == Lookup(h, key)
    decreases |ops|
  {
    hide Decide, SortedUpTo, ClockMonotone;
    if ops != [] {
      ClockTail(last, ops);
      var op, h' := ops[0], ReferenceStep(cfg, h, ops[0]);
      SuffixSorted(Lookup(h, key), 0, last, op.now);
      AdmissionRule(cfg, Lookup(h, key), op.now);
      assert Lookup(h', key) == Lookup(h, key);
      BlockedStays(cfg, h', key, op.now, ops[1..], reset);
    }
  }

  /** After a denial at `now`, every request on the key up to and including `resetAt` is denied and
      leaves no trace, whatever else happens; the first one strictly later is allowed. */
  lemma DeniedUntilReset(cfg: Config, h: Buckets, key: string, now: int, ops: seq<Op>, t: int)
    requires Usable(cfg) && Sound(cfg, h, now) && ClockMonotone(now, ops) && now <= t
    requires !Decide(cfg, Lookup(h, key), now).allowed
    requires forall i :: 0 <= i < |ops| && ops[i].Allow? && ops[i].key == key ==>
      ops[i].now <= Decide(cfg, Lookup(h, key), now).resetAt
    ensures forall o :: o in ReferenceOutcomes(cfg, h, ops) && o.key == key ==> !o.verdict.allowed
    ensures Decide(cfg, Lookup(ReferenceRun(cfg, h, ops), key), t).allowed <==>
            t > Decide(cfg, Lookup(h, key), now).resetAt
  {
    var kept := Lookup(h, key);
    assert SortedUpTo(kept, now) && Spaced(cfg, kept);
    AdmissionRule(cfg, kept, now);
    AdmissionRule(cfg, kept, t);
    hide Decide;
    BlockedStays(cfg, h, key, now, ops, Decide(cfg, kept, now).resetAt);
  }

  // ---- The same, for the limiter itself ----

  function BucketsAfter(cfg: Config, b: Buckets, ops: seq<Op>): Buckets
    requires Usable(cfg)
    decreases |ops|
  {
    if ops == [] then b else BucketsAfter(cfg, Step(cfg, b, ops[0]), ops[1..])
  }

  function LastNow(last: int, ops: seq<Op>): int {
    if ops == [] then last else ops[|ops| - 1].now
  }

  lemma LastNowTail(last: int, ops: seq<Op>)
    ensures LastNow(last, ops) == if ops == [] then last else LastNow(ops[0].now, ops[1..])
  {
  }

  /** In every reachable state the buckets abstract a sound history. */
  lemma {:induction false} Reachable(cfg: Config, b: Buckets, h: Buckets, last: int, ops: seq<Op>)
    requires Usable(cfg) && Refines(cfg, b, h, last) && Sound(cfg, h, last) && ClockMonotone(last, ops)
    ensures Refines(cfg, BucketsAfter(cfg, b, ops), ReferenceRun(cfg, h, ops), LastNow(last, ops))
    ensures Sound(cfg, ReferenceRun(cfg, h, ops), LastNow(last, ops))
    decreases |ops|
  {
    hide Refines, Sound, Step, ReferenceStep, ClockMonotone, LastNow;
    LastNowTail(last, ops);
    if ops != [] {
      ClockTail(last, ops);
      StepRefines(cfg, b, h, last, ops[0], "");
      StepSound(cfg, h, last, ops[0]);
      Reachable(cfg, Step(cfg, b, ops[0]), ReferenceStep(cfg, h, ops[0]), ops[0].now, ops[1..]);
    }
  }

  lemma {:induction false} ReferenceSnoc(cfg: Config, h: Buckets, ops: seq<Op>, key: string, t: int)
    requires Usable(cfg)
    ensures ReferenceOutcomes(cfg, h, ops + [Allow(key, t)]) ==
            ReferenceOutcomes(cfg, h, ops) + [Outcome(key, Decide(cfg, Lookup(ReferenceRun(cfg, h, ops), key), t))]
    decreases |ops|
  {
    hide Decide, Lookup;
    var all := ops + [Allow(key, t)];
    if ops == [] {
      assert all[1..] == [];
    } else {
      assert all[0] == ops[0] && all[1..] == ops[1..] + [Allow(key, t)];
      ReferenceSnoc(cfg, ReferenceStep(cfg, h, ops[0]), ops[1..], key, t);
    }
  }

  lemma ClockSplit(last: int, a: seq<Op>, b: seq<Op>)
    requires ClockMonotone(last, a + b)
    ensures ClockMonotone(last, a) && ClockMonotone(LastNow(last, a), b)
  {
    var c := a + b;
    assert forall i :: 0 <= i < |a| ==> c[i] == a[i];
    assert forall i :: 0 <= i < |b| ==> c[|a| + i] == b[i];
  }

  /** What the limiter answers to a request on `key` at `now` after the run `past`. */
  function AnswerAfter(cfg: Config, past: seq<Op>, key: string, now: int): Verdict
    requires Usable(cfg)
  {
    AllowVerdict(cfg, Evict(Lookup(BucketsAfter(cfg, map[], past), key), now - cfg.window), now)
  }

  lemma DeniedState(cfg: Config, start: int, past: seq<Op>, key: string, now: int) returns (h: Buckets)
    requires Usable(cfg) && ClockMonotone(start, past + [Allow(key, now)])
    requires !AnswerAfter(cfg, past, key, now).allowed
    ensures Refines(cfg, AllowBuckets(cfg, BucketsAfter(cfg, map[], past), key, now), h, now) && Sound(cfg, h, now)
    ensures Decide(cfg, Lookup(h, key), now) == AnswerAfter(cfg, past, key, now)
  {
    hide Refines, Sound, Decide, AllowVerdict, AllowBuckets;
    ClockSplit(start, past, [Allow(key, now)]);
    EmptyRefines(cfg, start);
    EmptySound(cfg, start);
    Reachable(cfg, map[], map[], start, past);
    h := ReferenceRun(cfg, map[], past);
    assert [Allow(key, now)][0].now == now && LastNow(start, past) <= now;
    AllowStepRefines(cfg, BucketsAfter(cfg, map[], past), h, LastNow(start, past), key, now);
    StepSound(cfg, h, LastNow(start, past), Allow(key, now));
  }

  /** After any run, if the limiter denies a request, it denies every further request on that key
      up to and including the announced reset time and allows the first one after it, whatever
      requests on other keys and purges come in between. */
  lemma LimiterDeniesUntilReset(cfg: Config, start: int, past: seq<Op>, key: string, now: int, ops: seq<Op>, t: int)
    requires Usable(cfg) && ClockMonotone(start, (past + [Allow(key, now)]) + (ops + [Allow(key, t)]))
    requires !AnswerAfter(cfg, past, key, now).allowed
    requires forall i :: 0 <= i < |ops| && ops[i].Allow? && ops[i].key == key ==>
      ops[i].now <= AnswerAfter(cfg, past, key, now).resetAt
    ensures var b := AllowBuckets(cfg, BucketsAfter(cfg, map[], past), key, now);
            var out := Outcomes(cfg, b, ops + [Allow(key, t)]);
            && out != [] && (out[|out| - 1].verdict.allowed <==> t > AnswerAfter(cfg, past, key, now).resetAt)
            && forall o :: o in out[..|out| - 1] && o.key == key ==> !o.verdict.allowed
  {
    hide Refines, Sound, Decide, AllowBuckets, AnswerAfter;
    var before, after := past + [Allow(key, now)], ops + [Allow(key, t)];
    ClockSplit(start, before, after);
    var h := DeniedState(cfg, start, past, key, now);
    PurgingIsUnobservable(cfg, AllowBuckets(cfg, BucketsAfter(cfg, map[], past), key, now), h, now, after);
    ReferenceSnoc(cfg, h, ops, key, t);
    ClockSplit(now, ops, [Allow(key, t)]);
    assert after[|ops|].now == t;
    DeniedUntilReset(cfg, h, key, now, ops, t);
    var out := ReferenceOutcomes(cfg, h, after);
    assert out[..|out| - 1] == ReferenceOutcomes(cfg, h, ops);
  }

  // ---- The window and the remaining requests, by counting ----

  /** The window keeps exactly the timestamps between its ends, as often as they occur. */
  lemma {:induction false} WindowCounts(s: seq<int>, from: int, to: int, x: int)
    ensures multiset(Within(s, from, to))[x] == if from <= x <= to then multiset(s)[x] else 0
    decreases |s|
  {
    if s != [] {
      WindowCounts(s[1..], from, to, x);
      assert s == [s[0]] + s[1..];
    }
  }

  function Repeat(x: int, k: nat): seq<int> {
    if k == 0 then [] else Repeat(x, k - 1) + [x]
  }

  lemma {:induction false} WithinSnoc(s: seq<int>, from: int, to: int, x: int)
    requires from <= x <= to
    ensures Within(s + [x], from, to) == Within(s, from, to) + [x]
    decreases |s|
  {
    if s == [] {
      assert (s + [x])[1..] == [];
    } else {
      assert (s + [x])[0] == s[0] && (s + [x])[1..] == s[1..] + [x];
      WithinSnoc(s[1..], from, to, x);
    }
  }

  lemma {:induction false} BurstInWindow(cfg: Config, kept: seq<int>, now: int, k: nat)
    requires Usable(cfg)
    ensures |Within(kept + Repeat(now, k), now - cfg.window, now)| == |Within(kept, now - cfg.window, now)| + k
    decreases k
  {
    if k == 0 {
      assert kept + Repeat(now, k) == kept;
    } else {
      BurstInWindow(cfg, kept, now, k - 1);
      assert kept + Repeat(now, k) == kept + Repeat(now, k - 1) + [now];
      WithinSnoc(kept + Repeat(now, k - 1), now - cfg.window, now, now);
    }
  }

  /** `Remaining` is exact: of any number of further requests at the same moment, just so many pass. */
  lemma RemainingIsExact(cfg: Config, kept: seq<int>, now: int, k: nat)
    requires Usable(cfg) && Decide(cfg, kept, now).allowed
    ensures Decide(cfg, kept + Repeat(now, k + 1), now).allowed <==> k < Decide(cfg, kept, now).remaining
    ensures 0 <= Decide(cfg, kept, now).remaining < cfg.limit
  {
    BurstInWindow(cfg, kept, now, k + 1);
  }

  /** A denial leaves nothing over. */
  lemma DeniedLeavesNothing(cfg: Config, kept: seq<int>, now: int)
    requires Usable(cfg) && !Decide(cfg, kept, now).allowed
    ensures Decide(cfg, kept, now).remaining == 0 && Decide(cfg, kept, now).limit == cfg.limit
  {
  }
}
