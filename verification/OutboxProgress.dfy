/** How fast the outbox moves: a bound on how long an event can wait, and draining. */
module OutboxProgress {
  import opened Shared
  import opened EventBus
  import opened Outbox

  /** Rows that arrived since the last fetch, then one batch of attempts. */
  datatype Batch = Batch(arrivals: seq<Row>, log: seq<Attempt>)

  function IdsOf(log: seq<Attempt>): (ids: seq<nat>)
    ensures |ids| == |log| && forall i :: 0 <= i < |log| ==> ids[i] == log[i].id
  {
    seq(|log|, i requires 0 <= i < |log| => log[i].id)
  }

  /** One worker, batch after batch, on the table the previous batch left behind. */
  ghost predicate IsBatchRun(cfg: Config, tables: seq<Table>, batches: seq<Batch>) {
    && |tables| == |batches| + 1
    && forall i :: 0 <= i < |batches| ==>
         IsFetch(cfg, tables[i] + batches[i].arrivals, IdsOf(batches[i].log))
         && tables[i + 1] == AppliedAll(tables[i] + batches[i].arrivals, batches[i].log)
  }

  /** How many marks of one batch were lost. */
  function LostIn(log: seq<Attempt>): nat {
    if log == [] then 0 else LostIn(log[..|log| - 1]) + (if log[|log| - 1].marked then 0 else 1)
  }

  /** How many marks of a run were lost. */
  function LostMarks(batches: seq<Batch>): nat {
    if batches == [] then 0 else LostIn(batches[0].log) + LostMarks(batches[1..])
  }

  /** The attempts a row can still absorb; rows stamped after `stamp` (if given) do not count. */
  function Weight(cfg: Config, r: Row, stamp: Option<int>): nat {
    if Eligible(cfg, r) && (stamp.Some? ==> r.createdAt <= stamp.value) then cfg.maxRetries - r.retryCount else 0
  }

  function Work(cfg: Config, t: Table, stamp: Option<int>): nat {
    if t == [] then 0 else Work(cfg, t[..|t| - 1], stamp) + Weight(cfg, t[|t| - 1], stamp)
  }

  lemma {:induction false} WorkUpdate(cfg: Config, t: Table, i: nat, r: Row, stamp: Option<int>)
    requires i < |t|
    ensures Work(cfg, t[i := r], stamp) + Weight(cfg, t[i], stamp) == Work(cfg, t, stamp) + Weight(cfg, r, stamp)
    decreases |t|
  {
    var n := |t| - 1;
    if i < n {
      WorkUpdate(cfg, t[..n], i, r, stamp);
      assert t[i := r][..n] == t[..n][i := r];
    } else {
      assert t[i := r][..n] == t[..n];
    }
  }

  lemma {:induction false} WorkIgnores(cfg: Config, t: Table, more: seq<Row>, stamp: Option<int>)
    requires forall r :: r in more ==> Weight(cfg, r, stamp) == 0
    ensures Work(cfg, t + more, stamp) == Work(cfg, t, stamp)
    decreases |more|
  {
    if more == [] {
      assert t + more == t;
    } else {
      var n := |more| - 1;
      assert (t + more)[..|t + more| - 1] == t + more[..n];
      WorkIgnores(cfg, t, more[..n], stamp);
    }
  }

  lemma {:induction false} WorkCovers(cfg: Config, t: Table, i: nat, stamp: Option<int>)
    requires i < |t|
    ensures Work(cfg, t, stamp) >= Weight(cfg, t[i], stamp)
  {
    if i < |t| - 1 { WorkCovers(cfg, t[..|t| - 1], i, stamp); }
  }

  lemma {:induction false} OthersUntouched(t: Table, log: seq<Attempt>, id: nat)
    requires id < |t| && forall k :: 0 <= k < |log| ==> log[k].id != id
    ensures AppliedAll(t, log)[id] == t[id]
    decreases |log|
  {
    if log != [] { OthersUntouched(t, log[..|log| - 1], id); }
  }

  lemma AttemptUsesWork(cfg: Config, t: Table, a: Attempt, stamp: Option<int>)
    requires a.marked && a.id < |t| && Weight(cfg, t[a.id], stamp) > 0
    ensures Work(cfg, Applied(t, a), stamp) + 1 <= Work(cfg, t, stamp)
  {
    hide Succeeds;
    var r := if Succeeds(a) then MarkPublished(t[a.id]) else MarkFailed(t[a.id]);
    WorkUpdate(cfg, t, a.id, r, stamp);
  }

  /** The attempts of one batch each use up at least one unit of work, unless their mark is lost. */
  lemma {:induction false} BatchUsesWork(cfg: Config, t: Table, log: seq<Attempt>, stamp: Option<int>)
    requires NoDup(IdsOf(log))
    requires forall k :: 0 <= k < |log| ==> log[k].id < |t| && Weight(cfg, t[log[k].id], stamp) > 0
    ensures Work(cfg, AppliedAll(t, log), stamp) + |log| <= Work(cfg, t, stamp) + LostIn(log)
    ensures LostIn(log) <= |log|
    decreases |log|
  {
    hide Weight;
    if log != [] {
      var n := |log| - 1;
      var init, a := log[..n], log[n];
      assert IdsOf(init) == IdsOf(log)[..n];
      BatchUsesWork(cfg, t, init, stamp);
      forall k | 0 <= k < |init| ensures init[k].id != a.id {
        assert IdsOf(log)[k] != IdsOf(log)[n];
      }
      OthersUntouched(t, init, a.id);
      if a.marked {
        hide Applied;
        AttemptUsesWork(cfg, AppliedAll(t, init), a, stamp);
      }
    }
  }

  /** Work of the rows competing with `e`: eligible, other than `e`, stamped no later. */
  function Competition(cfg: Config, t: Table, e: nat): int
    requires e < |t|
  {
    Work(cfg, t, Some(t[e].createdAt)) - Weight(cfg, t[e], Some(t[e].createdAt))
  }

  /** A batch that does not attempt `e` leaves it alone and uses a full batch of its competition, lost
      marks aside. */
  lemma PassedOver(cfg: Config, t: Table, b: Batch, e: nat)
    requires Usable(cfg) && e < |t| && Eligible(cfg, t[e]) && e !in IdsOf(b.log)
    requires IsFetch(cfg, t + b.arrivals, IdsOf(b.log))
    requires forall r :: r in b.arrivals ==> r.createdAt > t[e].createdAt
    ensures var t' := AppliedAll(t + b.arrivals, b.log);
            t'[e] == t[e] && Competition(cfg, t', e) + cfg.batchSize <= Competition(cfg, t, e) + LostIn(b.log)
  {
    var u, ids, stamp := t + b.arrivals, IdsOf(b.log), Some(t[e].createdAt);
    WorkIgnores(cfg, t, b.arrivals, stamp);
    assert u[e] == t[e] && Eligible(cfg, u[e]);
    forall k | 0 <= k < |b.log|
      ensures b.log[k].id < |u| && Weight(cfg, u[b.log[k].id], stamp) > 0 && b.log[k].id != e
    {
      assert ids[k] in ids;
    }
    BatchUsesWork(cfg, u, b.log, stamp);
    OthersUntouched(u, b.log, e);
  }

  lemma RunTail(cfg: Config, tables: seq<Table>, batches: seq<Batch>)
    requires IsBatchRun(cfg, tables, batches) && batches != []
    ensures |tables| == |batches| + 1 && IsFetch(cfg, tables[0] + batches[0].arrivals, IdsOf(batches[0].log))
    ensures tables[1] == AppliedAll(tables[0] + batches[0].arrivals, batches[0].log)
    ensures IsBatchRun(cfg, tables[1..], batches[1..])
  {
    hide IsFetch;
  }

  lemma LaterArrivals(batches: seq<Batch>, stamp: int)
    requires batches != []
    requires forall i, r :: 0 <= i < |batches| && r in batches[i].arrivals ==> r.createdAt > stamp
    ensures forall i, r :: 0 <= i < |batches[1..]| && r in batches[1..][i].arrivals ==> r.createdAt > stamp
  {
    assert forall i :: 0 <= i < |batches[1..]| ==> batches[1..][i] == batches[i + 1];
  }

  /** The competition and the lost marks bound the wait. */
  lemma {:induction false} AttemptedInTime(cfg: Config, tables: seq<Table>, batches: seq<Batch>, e: nat)
    returns (b: nat)
    requires Usable(cfg) && IsBatchRun(cfg, tables, batches)
    requires e < |tables[0]| && Eligible(cfg, tables[0][e])
    requires forall i, r :: 0 <= i < |batches| && r in batches[i].arrivals ==> r.createdAt > tables[0][e].createdAt
    requires |batches| * cfg.batchSize > Competition(cfg, tables[0], e) + LostMarks(batches)
    ensures b < |batches| && e in IdsOf(batches[b].log)
    decreases |batches|
  {
    var stamp := Some(tables[0][e].createdAt);
    WorkCovers(cfg, tables[0], e, stamp);
    assert |batches| > 0;
    RunTail(cfg, tables, batches);
    hide IsBatchRun, IsFetch, Eligible, Weight;
    if e in IdsOf(batches[0].log) {
      b := 0;
    } else {
      PassedOver(cfg, tables[0], batches[0], e);
      Shorten(|batches|, cfg.batchSize);
      var ts, bs := tables[1..], batches[1..];
      LaterArrivals(batches, tables[0][e].createdAt);
      hide Work, AppliedAll, IdsOf;
      b := AttemptedInTime(cfg, ts, bs, e);
      b := b + 1;
    }
  }

  lemma Shorten(n: int, d: int)
    ensures (n - 1) * d == n * d - d
  {
  }

  /** How many other eligible rows are stamped no later than `e`. */
  function Rivals(cfg: Config, t: Table, e: nat, stamp: int): nat {
    if t == [] then 0 else
      var n := |t| - 1;
      Rivals(cfg, t[..n], e, stamp) + (if IsRival(cfg, t, e, stamp, n) then 1 else 0)
  }

  /** Row `i` is eligible, other than `e`, and stamped no later than `stamp`. */
  predicate IsRival(cfg: Config, t: Table, e: nat, stamp: int, i: nat)
    requires i < |t|
  {
    i != e && Eligible(cfg, t[i]) && t[i].createdAt <= stamp
  }

  ghost predicate CountsNatural(t: Table) {
    forall i :: 0 <= i < |t| ==> t[i].retryCount >= 0
  }

  lemma {:induction false} RivalsBoundWork(cfg: Config, t: Table, e: nat, stamp: int)
    requires Usable(cfg) && CountsNatural(t)
    ensures Work(cfg, t, Some(stamp)) <= Rivals(cfg, t, e, stamp) * cfg.maxRetries +
            if e < |t| then Weight(cfg, t[e], Some(stamp)) else 0
    decreases |t|
  {
    if t != [] {
      var n := |t| - 1;
      RivalsBoundWork(cfg, t[..n], e, stamp);
      Shorten(Rivals(cfg, t[..n], e, stamp) + 1, cfg.maxRetries);
    }
  }

  ghost function RivalSet(cfg: Config, t: Table, e: nat, stamp: int): set<nat> {
    set i: nat | i < |t| && IsRival(cfg, t, e, stamp, i)
  }

  lemma {:induction false} RivalsAreCounted(cfg: Config, t: Table, e: nat, stamp: int)
    ensures |RivalSet(cfg, t, e, stamp)| == Rivals(cfg, t, e, stamp)
    decreases |t|
  {
    hide Eligible;
    if t != [] {
      var n := |t| - 1;
      RivalsAreCounted(cfg, t[..n], e, stamp);
      var before, all := RivalSet(cfg, t[..n], e, stamp), RivalSet(cfg, t, e, stamp);
      assert n !in before;
      assert all == before + if IsRival(cfg, t, e, stamp, n) then {n} else {};
    }
  }

  lemma ArrivedLater(t: Table, arrivals: seq<Row>, stamp: int)
    requires forall r :: r in arrivals ==> r.createdAt > stamp
    ensures forall x :: |t| <= x < |t + arrivals| ==> (t + arrivals)[x].createdAt > stamp
  {
  }

  /** A fetch that leaves the event out is full of its rivals. */
  lemma FullOfRivals(cfg: Config, t: Table, arrivals: seq<Row>, ids: seq<nat>, e: nat)
    requires e < |t| && Eligible(cfg, t[e]) && IsFetch(cfg, t + arrivals, ids) && e !in ids
    requires forall r :: r in arrivals ==> r.createdAt > t[e].createdAt
    ensures cfg.batchSize <= Rivals(cfg, t, e, t[e].createdAt)
  {
    var u, stamp := t + arrivals, t[e].createdAt;
    assert u[e] == t[e];
    ArrivedLater(t, arrivals, stamp);
    forall x | x in ids ensures x in RivalSet(cfg, t, e, stamp) {
      var i :| 0 <= i < |ids| && ids[i] == x;
      assert u[x].createdAt <= stamp;
    }
    NoDupBound(ids, RivalSet(cfg, t, e, stamp));
    RivalsAreCounted(cfg, t, e, stamp);
  }

  /** With fewer rivals than a batch holds, every fetch contains the event, whatever happened to
      earlier marks and whatever has arrived with a later stamp. */
  lemma FewRivalsAreFetched(cfg: Config, t: Table, arrivals: seq<Row>, ids: seq<nat>, e: nat)
    requires e < |t| && Eligible(cfg, t[e]) && IsFetch(cfg, t + arrivals, ids)
    requires forall r :: r in arrivals ==> r.createdAt > t[e].createdAt
    requires Rivals(cfg, t, e, t[e].createdAt) < cfg.batchSize
    ensures e in ids
  {
    hide Eligible, IsFetch;
    if e !in ids { FullOfRivals(cfg, t, arrivals, ids, e); }
  }

  /** With one worker, only later-stamped arrivals and at most L lost marks, an eligible event with k
      eligible rivals is attempted within the first floor((k * MaxRetries + L) / BatchSize) + 1 batches,
      and in the very first one if the rivals leave room in it. */
  lemma StarvationBound(cfg: Config, tables: seq<Table>, batches: seq<Batch>, e: nat, lost: nat) returns (b: nat)
    requires Usable(cfg) && IsBatchRun(cfg, tables, batches) && LostMarks(batches) <= lost
    requires e < |tables[0]| && Eligible(cfg, tables[0][e]) && CountsNatural(tables[0])
    requires forall i, r :: 0 <= i < |batches| && r in batches[i].arrivals ==> r.createdAt > tables[0][e].createdAt
    requires |batches| ==
             (Rivals(cfg, tables[0], e, tables[0][e].createdAt) * cfg.maxRetries + lost) / cfg.batchSize + 1
    ensures b < |batches| && e in IdsOf(batches[b].log)
    ensures Rivals(cfg, tables[0], e, tables[0][e].createdAt) < cfg.batchSize ==> b == 0
  {
    var k := Rivals(cfg, tables[0], e, tables[0][e].createdAt);
    if k < cfg.batchSize {
      FewRivalsAreFetched(cfg, tables[0], batches[0].arrivals, IdsOf(batches[0].log), e);
      return 0;
    }
    RivalsBoundWork(cfg, tables[0], e, tables[0][e].createdAt);
    FloorPlusOne(k * cfg.maxRetries + lost, cfg.batchSize);
    b := AttemptedInTime(cfg, tables, batches, e);
  }

  lemma FloorPlusOne(x: int, d: int)
    requires d > 0
    ensures (x / d + 1) * d > x
  {
  }

  lemma {:induction false} NoWorkNothingEligible(cfg: Config, t: Table, i: nat)
    requires i < |t| && Work(cfg, t, None) == 0
    ensures !Eligible(cfg, t[i])
  {
    WorkCovers(cfg, t, i, None);
  }

  /** Without arrivals, a batch on a table with work left uses some of it or loses a mark. */
  lemma BatchAdvances(cfg: Config, t: Table, log: seq<Attempt>)
    requires Usable(cfg) && IsFetch(cfg, t, IdsOf(log))
    ensures var left := Work(cfg, AppliedAll(t, log), None);
            && left <= Work(cfg, t, None)
            && (Work(cfg, t, None) > 0 ==> left + 1 <= Work(cfg, t, None) + LostIn(log))
  {
    forall k | 0 <= k < |log| ensures log[k].id < |t| && Weight(cfg, t[log[k].id], None) > 0 {
      assert IdsOf(log)[k] == log[k].id;
    }
    BatchUsesWork(cfg, t, log, None);
    if log == [] {
      assert IdsOf(log) == [];
      NothingFetched(cfg, t);
    }
  }

  lemma {:induction false} NothingFetched(cfg: Config, t: Table)
    requires Usable(cfg) && IsFetch(cfg, t, [])
    ensures Work(cfg, t, None) == 0
  {
    forall i | 0 <= i < |t| ensures !Eligible(cfg, t[i]) {}
    AllIdle(cfg, t);
  }

  lemma {:induction false} AllIdle(cfg: Config, t: Table)
    requires forall i :: 0 <= i < |t| ==> !Eligible(cfg, t[i])
    ensures Work(cfg, t, None) == 0
  {
    if t != [] { AllIdle(cfg, t[..|t| - 1]); }
  }

  lemma {:induction false} WorkNeverGrows(cfg: Config, tables: seq<Table>, batches: seq<Batch>)
    requires Usable(cfg) && IsBatchRun(cfg, tables, batches)
    requires forall k :: 0 <= k < |batches| ==> batches[k].arrivals == []
    ensures Work(cfg, tables[|batches|], None) <= Work(cfg, tables[0], None)
    decreases |batches|
  {
    if batches != [] {
      assert tables[0] + batches[0].arrivals == tables[0];
      RunTail(cfg, tables, batches);
      hide IsBatchRun, IsFetch;
      BatchAdvances(cfg, tables[0], batches[0].log);
      WorkNeverGrows(cfg, tables[1..], batches[1..]);
    }
  }

  lemma {:induction false} WorkRunsOut(cfg: Config, tables: seq<Table>, batches: seq<Batch>)
    requires Usable(cfg) && IsBatchRun(cfg, tables, batches)
    requires forall k :: 0 <= k < |batches| ==> batches[k].arrivals == []
    requires |batches| >= Work(cfg, tables[0], None) + LostMarks(batches)
    ensures Work(cfg, tables[|batches|], None) == 0
    decreases |batches|
  {
    if Work(cfg, tables[0], None) == 0 {
      WorkNeverGrows(cfg, tables, batches);
    } else {
      assert tables[0] + batches[0].arrivals == tables[0];
      RunTail(cfg, tables, batches);
      hide IsBatchRun, IsFetch;
      BatchAdvances(cfg, tables[0], batches[0].log);
      WorkRunsOut(cfg, tables[1..], batches[1..]);
    }
  }

  /** Without arrivals the outbox drains: after as many batches as there was work, plus one for each
      lost mark, every row is published or out of retries (or in a status the worker never touches). */
  lemma Drains(cfg: Config, tables: seq<Table>, batches: seq<Batch>, i: nat)
    requires Usable(cfg) && IsBatchRun(cfg, tables, batches)
    requires forall k :: 0 <= k < |batches| ==> batches[k].arrivals == []
    requires |batches| >= Work(cfg, tables[0], None) + LostMarks(batches) && i < |tables[|batches|]|
    ensures var r := tables[|batches|][i];
            r.status == Published || r.status == Processing || r.retryCount >= cfg.maxRetries
  {
    WorkRunsOut(cfg, tables, batches);
    NoWorkNothingEligible(cfg, tables[|batches|], i);
  }

  // ---- Lost marks ----

  /** A run that the worker can make: every attempt invokes all matching callbacks. */
  ghost predicate IsWorkerRun(cfg: Config, tables: seq<Table>, batches: seq<Batch>) {
    && IsBatchRun(cfg, tables, batches)
    && forall i, k :: 0 <= i < |batches| && 0 <= k < |batches[i].log| ==>
         && batches[i].log[k].id < |tables[i] + batches[i].arrivals|
         && Complete(batches[i].log[k], (tables[i] + batches[i].arrivals)[batches[i].log[k].id].eventType)
  }

  /** A run of the worker on `t` that never attempts `e`, although all arrivals are stamped later. */
  ghost predicate PassesOver(cfg: Config, t: Table, e: nat, tables: seq<Table>, batches: seq<Batch>)
    requires e < |t|
  {
    && IsWorkerRun(cfg, tables, batches) && tables[0] == t
    && (forall i, r :: 0 <= i < |batches| && r in batches[i].arrivals ==> r.createdAt > t[e].createdAt)
    && forall i :: 0 <= i < |batches| ==> e !in IdsOf(batches[i].log)
  }

  /** Some run of `n` batches leaves `e` waiting. */
  ghost predicate CanWait(cfg: Config, t: Table, e: nat, n: nat)
    requires e < |t|
  {
    exists tables, batches :: PassesOver(cfg, t, e, tables, batches) && |batches| == n
  }

  /** The attempts all fail and their marks are all lost. */
  ghost predicate AllLost(batches: seq<Batch>) {
    forall i, k :: 0 <= i < |batches| && 0 <= k < |batches[i].log| ==>
      !batches[i].log[k].marked && !Succeeds(batches[i].log[k])
  }

  /** An attempt at which a subscriber to everything fails, and whose mark is lost. */
  lemma LostAttempt(id: nat, eventType: string) returns (a: Attempt)
    ensures a.id == id && !a.marked && !Succeeds(a) && Complete(a, eventType)
  {
    var hs: Handlers := map["*" := [Handler(0)]];
    var order := ["*"];
    var invoked := Lookup(hs, eventType) + WildTargets(hs, order, eventType);
    assert order[..0] == [] && WildTargets(hs, order, eventType) == [Handler(0)];
    assert Enumerates(order, hs.Keys) && CollectsTo(hs, eventType, invoked);
    a := Attempt(id, hs, invoked, seq(|invoked|, _ => Failed), false);
    assert a.outcomes[0] == Failed;
  }

  lemma Earliest(t: Table, s: set<nat>) returns (i: nat)
    requires s != {} && forall x :: x in s ==> x < |t|
    ensures i in s && forall x :: x in s ==> t[i].createdAt <= t[x].createdAt
  {
    i :| i in s;
    if s != {i} {
      var j := Earliest(t, s - {i});
      if t[j].createdAt < t[i].createdAt { i := j; }
    }
  }

  /** The `m` earliest members of `s`, in order of their stamps. */
  ghost predicate AreEarliest(t: Table, s: set<nat>, ids: seq<nat>, m: nat) {
    && NoDup(ids) && |ids| == m && (forall x :: x in s ==> x < |t|)
    && (forall i :: 0 <= i < m ==> ids[i] in s)
    && (forall i, j :: 0 <= i < j < m ==> t[ids[i]].createdAt <= t[ids[j]].createdAt)
    && (forall x, i :: x in s && x !in ids && 0 <= i < m ==> t[ids[i]].createdAt <= t[x].createdAt)
  }

  lemma SomeLeft(s: set<nat>, taken: set<nat>)
    requires |taken| < |s|
    ensures s - taken != {}
  {
    if s <= taken {
      SubsetSize(s, taken);
    } else {
      var x :| x in s && x !in taken;
      assert x in s - taken;
    }
  }

  lemma {:induction false} TakeEarliest(t: Table, s: set<nat>, m: nat) returns (ids: seq<nat>)
    requires m <= |s| && forall x :: x in s ==> x < |t|
    ensures AreEarliest(t, s, ids, m)
    decreases m
  {
    if m == 0 {
      ids := [];
    } else {
      var init := TakeEarliest(t, s, m - 1);
      NoDupLength(init);
      var rest := s - Elems(init);
      SomeLeft(s, Elems(init));
      var next := Earliest(t, rest);
      ids := init + [next];
      assert next !in init by { assert next !in Elems(init); }
      forall x, i | x in s && x !in ids && 0 <= i < m ensures t[ids[i]].createdAt <= t[x].createdAt {
        if i == m - 1 { assert x in rest; }
      }
    }
  }

  /** Enough rivals to fill a batch make a fetch without the event possible. */
  lemma FetchOfRivals(cfg: Config, t: Table, e: nat) returns (ids: seq<nat>)
    requires Usable(cfg) && e < |t| && Rivals(cfg, t, e, t[e].createdAt) >= cfg.batchSize
    ensures IsFetch(cfg, t, ids) && e !in ids
  {
    var s := RivalSet(cfg, t, e, t[e].createdAt);
    RivalsAreCounted(cfg, t, e, t[e].createdAt);
    ids := TakeEarliest(t, s, cfg.batchSize);
  }

  lemma {:induction false} LostChangesNothing(t: Table, log: seq<Attempt>)
    requires forall k :: 0 <= k < |log| ==> !log[k].marked
    ensures AppliedAll(t, log) == t
    decreases |log|
  {
    if log != [] { LostChangesNothing(t, log[..|log| - 1]); }
  }

  lemma {:induction false} LostLog(t: Table, ids: seq<nat>) returns (log: seq<Attempt>)
    requires forall i :: 0 <= i < |ids| ==> ids[i] < |t|
    ensures IdsOf(log) == ids
    ensures forall k :: 0 <= k < |log| ==>
      !log[k].marked && !Succeeds(log[k]) && log[k].id < |t| && Complete(log[k], t[log[k].id].eventType)
    decreases |ids|
  {
    hide Complete, Succeeds;
    if ids == [] {
      log := [];
    } else {
      var n := |ids| - 1;
      var init := LostLog(t, ids[..n]);
      var a := LostAttempt(ids[n], t[ids[n]].eventType);
      log := init + [a];
      assert IdsOf(log) == IdsOf(init) + [ids[n]] == ids;
    }
  }

  lemma RepeatedBatch(cfg: Config, t: Table, b: Batch, tables: seq<Table>, batches: seq<Batch>)
    requires IsFetch(cfg, t + b.arrivals, IdsOf(b.log)) && AppliedAll(t + b.arrivals, b.log) == t
    requires |tables| == |batches| + 1 && (forall i :: 0 <= i < |tables| ==> tables[i] == t)
    requires forall i :: 0 <= i < |batches| ==> batches[i] == b
    ensures IsBatchRun(cfg, tables, batches)
  {
    hide IsFetch, AppliedAll;
  }

  lemma RepeatedAttempts(cfg: Config, t: Table, b: Batch, tables: seq<Table>, batches: seq<Batch>)
    requires IsBatchRun(cfg, tables, batches) && b.arrivals == []
    requires forall i :: 0 <= i < |batches| ==> tables[i] == t && batches[i] == b
    requires forall k :: 0 <= k < |b.log| ==>
      !b.log[k].marked && !Succeeds(b.log[k]) && b.log[k].id < |t| && Complete(b.log[k], t[b.log[k].id].eventType)
    ensures IsWorkerRun(cfg, tables, batches) && AllLost(batches)
  {
    hide IsBatchRun, Complete, Succeeds;
    assert t + b.arrivals == t;
  }

  /** While failures go unrecorded, rivals that fill a batch can keep the event waiting for any
      number of batches. */
  lemma LostMarksStarve(cfg: Config, t: Table, e: nat, n: nat) returns (tables: seq<Table>, batches: seq<Batch>)
    requires Usable(cfg) && e < |t| && Rivals(cfg, t, e, t[e].createdAt) >= cfg.batchSize
    ensures PassesOver(cfg, t, e, tables, batches) && |batches| == n && AllLost(batches)
  {
    hide IsFetch, Complete, Succeeds, AppliedAll, IsBatchRun, IsWorkerRun, AllLost, Rivals;
    var ids := FetchOfRivals(cfg, t, e);
    FetchInRange(cfg, t, ids);
    var log := LostLog(t, ids);
    LostChangesNothing(t, log);
    var b := Batch([], log);
    assert t + b.arrivals == t;
    tables, batches := seq(n + 1, _ => t), seq(n, _ => b);
    RepeatedBatch(cfg, t, b, tables, batches);
    RepeatedAttempts(cfg, t, b, tables, batches);
  }

  /** The exact condition: an eligible event can be kept waiting for any number of batches if and only
      if its rivals fill a batch; otherwise it is in every fetch. */
  lemma CanWaitForeverIff(cfg: Config, t: Table, e: nat)
    requires Usable(cfg) && e < |t| && Eligible(cfg, t[e])
    ensures (forall n: nat :: CanWait(cfg, t, e, n)) <==> Rivals(cfg, t, e, t[e].createdAt) >= cfg.batchSize
    ensures CanWait(cfg, t, e, 1) <==> Rivals(cfg, t, e, t[e].createdAt) >= cfg.batchSize
  {
    hide PassesOver, Eligible;
    if Rivals(cfg, t, e, t[e].createdAt) >= cfg.batchSize {
      forall n: nat ensures CanWait(cfg, t, e, n) {
        var tables, batches := LostMarksStarve(cfg, t, e, n);
      }
    } else if CanWait(cfg, t, e, 1) {
      var tables, batches :| PassesOver(cfg, t, e, tables, batches) && |batches| == 1;
      FirstBatchTakesIt(cfg, t, e, tables, batches);
    }
  }

  lemma FirstBatchTakesIt(cfg: Config, t: Table, e: nat, tables: seq<Table>, batches: seq<Batch>)
    requires e < |t| && Eligible(cfg, t[e]) && Rivals(cfg, t, e, t[e].createdAt) < cfg.batchSize && batches != []
    ensures !PassesOver(cfg, t, e, tables, batches)
  {
    hide Eligible;
    if PassesOver(cfg, t, e, tables, batches) {
      FewRivalsAreFetched(cfg, t, batches[0].arrivals, IdsOf(batches[0].log), e);
    }
  }
}
