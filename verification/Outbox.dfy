/** The transactional outbox: the table updates of `internal/core/repository/postgres/sqlc/outbox.sql.go`
    and the worker of `internal/core/worker/outbox_worker.go`. One worker; a row is named by its
    position in insertion order, which stands for its primary key. */
module Outbox {
  import opened Shared
  import opened EventBus

  datatype Status = Pending | Processing | Published | FailedBefore

  datatype Row = Row(eventType: string, createdAt: int, status: Status, retryCount: int)

  type Table = seq<Row>

  datatype Config = Config(batchSize: int, maxRetries: int)

  /** The defaults applied by `NewOutboxWorker`. */
  function Normalize(cfg: Config): Config {
    Config(if cfg.batchSize <= 0 then 50 else cfg.batchSize, if cfg.maxRetries <= 0 then 5 else cfg.maxRetries)
  }

  predicate Usable(cfg: Config) {
    cfg.batchSize > 0 && cfg.maxRetries > 0
  }

  /** The WHERE clause of the fetch. */
  predicate Eligible(cfg: Config, r: Row) {
    (r.status == Pending || r.status == FailedBefore) && r.retryCount < cfg.maxRetries
  }

  /** A result of the fetch: distinct eligible rows, oldest first, at most a batch; whatever
      eligible row is left out, the batch is full of rows stamped no later. */
  ghost predicate IsFetch(cfg: Config, t: Table, ids: seq<nat>) {
    && NoDup(ids) && |ids| <= cfg.batchSize
    && (forall i :: 0 <= i < |ids| ==> ids[i] < |t| && Eligible(cfg, t[ids[i]]))
    && (forall i, j :: 0 <= i < j < |ids| ==> t[ids[i]].createdAt <= t[ids[j]].createdAt)
    && (forall k :: 0 <= k < |t| && Eligible(cfg, t[k]) && k !in ids ==>
          |ids| == cfg.batchSize && forall i :: 0 <= i < |ids| ==> t[ids[i]].createdAt <= t[k].createdAt)
  }

  function MarkFailed(r: Row): Row {
    r.(status := FailedBefore, retryCount := r.retryCount + 1)
  }

  function MarkPublished(r: Row): Row {
    r.(status := Published)
  }

  /** One publication attempt by the worker, and whether the mark that followed was stored. */
  datatype Attempt = Attempt(id: nat, handlers: Handlers, invoked: seq<Handler>, outcomes: seq<Outcome>, marked: bool)

  predicate Succeeds(a: Attempt) {
    forall i :: 0 <= i < |a.outcomes| ==> a.outcomes[i] == Succeeded
  }

  /** Every matching callback ran, in some order, and reported its outcome. */
  ghost predicate Complete(a: Attempt, eventType: string) {
    CollectsTo(a.handlers, eventType, a.invoked) && |a.outcomes| == |a.invoked|
  }

  function Applied(t: Table, a: Attempt): (t': Table)
    ensures |t'| == |t|
  {
    if !a.marked || a.id >= |t| then t
    else t[a.id := if Succeeds(a) then MarkPublished(t[a.id]) else MarkFailed(t[a.id])]
  }

  function AppliedAll(t: Table, log: seq<Attempt>): (t': Table)
    ensures |t'| == |t|
    decreases |log|
  {
    if log == [] then t else Applied(AppliedAll(t, log[..|log| - 1]), log[|log| - 1])
  }

  /** How many attempts ended in a stored publication mark: the worker's return value. */
  function Deliveries(log: seq<Attempt>): nat {
    if log == [] then 0
    else Deliveries(log[..|log| - 1]) + (if Succeeds(log[|log| - 1]) && log[|log| - 1].marked then 1 else 0)
  }

  lemma AppliedOneMore(t: Table, log: seq<Attempt>, a: Attempt)
    ensures AppliedAll(t, log + [a]) == Applied(AppliedAll(t, log), a)
  {
    assert (log + [a])[..|log|] == log;
  }

  // ---- The worker ----

  function Observed(behave: nat -> Outcome, n: nat): (o: seq<Outcome>)
    ensures |o| == n && forall j :: 0 <= j < n ==> o[j] == behave(j)
  {
    seq(n, (j: nat) => behave(j))
  }

  /** `a` is the worker's attempt at row `id` of `t`. */
  ghost predicate Records(a: Attempt, t: Table, id: nat, behave: nat -> Outcome, mark: bool) {
    && a.id == id < |t| && Complete(a, t[id].eventType)
    && a.outcomes == Observed(behave, |a.invoked|) && a.marked == mark
  }

  ghost predicate SameEvents(t: Table, u: Table) {
    |t| == |u| && forall k :: 0 <= k < |t| ==> t[k].eventType == u[k].eventType
  }

  /** `log` holds the worker's attempts at the rows `ids`, in order. */
  ghost predicate AllRecorded(log: seq<Attempt>, t: Table, ids: seq<nat>, behave: nat -> nat -> Outcome,
                              markWorks: nat -> bool) {
    |log| == |ids| && forall i :: 0 <= i < |log| ==> Records(log[i], t, ids[i], behave(i), markWorks(i))
  }

  lemma RecordedOneMore(log: seq<Attempt>, t: Table, ids: seq<nat>, i: nat, behave: nat -> nat -> Outcome,
                        markWorks: nat -> bool, a: Attempt)
    requires i < |ids| && AllRecorded(log, t, ids[..i], behave, markWorks)
    requires Records(a, t, ids[i], behave(i), markWorks(i))
    ensures AllRecorded(log + [a], t, ids[..i + 1], behave, markWorks)
  {
    hide Records;
  }

  lemma DeliveriesOneMore(log: seq<Attempt>, a: Attempt)
    ensures Deliveries(log + [a]) == Deliveries(log) + if Succeeds(a) && a.marked then 1 else 0
  {
    assert (log + [a])[..|log|] == log;
  }

  lemma FetchInRange(cfg: Config, t: Table, ids: seq<nat>)
    requires IsFetch(cfg, t, ids)
    ensures forall k :: 0 <= k < |ids| ==> ids[k] < |t|
  {
  }

  class OutboxWorker {
    const cfg: Config
    const bus: InMemoryBus
    var table: Table

    constructor (cfg: Config, bus: InMemoryBus, table: Table)
      ensures this.cfg == Normalize(cfg) && Usable(this.cfg) && this.bus == bus && this.table == table
      ensures this.cfg.batchSize == (if cfg.batchSize > 0 then cfg.batchSize else 50)
      ensures this.cfg.maxRetries == (if cfg.maxRetries > 0 then cfg.maxRetries else 5)
    {
      this.cfg, this.bus, this.table := Normalize(cfg), bus, table;
    }

    /** Publish one row and record the result. */
    method ProcessOne(id: nat, behave: nat -> Outcome, markWorks: bool) returns (a: Attempt, delivered: bool)
      requires id < |table|
      modifies this
      ensures Records(a, old(table), id, behave, markWorks) && table == Applied(old(table), a)
      ensures delivered <==> Succeeds(a) && a.marked
      ensures var r := old(table)[id];
              && |table| == |old(table)| && (forall k :: 0 <= k < |table| && k != id ==> table[k] == old(table)[k])
              && table[id] == (if !markWorks then r
                               else if Succeeds(a) then Row(r.eventType, r.createdAt, Published, r.retryCount)
                               else Row(r.eventType, r.createdAt, FailedBefore, r.retryCount + 1))
    {
      hide CollectsTo;
      var invoked, errors := bus.Publish(table[id].eventType, behave);
      a := Attempt(id, bus.handlers, invoked, Observed(behave, |invoked|), markWorks);
      assert errors == 0 <==> Succeeds(a);
      delivered := false;
      if errors > 0 {
        if markWorks { table := table[id := MarkFailed(table[id])]; }
      } else if markWorks {
        table := table[id := MarkPublished(table[id])];
        delivered := true;
      }
    }

    /** One batch. `fetch` is the answer of the query (or its error), `behave(i)(j)` the end of the
        j-th callback of the i-th event, `markWorks(i)` whether the i-th mark is stored. */
    method ProcessBatch(fetch: Option<seq<nat>>, behave: nat -> nat -> Outcome, markWorks: nat -> bool)
      returns (processed: nat, log: seq<Attempt>)
      requires Usable(cfg) && (fetch.Some? ==> IsFetch(cfg, table, fetch.value))
      modifies this
      ensures fetch.None? ==> log == [] && table == old(table)
      ensures fetch.Some? ==> AllRecorded(log, old(table), fetch.value, behave, markWorks)
      ensures table == AppliedAll(old(table), log) && processed == Deliveries(log)
    {
      hide IsFetch, Records, AllRecorded, Applied, AppliedAll, Succeeds;
      processed, log := 0, [];
      NothingYet(table, behave, markWorks);
      if fetch.None? { return; }
      var ids := fetch.value;
      FetchInRange(cfg, table, ids);
      for i := 0 to |ids|
        invariant AllRecorded(log, old(table), ids[..i], behave, markWorks)
        invariant table == AppliedAll(old(table), log) && SameEvents(old(table), table)
        invariant processed == Deliveries(log)
      {
        ghost var before := table;
        var a, delivered := ProcessOne(ids[i], behave(i), markWorks(i));
        RecordsAgree(a, before, old(table), ids[i], behave(i), markWorks(i));
        RecordedOneMore(log, old(table), ids, i, behave, markWorks, a);
        AppliedOneMore(old(table), log, a);
        DeliveriesOneMore(log, a);
        log := log + [a];
        if delivered { processed := processed + 1; }
      }
      assert ids[..|ids|] == ids;
    }
  }

  lemma NothingYet(t: Table, behave: nat -> nat -> Outcome, markWorks: nat -> bool)
    ensures AllRecorded([], t, [], behave, markWorks) && AppliedAll(t, []) == t
  {
  }

  lemma RecordsAgree(a: Attempt, t: Table, t0: Table, id: nat, behave: nat -> Outcome, mark: bool)
    requires Records(a, t, id, behave, mark) && SameEvents(t0, t)
    ensures Records(a, t0, id, behave, mark) && SameEvents(t0, Applied(t, a))
  {
  }
}
