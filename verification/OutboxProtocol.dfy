/** What every single-worker run of the outbox guarantees: safety with failing callbacks, failing
    marks, arrivals and restarts at any point; progress when marks are stored. */
module OutboxProtocol {
  import opened Shared
  import opened Outbox

  /** `queue` holds the fetched rows the worker still has to attempt; `log` every attempt so far. */
  datatype State = State(table: Table, queue: seq<nat>, log: seq<Attempt>)

  datatype Event =
    | Arrive(row: Row)
    | Fetch(ids: seq<nat>)
    | Take(attempt: Attempt)
    | Restart

  ghost predicate Step(cfg: Config, s: State, e: Event, s': State) {
    match e
    case Arrive(row) =>
      row.status == Pending && row.retryCount == 0 && s' == s.(table := s.table + [row])
    case Fetch(ids) =>
      s.queue == [] && IsFetch(cfg, s.table, ids) && s' == s.(queue := ids)
    case Take(a) =>
      && s.queue != [] && a.id == s.queue[0] < |s.table| && Complete(a, s.table[a.id].eventType)
      && s' == State(Applied(s.table, a), s.queue[1..], s.log + [a])
    case Restart =>
      s' == s.(queue := [])
  }

  ghost predicate IsRun(cfg: Config, states: seq<State>, events: seq<Event>) {
    && |states| == |events| + 1 && states[0] == State([], [], [])
    && forall i :: 0 <= i < |events| ==> Step(cfg, states[i], events[i], states[i + 1])
  }

  /** Recorded failures of one row. */
  ghost function Failures(log: seq<Attempt>, id: nat): nat {
    if log == [] then 0 else
      var a := log[|log| - 1];
      Failures(log[..|log| - 1], id) + (if a.id == id && a.marked && !Succeeds(a) then 1 else 0)
  }

  ghost predicate Delivered(log: seq<Attempt>, id: nat) {
    exists k :: 0 <= k < |log| && log[k].id == id && log[k].marked && Succeeds(log[k])
  }

  /** A row agrees with what has happened to it. */
  ghost predicate RowAgrees(cfg: Config, t: Table, log: seq<Attempt>, id: nat)
    requires id < |t|
  {
    && t[id].retryCount == Failures(log, id) <= cfg.maxRetries
    && (t[id].status == Published <==> Delivered(log, id))
    && t[id].status != Processing
  }

  ghost predicate QueueOk(cfg: Config, s: State) {
    && NoDup(s.queue)
    && forall i :: 0 <= i < |s.queue| ==> s.queue[i] < |s.table| && Eligible(cfg, s.table[s.queue[i]])
  }

  ghost predicate LogOk(s: State) {
    forall k :: 0 <= k < |s.log| ==> s.log[k].id < |s.table| && Complete(s.log[k], s.table[s.log[k].id].eventType)
  }

  ghost predicate Inv(cfg: Config, s: State) {
    QueueOk(cfg, s) && LogOk(s) && forall id :: 0 <= id < |s.table| ==> RowAgrees(cfg, s.table, s.log, id)
  }

  lemma FailuresAppend(log: seq<Attempt>, a: Attempt, id: nat)
    ensures Failures(log + [a], id) == Failures(log, id) + if a.id == id && a.marked && !Succeeds(a) then 1 else 0
    ensures Delivered(log + [a], id) <==> Delivered(log, id) || (a.id == id && a.marked && Succeeds(a))
  {
    var log' := log + [a];
    assert log'[..|log'| - 1] == log && log'[|log|] == a;
    if Delivered(log, id) {
      var k :| 0 <= k < |log| && log[k].id == id && log[k].marked && Succeeds(log[k]);
      assert log'[k] == log[k];
    }
  }

  lemma {:induction false} Untouched(log: seq<Attempt>, id: nat)
    requires forall k :: 0 <= k < |log| ==> log[k].id != id
    ensures Failures(log, id) == 0 && !Delivered(log, id)
  {
    if log != [] { Untouched(log[..|log| - 1], id); }
  }

  lemma ArriveKeeps(cfg: Config, s: State, row: Row, s': State)
    requires Usable(cfg) && Inv(cfg, s) && Step(cfg, s, Arrive(row), s')
    ensures Inv(cfg, s')
  {
    hide Complete, Eligible, Delivered;
    forall id | 0 <= id < |s'.table| ensures RowAgrees(cfg, s'.table, s'.log, id) {
      if id < |s.table| {
        assert RowAgrees(cfg, s.table, s.log, id);
      } else {
        Untouched(s.log, id);
      }
    }
  }

  lemma TakeKeepsRows(cfg: Config, s: State, a: Attempt, id: nat)
    requires Inv(cfg, s) && s.queue != [] && a.id == s.queue[0] && id < |s.table|
    ensures RowAgrees(cfg, Applied(s.table, a), s.log + [a], id)
  {
    hide LogOk, Delivered, Succeeds;
    assert RowAgrees(cfg, s.table, s.log, id) && RowAgrees(cfg, s.table, s.log, a.id);
    FailuresAppend(s.log, a, id);
  }

  lemma TakeKeeps(cfg: Config, s: State, a: Attempt, s': State)
    requires Inv(cfg, s) && Step(cfg, s, Take(a), s')
    ensures Inv(cfg, s')
  {
    forall id | 0 <= id < |s'.table| ensures RowAgrees(cfg, s'.table, s'.log, id) { TakeKeepsRows(cfg, s, a, id); }
    hide Complete, Eligible, RowAgrees, Succeeds;
    forall i | 0 <= i < |s'.queue|
      ensures s'.queue[i] < |s'.table| && Eligible(cfg, s'.table[s'.queue[i]])
    {
      assert s'.queue[i] == s.queue[i + 1] != s.queue[0];
    }
  }

  lemma StepKeepsInv(cfg: Config, s: State, e: Event, s': State)
    requires Usable(cfg) && Inv(cfg, s) && Step(cfg, s, e, s')
    ensures Inv(cfg, s')
  {
    match e
    case Arrive(row) => ArriveKeeps(cfg, s, row, s');
    case Take(a) => TakeKeeps(cfg, s, a, s');
    case Fetch(_) => RefetchKeeps(cfg, s, s');
    case Restart => RefetchKeeps(cfg, s, s');
  }

  lemma RefetchKeeps(cfg: Config, s: State, s': State)
    requires Inv(cfg, s) && s' == s.(queue := s'.queue) && (s'.queue == [] || IsFetch(cfg, s.table, s'.queue))
    ensures Inv(cfg, s')
  {
    hide RowAgrees, Complete, Eligible;
  }

  lemma {:induction false} RunKeepsInv(cfg: Config, states: seq<State>, events: seq<Event>, i: nat)
    requires Usable(cfg) && IsRun(cfg, states, events) && i < |states|
    ensures Inv(cfg, states[i])
    decreases i
  {
    hide Inv, Step;
    if i > 0 {
      RunKeepsInv(cfg, states, events, i - 1);
      StepKeepsInv(cfg, states[i - 1], events[i - 1], states[i]);
    } else {
      StartsOk(cfg);
    }
  }

  lemma StartsOk(cfg: Config)
    ensures Inv(cfg, State([], [], []))
  {
  }

  /** A row is marked published only after one publication ran every matching callback, all
      successfully. */
  lemma PublishedOnlyAfterSuccess(cfg: Config, states: seq<State>, events: seq<Event>, i: nat, id: nat)
    requires Usable(cfg) && IsRun(cfg, states, events) && i < |states| && id < |states[i].table|
    requires states[i].table[id].status == Published
    ensures exists k :: 0 <= k < |states[i].log| && states[i].log[k].id == id && states[i].log[k].marked
                        && Succeeds(states[i].log[k]) && Complete(states[i].log[k], states[i].table[id].eventType)
  {
    RunKeepsInv(cfg, states, events, i);
    hide Complete, Succeeds, IsRun;
    var s := states[i];
    assert RowAgrees(cfg, s.table, s.log, id);
    var k :| 0 <= k < |s.log| && s.log[k].id == id && s.log[k].marked && Succeeds(s.log[k]);
    assert Complete(s.log[k], s.table[s.log[k].id].eventType);
  }

  /** The retry count is the number of recorded failures and never exceeds the configured maximum. */
  lemma RetriesAreCounted(cfg: Config, states: seq<State>, events: seq<Event>, i: nat, id: nat)
    requires Usable(cfg) && IsRun(cfg, states, events) && i < |states| && id < |states[i].table|
    ensures states[i].table[id].retryCount == Failures(states[i].log, id) <= cfg.maxRetries
  {
    RunKeepsInv(cfg, states, events, i);
    hide IsRun;
    assert RowAgrees(cfg, states[i].table, states[i].log, id);
  }

  lemma PublishedStays(cfg: Config, s: State, e: Event, s': State, id: nat)
    requires Inv(cfg, s) && Step(cfg, s, e, s') && id < |s.table| && s.table[id].status == Published
    ensures id < |s'.table| && s'.table[id] == s.table[id]
  {
    if e.Take? {
      assert Eligible(cfg, s.table[s.queue[0]]);
    }
  }

  /** Published is absorbing: from then on the row never changes again. */
  lemma {:induction false} PublishedIsAbsorbing(cfg: Config, states: seq<State>, events: seq<Event>,
                                                i: nat, j: nat, id: nat)
    requires Usable(cfg) && IsRun(cfg, states, events) && i <= j < |states| && id < |states[i].table|
    requires states[i].table[id].status == Published
    ensures id < |states[j].table| && states[j].table[id] == states[i].table[id]
    decreases j
  {
    hide Inv, Step;
    if i < j {
      PublishedIsAbsorbing(cfg, states, events, i, j - 1, id);
      RunKeepsInv(cfg, states, events, j - 1);
      PublishedStays(cfg, states[j - 1], events[j - 1], states[j], id);
    }
  }

  // ---- A batch of the worker is a run of the protocol ----

  lemma {:induction false} AppliedKeepsEvents(t: Table, log: seq<Attempt>)
    ensures SameEvents(t, AppliedAll(t, log))
    decreases |log|
  {
    if log != [] { AppliedKeepsEvents(t, log[..|log| - 1]); }
  }

  /** The protocol state after the first `k` attempts of a batch. */
  ghost function Midway(s: State, ids: seq<nat>, log: seq<Attempt>, k: nat): State
    requires k <= |ids| == |log|
  {
    State(AppliedAll(s.table, log[..k]), ids[k..], s.log + log[..k])
  }

  lemma TakeStep(cfg: Config, s: State, ids: seq<nat>, log: seq<Attempt>, k: nat)
    requires k < |ids| == |log| && log[k].id == ids[k] < |s.table| && Complete(log[k], s.table[ids[k]].eventType)
    ensures Step(cfg, Midway(s, ids, log, k), Take(log[k]), Midway(s, ids, log, k + 1))
  {
    hide Complete;
    AppliedKeepsEvents(s.table, log[..k]);
    AppliedOneMore(s.table, log[..k], log[k]);
    assert log[..k] + [log[k]] == log[..k + 1];
    assert s.log + log[..k] + [log[k]] == s.log + log[..k + 1];
  }

  lemma FetchStep(cfg: Config, s: State, ids: seq<nat>, log: seq<Attempt>)
    requires s.queue == [] && IsFetch(cfg, s.table, ids) && |log| == |ids|
    ensures Step(cfg, s, Fetch(ids), Midway(s, ids, log, 0))
    ensures Midway(s, ids, log, |ids|) == State(AppliedAll(s.table, log), [], s.log + log)
    ensures forall k :: 0 <= k < |ids| ==> ids[k] < |s.table|
  {
    hide Eligible, NoDup;
    assert log[..|ids|] == log && log[..0] == [] && ids[0..] == ids && s.log + [] == s.log;
  }

  /** What `ProcessBatch` does to the table, with its log of attempts, is one fetch followed by one
      step of the protocol per fetched row. */
  lemma BatchIsRun(cfg: Config, s: State, ids: seq<nat>, log: seq<Attempt>)
    returns (states: seq<State>, events: seq<Event>)
    requires s.queue == [] && IsFetch(cfg, s.table, ids) && |log| == |ids|
    requires forall k :: 0 <= k < |log| ==> log[k].id == ids[k] && Complete(log[k], s.table[ids[k]].eventType)
    ensures |states| == |events| + 1 && states[0] == s
    ensures forall i :: 0 <= i < |events| ==> Step(cfg, states[i], events[i], states[i + 1])
    ensures states[|events|] == State(AppliedAll(s.table, log), [], s.log + log)
  {
    var n := |ids|;
    var mids := seq(n + 1, k requires 0 <= k <= n => Midway(s, ids, log, k));
    var takes := seq(n, k requires 0 <= k < n => Take(log[k]));
    states, events := [s] + mids, [Fetch(ids)] + takes;
    FetchStep(cfg, s, ids, log);
    hide Step, Midway, IsFetch, Complete, AppliedAll;
    forall i | 0 <= i < |events| ensures Step(cfg, states[i], events[i], states[i + 1]) {
      if i > 0 { TakeStep(cfg, s, ids, log, i - 1); }
    }
  }
}
