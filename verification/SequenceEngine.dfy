/** The numbering counter: `ShouldReset` and `NextValue` of `internal/core/domain/sequence/sequence.go`,
    the normalisation of `CreateSequence`, and `AcquireNextNumber` of the PostgreSQL repository as
    begin / lock / compute / write / commit steps of interleaved clients. */
module SequenceEngine {
  import opened Shared
  import opened Calendar
  import opened NumberFormat

  datatype ResetPolicy = Never | Yearly | Monthly | Daily

  datatype Sequence = Sequence(
    prefix: string, suffix: string, template: string, padding: int,
    startValue: int, incrementBy: int, currentValue: int, policy: ResetPolicy,
    lastNumber: string, lastResetAt: Option<Time>, active: bool)

  // ---- The counter ----

  predicate ShouldReset(s: Sequence, now: Time)
    requires Valid(now) && (s.lastResetAt.Some? ==> Valid(s.lastResetAt.value))
  {
    if s.policy == Never || s.currentValue == 0 || s.lastResetAt.None? then false else
      var last := s.lastResetAt.value;
      match s.policy
      case Yearly => now.year != last.year
      case Monthly => now.year != last.year || now.month != last.month
      case Daily => now.year != last.year || YearDay(now) != YearDay(last)
      case Never => false
  }

  datatype Next = Next(value: int, wasReset: bool)

  function NextValue(s: Sequence, now: Time): Next
    requires Valid(now) && (s.lastResetAt.Some? ==> Valid(s.lastResetAt.value))
  {
    if ShouldReset(s, now) then Next(s.startValue, true)
    else if s.currentValue < s.startValue then Next(s.startValue, false)
    else Next(s.currentValue + (if s.incrementBy <= 0 then 1 else s.incrementBy), false)
  }

  /** Two instants belong to the same reset period. */
  predicate SamePeriod(policy: ResetPolicy, a: Time, b: Time) {
    match policy
    case Never => true
    case Yearly => a.year == b.year
    case Monthly => a.year == b.year && a.month == b.month
    case Daily => a.year == b.year && a.month == b.month && a.day == b.day
  }

  /** A counter resets exactly when it was used before and the period has changed since. */
  lemma ResetMeansNewPeriod(s: Sequence, now: Time)
    requires Valid(now) && (s.lastResetAt.Some? ==> Valid(s.lastResetAt.value))
    ensures ShouldReset(s, now) <==>
            s.currentValue != 0 && s.lastResetAt.Some? && !SamePeriod(s.policy, s.lastResetAt.value, now)
  {
    if s.lastResetAt.Some? && s.policy == Daily && now.year == s.lastResetAt.value.year {
      YearDayDetermines(now, s.lastResetAt.value);
    }
  }

  lemma SamePeriodTransitive(policy: ResetPolicy, a: Time, b: Time, c: Time)
    requires SamePeriod(policy, a, b)
    ensures SamePeriod(policy, a, c) <==> SamePeriod(policy, b, c)
    ensures SamePeriod(policy, b, a) && SamePeriod(policy, c, c)
  {
  }

  /** Periods are intervals of time. */
  lemma PeriodsAreConvex(policy: ResetPolicy, a: Time, b: Time, c: Time)
    requires NotAfter(a, b) && NotAfter(b, c) && SamePeriod(policy, a, c)
    ensures SamePeriod(policy, a, b) && SamePeriod(policy, b, c)
  {
  }

  datatype CreateCommand = CreateCommand(
    prefix: string, suffix: string, template: string, padding: int,
    startValue: int, incrementBy: int, policy: Option<ResetPolicy>)

  /** The row that `CreateSequence` inserts. */
  function Created(cmd: CreateCommand): (s: Sequence)
    ensures Fresh(s)
  {
    Sequence(cmd.prefix, cmd.suffix, EffectiveTemplate(cmd.template),
             if cmd.padding <= 0 then 4 else cmd.padding,
             if cmd.startValue <= 0 then 1 else cmd.startValue,
             if cmd.incrementBy <= 0 then 1 else cmd.incrementBy,
             0, if cmd.policy.None? then Never else cmd.policy.value, "", None, true)
  }

  /** What is given is kept; what is missing or not positive is filled in. */
  lemma CreatedKeeps(cmd: CreateCommand)
    ensures var s := Created(cmd);
            && s.prefix == cmd.prefix && s.suffix == cmd.suffix && s.active && s.lastNumber == ""
            && (cmd.template != "" ==> s.template == cmd.template)
            && (cmd.padding > 0 ==> s.padding == cmd.padding) && (cmd.padding <= 0 ==> s.padding == 4)
            && (cmd.startValue > 0 ==> s.startValue == cmd.startValue) && (cmd.startValue <= 0 ==> s.startValue == 1)
            && (cmd.incrementBy > 0 ==> s.incrementBy == cmd.incrementBy)
            && (cmd.incrementBy <= 0 ==> s.incrementBy == 1)
            && s.policy == (match cmd.policy case Some(p) => p case None => Never)
  {
  }

  /** A sequence created without a template gets the default one. */
  lemma DefaultIsFilledIn(cmd: CreateCommand)
    requires cmd.template == ""
    ensures Created(cmd).template == "{PREFIX}/{YYYY}/{MM}/{SEQ:4}"
  {
    assert "{MM}/" + "{SEQ:4}" == "{MM}/{SEQ:4}";
    assert "{YYYY}/" + "{MM}/{SEQ:4}" == "{YYYY}/{MM}/{SEQ:4}";
    assert "{PREFIX}/" + "{YYYY}/{MM}/{SEQ:4}" == "{PREFIX}/{YYYY}/{MM}/{SEQ:4}";
  }

  /** A normalised sequence that has issued nothing yet. */
  predicate Fresh(s: Sequence) {
    s.startValue >= 1 && s.incrementBy >= 1 && s.currentValue == 0 && s.lastResetAt.None?
  }

  // ---- Acquiring numbers ----

  function EnvOf(s: Sequence, now: Time, extra: map<string, string>, value: int): Env {
    Env(s.prefix, s.suffix, now, extra, value, s.padding)
  }

  /** The new row version written by `UpdateSequenceValue`. */
  function Advanced(s: Sequence, now: Time, text: string): Sequence
    requires Valid(now) && (s.lastResetAt.Some? ==> Valid(s.lastResetAt.value))
  {
    var next := NextValue(s, now);
    s.(currentValue := next.value, lastNumber := text,
       lastResetAt := if next.wasReset || s.lastResetAt.None? then Some(now) else s.lastResetAt)
  }

  /** Where one call of `AcquireNextNumber` stands; an absent client is outside the call. */
  datatype Phase =
    | Begun(extra: map<string, string>)
    | Locked(extra: map<string, string>, seen: Sequence)
    | Computed(extra: map<string, string>, seen: Sequence, now: Time, text: string)
    | Written(extra: map<string, string>, seen: Sequence, now: Time, text: string, row: Sequence)

  /** A number handed out by a committed call. */
  datatype Issue = Issue(value: int, at: Time, extra: map<string, string>, text: string)

  datatype System = System(
    row: Sequence, holder: Option<Id>, clients: map<Id, Phase>, clock: Time, issued: seq<Issue>)

  datatype Event =
    | Begin(c: Id, extra: map<string, string>)
    | Lock(c: Id)
    | Compute(c: Id, text: string)
    | Write(c: Id)
    | Commit(c: Id)
    | Abort(c: Id)
    | Tick(to: Time)
    | SetActive(active: bool)

  ghost predicate RowOk(s: Sequence) {
    s.lastResetAt.Some? ==> Valid(s.lastResetAt.value)
  }

  /** One atomic step. `Lock` waits for the row lock; it finds no row when the sequence is
      inactive, in which case only `Abort` is possible. `Abort` covers every rollback: a failed
      read, write or commit. `SetActive` is an administrator's update, which also needs the lock. */
  ghost predicate Step(s: System, e: Event, s': System) {
    match e
    case Begin(c, extra) =>
      c !in s.clients && s' == s.(clients := s.clients[c := Begun(extra)])
    case Lock(c) =>
      && c in s.clients && s.clients[c].Begun? && s.holder.None? && s.row.active
      && s' == s.(holder := Some(c), clients := s.clients[c := Locked(s.clients[c].extra, s.row)])
    case Compute(c, text) =>
      && c in s.clients && s.clients[c].Locked?
      && var p := s.clients[c];
         && RowOk(p.seen) && Valid(s.clock)
         && FormatsTo(p.seen.template, EnvOf(p.seen, s.clock, p.extra, NextValue(p.seen, s.clock).value), text)
         && s' == s.(clients := s.clients[c := Computed(p.extra, p.seen, s.clock, text)])
    case Write(c) =>
      && c in s.clients && s.clients[c].Computed?
      && var p := s.clients[c];
         && RowOk(p.seen) && Valid(p.now)
         && s' == s.(clients :=
              s.clients[c := Written(p.extra, p.seen, p.now, p.text, Advanced(p.seen, p.now, p.text))])
    case Commit(c) =>
      && c in s.clients && s.clients[c].Written?
      && var p := s.clients[c];
         s' == s.(row := p.row, holder := None, clients := s.clients - {c},
                  issued := s.issued + [Issue(p.row.currentValue, p.now, p.extra, p.text)])
    case Abort(c) =>
      && c in s.clients
      && s' == s.(clients := s.clients - {c}, holder := if s.holder == Some(c) then None else s.holder)
    case Tick(to) =>
      Valid(to) && NotAfter(s.clock, to) && s' == s.(clock := to)
    case SetActive(active) =>
      s.holder.None? && s' == s.(row := s.row.(active := active))
  }

  ghost predicate Initial(s: System) {
    Fresh(s.row) && s.holder.None? && s.clients == map[] && Valid(s.clock) && s.issued == []
  }

  ghost predicate IsRun(states: seq<System>, events: seq<Event>) {
    && |states| == |events| + 1 && Initial(states[0])
    && forall i :: 0 <= i < |events| ==> Step(states[i], events[i], states[i + 1])
  }

  // ---- What every run keeps ----

  /** How many of `log` fall into the period of `t`. */
  ghost function Earlier(policy: ResetPolicy, log: seq<Issue>, t: Time): nat {
    if log == [] then 0
    else Earlier(policy, log[..|log| - 1], t) + (if SamePeriod(policy, log[|log| - 1].at, t) then 1 else 0)
  }

  /** The k-th number of each period (k from 0) is `start + k * increment`. */
  ghost predicate Counted(cfg: Sequence, log: seq<Issue>) {
    forall i :: 0 <= i < |log| ==>
      log[i].value == cfg.startValue + Earlier(cfg.policy, log[..i], log[i].at) * cfg.incrementBy
  }

  ghost predicate Chronological(log: seq<Issue>, last: Time) {
    && (forall i :: 0 <= i < |log| ==> Valid(log[i].at) && NotAfter(log[i].at, last))
    && (forall i, j :: 0 <= i < j < |log| ==> NotAfter(log[i].at, log[j].at))
  }

  ghost predicate TextMatches(cfg: Sequence, i: Issue) {
    Valid(i.at) && FormatsTo(cfg.template, EnvOf(cfg, i.at, i.extra, i.value), i.text)
  }

  /** Every issued text is a formatting of its value. */
  ghost predicate Texts(cfg: Sequence, log: seq<Issue>) {
    forall i :: 0 <= i < |log| ==> TextMatches(cfg, log[i])
  }

  ghost predicate SameConfig(a: Sequence, b: Sequence) {
    a == b.(currentValue := a.currentValue, lastNumber := a.lastNumber,
            lastResetAt := a.lastResetAt, active := a.active)
  }

  /** The stored counter stands where the log of committed numbers says. */
  ghost predicate RowFollows(row: Sequence, log: seq<Issue>) {
    if log == [] then Fresh(row) else
      var last := log[|log| - 1];
      && row.startValue >= 1 && row.incrementBy >= 1
      && row.currentValue == last.value && last.value >= row.startValue
      && row.lastResetAt.Some? && Valid(row.lastResetAt.value)
      && SamePeriod(row.policy, row.lastResetAt.value, last.at)
  }

  ghost predicate LogOk(cfg: Sequence, row: Sequence, log: seq<Issue>, clock: Time) {
    && SameConfig(row, cfg) && RowFollows(row, log)
    && Counted(cfg, log) && Chronological(log, clock) && Texts(cfg, log)
  }

  /** Only the lock holder works on the row, and it sees the committed version. */
  ghost predicate PhaseOk(s: System, c: Id)
    requires c in s.clients
  {
    var p := s.clients[c];
    match p
    case Begun(_) => s.holder != Some(c)
    case Locked(_, seen) => s.holder == Some(c) && seen == s.row
    case Computed(extra, seen, now, text) =>
      && s.holder == Some(c) && seen == s.row && TextOk(s, extra, now, text)
    case Written(extra, seen, now, text, row) =>
      && s.holder == Some(c) && seen == s.row && TextOk(s, extra, now, text) && row == Advanced(seen, now, text)
  }

  ghost predicate TextOk(s: System, extra: map<string, string>, now: Time, text: string) {
    && RowOk(s.row) && Valid(now) && NotAfter(now, s.clock)
    && (forall i :: 0 <= i < |s.issued| ==> NotAfter(s.issued[i].at, now))
    && FormatsTo(s.row.template, EnvOf(s.row, now, extra, NextValue(s.row, now).value), text)
  }

  ghost predicate Inv(cfg: Sequence, s: System) {
    && Valid(s.clock) && LogOk(cfg, s.row, s.issued, s.clock)
    && (s.holder.Some? ==> s.holder.value in s.clients)
    && forall c :: c in s.clients ==> PhaseOk(s, c)
  }

  lemma {:induction false} EarlierNone(policy: ResetPolicy, log: seq<Issue>, t: Time)
    requires forall i :: 0 <= i < |log| ==> !SamePeriod(policy, log[i].at, t)
    ensures Earlier(policy, log, t) == 0
  {
    if log != [] { EarlierNone(policy, log[..|log| - 1], t); }
  }

  lemma {:induction false} EarlierSame(policy: ResetPolicy, log: seq<Issue>, t: Time, u: Time)
    requires SamePeriod(policy, t, u)
    ensures Earlier(policy, log, t) == Earlier(policy, log, u)
  {
    if log != [] { EarlierSame(policy, log[..|log| - 1], t, u); }
  }

  /** The value computed from the row is the next one of its period. */
  lemma NextIsCounted(cfg: Sequence, row: Sequence, log: seq<Issue>, clock: Time, now: Time)
    requires LogOk(cfg, row, log, clock) && Valid(now)
    requires forall i :: 0 <= i < |log| ==> NotAfter(log[i].at, now)
    ensures RowOk(row)
    ensures NextValue(row, now).value == cfg.startValue + Earlier(cfg.policy, log, now) * cfg.incrementBy
    ensures NextValue(row, now).value >= cfg.startValue >= 1
    ensures log != [] ==> (NextValue(row, now).wasReset <==> !SamePeriod(cfg.policy, log[|log| - 1].at, now))
  {
    hide Texts, Valid, ShouldReset, NotAfter, SamePeriod, Counted, Chronological;
    if log != [] {
      var n := |log| - 1;
      var last := log[n];
      ResetMeansNewPeriod(row, now);
      SamePeriodTransitive(row.policy, row.lastResetAt.value, last.at, now);
      if SamePeriod(cfg.policy, last.at, now) {
        LastCounted(cfg, log, now);
      } else {
        NothingThisPeriod(cfg.policy, log, clock, now);
      }
    }
  }

  /** The period of the last number goes on. */
  lemma LastCounted(cfg: Sequence, log: seq<Issue>, now: Time)
    requires Counted(cfg, log) && log != [] && SamePeriod(cfg.policy, log[|log| - 1].at, now)
    ensures log[|log| - 1].value + cfg.incrementBy == cfg.startValue + Earlier(cfg.policy, log, now) * cfg.incrementBy
  {
    hide SamePeriod;
    var n := |log| - 1;
    assert log[n].value == cfg.startValue + Earlier(cfg.policy, log[..n], log[n].at) * cfg.incrementBy;
    hide Counted;
    EarlierSame(cfg.policy, log[..n], log[n].at, now);
    OneMore(Earlier(cfg.policy, log[..n], now), cfg.incrementBy);
  }

  /** If the last number is of an earlier period, so are all the others. */
  lemma NothingThisPeriod(policy: ResetPolicy, log: seq<Issue>, clock: Time, now: Time)
    requires Chronological(log, clock) && log != [] && !SamePeriod(policy, log[|log| - 1].at, now)
    requires forall i :: 0 <= i < |log| ==> NotAfter(log[i].at, now)
    ensures Earlier(policy, log, now) == 0
  {
    hide SamePeriod, NotAfter, Valid;
    var n := |log| - 1;
    forall i | 0 <= i < |log| ensures !SamePeriod(policy, log[i].at, now) {
      if SamePeriod(policy, log[i].at, now) && i < n {
        PeriodsAreConvex(policy, log[i].at, log[n].at, now);
      }
    }
    EarlierNone(policy, log, now);
  }

  lemma OneMore(k: nat, d: int)
    ensures (k + 1) * d == k * d + d
  {
  }

  lemma AppendCounted(cfg: Sequence, log: seq<Issue>, x: Issue)
    requires Counted(cfg, log)
    requires x.value == cfg.startValue + Earlier(cfg.policy, log, x.at) * cfg.incrementBy
    ensures Counted(cfg, log + [x])
  {
    var log' := log + [x];
    forall i | 0 <= i < |log'|
      ensures log'[i].value == cfg.startValue + Earlier(cfg.policy, log'[..i], log'[i].at) * cfg.incrementBy
    {
      assert log'[..i] == log[..i];
      assert log[..|log|] == log;
    }
  }

  /** Committing the computed row keeps row and log in step. */
  lemma CommitKeepsLog(cfg: Sequence, row: Sequence, log: seq<Issue>, clock: Time, now: Time,
                       extra: map<string, string>, text: string)
    requires LogOk(cfg, row, log, clock) && Valid(now) && NotAfter(now, clock)
    requires forall i :: 0 <= i < |log| ==> NotAfter(log[i].at, now)
    requires RowOk(row) && FormatsTo(row.template, EnvOf(row, now, extra, NextValue(row, now).value), text)
    ensures LogOk(cfg, Advanced(row, now, text),
                  log + [Issue(NextValue(row, now).value, now, extra, text)], clock)
  {
    hide FormatsTo, Counted, Valid, NextValue, NotAfter, SamePeriod, Chronological, Texts, RowFollows, Advanced;
    NextIsCounted(cfg, row, log, clock, now);
    var x := Issue(NextValue(row, now).value, now, extra, text);
    AppendCounted(cfg, log, x);
    assert EnvOf(row, now, extra, x.value) == EnvOf(cfg, now, extra, x.value);
    AppendTimesAndTexts(cfg, log, clock, x);
    RowFollowsAdvance(cfg, row, log, now, text, x);
  }

  lemma AppendTimesAndTexts(cfg: Sequence, log: seq<Issue>, clock: Time, x: Issue)
    requires Chronological(log, clock) && Texts(cfg, log) && TextMatches(cfg, x)
    requires NotAfter(x.at, clock) && forall i :: 0 <= i < |log| ==> NotAfter(log[i].at, x.at)
    ensures Chronological(log + [x], clock) && Texts(cfg, log + [x])
  {
    hide FormatsTo, Valid, NotAfter;
  }

  lemma RowFollowsAdvance(cfg: Sequence, row: Sequence, log: seq<Issue>, now: Time, text: string, x: Issue)
    requires SameConfig(row, cfg) && RowFollows(row, log) && RowOk(row) && Valid(now)
    requires x.value == NextValue(row, now).value >= row.startValue && x.at == now
    requires log != [] ==> (NextValue(row, now).wasReset <==> !SamePeriod(row.policy, log[|log| - 1].at, now))
    ensures RowFollows(Advanced(row, now, text), log + [x]) && SameConfig(Advanced(row, now, text), cfg)
  {
    hide Valid, NextValue, SamePeriod;
    SamePeriodReflexive(row.policy, now);
    if log != [] {
      SamePeriodTransitive(row.policy, row.lastResetAt.value, log[|log| - 1].at, now);
    }
  }

  lemma SamePeriodReflexive(policy: ResetPolicy, t: Time)
    ensures SamePeriod(policy, t, t)
  {
  }

  /** Every step keeps the invariant. */
  lemma StepKeepsInv(cfg: Sequence, s: System, e: Event, s': System)
    requires Inv(cfg, s) && Step(s, e, s')
    ensures Inv(cfg, s')
  {
    hide Inv, Step;
    match e
    case Commit(c) => CommitStep(cfg, s, c, s');
    case Tick(to) => TickStep(cfg, s, to, s');
    case SetActive(active) => SetActiveStep(cfg, s, active, s');
    case Compute(c, text) => ComputeStep(cfg, s, c, text, s');
    case Begin(_, _) => LocalStep(cfg, s, e, s');
    case Lock(_) => LocalStep(cfg, s, e, s');
    case Write(_) => LocalStep(cfg, s, e, s');
    case Abort(_) => LocalStep(cfg, s, e, s');
  }

  lemma SetActiveStep(cfg: Sequence, s: System, active: bool, s': System)
    requires Inv(cfg, s) && Step(s, SetActive(active), s')
    ensures Inv(cfg, s')
  {
    hide FormatsTo, Texts, Counted, Chronological, Valid, SamePeriod;
    forall d | d in s'.clients ensures PhaseOk(s', d) { assert PhaseOk(s, d); }
  }

  lemma ComputeStep(cfg: Sequence, s: System, c: Id, text: string, s': System)
    requires Inv(cfg, s) && Step(s, Compute(c, text), s')
    ensures Inv(cfg, s')
  {
    hide FormatsTo, LogOk, Valid, NotAfter, NextValue, Advanced;
    LogTimes(cfg, s);
    assert PhaseOk(s, c);
    NotAfterReflexive(s.clock);
    forall d | d in s'.clients ensures PhaseOk(s', d) { assert PhaseOk(s, d); }
  }

  lemma NotAfterReflexive(t: Time)
    ensures NotAfter(t, t)
  {
  }

  lemma LogTimes(cfg: Sequence, s: System)
    requires LogOk(cfg, s.row, s.issued, s.clock)
    ensures forall i :: 0 <= i < |s.issued| ==> NotAfter(s.issued[i].at, s.clock)
  {
  }

  lemma LocalStep(cfg: Sequence, s: System, e: Event, s': System)
    requires Inv(cfg, s) && Step(s, e, s') && (e.Begin? || e.Lock? || e.Write? || e.Abort?)
    ensures Inv(cfg, s')
  {
    hide FormatsTo, LogOk, Advanced, NextValue;
    if e.c in s.clients { assert PhaseOk(s, e.c); }
    forall d | d in s'.clients ensures PhaseOk(s', d) {
      if d in s.clients { assert PhaseOk(s, d); }
    }
  }

  lemma TickStep(cfg: Sequence, s: System, to: Time, s': System)
    requires Inv(cfg, s) && Step(s, Tick(to), s')
    ensures Inv(cfg, s')
  {
    hide FormatsTo, Texts, Counted, Advanced, NextValue;
    forall d | d in s'.clients ensures PhaseOk(s', d) { assert PhaseOk(s, d); }
  }

  lemma CommitStep(cfg: Sequence, s: System, c: Id, s': System)
    requires Inv(cfg, s) && Step(s, Commit(c), s')
    ensures Inv(cfg, s')
  {
    assert PhaseOk(s, c);
    var p := s.clients[c];
    CommitKeepsLog(cfg, s.row, s.issued, s.clock, p.now, p.extra, p.text);
    hide FormatsTo, LogOk, NextValue;
    forall d | d in s'.clients ensures PhaseOk(s', d) { assert PhaseOk(s, d); }
  }

  lemma {:induction false} RunKeepsInv(states: seq<System>, events: seq<Event>, i: nat)
    requires IsRun(states, events) && i < |states|
    ensures Inv(states[0].row, states[i])
    decreases i
  {
    if i > 0 {
      hide Inv, Step;
      RunKeepsInv(states, events, i - 1);
      StepKeepsInv(states[0].row, states[i - 1], events[i - 1], states[i]);
    }
  }

  /** On every interleaving of any number of clients, with failures anywhere: the k-th committed
      number of a period is `start + k * increment`, in commit order. */
  lemma KthNumberOfPeriod(states: seq<System>, events: seq<Event>, i: nat, k: nat)
    requires IsRun(states, events) && i < |states| && k < |states[i].issued|
    ensures var cfg, log := states[0].row, states[i].issued;
            log[k].value == cfg.startValue + Earlier(cfg.policy, log[..k], log[k].at) * cfg.incrementBy
  {
    RunKeepsInv(states, events, i);
  }

  lemma {:induction false} EarlierGrows(policy: ResetPolicy, log: seq<Issue>, j: nat, k: nat, t: Time)
    requires j < k <= |log| && SamePeriod(policy, log[j].at, t)
    ensures Earlier(policy, log[..j], t) < Earlier(policy, log[..k], t)
    decreases k
  {
    assert log[..k][..k - 1] == log[..k - 1];
    if j < k - 1 { EarlierGrows(policy, log, j, k - 1, t); }
  }

  /** In a log that is counted, the values of a period strictly increase from the start value. */
  lemma CountedIncreases(cfg: Sequence, log: seq<Issue>, j: nat, k: nat)
    requires Counted(cfg, log) && cfg.incrementBy >= 1 && j < k < |log|
    requires SamePeriod(cfg.policy, log[j].at, log[k].at)
    ensures log[j].value < log[k].value
  {
    EarlierSame(cfg.policy, log[..j], log[j].at, log[k].at);
    EarlierGrows(cfg.policy, log, j, k, log[k].at);
    Monotone(Earlier(cfg.policy, log[..j], log[k].at), Earlier(cfg.policy, log[..k], log[k].at), cfg.incrementBy);
  }

  lemma CountedFromStart(cfg: Sequence, log: seq<Issue>, j: nat)
    requires Counted(cfg, log) && cfg.incrementBy >= 1 && j < |log|
    ensures log[j].value >= cfg.startValue
  {
    assert Earlier(cfg.policy, log[..j], log[j].at) * cfg.incrementBy >= 0;
  }

  /** Within a period the values strictly increase, so no value is committed twice. */
  lemma StrictlyIncreasing(states: seq<System>, events: seq<Event>, i: nat, j: nat, k: nat)
    requires IsRun(states, events) && i < |states| && j < k < |states[i].issued|
    requires SamePeriod(states[0].row.policy, states[i].issued[j].at, states[i].issued[k].at)
    ensures states[i].issued[j].value < states[i].issued[k].value
  {
    RunKeepsInv(states, events, i);
    CountedIncreases(states[0].row, states[i].issued, j, k);
  }

  lemma Monotone(a: nat, b: nat, d: int)
    requires a < b && d >= 1
    ensures a * d < b * d
  {
  }
}
