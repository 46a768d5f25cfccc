/** Documents numbered by the sequence engine: `CreateDocument` takes a number in a transaction of its
    own, so the numbers that documents carry can have gaps although the counter has none. */
module DocumentNumbering {
  import opened Shared
  import opened Calendar
  import opened NumberFormat
  import opened SequenceEngine
  import opened SequenceStore
  import opened NumberUniqueness
  import Docs = DocumentLifecycle
  import Totals = DocumentTotals

  // ---- Serial runs of document calls on the tables and the counters ----

  datatype World = World(db: Docs.Database, rows: Rows, clock: Time)

  /** A number that the engine handed out during a call. */
  datatype Draw = Draw(key: RowKey, issue: Issue)

  datatype Call = Call(step: Docs.Step, drawn: Option<Draw>)

  /** The document that the call creates carries the number it drew. */
  predicate Carries(c: Call) {
    && c.drawn.Some? && c.step.Create? && c.step.doc.number == c.drawn.value.issue.text
    && Docs.CounterKey(c.step.doc.tenant, c.step.doc.docType) == c.drawn.value.key
  }

  ghost predicate Draws(w: World, d: Draw, w': World) {
    && Found(w.rows, d.key)
    && var row := w.rows[d.key];
       && d.issue.extra == map[] && NotAfter(w.clock, d.issue.at)
       && IsDue(row, d.issue.at, map[], d.issue.text) && d.issue.value == NextValue(row, d.issue.at).value
       && w'.rows == w.rows[d.key := Advanced(row, d.issue.at, d.issue.text)] && w'.clock == d.issue.at
  }

  /** One call. A number may be drawn without ending up on a document: the creation failed afterwards,
      or somebody else asked the engine. */
  ghost predicate Takes(w: World, c: Call, w': World) {
    && Docs.Takes(w.db, c.step, w'.db)
    && match c.drawn
       case None => w'.rows == w.rows && w'.clock == w.clock
       case Some(d) => Draws(w, d, w')
  }

  /** A serial run; documents may exist before it. */
  ghost predicate IsRun(worlds: seq<World>, calls: seq<Call>) {
    && |worlds| == |calls| + 1 && RowsOk(worlds[0].rows) && Valid(worlds[0].clock)
    && forall i :: 0 <= i < |calls| ==> Takes(worlds[i], calls[i], worlds[i + 1])
  }

  /** A number of one counter, and the document that carries it; None if it was lost. */
  datatype Item = Item(issue: Issue, doc: Option<Id>)

  /** The numbers that the calls drew from one counter, in order. */
  function Numbered(calls: seq<Call>, key: RowKey): seq<Item> {
    if calls == [] then [] else
      var init, c := Numbered(calls[..|calls| - 1], key), calls[|calls| - 1];
      if c.drawn.Some? && c.drawn.value.key == key
      then init + [Item(c.drawn.value.issue, if Carries(c) then Some(c.step.id) else None)]
      else init
  }

  function Issues(items: seq<Item>): seq<Issue> {
    if items == [] then [] else Issues(items[..|items| - 1]) + [items[|items| - 1].issue]
  }

  /** The numbers that documents carry. */
  function Kept(items: seq<Item>): seq<Issue> {
    if items == [] then [] else
      var init, last := Kept(items[..|items| - 1]), items[|items| - 1];
      if last.doc.Some? then init + [last.issue] else init
  }

  lemma NumberedOneMore(calls: seq<Call>, i: nat, key: RowKey)
    requires i < |calls|
    ensures Numbered(calls[..i + 1], key) ==
            var c := calls[i];
            if c.drawn.Some? && c.drawn.value.key == key
            then Numbered(calls[..i], key) + [Item(c.drawn.value.issue, if Carries(c) then Some(c.step.id) else None)]
            else Numbered(calls[..i], key)
  {
    assert calls[..i + 1][..i] == calls[..i];
  }

  lemma {:induction false} IssuesAt(items: seq<Item>, k: nat)
    ensures |Issues(items)| == |items| && (k < |items| ==> Issues(items)[k] == items[k].issue)
    ensures k <= |items| ==> Issues(items[..k]) == Issues(items)[..k]
    decreases |items|
  {
    if items != [] {
      var n := |items| - 1;
      IssuesAt(items[..n], k);
      if k <= n { assert items[..n][..k] == items[..k]; } else if k == n + 1 { assert items[..k] == items; }
    }
  }

  // ---- The counter along a run ----

  lemma LogLater(cfg: Sequence, row: Sequence, log: seq<Issue>, clock: Time, later: Time)
    requires LogOk(cfg, row, log, clock) && NotAfter(clock, later)
    ensures LogOk(cfg, row, log, later) && forall i :: 0 <= i < |log| ==> NotAfter(log[i].at, later)
  {
    hide Texts, Counted, RowFollows, Valid;
  }

  lemma SnocIssue(items: seq<Item>, x: Item)
    ensures Issues(items + [x]) == Issues(items) + [x.issue]
    ensures Kept(items + [x]) == if x.doc.Some? then Kept(items) + [x.issue] else Kept(items)
  {
    assert (items + [x])[..|items|] == items;
  }

  ghost predicate CounterOk(cfg: Sequence, w: World, key: RowKey, items: seq<Item>) {
    key in w.rows && RowsOk(w.rows) && Valid(w.clock) && LogOk(cfg, w.rows[key], Issues(items), w.clock)
  }

  lemma CallKeepsCounter(cfg: Sequence, w: World, c: Call, w': World, key: RowKey, items: seq<Item>, x: Item)
    requires Takes(w, c, w') && CounterOk(cfg, w, key, items)
    requires c.drawn.Some? && c.drawn.value.key == key ==> x.issue == c.drawn.value.issue
    ensures CounterOk(cfg, w', key,
                      if c.drawn.Some? && c.drawn.value.key == key then items + [x] else items)
  {
    hide FormatsTo, LogOk, Advanced, NextValue, Docs.Takes, NotAfter, Valid;
    if c.drawn.Some? {
      var d := c.drawn.value;
      LogLater(cfg, w.rows[key], Issues(items), w.clock, d.issue.at);
      AdvancedOk(w.rows[d.key], d.issue.at, d.issue.text);
      if d.key == key {
        SnocIssue(items, x);
        NotAfterReflexive(d.issue.at);
        CommitKeepsLog(cfg, w.rows[key], Issues(items), d.issue.at, d.issue.at, map[], d.issue.text);
        assert d.issue == Issue(NextValue(w.rows[key], d.issue.at).value, d.issue.at, map[], d.issue.text);
      }
    }
  }

  lemma AdvancedOk(s: Sequence, now: Time, text: string)
    requires RowOk(s) && Valid(now)
    ensures RowOk(Advanced(s, now, text))
  {
    hide Valid, NextValue;
  }

  lemma {:induction false} RunKeepsCounter(worlds: seq<World>, calls: seq<Call>, key: RowKey, i: nat)
    requires IsRun(worlds, calls) && i < |worlds| && key in worlds[0].rows && Fresh(worlds[0].rows[key])
    ensures CounterOk(worlds[0].rows[key], worlds[i], key, Numbered(calls[..i], key))
    decreases i
  {
    hide Takes;
    if i > 0 {
      hide CounterOk;
      RunKeepsCounter(worlds, calls, key, i - 1);
      NumberedOneMore(calls, i - 1, key);
      var c := calls[i - 1];
      var x := Item(if c.drawn.Some? then c.drawn.value.issue else Issue(0, Time(0, 1, 1, 0), map[], ""),
                    if Carries(c) then Some(c.step.id) else None);
      CallKeepsCounter(worlds[0].rows[key], worlds[i - 1], c, worlds[i], key, Numbered(calls[..i - 1], key), x);
    }
  }

  // ---- Gaps ----

  /** How many of the lost numbers fall into the period of `t`. */
  function Lost(policy: ResetPolicy, items: seq<Item>, t: Time): nat {
    if items == [] then 0 else
      var last := items[|items| - 1];
      Lost(policy, items[..|items| - 1], t) + (if last.doc.None? && SamePeriod(policy, last.issue.at, t) then 1 else 0)
  }

  lemma {:induction false} KeptPlusLost(policy: ResetPolicy, items: seq<Item>, t: Time)
    ensures Earlier(policy, Kept(items), t) + Lost(policy, items, t) == Earlier(policy, Issues(items), t)
    decreases |items|
  {
    if items != [] {
      var init, last := items[..|items| - 1], items[|items| - 1];
      KeptPlusLost(policy, init, t);
      EarlierSnoc(policy, Issues(init), last.issue, t);
      EarlierSnoc(policy, Kept(init), last.issue, t);
    }
  }

  lemma EarlierSnoc(policy: ResetPolicy, log: seq<Issue>, x: Issue, t: Time)
    ensures Earlier(policy, log + [x], t) == Earlier(policy, log, t) + if SamePeriod(policy, x.at, t) then 1 else 0
  {
    assert (log + [x])[..|log|] == log;
  }

  lemma {:induction false} NothingLostIff(policy: ResetPolicy, items: seq<Item>, t: Time)
    ensures Lost(policy, items, t) == 0 <==>
            forall i :: 0 <= i < |items| && items[i].doc.None? ==> !SamePeriod(policy, items[i].issue.at, t)
    decreases |items|
  {
    if items != [] {
      var init := items[..|items| - 1];
      NothingLostIff(policy, init, t);
      assert forall i :: 0 <= i < |init| ==> init[i] == items[i];
    }
  }

  /** No number was lost before a document of the same period was numbered. */
  ghost predicate NoLossBefore(policy: ResetPolicy, items: seq<Item>) {
    forall i, j :: 0 <= i < j < |items| && items[i].doc.None? && items[j].doc.Some? ==>
      !SamePeriod(policy, items[i].issue.at, items[j].issue.at)
  }

  lemma TimesInjective(a: nat, b: nat, d: int)
    requires d >= 1 && a * d == b * d
    ensures a == b
  {
    if a < b { Monotone(a, b, d); } else if b < a { Monotone(b, a, d); }
  }

  /** One more kept number continues the gap-free count exactly when nothing of its period was lost. */
  lemma KeptContinuesIff(cfg: Sequence, items: seq<Item>, x: Issue)
    requires cfg.incrementBy >= 1
    requires x.value == cfg.startValue + Earlier(cfg.policy, Issues(items), x.at) * cfg.incrementBy
    ensures x.value == cfg.startValue + Earlier(cfg.policy, Kept(items), x.at) * cfg.incrementBy <==>
            Lost(cfg.policy, items, x.at) == 0
  {
    var a, b := Earlier(cfg.policy, Kept(items), x.at), Earlier(cfg.policy, Issues(items), x.at);
    KeptPlusLost(cfg.policy, items, x.at);
    if a * cfg.incrementBy == b * cfg.incrementBy { TimesInjective(a, b, cfg.incrementBy); }
  }

  lemma {:induction false} GapFreeItemsIff(cfg: Sequence, items: seq<Item>)
    requires Counted(cfg, Issues(items)) && cfg.incrementBy >= 1
    ensures Counted(cfg, Kept(items)) <==> NoLossBefore(cfg.policy, items)
    decreases |items|
  {
    if items != [] {
      var n := |items| - 1;
      var init, last := items[..n], items[n];
      assert items == init + [last];
      CountedSnocIff(cfg, Issues(init), last.issue);
      GapFreeItemsIff(cfg, init);
      NoLossSnoc(cfg.policy, init, last);
      hide NoLossBefore, Counted;
      if last.doc.Some? {
        CountedSnocIff(cfg, Kept(init), last.issue);
        KeptContinuesIff(cfg, init, last.issue);
      }
    }
  }

  lemma CountedSnocIff(cfg: Sequence, log: seq<Issue>, x: Issue)
    ensures Counted(cfg, log + [x]) <==>
            Counted(cfg, log) && x.value == cfg.startValue + Earlier(cfg.policy, log, x.at) * cfg.incrementBy
  {
    var log' := log + [x];
    assert log'[..|log|] == log && log'[|log|] == x;
    if Counted(cfg, log') {
      forall i | 0 <= i < |log|
        ensures log[i].value == cfg.startValue + Earlier(cfg.policy, log[..i], log[i].at) * cfg.incrementBy
      {
        assert log'[..i] == log[..i] && log'[i] == log[i];
      }
    }
    if Counted(cfg, log) && x.value == cfg.startValue + Earlier(cfg.policy, log, x.at) * cfg.incrementBy {
      AppendCounted(cfg, log, x);
    }
  }

  lemma NoLossSnoc(policy: ResetPolicy, items: seq<Item>, x: Item)
    ensures NoLossBefore(policy, items + [x]) <==>
            NoLossBefore(policy, items) && (x.doc.Some? ==> Lost(policy, items, x.issue.at) == 0)
  {
    hide SamePeriod;
    NothingLostIff(policy, items, x.issue.at);
    var all := items + [x];
    assert forall i :: 0 <= i < |items| ==> all[i] == items[i];
    if NoLossBefore(policy, all) {
      assert all[|items|] == x;
    }
  }

  /** The exact condition: in every state of every run, the documents numbered from a counter are
      numbered start + k * increment within each period, without gaps, if and only if no number was
      lost before a document of the same period was numbered. */
  lemma DocumentsGapFreeIff(worlds: seq<World>, calls: seq<Call>, key: RowKey, i: nat)
    requires IsRun(worlds, calls) && i < |worlds| && key in worlds[0].rows && Fresh(worlds[0].rows[key])
    ensures var cfg, items := worlds[0].rows[key], Numbered(calls[..i], key);
            Counted(cfg, Kept(items)) <==> NoLossBefore(cfg.policy, items)
  {
    hide Takes;
    RunKeepsCounter(worlds, calls, key, i);
    GapFreeItemsIff(worlds[0].rows[key], Numbered(calls[..i], key));
  }

  // ---- Numbers and documents ----

  lemma DocumentStays(db: Docs.Database, s: Docs.Step, db': Docs.Database, id: Id)
    requires Docs.Takes(db, s, db') && id in db.documents
    ensures id in db'.documents && Docs.SameNumber(db'.documents[id], db.documents[id])
  {
    hide Docs.NumberFree, Totals.LinesFrom, Totals.IsCode, Totals.SumSubtotals;
  }

  lemma DocumentAppears(db: Docs.Database, s: Docs.Step, db': Docs.Database)
    requires Docs.Takes(db, s, db') && s.Create?
    ensures s.id !in db.documents && s.id in db'.documents && db'.documents[s.id] == s.doc
  {
    hide Docs.NumberFree, Totals.LinesFrom, Totals.IsCode, Totals.SumSubtotals;
  }

  /** The document stored for a number carries it and belongs to the counter. */
  ghost predicate Shows(db: Docs.Database, key: RowKey, x: Item) {
    x.doc.Some? ==>
      && x.doc.value in db.documents && db.documents[x.doc.value].number == x.issue.text
      && Docs.CounterKey(db.documents[x.doc.value].tenant, db.documents[x.doc.value].docType) == key
  }

  /** In every state, a kept number stands on its document, and no document carries two of them. */
  lemma {:induction false} KeptNumbersAreShown(worlds: seq<World>, calls: seq<Call>, key: RowKey, i: nat)
    requires IsRun(worlds, calls) && i < |worlds|
    ensures var items := Numbered(calls[..i], key);
            && (forall k :: 0 <= k < |items| ==> Shows(worlds[i].db, key, items[k]))
            && forall j, k :: 0 <= j < k < |items| && items[j].doc.Some? ==> items[j].doc != items[k].doc
    decreases i
  {
    hide Draws, Docs.Takes;
    if i > 0 {
      KeptNumbersAreShown(worlds, calls, key, i - 1);
      NumberedOneMore(calls, i - 1, key);
      var w, c, w', items := worlds[i - 1], calls[i - 1], worlds[i], Numbered(calls[..i - 1], key);
      assert Takes(w, c, w');
      forall k | 0 <= k < |items| ensures Shows(w'.db, key, items[k]) {
        assert Shows(w.db, key, items[k]);
        if items[k].doc.Some? { DocumentStays(w.db, c.step, w'.db, items[k].doc.value); }
      }
      if c.step.Create? { DocumentAppears(w.db, c.step, w'.db); }
    }
  }

  /** The texts of two different numbers of a counter differ, if the template identifies the counter
      and the period; the call passes no extra tokens. */
  lemma EngineNumbersDiffer(worlds: seq<World>, calls: seq<Call>, key: RowKey, i: nat, ps: seq<Piece>, j: nat, k: nat)
    requires IsRun(worlds, calls) && i < |worlds| && key in worlds[0].rows && Fresh(worlds[0].rows[key])
    requires Configured(worlds[0].rows[key], map[], ps)
    requires ShowsCounter(ps, map[]) && ShowsPeriod(worlds[0].rows[key].policy, ps)
    requires j < k < |Numbered(calls[..i], key)| && OrdinaryItems(Numbered(calls[..i], key))
    ensures Numbered(calls[..i], key)[j].issue.text != Numbered(calls[..i], key)[k].issue.text
  {
    hide Takes, Configured, ShowsCounter, ShowsPeriod;
    var cfg, items := worlds[0].rows[key], Numbered(calls[..i], key);
    RunKeepsCounter(worlds, calls, key, i);
    IssuesAt(items, j);
    IssuesAt(items, k);
    OrdinaryIssues(items);
    hide IsRun, OrdinaryItems, Ordinary;
    LogTextsDistinct(cfg, Issues(items), map[], ps, j, k);
  }

  lemma OrdinaryIssues(items: seq<Item>)
    requires OrdinaryItems(items)
    ensures Ordinary(Issues(items), map[])
  {
    IssuesAt(items, 0);
    forall n | 0 <= n < |items| ensures Issues(items)[n] == items[n].issue { IssuesAt(items, n); }
  }

  ghost predicate OrdinaryItems(items: seq<Item>) {
    forall i :: 0 <= i < |items| ==> items[i].issue.extra == map[] && 0 <= items[i].issue.at.year <= 9999
  }

  /** A number fresh from the engine is never found on a document that an earlier number of the same
      counter went to: a creation can be refused as a duplicate, and so lose its number, only because
      of a document that was numbered otherwise. */
  lemma CollisionsAreForeign(worlds: seq<World>, calls: seq<Call>, key: RowKey, i: nat, ps: seq<Piece>, k: nat)
    requires IsRun(worlds, calls) && i < |calls| && key in worlds[0].rows && Fresh(worlds[0].rows[key])
    requires Configured(worlds[0].rows[key], map[], ps)
    requires ShowsCounter(ps, map[]) && ShowsPeriod(worlds[0].rows[key].policy, ps)
    requires calls[i].drawn.Some? && calls[i].drawn.value.key == key && OrdinaryItems(Numbered(calls[..i + 1], key))
    requires k < |Numbered(calls[..i], key)| && Numbered(calls[..i], key)[k].doc.Some?
    ensures var id := Numbered(calls[..i], key)[k].doc.value;
            id in worlds[i].db.documents && worlds[i].db.documents[id].number != calls[i].drawn.value.issue.text
  {
    hide Takes, Configured, ShowsCounter, ShowsPeriod, OrdinaryItems;
    var items := Numbered(calls[..i], key);
    NumberedOneMore(calls, i, key);
    EngineNumbersDiffer(worlds, calls, key, i + 1, ps, k, |items|);
    KeptNumbersAreShown(worlds, calls, key, i);
    assert Shows(worlds[i].db, key, items[k]);
  }

  // ---- `CreateDocument` is a call of such a run ----

  /** The draw that a creation makes, if it makes one. */
  function DrawOf(rows: Rows, cmd: Docs.CreateCommand, now: Time, nf: Faults): Option<Draw>
    requires Valid(now) && RowsOk(rows)
  {
    if Docs.Acquires(rows, cmd, nf) then
      var key := Docs.CounterKey(cmd.tenant, cmd.docType);
      Some(Draw(key, Issue(NextValue(rows[key], now).value, now, map[], DueText(rows[key], now))))
    else None
  }

  /** What `CreateDocument` promises makes it a call of a run; the number it draws ends up on the
      document if the call succeeds and the number is not empty, and is lost if the call fails. */
  lemma CreationIsCall(w: World, cmd: Docs.CreateCommand, id: Id, now: Time, fallback: string, nf: Faults,
                       ok: bool, lines: seq<Totals.Line>, db': Docs.Database)
    requires Valid(now) && RowsOk(w.rows) && NotAfter(w.clock, now)
    requires Docs.Takes(w.db, StepOf(w, cmd, id, now, fallback, nf, ok, lines), db')
    ensures var c := Call(StepOf(w, cmd, id, now, fallback, nf, ok, lines), DrawOf(w.rows, cmd, now, nf));
            && Takes(w, c, World(db', Docs.RowsAfter(w.rows, cmd, now, nf), if c.drawn.Some? then now else w.clock))
            && (c.drawn.Some? && c.drawn.value.issue.text != "" ==> (Carries(c) <==> ok))
  {
    hide Valid, NotAfter, Advanced, NextValue, DueText, Docs.Takes;
    if Docs.Acquires(w.rows, cmd, nf) {
      var key := Docs.CounterKey(cmd.tenant, cmd.docType);
      DueIffDueText(w.rows[key], now, DueText(w.rows[key], now));
    }
  }

  /** The effect of the call on the documents. */
  function StepOf(w: World, cmd: Docs.CreateCommand, id: Id, now: Time, fallback: string, nf: Faults, ok: bool,
                  lines: seq<Totals.Line>): Docs.Step
    requires Valid(now) && RowsOk(w.rows)
  {
    var number := Docs.ChooseNumber(cmd.number, Docs.Acquired(w.rows, cmd, now, nf), fallback);
    if ok then Docs.Create(id, Docs.NewDocument(cmd, number, lines), lines, cmd.lines) else Docs.FailedCall
  }

  /** A creation that fails on a line of quantity zero after its number has been drawn. */
  method FailureLosesANumber() returns (err: Option<Docs.CallError>, before: Rows, after: Rows)
    ensures err.Some? && before != after
  {
    var tenant, now := Uuid(1), Time(2024, 1, 1, 0);
    var key := Docs.CounterKey(tenant, "invoice");
    var row := Created(CreateCommand("INV", "", "", 0, 0, 0, None));
    before := map[key := row];
    var engine := new Store(before);
    var usecase := new Docs.DocumentUsecase(engine);
    var line := Totals.LineInput(0.0, Uuid(2), Totals.Money(100, ""));
    var cmd := Docs.CreateCommand(tenant, Uuid(3), "invoice", "", "IDR", [line]);
    assert Docs.Acquires(before, cmd, Faults(true, true, true, true)) && !Docs.Acceptable(cmd) by {
      assert cmd.lines[0] == line;
    }
    var lines;
    err, lines := usecase.CreateDocument(cmd, Uuid(4), now, "x", Faults(true, true, true, true),
                                         Docs.Faults(true, true, true, _ => true, true));
    after := engine.rows;
  }
}
