/** The document workflow of `internal/core/domain/document/workflow.go` and the transactional writes
    of `CreateDocument` and `TransitionDocument`, as serialized calls on the five tables they touch. */
module DocumentLifecycle {
  import opened Shared
  import Tx = Transactions
  import Totals = DocumentTotals
  import Quantities
  import opened Text
  import opened Calendar
  import Engine = SequenceEngine
  import Numbers = SequenceStore

  datatype Status =
    | Draft | Submitted | Approved | Posted | Completed | Cancelled | Rejected
    | Unknown(name: string)

  /** `validTransitions`; a status missing from the table allows nothing. */
  function AllowedTransitions(from: Status): seq<Status> {
    match from
    case Draft => [Submitted, Cancelled]
    case Submitted => [Approved, Rejected, Draft]
    case Approved => [Posted, Cancelled]
    case Posted => [Completed, Cancelled]
    case _ => []
  }

  predicate IsValidTransition(from: Status, to: Status) {
    to in AllowedTransitions(from)
  }

  /** The statuses from which each status can be reached in one step. */
  function Sources(to: Status): set<Status> {
    match to
    case Draft => {Submitted}
    case Submitted => {Draft}
    case Approved => {Submitted}
    case Posted => {Approved}
    case Completed => {Posted}
    case Cancelled => {Draft, Approved, Posted}
    case Rejected => {Submitted}
    case Unknown(_) => {}
  }

  /** The workflow read backwards: exactly these steps exist. */
  lemma EdgesExact(from: Status, to: Status)
    ensures IsValidTransition(from, to) <==> from in Sources(to)
  {
  }

  datatype CallError =
    | InvalidInput | NotFound | AlreadyInStatus | IllegalTransition | AlreadyExists
    | BadLine(error: Totals.LineError) | Panicked | ReadFailed | WriteFailed | RefreshFailed

  function ValidateTransition(from: Status, to: Status): Option<CallError> {
    if from == to then Some(AlreadyInStatus)
    else if !IsValidTransition(from, to) then Some(IllegalTransition)
    else None
  }

  // ---- Tables ----

  datatype Document = Document(tenant: Id, docType: string, number: string, status: Status, total: Totals.Money)

  /** A row of `document_lines`: amounts only, the currency is the document's; the quantity as stored. */
  datatype LineRow = LineRow(doc: Id, number: int, quantity: real, unit: Id, unitPrice: int, subtotal: int)

  datatype Move = Move(doc: Id, from: Status, to: Status)

  /** Rows of `outbox_events` and `audit_logs` that concern documents. */
  datatype Entry = CreatedEntry(doc: Id) | MovedEntry(move: Move)

  datatype Database = Database(
    documents: map<Id, Document>, lines: seq<LineRow>,
    transitions: seq<Move>, outbox: seq<Entry>, audit: seq<Entry>)

  const EMPTY: Database := Database(map[], [], [], [], [])

  datatype Write =
    | InsertDocument(id: Id, doc: Document)
    | InsertLine(row: LineRow)
    | SetStatus(id: Id, status: Status)
    | RecordTransition(move: Move)
    | InsertOutbox(entry: Entry)
    | InsertAudit(entry: Entry)

  function Apply(db: Database, w: Write): Database {
    match w
    case InsertDocument(id, doc) => db.(documents := db.documents[id := doc])
    case InsertLine(row) => db.(lines := db.lines + [row])
    case SetStatus(id, status) =>
      if id in db.documents then db.(documents := db.documents[id := db.documents[id].(status := status)]) else db
    case RecordTransition(move) => db.(transitions := db.transitions + [move])
    case InsertOutbox(entry) => db.(outbox := db.outbox + [entry])
    case InsertAudit(entry) => db.(audit := db.audit + [entry])
  }

  /** The whole effect of one successful transition. */
  function Moved(db: Database, move: Move): Database
    requires move.doc in db.documents
  {
    Database(db.documents[move.doc := db.documents[move.doc].(status := move.to)], db.lines,
             db.transitions + [move], db.outbox + [MovedEntry(move)], db.audit + [MovedEntry(move)])
  }

  function RowOf(id: Id, l: Totals.Line): LineRow {
    LineRow(id, l.number, Quantities.Stored(l.quantity), l.unit, l.unitPrice.amount, l.subtotal.amount)
  }

  function RowsFor(id: Id, lines: seq<Totals.Line>): (rows: seq<LineRow>)
    ensures |rows| == |lines| && forall i :: 0 <= i < |lines| ==> rows[i] == RowOf(id, lines[i])
  {
    seq(|lines|, i requires 0 <= i < |lines| => RowOf(id, lines[i]))
  }

  /** The whole effect of one successful creation. */
  function WithDocument(db: Database, id: Id, doc: Document, lines: seq<Totals.Line>): Database {
    Database(db.documents[id := doc], db.lines + RowsFor(id, lines),
             db.transitions, db.outbox + [CreatedEntry(id)], db.audit + [CreatedEntry(id)])
  }

  // ---- The calls ----

  /** Which of the steps of a call fail; `writes(k)` is false when the k-th write fails. */
  datatype Faults = Faults(readOk: bool, beginOk: bool, commitOk: bool, writes: nat -> bool, refreshOk: bool)

  function BodyOf(ws: seq<Write>, f: Faults, k: nat): Tx.Body<Write> {
    if ws == [] then Tx.Done else Tx.Write(ws[0], f.writes(k), BodyOf(ws[1..], f, k + 1))
  }

  predicate NoWriteFails(f: Faults, n: nat) {
    forall k :: 0 <= k < n ==> f.writes(k)
  }

  lemma {:induction false} BodyExact(ws: seq<Write>, f: Faults, k: nat)
    ensures Tx.Clean(BodyOf(ws, f, k)) <==> forall i :: k <= i < k + |ws| ==> f.writes(i)
    ensures Tx.Clean(BodyOf(ws, f, k)) ==> Tx.Performed(BodyOf(ws, f, k)) == ws
    decreases |ws|
  {
    if ws != [] {
      BodyExact(ws[1..], f, k + 1);
    }
  }

  function MoveWrites(move: Move): seq<Write> {
    [SetStatus(move.doc, move.to), RecordTransition(move),
     InsertOutbox(MovedEntry(move)), InsertAudit(MovedEntry(move))]
  }

  function LineWrites(id: Id, lines: seq<Totals.Line>): (ws: seq<Write>)
    ensures |ws| == |lines|
  {
    if lines == [] then [] else LineWrites(id, lines[..|lines| - 1]) + [InsertLine(RowOf(id, lines[|lines| - 1]))]
  }

  function CreateWrites(id: Id, doc: Document, lines: seq<Totals.Line>): (ws: seq<Write>)
    ensures |ws| == 3 + |lines|
  {
    [InsertDocument(id, doc)] + LineWrites(id, lines) + [InsertOutbox(CreatedEntry(id)), InsertAudit(CreatedEntry(id))]
  }

  datatype CreateCommand = CreateCommand(
    tenant: Id, organization: Id, docType: string, number: string, currency: string,
    lines: seq<Totals.LineInput>)

  /** The counter that numbers a document type; types are compared trimmed and in lower case. */
  function CounterKey(tenant: Id, docType: string): Numbers.RowKey {
    Numbers.RowKey(tenant, "document", ToLower(TrimSpace(docType)))
  }

  /** The call takes a number from the engine, in a transaction of its own that is committed before
      anything else is read or written. */
  predicate Acquires(rows: Numbers.Rows, cmd: CreateCommand, nf: Numbers.Faults) {
    && cmd.organization != NIL_ID && cmd.docType != "" && TrimSpace(cmd.number) == ""
    && Numbers.Found(rows, CounterKey(cmd.tenant, cmd.docType)) && Numbers.AllWork(nf)
  }

  /** The engine's answer: None when it is not asked, has no active counter or fails. */
  function Acquired(rows: Numbers.Rows, cmd: CreateCommand, now: Time, nf: Numbers.Faults): Option<string>
    requires Valid(now) && Numbers.RowsOk(rows)
  {
    if Acquires(rows, cmd, nf) then Some(Numbers.DueText(rows[CounterKey(cmd.tenant, cmd.docType)], now)) else None
  }

  /** The counters after the call, whatever becomes of the document. */
  function RowsAfter(rows: Numbers.Rows, cmd: CreateCommand, now: Time, nf: Numbers.Faults): Numbers.Rows
    requires Valid(now) && Numbers.RowsOk(rows)
  {
    var key := CounterKey(cmd.tenant, cmd.docType);
    if Acquires(rows, cmd, nf) then rows[key := Engine.Advanced(rows[key], now, Numbers.DueText(rows[key], now))]
    else rows
  }

  lemma RowsChangeIff(rows: Numbers.Rows, cmd: CreateCommand, now: Time, nf: Numbers.Faults)
    requires Valid(now) && Numbers.RowsOk(rows)
    ensures RowsAfter(rows, cmd, now, nf) == rows <==> !Acquires(rows, cmd, nf)
  {
    hide Valid, TrimSpace, ToLower, Engine.Advanced, Numbers.DueText;
    var key := CounterKey(cmd.tenant, cmd.docType);
    if Acquires(rows, cmd, nf) {
      Numbers.AdvancingChanges(rows[key], now, Numbers.DueText(rows[key], now));
      assert RowsAfter(rows, cmd, now, nf)[key] != rows[key];
    }
  }

  /** The document number: as typed; else from the sequence engine, if that answers; else made up. */
  function ChooseNumber(typed: string, acquired: Option<string>, fallback: string): string {
    if TrimSpace(typed) != "" then TrimSpace(typed)
    else if acquired.Some? && acquired.value != "" then acquired.value
    else fallback
  }

  /** What the caller must supply for the lines to be accepted. */
  predicate Acceptable(cmd: CreateCommand) {
    var raw := Totals.EffectiveCurrency(cmd.currency, cmd.lines);
    |Totals.NormalizeCode(raw)| == 3 && forall i :: 0 <= i < |cmd.lines| ==> Totals.LineOk(raw, cmd.lines[i])
  }

  function CodeOf(cmd: CreateCommand): string {
    Totals.NormalizeCode(Totals.EffectiveCurrency(cmd.currency, cmd.lines))
  }

  function NewDocument(cmd: CreateCommand, number: string, lines: seq<Totals.Line>): Document {
    Document(cmd.tenant, cmd.docType, number, Draft, Totals.Money(Totals.SumSubtotals(lines), CodeOf(cmd)))
  }

  class DocumentUsecase {
    var db: Database
    /** The sequence engine, if one was given. */
    const engine: Numbers.Store?

    constructor (engine: Numbers.Store?)
      ensures db == EMPTY && this.engine == engine
    {
      db, this.engine := EMPTY, engine;
    }

    /** The counters that the engine sees; without an engine there are none. */
    function Counters(): Numbers.Rows
      reads this, engine
    {
      if engine == null then map[] else engine.rows
    }

    /** Runs the writes in one transaction on the stored tables. */
    method InTransaction(ws: seq<Write>, f: Faults) returns (ok: bool)
      modifies this`db
      ensures ok <==> f.beginOk && f.commitOk && NoWriteFails(f, |ws|)
      ensures db == if ok then Tx.ApplyAll(old(db), ws, Apply) else old(db)
      ensures Tx.Result(Tx.Conn(db, false), ok) == Tx.WithTx(BodyOf(ws, f, 0), old(db), Apply, f.beginOk, f.commitOk)
    {
      BodyExact(ws, f, 0);
      Tx.AllOrNothing(BodyOf(ws, f, 0), db, Apply, f.beginOk, f.commitOk);
      if !f.beginOk { return false; }
      var snapshot := db;
      for k := 0 to |ws|
        invariant db == Tx.ApplyAll(snapshot, ws[..k], Apply)
        invariant NoWriteFails(f, k)
      {
        if !f.writes(k) {
          db := snapshot;
          return false;
        }
        Tx.ApplyAppend(snapshot, ws[..k], [ws[k]], Apply);
        assert ws[..k + 1] == ws[..k] + [ws[k]];
        db := Apply(db, ws[k]);
      }
      assert ws[..|ws|] == ws;
      if !f.commitOk {
        db := snapshot;
        return false;
      }
      return true;
    }

    /** The number that `CreateDocument` gives the document. */
    method NumberFor(cmd: CreateCommand, now: Time, fallback: string, nf: Numbers.Faults) returns (number: string)
      requires Valid(now) && Numbers.RowsOk(Counters()) && cmd.organization != NIL_ID && cmd.docType != ""
      modifies engine
      ensures Counters() == RowsAfter(old(Counters()), cmd, now, nf)
      ensures number == ChooseNumber(cmd.number, Acquired(old(Counters()), cmd, now, nf), fallback)
    {
      hide Valid, TrimSpace, ToLower, Engine.Advanced, Numbers.DueText, Numbers.IsDue;
      number := TrimSpace(cmd.number);
      if number == "" {
        if engine != null {
          var key := CounterKey(cmd.tenant, cmd.docType);
          ghost var rows := engine.rows;
          var generated := engine.AcquireNextNumber(key, map[], now, nf);
          if generated.Ok? {
            Numbers.DueIffDueText(rows[key], now, generated.value);
            number := generated.value;
          }
        }
        if number == "" { number := fallback; }
      }
    }

    /** `CreateDocument`. The document is written to all tables or to none; the counter that numbers
        it is not part of that transaction: a number taken from the engine is gone even if the call
        fails afterwards. */
    method CreateDocument(cmd: CreateCommand, id: Id, now: Time, fallback: string, nf: Numbers.Faults, f: Faults)
      returns (err: Option<CallError>, lines: seq<Totals.Line>)
      requires id !in db.documents && Valid(now) && Numbers.RowsOk(Counters())
      requires forall i :: 0 <= i < |cmd.lines| ==> Totals.MoneyOk(cmd.lines[i].unitPrice)
      modifies this`db, engine
      ensures Counters() == RowsAfter(old(Counters()), cmd, now, nf)
      ensures Counters() == old(Counters()) <==> !Acquires(old(Counters()), cmd, nf)
      ensures var number := ChooseNumber(cmd.number, Acquired(old(Counters()), cmd, now, nf), fallback);
              && (err.None? <==>
                  && cmd.organization != NIL_ID && cmd.docType != "" && f.readOk
                  && NumberFree(old(db), cmd.tenant, cmd.docType, number)
                  && Acceptable(cmd) && f.beginOk && f.commitOk && NoWriteFails(f, 3 + |cmd.lines|))
              && (err.None? ==> db == WithDocument(old(db), id, NewDocument(cmd, number, lines), lines))
              && Takes(old(db),
                       if err.None? then Create(id, NewDocument(cmd, number, lines), lines, cmd.lines) else FailedCall,
                       db)
      ensures var number := ChooseNumber(cmd.number, Acquired(old(Counters()), cmd, now, nf), fallback);
              err == Some(AlreadyExists) <==>
              && cmd.organization != NIL_ID && cmd.docType != "" && f.readOk
              && exists x :: x in old(db).documents && old(db).documents[x].tenant == cmd.tenant
                             && old(db).documents[x].docType == cmd.docType && old(db).documents[x].number == number
      ensures err.None? ==> Totals.LinesFrom(lines, cmd.lines, CodeOf(cmd)) && Totals.IsCode(CodeOf(cmd))
      ensures err.Some? ==> db == old(db)
      ensures err == Some(InvalidInput) <==> cmd.organization == NIL_ID || cmd.docType == ""
      ensures err.Some? && (err.value.BadLine? || err.value.Panicked?) ==> !Acceptable(cmd)
      ensures err.Some? && err.value.BadLine? ==>
              Totals.FirstFault(Totals.EffectiveCurrency(cmd.currency, cmd.lines), cmd.lines, err.value.error)
      ensures err == Some(ReadFailed) <==> cmd.organization != NIL_ID && cmd.docType != "" && !f.readOk
    {
      hide NumberFree, Totals.LineOk, Totals.LinesFrom, Totals.NormalizeCode, Totals.EffectiveCurrency, Totals.MoneyOk;
      hide ChooseNumber, Valid, TrimSpace, Numbers.RowsOk, Acquired, Totals.FirstFault;
      lines := [];
      RowsChangeIff(Counters(), cmd, now, nf);
      if cmd.organization == NIL_ID || cmd.docType == "" { return Some(InvalidInput), []; }
      var number := NumberFor(cmd, now, fallback, nf);
      hide Acquires, RowsAfter;
      if !f.readOk { return Some(ReadFailed), []; }
      FreeIff(db, cmd.tenant, cmd.docType, number);
      if !NumberFree(db, cmd.tenant, cmd.docType, number) { return Some(AlreadyExists), []; }
      var built := Totals.BuildLines(cmd.currency, cmd.lines);
      if built.Panics? { return Some(Panicked), []; }
      if built.Rejected? { return Some(BadLine(built.error)), []; }
      lines := built.lines;
      assert |lines| == |cmd.lines| by { SameLength(lines, cmd.lines, CodeOf(cmd)); }
      var doc := Document(cmd.tenant, cmd.docType, number, Draft, built.total);
      ghost var before := db;
      var ok := InTransaction(CreateWrites(id, doc, lines), f);
      if !ok { return Some(WriteFailed), lines; }
      CreateEffect(before, id, doc, lines);
      return None, lines;
    }

    /** `TransitionDocument`: the call fails without effect, or takes effect in all four tables; in
        the second case it still reports an error when the final re-read fails. */
    method TransitionDocument(tenant: Id, id: Id, target: Status, f: Faults) returns (err: Option<CallError>)
      modifies this`db
      ensures err.None? || err == Some(RefreshFailed) <==>
              && f.readOk && id in old(db).documents && old(db).documents[id].tenant == tenant
              && IsValidTransition(old(db).documents[id].status, target)
              && f.beginOk && f.commitOk && NoWriteFails(f, 4)
      ensures err.None? || err == Some(RefreshFailed) ==>
              && id in old(db).documents && db == Moved(old(db), Move(id, old(db).documents[id].status, target))
              && (err.None? <==> f.refreshOk)
      ensures err.Some? && err != Some(RefreshFailed) ==> db == old(db)
      ensures err == Some(ReadFailed) <==> !f.readOk
      ensures err == Some(NotFound) <==>
              f.readOk && (id !in old(db).documents || old(db).documents[id].tenant != tenant)
      ensures err == Some(AlreadyInStatus) <==>
              && f.readOk && id in old(db).documents && old(db).documents[id].tenant == tenant
              && old(db).documents[id].status == target
      ensures err == Some(IllegalTransition) <==>
              && f.readOk && id in old(db).documents && old(db).documents[id].tenant == tenant
              && old(db).documents[id].status != target && !IsValidTransition(old(db).documents[id].status, target)
      ensures Takes(old(db), if err.None? || err == Some(RefreshFailed) then Transition(id, target) else FailedCall, db)
    {
      if !f.readOk { return Some(ReadFailed); }
      if id !in db.documents || db.documents[id].tenant != tenant { return Some(NotFound); }
      var from := db.documents[id].status;
      var invalid := ValidateTransition(from, target);
      NoSelfLoops(from);
      if invalid.Some? { return invalid; }
      ghost var before := db;
      var ok := InTransaction(MoveWrites(Move(id, from, target)), f);
      if !ok { return Some(WriteFailed); }
      MoveEffect(before, Move(id, from, target));
      if !f.refreshOk { return Some(RefreshFailed); }
      return None;
    }
  }

  predicate NumberFree(db: Database, tenant: Id, docType: string, number: string) {
    forall id :: id in db.documents ==>
      !(db.documents[id].tenant == tenant && db.documents[id].docType == docType && db.documents[id].number == number)
  }

  lemma FreeIff(db: Database, tenant: Id, docType: string, number: string)
    ensures !NumberFree(db, tenant, docType, number) <==>
            exists x :: x in db.documents && db.documents[x].tenant == tenant
                        && db.documents[x].docType == docType && db.documents[x].number == number
  {
  }

  lemma NoSelfLoops(s: Status)
    ensures !IsValidTransition(s, s)
  {
  }

  lemma MoveEffect(db: Database, move: Move)
    requires move.doc in db.documents
    ensures Tx.ApplyAll(db, MoveWrites(move), Apply) == Moved(db, move)
  {
    var ws := MoveWrites(move);
    var d1, d2 := Apply(db, ws[0]), Apply(Apply(db, ws[0]), ws[1]);
    assert ws == [ws[0], ws[1]] + [ws[2], ws[3]];
    Tx.ApplyAppend(db, [ws[0], ws[1]], [ws[2], ws[3]], Apply);
    hide Tx.ApplyAll;
    ApplyTwo(db, ws[0], ws[1]);
    ApplyTwo(d2, ws[2], ws[3]);
  }

  lemma ApplyTwo(db: Database, v: Write, w: Write)
    ensures Tx.ApplyAll(db, [v, w], Apply) == Apply(Apply(db, v), w)
  {
    assert [v, w] == [v] + [w];
    Tx.ApplyAppend(db, [v], [w], Apply);
    ApplyOne(db, v);
    ApplyOne(Apply(db, v), w);
  }

  lemma SameLength(lines: seq<Totals.Line>, inputs: seq<Totals.LineInput>, code: string)
    requires Totals.LinesFrom(lines, inputs, code)
    ensures |lines| == |inputs|
  {
  }

  lemma {:induction false} LinesEffect(db: Database, id: Id, lines: seq<Totals.Line>)
    ensures Tx.ApplyAll(db, LineWrites(id, lines), Apply) == db.(lines := db.lines + RowsFor(id, lines))
    decreases |lines|
  {
    if lines == [] {
      assert db.lines + RowsFor(id, lines) == db.lines;
    } else {
      var n := |lines| - 1;
      var w := InsertLine(RowOf(id, lines[n]));
      LinesEffect(db, id, lines[..n]);
      Tx.ApplyAppend(db, LineWrites(id, lines[..n]), [w], Apply);
      ApplyOne(Tx.ApplyAll(db, LineWrites(id, lines[..n]), Apply), w);
      assert RowsFor(id, lines) == RowsFor(id, lines[..n]) + [RowOf(id, lines[n])];
      assert db.lines + RowsFor(id, lines) == db.lines + RowsFor(id, lines[..n]) + [RowOf(id, lines[n])];
    }
  }

  lemma ApplyOne(db: Database, w: Write)
    ensures Tx.ApplyAll(db, [w], Apply) == Apply(db, w)
  {
    assert [w][1..] == [];
  }

  lemma CreateEffect(db: Database, id: Id, doc: Document, lines: seq<Totals.Line>)
    ensures Tx.ApplyAll(db, CreateWrites(id, doc, lines), Apply) == WithDocument(db, id, doc, lines)
  {
    var first, o, a := InsertDocument(id, doc), InsertOutbox(CreatedEntry(id)), InsertAudit(CreatedEntry(id));
    var d1 := Apply(db, first);
    ApplyOne(db, first);
    Tx.ApplyAppend(db, [first], LineWrites(id, lines), Apply);
    LinesEffect(d1, id, lines);
    var d2 := d1.(lines := d1.lines + RowsFor(id, lines));
    Tx.ApplyAppend(db, [first] + LineWrites(id, lines), [o, a], Apply);
    ApplyTwo(d2, o, a);
  }

  // ---- Every reachable state ----

  datatype Step =
    | Create(id: Id, doc: Document, lines: seq<Totals.Line>, inputs: seq<Totals.LineInput>)
    | Transition(id: Id, to: Status)
    | FailedCall

  ghost predicate Takes(db: Database, s: Step, db': Database) {
    match s
    case Create(id, doc, lines, inputs) =>
      && id !in db.documents && doc.status == Draft && NumberFree(db, doc.tenant, doc.docType, doc.number)
      && Totals.LinesFrom(lines, inputs, doc.total.currency) && Totals.IsCode(doc.total.currency)
      && doc.total.amount == Totals.SumSubtotals(lines) && db' == WithDocument(db, id, doc, lines)
    case Transition(id, to) =>
      && id in db.documents && IsValidTransition(db.documents[id].status, to)
      && db' == Moved(db, Move(id, db.documents[id].status, to))
    case FailedCall => db' == db
  }

  ghost predicate IsRun(dbs: seq<Database>, steps: seq<Step>) {
    && |dbs| == |steps| + 1 && dbs[0] == EMPTY
    && forall i :: 0 <= i < |steps| ==> Takes(dbs[i], steps[i], dbs[i + 1])
  }

  /** The moves of one document, oldest first. */
  function MovesOf(ms: seq<Move>, id: Id): seq<Move> {
    if ms == [] then [] else
      var init, last := MovesOf(ms[..|ms| - 1], id), ms[|ms| - 1];
      if last.doc == id then init + [last] else init
  }

  function MovesIn(es: seq<Entry>, id: Id): seq<Move> {
    if es == [] then [] else
      var init, last := MovesIn(es[..|es| - 1], id), es[|es| - 1];
      if last.MovedEntry? && last.move.doc == id then init + [last.move] else init
  }

  function CreationsIn(es: seq<Entry>, id: Id): nat {
    if es == [] then 0
    else CreationsIn(es[..|es| - 1], id) + (if es[|es| - 1] == CreatedEntry(id) then 1 else 0)
  }

  /** `log` leads from draft to `status` along the workflow graph. */
  ghost predicate IsWorkflowPath(log: seq<Move>, status: Status) {
    if log == [] then status == Draft else
      var last := log[|log| - 1];
      last.to == status && IsValidTransition(last.from, last.to) && IsWorkflowPath(log[..|log| - 1], last.from)
  }

  /** The four tables tell the same story about one document. */
  ghost predicate Consistent(db: Database, id: Id) {
    && MovesIn(db.outbox, id) == MovesOf(db.transitions, id) == MovesIn(db.audit, id)
    && CreationsIn(db.outbox, id) == CreationsIn(db.audit, id) == (if id in db.documents then 1 else 0)
    && (id in db.documents ==> IsWorkflowPath(MovesOf(db.transitions, id), db.documents[id].status))
    && (id !in db.documents ==> MovesOf(db.transitions, id) == [])
  }

  ghost predicate Inv(db: Database) {
    forall id :: Consistent(db, id)
  }

  lemma AppendMove(ms: seq<Move>, m: Move, id: Id)
    ensures MovesOf(ms + [m], id) == if m.doc == id then MovesOf(ms, id) + [m] else MovesOf(ms, id)
  {
    assert (ms + [m])[..|ms|] == ms;
  }

  lemma AppendEntry(es: seq<Entry>, e: Entry, id: Id)
    ensures MovesIn(es + [e], id) ==
            if e.MovedEntry? && e.move.doc == id then MovesIn(es, id) + [e.move] else MovesIn(es, id)
    ensures CreationsIn(es + [e], id) == CreationsIn(es, id) + if e == CreatedEntry(id) then 1 else 0
  {
    assert (es + [e])[..|es|] == es;
  }

  lemma ExtendPath(log: seq<Move>, m: Move)
    requires IsWorkflowPath(log, m.from) && IsValidTransition(m.from, m.to)
    ensures IsWorkflowPath(log + [m], m.to)
  {
    assert (log + [m])[..|log|] == log;
  }

  lemma MoveKeeps(db: Database, m: Move, id: Id)
    requires m.doc in db.documents && m.from == db.documents[m.doc].status && IsValidTransition(m.from, m.to)
    requires Consistent(db, id)
    ensures Consistent(Moved(db, m), id)
  {
    AppendMove(db.transitions, m, id);
    AppendEntry(db.outbox, MovedEntry(m), id);
    AppendEntry(db.audit, MovedEntry(m), id);
    if m.doc == id { ExtendPath(MovesOf(db.transitions, id), m); }
  }

  lemma CreateKeeps(db: Database, newId: Id, doc: Document, lines: seq<Totals.Line>, id: Id)
    requires newId !in db.documents && doc.status == Draft && Consistent(db, id)
    ensures Consistent(WithDocument(db, newId, doc, lines), id)
  {
    AppendEntry(db.outbox, CreatedEntry(newId), id);
    AppendEntry(db.audit, CreatedEntry(newId), id);
  }

  lemma StepKeeps(db: Database, s: Step, db': Database, id: Id)
    requires Takes(db, s, db') && Consistent(db, id)
    ensures Consistent(db', id)
  {
    hide Consistent, IsValidTransition, NumberFree, WithDocument, Moved;
    hide Totals.LinesFrom, Totals.IsCode, Totals.SumSubtotals;
    match s
    case Create(newId, doc, lines, _) => CreateKeeps(db, newId, doc, lines, id);
    case Transition(d, to) => MoveKeeps(db, Move(d, db.documents[d].status, to), id);
    case FailedCall =>
  }

  lemma {:induction false} RunKeepsInv(dbs: seq<Database>, steps: seq<Step>, i: nat)
    requires IsRun(dbs, steps) && i < |dbs|
    ensures Inv(dbs[i])
    decreases i
  {
    hide Consistent, Takes;
    forall id ensures Consistent(dbs[i], id) {
      if i == 0 {
        EmptyConsistent(id);
      } else {
        RunKeepsInv(dbs, steps, i - 1);
        StepKeeps(dbs[i - 1], steps[i - 1], dbs[i], id);
      }
    }
  }

  lemma EmptyConsistent(id: Id)
    ensures Consistent(EMPTY, id)
  {
  }

  /** In every reachable state the transition log of a document is a workflow path from draft to
      its status, mirrored one-to-one by its outbox and audit rows. */
  lemma LogIsWorkflowPath(dbs: seq<Database>, steps: seq<Step>, i: nat, id: Id)
    requires IsRun(dbs, steps) && i < |dbs| && id in dbs[i].documents
    ensures IsWorkflowPath(MovesOf(dbs[i].transitions, id), dbs[i].documents[id].status)
    ensures MovesIn(dbs[i].outbox, id) == MovesOf(dbs[i].transitions, id) == MovesIn(dbs[i].audit, id)
    ensures CreationsIn(dbs[i].outbox, id) == CreationsIn(dbs[i].audit, id) == 1
  {
    RunKeepsInv(dbs, steps, i);
    hide IsRun;
    assert Consistent(dbs[i], id);
  }

  predicate Terminal(s: Status) {
    AllowedTransitions(s) == []
  }

  lemma TerminalStays(db: Database, s: Step, db': Database, id: Id)
    requires Takes(db, s, db') && id in db.documents && Terminal(db.documents[id].status)
    ensures id in db'.documents && db'.documents[id] == db.documents[id]
  {
    hide NumberFree, Totals.LinesFrom, Totals.IsCode, Totals.SumSubtotals;
  }

  /** A completed, cancelled or rejected document never changes status again. */
  lemma {:induction false} TerminalIsAbsorbing(dbs: seq<Database>, steps: seq<Step>, i: nat, j: nat, id: Id)
    requires IsRun(dbs, steps) && i <= j < |dbs| && id in dbs[i].documents && Terminal(dbs[i].documents[id].status)
    ensures id in dbs[j].documents && dbs[j].documents[id] == dbs[i].documents[id]
    decreases j
  {
    hide Takes, Terminal;
    if i < j {
      TerminalIsAbsorbing(dbs, steps, i, j - 1, id);
      TerminalStays(dbs[j - 1], steps[j - 1], dbs[j], id);
    }
  }

  function Approvals(log: seq<Move>): nat {
    if log == [] then 0 else Approvals(log[..|log| - 1]) + (if log[|log| - 1].to == Approved then 1 else 0)
  }

  lemma {:induction false} ApprovalCount(log: seq<Move>, status: Status)
    requires IsWorkflowPath(log, status)
    ensures status in {Draft, Submitted, Rejected} ==> Approvals(log) == 0
    ensures status in {Approved, Posted, Completed} ==> Approvals(log) == 1
    ensures Approvals(log) <= 1 && !status.Unknown?
    decreases |log|
  {
    if log != [] {
      ApprovalCount(log[..|log| - 1], log[|log| - 1].from);
    }
  }

  /** Every posted or completed document was approved exactly once; one that is still before
      approval, or was rejected, never. */
  lemma ApprovedExactlyOnce(dbs: seq<Database>, steps: seq<Step>, i: nat, id: Id)
    requires IsRun(dbs, steps) && i < |dbs| && id in dbs[i].documents
    ensures var s, n := dbs[i].documents[id].status, Approvals(MovesOf(dbs[i].transitions, id));
            && (s in {Posted, Completed, Approved} ==> n == 1)
            && (s in {Draft, Submitted, Rejected} ==> n == 0) && n <= 1
  {
    LogIsWorkflowPath(dbs, steps, i, id);
    ApprovalCount(MovesOf(dbs[i].transitions, id), dbs[i].documents[id].status);
  }

  // ---- Stored totals and numbers ----

  /** The stored lines of one document, in insertion order. */
  function RowsOf(rows: seq<LineRow>, id: Id): seq<LineRow> {
    if rows == [] then [] else
      var init, last := RowsOf(rows[..|rows| - 1], id), rows[|rows| - 1];
      if last.doc == id then init + [last] else init
  }

  function SumRows(rows: seq<LineRow>): int {
    if rows == [] then 0 else SumRows(rows[..|rows| - 1]) + rows[|rows| - 1].subtotal
  }

  /** The row holds a typed quantity's stored form beside the subtotal computed from what was typed. */
  ghost predicate FromTyped(row: LineRow) {
    exists q: real ::
      row.quantity == Quantities.Stored(q) && row.subtotal == Totals.Round(Totals.Times(row.unitPrice, q))
  }

  /** The subtotal is the rounded price times the quantity beside it. */
  predicate Recomputes(row: LineRow) {
    row.subtotal == Totals.Round(Totals.Times(row.unitPrice, row.quantity))
  }

  /** The k-th stored line is numbered k + 1. */
  ghost predicate RowsAreLines(rows: seq<LineRow>) {
    forall k :: 0 <= k < |rows| ==> rows[k].number == k + 1 && FromTyped(rows[k])
  }

  /** A stored document adds up: its total is the sum of its stored lines. */
  ghost predicate Balanced(db: Database, id: Id) {
    var rows := RowsOf(db.lines, id);
    if id in db.documents then
      && RowsAreLines(rows) && db.documents[id].total.amount == SumRows(rows)
      && Totals.IsCode(db.documents[id].total.currency)
    else rows == []
  }

  ghost predicate NumbersDistinct(db: Database) {
    forall a, b :: a in db.documents && b in db.documents && SameNumber(db.documents[a], db.documents[b]) ==> a == b
  }

  predicate SameNumber(x: Document, y: Document) {
    x.tenant == y.tenant && x.docType == y.docType && x.number == y.number
  }

  lemma {:induction false} RowsOfAppend(a: seq<LineRow>, b: seq<LineRow>, id: Id)
    ensures RowsOf(a + b, id) == RowsOf(a, id) + RowsOf(b, id)
    decreases |b|
  {
    if b == [] {
      assert a + b == a;
    } else {
      RowsOfAppend(a, b[..|b| - 1], id);
      assert (a + b)[..|a + b| - 1] == a + b[..|b| - 1];
    }
  }

  lemma {:induction false} RowsOfOne(rows: seq<LineRow>, owner: Id, id: Id)
    requires forall k :: 0 <= k < |rows| ==> rows[k].doc == owner
    ensures RowsOf(rows, id) == if id == owner then rows else []
    decreases |rows|
  {
    if rows != [] {
      RowsOfOne(rows[..|rows| - 1], owner, id);
      assert rows == rows[..|rows| - 1] + [rows[|rows| - 1]];
    }
  }

  lemma {:induction false} SumsAgree(id: Id, lines: seq<Totals.Line>)
    ensures SumRows(RowsFor(id, lines)) == Totals.SumSubtotals(lines)
    decreases |lines|
  {
    if lines != [] {
      var n := |lines| - 1;
      SumsAgree(id, lines[..n]);
      assert RowsFor(id, lines)[..n] == RowsFor(id, lines[..n]);
    }
  }

  lemma CreateBalances(db: Database, newId: Id, doc: Document, lines: seq<Totals.Line>,
                       inputs: seq<Totals.LineInput>, id: Id)
    requires newId !in db.documents && Balanced(db, newId) && Balanced(db, id)
    requires Totals.LinesFrom(lines, inputs, doc.total.currency) && Totals.IsCode(doc.total.currency)
    requires doc.total.amount == Totals.SumSubtotals(lines)
    ensures Balanced(WithDocument(db, newId, doc, lines), id)
  {
    hide Totals.IsCode, RowsAreLines, Totals.LinesFrom, Totals.SumSubtotals;
    RowsOfAppend(db.lines, RowsFor(newId, lines), id);
    RowsOfOne(RowsFor(newId, lines), newId, id);
    SumsAgree(newId, lines);
    NewRowsAreLines(newId, lines, inputs, doc.total.currency);
    assert RowsOf(db.lines + RowsFor(newId, lines), id) ==
           if id == newId then RowsFor(newId, lines) else RowsOf(db.lines, id);
  }

  lemma NewRowsAreLines(id: Id, lines: seq<Totals.Line>, inputs: seq<Totals.LineInput>, code: string)
    requires Totals.LinesFrom(lines, inputs, code)
    ensures RowsAreLines(RowsFor(id, lines))
  {
    hide Totals.Round, Totals.Times, Quantities.Stored;
    forall k | 0 <= k < |lines| ensures
        RowsFor(id, lines)[k].number == k + 1 && FromTyped(RowsFor(id, lines)[k])
    {
      assert Totals.LineFrom(lines[k], inputs[k], k + 1, code);
      assert RowsFor(id, lines)[k].quantity == Quantities.Stored(lines[k].quantity);
    }
  }

  lemma StepBalances(db: Database, s: Step, db': Database)
    requires Takes(db, s, db') && NumbersDistinct(db) && forall id :: Balanced(db, id)
    ensures NumbersDistinct(db') && forall id :: Balanced(db', id)
  {
    hide Totals.LinesFrom, Totals.IsCode, Totals.SumSubtotals, RowsAreLines;
    match s
    case Create(newId, doc, lines, inputs) =>
      forall id ensures Balanced(db', id) { CreateBalances(db, newId, doc, lines, inputs, id); }
    case Transition(_, _) =>
      forall id ensures Balanced(db', id) { assert Balanced(db, id); }
    case FailedCall =>
  }

  /** In every reachable state the stored total of a document is the sum of its stored lines, the
      lines are numbered from 1, each holds the subtotal of the quantity that was typed beside the
      stored form of that quantity, and no two documents of one tenant and type share a number. */
  lemma {:induction false} StoredTotalsBalance(dbs: seq<Database>, steps: seq<Step>, i: nat)
    requires IsRun(dbs, steps) && i < |dbs|
    ensures NumbersDistinct(dbs[i]) && forall id :: Balanced(dbs[i], id)
    decreases i
  {
    hide Takes;
    if i > 0 {
      hide Balanced, NumbersDistinct;
      StoredTotalsBalance(dbs, steps, i - 1);
      StepBalances(dbs[i - 1], steps[i - 1], dbs[i]);
    }
  }

  /** Every stored subtotal is within half a minor unit, plus the price times the storage error, of the
      price times the quantity beside it. */
  lemma StoredLinesAreClose(dbs: seq<Database>, steps: seq<Step>, i: nat, id: Id, k: nat)
    requires IsRun(dbs, steps) && i < |dbs| && id in dbs[i].documents && k < |RowsOf(dbs[i].lines, id)|
    ensures var r := RowsOf(dbs[i].lines, id)[k];
            Quantities.Abs(r.subtotal as real - Totals.Times(r.unitPrice, r.quantity)) <=
            0.5 + Quantities.Abs(r.unitPrice as real) * 0.000050005
  {
    StoredTotalsBalance(dbs, steps, i);
    hide IsRun, NumbersDistinct, Totals.IsCode, Totals.Round, Totals.Times, Quantities.Stored;
    assert Balanced(dbs[i], id);
    var r := RowsOf(dbs[i].lines, id)[k];
    assert FromTyped(r);
    var q: real :| r.quantity == Quantities.Stored(q) && r.subtotal == Totals.Round(Totals.Times(r.unitPrice, q));
    Quantities.SubtotalIsClose(r.unitPrice, q);
  }

  /** All quantities typed when `id` was created have at most four decimals. */
  ghost predicate PreciseStep(s: Step, id: Id) {
    s.Create? && s.id == id ==> forall k :: 0 <= k < |s.inputs| ==> Quantities.FourDecimals(s.inputs[k].quantity)
  }

  ghost predicate AllRecompute(rows: seq<LineRow>) {
    forall k :: 0 <= k < |rows| ==> Recomputes(rows[k])
  }

  lemma NewRowsRecompute(id: Id, lines: seq<Totals.Line>, inputs: seq<Totals.LineInput>, code: string)
    requires Totals.LinesFrom(lines, inputs, code)
    requires forall k :: 0 <= k < |inputs| ==> Quantities.FourDecimals(inputs[k].quantity)
    ensures AllRecompute(RowsFor(id, lines))
  {
    hide Totals.Round, Totals.Times, Quantities.Stored, Quantities.FourDecimals;
    forall k | 0 <= k < |lines| ensures Recomputes(RowsFor(id, lines)[k]) {
      assert Totals.LineFrom(lines[k], inputs[k], k + 1, code);
      Quantities.StoredIffFourDecimals(inputs[k].quantity);
    }
  }

  lemma StepRecomputes(db: Database, s: Step, db': Database, id: Id)
    requires Takes(db, s, db') && PreciseStep(s, id) && Balanced(db, id) && AllRecompute(RowsOf(db.lines, id))
    ensures AllRecompute(RowsOf(db'.lines, id))
  {
    hide Recomputes, RowsAreLines, NumberFree, Quantities.FourDecimals;
    hide Totals.LinesFrom, Totals.IsCode, Totals.SumSubtotals;
    if s.Create? {
      RowsOfAppend(db.lines, RowsFor(s.id, s.lines), id);
      RowsOfOne(RowsFor(s.id, s.lines), s.id, id);
      if s.id == id { NewRowsRecompute(id, s.lines, s.inputs, s.doc.total.currency); }
    }
  }

  /** If the quantities typed for a document have at most four decimals, then in every later state
      each of its subtotals can be recomputed from the price and quantity stored beside it. */
  lemma {:induction false} PreciseLinesRecompute(dbs: seq<Database>, steps: seq<Step>, i: nat, id: Id)
    requires IsRun(dbs, steps) && i < |dbs| && forall k :: 0 <= k < |steps| ==> PreciseStep(steps[k], id)
    ensures AllRecompute(RowsOf(dbs[i].lines, id))
    decreases i
  {
    hide Takes, Balanced, AllRecompute, PreciseStep, NumbersDistinct;
    if i > 0 {
      PreciseLinesRecompute(dbs, steps, i - 1, id);
      StoredTotalsBalance(dbs, steps, i - 1);
      StepRecomputes(dbs[i - 1], steps[i - 1], dbs[i], id);
    } else {
      NoRowsRecompute(id);
    }
  }

  lemma NoRowsRecompute(id: Id)
    ensures AllRecompute(RowsOf(EMPTY.lines, id))
  {
  }

  /** The stored lines of a new document are the lines that were asked for, one by one. */
  lemma NewRowsExact(id: Id, lines: seq<Totals.Line>, inputs: seq<Totals.LineInput>, code: string, i: nat)
    requires Totals.LinesFrom(lines, inputs, code) && i < |inputs|
    ensures |RowsFor(id, lines)| == |inputs|
    ensures RowsFor(id, lines)[i] ==
            LineRow(id, i + 1, Quantities.Stored(inputs[i].quantity), inputs[i].unit, inputs[i].unitPrice.amount,
                    Totals.Round(Totals.Times(inputs[i].unitPrice.amount, inputs[i].quantity)))
  {
    hide Quantities.Stored, Totals.Round, Totals.Times;
    assert Totals.LineFrom(lines[i], inputs[i], i + 1, code);
  }

  /** Documents of type invoice take their numbers from the row for entity document, sub-type invoice. */
  lemma InvoiceCounter(tenant: Id)
    ensures CounterKey(tenant, "invoice") == Numbers.RowKey(tenant, "document", "invoice")
  {
    assert TrimLeft("invoice") == "invoice" && TrimRight("invoice") == "invoice";
  }

  /** The counter of any document type is named by the type without the spaces around it, letter by
      letter in lower case. */
  lemma CounterIsNamed(tenant: Id, docType: string) returns (left: string, right: string)
    ensures var key := CounterKey(tenant, docType);
            && key.tenant == tenant && key.entityType == "document"
            && |docType| == |left| + |key.subType| + |right|
            && (forall i :: 0 <= i < |key.subType| ==> key.subType[i] == Lower(docType[|left| + i]))
            && (key.subType != "" ==> !IsSpace(key.subType[0]) && !IsSpace(key.subType[|key.subType| - 1]))
    ensures left <= docType && forall i :: 0 <= i < |left| ==> IsSpace(left[i])
    ensures right == docType[|docType| - |right|..] && forall i :: 0 <= i < |right| ==> IsSpace(right[i])
  {
    hide TrimSpace;
    left, right := TrimMeans(docType);
  }
}
