/** The table of number sequences and the two calls that read a counter: `AcquireNextNumber` of
    `internal/core/repository/postgres/sequence_repo.go`, undisturbed by other clients, and
    `PreviewNextNumber` of `internal/core/usecase/sequence/sequence_usecase.go`. */
module SequenceStore {
  import opened Shared
  import opened Calendar
  import opened NumberFormat
  import opened SequenceEngine

  /** What the queries look a counter up by; unique in the table. */
  datatype RowKey = RowKey(tenant: Id, entityType: string, subType: string)

  type Rows = map<RowKey, Sequence>

  datatype StoreError = NotFound | StorageFailed

  /** The number due at `now`: a formatting of the next value of `s`. */
  ghost predicate IsDue(s: Sequence, now: Time, extra: map<string, string>, text: string) {
    RowOk(s) && Valid(now) && FormatsTo(s.template, EnvOf(s, now, extra, NextValue(s, now).value), text)
  }

  /** Which of the storage operations of a call fail. */
  datatype Faults = Faults(beginOk: bool, readOk: bool, writeOk: bool, commitOk: bool)

  predicate AllWork(f: Faults) {
    f.beginOk && f.readOk && f.writeOk && f.commitOk
  }

  ghost predicate RowsOk(rows: Rows) {
    forall k :: k in rows ==> RowOk(rows[k])
  }

  predicate Found(rows: Rows, key: RowKey) {
    key in rows && rows[key].active
  }

  class Store {
    var rows: Rows

    constructor (rows: Rows)
      ensures this.rows == rows
    {
      this.rows := rows;
    }

    method AcquireNextNumber(key: RowKey, extra: map<string, string>, now: Time, f: Faults)
      returns (r: Result<string, StoreError>)
      requires Valid(now) && RowsOk(rows)
      modifies this
      ensures r.Ok? <==> Found(old(rows), key) && AllWork(f)
      ensures r.Ok? <==>
              key in old(rows) && old(rows)[key].active && f.beginOk && f.readOk && f.writeOk && f.commitOk
      ensures r == Err(NotFound) <==> !Found(old(rows), key) && f.beginOk && f.readOk
      ensures r.Ok? ==> IsDue(old(rows)[key], now, extra, r.value)
      ensures r.Ok? ==> rows == old(rows)[key := Advanced(old(rows)[key], now, r.value)]
      ensures r.Err? ==> rows == old(rows)
      ensures RowsOk(rows)
    {
      hide FormatsTo, NextValue;
      if !f.beginOk || !f.readOk { return Err(StorageFailed); }
      if !Found(rows, key) { return Err(NotFound); }
      var before, seen := rows, rows[key];
      var next := NextValue(seen, now);
      var formatted := FormatNumber(seen.template, EnvOf(seen, now, extra, next.value));
      var lastReset := if next.wasReset || seen.lastResetAt.None? then Some(now) else seen.lastResetAt;
      if !f.writeOk { return Err(StorageFailed); }
      rows := rows[key := seen.(currentValue := next.value, lastNumber := formatted, lastResetAt := lastReset)];
      if !f.commitOk {
        rows := before;
        return Err(StorageFailed);
      }
      return Ok(formatted);
    }

    method PreviewNextNumber(key: RowKey, extra: map<string, string>, now: Time, readOk: bool)
      returns (r: Result<string, StoreError>)
      requires Valid(now) && RowsOk(rows)
      ensures r.Ok? <==> key in rows && rows[key].active && readOk
      ensures r == Err(NotFound) <==> !Found(rows, key) && readOk
      ensures r.Ok? ==> IsDue(rows[key], now, extra, r.value)
    {
      if !readOk { return Err(StorageFailed); }
      if !Found(rows, key) { return Err(NotFound); }
      var s := rows[key];
      var text := FormatNumber(s.template, EnvOf(s, now, extra, NextValue(s, now).value));
      return Ok(text);
    }
  }

  /** On a well-formed template with brace-free values a preview shows exactly the number that an
      acquisition at the same moment hands out, and the acquired number is the stored last one. */
  lemma PreviewIsNext(s: Sequence, now: Time, extra: map<string, string>, ps: seq<Piece>,
                      preview: string, acquired: string)
    requires IsDue(s, now, extra, preview) && IsDue(s, now, extra, acquired)
    requires EnvOk(EnvOf(s, now, extra, NextValue(s, now).value)) && WellFormed(ps)
    requires EffectiveTemplate(s.template) == Unparse(ps)
    ensures preview == acquired == Advanced(s, now, acquired).lastNumber
  {
    var env := EnvOf(s, now, extra, NextValue(s, now).value);
    FormatIsRender(s.template, env, ps, preview);
    FormatIsRender(s.template, env, ps, acquired);
  }

  // ---- Calls without extra tokens ----

  /** The number due when no extra tokens are passed: there is one order only to visit them in. */
  function DueText(s: Sequence, now: Time): string
    requires RowOk(s) && Valid(now)
  {
    RewriteAll(Passes(EnvOf(s, now, map[], NextValue(s, now).value), []), EffectiveTemplate(s.template))
  }

  lemma DueIffDueText(s: Sequence, now: Time, text: string)
    requires RowOk(s) && Valid(now)
    ensures IsDue(s, now, map[], text) <==> text == DueText(s, now)
  {
    var env := EnvOf(s, now, map[], NextValue(s, now).value);
    assert Enumerates([], env.extra.Keys) && InExtra([], env);
    hide NextValue, Passes, RewriteAll;
    if FormatsTo(s.template, env, text) {
      var order :| Enumerates(order, env.extra.Keys) && InExtra(order, env)
        && text == RewriteAll(Passes(env, order), EffectiveTemplate(s.template));
      assert forall x :: x in order ==> x in Elems(order);
      assert order == [];
    }
  }

  /** Handing out a number always changes the stored row. */
  lemma AdvancingChanges(s: Sequence, now: Time, text: string)
    requires RowOk(s) && Valid(now)
    ensures Advanced(s, now, text) != s
  {
  }
}
