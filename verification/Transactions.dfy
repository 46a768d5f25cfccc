/** `WithTx` of `pkg/database/tx.go`: all-or-nothing around a callback, joining an enclosing
    transaction when there is one. A callback is the sequence of writes it attempts. */
module Transactions {

  /** `Fail`: the callback returns an error of its own.
      `Write(w, ok, next)`: attempt `w`; if it fails the callback returns the error.
      `Nested(body, next)`: call `WithTx` again with `body`; return its error if it fails.
      `Ignored(body, next)`: the same, but go on even if it fails. */
  datatype Body<W> =
    | Done
    | Fail
    | Write(w: W, ok: bool, next: Body<W>)
    | Nested(body: Body<W>, next: Body<W>)
    | Ignored(body: Body<W>, next: Body<W>)

  /** A connection; `aborted` once a statement of its transaction has failed. PostgreSQL then refuses
      every further statement, and the commit reports a rollback. */
  datatype Conn<S> = Conn(state: S, aborted: bool)

  datatype Result<S> = Result(conn: Conn<S>, ok: bool)

  /** The callback itself, on the connection it was given; `inTx` tells whether that is inside a
      transaction. */
  function Run<S, W>(b: Body<W>, c: Conn<S>, apply: (S, W) -> S, inTx: bool): Result<S> {
    match b
    case Done => Result(c, true)
    case Fail => Result(c, false)
    case Write(w, ok, next) =>
      if c.aborted || !ok then Result(c.(aborted := inTx), false)
      else Run(next, c.(state := apply(c.state, w)), apply, inTx)
    case Nested(body, next) =>
      var r := Run(body, c, apply, inTx);
      if r.ok then Run(next, r.conn, apply, inTx) else r
    case Ignored(body, next) => Run(next, Run(body, c, apply, inTx).conn, apply, inTx)
  }

  /** `WithTx` on its own: begin, run, commit or roll back. */
  function WithTx<S, W>(b: Body<W>, s: S, apply: (S, W) -> S, beginOk: bool, commitOk: bool): Result<S> {
    if !beginOk then Result(Conn(s, false), false)
    else
      var r := Run(b, Conn(s, false), apply, true);
      if r.ok && !r.conn.aborted && commitOk then r else Result(Conn(s, false), false)
  }

  /** `WithTx` inside a transaction, or without a pool: the callback runs directly. */
  function Joined<S, W>(b: Body<W>, c: Conn<S>, apply: (S, W) -> S, inTx: bool): Result<S> {
    Run(b, c, apply, inTx)
  }

  /** What a callback does to a connection, independently of what is stored. */
  datatype Trace<W> = Trace(writes: seq<W>, ok: bool, aborted: bool)

  function Then<W>(first: Trace<W>, next: Trace<W>): Trace<W> {
    next.(writes := first.writes + next.writes)
  }

  function TraceOf<W>(b: Body<W>, aborted: bool, inTx: bool): Trace<W> {
    match b
    case Done => Trace([], true, aborted)
    case Fail => Trace([], false, aborted)
    case Write(w, ok, next) =>
      if aborted || !ok then Trace([], false, inTx) else Then(Trace([w], true, false), TraceOf(next, false, inTx))
    case Nested(body, next) =>
      var t := TraceOf(body, aborted, inTx);
      if t.ok then Then(t, TraceOf(next, t.aborted, inTx)) else t
    case Ignored(body, next) =>
      var t := TraceOf(body, aborted, inTx);
      Then(t, TraceOf(next, t.aborted, inTx))
  }

  /** The writes that reach the connection of a transaction. */
  function Performed<W>(b: Body<W>): seq<W> {
    TraceOf(b, false, true).writes
  }

  /** The callback returns no error and no statement in it failed, ignored or not. */
  predicate Clean<W>(b: Body<W>) {
    var t := TraceOf(b, false, true);
    t.ok && !t.aborted
  }

  /** The nested call returns no error. */
  predicate Succeeds<W>(b: Body<W>) {
    TraceOf(b, false, true).ok
  }

  /** The writes there would be if every nested call were all-or-nothing by itself. */
  function AsUnits<W>(b: Body<W>): seq<W> {
    match b
    case Done => []
    case Fail => []
    case Write(w, _, next) => [w] + AsUnits(next)
    case Nested(body, next) => AsUnits(body) + AsUnits(next)
    case Ignored(body, next) => (if Succeeds(body) then AsUnits(body) else []) + AsUnits(next)
  }

  /** No nested call whose error is ignored has written anything before it failed. */
  predicate Tidy<W>(b: Body<W>) {
    match b
    case Done => true
    case Fail => true
    case Write(_, _, next) => Tidy(next)
    case Nested(body, next) => Tidy(body) && Tidy(next)
    case Ignored(body, next) => (if Succeeds(body) then Tidy(body) else Performed(body) == []) && Tidy(next)
  }

  function ApplyAll<S, W>(s: S, ws: seq<W>, apply: (S, W) -> S): S {
    if ws == [] then s else ApplyAll(apply(s, ws[0]), ws[1..], apply)
  }

  lemma {:induction false} ApplyAppend<S, W>(s: S, a: seq<W>, b: seq<W>, apply: (S, W) -> S)
    ensures ApplyAll(s, a + b, apply) == ApplyAll(ApplyAll(s, a, apply), b, apply)
    decreases |a|
  {
    if a == [] {
      assert a + b == b;
    } else {
      assert (a + b)[0] == a[0] && (a + b)[1..] == a[1..] + b;
      ApplyAppend(apply(s, a[0]), a[1..], b, apply);
    }
  }

  /** Running a callback performs exactly the writes of its trace, however deeply they are nested, and
      ends as the trace says. */
  lemma {:induction false} RunExact<S, W>(b: Body<W>, c: Conn<S>, apply: (S, W) -> S, inTx: bool)
    requires c.aborted ==> inTx
    ensures var t := TraceOf(b, c.aborted, inTx);
            Run(b, c, apply, inTx) == Result(Conn(ApplyAll(c.state, t.writes, apply), t.aborted), t.ok)
    ensures TraceOf(b, c.aborted, inTx).aborted ==> inTx
  {
    match b
    case Done =>
    case Fail =>
    case Write(w, ok, next) =>
      if !c.aborted && ok {
        RunExact(next, c.(state := apply(c.state, w)), apply, inTx);
        var ws := TraceOf(next, false, inTx).writes;
        assert ([w] + ws)[1..] == ws;
      }
    case Nested(body, next) =>
      RunExact(body, c, apply, inTx);
      var r := Run(body, c, apply, inTx);
      RunExact(next, r.conn, apply, inTx);
      ApplyAppend(c.state, TraceOf(body, c.aborted, inTx).writes, TraceOf(next, r.conn.aborted, inTx).writes, apply);
    case Ignored(body, next) =>
      RunExact(body, c, apply, inTx);
      var r := Run(body, c, apply, inTx);
      RunExact(next, r.conn, apply, inTx);
      ApplyAppend(c.state, TraceOf(body, c.aborted, inTx).writes, TraceOf(next, r.conn.aborted, inTx).writes, apply);
  }

  /** An outermost transaction commits every write it performed, or none. It commits exactly when the
      callback returns no error and no statement failed: an ignored error of a failed statement still
      undoes everything. */
  lemma AllOrNothing<S, W>(b: Body<W>, s: S, apply: (S, W) -> S, beginOk: bool, commitOk: bool)
    ensures var r := WithTx(b, s, apply, beginOk, commitOk);
            && (r.ok <==> beginOk && commitOk && Clean(b))
            && r.conn == Conn(if r.ok then ApplyAll(s, Performed(b), apply) else s, false)
  {
    RunExact(b, Conn(s, false), apply, true);
  }

  /** Inside a transaction a failing call undoes nothing: whatever it wrote before the error is left
      to the enclosing transaction. Alone it has no effect. */
  lemma JoinedCallsDoNotUndo<S, W>(b: Body<W>, s: S, apply: (S, W) -> S, beginOk: bool, commitOk: bool)
    requires !Succeeds(b)
    ensures Joined(b, Conn(s, false), apply, true) ==
            Result(Conn(ApplyAll(s, Performed(b), apply), TraceOf(b, false, true).aborted), false)
    ensures WithTx(b, s, apply, beginOk, commitOk) == Result(Conn(s, false), false)
  {
    RunExact(b, Conn(s, false), apply, true);
  }

  lemma SplitConcat<W>(a: seq<W>, b: seq<W>, c: seq<W>, d: seq<W>)
    requires a + b == c + d && |a| >= |c| && |b| >= |d|
    ensures a == c && b == d
  {
    assert |a + b| == |c + d|;
    assert a == (a + b)[..|a|] && c == (c + d)[..|c|];
    assert b == (a + b)[|a|..] && d == (c + d)[|c|..];
  }

  /** A transaction that is aborted stays so. */
  lemma {:induction false} AbortedStays<W>(b: Body<W>)
    ensures TraceOf(b, true, true).aborted
  {
    match b
    case Done =>
    case Fail =>
    case Write(_, _, _) =>
    case Nested(body, next) =>
      AbortedStays(body);
      AbortedStays(next);
    case Ignored(body, next) =>
      AbortedStays(body);
      AbortedStays(next);
  }

  lemma {:induction false} UnitsIff<W>(b: Body<W>)
    requires Clean(b)
    ensures |Performed(b)| >= |AsUnits(b)|
    ensures Performed(b) == AsUnits(b) <==> Tidy(b)
  {
    match b
    case Done =>
    case Write(w, _, next) =>
      UnitsIff(next);
      if Performed(b) == AsUnits(b) { SplitConcat([w], Performed(next), [w], AsUnits(next)); }
    case Nested(body, next) =>
      if TraceOf(body, false, true).aborted { AbortedStays(next); }
      UnitsIff(body);
      UnitsIff(next);
      if Performed(b) == AsUnits(b) { SplitConcat(Performed(body), Performed(next), AsUnits(body), AsUnits(next)); }
    case Ignored(body, next) =>
      if TraceOf(body, false, true).aborted { AbortedStays(next); }
      if Succeeds(body) { UnitsIff(body); }
      UnitsIff(next);
      var units := if Succeeds(body) then AsUnits(body) else [];
      if Performed(b) == AsUnits(b) { SplitConcat(Performed(body), Performed(next), units, AsUnits(next)); }
  }

  /** A store that shows which writes reached it. */
  function Logged<W>(log: seq<W>, w: W): seq<W> {
    log + [w]
  }

  lemma {:induction false} LogShowsWrites<W>(log: seq<W>, ws: seq<W>)
    ensures ApplyAll(log, ws, Logged) == log + ws
    decreases |ws|
  {
    if ws == [] {
      assert log + ws == log;
    } else {
      LogShowsWrites(log + [ws[0]], ws[1..]);
      assert log + [ws[0]] + ws[1..] == log + ws;
    }
  }

  /** The exact condition under which joining keeps nested calls whole: what a committed transaction
      stores consists of complete nested calls if and only if no nested call that returned an error
      of its own, which was ignored, had written before. */
  lemma NestedCallsStayWholeIff<W>(b: Body<W>)
    requires Clean(b)
    ensures WithTx(b, [], Logged, true, true) == Result(Conn(Performed(b), false), true)
    ensures WithTx(b, [], Logged, true, true).conn.state == AsUnits(b) <==> Tidy(b)
  {
    AllOrNothing(b, [], Logged, true, true);
    LogShowsWrites([], Performed(b));
    UnitsIff(b);
    assert [] + Performed(b) == Performed(b);
  }
}
