/** No number is issued twice: the counter, the reset periods and the template together. */
module NumberUniqueness {
  import opened Shared
  import opened Decimal
  import opened Calendar
  import opened NumberFormat
  import opened SequenceEngine

  ghost predicate HasToken(ps: seq<Piece>, name: string) {
    exists i :: 0 <= i < |ps| && ps[i] == Tok(name)
  }

  /** The template shows the counter: a SEQ token that no extra token overrides. */
  ghost predicate ShowsCounter(ps: seq<Piece>, extra: map<string, string>) {
    exists i :: 0 <= i < |ps| && IsCounter(ps[i], extra)
  }

  predicate IsCounter(p: Piece, extra: map<string, string>) {
    p.Tok? && IsSeqName(p.name) && p.name !in extra
  }

  /** The template shows which reset period a number belongs to. */
  ghost predicate ShowsPeriod(policy: ResetPolicy, ps: seq<Piece>) {
    && (policy != Never ==> HasToken(ps, "YYYY"))
    && (policy == Monthly || policy == Daily ==> HasToken(ps, "MM"))
    && (policy == Daily ==> HasToken(ps, "DD"))
  }

  // ---- Injectivity of rendering ----

  /** Two renderings of one sequence, the second with a counter at least as large. */
  ghost predicate Comparable(a: Env, b: Env) {
    && Valid(a.now) && Valid(b.now) && b == a.(now := b.now, val := b.val)
    && 0 <= a.val <= b.val && 0 <= a.now.year <= 9999 && 0 <= b.now.year <= 9999
  }

  lemma SeqTextGrows(width: int, v: nat, w: nat)
    requires v <= w
    ensures |SeqText(width, v)| <= |SeqText(width, w)|
  {
    PrintLengthMonotone(v, w);
  }

  lemma DateFieldsFixed(t: Time)
    requires Valid(t) && 0 <= t.year <= 9999
    ensures |YearText(t.year)| == 4 && |ShortYearText(t.year)| == 2
    ensures |TwoDigits(t.month)| == 2 && |TwoDigits(t.day)| == 2
  {
    assert Power10(2) == 100 && Power10(4) == 10000;
    PaddedFits(4, t.year);
    PaddedFits(2, t.year % 100);
    PaddedFits(2, t.month);
    PaddedFits(2, t.day);
  }

  lemma TokenGrows(a: Env, b: Env, name: string)
    requires Comparable(a, b)
    ensures |TokenText(a, name)| <= |TokenText(b, name)|
  {
    DateFieldsFixed(a.now);
    DateFieldsFixed(b.now);
    hide Valid, YearText, ShortYearText, TwoDigits, SeqText;
    if IsSeqName(name) { SeqTextGrows(SeqWidth(name, a.padding), a.val, b.val); }
  }

  lemma {:induction false} RenderGrows(a: Env, b: Env, ps: seq<Piece>)
    requires Comparable(a, b)
    ensures |Render(a, ps)| <= |Render(b, ps)|
  {
    hide Comparable, TokenText;
    if ps != [] {
      if ps[0].Tok? { TokenGrows(a, b, ps[0].name); }
      RenderGrows(a, b, ps[1..]);
    }
  }

  /** Equal renderings agree piece by piece: no piece can shrink to make room for another. */
  lemma {:induction false} EqualRenderings(a: Env, b: Env, ps: seq<Piece>, i: nat)
    requires Comparable(a, b) && Render(a, ps) == Render(b, ps) && i < |ps|
    ensures PieceText(a, ps[i]) == PieceText(b, ps[i])
    decreases |ps|
  {
    var x, y := PieceText(a, ps[0]), PieceText(b, ps[0]);
    if ps[0].Tok? { TokenGrows(a, b, ps[0].name); }
    RenderGrows(a, b, ps[1..]);
    hide Comparable, TokenText, PieceText;
    SplitEqual(x, Render(a, ps[1..]), y, Render(b, ps[1..]));
    if i > 0 { EqualRenderings(a, b, ps[1..], i - 1); }
  }

  lemma SplitEqual(x: string, xs: string, y: string, ys: string)
    requires x + xs == y + ys && |x| <= |y| && |xs| <= |ys|
    ensures x == y && xs == ys
  {
    assert |x + xs| == |y + ys|;
    assert x == (x + xs)[..|x|] && y == (y + ys)[..|x|];
    assert xs == (x + xs)[|x|..] && ys == (y + ys)[|x|..];
  }

  lemma TwoDigitsInjective(m: nat, n: nat)
    requires Padded(2, m) == Padded(2, n)
    ensures m == n
  {
    PaddedRoundTrip(2, m);
    PaddedRoundTrip(2, n);
  }

  /** A rendering that shows counter and period determines both. */
  lemma RenderingDetermines(policy: ResetPolicy, a: Env, b: Env, ps: seq<Piece>)
    requires Comparable(a, b) && Render(a, ps) == Render(b, ps)
    requires ShowsCounter(ps, a.extra) && ShowsPeriod(policy, ps)
    ensures a.val == b.val && SamePeriod(policy, a.now, b.now)
  {
    var c :| 0 <= c < |ps| && IsCounter(ps[c], a.extra);
    EqualRenderings(a, b, ps, c);
    CounterText(a, ps[c].name);
    CounterText(b, ps[c].name);
    SeqTextInjective(SeqWidth(ps[c].name, a.padding), a.val, b.val);
    if policy != Never { SameYear(a, b, ps); }
    if policy == Monthly || policy == Daily { SameMonth(a, b, ps); }
    if policy == Daily { SameDay(a, b, ps); }
  }

  lemma CounterText(e: Env, name: string)
    requires Valid(e.now) && IsSeqName(name) && name !in e.extra
    ensures TokenText(e, name) == SeqText(SeqWidth(name, e.padding), e.val)
  {
    assert name[0] == 'S' && name[1] == 'E';
    assert "SUFFIX"[1] == 'U';
  }

  lemma SameYear(a: Env, b: Env, ps: seq<Piece>)
    requires Comparable(a, b) && Render(a, ps) == Render(b, ps) && HasToken(ps, "YYYY")
    ensures a.now.year == b.now.year
  {
    var i :| 0 <= i < |ps| && ps[i] == Tok("YYYY");
    EqualRenderings(a, b, ps, i);
    PaddedRoundTrip(4, a.now.year);
    PaddedRoundTrip(4, b.now.year);
  }

  lemma SameMonth(a: Env, b: Env, ps: seq<Piece>)
    requires Comparable(a, b) && Render(a, ps) == Render(b, ps) && HasToken(ps, "MM")
    ensures a.now.month == b.now.month
  {
    var i :| 0 <= i < |ps| && ps[i] == Tok("MM");
    EqualRenderings(a, b, ps, i);
    TwoDigitsInjective(a.now.month, b.now.month);
  }

  lemma SameDay(a: Env, b: Env, ps: seq<Piece>)
    requires Comparable(a, b) && Render(a, ps) == Render(b, ps) && HasToken(ps, "DD")
    ensures a.now.day == b.now.day
  {
    var i :| 0 <= i < |ps| && ps[i] == Tok("DD");
    EqualRenderings(a, b, ps, i);
    TwoDigitsInjective(a.now.day, b.now.day);
  }

  // ---- The theorem ----

  /** The conditions on one sequence: brace-free texts and a template that parses into `ps`. */
  ghost predicate Configured(cfg: Sequence, extra: map<string, string>, ps: seq<Piece>) {
    && WellFormed(ps) && EffectiveTemplate(cfg.template) == Unparse(ps)
    && BraceFree(cfg.prefix) && BraceFree(cfg.suffix)
    && forall k :: k in extra ==> BraceFree(k) && BraceFree(extra[k])
  }

  /** The calls all pass the same extra tokens and happen in the years 0 to 9999. */
  ghost predicate Ordinary(log: seq<Issue>, extra: map<string, string>) {
    forall i :: 0 <= i < |log| ==> log[i].extra == extra && 0 <= log[i].at.year <= 9999
  }

  lemma IssuedText(cfg: Sequence, log: seq<Issue>, extra: map<string, string>, ps: seq<Piece>, i: nat)
    requires Texts(cfg, log) && Configured(cfg, extra, ps) && Ordinary(log, extra) && i < |log|
    ensures Valid(log[i].at) && log[i].text == Render(EnvOf(cfg, log[i].at, extra, log[i].value), ps)
  {
    assert TextMatches(cfg, log[i]);
    FormatIsRender(cfg.template, EnvOf(cfg, log[i].at, extra, log[i].value), ps, log[i].text);
  }

  /** The texts of a counted log are pairwise distinct. */
  lemma LogTextsDistinct(cfg: Sequence, log: seq<Issue>, extra: map<string, string>, ps: seq<Piece>, j: nat, k: nat)
    requires Counted(cfg, log) && Texts(cfg, log) && cfg.startValue >= 1 && cfg.incrementBy >= 1 && j < k < |log|
    requires Configured(cfg, extra, ps) && Ordinary(log, extra)
    requires ShowsCounter(ps, extra) && ShowsPeriod(cfg.policy, ps)
    ensures log[j].text != log[k].text
  {
    IssuedText(cfg, log, extra, ps, j);
    IssuedText(cfg, log, extra, ps, k);
    CountedFromStart(cfg, log, j);
    CountedFromStart(cfg, log, k);
    var a, b := EnvOf(cfg, log[j].at, extra, log[j].value), EnvOf(cfg, log[k].at, extra, log[k].value);
    if SamePeriod(cfg.policy, log[j].at, log[k].at) { CountedIncreases(cfg, log, j, k); }
    hide Configured, Render, SamePeriod, ShowsCounter, ShowsPeriod, Valid, Counted, Texts;
    if log[j].text == log[k].text {
      if a.val <= b.val {
        RenderingDetermines(cfg.policy, a, b, ps);
      } else {
        RenderingDetermines(cfg.policy, b, a, ps);
        PeriodSymmetric(cfg.policy, b.now, a.now);
      }
    }
  }

  /** Over every run whose calls all pass the same extra tokens, the issued numbers are pairwise
      distinct, even across resets and after the counter has outgrown its padding. */
  lemma NumbersAreUnique(states: seq<System>, events: seq<Event>, n: nat, extra: map<string, string>, ps: seq<Piece>,
                         j: nat, k: nat)
    requires IsRun(states, events) && n < |states| && j < k < |states[n].issued|
    requires Configured(states[0].row, extra, ps) && Ordinary(states[n].issued, extra)
    requires ShowsCounter(ps, extra) && ShowsPeriod(states[0].row.policy, ps)
    ensures states[n].issued[j].text != states[n].issued[k].text
  {
    hide Configured, ShowsCounter, ShowsPeriod, Ordinary;
    RunKeepsInv(states, events, n);
    LogTextsDistinct(states[0].row, states[n].issued, extra, ps, j, k);
  }

  lemma PeriodSymmetric(policy: ResetPolicy, a: Time, b: Time)
    ensures SamePeriod(policy, a, b) <==> SamePeriod(policy, b, a)
  {
  }

  // ---- The conditions are exact ----

  /** Without a live SEQ token the counter is invisible. */
  lemma {:induction false} CounterIsNeeded(a: Env, v: int, ps: seq<Piece>)
    requires Valid(a.now) && !ShowsCounter(ps, a.extra)
    ensures Render(a, ps) == Render(a.(val := v), ps)
    decreases |ps|
  {
    if ps != [] {
      assert !IsCounter(ps[0], a.extra);
      assert !ShowsCounter(ps[1..], a.extra) by {
        forall i | 0 <= i < |ps[1..]| ensures !IsCounter(ps[1..][i], a.extra) { assert ps[1..][i] == ps[i + 1]; }
      }
      CounterIsNeeded(a, v, ps[1..]);
    }
  }

  /** One undisturbed call, from begin to commit. */
  lemma AcquireOnce(s: System, c: Id, extra: map<string, string>, text: string)
    returns (states: seq<System>, events: seq<Event>)
    requires s.holder.None? && s.clients == map[] && s.row.active && RowOk(s.row) && Valid(s.clock)
    requires FormatsTo(s.row.template, EnvOf(s.row, s.clock, extra, NextValue(s.row, s.clock).value), text)
    ensures |events| == 5 && |states| == 6 && states[0] == s
    ensures forall i :: 0 <= i < 5 ==> Step(states[i], events[i], states[i + 1])
    ensures states[5] == s.(row := Advanced(s.row, s.clock, text),
                            issued := s.issued + [Issue(NextValue(s.row, s.clock).value, s.clock, extra, text)])
  {
    hide FormatsTo, NextValue, Valid;
    var row := Advanced(s.row, s.clock, text);
    var s1 := s.(clients := map[c := Begun(extra)]);
    var s2 := s.(clients := map[c := Locked(extra, s.row)], holder := Some(c));
    var s3 := s2.(clients := map[c := Computed(extra, s.row, s.clock, text)]);
    var s4 := s2.(clients := map[c := Written(extra, s.row, s.clock, text, row)]);
    var s5 := s.(row := row, issued := s.issued + [Issue(row.currentValue, s.clock, extra, text)]);
    assert s1.clients == s.clients[c := Begun(extra)];
    assert s2.clients == s1.clients[c := Locked(extra, s.row)];
    assert s3.clients == s2.clients[c := Computed(extra, s.row, s.clock, text)];
    assert s4.clients == s3.clients[c := Written(extra, s.row, s.clock, text, row)];
    assert s5.clients == s4.clients - {c};
    states := [s, s1, s2, s3, s4, s5];
    events := [Begin(c, extra), Lock(c), Compute(c, text), Write(c), Commit(c)];
    assert Step(s, Begin(c, extra), s1) && Step(s1, Lock(c), s2) && Step(s2, Compute(c, text), s3)
        && Step(s3, Write(c), s4) && Step(s4, Commit(c), s5);
  }

  lemma SomeText(cfg: Sequence, at: Time, extra: map<string, string>, value: int, ps: seq<Piece>) returns (text: string)
    requires Configured(cfg, extra, ps) && Valid(at)
    ensures FormatsTo(cfg.template, EnvOf(cfg, at, extra, value), text)
    ensures text == Render(EnvOf(cfg, at, extra, value), ps)
  {
    var env := EnvOf(cfg, at, extra, value);
    var order := EnumerationExists(extra.Keys);
    assert forall k :: k in order ==> k in Elems(order);
    assert InExtra(order, env);
    text := RewriteAll(Passes(env, order), EffectiveTemplate(cfg.template));
    FormatIsRender(cfg.template, env, ps, text);
  }

  /** The second number of a sequence whose first was issued at `t`. */
  function SecondValue(cfg: Sequence, t: Time, u: Time): int {
    if SamePeriod(cfg.policy, t, u) then cfg.startValue + cfg.incrementBy else cfg.startValue
  }

  lemma FirstTwoValues(cfg: Sequence, t: Time, u: Time, text: string)
    requires Fresh(cfg) && Valid(t) && Valid(u)
    ensures NextValue(cfg, t).value == cfg.startValue && RowOk(Advanced(cfg, t, text))
    ensures NextValue(Advanced(cfg, t, text), u).value == SecondValue(cfg, t, u)
  {
    ResetMeansNewPeriod(Advanced(cfg, t, text), u);
    hide Valid, YearDay, SamePeriod;
  }

  lemma JoinRuns(st1: seq<System>, ev1: seq<Event>, e: Event, st2: seq<System>, ev2: seq<Event>)
    requires |st1| == |ev1| + 1 && |st2| == |ev2| + 1 && Initial(st1[0])
    requires forall i :: 0 <= i < |ev1| ==> Step(st1[i], ev1[i], st1[i + 1])
    requires forall i :: 0 <= i < |ev2| ==> Step(st2[i], ev2[i], st2[i + 1])
    requires Step(st1[|ev1|], e, st2[0])
    ensures IsRun(st1 + st2, ev1 + [e] + ev2)
  {
    hide Step, Initial;
    var states, events, n := st1 + st2, ev1 + [e] + ev2, |ev1|;
    forall i | 0 <= i < |events| ensures Step(states[i], events[i], states[i + 1]) {
      if i < n {
        assert states[i] == st1[i] && states[i + 1] == st1[i + 1] && events[i] == ev1[i];
      } else if i > n {
        assert states[i] == st2[i - n - 1] && states[i + 1] == st2[i - n] && events[i] == ev2[i - n - 1];
      }
    }
  }

  lemma TickTo(s: System, u: Time)
    requires Valid(u) && NotAfter(s.clock, u)
    ensures Step(s, Tick(u), s.(clock := u))
  {
  }

  ghost predicate InRange(t: Time) {
    Valid(t) && 0 <= t.year <= 9999
  }

  /** Two calls on a new sequence, at `t` and at `u`, with extra tokens of their own. */
  lemma TwoCalls(cfg: Sequence, e1: map<string, string>, e2: map<string, string>, ps: seq<Piece>, t: Time, u: Time)
    returns (states: seq<System>, events: seq<Event>)
    requires Fresh(cfg) && cfg.active && Configured(cfg, e1, ps) && Configured(cfg, e2, ps)
    requires Valid(t) && Valid(u) && NotAfter(t, u)
    ensures IsRun(states, events) && states[0].row == cfg
    ensures var v := SecondValue(cfg, t, u);
            states[|events|].issued == [Issue(cfg.startValue, t, e1, Render(EnvOf(cfg, t, e1, cfg.startValue), ps)),
                                        Issue(v, u, e2, Render(EnvOf(cfg, u, e2, v), ps))]
  {
    hide Valid, FormatsTo, Render, Step, NextValue, IsRun, Configured, SamePeriod, NotAfter, SecondValue;
    var c := Uuid(1);
    var s := System(cfg, None, map[], t, []);
    var text := SomeText(cfg, t, e1, cfg.startValue, ps);
    FirstTwoValues(cfg, t, u, text);
    var st1, ev1 := AcquireOnce(s, c, e1, text);
    var mid := st1[5];
    var text2 := SomeText(cfg, u, e2, SecondValue(cfg, t, u), ps);
    assert EnvOf(mid.row, u, e2, SecondValue(cfg, t, u)) == EnvOf(cfg, u, e2, SecondValue(cfg, t, u));
    var st2, ev2 := AcquireOnce(mid.(clock := u), c, e2, text2);
    TickTo(mid, u);
    JoinRuns(st1, ev1, Tick(u), st2, ev2);
    states, events := st1 + st2, ev1 + [Tick(u)] + ev2;
    assert states[11] == st2[5] && |events| == 11;
  }

  /** Two calls with the same extra tokens, whose renderings coincide. */
  lemma RepeatingRun(cfg: Sequence, extra: map<string, string>, ps: seq<Piece>, t: Time, u: Time)
    returns (log: seq<Issue>)
    requires Fresh(cfg) && cfg.active && Configured(cfg, extra, ps) && InRange(t) && InRange(u) && NotAfter(t, u)
    requires Render(EnvOf(cfg, t, extra, cfg.startValue), ps) ==
             Render(EnvOf(cfg, u, extra, SecondValue(cfg, t, u)), ps)
    ensures CanIssue(cfg, extra, log) && !DistinctTexts(log)
  {
    hide Valid, Render, Step, Initial, Configured, NotAfter, SecondValue;
    var states, events := TwoCalls(cfg, extra, extra, ps, t, u);
    log := states[|events|].issued;
    assert log[0].text == log[1].text;
    assert RunIssues(cfg, extra, states, events, log);
  }

  /** A rendering depends on the time only through the tokens the template contains. */
  lemma {:induction false} AlikeRenders(a: Env, t: Time, ps: seq<Piece>, missing: string)
    requires Valid(a.now) && Valid(t) && !HasToken(ps, missing)
    requires forall name :: name != missing ==> TokenText(a, name) == TokenText(a.(now := t), name)
    ensures Render(a, ps) == Render(a.(now := t), ps)
    decreases |ps|
  {
    hide Valid, TokenText;
    if ps != [] {
      assert ps[0] != Tok(missing);
      assert !HasToken(ps[1..], missing) by {
        forall i | 0 <= i < |ps[1..]| ensures ps[1..][i] != Tok(missing) { assert ps[1..][i] == ps[i + 1]; }
      }
      AlikeRenders(a, t, ps[1..], missing);
    }
  }

  /** A token whose absence hides the reset period, and two instants it would tell apart. */
  lemma HiddenPeriod(policy: ResetPolicy, ps: seq<Piece>) returns (missing: string, t: Time, u: Time)
    requires !ShowsPeriod(policy, ps)
    ensures !HasToken(ps, missing) && InRange(t) && InRange(u) && NotAfter(t, u) && !SamePeriod(policy, t, u)
    ensures forall a: Env, name :: a.now == t && name != missing ==> TokenText(a, name) == TokenText(a.(now := u), name)
  {
    t := Time(2000, 1, 1, 0);
    if !HasToken(ps, "YYYY") && policy != Never {
      missing, u := "YYYY", Time(2100, 1, 1, 0);
    } else if !HasToken(ps, "MM") && policy != Yearly {
      missing, u := "MM", Time(2000, 2, 1, 0);
    } else {
      missing, u := "DD", Time(2000, 1, 2, 0);
    }
  }

  ghost predicate DistinctTexts(log: seq<Issue>) {
    forall j, k :: 0 <= j < k < |log| ==> log[j].text != log[k].text
  }

  ghost predicate RunIssues(cfg: Sequence, extra: map<string, string>, states: seq<System>, events: seq<Event>,
                            log: seq<Issue>) {
    IsRun(states, events) && states[0].row == cfg && states[|events|].issued == log && Ordinary(log, extra)
  }

  /** Some run of the sequence, with these extra tokens in every call, issues the numbers in `log`. */
  ghost predicate CanIssue(cfg: Sequence, extra: map<string, string>, log: seq<Issue>) {
    exists states, events :: RunIssues(cfg, extra, states, events, log)
  }

  /** No run issues a number twice. */
  ghost predicate NeverRepeats(cfg: Sequence, extra: map<string, string>) {
    forall log :: CanIssue(cfg, extra, log) ==> DistinctTexts(log)
  }

  lemma HiddenRepeats(cfg: Sequence, extra: map<string, string>, ps: seq<Piece>)
    requires Fresh(cfg) && cfg.active && Configured(cfg, extra, ps)
    requires !ShowsCounter(ps, extra) || !ShowsPeriod(cfg.policy, ps)
    ensures !NeverRepeats(cfg, extra)
  {
    hide Render, Configured, TokenText, IsRun, DistinctTexts, Ordinary;
    if !ShowsPeriod(cfg.policy, ps) {
      var missing, t, u := HiddenPeriod(cfg.policy, ps);
      hide ShowsPeriod, HasToken;
      var a := EnvOf(cfg, t, extra, cfg.startValue);
      AlikeRenders(a, u, ps, missing);
      assert a.(now := u) == EnvOf(cfg, u, extra, cfg.startValue);
      var log := RepeatingRun(cfg, extra, ps, t, u);
    } else {
      var t := Time(2000, 1, 1, 0);
      var a := EnvOf(cfg, t, extra, cfg.startValue);
      CounterIsNeeded(a, SecondValue(cfg, t, t), ps);
      assert a.(val := SecondValue(cfg, t, t)) == EnvOf(cfg, t, extra, SecondValue(cfg, t, t));
      var log := RepeatingRun(cfg, extra, ps, t, t);
    }
  }

  lemma IssuedDistinct(cfg: Sequence, extra: map<string, string>, ps: seq<Piece>,
                       states: seq<System>, events: seq<Event>, log: seq<Issue>, j: nat, k: nat)
    requires RunIssues(cfg, extra, states, events, log) && j < k < |log| && Configured(cfg, extra, ps)
    requires ShowsCounter(ps, extra) && ShowsPeriod(cfg.policy, ps)
    ensures log[j].text != log[k].text
  {
    hide Configured, ShowsCounter, ShowsPeriod, Ordinary;
    NumbersAreUnique(states, events, |events|, extra, ps, j, k);
  }

  /** The exact condition for calls that all pass the same extra tokens: on a well-formed template with
      brace-free texts, in the years 0 to 9999, a new sequence never issues a number twice, over all
      runs, if and only if its template has a SEQ token that no extra token overrides and the tokens
      that identify its reset period. */
  lemma NeverRepeatsIff(cfg: Sequence, extra: map<string, string>, ps: seq<Piece>)
    requires Fresh(cfg) && cfg.active && Configured(cfg, extra, ps)
    ensures NeverRepeats(cfg, extra) <==> ShowsCounter(ps, extra) && ShowsPeriod(cfg.policy, ps)
  {
    hide Configured, ShowsCounter, ShowsPeriod, Fresh, IsRun, Ordinary;
    if ShowsCounter(ps, extra) && ShowsPeriod(cfg.policy, ps) {
      forall log: seq<Issue>, j, k | CanIssue(cfg, extra, log) && 0 <= j < k < |log|
        ensures log[j].text != log[k].text
      {
        var states, events :| RunIssues(cfg, extra, states, events, log);
        IssuedDistinct(cfg, extra, ps, states, events, log, j, k);
      }
    } else {
      HiddenRepeats(cfg, extra, ps);
    }
  }

  // ---- The default template ----

  const DEFAULT_PIECES: seq<Piece> :=
    [Tok("PREFIX"), Lit("/"), Tok("YYYY"), Lit("/"), Tok("MM"), Lit("/"), Tok("SEQ:4")]

  lemma UnparseCons(p: Piece, ps: seq<Piece>)
    ensures Unparse([p] + ps) == PieceSource(p) + Unparse(ps)
  {
    assert ([p] + ps)[1..] == ps;
  }

  lemma DefaultUnparses()
    ensures Unparse(DEFAULT_PIECES) == DEFAULT_TEMPLATE
  {
    var d := [Tok("SEQ:4")];
    var c := [Tok("MM"), Lit("/")] + d;
    var b := [Tok("YYYY"), Lit("/")] + c;
    assert DEFAULT_PIECES == [Tok("PREFIX"), Lit("/")] + b;
    assert d[1..] == [];
    UnparseTwo(Tok("MM"), Lit("/"), d);
    UnparseTwo(Tok("YYYY"), Lit("/"), c);
    UnparseTwo(Tok("PREFIX"), Lit("/"), b);
    DefaultFields();
    hide PieceSource, Braced;
  }

  lemma DefaultFields()
    ensures PieceSource(Tok("PREFIX")) + PieceSource(Lit("/")) == "{PREFIX}/"
    ensures PieceSource(Tok("YYYY")) + PieceSource(Lit("/")) == "{YYYY}/"
    ensures PieceSource(Tok("MM")) + PieceSource(Lit("/")) == "{MM}/"
    ensures PieceSource(Tok("SEQ:4")) + "" == "{SEQ:4}"
  {
  }

  lemma UnparseTwo(p: Piece, q: Piece, ps: seq<Piece>)
    ensures Unparse([p, q] + ps) == PieceSource(p) + PieceSource(q) + Unparse(ps)
  {
    UnparseCons(q, ps);
    UnparseCons(p, [q] + ps);
    assert [p, q] + ps == [p] + ([q] + ps);
  }

  lemma DefaultParses()
    ensures WellFormed(DEFAULT_PIECES) && Unparse(DEFAULT_PIECES) == DEFAULT_TEMPLATE
  {
    DefaultUnparses();
    hide Unparse;
    assert BraceFree("PREFIX") && BraceFree("/") && BraceFree("YYYY") && BraceFree("MM") && BraceFree("SEQ:4");
    hide BraceFree;
  }

  /** The default template identifies the reset period of every policy except the daily one. */
  lemma DefaultShows(policy: ResetPolicy, extra: map<string, string>)
    ensures ShowsCounter(DEFAULT_PIECES, extra) <==> "SEQ:4" !in extra
    ensures ShowsPeriod(policy, DEFAULT_PIECES) <==> policy != Daily
  {
    var p := DEFAULT_PIECES;
    assert AllDigits("SEQ:4"[4..]) && (IsCounter(p[6], extra) <==> "SEQ:4" !in extra);
    SeqNameStarts("PREFIX");
    SeqNameStarts("YYYY");
    SeqNameStarts("MM");
    assert p[2] == Tok("YYYY") && p[4] == Tok("MM");
    assert HasToken(p, "YYYY") && HasToken(p, "MM");
  }

  /** Sequences created without a template never repeat a number exactly when they do not reset
      daily (and the calls do not override the counter token): the default template shows no day. */
  lemma DefaultNeverRepeatsIff(cmd: CreateCommand, extra: map<string, string>)
    requires cmd.template == "" && BraceFree(cmd.prefix) && BraceFree(cmd.suffix)
    requires forall x :: x in extra ==> BraceFree(x) && BraceFree(extra[x])
    ensures NeverRepeats(Created(cmd), extra) <==> cmd.policy != Some(Daily) && "SEQ:4" !in extra
  {
    var cfg := Created(cmd);
    DefaultParses();
    DefaultShows(cfg.policy, extra);
    hide Unparse, NeverRepeats, BraceFree, ShowsCounter, ShowsPeriod;
    assert EffectiveTemplate(cfg.template) == DEFAULT_TEMPLATE;
    NeverRepeatsIff(cfg, extra, DEFAULT_PIECES);
  }
}
