/** Numbers when the extra tokens differ from call to call: a SEQ token and the period's tokens are then
    not enough for uniqueness, unless no extra value can run into the counter. */
module VaryingExtras {
  import opened Shared
  import opened Decimal
  import opened Calendar
  import opened NumberFormat
  import opened NumberOrder
  import opened SequenceEngine
  import opened NumberUniqueness

  // ---- A template that repeats ----

  const LOOSE: seq<Piece> := [Tok("ORG"), Tok("SEQ:1")]

  function Org(value: string): map<string, string> {
    map["ORG" := value]
  }

  lemma LooseTexts(e: Env, org: string)
    requires Valid(e.now) && e.extra == Org(org) && e.val >= 0
    ensures Render(e, LOOSE) == org + Padded(1, e.val)
  {
    var rest := [Tok("SEQ:1")];
    assert LOOSE[1..] == rest && rest[1..] == [];
    var d := "SEQ:1"[4..];
    assert d == "1" && AllDigits(d) && d[..0] == "" && ValueOf("") == 0 && ValueOf(d) == 1;
    assert "SEQ:1"[0] == 'S' && "SUFFIX"[1] == 'U' && "SEQ:1"[1] == 'E';
    assert TokenText(e, "SEQ:1") == Padded(1, e.val);
    assert Render(e, rest) == Padded(1, e.val) + "";
    assert TokenText(e, "ORG") == org;
  }

  lemma LooseConfigured(cfg: Sequence, org: string)
    requires cfg.template == "{ORG}{SEQ:1}" && cfg.prefix == "" && cfg.suffix == "" && BraceFree(org)
    ensures Configured(cfg, Org(org), LOOSE)
  {
    var rest := [Tok("SEQ:1")];
    assert LOOSE[1..] == rest && rest[1..] == [];
    assert Braced("SEQ:1") + "" == "{SEQ:1}" && Braced("ORG") == "{ORG}";
    assert Unparse(rest) == "{SEQ:1}" && Unparse(LOOSE) == "{ORG}" + "{SEQ:1}" == "{ORG}{SEQ:1}";
    assert BraceFree("ORG") && BraceFree("SEQ:1");
  }

  /** The template `{ORG}{SEQ:1}` of a sequence that never resets shows the counter and has no period to
      show; yet counter 1 with ORG = 11 and counter 11 with ORG = 1 are both 111. */
  lemma VaryingExtrasRepeat() returns (states: seq<System>, events: seq<Event>)
    ensures IsRun(states, events) && states[0].row.policy == Never
    ensures Configured(states[0].row, Org("11"), LOOSE) && Configured(states[0].row, Org("1"), LOOSE)
    ensures ShowsCounter(LOOSE, Org("11")) && ShowsCounter(LOOSE, Org("1")) && ShowsPeriod(Never, LOOSE)
    ensures var log := states[|events|].issued;
            && |log| == 2 && log[0].extra == Org("11") && log[1].extra == Org("1")
            && log[0].text == log[1].text == "111"
  {
    var t := Time(2024, 1, 1, 0);
    var cfg := Created(CreateCommand("", "", "{ORG}{SEQ:1}", 0, 1, 10, None));
    LooseConfigured(cfg, "11");
    LooseConfigured(cfg, "1");
    LooseShows("11");
    LooseShows("1");
    LooseTexts(EnvOf(cfg, t, Org("11"), 1), "11");
    LooseTexts(EnvOf(cfg, t, Org("1"), 11), "1");
    OneAndEleven();
    hide Configured, Render, ShowsCounter, Padded, Initial, Step;
    states, events := TwoCalls(cfg, Org("11"), Org("1"), LOOSE, t, t);
  }

  lemma OneAndEleven()
    ensures "11" + Padded(1, 1) == "111" && "1" + Padded(1, 11) == "111"
  {
    assert Print(11) == Print(1) + "1" == "11" && Padded(1, 11) == "11" && Padded(1, 1) == "1";
  }

  lemma LooseShows(org: string)
    ensures ShowsCounter(LOOSE, Org(org))
  {
    assert AllDigits("SEQ:1"[4..]) && LOOSE[1] == Tok("SEQ:1");
    assert IsCounter(LOOSE[1], Org(org));
  }

  // ---- Templates that never repeat ----

  /** No token of `ps` is one of the caller's. */
  ghost predicate FreeOf(ps: seq<Piece>, keys: set<string>) {
    forall i :: 0 <= i < |ps| && ps[i].Tok? ==> ps[i].name in BUILTINS || ps[i].name !in keys
  }

  lemma FreeToken(a: Env, extra: map<string, string>, keys: set<string>, n: string)
    requires Valid(a.now) && a.extra.Keys <= keys && extra.Keys <= keys && (n in BUILTINS || n !in keys)
    ensures TokenText(a, n) == TokenText(a.(extra := extra), n)
  {
    hide Valid, YearText, ShortYearText, TwoDigits, SeqText;
  }

  lemma {:induction false} FreeRender(a: Env, extra: map<string, string>, keys: set<string>, ps: seq<Piece>)
    requires Valid(a.now) && a.extra.Keys <= keys && extra.Keys <= keys && FreeOf(ps, keys)
    ensures Render(a, ps) == Render(a.(extra := extra), ps)
    decreases |ps|
  {
    hide Valid, TokenText;
    if ps != [] {
      if ps[0].Tok? { FreeToken(a, extra, keys, ps[0].name); }
      FreeRender(a, extra, keys, ps[1..]);
    }
  }

  lemma {:induction false} RenderAppend(a: Env, ps: seq<Piece>, qs: seq<Piece>)
    requires Valid(a.now)
    ensures Render(a, ps + qs) == Render(a, ps) + Render(a, qs)
    decreases |ps|
  {
    hide Valid, TokenText;
    if ps == [] {
      assert ps + qs == qs;
    } else {
      assert (ps + qs)[0] == ps[0] && (ps + qs)[1..] == ps[1..] + qs;
      RenderAppend(a, ps[1..], qs);
    }
  }

  ghost predicate NoCounter(ps: seq<Piece>) {
    forall i :: 0 <= i < |ps| && ps[i].Tok? ==> !IsSeqName(ps[i].name)
  }

  /** Without a counter the length of a rendering is fixed. */
  lemma FixedLength(a: Env, b: Env, ps: seq<Piece>)
    requires Comparable(a, b) && NoCounter(ps)
    ensures |Render(a, ps)| == |Render(b, ps)|
  {
    assert !ShowsCounter(ps, a.extra) && !ShowsCounter(ps, b.extra);
    CounterIsNeeded(a, b.val, ps);
    RenderGrows(a.(val := b.val), b, ps);
    RenderGrows(b, a.(val := b.val), ps);
  }

  /** A counter token whose width `fmt` accepts, set off on its left, and no counter after it. */
  ghost predicate SetOffLeft(padding: int, ps: seq<Piece>, m: nat) {
    && 0 < m < |ps| && ps[m].Tok? && InLimit(padding, ps[m].name) && NoCounter(ps[m + 1..])
    && ps[m - 1].Lit? && ps[m - 1].text != "" && !IsDigit(ps[m - 1].text[|ps[m - 1].text| - 1])
  }

  /** The same, set off on its right, and no counter before it. */
  ghost predicate SetOffRight(padding: int, ps: seq<Piece>, m: nat) {
    && m + 1 < |ps| && ps[m].Tok? && InLimit(padding, ps[m].name) && NoCounter(ps[..m])
    && ps[m + 1].Lit? && ps[m + 1].text != "" && !IsDigit(ps[m + 1].text[0])
  }

  lemma SplitEnds(x: string, v: string, y: string, w: string)
    requires x + v == y + w && (|v| == |w| || |x| == |y|)
    ensures x == y && v == w
  {
    assert |x + v| == |y + w|;
    assert x == (x + v)[..|x|] && y == (y + w)[..|y|] && v == (x + v)[|x|..] && w == (y + w)[|y|..];
  }

  lemma CharBefore(x: string, v: string, y: string, w: string)
    requires x + v == y + w && |v| < |w| && x != ""
    ensures x[|x| - 1] == w[|w| - |v| - 1]
  {
    var n := |x + v| - |v| - 1;
    assert |x + v| == |y + w| && (x + v)[n] == x[|x| - 1] && (y + w)[n] == w[|w| - |v| - 1];
  }

  lemma CharAfter(v: string, x: string, w: string, y: string)
    requires v + x == w + y && |v| < |w| && x != ""
    ensures x[0] == w[|v|]
  {
    assert (v + x)[|v|] == x[0] && (w + y)[|v|] == w[|v|];
  }

  /** Digits that end both texts and cannot go on to the left of one are the same digits. */
  lemma DigitsFromTheRight(x: string, v: string, y: string, w: string)
    requires x + v == y + w && |v| <= |w| && AllDigits(w) && x != "" && !IsDigit(x[|x| - 1])
    ensures v == w
  {
    if |v| < |w| { CharBefore(x, v, y, w); } else { SplitEnds(x, v, y, w); }
  }

  lemma DigitsFromTheLeft(v: string, x: string, w: string, y: string)
    requires v + x == w + y && |v| <= |w| && AllDigits(w) && x != "" && !IsDigit(x[0])
    ensures v == w
  {
    if |v| < |w| { CharAfter(v, x, w, y); } else { SplitEnds(v, x, w, y); }
  }

  /** Two renderings of one sequence with extra tokens of their own among `keys`. */
  ghost predicate Alike(a: Env, b: Env, keys: set<string>) {
    a.extra.Keys <= keys && b.extra.Keys <= keys && Comparable(a, b.(extra := a.extra))
  }

  /** The counter token shows the counter, whatever the extra tokens are. */
  lemma CounterShown(e: Env, keys: set<string>, ps: seq<Piece>, m: nat)
    requires Valid(e.now) && e.extra.Keys <= keys && FreeOf(ps, keys) && m < |ps| && ps[m].Tok?
    requires InLimit(e.padding, ps[m].name) && e.val >= 0
    ensures IsCounter(ps[m], e.extra)
    ensures Render(e, [ps[m]]) == SeqText(SeqWidth(ps[m].name, e.padding), e.val)
    ensures AllDigits(SeqText(SeqWidth(ps[m].name, e.padding), e.val))
  {
    var n := ps[m].name;
    if n in BUILTINS { BuiltinIsNoSeq(n); }
    CounterText(e, n);
    assert [ps[m]][1..] == [] && SeqText(SeqWidth(n, e.padding), e.val) + "" == SeqText(SeqWidth(n, e.padding), e.val);
  }

  /** Once the counters are equal, a part without extra tokens at the end of the text is equal. */
  lemma PartDetermines(policy: ResetPolicy, a: Env, b: Env, keys: set<string>, part: seq<Piece>, m: nat)
    requires Alike(a, b, keys) && a.val == b.val && FreeOf(part, keys) && ShowsPeriod(policy, part)
    requires m < |part| && IsCounter(part[m], a.extra)
    requires |Render(a, part)| == |Render(b, part)| ==> Render(a, part) == Render(b, part)
    ensures SamePeriod(policy, a.now, b.now)
  {
    var b' := b.(extra := a.extra);
    FreeRender(b, a.extra, keys, part);
    hide Valid, TokenText, ShowsPeriod, FreeOf;
    RenderGrows(a, b', part);
    RenderGrows(b', a, part);
    assert ShowsCounter(part, a.extra);
    RenderingDetermines(policy, a, b', part);
  }

  lemma SplitAt(e: Env, ps: seq<Piece>, m: nat)
    requires Valid(e.now) && m < |ps|
    ensures Render(e, ps) == Render(e, ps[..m]) + (Render(e, [ps[m]]) + Render(e, ps[m + 1..]))
  {
    assert ps == ps[..m] + ([ps[m]] + ps[m + 1..]);
    RenderAppend(e, ps[..m], [ps[m]] + ps[m + 1..]);
    RenderAppend(e, [ps[m]], ps[m + 1..]);
  }

  lemma LiteralBefore(e: Env, ps: seq<Piece>, m: nat)
    requires Valid(e.now) && 0 < m <= |ps| && ps[m - 1].Lit? && ps[m - 1].text != ""
    ensures var h, t := Render(e, ps[..m]), ps[m - 1].text; h != "" && h[|h| - 1] == t[|t| - 1]
  {
    assert ps[..m] == ps[..m - 1] + [ps[m - 1]];
    RenderAppend(e, ps[..m - 1], [ps[m - 1]]);
    assert [ps[m - 1]][1..] == [] && Render(e, [ps[m - 1]]) == ps[m - 1].text + "" == ps[m - 1].text;
  }

  lemma LiteralAfter(e: Env, ps: seq<Piece>, m: nat)
    requires Valid(e.now) && m < |ps| && ps[m].Lit? && ps[m].text != ""
    ensures var h := Render(e, ps[m..]); h != "" && h[0] == ps[m].text[0]
  {
    assert ps[m..][0] == ps[m];
  }

  /** Counter and period stand after the last extra token, the last counter set off on its left. */
  lemma EndDetermines(policy: ResetPolicy, a: Env, b: Env, keys: set<string>, pre: seq<Piece>, post: seq<Piece>, m: nat)
    requires Alike(a, b, keys) && FreeOf(post, keys) && SetOffLeft(a.padding, post, m) && ShowsPeriod(policy, post)
    requires Render(a, pre + post) == Render(b, pre + post)
    ensures a.val == b.val && SamePeriod(policy, a.now, b.now)
  {
    RenderAppend(a, pre, post);
    RenderAppend(b, pre, post);
    CounterShown(a, keys, post, m);
    CounterShown(b, keys, post, m);
    EndCounter(a, b, keys, pre, post, m);
    SeqTextInjective(SeqWidth(post[m].name, a.padding), a.val, b.val);
    hide Valid, ShowsPeriod, FreeOf, SetOffLeft;
    if |Render(a, post)| == |Render(b, post)| {
      SplitEnds(Render(a, pre), Render(a, post), Render(b, pre), Render(b, post));
    }
    PartDetermines(policy, a, b, keys, post, m);
  }

  lemma FreeTail(ps: seq<Piece>, keys: set<string>, i: nat, j: nat)
    requires FreeOf(ps, keys) && i <= j <= |ps|
    ensures FreeOf(ps[i..j], keys)
  {
  }

  lemma PartFixed(a: Env, b: Env, keys: set<string>, part: seq<Piece>)
    requires Alike(a, b, keys) && FreeOf(part, keys) && NoCounter(part)
    ensures |Render(a, part)| == |Render(b, part)|
  {
    FreeRender(b, a.extra, keys, part);
    FixedLength(a, b.(extra := a.extra), part);
  }

  lemma EndDigits(p: string, h: string, v: string, s: string, q: string, g: string, u: string, t: string)
    requires p + (h + (v + s)) == q + (g + (u + t)) && |s| == |t| && |v| <= |u| && AllDigits(u)
    requires h != "" && !IsDigit(h[|h| - 1])
    ensures v == u
  {
    var x, y := p + h, q + g;
    assert (x + v) + s == p + (h + (v + s)) && (y + u) + t == q + (g + (u + t));
    SplitEnds(x + v, s, y + u, t);
    assert x[|x| - 1] == h[|h| - 1];
    DigitsFromTheRight(x, v, y, u);
  }

  lemma StartDigits(h: string, v: string, s: string, p: string, g: string, u: string, t: string, q: string)
    requires (h + (v + s)) + p == (g + (u + t)) + q && |h| == |g| && |v| <= |u| && AllDigits(u)
    requires s != "" && !IsDigit(s[0])
    ensures v == u
  {
    var x, y := s + p, t + q;
    assert h + (v + x) == (h + (v + s)) + p && g + (u + y) == (g + (u + t)) + q;
    SplitEnds(h, v + x, g, u + y);
    assert x[0] == s[0];
    DigitsFromTheLeft(v, x, u, y);
  }

  lemma EndCounter(a: Env, b: Env, keys: set<string>, pre: seq<Piece>, post: seq<Piece>, m: nat)
    requires Alike(a, b, keys) && FreeOf(post, keys) && SetOffLeft(a.padding, post, m)
    requires Render(a, pre) + Render(a, post) == Render(b, pre) + Render(b, post)
    ensures Render(a, [post[m]]) == Render(b, [post[m]])
  {
    SplitAt(a, post, m);
    SplitAt(b, post, m);
    FreeTail(post, keys, m + 1, |post|);
    PartFixed(a, b, keys, post[m + 1..]);
    LiteralBefore(a, post, m);
    CounterShown(a, keys, post, m);
    CounterShown(b, keys, post, m);
    SeqTextGrows(SeqWidth(post[m].name, a.padding), a.val, b.val);
    hide Render, FreeOf, SeqText;
    EndDigits(Render(a, pre), Render(a, post[..m]), Render(a, [post[m]]), Render(a, post[m + 1..]),
              Render(b, pre), Render(b, post[..m]), Render(b, [post[m]]), Render(b, post[m + 1..]));
  }

  lemma StartCounter(a: Env, b: Env, keys: set<string>, pre: seq<Piece>, post: seq<Piece>, m: nat)
    requires Alike(a, b, keys) && FreeOf(pre, keys) && SetOffRight(a.padding, pre, m)
    requires Render(a, pre) + Render(a, post) == Render(b, pre) + Render(b, post)
    ensures Render(a, [pre[m]]) == Render(b, [pre[m]])
  {
    SplitAt(a, pre, m);
    SplitAt(b, pre, m);
    FreeTail(pre, keys, 0, m);
    PartFixed(a, b, keys, pre[..m]);
    LiteralAfter(a, pre, m + 1);
    CounterShown(a, keys, pre, m);
    CounterShown(b, keys, pre, m);
    SeqTextGrows(SeqWidth(pre[m].name, a.padding), a.val, b.val);
    hide Render, FreeOf, SeqText;
    StartDigits(Render(a, pre[..m]), Render(a, [pre[m]]), Render(a, pre[m + 1..]), Render(a, post),
                Render(b, pre[..m]), Render(b, [pre[m]]), Render(b, pre[m + 1..]), Render(b, post));
  }

  /** Counter and period stand before the first extra token, the first counter set off on its right. */
  lemma StartDetermines(policy: ResetPolicy, a: Env, b: Env, keys: set<string>, pre: seq<Piece>, post: seq<Piece>,
                        m: nat)
    requires Alike(a, b, keys) && FreeOf(pre, keys) && SetOffRight(a.padding, pre, m) && ShowsPeriod(policy, pre)
    requires Render(a, pre + post) == Render(b, pre + post)
    ensures a.val == b.val && SamePeriod(policy, a.now, b.now)
  {
    RenderAppend(a, pre, post);
    RenderAppend(b, pre, post);
    CounterShown(a, keys, pre, m);
    CounterShown(b, keys, pre, m);
    StartCounter(a, b, keys, pre, post, m);
    SeqTextInjective(SeqWidth(pre[m].name, a.padding), a.val, b.val);
    hide Valid, ShowsPeriod, FreeOf, SetOffRight;
    if |Render(a, pre)| == |Render(b, pre)| {
      SplitEnds(Render(a, pre), Render(a, post), Render(b, pre), Render(b, post));
    }
    PartDetermines(policy, a, b, keys, pre, m);
  }

  // ---- The theorem ----

  /** `part` shows the period and a counter that no extra value can run into. */
  ghost predicate Secure(cfg: Sequence, pre: seq<Piece>, post: seq<Piece>, keys: set<string>) {
    || (FreeOf(post, keys) && ShowsPeriod(cfg.policy, post) && exists m :: SetOffLeft(cfg.padding, post, m))
    || (FreeOf(pre, keys) && ShowsPeriod(cfg.policy, pre) && exists m :: SetOffRight(cfg.padding, pre, m))
  }

  lemma SecureDetermines(cfg: Sequence, a: Env, b: Env, keys: set<string>, pre: seq<Piece>, post: seq<Piece>)
    requires Alike(a, b, keys) && a.padding == cfg.padding && Secure(cfg, pre, post, keys)
    requires Render(a, pre + post) == Render(b, pre + post)
    ensures a.val == b.val && SamePeriod(cfg.policy, a.now, b.now)
  {
    hide FreeOf, ShowsPeriod, SetOffLeft, SetOffRight, Render, Alike;
    if FreeOf(post, keys) && ShowsPeriod(cfg.policy, post) && exists m :: SetOffLeft(cfg.padding, post, m) {
      var m :| SetOffLeft(cfg.padding, post, m);
      EndDetermines(cfg.policy, a, b, keys, pre, post, m);
    } else {
      var m :| SetOffRight(cfg.padding, pre, m);
      StartDetermines(cfg.policy, a, b, keys, pre, post, m);
    }
  }

  /** The calls pass brace-free extra tokens named in `keys`, in the years 0 to 9999. */
  ghost predicate Within(cfg: Sequence, log: seq<Issue>, keys: set<string>, ps: seq<Piece>) {
    forall i :: 0 <= i < |log| ==>
      Configured(cfg, log[i].extra, ps) && log[i].extra.Keys <= keys && 0 <= log[i].at.year <= 9999
  }

  /** Whatever brace-free values the extra tokens have in each call, over every run the issued numbers
      are pairwise distinct, if counter and period stand after the last extra token or before the
      first, with something other than a digit between the counter and them. */
  lemma SecureNumbersAreUnique(states: seq<System>, events: seq<Event>, n: nat, keys: set<string>,
                               pre: seq<Piece>, post: seq<Piece>, j: nat, k: nat)
    requires IsRun(states, events) && n < |states| && j < k < |states[n].issued|
    requires Within(states[0].row, states[n].issued, keys, pre + post) && Secure(states[0].row, pre, post, keys)
    ensures states[n].issued[j].text != states[n].issued[k].text
  {
    hide Secure, Configured, Step;
    var cfg, log, ps := states[0].row, states[n].issued, pre + post;
    RunKeepsInv(states, events, n);
    VariedText(cfg, log, keys, ps, j);
    VariedText(cfg, log, keys, ps, k);
    CountedFromStart(cfg, log, j);
    CountedFromStart(cfg, log, k);
    var a, b := EnvOf(cfg, log[j].at, log[j].extra, log[j].value), EnvOf(cfg, log[k].at, log[k].extra, log[k].value);
    if SamePeriod(cfg.policy, log[j].at, log[k].at) { CountedIncreases(cfg, log, j, k); }
    hide Inv, IsRun, Render, SamePeriod, Valid;
    if log[j].text == log[k].text {
      if a.val <= b.val {
        SecureDetermines(cfg, a, b, keys, pre, post);
      } else {
        SecureDetermines(cfg, b, a, keys, pre, post);
        PeriodSymmetric(cfg.policy, b.now, a.now);
      }
    }
  }

  lemma VariedText(cfg: Sequence, log: seq<Issue>, keys: set<string>, ps: seq<Piece>, i: nat)
    requires Texts(cfg, log) && Within(cfg, log, keys, ps) && i < |log|
    ensures Valid(log[i].at) && log[i].text == Render(EnvOf(cfg, log[i].at, log[i].extra, log[i].value), ps)
  {
    assert TextMatches(cfg, log[i]);
    FormatIsRender(cfg.template, EnvOf(cfg, log[i].at, log[i].extra, log[i].value), ps, log[i].text);
  }
}
