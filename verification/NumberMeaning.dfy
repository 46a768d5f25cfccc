/** What a formatted number says: each token's text, read as a decimal numeral, is the field it stands for. */
module NumberMeaning {
  import opened Shared
  import opened Decimal
  import opened Calendar
  import opened NumberFormat
  import opened NumberOrder
  import opened NumberUniqueness
  import opened SequenceEngine
  import Store = SequenceStore

  /** `text` is the numeral of `n`, written with exactly `digits` digits. */
  ghost predicate Reads(text: string, digits: nat, n: int) {
    |text| == digits && AllDigits(text) && ValueOf(text) == n
  }

  /** The date tokens are the numerals of month, day and year; prefix and suffix are copied. */
  lemma DateTokens(env: Env)
    requires Valid(env.now)
    ensures Reads(TokenText(env, "MM"), 2, env.now.month) && Reads(TokenText(env, "DD"), 2, env.now.day)
    ensures 0 <= env.now.year <= 9999 ==> Reads(TokenText(env, "YYYY"), 4, env.now.year)
    ensures env.now.year > 9999 ==> Reads(TokenText(env, "YYYY"), |TokenText(env, "YYYY")|, env.now.year)
    ensures Reads(TokenText(env, "YY"), 2, if env.now.year < 0 then 0 else env.now.year % 100)
    ensures TokenText(env, "PREFIX") == env.prefix && TokenText(env, "SUFFIX") == env.suffix
  {
    assert Power10(2) == 100 && Power10(4) == 10000;
    FixedNumeral(2, env.now.month);
    FixedNumeral(2, env.now.day);
    if 0 <= env.now.year <= 9999 { FixedNumeral(4, env.now.year); }
    if env.now.year > 9999 { PaddedRoundTrip(4, env.now.year); }
    FixedNumeral(2, if env.now.year < 0 then 0 else env.now.year % 100);
  }

  /** Years before 0 and counters below 0 are written with a minus sign. */
  lemma NegativeNumerals(env: Env, name: string)
    requires Valid(env.now) && IsSeqName(name) && name !in env.extra && InLimit(env.padding, name)
    ensures env.now.year < 0 ==>
            var t := TokenText(env, "YYYY"); |t| >= 5 && t[0] == '-' && Reads(t[1..], |t| - 1, -env.now.year)
    ensures env.val < 0 ==>
            var t := TokenText(env, name);
            |t| >= 2 && |t| >= SeqWidth(name, env.padding) && t[0] == '-' && Reads(t[1..], |t| - 1, -env.val)
  {
    CounterText(env, name);
    if env.now.year < 0 {
      PaddedRoundTrip(4, -env.now.year);
      assert TokenText(env, "YYYY")[1..] == Padded(4, -env.now.year);
    }
    if env.val < 0 {
      var w := SeqWidth(name, env.padding);
      PaddedRoundTrip(w - 1, -env.val);
      assert TokenText(env, name)[1..] == Padded(w - 1, -env.val);
    }
  }

  lemma FixedNumeral(k: nat, n: nat)
    requires k >= 1 && n < Power10(k)
    ensures Reads(Padded(k, n), k, n)
  {
    PaddedFits(k, n);
    PaddedRoundTrip(k, n);
  }

  lemma {:induction false} NoLeadingZero(n: nat)
    ensures n > 0 ==> Print(n)[0] != '0'
  {
    if n >= 10 {
      NoLeadingZero(n / 10);
      assert Print(n)[0] == Print(n / 10)[0];
    }
  }

  /** The width that a SEQ token asks for: its digits, or the padding of the sequence, or four. */
  lemma SeqWidths(padding: int, d: string)
    requires AllDigits(d) && d != ""
    ensures SeqWidth("SEQ", padding) == if padding <= 0 then 4 else padding
    ensures IsSeqName("SEQ:" + d)
    ensures 1 <= ValueOf(d) <= 9_223_372_036_854_775_807 ==> SeqWidth("SEQ:" + d, padding) == ValueOf(d)
    ensures !(1 <= ValueOf(d) <= 9_223_372_036_854_775_807) ==>
              SeqWidth("SEQ:" + d, padding) == SeqWidth("SEQ", padding)
  {
    assert ("SEQ:" + d)[4..] == d && "SEQ:" <= "SEQ:" + d;
    assert ("SEQ:" + d)[3] == ':';
  }

  /** A counter token is the numeral of the counter, padded with zeros to its width and no further. */
  lemma CounterToken(env: Env, name: string)
    requires Valid(env.now) && IsSeqName(name) && name !in env.extra && env.val >= 0 && InLimit(env.padding, name)
    ensures var t, w := TokenText(env, name), SeqWidth(name, env.padding);
            AllDigits(t) && ValueOf(t) == env.val && |t| >= w && (|t| > w && |t| > 1 ==> t[0] != '0')
  {
    CounterText(env, name);
    PaddedRoundTrip(SeqWidth(name, env.padding), env.val);
    NoLeadingZero(env.val);
  }

  /** Beyond `fmt`'s limit the counter is reported as an extra argument. */
  lemma OverLimitToken(env: Env, name: string) returns (digits: string)
    requires Valid(env.now) && IsSeqName(name) && name !in env.extra && env.val >= 0
    requires SeqWidth(name, env.padding) >= 10_000_010
    ensures TokenText(env, name) == "%!(NOVERB)%!(EXTRA int64=" + digits + ")"
    ensures AllDigits(digits) && ValueOf(digits) == env.val
  {
    CounterText(env, name);
    digits := Padded(0, env.val);
    PaddedRoundTrip(0, env.val);
  }

  lemma RenderCons(env: Env, p: Piece, ps: seq<Piece>)
    requires Valid(env.now)
    ensures Render(env, [p] + ps) == PieceText(env, p) + Render(env, ps)
  {
    assert ([p] + ps)[1..] == ps;
  }

  /** A token followed by a slash. */
  lemma RenderField(env: Env, name: string, ps: seq<Piece>)
    requires Valid(env.now)
    ensures Render(env, [Tok(name), Lit("/")] + ps) == TokenText(env, name) + ("/" + Render(env, ps))
  {
    assert [Tok(name), Lit("/")] + ps == [Tok(name)] + ([Lit("/")] + ps);
    RenderCons(env, Tok(name), [Lit("/")] + ps);
    RenderCons(env, Lit("/"), ps);
  }

  lemma DefaultFieldsRender(env: Env)
    requires Valid(env.now)
    ensures Render(env, DEFAULT_PIECES) ==
            TokenText(env, "PREFIX") + ("/" + (TokenText(env, "YYYY") + ("/" + (TokenText(env, "MM") + ("/" +
            TokenText(env, "SEQ:4"))))))
  {
    hide TokenText, Valid, Render;
    var d := [Tok("SEQ:4")];
    var c := [Tok("MM"), Lit("/")] + d;
    var b := [Tok("YYYY"), Lit("/")] + c;
    assert DEFAULT_PIECES == [Tok("PREFIX"), Lit("/")] + b;
    RenderField(env, "PREFIX", b);
    RenderField(env, "YYYY", c);
    RenderField(env, "MM", d);
    RenderOne(env, "SEQ:4");
  }

  lemma RenderOne(env: Env, name: string)
    requires Valid(env.now)
    ensures Render(env, [Tok(name)]) == TokenText(env, name)
  {
    hide TokenText;
    assert [Tok(name)][1..] == [] && Render(env, []) == "" && TokenText(env, name) + "" == TokenText(env, name);
  }

  /** The default template, rendered: prefix, year, month and counter between slashes. */
  lemma DefaultRendering(env: Env) returns (y: string, m: string, s: string)
    requires Valid(env.now) && 0 <= env.now.year <= 9999 && env.val >= 0 && "SEQ:4" !in env.extra
    ensures Render(env, DEFAULT_PIECES) == env.prefix + ("/" + (y + ("/" + (m + ("/" + s)))))
    ensures Reads(y, 4, env.now.year) && Reads(m, 2, env.now.month)
    ensures AllDigits(s) && ValueOf(s) == env.val && |s| >= 4 && (|s| > 4 ==> s[0] != '0')
  {
    hide TokenText, Reads, Valid, Render;
    y, m, s := TokenText(env, "YYYY"), TokenText(env, "MM"), TokenText(env, "SEQ:4");
    DateTokens(env);
    FourIsFour(env.padding);
    CounterToken(env, "SEQ:4");
    DefaultFieldsRender(env);
  }

  /** What a sequence on the default template hands out: its own prefix, the year and month of the call
      and the next value of its counter. */
  lemma NumberOnDefault(s: Sequence, now: Time, extra: map<string, string>, text: string)
      returns (y: string, m: string, n: string)
    requires Store.IsDue(s, now, extra, text) && (s.template == "" || s.template == DEFAULT_TEMPLATE)
    requires EnvOk(EnvOf(s, now, extra, NextValue(s, now).value)) && "SEQ:4" !in extra
    requires 0 <= now.year <= 9999 && NextValue(s, now).value >= 0
    ensures text == s.prefix + ("/" + (y + ("/" + (m + ("/" + n)))))
    ensures Reads(y, 4, now.year) && Reads(m, 2, now.month)
    ensures AllDigits(n) && ValueOf(n) == NextValue(s, now).value && |n| >= 4 && (|n| > 4 ==> n[0] != '0')
  {
    hide NextValue, FormatsTo, Render, WellFormed, Unparse, Reads, ValueOf, AllDigits, BraceFree;
    var env := EnvOf(s, now, extra, NextValue(s, now).value);
    DefaultParses();
    FormatIsRender(s.template, env, DEFAULT_PIECES, text);
    y, m, n := DefaultRendering(env);
  }

  /** The suffix, the caller's tokens and the width of a plain counter come from the row and the call. */
  lemma RowTokens(s: Sequence, now: Time, extra: map<string, string>, value: int, name: string)
    requires Valid(now) && name in extra && name !in {"PREFIX", "SUFFIX", "YYYY", "YY", "MM", "DD"}
    ensures var env := EnvOf(s, now, extra, value);
            && TokenText(env, "SUFFIX") == s.suffix && TokenText(env, name) == extra[name]
            && SeqWidth("SEQ", env.padding) == (if s.padding <= 0 then 4 else s.padding)
  {
  }

  lemma FourIsFour(padding: int)
    ensures IsSeqName("SEQ:4") && SeqWidth("SEQ:4", padding) == 4 && InLimit(padding, "SEQ:4")
  {
    assert "4"[..0] == "" && ValueOf("") == 0 && ValueOf("4") == 4;
    SeqWidths(padding, "4");
    assert "SEQ:" + "4" == "SEQ:4";
  }

  /** Numerals of one length are determined by their value. */
  lemma {:induction false} NumeralsAreUnique(s: string, t: string)
    requires AllDigits(s) && AllDigits(t) && |s| == |t| && ValueOf(s) == ValueOf(t)
    ensures s == t
    decreases |s|
  {
    if s != "" {
      var n := |s| - 1;
      NumeralsAreUnique(s[..n], t[..n]);
      assert s == s[..n] + [s[n]] && t == t[..n] + [t[n]];
    }
  }

  lemma Numeral2026()
    ensures Reads("2026", 4, 2026) && Reads("09", 2, 9) && Reads("0001", 4, 1)
  {
    assert "2026"[..3] == "202" && "202"[..2] == "20" && "20"[..1] == "2" && "2"[..0] == "";
    assert "09"[..1] == "0" && "0"[..0] == "";
    assert "0001"[..3] == "000" && "000"[..2] == "00" && "00"[..1] == "0";
    assert ValueOf("") == 0 && ValueOf("2") == 2 && ValueOf("20") == 20;
    assert ValueOf("202") == 202 && ValueOf("2026") == 2026;
    assert ValueOf("0") == 0 && ValueOf("09") == 9 && ValueOf("00") == 0 && ValueOf("000") == 0 && ValueOf("0001") == 1;
  }

  /** A sequence created with prefix QUO and nothing else hands out its first number in September 2026. */
  lemma FirstQuotation(text: string)
    requires Store.IsDue(Created(CreateCommand("QUO", "", "", 0, 0, 0, None)), Time(2026, 9, 14, 0), map[], text)
    ensures text == "QUO/2026/09/0001"
  {
    var s, now := Created(CreateCommand("QUO", "", "", 0, 0, 0, None)), Time(2026, 9, 14, 0);
    assert NextValue(s, now).value == 1;
    assert BraceFree("QUO") && BraceFree("");
    hide NextValue, FormatsTo, BraceFree, Reads, ValueOf, AllDigits;
    var y, m, n := NumberOnDefault(s, now, map[], text);
    SlashedNumerals(y, m, n);
  }

  lemma SlashedNumerals(y: string, m: string, s: string)
    requires Reads(y, 4, 2026) && Reads(m, 2, 9)
    requires AllDigits(s) && ValueOf(s) == 1 && |s| >= 4 && (|s| > 4 ==> s[0] != '0')
    ensures "QUO" + ("/" + (y + ("/" + (m + ("/" + s))))) == "QUO/2026/09/0001"
  {
    if |s| > 4 { TooLong(s); }
    Numeral2026();
    NumeralsAreUnique(y, "2026");
    NumeralsAreUnique(m, "09");
    NumeralsAreUnique(s, "0001");
    Joined();
  }

  lemma Joined()
    ensures "QUO" + ("/" + ("2026" + ("/" + ("09" + ("/" + "0001"))))) == "QUO/2026/09/0001"
  {
  }

  /** A numeral without leading zeros is at least as large as its length says. */
  lemma {:induction false} Grows(s: string)
    requires AllDigits(s) && s != "" && s[0] != '0'
    ensures ValueOf(s) >= |s|
    decreases |s|
  {
    var n := |s| - 1;
    if n > 0 { Grows(s[..n]); } else { assert s[..0] == ""; }
  }

  lemma TooLong(s: string)
    requires AllDigits(s) && |s| > 4 && s[0] != '0'
    ensures ValueOf(s) != 1
  {
    Grows(s);
  }
}
