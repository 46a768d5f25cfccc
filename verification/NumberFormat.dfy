/** `FormatNumber` of `internal/core/domain/sequence/sequence.go`: a chain of `strings.ReplaceAll`
    passes followed by a regular-expression rewrite, against a one-pass renderer. */
module NumberFormat {
  import opened Shared
  import opened Decimal
  import opened Calendar

  /** `{PREFIX}/{YYYY}/{MM}/{SEQ:4}` */
  const DEFAULT_TEMPLATE := "{PREFIX}/" + ("{YYYY}/" + ("{MM}/" + "{SEQ:4}"))
  const BUILTINS := {"PREFIX", "SUFFIX", "YYYY", "YY", "MM", "DD"}
  const MAX_INT := 0x7FFF_FFFF_FFFF_FFFF

  /** Everything a rendering depends on besides the template. */
  datatype Env = Env(prefix: string, suffix: string, now: Time, extra: map<string, string>, val: int, padding: int)

  // ---- Values of the tokens ----

  /** `fmt.Sprintf("%0Nd", val)`. `fmt` stops reading a width once it exceeds a million before its
      last digit and then reports a missing verb and an extra argument. */
  function SeqText(width: int, val: int): string {
    if width / 10 > 1_000_000 then "%!(NOVERB)%!(EXTRA int64=" + Signed(0, val) + ")"
    else Signed(width, val)
  }

  function Signed(width: int, val: int): string {
    if val < 0 then "-" + Padded(width - 1, -val) else Padded(width, val)
  }

  function DefaultWidth(padding: int): int {
    if padding <= 0 then 4 else padding
  }

  /** `{SEQ}` or `{SEQ:digits}`, without the braces. */
  predicate IsSeqName(name: string) {
    name == "SEQ" || ("SEQ:" <= name && |name| > 4 && AllDigits(name[4..]))
  }

  /** The width asked for; numbers that do not fit an int, and zero, fall back to the default. */
  function SeqWidth(name: string, padding: int): int
    requires IsSeqName(name)
  {
    if name == "SEQ" then DefaultWidth(padding) else
      var n := ValueOf(name[4..]);
      if 0 < n <= MAX_INT then n else DefaultWidth(padding)
  }

  /** `now.Format("2006")`: at least four digits. */
  function YearText(y: int): string {
    if y < 0 then "-" + Padded(4, -y) else Padded(4, y)
  }

  function ShortYearText(y: int): string {
    Padded(2, if y < 0 then 0 else y % 100)
  }

  function TwoDigits(n: int): string
    requires n >= 0
  {
    Padded(2, n)
  }

  // ---- Passes over the text ----

  datatype Pass = Replace(key: string, value: string) | Seq(val: int, padding: int)

  datatype Match = Match(len: nat, text: string)

  function LeadingDigits(s: string): (d: string)
    ensures d <= s && AllDigits(d)
  {
    if s != "" && IsDigit(s[0]) then [s[0]] + LeadingDigits(s[1..]) else ""
  }

  function Braced(name: string): string {
    "{" + name + "}"
  }

  /** The match of the pass's pattern at the head of `s`, if any: the literal token for a
      replacement, the pattern `{SEQ}` or `{SEQ:digits}` for the counter. */
  function MatchAt(p: Pass, s: string): (m: Option<Match>)
    ensures m.Some? ==> 1 <= m.value.len <= |s|
  {
    match p
    case Replace(key, value) =>
      if Braced(key) <= s then Some(Match(|Braced(key)|, value)) else None
    case Seq(val, padding) =>
      if "{SEQ}" <= s then Some(Match(5, SeqText(DefaultWidth(padding), val)))
      else if "{SEQ:" <= s then
        var d := LeadingDigits(s[5..]);
        if d != "" && 5 + |d| < |s| && s[5 + |d|] == '}' then
          assert ("SEQ:" + d)[4..] == d;
          Some(Match(6 + |d|, SeqText(SeqWidth("SEQ:" + d, padding), val)))
        else None
      else None
  }

  /** Leftmost, non-overlapping rewriting: `ReplaceAll` and `ReplaceAllStringFunc`. */
  function Rewrite(p: Pass, s: string): string
    decreases |s|
  {
    if s == "" then ""
    else match MatchAt(p, s)
      case Some(m) => m.text + Rewrite(p, s[m.len..])
      case None => [s[0]] + Rewrite(p, s[1..])
  }

  function RewriteAll(passes: seq<Pass>, s: string): string
    decreases |passes|
  {
    if passes == [] then s else RewriteAll(passes[1..], Rewrite(passes[0], s))
  }

  function BuiltinPasses(env: Env): seq<Pass>
    requires Valid(env.now)
  {
    [Replace("PREFIX", env.prefix), Replace("SUFFIX", env.suffix), Replace("YYYY", YearText(env.now.year)),
     Replace("YY", ShortYearText(env.now.year)), Replace("MM", TwoDigits(env.now.month)),
     Replace("DD", TwoDigits(env.now.day))]
  }

  function ExtraPasses(extra: map<string, string>, order: seq<string>): seq<Pass>
    requires forall k :: k in order ==> k in extra
  {
    if order == [] then [] else [Replace(order[0], extra[order[0]])] + ExtraPasses(extra, order[1..])
  }

  /** The whole chain when the extra tokens are visited in the given order. */
  function Passes(env: Env, order: seq<string>): seq<Pass>
    requires Valid(env.now) && forall k :: k in order ==> k in env.extra
  {
    BuiltinPasses(env) + ExtraPasses(env.extra, order) + [Seq(env.val, env.padding)]
  }

  function EffectiveTemplate(template: string): string {
    if template == "" then DEFAULT_TEMPLATE else template
  }

  /** `text` is what `FormatNumber` returns for some iteration order of the extra tokens. */
  ghost predicate FormatsTo(template: string, env: Env, text: string)
    requires Valid(env.now)
  {
    exists order :: Enumerates(order, env.extra.Keys) && InExtra(order, env)
      && text == RewriteAll(Passes(env, order), EffectiveTemplate(template))
  }

  ghost predicate InExtra(order: seq<string>, env: Env) {
    forall k :: k in order ==> k in env.extra
  }

  lemma {:induction false} RewriteAllAppend(ps: seq<Pass>, qs: seq<Pass>, s: string)
    ensures RewriteAll(ps + qs, s) == RewriteAll(qs, RewriteAll(ps, s))
    decreases |ps|
  {
    if ps == [] {
      assert ps + qs == qs;
    } else {
      assert (ps + qs)[0] == ps[0] && (ps + qs)[1..] == ps[1..] + qs;
      RewriteAllAppend(ps[1..], qs, Rewrite(ps[0], s));
    }
  }

  lemma RewriteAllSnoc(ps: seq<Pass>, q: Pass, s: string)
    ensures RewriteAll(ps + [q], s) == Rewrite(q, RewriteAll(ps, s))
  {
    RewriteAllAppend(ps, [q], s);
    assert [q][1..] == [];
  }

  lemma {:induction false} ExtraPassesSnoc(extra: map<string, string>, order: seq<string>, k: string)
    requires k in extra && forall x :: x in order ==> x in extra
    ensures ExtraPasses(extra, order + [k]) == ExtraPasses(extra, order) + [Replace(k, extra[k])]
    decreases |order|
  {
    if order == [] {
      assert order + [k] == [k] && [k][1..] == [];
    } else {
      assert (order + [k])[0] == order[0] && (order + [k])[1..] == order[1..] + [k];
      ExtraPassesSnoc(extra, order[1..], k);
    }
  }

  lemma BuiltinsInSequence(env: Env, s: string)
    requires Valid(env.now)
    ensures var b := BuiltinPasses(env);
            RewriteAll(b, s) ==
            Rewrite(b[5], Rewrite(b[4], Rewrite(b[3], Rewrite(b[2], Rewrite(b[1], Rewrite(b[0], s))))))
  {
    var b := BuiltinPasses(env);
    RewriteAllSnoc([], b[0], s);
    RewriteAllSnoc([b[0]], b[1], s);
    RewriteAllSnoc([b[0], b[1]], b[2], s);
    RewriteAllSnoc([b[0], b[1], b[2]], b[3], s);
    RewriteAllSnoc([b[0], b[1], b[2], b[3]], b[4], s);
    RewriteAllSnoc([b[0], b[1], b[2], b[3], b[4]], b[5], s);
    assert [] + [b[0]] == [b[0]] && [b[0]] + [b[1]] == [b[0], b[1]]
        && [b[0], b[1]] + [b[2]] == [b[0], b[1], b[2]]
        && [b[0], b[1], b[2]] + [b[3]] == [b[0], b[1], b[2], b[3]]
        && [b[0], b[1], b[2], b[3]] + [b[4]] == [b[0], b[1], b[2], b[3], b[4]]
        && [b[0], b[1], b[2], b[3], b[4]] + [b[5]] == b;
  }

  method FormatNumber(template: string, env: Env) returns (res: string)
    requires Valid(env.now)
    ensures FormatsTo(template, env, res)
  {
    hide Enumerates, YearText, ShortYearText, TwoDigits;
    res := EffectiveTemplate(template);
    BuiltinsInSequence(env, res);
    res := Rewrite(Replace("PREFIX", env.prefix), res);
    res := Rewrite(Replace("SUFFIX", env.suffix), res);
    res := Rewrite(Replace("YYYY", YearText(env.now.year)), res);
    res := Rewrite(Replace("YY", ShortYearText(env.now.year)), res);
    res := Rewrite(Replace("MM", TwoDigits(env.now.month)), res);
    res := Rewrite(Replace("DD", TwoDigits(env.now.day)), res);
    ghost var t, done, order: seq<string> := EffectiveTemplate(template), BuiltinPasses(env), [];
    assert done + ExtraPasses(env.extra, []) == done;
    var rest := env.extra.Keys;
    NothingEnumerated(env.extra.Keys);
    while rest != {}
      invariant rest <= env.extra.Keys && InExtra(order, env) && Enumerates(order, env.extra.Keys - rest)
      invariant res == RewriteAll(done + ExtraPasses(env.extra, order), t)
    {
      var k :| k in rest;
      RewriteAllSnoc(done + ExtraPasses(env.extra, order), Replace(k, env.extra[k]), t);
      ExtraPassesSnoc(env.extra, order, k);
      assert (done + ExtraPasses(env.extra, order)) + [Replace(k, env.extra[k])]
          == done + ExtraPasses(env.extra, order + [k]);
      EnumerateOneMore(order, env.extra.Keys - rest, k);
      assert (env.extra.Keys - rest) + {k} == env.extra.Keys - (rest - {k});
      res := Rewrite(Replace(k, env.extra[k]), res);
      order, rest := order + [k], rest - {k};
    }
    RewriteAllSnoc(done + ExtraPasses(env.extra, order), Seq(env.val, env.padding), t);
    res := Rewrite(Seq(env.val, env.padding), res);
    assert env.extra.Keys - rest == env.extra.Keys;
  }

  // ---- Well-formed templates ----

  datatype Piece = Lit(text: string) | Tok(name: string)

  predicate BraceFree(s: string) {
    forall i :: 0 <= i < |s| ==> s[i] != '{' && s[i] != '}'
  }

  predicate PieceOk(p: Piece) {
    match p case Lit(t) => BraceFree(t) case Tok(n) => BraceFree(n)
  }

  predicate WellFormed(ps: seq<Piece>) {
    forall i :: 0 <= i < |ps| ==> PieceOk(ps[i])
  }

  function PieceSource(p: Piece): string {
    match p case Lit(t) => t case Tok(n) => Braced(n)
  }

  /** The template text made of the given literals and tokens. */
  function Unparse(ps: seq<Piece>): string {
    if ps == [] then "" else PieceSource(ps[0]) + Unparse(ps[1..])
  }

  function Substitute(p: Pass, name: string): Option<string> {
    match p
    case Replace(key, value) => if name == key then Some(value) else None
    case Seq(val, padding) => if IsSeqName(name) then Some(SeqText(SeqWidth(name, padding), val)) else None
  }

  function SubstitutePiece(p: Pass, piece: Piece): Piece {
    if piece.Tok? && Substitute(p, piece.name).Some? then Lit(Substitute(p, piece.name).value) else piece
  }

  function SubstituteIn(p: Pass, ps: seq<Piece>): (r: seq<Piece>)
    ensures |r| == |ps| && forall i :: 0 <= i < |ps| ==> r[i] == SubstitutePiece(p, ps[i])
  {
    seq(|ps|, i requires 0 <= i < |ps| => SubstitutePiece(p, ps[i]))
  }

  predicate KeyOk(p: Pass) {
    p.Replace? ==> BraceFree(p.key)
  }

  predicate ValueOk(p: Pass) {
    p.Replace? ==> BraceFree(p.value)
  }

  lemma CharAt(prefix: string, s: string, i: nat)
    requires prefix <= s && i < |prefix|
    ensures s[i] == prefix[i]
  {
  }

  lemma SeqNameStarts(name: string)
    ensures IsSeqName(name) ==> |name| >= 2 && name[0] == 'S' && name[1] == 'E'
  {
    if "SEQ:" <= name {
      CharAt("SEQ:", name, 0);
      CharAt("SEQ:", name, 1);
    }
  }

  /** A token is delimited by its closing brace, so prefixes decide equality of names. */
  lemma NamePrefix(key: string, name: string, rest: string)
    requires BraceFree(key) && BraceFree(name)
    ensures Braced(key) <= Braced(name) + rest <==> key == name
  {
    var k, s := Braced(key), Braced(name) + rest;
    if k <= s {
      if |key| < |name| {
        CharAt(k, s, |key| + 1);
      } else if |name| < |key| {
        CharAt(k, s, |name| + 1);
      } else {
        forall i | 0 <= i < |key| ensures key[i] == name[i] {
          assert k[i + 1] == s[i + 1];
        }
      }
    }
  }

  lemma {:induction false} LeadingDigitsStop(d: string, s: string)
    requires s == "" || !IsDigit(s[0])
    ensures LeadingDigits(d + s) == LeadingDigits(d)
  {
    if d == "" {
      assert d + s == s;
    } else {
      assert (d + s)[0] == d[0] && (d + s)[1..] == d[1..] + s;
      LeadingDigitsStop(d[1..], s);
    }
  }

  lemma {:induction false} LeadingDigitsAll(d: string)
    ensures AllDigits(d) ==> LeadingDigits(d) == d
  {
    if d != "" { LeadingDigitsAll(d[1..]); }
  }

  /** The regular expression recognises exactly the SEQ tokens. */
  lemma SeqMatch(val: int, padding: int, name: string, rest: string)
    requires BraceFree(name)
    ensures MatchAt(Seq(val, padding), Braced(name) + rest) ==
            if IsSeqName(name) then Some(Match(|name| + 2, SeqText(SeqWidth(name, padding), val))) else None
  {
    var s := Braced(name) + rest;
    NamePrefix("SEQ", name, rest);
    assert Braced("SEQ") == "{SEQ}";
    if name != "SEQ" && "{SEQ:" <= s {
      assert "SEQ:" <= name by { ColonInside(name, rest); }
      var d := name[4..];
      assert s[5..] == d + ("}" + rest);
      LeadingDigitsStop(d, "}" + rest);
      LeadingDigitsAll(d);
      var l := LeadingDigits(d);
      assert s[5 + |l|] == (d + ("}" + rest))[|l|];
      assert name == "SEQ:" + d;
    }
  }

  lemma ColonInside(name: string, rest: string)
    requires BraceFree(name) && "{SEQ:" <= Braced(name) + rest
    ensures "SEQ:" <= name
  {
    var s, p := Braced(name) + rest, "{SEQ:";
    if |name| < 4 {
      CharAt(p, s, |name| + 1);
    } else {
      assert forall i :: 0 <= i < 4 ==> name[i] == s[i + 1] == p[i + 1];
    }
  }

  lemma TokenMatch(p: Pass, name: string, rest: string)
    requires KeyOk(p) && BraceFree(name)
    ensures MatchAt(p, Braced(name) + rest) ==
            match Substitute(p, name) case Some(t) => Some(Match(|name| + 2, t)) case None => None
  {
    match p
    case Replace(key, value) => NamePrefix(key, name, rest);
    case Seq(val, padding) => SeqMatch(val, padding, name, rest);
  }

  lemma NoBraceNoMatch(p: Pass, s: string)
    requires s != "" && s[0] != '{'
    ensures MatchAt(p, s).None?
  {
  }

  /** Text without an opening brace is copied. */
  lemma {:induction false} CopyPlain(p: Pass, plain: string, rest: string)
    requires forall i :: 0 <= i < |plain| ==> plain[i] != '{'
    ensures Rewrite(p, plain + rest) == plain + Rewrite(p, rest)
    decreases |plain|
  {
    hide MatchAt;
    if plain == "" {
      assert plain + rest == rest;
    } else {
      var s := plain + rest;
      assert s[0] == plain[0] && s[1..] == plain[1..] + rest;
      NoBraceNoMatch(p, s);
      CopyPlain(p, plain[1..], rest);
      assert plain == [plain[0]] + plain[1..];
    }
  }

  lemma LitStays(p: Pass, piece: Piece)
    requires piece.Lit?
    ensures SubstitutePiece(p, piece) == piece
  {
  }

  lemma RewriteToken(p: Pass, name: string, rest: string)
    requires KeyOk(p) && BraceFree(name)
    ensures Rewrite(p, Braced(name) + rest) == PieceSource(SubstitutePiece(p, Tok(name))) + Rewrite(p, rest)
  {
    hide MatchAt, Substitute;
    var s := Braced(name) + rest;
    TokenMatch(p, name, rest);
    if Substitute(p, name).Some? {
      assert s[|name| + 2..] == rest;
    } else {
      assert s[1..] == (name + "}") + rest;
      CopyPlain(p, name + "}", rest);
      assert "{" + ((name + "}") + Rewrite(p, rest)) == Braced(name) + Rewrite(p, rest);
    }
  }

  /** One textual pass over a well-formed template is one substitution of its tokens. */
  lemma {:induction false} RewriteIsSubstitute(p: Pass, ps: seq<Piece>)
    requires KeyOk(p) && WellFormed(ps)
    ensures Rewrite(p, Unparse(ps)) == Unparse(SubstituteIn(p, ps))
    decreases |ps|
  {
    hide SubstitutePiece, Braced, MatchAt;
    if ps != [] {
      var rest := Unparse(ps[1..]);
      RewriteIsSubstitute(p, ps[1..]);
      assert SubstituteIn(p, ps)[1..] == SubstituteIn(p, ps[1..]);
      match ps[0]
      case Lit(t) =>
        CopyPlain(p, t, rest);
        assert SubstitutePiece(p, ps[0]) == ps[0] by { LitStays(p, ps[0]); }
      case Tok(name) =>
        RewriteToken(p, name, rest);
    }
  }

  lemma SeqTextInjective(width: int, v: nat, w: nat)
    requires SeqText(width, v) == SeqText(width, w)
    ensures v == w
  {
    var x := if width / 10 > 1_000_000 then 0 else width;
    PaddedRoundTrip(x, v);
    PaddedRoundTrip(x, w);
    if width / 10 > 1_000_000 {
      var pre := "%!(NOVERB)%!(EXTRA int64=";
      assert SeqText(width, v)[|pre|..|SeqText(width, v)| - 1] == Padded(0, v);
      assert SeqText(width, w)[|pre|..|SeqText(width, w)| - 1] == Padded(0, w);
    }
  }

  lemma SeqTextBraceFree(width: int, val: int)
    ensures BraceFree(SeqText(width, val))
  {
    var w := if width / 10 > 1_000_000 then 0 else width;
    var digits := if val < 0 then Padded(w - 1, -val) else Padded(w, val);
    DigitsBraceFree(digits);
    assert BraceFree(Signed(w, val));
  }

  lemma SubstituteKeepsWellFormed(p: Pass, ps: seq<Piece>)
    requires ValueOk(p) && WellFormed(ps)
    ensures WellFormed(SubstituteIn(p, ps))
  {
    forall i | 0 <= i < |ps| ensures PieceOk(SubstituteIn(p, ps)[i]) {
      if p.Seq? && ps[i].Tok? && IsSeqName(ps[i].name) {
        SeqTextBraceFree(SeqWidth(ps[i].name, p.padding), p.val);
      }
    }
  }

  function SubstituteAll(passes: seq<Pass>, ps: seq<Piece>): seq<Piece>
    decreases |passes|
  {
    if passes == [] then ps else SubstituteAll(passes[1..], SubstituteIn(passes[0], ps))
  }

  lemma {:induction false} RewriteAllIsSubstituteAll(passes: seq<Pass>, ps: seq<Piece>)
    requires WellFormed(ps) && forall p :: p in passes ==> KeyOk(p) && ValueOk(p)
    ensures RewriteAll(passes, Unparse(ps)) == Unparse(SubstituteAll(passes, ps))
    decreases |passes|
  {
    if passes != [] {
      RewriteIsSubstitute(passes[0], ps);
      SubstituteKeepsWellFormed(passes[0], ps);
      RewriteAllIsSubstituteAll(passes[1..], SubstituteIn(passes[0], ps));
    }
  }

  // ---- The one-pass renderer ----

  /** What a token stands for: built-in tokens first, then the caller's, then the counter;
      anything else is left as it is. */
  function TokenText(env: Env, name: string): string
    requires Valid(env.now)
  {
    if name == "PREFIX" then env.prefix
    else if name == "SUFFIX" then env.suffix
    else if name == "YYYY" then YearText(env.now.year)
    else if name == "YY" then ShortYearText(env.now.year)
    else if name == "MM" then TwoDigits(env.now.month)
    else if name == "DD" then TwoDigits(env.now.day)
    else if name in env.extra then env.extra[name]
    else if IsSeqName(name) then SeqText(SeqWidth(name, env.padding), env.val)
    else Braced(name)
  }

  function PieceText(env: Env, p: Piece): string
    requires Valid(env.now)
  {
    match p case Lit(t) => t case Tok(n) => TokenText(env, n)
  }

  function Render(env: Env, ps: seq<Piece>): string
    requires Valid(env.now)
  {
    if ps == [] then "" else PieceText(env, ps[0]) + Render(env, ps[1..])
  }

  ghost predicate EnvOk(env: Env) {
    && Valid(env.now) && BraceFree(env.prefix) && BraceFree(env.suffix)
    && forall k :: k in env.extra ==> BraceFree(k) && BraceFree(env.extra[k])
  }

  /** The piece left of a token after the first pass that knows it. */
  function Resolve(passes: seq<Pass>, name: string): Piece {
    if passes == [] then Tok(name)
    else match Substitute(passes[0], name)
      case Some(t) => Lit(t)
      case None => Resolve(passes[1..], name)
  }

  lemma {:induction false} LiteralsStay(passes: seq<Pass>, ps: seq<Piece>, i: nat)
    requires i < |ps|
    ensures |SubstituteAll(passes, ps)| == |ps|
    ensures SubstituteAll(passes, ps)[i] == if ps[i].Lit? then ps[i] else Resolve(passes, ps[i].name)
    decreases |passes|
  {
    if passes != [] {
      LiteralsStay(passes[1..], SubstituteIn(passes[0], ps), i);
    }
  }

  lemma {:induction false} ResolveAppend(ps: seq<Pass>, qs: seq<Pass>, name: string)
    ensures Resolve(ps + qs, name) == if Resolve(ps, name).Lit? then Resolve(ps, name) else Resolve(qs, name)
    decreases |ps|
  {
    if ps == [] {
      assert ps + qs == qs;
    } else {
      assert (ps + qs)[0] == ps[0] && (ps + qs)[1..] == ps[1..] + qs;
      ResolveAppend(ps[1..], qs, name);
    }
  }

  /** Whatever the order in which the extra tokens are visited, a key resolves to its own value. */
  lemma {:induction false} ResolveExtra(extra: map<string, string>, order: seq<string>, name: string)
    requires forall k :: k in order ==> k in extra
    ensures Resolve(ExtraPasses(extra, order), name) == if name in order then Lit(extra[name]) else Tok(name)
    decreases |order|
  {
    if order != [] {
      ResolveExtra(extra, order[1..], name);
    }
  }

  lemma ResolveBuiltins(env: Env, name: string)
    requires Valid(env.now)
    ensures Resolve(BuiltinPasses(env), name) ==
            if name in {"PREFIX", "SUFFIX", "YYYY", "YY", "MM", "DD"} then Lit(TokenText(env, name)) else Tok(name)
  {
    hide YearText, ShortYearText, TwoDigits;
    var b := BuiltinPasses(env);
    var b1, b2, b3, b4, b5, b6 := b[1..], b[2..], b[3..], b[4..], b[5..], b[6..];
    assert b1[1..] == b2 && b2[1..] == b3 && b3[1..] == b4 && b4[1..] == b5 && b5[1..] == b6 == [];
    assert b1[0] == b[1] && b2[0] == b[2] && b3[0] == b[3] && b4[0] == b[4] && b5[0] == b[5];
    assert Resolve(b6, name) == Tok(name);
    assert Resolve(b5, name) == if name == "DD" then Lit(b[5].value) else Tok(name);
    assert Resolve(b3, name) ==
           if name == "YY" then Lit(b[3].value) else if name == "MM" then Lit(b[4].value) else Resolve(b5, name);
    assert Resolve(b1, name) ==
           if name == "SUFFIX" then Lit(b[1].value) else if name == "YYYY" then Lit(b[2].value) else Resolve(b3, name);
  }

  lemma ResolveIsTokenText(env: Env, order: seq<string>, name: string)
    requires Valid(env.now) && InExtra(order, env) && Elems(order) == env.extra.Keys
    ensures PieceSource(Resolve(Passes(env, order), name)) == TokenText(env, name)
  {
    var b, e, q := BuiltinPasses(env), ExtraPasses(env.extra, order), [Seq(env.val, env.padding)];
    ResolveBuiltins(env, name);
    ResolveExtra(env.extra, order, name);
    ResolveAppend(b, e, name);
    ResolveAppend(b + e, q, name);
    assert Resolve(q, name) == match Substitute(q[0], name) case Some(t) => Lit(t) case None => Tok(name) by {
      assert q[1..] == [];
    }
    assert name in order <==> name in Elems(order);
  }

  lemma {:induction false} RenderFrom(env: Env, ps: seq<Piece>, qs: seq<Piece>)
    requires Valid(env.now) && |ps| == |qs|
    requires forall i :: 0 <= i < |ps| ==> PieceSource(qs[i]) == PieceText(env, ps[i])
    ensures Unparse(qs) == Render(env, ps)
    decreases |ps|
  {
    if ps != [] { RenderFrom(env, ps[1..], qs[1..]); }
  }

  /** The chain of passes on a well-formed template is the one-pass renderer, for every iteration
      order of the extra tokens. */
  lemma FormatIsRender(template: string, env: Env, ps: seq<Piece>, text: string)
    requires EnvOk(env) && WellFormed(ps) && EffectiveTemplate(template) == Unparse(ps)
    requires FormatsTo(template, env, text)
    ensures text == Render(env, ps)
  {
    var order :| Enumerates(order, env.extra.Keys) && InExtra(order, env)
      && text == RewriteAll(Passes(env, order), EffectiveTemplate(template));
    PassesOk(env, order);
    RewriteAllIsSubstituteAll(Passes(env, order), ps);
    var qs := SubstituteAll(Passes(env, order), ps);
    assert |ps| == |qs| by {
      if ps != [] { LiteralsStay(Passes(env, order), ps, 0); } else { EmptyStays(Passes(env, order)); }
    }
    forall i | 0 <= i < |ps| ensures PieceSource(qs[i]) == PieceText(env, ps[i]) {
      LiteralsStay(Passes(env, order), ps, i);
      if ps[i].Tok? { ResolveIsTokenText(env, order, ps[i].name); }
    }
    RenderFrom(env, ps, qs);
  }

  lemma {:induction false} EmptyStays(passes: seq<Pass>)
    ensures SubstituteAll(passes, []) == []
    decreases |passes|
  {
    if passes != [] {
      assert SubstituteIn(passes[0], []) == [];
      EmptyStays(passes[1..]);
    }
  }

  lemma {:induction false} ExtraPassesOk(env: Env, order: seq<string>)
    requires EnvOk(env) && InExtra(order, env)
    ensures forall p :: p in ExtraPasses(env.extra, order) ==> KeyOk(p) && ValueOk(p)
    decreases |order|
  {
    if order != [] { ExtraPassesOk(env, order[1..]); }
  }

  lemma DigitsBraceFree(s: string)
    requires AllDigits(s)
    ensures BraceFree(s)
  {
  }

  lemma DateTextsBraceFree(t: Time)
    requires Valid(t)
    ensures BraceFree(YearText(t.year)) && BraceFree(ShortYearText(t.year))
    ensures BraceFree(TwoDigits(t.month)) && BraceFree(TwoDigits(t.day))
  {
    var digits := Padded(4, if t.year < 0 then -t.year else t.year);
    DigitsBraceFree(digits);
    assert YearText(t.year) == digits || YearText(t.year) == "-" + digits;
    DigitsBraceFree(ShortYearText(t.year));
    DigitsBraceFree(TwoDigits(t.month));
    DigitsBraceFree(TwoDigits(t.day));
  }

  lemma BuiltinsOk(env: Env)
    requires EnvOk(env)
    ensures forall i :: 0 <= i < |BuiltinPasses(env)| ==> KeyOk(BuiltinPasses(env)[i]) && ValueOk(BuiltinPasses(env)[i])
  {
    hide Valid, YearText, ShortYearText, TwoDigits;
    DateTextsBraceFree(env.now);
    assert BraceFree("PREFIX") && BraceFree("SUFFIX") && BraceFree("YYYY") && BraceFree("YY");
    assert BraceFree("MM") && BraceFree("DD");
  }

  lemma PassesOk(env: Env, order: seq<string>)
    requires EnvOk(env) && InExtra(order, env)
    ensures forall p :: p in Passes(env, order) ==> KeyOk(p) && ValueOk(p)
  {
    ExtraPassesOk(env, order);
    BuiltinsOk(env);
    hide KeyOk, ValueOk, EnvOk;
    var b := BuiltinPasses(env);
    forall p | p in Passes(env, order) ensures KeyOk(p) && ValueOk(p) {
      if p in b {
        var i :| 0 <= i < |b| && b[i] == p;
      }
    }
  }
}
