/** When the result of `FormatNumber` depends on the order in which Go visits the extra tokens. Extra
    values may themselves contain tokens here; keys, prefix and suffix are brace-free. */
module NumberOrder {
  import opened Shared
  import opened Decimal
  import opened Calendar
  import opened NumberFormat

  /** Extra values taken apart into literals and tokens. */
  type Values = map<string, seq<Piece>>

  ghost predicate Parsed(env: Env, vals: Values) {
    && Valid(env.now) && BraceFree(env.prefix) && BraceFree(env.suffix) && vals.Keys == env.extra.Keys
    && forall k :: k in vals ==> BraceFree(k) && WellFormed(vals[k]) && env.extra[k] == Unparse(vals[k])
  }

  // ---- Passes as splices ----

  /** One pass: every token `k` gives way to the pieces of its value. */
  function Splice(k: string, v: seq<Piece>, ps: seq<Piece>): seq<Piece> {
    if ps == [] then [] else (if ps[0] == Tok(k) then v else [ps[0]]) + Splice(k, v, ps[1..])
  }

  function SpliceAll(vals: Values, order: seq<string>, ps: seq<Piece>): seq<Piece>
    requires forall k :: k in order ==> k in vals
    decreases |order|
  {
    if order == [] then ps else SpliceAll(vals, order[1..], Splice(order[0], vals[order[0]], ps))
  }

  /** The text once the counter has been written. */
  function Final(val: int, padding: int, ps: seq<Piece>): string {
    Unparse(SubstituteIn(Seq(val, padding), ps))
  }

  /** The template after the built-in passes. */
  function Base(env: Env, ps: seq<Piece>): seq<Piece>
    requires Valid(env.now)
  {
    SubstituteAll(BuiltinPasses(env), ps)
  }

  lemma {:induction false} UnparseAppend(a: seq<Piece>, b: seq<Piece>)
    ensures Unparse(a + b) == Unparse(a) + Unparse(b)
    decreases |a|
  {
    if a == [] {
      assert a + b == b;
    } else {
      assert (a + b)[0] == a[0] && (a + b)[1..] == a[1..] + b;
      UnparseAppend(a[1..], b);
    }
  }

  lemma FinalAppend(val: int, padding: int, a: seq<Piece>, b: seq<Piece>)
    ensures Final(val, padding, a + b) == Final(val, padding, a) + Final(val, padding, b)
  {
    hide Unparse;
    var p := Seq(val, padding);
    assert SubstituteIn(p, a + b) == SubstituteIn(p, a) + SubstituteIn(p, b);
    UnparseAppend(SubstituteIn(p, a), SubstituteIn(p, b));
  }

  lemma FinalCons(val: int, padding: int, ps: seq<Piece>)
    requires ps != []
    ensures Final(val, padding, ps) == Final(val, padding, [ps[0]]) + Final(val, padding, ps[1..])
  {
    assert ps == [ps[0]] + ps[1..];
    FinalAppend(val, padding, [ps[0]], ps[1..]);
  }

  /** The counter pass sees only the text. */
  lemma FinalIsRewrite(val: int, padding: int, ps: seq<Piece>)
    requires WellFormed(ps)
    ensures Final(val, padding, ps) == Rewrite(Seq(val, padding), Unparse(ps))
  {
    RewriteIsSubstitute(Seq(val, padding), ps);
  }

  lemma {:induction false} SpliceTexts(k: string, v: seq<Piece>, ps: seq<Piece>)
    ensures Unparse(SubstituteIn(Replace(k, Unparse(v)), ps)) == Unparse(Splice(k, v, ps))
    decreases |ps|
  {
    if ps != [] {
      var p := Replace(k, Unparse(v));
      SpliceTexts(k, v, ps[1..]);
      assert SubstituteIn(p, ps)[1..] == SubstituteIn(p, ps[1..]);
      var head := if ps[0] == Tok(k) then v else [ps[0]];
      UnparseAppend(head, Splice(k, v, ps[1..]));
      assert [ps[0]][1..] == [];
    }
  }

  lemma {:induction false} SpliceTokens(k: string, v: seq<Piece>, ps: seq<Piece>, x: Piece)
    requires x in Splice(k, v, ps)
    ensures (x in ps && x != Tok(k)) || (Tok(k) in ps && x in v)
    decreases |ps|
  {
    if !(x in (if ps[0] == Tok(k) then v else [ps[0]])) { SpliceTokens(k, v, ps[1..], x); }
  }

  lemma SpliceKeepsWellFormed(k: string, v: seq<Piece>, ps: seq<Piece>)
    requires WellFormed(v) && WellFormed(ps)
    ensures WellFormed(Splice(k, v, ps))
  {
    var qs := Splice(k, v, ps);
    forall i | 0 <= i < |qs| ensures PieceOk(qs[i]) { SpliceTokens(k, v, ps, qs[i]); }
  }

  /** The passes over the extra tokens are splices, in the same order. */
  lemma {:induction false} ExtrasAreSplices(env: Env, vals: Values, order: seq<string>, ps: seq<Piece>)
    requires Parsed(env, vals) && WellFormed(ps) && forall k :: k in order ==> k in vals
    ensures RewriteAll(ExtraPasses(env.extra, order), Unparse(ps)) == Unparse(SpliceAll(vals, order, ps))
    ensures WellFormed(SpliceAll(vals, order, ps))
    decreases |order|
  {
    hide WellFormed, Valid, BraceFree;
    if order != [] {
      var k := order[0];
      RewriteIsSubstitute(Replace(k, env.extra[k]), ps);
      SpliceTexts(k, vals[k], ps);
      SpliceKeepsWellFormed(k, vals[k], ps);
      ExtrasAreSplices(env, vals, order[1..], Splice(k, vals[k], ps));
    }
  }

  lemma {:induction false} SubstituteAllKeepsWellFormed(passes: seq<Pass>, ps: seq<Piece>)
    requires WellFormed(ps) && forall p :: p in passes ==> ValueOk(p)
    ensures WellFormed(SubstituteAll(passes, ps))
    decreases |passes|
  {
    hide WellFormed, ValueOk;
    if passes != [] {
      SubstituteKeepsWellFormed(passes[0], ps);
      SubstituteAllKeepsWellFormed(passes[1..], SubstituteIn(passes[0], ps));
    }
  }

  lemma BuiltinsAreSubstitutions(env: Env, vals: Values, ps: seq<Piece>)
    requires Parsed(env, vals) && WellFormed(ps)
    ensures RewriteAll(BuiltinPasses(env), Unparse(ps)) == Unparse(Base(env, ps)) && WellFormed(Base(env, ps))
  {
    var plain := env.(extra := map[]);
    assert EnvOk(plain) && BuiltinPasses(plain) == BuiltinPasses(env);
    BuiltinsOk(plain);
    var b := BuiltinPasses(env);
    hide WellFormed, BuiltinPasses, KeyOk, ValueOk;
    forall p | p in b ensures KeyOk(p) && ValueOk(p) { var i :| 0 <= i < |b| && b[i] == p; }
    RewriteAllIsSubstituteAll(b, ps);
    SubstituteAllKeepsWellFormed(b, ps);
  }

  /** The whole chain, for one order of the extra tokens. */
  lemma ChainIsSplices(env: Env, vals: Values, order: seq<string>, ps: seq<Piece>)
    requires Parsed(env, vals) && WellFormed(ps) && InExtra(order, env)
    ensures RewriteAll(Passes(env, order), Unparse(ps)) ==
            Final(env.val, env.padding, SpliceAll(vals, order, Base(env, ps)))
  {
    var b, e, q := BuiltinPasses(env), ExtraPasses(env.extra, order), Seq(env.val, env.padding);
    BuiltinsAreSubstitutions(env, vals, ps);
    hide WellFormed, Base, BuiltinPasses;
    ExtrasAreSplices(env, vals, order, Base(env, ps));
    RewriteAllAppend(b, e, Unparse(ps));
    RewriteAllSnoc(b + e, q, Unparse(ps));
    FinalIsRewrite(env.val, env.padding, SpliceAll(vals, order, Base(env, ps)));
  }

  /** No built-in token survives the built-in passes. */
  lemma BaseTokens(env: Env, ps: seq<Piece>, name: string)
    requires Valid(env.now) && Tok(name) in Base(env, ps)
    ensures name !in BUILTINS
  {
    hide Valid, BuiltinPasses, TokenText;
    var b := BuiltinPasses(env);
    if ps == [] { EmptyStays(b); } else { LiteralsStay(b, ps, 0); }
    var i :| 0 <= i < |Base(env, ps)| && Base(env, ps)[i] == Tok(name);
    LiteralsStay(b, ps, i);
    ResolveBuiltins(env, ps[i].name);
  }

  // ---- Values that do not mind the order ----

  /** Replacing the token by its value makes no difference once the counter has been written. */
  ghost predicate Neutral(padding: int, vals: Values, l: string)
    requires l in vals
  {
    forall val :: Final(val, padding, vals[l]) == Final(val, padding, [Tok(l)])
  }

  /** No value that a template can show contains the token of another extra, unless that is neutral. */
  ghost predicate Safe(padding: int, vals: Values) {
    forall k, l :: k in vals && k !in BUILTINS && l in vals && l != k && Tok(l) in vals[k] ==> Neutral(padding, vals, l)
  }

  lemma UnparseOne(p: Piece)
    ensures Unparse([p]) == PieceSource(p)
  {
    assert [p][1..] == [] && PieceSource(p) + "" == PieceSource(p);
  }

  lemma StartsOtherwise(t: string, rest: string, l: string)
    requires BraceFree(t) && t != ""
    ensures t + rest != Braced(l)
  {
    assert (t + rest)[0] == t[0] != Braced(l)[0];
  }

  lemma {:induction false} OnlyThisToken(qs: seq<Piece>, l: string, i: nat)
    requires WellFormed(qs) && BraceFree(l) && Unparse(qs) == Braced(l) && i < |qs|
    ensures qs[i] == Lit("") || qs[i] == Tok(l)
    decreases |qs|
  {
    var head, rest := PieceSource(qs[0]), Unparse(qs[1..]);
    match qs[0]
    case Lit(t) =>
      if t == "" {
        assert rest == Braced(l);
        if i > 0 { OnlyThisToken(qs[1..], l, i - 1); }
      } else {
        StartsOtherwise(t, rest, l);
      }
    case Tok(n) =>
      assert Braced(n) <= Braced(l) + "";
      NamePrefix(n, l, "");
      assert rest == "";
      if i > 0 { NothingLeft(qs[1..], i - 1); }
  }

  lemma {:induction false} NothingLeft(qs: seq<Piece>, i: nat)
    requires Unparse(qs) == "" && i < |qs|
    ensures qs[i] == Lit("")
    decreases |qs|
  {
    assert PieceSource(qs[0]) == "" && Unparse(qs[1..]) == "";
    if i > 0 { NothingLeft(qs[1..], i - 1); }
  }

  lemma FinalOfToken(val: int, padding: int, l: string)
    ensures Final(val, padding, [Tok(l)]) ==
            if IsSeqName(l) then SeqText(SeqWidth(l, padding), val) else Braced(l)
  {
    var p := Seq(val, padding);
    assert SubstituteIn(p, [Tok(l)]) == [SubstitutePiece(p, Tok(l))];
    UnparseOne(SubstitutePiece(p, Tok(l)));
  }

  /** A key that is no SEQ name is neutral exactly when its value is its own token. */
  lemma NeutralIff(padding: int, vals: Values, l: string)
    requires l in vals && BraceFree(l) && WellFormed(vals[l]) && !IsSeqName(l)
    ensures Neutral(padding, vals, l) <==> Unparse(vals[l]) == Braced(l)
    ensures Neutral(padding, vals, l) ==> forall n :: Tok(n) in vals[l] ==> n == l
  {
    FinalOfToken(0, padding, l);
    if Neutral(padding, vals, l) {
      assert Final(0, padding, vals[l]) == Braced(l);
      OnlyOwnToken(padding, vals[l], l);
    }
    if Unparse(vals[l]) == Braced(l) {
      forall val ensures Final(val, padding, vals[l]) == Final(val, padding, [Tok(l)]) {
        FinalIsRewrite(val, padding, vals[l]);
        FinalIsRewrite(val, padding, [Tok(l)]);
        UnparseOne(Tok(l));
      }
    }
  }

  lemma OnlyOwnToken(padding: int, v: seq<Piece>, l: string)
    requires WellFormed(v) && BraceFree(l) && Final(0, padding, v) == Braced(l)
    ensures Unparse(v) == Braced(l) && forall n :: Tok(n) in v ==> n == l
  {
    var p := Seq(0, padding);
    var qs := SubstituteIn(p, v);
    SubstituteKeepsWellFormed(p, v);
    forall i | 0 <= i < |v| ensures v[i] == qs[i] && (v[i] == Lit("") || v[i] == Tok(l)) {
      OnlyThisToken(qs, l, i);
      assert qs[i] == SubstitutePiece(p, v[i]);
    }
    assert v == qs;
  }

  /** Every token of `ps` that is still to be visited is neutral. */
  ghost predicate Inert(padding: int, vals: Values, order: seq<string>, ps: seq<Piece>)
    requires forall k :: k in order ==> k in vals
  {
    forall l :: l in order && Tok(l) in ps ==> Neutral(padding, vals, l)
  }

  lemma {:induction false} NeutralSplice(val: int, padding: int, vals: Values, l: string, ps: seq<Piece>)
    requires l in vals && (Tok(l) in ps ==> Neutral(padding, vals, l))
    ensures Final(val, padding, Splice(l, vals[l], ps)) == Final(val, padding, ps)
    decreases |ps|
  {
    hide Final;
    if ps != [] {
      NeutralSplice(val, padding, vals, l, ps[1..]);
      FinalCons(val, padding, ps);
      FinalAppend(val, padding, if ps[0] == Tok(l) then vals[l] else [ps[0]], Splice(l, vals[l], ps[1..]));
    }
  }

  ghost predicate ValuesOk(vals: Values) {
    forall k :: k in vals ==> BraceFree(k) && WellFormed(vals[k])
  }

  lemma SpliceStaysInert(padding: int, vals: Values, order: seq<string>, ps: seq<Piece>)
    requires order != [] && NoDup(order) && (forall k :: k in order ==> k in vals)
    requires ValuesOk(vals) && Safe(padding, vals) && Inert(padding, vals, order, ps)
    ensures Inert(padding, vals, order[1..], Splice(order[0], vals[order[0]], ps))
  {
    var l := order[0];
    hide Neutral, WellFormed, BraceFree;
    forall x | x in order[1..] && Tok(x) in Splice(l, vals[l], ps) ensures Neutral(padding, vals, x) {
      SpliceTokens(l, vals[l], ps, Tok(x));
      assert x != l;
      if !(Tok(x) in ps) && l in BUILTINS {
        BuiltinIsNoSeq(l);
        NeutralIff(padding, vals, l);
      }
    }
  }

  lemma BuiltinIsNoSeq(l: string)
    requires l in BUILTINS
    ensures !IsSeqName(l)
  {
    SeqNameStarts(l);
  }

  lemma {:induction false} InertStays(val: int, padding: int, vals: Values, order: seq<string>, ps: seq<Piece>)
    requires NoDup(order) && (forall k :: k in order ==> k in vals)
    requires ValuesOk(vals) && Safe(padding, vals) && Inert(padding, vals, order, ps)
    ensures Final(val, padding, SpliceAll(vals, order, ps)) == Final(val, padding, ps)
    decreases |order|
  {
    if order != [] {
      var l := order[0];
      NeutralSplice(val, padding, vals, l, ps);
      SpliceStaysInert(padding, vals, order, ps);
      hide Safe, ValuesOk, Final, Inert;
      InertStays(val, padding, vals, order[1..], Splice(l, vals[l], ps));
    }
  }

  // ---- Safe values: one result ----

  /** The simultaneous reading: each extra token of the template stands for its value. */
  function Direct(vals: Values, ps: seq<Piece>): seq<Piece> {
    if ps == [] then [] else
      (if ps[0].Tok? && ps[0].name in vals then vals[ps[0].name] else [ps[0]]) + Direct(vals, ps[1..])
  }

  lemma {:induction false} SpliceAppend(k: string, v: seq<Piece>, a: seq<Piece>, b: seq<Piece>)
    ensures Splice(k, v, a + b) == Splice(k, v, a) + Splice(k, v, b)
    decreases |a|
  {
    if a == [] {
      assert a + b == b;
    } else {
      assert (a + b)[0] == a[0] && (a + b)[1..] == a[1..] + b;
      SpliceAppend(k, v, a[1..], b);
    }
  }

  lemma {:induction false} SpliceAllAppend(vals: Values, order: seq<string>, a: seq<Piece>, b: seq<Piece>)
    requires forall k :: k in order ==> k in vals
    ensures SpliceAll(vals, order, a + b) == SpliceAll(vals, order, a) + SpliceAll(vals, order, b)
    decreases |order|
  {
    if order != [] {
      var k := order[0];
      SpliceAppend(k, vals[k], a, b);
      SpliceAllAppend(vals, order[1..], Splice(k, vals[k], a), Splice(k, vals[k], b));
    }
  }

  lemma SpliceOne(k: string, v: seq<Piece>, p: Piece)
    ensures Splice(k, v, [p]) == if p == Tok(k) then v else [p]
  {
    assert [p][1..] == [] && Splice(k, v, []) == [];
  }

  lemma {:induction false} LeftAlone(vals: Values, order: seq<string>, p: Piece)
    requires (forall k :: k in order ==> k in vals) && (p.Lit? || p.name !in order)
    ensures SpliceAll(vals, order, [p]) == [p]
    decreases |order|
  {
    if order != [] {
      SpliceOne(order[0], vals[order[0]], p);
      LeftAlone(vals, order[1..], p);
    }
  }

  lemma {:induction false} TokenResult(val: int, padding: int, vals: Values, order: seq<string>, k: string)
    requires NoDup(order) && (forall x :: x in order ==> x in vals) && k in order && k !in BUILTINS
    requires ValuesOk(vals) && Safe(padding, vals)
    ensures Final(val, padding, SpliceAll(vals, order, [Tok(k)])) == Final(val, padding, vals[k])
    decreases |order|
  {
    SpliceOne(order[0], vals[order[0]], Tok(k));
    if order[0] == k {
      hide Neutral, Final, ValuesOk;
      assert Inert(padding, vals, order[1..], vals[k]);
      InertStays(val, padding, vals, order[1..], vals[k]);
    } else {
      hide Safe, ValuesOk, Final;
      TokenResult(val, padding, vals, order[1..], k);
    }
  }

  lemma {:induction false} AnyOrder(val: int, padding: int, vals: Values, order: seq<string>, ps: seq<Piece>)
    requires Enumerates(order, vals.Keys) && ValuesOk(vals) && Safe(padding, vals)
    requires (forall k :: k in order ==> k in vals) && forall n :: Tok(n) in ps ==> n !in BUILTINS
    ensures Final(val, padding, SpliceAll(vals, order, ps)) == Final(val, padding, Direct(vals, ps))
    decreases |ps|
  {
    hide Safe, ValuesOk, Final;
    if ps == [] {
      NothingToSplice(vals, order);
    } else {
      var p := ps[0];
      assert ps == [p] + ps[1..];
      SpliceAllAppend(vals, order, [p], ps[1..]);
      AnyOrder(val, padding, vals, order, ps[1..]);
      var head := if p.Tok? && p.name in vals then vals[p.name] else [p];
      FinalAppend(val, padding, SpliceAll(vals, order, [p]), SpliceAll(vals, order, ps[1..]));
      FinalAppend(val, padding, head, Direct(vals, ps[1..]));
      if p.Tok? && p.name in vals {
        assert p.name in Elems(order);
        TokenResult(val, padding, vals, order, p.name);
      } else {
        LeftAlone(vals, order, p);
      }
    }
  }

  lemma {:induction false} NothingToSplice(vals: Values, order: seq<string>)
    requires forall k :: k in order ==> k in vals
    ensures SpliceAll(vals, order, []) == []
    decreases |order|
  {
    if order != [] { NothingToSplice(vals, order[1..]); }
  }

  ghost predicate ParsesTo(template: string, ps: seq<Piece>) {
    WellFormed(ps) && EffectiveTemplate(template) == Unparse(ps)
  }

  /** With safe values the result is the simultaneous reading, for every iteration order. */
  lemma SafeIsDirect(template: string, env: Env, vals: Values, ps: seq<Piece>, text: string)
    requires Parsed(env, vals) && Safe(env.padding, vals) && ParsesTo(template, ps) && FormatsTo(template, env, text)
    ensures text == Final(env.val, env.padding, Direct(vals, Base(env, ps)))
  {
    var order :| Enumerates(order, env.extra.Keys) && InExtra(order, env)
      && text == RewriteAll(Passes(env, order), EffectiveTemplate(template));
    hide Safe, Final, Base, Enumerates, WellFormed;
    ChainIsSplices(env, vals, order, ps);
    forall n | Tok(n) in Base(env, ps) ensures n !in BUILTINS { BaseTokens(env, ps, n); }
    AnyOrder(env.val, env.padding, vals, order, Base(env, ps));
  }

  // ---- Unsafe values: two results ----

  /** Replacing at least one occurrence of `x` by a text of another length changes the length. */
  lemma {:induction false} LengthsDiffer(val: int, padding: int, l: string, v: seq<Piece>, ps: seq<Piece>)
    requires |Final(val, padding, v)| != |Final(val, padding, [Tok(l)])|
    ensures var x, y := |Final(val, padding, [Tok(l)])|, |Final(val, padding, v)|;
            var a, b := |Final(val, padding, ps)|, |Final(val, padding, Splice(l, v, ps))|;
            if Tok(l) !in ps then a == b else if x < y then a < b else a > b
    decreases |ps|
  {
    hide Final;
    if ps != [] {
      LengthsDiffer(val, padding, l, v, ps[1..]);
      FinalCons(val, padding, ps);
      FinalAppend(val, padding, if ps[0] == Tok(l) then v else [ps[0]], Splice(l, v, ps[1..]));
    }
  }

  lemma SamePrefix(a: string, b: string, x: string, y: string)
    requires |a| == |b| && a + x == b + y
    ensures a == b && x == y
  {
    assert a == (a + x)[..|a|] && b == (b + y)[..|b|];
    assert x == (a + x)[|a|..] && y == (b + y)[|b|..];
  }

  lemma {:induction false} TextsDiffer(val: int, padding: int, l: string, v: seq<Piece>, ps: seq<Piece>)
    requires Tok(l) in ps && Final(val, padding, v) != Final(val, padding, [Tok(l)])
    ensures Final(val, padding, ps) != Final(val, padding, Splice(l, v, ps))
    decreases |ps|
  {
    if |Final(val, padding, v)| != |Final(val, padding, [Tok(l)])| {
      LengthsDiffer(val, padding, l, v, ps);
    } else {
      hide Final;
      var head, rest := if ps[0] == Tok(l) then v else [ps[0]], Splice(l, v, ps[1..]);
      FinalCons(val, padding, ps);
      FinalAppend(val, padding, head, rest);
      if ps[0] != Tok(l) { TextsDiffer(val, padding, l, v, ps[1..]); }
      if Final(val, padding, ps) == Final(val, padding, head + rest) {
        SamePrefix(Final(val, padding, [ps[0]]), Final(val, padding, head),
                   Final(val, padding, ps[1..]), Final(val, padding, rest));
      }
    }
  }

  lemma {:induction false} SpliceAllConcat(vals: Values, a: seq<string>, b: seq<string>, ps: seq<Piece>)
    requires (forall k :: k in a ==> k in vals) && forall k :: k in b ==> k in vals
    ensures (forall k :: k in a + b ==> k in vals)
    ensures SpliceAll(vals, a + b, ps) == SpliceAll(vals, b, SpliceAll(vals, a, ps))
    decreases |a|
  {
    if a == [] {
      assert a + b == b;
    } else {
      assert (a + b)[0] == a[0] && (a + b)[1..] == a[1..] + b;
      SpliceAllConcat(vals, a[1..], b, Splice(a[0], vals[a[0]], ps));
    }
  }

  lemma BaseOfPlainToken(env: Env, k: string)
    requires Valid(env.now) && k !in BUILTINS
    ensures Base(env, [Tok(k)]) == [Tok(k)]
  {
    hide Valid, BuiltinPasses, TokenText;
    LiteralsStay(BuiltinPasses(env), [Tok(k)], 0);
    ResolveBuiltins(env, k);
  }

  /** The result for the template `{k}` when the extra tokens are visited as in `order`. */
  lemma OneTokenResult(env: Env, vals: Values, k: string, order: seq<string>)
    requires Parsed(env, vals) && k in vals && k !in BUILTINS && Enumerates(order, vals.Keys) && InExtra(order, env)
    ensures FormatsTo(Braced(k), env, Final(env.val, env.padding, SpliceAll(vals, order, [Tok(k)])))
  {
    hide Final, NoDup;
    UnparseOne(Tok(k));
    BaseOfPlainToken(env, k);
    assert WellFormed([Tok(k)]);
    ChainIsSplices(env, vals, order, [Tok(k)]);
    assert EffectiveTemplate(Braced(k)) == Braced(k);
  }

  lemma TwoSplices(vals: Values, a: string, b: string, ps: seq<Piece>)
    requires a in vals && b in vals
    ensures SpliceAll(vals, [a, b], ps) == Splice(b, vals[b], Splice(a, vals[a], ps))
  {
    hide Splice;
    assert [a, b][1..] == [b] && [b][1..] == [];
    var qs := Splice(a, vals[a], ps);
    assert SpliceAll(vals, [b], qs) == Splice(b, vals[b], qs);
  }

  lemma LastTwo(vals: Values, rest: seq<string>, k: string, l: string)
    requires k in vals && l in vals && k != l && k !in rest && forall x :: x in rest ==> x in vals
    ensures (forall x :: x in rest + [l, k] ==> x in vals) && (forall x :: x in rest + [k, l] ==> x in vals)
    ensures SpliceAll(vals, rest + [l, k], [Tok(k)]) == vals[k]
    ensures SpliceAll(vals, rest + [k, l], [Tok(k)]) == Splice(l, vals[l], vals[k])
  {
    LeftAlone(vals, rest, Tok(k));
    SpliceAllConcat(vals, rest, [l, k], [Tok(k)]);
    SpliceAllConcat(vals, rest, [k, l], [Tok(k)]);
    SpliceOne(l, vals[l], Tok(k));
    SpliceOne(k, vals[k], Tok(k));
    hide Splice;
    TwoSplices(vals, l, k, [Tok(k)]);
    TwoSplices(vals, k, l, [Tok(k)]);
  }

  lemma AddLastTwo(rest: seq<string>, keys: set<string>, k: string, l: string)
    requires k in keys && l in keys && k != l && Enumerates(rest, keys - {k, l})
    ensures Enumerates(rest + [k, l], keys)
  {
    EnumerateOneMore(rest, keys - {k, l}, k);
    EnumerateOneMore(rest + [k], keys - {k, l} + {k}, l);
    assert keys - {k, l} + {k} + {l} == keys && rest + [k] + [l] == rest + [k, l];
  }

  /** If a value that the template `{k}` shows contains the token of another extra that is not
      neutral for this counter, two results are possible. */
  lemma OrderMatters(env: Env, vals: Values, k: string, l: string) returns (t1: string, t2: string)
    requires Parsed(env, vals) && k in vals && k !in BUILTINS && l in vals && l != k && Tok(l) in vals[k]
    requires Final(env.val, env.padding, vals[l]) != Final(env.val, env.padding, [Tok(l)])
    ensures FormatsTo(Braced(k), env, t1) && FormatsTo(Braced(k), env, t2) && t1 != t2
  {
    hide Final, FormatsTo;
    var rest := EnumerationExists(vals.Keys - {k, l});
    AddLastTwo(rest, vals.Keys, k, l);
    AddLastTwo(rest, vals.Keys, l, k);
    assert {l, k} == {k, l};
    LastTwo(vals, rest, k, l);
    OneTokenResult(env, vals, k, rest + [l, k]);
    OneTokenResult(env, vals, k, rest + [k, l]);
    t1, t2 := Final(env.val, env.padding, vals[k]), Final(env.val, env.padding, Splice(l, vals[l], vals[k]));
    TextsDiffer(env.val, env.padding, l, vals[l], vals[k]);
  }

  // ---- The exact condition ----

  ghost predicate Gives(template: string, env: Env, val: int, text: string)
    requires Valid(env.now)
  {
    FormatsTo(template, env.(val := val), text)
  }

  /** Every well-formed template and every counter have one result only. */
  ghost predicate OrderFree(env: Env)
    requires Valid(env.now)
  {
    forall template, ps, val, t1, t2 ::
      ParsesTo(template, ps) && Gives(template, env, val, t1) && Gives(template, env, val, t2) ==> t1 == t2
  }

  /** `FormatNumber` does not depend on the iteration order of the extra tokens, on any well-formed
      template and any counter, if and only if no value that a template can show contains the token
      of another extra that is not neutral. */
  lemma OrderFreeIff(env: Env, vals: Values)
    requires Parsed(env, vals)
    ensures OrderFree(env) <==> Safe(env.padding, vals)
  {
    hide Final, FormatsTo, WellFormed;
    if Safe(env.padding, vals) {
      forall template, ps, val, t1, t2
        | ParsesTo(template, ps) && Gives(template, env, val, t1) && Gives(template, env, val, t2)
        ensures t1 == t2
      {
        SafeIsDirect(template, env.(val := val), vals, ps, t1);
        SafeIsDirect(template, env.(val := val), vals, ps, t2);
      }
    } else {
      var k, l :| k in vals && k !in BUILTINS && l in vals && l != k && Tok(l) in vals[k]
        && !Neutral(env.padding, vals, l);
      var val :| Final(val, env.padding, vals[l]) != Final(val, env.padding, [Tok(l)]);
      var t1, t2 := OrderMatters(env.(val := val), vals, k, l);
      TokenParses(vals, k);
      assert Gives(Braced(k), env, val, t1) && Gives(Braced(k), env, val, t2);
    }
  }

  lemma TokenParses(vals: Values, k: string)
    requires BraceFree(k)
    ensures ParsesTo(Braced(k), [Tok(k)])
  {
    UnparseOne(Tok(k));
  }

  /** The value reads like the token itself: it is the token, or a SEQ token of the same width. */
  predicate ReadsAs(padding: int, l: string, text: string) {
    text == Braced(l) ||
    (|text| >= 2 && var n := text[1..|text| - 1];
     text == Braced(n) && IsSeqName(n) && IsSeqName(l) && SeqWidth(n, padding) == SeqWidth(l, padding))
  }

  /** A SEQ token whose width `fmt` accepts. */
  predicate InLimit(padding: int, n: string) {
    IsSeqName(n) && SeqWidth(n, padding) / 10 <= 1_000_000
  }

  /** All literals are digits and all tokens are SEQ tokens in the limit. */
  ghost predicate Numeric(padding: int, ps: seq<Piece>) {
    forall i :: 0 <= i < |ps| ==> if ps[i].Lit? then AllDigits(ps[i].text) else InLimit(padding, ps[i].name)
  }

  lemma {:induction false} PieceDigits(qs: seq<Piece>, i: nat)
    requires AllDigits(Unparse(qs)) && i < |qs|
    ensures AllDigits(PieceSource(qs[i]))
    decreases |qs|
  {
    var a, b := PieceSource(qs[0]), Unparse(qs[1..]);
    forall j | 0 <= j < |a| ensures IsDigit(a[j]) { assert (a + b)[j] == a[j]; }
    forall j | 0 <= j < |b| ensures IsDigit(b[j]) { assert (a + b)[|a| + j] == b[j]; }
    if i > 0 { PieceDigits(qs[1..], i - 1); }
  }

  lemma NumbersAreInLimit(padding: int, n: string)
    ensures AllDigits(PieceSource(SubstitutePiece(Seq(0, padding), Tok(n)))) ==> InLimit(padding, n)
  {
    var t := PieceSource(SubstitutePiece(Seq(0, padding), Tok(n)));
    assert InLimit(padding, n) || t[0] == '{' || t[0] == '%';
  }

  lemma DigitsAreNumeric(padding: int, ps: seq<Piece>)
    requires AllDigits(Final(0, padding, ps))
    ensures Numeric(padding, ps)
  {
    var p := Seq(0, padding);
    forall i | 0 <= i < |ps| ensures if ps[i].Lit? then AllDigits(ps[i].text) else InLimit(padding, ps[i].name) {
      PieceDigits(SubstituteIn(p, ps), i);
      var t := PieceSource(SubstitutePiece(p, ps[i]));
      assert AllDigits(t);
      if ps[i].Tok? { NumbersAreInLimit(padding, ps[i].name); }
    }
  }

  function CountTokens(ps: seq<Piece>): nat {
    if ps == [] then 0 else (if ps[0].Tok? then 1 else 0) + CountTokens(ps[1..])
  }

  function LiteralLength(ps: seq<Piece>): nat {
    if ps == [] then 0 else (if ps[0].Lit? then |ps[0].text| else 0) + LiteralLength(ps[1..])
  }

  lemma {:induction false} PowerLength(k: nat)
    ensures |Print(Power10(k))| == k + 1
  {
    if k > 0 { PowerLength(k - 1); }
  }

  lemma FinalOfPiece(val: nat, padding: int, p: Piece)
    requires p.Lit? || InLimit(padding, p.name)
    ensures |Final(val, padding, [p])| ==
            if p.Lit? then |p.text|
            else if SeqWidth(p.name, padding) > |Print(val)| then SeqWidth(p.name, padding) else |Print(val)|
  {
    if p.Lit? {
      assert SubstituteIn(Seq(val, padding), [p]) == [p];
      UnparseOne(p);
    } else {
      FinalOfToken(val, padding, p.name);
    }
  }

  /** On a number with more digits than any width asks for, every token takes exactly those digits. */
  lemma {:induction false} LongLength(val: nat, padding: int, ps: seq<Piece>)
    requires Numeric(padding, ps) && |Print(val)| > |Final(0, padding, ps)|
    ensures |Final(val, padding, ps)| == CountTokens(ps) * |Print(val)| + LiteralLength(ps)
    ensures LiteralLength(ps) <= |Final(0, padding, ps)|
    decreases |ps|
  {
    hide Final, SeqWidth, Print;
    if ps == [] {
      NothingFinal(val, padding);
    } else {
      FinalCons(0, padding, ps);
      FinalCons(val, padding, ps);
      FinalOfPiece(0, padding, ps[0]);
      FinalOfPiece(val, padding, ps[0]);
      LongLength(val, padding, ps[1..]);
    }
  }

  lemma NothingFinal(val: int, padding: int)
    ensures Final(val, padding, []) == ""
  {
    assert SubstituteIn(Seq(val, padding), []) == [];
  }

  lemma {:induction false} SingleToken(ps: seq<Piece>) returns (n: string)
    requires CountTokens(ps) == 1 && LiteralLength(ps) == 0
    ensures Tok(n) in ps && Unparse(ps) == Braced(n)
    decreases |ps|
  {
    if ps[0].Tok? {
      n := ps[0].name;
      NoText(ps[1..]);
      assert Braced(n) + "" == Braced(n);
    } else {
      n := SingleToken(ps[1..]);
      assert "" + Braced(n) == Braced(n);
    }
  }

  lemma {:induction false} NoText(ps: seq<Piece>)
    requires CountTokens(ps) == 0 && LiteralLength(ps) == 0
    ensures Unparse(ps) == ""
    decreases |ps|
  {
    if ps != [] { NoText(ps[1..]); }
  }

  lemma ExactlyOne(c: nat, d: int, lit: nat)
    requires c * d + lit == d && lit < d
    ensures c == 1 && lit == 0
  {
  }

  /** A neutral value of a SEQ key is a single SEQ token. */
  lemma NeutralIsToken(padding: int, vals: Values, l: string) returns (n: string)
    requires l in vals && InLimit(padding, l) && Neutral(padding, vals, l)
    ensures Unparse(vals[l]) == Braced(n) && InLimit(padding, n)
  {
    var v := vals[l];
    FinalOfToken(0, padding, l);
    assert Final(0, padding, v) == Final(0, padding, [Tok(l)]);
    DigitsAreNumeric(padding, v);
    var d := |Final(0, padding, v)|;
    var val := Power10(d);
    PowerLength(d);
    LongLength(val, padding, v);
    FinalOfPiece(0, padding, Tok(l));
    FinalOfPiece(val, padding, Tok(l));
    assert Final(val, padding, v) == Final(val, padding, [Tok(l)]);
    ExactlyOne(CountTokens(v), d + 1, LiteralLength(v));
    n := SingleToken(v);
  }

  lemma WidthsAreUsed(padding: int, m: string, n: string)
    requires InLimit(padding, m) && InLimit(padding, n)
    requires Final(0, padding, [Tok(m)]) == Final(0, padding, [Tok(n)])
    ensures SeqWidth(m, padding) == SeqWidth(n, padding)
  {
    FinalOfPiece(0, padding, Tok(m));
    FinalOfPiece(0, padding, Tok(n));
    assert |Print(0)| == 1;
  }

  /** Neutrality can be read off the text of the value. */
  lemma NeutralIffReadsAs(padding: int, vals: Values, l: string)
    requires l in vals && BraceFree(l) && WellFormed(vals[l]) && (IsSeqName(l) ==> InLimit(padding, l))
    ensures Neutral(padding, vals, l) <==> ReadsAs(padding, l, Unparse(vals[l]))
  {
    var v := vals[l];
    if !IsSeqName(l) {
      NeutralIff(padding, vals, l);
    } else {
      if Neutral(padding, vals, l) {
        var n := NeutralIsToken(padding, vals, l);
        assert Final(0, padding, v) == Final(0, padding, [Tok(l)]);
        FinalOfBraced(0, padding, v, n);
        WidthsAreUsed(padding, l, n);
        assert Braced(n)[1..|Braced(n)| - 1] == n;
      }
      if ReadsAs(padding, l, Unparse(v)) {
        var n := if Unparse(v) == Braced(l) then l else Unparse(v)[1..|Unparse(v)| - 1];
        forall val ensures Final(val, padding, v) == Final(val, padding, [Tok(l)]) {
          FinalOfBraced(val, padding, v, n);
          FinalOfToken(val, padding, l);
          FinalOfToken(val, padding, n);
        }
      }
    }
  }

  lemma FinalOfBraced(val: int, padding: int, v: seq<Piece>, n: string)
    requires WellFormed(v) && Unparse(v) == Braced(n) && IsSeqName(n)
    ensures Final(val, padding, v) == Final(val, padding, [Tok(n)])
  {
    FinalIsRewrite(val, padding, v);
    SeqNameBraceFree(n);
    FinalIsRewrite(val, padding, [Tok(n)]);
    UnparseOne(Tok(n));
  }

  lemma SeqNameBraceFree(n: string)
    requires IsSeqName(n)
    ensures BraceFree(n)
  {
    if n != "SEQ" {
      forall i | 0 <= i < |n| ensures n[i] != '{' && n[i] != '}' {
        if i < 4 { CharAt("SEQ:", n, i); } else { assert n[i] == n[4..][i - 4]; }
      }
    }
  }

  /** The condition on texts: no extra's value, other than those hidden behind a built-in name,
      contains the token of another extra, unless that one's value reads like its own token. */
  lemma OrderFreeIffTexts(env: Env, vals: Values)
    requires Parsed(env, vals) && forall k :: k in vals && IsSeqName(k) ==> InLimit(env.padding, k)
    ensures OrderFree(env) <==>
            forall k, l :: k in vals && k !in BUILTINS && l in vals && l != k && Tok(l) in vals[k] ==>
              ReadsAs(env.padding, l, env.extra[l])
  {
    hide Neutral, IsSeqName, OrderFree, WellFormed, BraceFree, ReadsAs, InLimit;
    OrderFreeIff(env, vals);
    forall l | l in vals ensures Neutral(env.padding, vals, l) <==> ReadsAs(env.padding, l, env.extra[l]) {
      NeutralIffReadsAs(env.padding, vals, l);
    }
  }
}
