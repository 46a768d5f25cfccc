/** Iteration order and arbitrary templates: nested and unbalanced braces included. Keys and values of the
    extra tokens are brace-free, and no key is a built-in name. */
module AnyTemplate {
  import opened Shared
  import opened Decimal
  import opened Calendar
  import opened NumberFormat
  import opened NumberOrder

  /** `v` occurs in `key`. */
  ghost predicate Inside(v: string, key: string) {
    exists i: nat :: InsideAt(v, key, i)
  }

  predicate InsideAt(v: string, key: string, i: nat) {
    i + |v| <= |key| && key[i..i + |v|] == v
  }

  // ---- Passes that commute ----

  lemma InsideTail(v: string, name: string)
    requires name != "" && Inside(v, name[1..])
    ensures Inside(v, name)
  {
    var i: nat :| InsideAt(v, name[1..], i);
    assert name[1..][i..i + |v|] == name[i + 1..i + 1 + |v|];
    assert InsideAt(v, name, i + 1);
  }

  /** A replacement in front of `name}` that does not occur in the name cannot complete it. */
  lemma ReplacedIsNoName(v: string, rest: string, name: string)
    requires BraceFree(v) && name + "}" <= v + rest
    ensures Inside(v, name)
  {
    var n := name + "}";
    if |v| <= |name| {
      assert n[..|v|] == (v + rest)[..|v|] == v;
      assert InsideAt(v, name, 0);
    } else {
      CharAt(n, v + rest, |name|);
    }
  }

  lemma {:induction false} NoNewName(k: string, v: string, name: string, s: string)
    requires BraceFree(k) && BraceFree(v) && !Inside(v, name)
    ensures name + "}" <= Rewrite(Replace(k, v), s) ==> name + "}" <= s
    decreases |s|
  {
    var p := Replace(k, v);
    if name + "}" <= Rewrite(p, s) && s != "" {
      if Braced(k) <= s {
        ReplacedIsNoName(v, Rewrite(p, s[|Braced(k)|..]), name);
      } else if name != "" {
        if Inside(v, name[1..]) { InsideTail(v, name); }
        CharAt(name + "}", Rewrite(p, s), 0);
        ConsPrefix(name + "}", [s[0]], Rewrite(p, s[1..]));
        assert (name + "}")[1..] == name[1..] + "}";
        NoNewName(k, v, name[1..], s[1..]);
        assert s == [s[0]] + s[1..];
        PrefixCons(name + "}", s);
      } else {
        CharAt("}", Rewrite(p, s), 0);
        assert s[0] == '}';
      }
    }
  }

  lemma ConsPrefix(n: string, c: string, t: string)
    requires n != "" && |c| == 1 && n <= c + t
    ensures n[1..] <= t
  {
    assert (c + t)[1..|n|] == t[..|n| - 1] && n[1..] == (c + t)[..|n|][1..];
  }

  lemma PrefixCons(n: string, s: string)
    requires n != "" && s != "" && n[0] == s[0] && n[1..] <= s[1..]
    ensures n <= s
  {
    assert n == [n[0]] + n[1..] && s[..|n|] == [s[0]] + s[1..][..|n| - 1];
  }

  /** Rewriting what follows a brace does not complete another token. */
  lemma NoNewToken(k: string, v: string, l: string, s: string)
    requires BraceFree(k) && BraceFree(v) && !Inside(v, l) && s != "" && !(Braced(l) <= s)
    ensures !(Braced(l) <= [s[0]] + Rewrite(Replace(k, v), s[1..]))
  {
    var t := [s[0]] + Rewrite(Replace(k, v), s[1..]);
    if Braced(l) <= t {
      CharAt(Braced(l), t, 0);
      ConsPrefix(Braced(l), [s[0]], Rewrite(Replace(k, v), s[1..]));
      assert Braced(l)[1..] == l + "}";
      NoNewName(k, v, l, s[1..]);
      PrefixCons(Braced(l), s);
    }
  }

  lemma Replaced(k: string, v: string, s: string)
    requires Braced(k) <= s
    ensures Rewrite(Replace(k, v), s) == v + Rewrite(Replace(k, v), s[|Braced(k)|..])
  {
  }

  lemma Copied(k: string, v: string, s: string)
    requires s != "" && !(Braced(k) <= s)
    ensures Rewrite(Replace(k, v), s) == [s[0]] + Rewrite(Replace(k, v), s[1..])
  {
  }

  /** A token that only the second pass knows: the passes may be exchanged there. */
  lemma TokenCommutes(k: string, v: string, l: string, w: string, rest: string)
    requires BraceFree(k) && BraceFree(v) && BraceFree(l) && k != l
    ensures Rewrite(Replace(l, w), Rewrite(Replace(k, v), Braced(k) + rest)) ==
            v + Rewrite(Replace(l, w), Rewrite(Replace(k, v), rest))
    ensures Rewrite(Replace(k, v), Rewrite(Replace(l, w), Braced(k) + rest)) ==
            v + Rewrite(Replace(k, v), Rewrite(Replace(l, w), rest))
  {
    var p, q := Replace(k, v), Replace(l, w);
    RewriteToken(p, k, rest);
    RewriteToken(q, k, rest);
    hide Rewrite;
    CopyPlain(q, v, Rewrite(p, rest));
    RewriteToken(p, k, Rewrite(q, rest));
  }

  /** Two passes commute on every text if neither value occurs in the other key. */
  lemma {:induction false} PassesCommute(k: string, v: string, l: string, w: string, s: string)
    requires BraceFree(k) && BraceFree(v) && BraceFree(l) && BraceFree(w) && k != l && !Inside(v, l) && !Inside(w, k)
    ensures Rewrite(Replace(l, w), Rewrite(Replace(k, v), s)) == Rewrite(Replace(k, v), Rewrite(Replace(l, w), s))
    decreases |s|
  {
    var p, q := Replace(k, v), Replace(l, w);
    if Braced(k) <= s {
      var rest := s[|Braced(k)|..];
      assert s == Braced(k) + rest;
      TokenCommutes(k, v, l, w, rest);
      PassesCommute(k, v, l, w, rest);
    } else if Braced(l) <= s {
      var rest := s[|Braced(l)|..];
      assert s == Braced(l) + rest;
      TokenCommutes(l, w, k, v, rest);
      PassesCommute(k, v, l, w, rest);
    } else if s != "" {
      Copied(k, v, s);
      Copied(l, w, s);
      NoNewToken(k, v, l, s);
      NoNewToken(l, w, k, s);
      var a, b := [s[0]] + Rewrite(p, s[1..]), [s[0]] + Rewrite(q, s[1..]);
      Copied(l, w, a);
      Copied(k, v, b);
      assert a[1..] == Rewrite(p, s[1..]) && b[1..] == Rewrite(q, s[1..]);
      PassesCommute(k, v, l, w, s[1..]);
    }
  }

  // ---- Every order ----

  /** No value occurs in the key of another extra. */
  ghost predicate Apart(extra: map<string, string>) {
    forall k, l :: k in extra && l in extra && k != l ==> !Inside(extra[k], l)
  }

  ghost predicate Plain(extra: map<string, string>) {
    forall k :: k in extra ==> BraceFree(k) && BraceFree(extra[k])
  }

  lemma {:induction false} ExtraPassesAppend(extra: map<string, string>, a: seq<string>, b: seq<string>)
    requires (forall k :: k in a ==> k in extra) && forall k :: k in b ==> k in extra
    ensures forall k :: k in a + b ==> k in extra
    ensures ExtraPasses(extra, a + b) == ExtraPasses(extra, a) + ExtraPasses(extra, b)
    decreases |a|
  {
    if a == [] {
      assert a + b == b;
    } else {
      assert (a + b)[0] == a[0] && (a + b)[1..] == a[1..] + b;
      ExtraPassesAppend(extra, a[1..], b);
    }
  }

  function RunExtras(extra: map<string, string>, order: seq<string>, s: string): string
    requires forall k :: k in order ==> k in extra
  {
    RewriteAll(ExtraPasses(extra, order), s)
  }

  lemma RunAppend(extra: map<string, string>, a: seq<string>, b: seq<string>, s: string)
    requires (forall k :: k in a ==> k in extra) && forall k :: k in b ==> k in extra
    ensures forall k :: k in a + b ==> k in extra
    ensures RunExtras(extra, a + b, s) == RunExtras(extra, b, RunExtras(extra, a, s))
  {
    ExtraPassesAppend(extra, a, b);
    RewriteAllAppend(ExtraPasses(extra, a), ExtraPasses(extra, b), s);
  }

  lemma RunOne(extra: map<string, string>, k: string, s: string)
    requires k in extra
    ensures RunExtras(extra, [k], s) == Rewrite(Replace(k, extra[k]), s)
  {
    var p := Replace(k, extra[k]);
    assert [k][1..] == [] && ExtraPasses(extra, [k]) == [p] + ExtraPasses(extra, []) == [p];
    RewriteAllSnoc([], p, s);
    assert [] + [p] == [p];
  }

  lemma RunTwo(extra: map<string, string>, k: string, l: string, s: string)
    requires k in extra && l in extra
    ensures RunExtras(extra, [k, l], s) == Rewrite(Replace(l, extra[l]), Rewrite(Replace(k, extra[k]), s))
  {
    assert [k, l] == [k] + [l];
    hide Rewrite, RunExtras;
    RunAppend(extra, [k], [l], s);
    RunOne(extra, k, s);
    RunOne(extra, l, Rewrite(Replace(k, extra[k]), s));
  }

  lemma {:induction false} MoveToFront(extra: map<string, string>, x: seq<string>, k: string, s: string)
    requires Plain(extra) && Apart(extra) && k in extra && k !in x && forall y :: y in x ==> y in extra
    ensures RunExtras(extra, x, Rewrite(Replace(k, extra[k]), s)) ==
            Rewrite(Replace(k, extra[k]), RunExtras(extra, x, s))
    decreases |x|
  {
    if x != [] {
      var y := x[0];
      var p, q := Replace(k, extra[k]), Replace(y, extra[y]);
      assert x == [y] + x[1..];
      RunAppend(extra, [y], x[1..], s);
      RunAppend(extra, [y], x[1..], Rewrite(p, s));
      RunOne(extra, y, s);
      RunOne(extra, y, Rewrite(p, s));
      PassesCommute(k, extra[k], y, extra[y], s);
      hide Rewrite, RunExtras;
      MoveToFront(extra, x[1..], k, Rewrite(q, s));
    }
  }

  lemma {:induction false} AnyOrderSame(extra: map<string, string>, a: seq<string>, b: seq<string>, s: string)
    requires Plain(extra) && Apart(extra) && NoDup(a) && NoDup(b) && Elems(a) == Elems(b)
    requires (forall k :: k in a ==> k in extra) && forall k :: k in b ==> k in extra
    ensures RunExtras(extra, a, s) == RunExtras(extra, b, s)
    decreases |a|
  {
    hide Plain, Apart, NoDup, Rewrite;
    NoDupLength(a);
    NoDupLength(b);
    if a != [] {
      var k := a[0];
      var p := Replace(k, extra[k]);
      assert k in Elems(b);
      var n :| 0 <= n < |b| && b[n] == k;
      var x, z := b[..n], b[n + 1..];
      assert b == x + [k] + z && a == [] + [k] + a[1..] && [] + a[1..] == a[1..];
      WithoutOne([], k, a[1..]);
      WithoutOne(x, k, z);
      assert k !in x by { assert k !in Elems(x + z); }
      RunAppend(extra, [k], a[1..], s);
      RunAppend(extra, x + [k], z, s);
      RunAppend(extra, x, [k], s);
      RunOne(extra, k, s);
      RunOne(extra, k, RunExtras(extra, x, s));
      MoveToFront(extra, x, k, s);
      RunAppend(extra, x, z, Rewrite(p, s));
      hide RunExtras;
      AnyOrderSame(extra, a[1..], x + z, Rewrite(p, s));
    } else {
      assert b == [];
    }
  }

  lemma ChainOfOrder(env: Env, order: seq<string>, t: string)
    requires Valid(env.now) && InExtra(order, env)
    ensures RewriteAll(Passes(env, order), t) ==
            Rewrite(Seq(env.val, env.padding), RunExtras(env.extra, order, RewriteAll(BuiltinPasses(env), t)))
  {
    var b, e := BuiltinPasses(env), ExtraPasses(env.extra, order);
    RewriteAllAppend(b, e, t);
    RewriteAllSnoc(b + e, Seq(env.val, env.padding), t);
  }

  lemma ApartIsOrderFree(template: string, env: Env, t1: string, t2: string)
    requires EnvOk(env) && Apart(env.extra) && FormatsTo(template, env, t1) && FormatsTo(template, env, t2)
    ensures t1 == t2
  {
    hide Apart, RewriteAll, BuiltinPasses, Valid;
    var t := EffectiveTemplate(template);
    var a :| Enumerates(a, env.extra.Keys) && InExtra(a, env) && t1 == RewriteAll(Passes(env, a), t);
    var b :| Enumerates(b, env.extra.Keys) && InExtra(b, env) && t2 == RewriteAll(Passes(env, b), t);
    ChainOfOrder(env, a, t);
    ChainOfOrder(env, b, t);
    AnyOrderSame(env.extra, a, b, RewriteAll(BuiltinPasses(env), t));
  }

  // ---- A value inside another key ----

  lemma LoneToken(p: Pass, name: string)
    requires KeyOk(p) && BraceFree(name)
    ensures Rewrite(p, Braced(name)) == if Substitute(p, name).Some? then Substitute(p, name).value else Braced(name)
  {
    RewriteToken(p, name, "");
    assert Braced(name) + "" == Braced(name);
  }

  lemma {:induction false} PassesSkip(passes: seq<Pass>, t: string)
    requires forall p :: p in passes ==> Rewrite(p, t) == t
    ensures RewriteAll(passes, t) == t
    decreases |passes|
  {
    if passes != [] { PassesSkip(passes[1..], t); }
  }

  /** The token `k` between the two halves of another token. */
  function Nested(x: string, k: string, y: string): string {
    "{" + (x + (Braced(k) + (y + "}")))
  }

  lemma NoTokenHere(n: string, x: string, rest: string)
    requires BraceFree(n) && BraceFree(x)
    ensures !(Braced(n) <= "{" + (x + ("{" + rest)))
  {
    var s := "{" + (x + ("{" + rest));
    assert s[|x| + 1] == '{' && forall i :: 0 <= i < |x| ==> s[i + 1] == x[i];
    NotPrefixAt(Braced(n), s, if |n| <= |x| then |n| + 1 else |x| + 1);
  }

  lemma NotPrefixAt(a: string, s: string, i: nat)
    requires i < |a| && i < |s| && a[i] != s[i]
    ensures !(a <= s)
  {
  }

  /** Whatever a pass matches is a token. */
  lemma MatchIsToken(p: Pass, s: string) returns (n: string)
    requires KeyOk(p) && MatchAt(p, s).Some?
    ensures BraceFree(n) && Braced(n) <= s
  {
    if p.Replace? {
      n := p.key;
    } else if "{SEQ}" <= s {
      n := "SEQ";
    } else {
      var d := LeadingDigits(s[5..]);
      n := "SEQ:" + d;
      hide LeadingDigits;
      SeqToken(s, d);
    }
  }

  lemma SeqToken(s: string, d: string)
    requires "{SEQ:" <= s && AllDigits(d) && d <= s[5..] && 5 + |d| < |s| && s[5 + |d|] == '}'
    ensures BraceFree("SEQ:" + d) && Braced("SEQ:" + d) <= s
  {
    DigitsBraceFree(d);
    assert BraceFree("SEQ:");
    var t := Braced("SEQ:" + d);
    assert t == "{SEQ:" + d + "}";
    forall i | 0 <= i < |t| ensures t[i] == s[i] {
      if i < 5 {
        CharAt("{SEQ:", s, i);
      } else if i < 5 + |d| {
        assert t[i] == d[i - 5] == s[5..][i - 5];
      }
    }
  }

  lemma RewriteNested(p: Pass, x: string, k: string, y: string)
    requires KeyOk(p) && BraceFree(x) && BraceFree(k) && BraceFree(y)
    ensures Rewrite(p, Nested(x, k, y)) == "{" + (x + (PieceSource(SubstitutePiece(p, Tok(k))) + (y + "}")))
  {
    var s := Nested(x, k, y);
    assert Braced(k) + (y + "}") == "{" + (k + "}" + (y + "}"));
    if MatchAt(p, s).Some? {
      var n := MatchIsToken(p, s);
      NoTokenHere(n, x, k + "}" + (y + "}"));
    }
    assert s[0] == '{' && s[1..] == x + (Braced(k) + (y + "}"));
    hide MatchAt;
    CopyPlain(p, x, Braced(k) + (y + "}"));
    RewriteToken(p, k, y + "}");
    CopyPlain(p, y + "}", "");
    assert (y + "}") + "" == y + "}" && Rewrite(p, "") == "";
  }

  lemma {:induction false} OthersSkip(extra: map<string, string>, order: seq<string>, x: string, k: string, y: string)
    requires Plain(extra) && (forall n :: n in order ==> n in extra) && k !in order
    requires BraceFree(x) && BraceFree(k) && BraceFree(y)
    ensures RunExtras(extra, order, Nested(x, k, y)) == Nested(x, k, y)
    decreases |order|
  {
    if order != [] {
      RewriteNested(Replace(order[0], extra[order[0]]), x, k, y);
      OthersSkip(extra, order[1..], x, k, y);
    }
  }

  lemma BuiltinsSkipNested(env: Env, x: string, k: string, y: string)
    requires EnvOk(env) && BraceFree(x) && BraceFree(k) && BraceFree(y) && k !in BUILTINS
    ensures RewriteAll(BuiltinPasses(env), Nested(x, k, y)) == Nested(x, k, y)
  {
    BuiltinsOk(env);
    var b := BuiltinPasses(env);
    forall p | p in b ensures Rewrite(p, Nested(x, k, y)) == Nested(x, k, y) {
      var i :| 0 <= i < |b| && b[i] == p;
      assert p.Replace? && p.key in BUILTINS;
      RewriteNested(p, x, k, y);
    }
    PassesSkip(b, Nested(x, k, y));
  }

  /** The two orders that differ: the key that is completed last, or first. */
  lemma TwoOrders(extra: map<string, string>, rest: seq<string>, x: string, k: string, y: string, l: string)
    requires Plain(extra) && k in extra && l in extra && k != l && k !in rest && forall n :: n in rest ==> n in extra
    requires BraceFree(x) && BraceFree(y) && l == x + extra[k] + y
    ensures (forall n :: n in rest + [l, k] ==> n in extra) && (forall n :: n in rest + [k, l] ==> n in extra)
    ensures RunExtras(extra, rest + [l, k], Nested(x, k, y)) == Braced(l)
    ensures RunExtras(extra, rest + [k, l], Nested(x, k, y)) == extra[l]
  {
    var t, p, q := Nested(x, k, y), Replace(k, extra[k]), Replace(l, extra[l]);
    RewriteNested(p, x, k, y);
    RewriteNested(q, x, k, y);
    NestedClosed(x, extra[k], y, l);
    LoneToken(q, l);
    assert BraceFree(k) && BraceFree(l);
    hide Rewrite, RunExtras, Nested, Braced;
    OthersSkip(extra, rest, x, k, y);
    RunAppend(extra, rest, [l, k], t);
    RunAppend(extra, rest, [k, l], t);
    RunTwo(extra, l, k, t);
    RunTwo(extra, k, l, t);
  }

  lemma NestedClosed(x: string, v: string, y: string, l: string)
    requires l == x + v + y
    ensures "{" + (x + (v + (y + "}"))) == Braced(l)
  {
  }

  /** A counter for which the token does not read like the value. */
  lemma TellingCounter(padding: int, l: string, w: string) returns (val: int)
    requires BraceFree(l) && BraceFree(w)
    ensures Rewrite(Seq(val, padding), Braced(l)) != w
  {
    val := 1;
    LoneToken(Seq(1, padding), l);
    LoneToken(Seq(2, padding), l);
    if IsSeqName(l) {
      if SeqText(SeqWidth(l, padding), 1) == w {
        val := 2;
        if SeqText(SeqWidth(l, padding), 2) == w { SeqTextInjective(SeqWidth(l, padding), 1, 2); }
      }
    } else {
      assert Braced(l)[0] == '{';
    }
  }

  /** If the value of `k` occurs in `l`, the token `k` inside the rest of `l` has two results. */
  lemma InsideDependsOnOrder(env: Env, k: string, l: string)
    returns (template: string, val: int, t1: string, t2: string)
    requires EnvOk(env) && k in env.extra && l in env.extra && k != l && k !in BUILTINS && Inside(env.extra[k], l)
    ensures Gives(template, env, val, t1) && Gives(template, env, val, t2) && t1 != t2
  {
    var extra, v := env.extra, env.extra[k];
    var i: nat :| InsideAt(v, l, i);
    var x, y := l[..i], l[i + |v|..];
    assert l == x + v + y;
    template := Nested(x, k, y);
    val := TellingCounter(env.padding, l, extra[l]);
    var e := env.(val := val);
    var rest := EnumerationExists(extra.Keys - {k, l});
    assert forall n :: n in rest ==> n in Elems(rest);
    AddLastTwo(rest, extra.Keys, k, l);
    AddLastTwo(rest, extra.Keys, l, k);
    assert {l, k} == {k, l};
    hide Rewrite, RunExtras, Passes, Nested;
    TwoOrders(extra, rest, x, k, y, l);
    BuiltinsSkipNested(env, x, k, y);
    hide BuiltinPasses, Inside, InsideAt;
    t1, t2 := Rewrite(Seq(val, env.padding), Braced(l)), extra[l];
    CopyPlain(Seq(val, env.padding), extra[l], "");
    NothingToRewrite(Seq(val, env.padding));
    assert extra[l] + "" == extra[l];
    OrderGives(env, val, rest + [l, k], template, t1);
    OrderGives(env, val, rest + [k, l], template, t2);
  }

  lemma NothingToRewrite(p: Pass)
    ensures Rewrite(p, "") == ""
  {
  }

  /** What one order of the extra tokens makes of a template. */
  lemma OrderGives(env: Env, val: int, order: seq<string>, template: string, text: string)
    requires Valid(env.now) && Enumerates(order, env.extra.Keys) && InExtra(order, env) && template != ""
    requires text == Rewrite(Seq(val, env.padding),
                             RunExtras(env.extra, order, RewriteAll(BuiltinPasses(env), template)))
    ensures Gives(template, env, val, text)
  {
    var e := env.(val := val);
    assert BuiltinPasses(e) == BuiltinPasses(env);
    ChainOfOrder(e, order, template);
  }

  // ---- The exact condition ----

  /** Every template, well-formed or not, and every counter have one result only. */
  ghost predicate AlwaysOrderFree(env: Env)
    requires Valid(env.now)
  {
    forall template, val, t1, t2 :: Gives(template, env, val, t1) && Gives(template, env, val, t2) ==> t1 == t2
  }

  /** With brace-free extras under names of their own, `FormatNumber` is independent of the iteration
      order on every template if and only if no extra's value occurs in the key of another. */
  lemma AlwaysOrderFreeIff(env: Env)
    requires EnvOk(env) && forall k :: k in env.extra ==> k !in BUILTINS
    ensures AlwaysOrderFree(env) <==> Apart(env.extra)
  {
    hide FormatsTo, Inside;
    if Apart(env.extra) {
      forall template, val, t1, t2 | Gives(template, env, val, t1) && Gives(template, env, val, t2) ensures t1 == t2 {
        ApartIsOrderFree(template, env.(val := val), t1, t2);
      }
    } else {
      var k, l :| k in env.extra && l in env.extra && k != l && Inside(env.extra[k], l);
      var template, val, t1, t2 := InsideDependsOnOrder(env, k, l);
    }
  }
}
