/** The in-memory bus of `pkg/eventbus/eventbus.go`. */
module EventBus {
  import opened Shared

  /** One registered callback; the same callback may be registered several times. */
  datatype Handler = Handler(tag: nat)

  datatype Outcome = Succeeded | Failed | Panicked

  /** `b.handlers`: subscribers by exact type or pattern, in subscription order. */
  type Handlers = map<string, seq<Handler>>

  /** `*`, or `prefix.*` for types that start with `prefix.`. */
  predicate Wildcard(pattern: string, eventType: string) {
    pattern == "*" ||
    (|pattern| >= 2 && pattern[|pattern| - 2..] == ".*" && pattern[..|pattern| - 2] + "." <= eventType)
  }

  /** The wildcard subscribers when the patterns are visited in the given order. */
  ghost function WildTargets(hs: Handlers, order: seq<string>, eventType: string): seq<Handler> {
    if order == [] then [] else
      var init, p := WildTargets(hs, order[..|order| - 1], eventType), order[|order| - 1];
      if Wildcard(p, eventType) then init + Lookup(hs, p) else init
  }

  /** `targets` is the list of callbacks that a publication of `eventType` collects, for some
      iteration order of the map: exact subscribers, then every matching pattern's subscribers. */
  ghost predicate CollectsTo(hs: Handlers, eventType: string, targets: seq<Handler>) {
    exists order :: Enumerates(order, hs.Keys) && targets == Lookup(hs, eventType) + WildTargets(hs, order, eventType)
  }

  /** `executeHandlerSafely`: a panic is an error like any other. */
  predicate IsError(o: Outcome) {
    o != Succeeded
  }

  class InMemoryBus {
    var handlers: Handlers

    constructor ()
      ensures handlers == map[]
    {
      handlers := map[];
    }

    method Subscribe(pattern: string, h: Handler)
      modifies this
      ensures handlers == old(handlers)[pattern := Lookup(old(handlers), pattern) + [h]]
      ensures forall subs :: old(handlers) == After(subs) ==> handlers == After(subs + [Subscription(pattern, h)])
    {
      handlers := handlers[pattern := Lookup(handlers, pattern) + [h]];
      assert forall subs: seq<Subscription> :: (subs + [Subscription(pattern, h)])[..|subs|] == subs;
    }

    /** The first half of `Publish`: gather the callbacks under the read lock. */
    method Collect(eventType: string) returns (targets: seq<Handler>)
      ensures CollectsTo(handlers, eventType, targets)
    {
      hide Wildcard, Enumerates, Lookup;
      targets := Lookup(handlers, eventType);
      var rest := handlers.Keys;
      ghost var order: seq<string> := [];
      NothingEnumerated(handlers.Keys);
      while rest != {}
        invariant rest <= handlers.Keys && Enumerates(order, handlers.Keys - rest)
        invariant targets == Lookup(handlers, eventType) + WildTargets(handlers, order, eventType)
      {
        var p :| p in rest;
        EnumerateOneMore(order, handlers.Keys - rest, p);
        assert (handlers.Keys - rest) + {p} == handlers.Keys - (rest - {p});
        if Wildcard(p, eventType) { targets := targets + Lookup(handlers, p); }
        order, rest := order + [p], rest - {p};
      }
      assert handlers.Keys - rest == handlers.Keys;
    }

    /** `behave(i)` is how the i-th invoked callback ends. The call fails iff some callback did,
        but only after all of them have been invoked. */
    method Publish(eventType: string, behave: nat -> Outcome) returns (invoked: seq<Handler>, errors: nat)
      ensures CollectsTo(handlers, eventType, invoked)
      ensures errors == |Failures(behave, |invoked|)|
      ensures errors == 0 <==> forall i :: 0 <= i < |invoked| ==> behave(i) == Succeeded
    {
      hide CollectsTo;
      var targets := Collect(eventType);
      invoked, errors := [], 0;
      for i := 0 to |targets|
        invariant invoked == targets[..i]
        invariant errors == |Failures(behave, i)|
      {
        FailuresOneMore(behave, i);
        invoked := invoked + [targets[i]];
        if IsError(behave(i)) { errors := errors + 1; }
      }
      assert invoked == targets;
      if errors != 0 { assert Failures(behave, |invoked|) != {}; }
      assert forall i :: 0 <= i < |invoked| && behave(i) != Succeeded ==> i in Failures(behave, |invoked|);
    }
  }

  /** The callbacks that did not succeed. */
  function Failures(behave: nat -> Outcome, n: nat): set<nat> {
    set i: nat | i < n && behave(i) != Succeeded
  }

  lemma FailuresOneMore(behave: nat -> Outcome, n: nat)
    ensures |Failures(behave, n + 1)| == |Failures(behave, n)| + if behave(n) == Succeeded then 0 else 1
  {
    var before := Failures(behave, n);
    assert n !in before;
    assert Failures(behave, n + 1) == before + if behave(n) == Succeeded then {} else {n};
  }

  // ---- The collected callbacks do not depend on the iteration order ----

  lemma {:induction false} WildAppend(hs: Handlers, a: seq<string>, b: seq<string>, eventType: string)
    ensures WildTargets(hs, a + b, eventType) == WildTargets(hs, a, eventType) + WildTargets(hs, b, eventType)
    decreases |b|
  {
    if b == [] {
      assert a + b == a;
    } else {
      var init := b[..|b| - 1];
      assert (a + b)[..|a + b| - 1] == a + init && (a + b)[|a + b| - 1] == b[|b| - 1];
      WildAppend(hs, a, init, eventType);
    }
  }

  lemma WildRemove(hs: Handlers, x: seq<string>, p: string, z: seq<string>, eventType: string)
    ensures multiset(WildTargets(hs, x + [p] + z, eventType)) ==
            multiset(WildTargets(hs, x + z, eventType)) + multiset(WildTargets(hs, [p], eventType))
  {
    hide Wildcard, Lookup;
    WildAppend(hs, x + [p], z, eventType);
    WildAppend(hs, x, [p], eventType);
    WildAppend(hs, x, z, eventType);
  }

  lemma {:induction false} WildOrderFree(hs: Handlers, a: seq<string>, b: seq<string>, eventType: string)
    requires NoDup(a) && NoDup(b) && Elems(a) == Elems(b)
    ensures multiset(WildTargets(hs, a, eventType)) == multiset(WildTargets(hs, b, eventType))
    decreases |a|
  {
    hide Wildcard, Lookup, NoDup;
    NoDupLength(a);
    NoDupLength(b);
    if a != [] {
      var p, a' := a[|a| - 1], a[..|a| - 1];
      assert p in Elems(b);
      var k :| 0 <= k < |b| && b[k] == p;
      var x, z := b[..k], b[k + 1..];
      assert b == x + [p] + z && a == a' + [p] + [] && a' + [] == a';
      WithoutOne(a', p, []);
      WithoutOne(x, p, z);
      WildRemove(hs, a', p, [], eventType);
      WildRemove(hs, x, p, z, eventType);
      WildOrderFree(hs, a', x + z, eventType);
    }
  }

  /** Whatever order Go visits the map in, the same callbacks are invoked equally often. */
  lemma CollectionIsDeterministic(hs: Handlers, eventType: string, t: seq<Handler>, u: seq<Handler>)
    requires CollectsTo(hs, eventType, t) && CollectsTo(hs, eventType, u)
    ensures multiset(t) == multiset(u)
  {
    var a :| Enumerates(a, hs.Keys) && t == Lookup(hs, eventType) + WildTargets(hs, a, eventType);
    var b :| Enumerates(b, hs.Keys) && u == Lookup(hs, eventType) + WildTargets(hs, b, eventType);
    WildOrderFree(hs, a, b, eventType);
  }

  lemma {:induction false} WildMembers(hs: Handlers, order: seq<string>, eventType: string, h: Handler)
    ensures h in WildTargets(hs, order, eventType) <==>
            exists p :: p in order && Wildcard(p, eventType) && h in Lookup(hs, p)
    decreases |order|
  {
    if order != [] {
      var init, p := order[..|order| - 1], order[|order| - 1];
      WildMembers(hs, init, eventType, h);
      assert order == init + [p];
    }
  }

  /** Exactly the subscribers of matching patterns are invoked. */
  lemma InvokesAllMatching(hs: Handlers, eventType: string, targets: seq<Handler>, h: Handler)
    requires CollectsTo(hs, eventType, targets)
    ensures h in targets <==>
            exists p :: p in hs && (p == eventType || Wildcard(p, eventType)) && h in hs[p]
  {
    var order :| Enumerates(order, hs.Keys) && targets == Lookup(hs, eventType) + WildTargets(hs, order, eventType);
    WildMembers(hs, order, eventType, h);
    assert forall p :: p in order <==> p in Elems(order);
  }

  // ---- From subscriptions to invocations ----

  datatype Subscription = Subscription(pattern: string, handler: Handler)

  /** The map after the given calls of `Subscribe` on a new bus. */
  function After(subs: seq<Subscription>): Handlers {
    if subs == [] then map[] else
      var hs, last := After(subs[..|subs| - 1]), subs[|subs| - 1];
      hs[last.pattern := Lookup(hs, last.pattern) + [last.handler]]
  }

  lemma {:induction false} KeptUnderPattern(subs: seq<Subscription>, p: string, h: Handler)
    ensures h in Lookup(After(subs), p) <==> Subscription(p, h) in subs
    decreases |subs|
  {
    if subs != [] {
      var init, last := subs[..|subs| - 1], subs[|subs| - 1];
      KeptUnderPattern(init, p, h);
      assert subs == init + [last];
    }
  }

  /** A publication invokes exactly the handlers of the matching subscriptions made before it. */
  lemma SubscribersAreInvoked(subs: seq<Subscription>, eventType: string, targets: seq<Handler>, h: Handler)
    requires CollectsTo(After(subs), eventType, targets)
    ensures h in targets <==>
            exists p :: Subscription(p, h) in subs && (p == eventType || Wildcard(p, eventType))
  {
    var hs := After(subs);
    InvokesAllMatching(hs, eventType, targets, h);
    hide Wildcard, CollectsTo;
    forall p ensures h in Lookup(hs, p) <==> Subscription(p, h) in subs { KeptUnderPattern(subs, p, h); }
    if h in targets {
      var p :| p in hs && (p == eventType || Wildcard(p, eventType)) && h in hs[p];
      assert h in Lookup(hs, p);
    }
    if p :| Subscription(p, h) in subs && (p == eventType || Wildcard(p, eventType)) {
      assert h in Lookup(hs, p);
    }
  }

  // ---- How often a handler runs ----

  /** How often the wildcard patterns of the subscriptions lead to `h`. */
  function WildRuns(subs: seq<Subscription>, eventType: string, h: Handler): nat {
    if subs == [] then 0 else
      var last := subs[|subs| - 1];
      WildRuns(subs[..|subs| - 1], eventType, h) +
      (if last.handler == h && Wildcard(last.pattern, eventType) then 1 else 0)
  }

  /** How often the subscriptions to exactly this type lead to `h`. */
  function ExactRuns(subs: seq<Subscription>, eventType: string, h: Handler): nat {
    if subs == [] then 0 else
      var last := subs[|subs| - 1];
      ExactRuns(subs[..|subs| - 1], eventType, h) + (if last == Subscription(eventType, h) then 1 else 0)
  }

  lemma CountSnoc(s: seq<Handler>, x: Handler, h: Handler)
    ensures multiset(s + [x])[h] == multiset(s)[h] + if x == h then 1 else 0
  {
  }

  /** One more subscription adds one run for its handler where its pattern is visited and matches. */
  lemma {:induction false} WildAdds(hs: Handlers, p: string, x: Handler, order: seq<string>, eventType: string,
                                    h: Handler)
    requires NoDup(order)
    ensures multiset(WildTargets(hs[p := Lookup(hs, p) + [x]], order, eventType))[h] ==
            multiset(WildTargets(hs, order, eventType))[h] +
            if p in order && Wildcard(p, eventType) && x == h then 1 else 0
    decreases |order|
  {
    hide Wildcard;
    if order != [] {
      var init, last := order[..|order| - 1], order[|order| - 1];
      WildAdds(hs, p, x, init, eventType, h);
      assert order == init + [last];
      CountSnoc(Lookup(hs, p), x, h);
    }
  }

  lemma {:induction false} NoneWild(order: seq<string>, eventType: string)
    ensures WildTargets(map[], order, eventType) == []
    decreases |order|
  {
    if order != [] { NoneWild(order[..|order| - 1], eventType); }
  }

  lemma {:induction false} CountWild(subs: seq<Subscription>, order: seq<string>, eventType: string, h: Handler)
    requires NoDup(order) && forall i :: 0 <= i < |subs| ==> subs[i].pattern in order
    ensures multiset(WildTargets(After(subs), order, eventType))[h] == WildRuns(subs, eventType, h)
    decreases |subs|
  {
    if subs == [] {
      NoneWild(order, eventType);
    } else {
      var init, last := subs[..|subs| - 1], subs[|subs| - 1];
      CountWild(init, order, eventType, h);
      WildAdds(After(init), last.pattern, last.handler, order, eventType, h);
    }
  }

  lemma {:induction false} CountExact(subs: seq<Subscription>, eventType: string, h: Handler)
    ensures multiset(Lookup(After(subs), eventType))[h] == ExactRuns(subs, eventType, h)
    decreases |subs|
  {
    if subs != [] {
      var init, last := subs[..|subs| - 1], subs[|subs| - 1];
      CountExact(init, eventType, h);
      CountSnoc(Lookup(After(init), last.pattern), last.handler, h);
    }
  }

  lemma {:induction false} PatternsAreKeys(subs: seq<Subscription>)
    ensures forall i :: 0 <= i < |subs| ==> subs[i].pattern in After(subs)
    decreases |subs|
  {
    if subs != [] {
      var init := subs[..|subs| - 1];
      PatternsAreKeys(init);
      assert forall i :: 0 <= i < |init| ==> init[i] == subs[i];
    }
  }

  /** A publication invokes a handler once for each of its subscriptions to exactly that type and once
      for each of its subscriptions to a matching wildcard; a subscription that is both counts twice. */
  lemma RunsAreCounted(subs: seq<Subscription>, eventType: string, targets: seq<Handler>, h: Handler)
    requires CollectsTo(After(subs), eventType, targets)
    ensures multiset(targets)[h] == ExactRuns(subs, eventType, h) + WildRuns(subs, eventType, h)
  {
    var hs := After(subs);
    var order :| Enumerates(order, hs.Keys) && targets == Lookup(hs, eventType) + WildTargets(hs, order, eventType);
    PatternsAreKeys(subs);
    forall i | 0 <= i < |subs| ensures subs[i].pattern in order { assert subs[i].pattern in Elems(order); }
    hide Wildcard;
    CountWild(subs, order, eventType, h);
    CountExact(subs, eventType, h);
  }

  /** One subscription to `a.*` runs twice for an event of type `a.*`. */
  lemma PatternAsTypeRunsTwice(h: Handler, targets: seq<Handler>)
    requires CollectsTo(After([Subscription("a.*", h)]), "a.*", targets)
    ensures multiset(targets)[h] == 2
  {
    var subs := [Subscription("a.*", h)];
    RunsAreCounted(subs, "a.*", targets, h);
    assert subs[..0] == [] && "a.*"[1..] == ".*" && "a.*"[..1] + "." == "a." && "a." == "a.*"[..2];
    assert Wildcard("a.*", "a.*");
  }

  // ---- Patterns, as texts ----

  /** `t` is `p`, a dot, and anything. */
  ghost predicate StartsWithDot(t: string, p: string) {
    exists s: string :: t == p + "." + s
  }

  /** The subscription concerns the type: it names it, or it is `*`, or it is `p.*` and the type is `p`, a
      dot and anything. */
  ghost predicate Concerns(pattern: string, t: string) {
    pattern == t || pattern == "*" || exists p: string :: pattern == p + ".*" && StartsWithDot(t, p)
  }

  lemma DotPrefix(t: string, p: string)
    ensures p + "." <= t <==> StartsWithDot(t, p)
  {
    var q := p + ".";
    if q <= t { assert t == q + t[|q|..]; }
    if StartsWithDot(t, p) {
      var s :| t == p + "." + s;
      assert t[..|q|] == q;
    }
  }

  lemma ConcernsIff(pattern: string, t: string)
    ensures Concerns(pattern, t) <==> pattern == t || Wildcard(pattern, t)
  {
    if |pattern| >= 2 {
      var p := pattern[..|pattern| - 2];
      assert pattern == p + pattern[|pattern| - 2..];
      DotPrefix(t, p);
    }
    if p: string :| pattern == p + ".*" && StartsWithDot(t, p) {
      assert pattern[..|pattern| - 2] == p && pattern[|pattern| - 2..] == ".*";
    }
  }

  /** A publication runs exactly the handlers of the subscriptions that concern its type. */
  lemma InvokedIff(subs: seq<Subscription>, t: string, targets: seq<Handler>, h: Handler)
    requires CollectsTo(After(subs), t, targets)
    ensures h in targets <==> exists q :: Subscription(q, h) in subs && Concerns(q, t)
  {
    SubscribersAreInvoked(subs, t, targets, h);
    hide CollectsTo, Wildcard;
    if h in targets {
      var q :| Subscription(q, h) in subs && (q == t || Wildcard(q, t));
      ConcernsIff(q, t);
    }
    if q :| Subscription(q, h) in subs && Concerns(q, t) { ConcernsIff(q, t); }
  }

  /** One handler with one subscription: `*` hears everything, `p.*` the types below `p` and its own
      text, anything else only its own text. */
  lemma OneSubscription(q: string, h: Handler, t: string, targets: seq<Handler>)
    requires CollectsTo(After([Subscription(q, h)]), t, targets)
    ensures q == "*" ==> h in targets
    ensures forall p: string :: q == p + ".*" ==> (h in targets <==> t == p + ".*" || StartsWithDot(t, p))
    ensures q != "*" && (forall p: string :: q != p + ".*") ==> (h in targets <==> t == q)
  {
    var subs := [Subscription(q, h)];
    assert subs[0] in subs;
    InvokedIff(subs, t, targets, h);
    hide CollectsTo, StartsWithDot;
    forall p: string | q == p + ".*" ensures h in targets <==> t == p + ".*" || StartsWithDot(t, p) {
      assert q != "*";
      forall r: string | q == r + ".*" ensures r == p { assert q[..|q| - 2] == r && q[..|q| - 2] == p; }
    }
  }
}
