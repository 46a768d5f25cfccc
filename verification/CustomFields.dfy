/** Custom-field validation of `internal/core/domain/customfield/validator.go`. Regular expressions
    and date parsing are parameters. */
module CustomFields {
  import opened Shared

  /** A decoded JSON value, or a Go value of one of the types the validator distinguishes. */
  datatype Value =
    | Null
    | Str(s: string)
    | Float64(f: real)
    | Float32(f: real)
    | Int(i: int)
    | Bool(b: bool)
    | AnyList(items: seq<Value>)
    | StrList(strings: seq<string>)
    | Other(tag: nat)

  datatype DataType = Text | Number | Boolean | Date | Select | MultiSelect | Json | Unlisted(name: string)

  datatype Definition = Definition(
    code: string, dataType: DataType, options: seq<string>, required: bool, default: Value,
    min: Option<real>, max: Option<real>, regex: string, active: bool)

  /** `matches(pattern, s)` is false when the pattern does not compile. */
  datatype Library = Library(matches: (string, string) -> bool, isDate: string -> bool)

  // ---- What a stored value must look like ----

  function Strings(items: seq<Value>): (r: seq<string>)
    requires forall i :: 0 <= i < |items| ==> items[i].Str?
    ensures |r| == |items| && forall i :: 0 <= i < |items| ==> r[i] == items[i].s
  {
    seq(|items|, i requires 0 <= i < |items| => items[i].s)
  }

  /** The form in which a value is stored: numbers as float64, lists of options as strings. */
  function Canonical(t: DataType, v: Value): Option<Value> {
    match t
    case Text => if v.Str? then Some(v) else None
    case Number =>
      (match v
       case Float64(f) => Some(Float64(f))
       case Float32(f) => Some(Float64(f))
       case Int(i) => Some(Float64(i as real))
       case _ => None)
    case Boolean => if v.Bool? then Some(v) else None
    case Date => if v.Str? then Some(v) else None
    case Select => if v.Str? then Some(v) else None
    case MultiSelect =>
      if v.StrList? then Some(v)
      else if v.AnyList? && forall i :: 0 <= i < |v.items| ==> v.items[i].Str? then
        Some(StrList(Strings(v.items)))
      else None
    case Json => Some(v)
    case Unlisted(_) => Some(v)
  }

  /** A stored value satisfies the type, option and range rules of its definition. */
  ghost predicate Conforms(lib: Library, d: Definition, v: Value) {
    match d.dataType
    case Text => v.Str? && (d.regex == "" || lib.matches(d.regex, v.s))
    case Number => v.Float64? && (d.min.Some? ==> d.min.value <= v.f) && (d.max.Some? ==> v.f <= d.max.value)
    case Boolean => v.Bool?
    case Date => v.Str? && lib.isDate(v.s)
    case Select => v.Str? && v.s in d.options
    case MultiSelect => v.StrList? && forall i :: 0 <= i < |v.strings| ==> v.strings[i] in d.options
    case Json => true
    case Unlisted(_) => true
  }

  /** `v` is accepted and stored as `r`. */
  ghost predicate Accepts(lib: Library, d: Definition, v: Value, r: Value) {
    Canonical(d.dataType, v) == Some(r) && Conforms(lib, d, r)
  }

  // ---- The validator ----

  /** The multi-select branch for a decoded list. */
  method SelectAll(options: seq<string>, items: seq<Value>) returns (r: Option<seq<string>>)
    ensures r.Some? <==> forall i :: 0 <= i < |items| ==> items[i].Str? && items[i].s in options
    ensures r.Some? ==> |r.value| == |items| && forall i :: 0 <= i < |items| ==> r.value[i] == items[i].s
  {
    var result: seq<string> := [];
    for i := 0 to |items|
      invariant |result| == i
      invariant forall k :: 0 <= k < i ==> items[k].Str? && items[k].s in options && result[k] == items[k].s
    {
      if !items[i].Str? || items[i].s !in options { return None; }
      result := result + [items[i].s];
    }
    return Some(result);
  }

  method ContainsAll(options: seq<string>, strings: seq<string>) returns (ok: bool)
    ensures ok <==> forall i :: 0 <= i < |strings| ==> strings[i] in options
  {
    for i := 0 to |strings|
      invariant forall k :: 0 <= k < i ==> strings[k] in options
    {
      if strings[i] !in options { return false; }
    }
    return true;
  }

  /** `validateField`: accepts a value exactly when its stored form obeys the definition. */
  method ValidateField(lib: Library, d: Definition, v: Value) returns (r: Option<Value>)
    ensures r.Some? ==> Accepts(lib, d, v, r.value)
    ensures r.None? ==> forall w :: !Accepts(lib, d, v, w)
  {
    match d.dataType
    case Text =>
      if !v.Str? || (d.regex != "" && !lib.matches(d.regex, v.s)) { return None; }
      return Some(v);
    case Number =>
      var num := Canonical(Number, v);
      if num.None? { return None; }
      if d.min.Some? && num.value.f < d.min.value { return None; }
      if d.max.Some? && num.value.f > d.max.value { return None; }
      return num;
    case Boolean =>
      return if v.Bool? then Some(v) else None;
    case Date =>
      return if v.Str? && lib.isDate(v.s) then Some(v) else None;
    case Select =>
      return if v.Str? && v.s in d.options then Some(v) else None;
    case MultiSelect =>
      if v.AnyList? {
        var list := SelectAll(d.options, v.items);
        if list.None? {
          ghost var k :| 0 <= k < |v.items| && !(v.items[k].Str? && v.items[k].s in d.options);
          assert Canonical(MultiSelect, v).Some? ==> Strings(v.items)[k] == v.items[k].s;
          return None;
        }
        assert list.value == Strings(v.items);
        return Some(StrList(list.value));
      }
      if v.StrList? {
        var ok := ContainsAll(d.options, v.strings);
        return if ok then Some(v) else None;
      }
      return None;
    case Json => return Some(v);
    case Unlisted(_) => return Some(v);
  }

  type Values = map<string, Value>

  predicate Given(raw: Values, d: Definition) {
    d.code in raw && raw[d.code] != Null
  }

  /** The definition contributes `v` to the output. */
  ghost predicate Stores(lib: Library, d: Definition, raw: Values, v: Value) {
    d.active && if Given(raw, d) then Accepts(lib, d, raw[d.code], v) else d.default != Null && v == d.default
  }

  /** The definition makes the whole call fail. */
  ghost predicate Refuses(lib: Library, d: Definition, raw: Values) {
    d.active && if Given(raw, d) then forall w :: !Accepts(lib, d, raw[d.code], w)
                else d.required && d.default == Null
  }

  ghost predicate DistinctCodes(defs: seq<Definition>) {
    forall i, j :: 0 <= i < j < |defs| ==> defs[i].code != defs[j].code
  }

  /** No definition after the i-th stores anything under its code. */
  ghost predicate IsLast(lib: Library, defs: seq<Definition>, raw: Values, i: nat)
    requires i < |defs|
  {
    forall j, v :: i < j < |defs| && defs[j].code == defs[i].code ==> !Stores(lib, defs[j], raw, v)
  }

  /** The i-th definition is the one that put `v` into the output. */
  ghost predicate Writes(lib: Library, defs: seq<Definition>, raw: Values, i: nat, v: Value)
    requires i < |defs|
  {
    Stores(lib, defs[i], raw, v) && IsLast(lib, defs, raw, i)
  }

  /** `m` is the output for `raw`: an entry for each code under which some definition stores a value,
      no others; where several definitions share a code, the last one that stores wins. */
  ghost predicate IsOutput(lib: Library, defs: seq<Definition>, raw: Values, m: Values) {
    && (forall i :: 0 <= i < |defs| ==> !Refuses(lib, defs[i], raw))
    && (forall c :: c in m ==> exists i: nat :: i < |defs| && defs[i].code == c && Writes(lib, defs, raw, i, m[c]))
    && (forall i, v :: 0 <= i < |defs| && Stores(lib, defs[i], raw, v) ==> defs[i].code in m)
  }

  /** `r` is the one answer that `ValidateValues` may give for `raw`: an error, or the output. */
  ghost predicate IsAnswer(lib: Library, defs: seq<Definition>, raw: Values, r: Option<Values>) {
    forall m :: r == Some(m) <==> IsOutput(lib, defs, raw, m)
  }

  /** There is at most one output. */
  lemma OutputIsUnique(lib: Library, defs: seq<Definition>, raw: Values, m: Values, n: Values)
    requires IsOutput(lib, defs, raw, m) && IsOutput(lib, defs, raw, n)
    ensures m == n
  {
  }

  lemma WritesOneMore(lib: Library, defs: seq<Definition>, i: nat, raw: Values, k: nat, v: Value)
    requires k < i < |defs| && Writes(lib, defs[..i], raw, k, v)
    requires defs[i].code != defs[k].code || forall w :: !Stores(lib, defs[i], raw, w)
    ensures Writes(lib, defs[..i + 1], raw, k, v)
  {
    hide Stores;
    var prev, next := defs[..i], defs[..i + 1];
    forall j, w | k < j < |next| && next[j].code == next[k].code ensures !Stores(lib, next[j], raw, w) {
      if j < i { assert prev[j] == next[j]; }
    }
  }

  lemma OutputSkip(lib: Library, defs: seq<Definition>, i: nat, raw: Values, m: Values)
    requires i < |defs| && IsOutput(lib, defs[..i], raw, m)
    requires !Refuses(lib, defs[i], raw) && forall v :: !Stores(lib, defs[i], raw, v)
    ensures IsOutput(lib, defs[..i + 1], raw, m)
  {
    hide Stores, Refuses, Writes;
    var prev, next := defs[..i], defs[..i + 1];
    assert forall k :: 0 <= k < i ==> next[k] == prev[k];
    forall c | c in m ensures exists k: nat :: k < |next| && next[k].code == c && Writes(lib, next, raw, k, m[c]) {
      var k: nat :| k < i && prev[k].code == c && Writes(lib, prev, raw, k, m[c]);
      WritesOneMore(lib, defs, i, raw, k, m[c]);
      assert next[k].code == c;
    }
  }

  lemma OutputStore(lib: Library, defs: seq<Definition>, i: nat, raw: Values, m: Values, v: Value)
    requires i < |defs| && IsOutput(lib, defs[..i], raw, m)
    requires !Refuses(lib, defs[i], raw) && Stores(lib, defs[i], raw, v)
    ensures IsOutput(lib, defs[..i + 1], raw, m[defs[i].code := v])
  {
    var m', prev, next := m[defs[i].code := v], defs[..i], defs[..i + 1];
    assert Writes(lib, next, raw, i, v);
    hide Stores, Refuses, Writes;
    assert forall k :: 0 <= k < i ==> next[k] == prev[k];
    forall c | c in m' ensures exists k: nat :: k < |next| && next[k].code == c && Writes(lib, next, raw, k, m'[c]) {
      if c == defs[i].code {
        assert next[i].code == c && Writes(lib, next, raw, i, m'[c]);
      } else {
        var k: nat :| k < i && prev[k].code == c && Writes(lib, prev, raw, k, m[c]);
        WritesOneMore(lib, defs, i, raw, k, m[c]);
        assert next[k].code == c;
      }
    }
  }

  /** `ValidateValues`: fails exactly when some definition refuses; otherwise returns the only output. */
  method ValidateValues(lib: Library, defs: seq<Definition>, raw: Values) returns (r: Option<Values>)
    ensures IsAnswer(lib, defs, raw, r)
    ensures r.None? <==> exists i :: 0 <= i < |defs| && Refuses(lib, defs[i], raw)
  {
    hide IsOutput, Accepts;
    var sanitized: Values := map[];
    assert IsOutput(lib, defs[..0], raw, map[]) by { NothingYet(lib, defs[..0], raw); }
    for i := 0 to |defs|
      invariant IsOutput(lib, defs[..i], raw, sanitized)
      invariant forall k :: 0 <= k < i ==> !Refuses(lib, defs[k], raw)
    {
      var d := defs[i];
      if !d.active {
        OutputSkip(lib, defs, i, raw, sanitized);
        continue;
      }
      if !Given(raw, d) {
        if d.default != Null {
          OutputStore(lib, defs, i, raw, sanitized, d.default);
          sanitized := sanitized[d.code := d.default];
          continue;
        }
        if d.required {
          RefusedHasNoOutput(lib, defs, i, raw);
          return None;
        }
        OutputSkip(lib, defs, i, raw, sanitized);
        continue;
      }
      var v := ValidateField(lib, d, raw[d.code]);
      if v.None? {
        RefusedHasNoOutput(lib, defs, i, raw);
        return None;
      }
      OutputStore(lib, defs, i, raw, sanitized, v.value);
      sanitized := sanitized[d.code := v.value];
    }
    assert defs[..|defs|] == defs;
    forall m | IsOutput(lib, defs, raw, m) ensures m == sanitized { OutputIsUnique(lib, defs, raw, m, sanitized); }
    return Some(sanitized);
  }

  lemma RefusedHasNoOutput(lib: Library, defs: seq<Definition>, i: nat, raw: Values)
    requires i < |defs| && Refuses(lib, defs[i], raw)
    ensures IsAnswer(lib, defs, raw, None)
  {
    hide Refuses;
  }

  lemma NothingYet(lib: Library, defs: seq<Definition>, raw: Values)
    requires defs == []
    ensures IsOutput(lib, defs, raw, map[])
  {
  }

  // ---- What the output guarantees ----

  /** Accepted values are stored in a form that is accepted again, unchanged. */
  lemma AcceptedIsStable(lib: Library, d: Definition, v: Value, r: Value)
    requires Accepts(lib, d, v, r)
    ensures Accepts(lib, d, r, r)
  {
  }

  /** The default that fills in for a missing value would itself pass validation. */
  ghost predicate DefaultOk(lib: Library, d: Definition) {
    d.default != Null ==> Accepts(lib, d, d.default, d.default)
  }

  ghost predicate UsesDefault(d: Definition, raw: Values) {
    d.active && !Given(raw, d) && d.default != Null
  }

  /** The output holds only active codes and every required one. */
  lemma OutputCodes(lib: Library, defs: seq<Definition>, raw: Values, m: Values)
    requires IsOutput(lib, defs, raw, m)
    ensures forall c :: c in m ==> exists i :: 0 <= i < |defs| && defs[i].code == c && defs[i].active
    ensures forall i :: 0 <= i < |defs| && defs[i].active && defs[i].required ==> defs[i].code in m
  {
    hide Accepts;
    forall i | 0 <= i < |defs| && defs[i].active && defs[i].required ensures defs[i].code in m {
      var d := defs[i];
      assert !Refuses(lib, d, raw);
      if Given(raw, d) {
        var w :| Accepts(lib, d, raw[d.code], w);
        assert Stores(lib, d, raw, w);
      } else {
        assert Stores(lib, d, raw, d.default);
      }
    }
  }

  /** Every stored value obeys its definition, provided the defaults that were used do. */
  lemma OutputConforms(lib: Library, defs: seq<Definition>, raw: Values, m: Values, i: nat)
    requires IsOutput(lib, defs, raw, m) && DistinctCodes(defs) && i < |defs| && defs[i].code in m
    requires UsesDefault(defs[i], raw) ==> DefaultOk(lib, defs[i])
    ensures Conforms(lib, defs[i], m[defs[i].code])
  {
    var c := defs[i].code;
    var k: nat :| k < |defs| && defs[k].code == c && Writes(lib, defs, raw, k, m[c]);
    assert k == i;
  }

  lemma StoresAgain(lib: Library, defs: seq<Definition>, raw: Values, m: Values, i: nat)
    requires IsOutput(lib, defs, raw, m) && DistinctCodes(defs) && i < |defs|
    requires UsesDefault(defs[i], raw) ==> DefaultOk(lib, defs[i])
    ensures !Refuses(lib, defs[i], m)
    ensures forall v :: Stores(lib, defs[i], m, v) <==> Stores(lib, defs[i], raw, v)
  {
    var d := defs[i];
    if d.active {
      if v :| Stores(lib, d, raw, v) {
        if Given(raw, d) { AcceptedIsStable(lib, d, raw[d.code], v); }
        assert Accepts(lib, d, v, v);
        assert Given(m, d) && Stores(lib, d, m, v);
      } else {
        assert !Given(raw, d) && d.default == Null by { NothingStored(lib, d, raw); }
      }
    }
  }

  lemma NothingStored(lib: Library, d: Definition, raw: Values)
    requires d.active && !Refuses(lib, d, raw) && forall v :: !Stores(lib, d, raw, v)
    ensures !Given(raw, d) && d.default == Null
  {
    if Given(raw, d) {
      var w :| Accepts(lib, d, raw[d.code], w);
      assert Stores(lib, d, raw, w);
    } else if d.default != Null {
      assert Stores(lib, d, raw, d.default);
    }
  }

  lemma OutputAgainIff(lib: Library, defs: seq<Definition>, raw: Values, m: Values)
    requires IsOutput(lib, defs, raw, m) && DistinctCodes(defs)
    ensures IsOutput(lib, defs, m, m) <==>
            forall i :: 0 <= i < |defs| && UsesDefault(defs[i], raw) ==> DefaultOk(lib, defs[i])
  {
    if forall i :: 0 <= i < |defs| && UsesDefault(defs[i], raw) ==> DefaultOk(lib, defs[i]) {
      forall i | 0 <= i < |defs|
        ensures !Refuses(lib, defs[i], m) && forall v :: Stores(lib, defs[i], m, v) <==> Stores(lib, defs[i], raw, v)
      {
        StoresAgain(lib, defs, raw, m, i);
      }
      hide Stores, Refuses;
      forall c | c in m ensures exists i: nat :: i < |defs| && defs[i].code == c && Writes(lib, defs, m, i, m[c]) {
        var i: nat :| i < |defs| && defs[i].code == c && Writes(lib, defs, raw, i, m[c]);
        assert IsLast(lib, defs, m, i);
      }
    }
    if IsOutput(lib, defs, m, m) {
      forall i | 0 <= i < |defs| && UsesDefault(defs[i], raw) ensures DefaultOk(lib, defs[i]) {
        var d := defs[i];
        assert Stores(lib, d, raw, d.default);
        assert Given(m, d) && !Refuses(lib, d, m);
        var w :| Accepts(lib, d, d.default, w);
        assert Stores(lib, d, m, w);
      }
    }
  }

  /** Re-validating an output returns the same map exactly when every default that was filled in
      validates to itself; defaults are stored without validation, so this is a real condition. */
  lemma RevalidationIff(lib: Library, defs: seq<Definition>, raw: Values, m: Values, again: Option<Values>)
    requires DistinctCodes(defs) && IsAnswer(lib, defs, raw, Some(m)) && IsAnswer(lib, defs, m, again)
    ensures again == Some(m) <==>
            forall i :: 0 <= i < |defs| && UsesDefault(defs[i], raw) ==> DefaultOk(lib, defs[i])
  {
    hide IsOutput;
    assert IsOutput(lib, defs, raw, m);
    OutputAgainIff(lib, defs, raw, m);
  }

  /** A number field whose default is a text: the output for no input is refused when it comes back. */
  lemma BadDefaultIsRefused(lib: Library)
    ensures var d := Definition("c", Number, [], false, Str("x"), None, None, "", true);
            var m: Values := map["c" := Str("x")];
            IsAnswer(lib, [d], map[], Some(m)) && IsAnswer(lib, [d], m, None)
  {
    var d := Definition("c", Number, [], false, Str("x"), None, None, "", true);
    var m: Values := map["c" := Str("x")];
    assert [d][0] == d && !Given(map[], d) && Stores(lib, d, map[], Str("x"));
    assert Writes(lib, [d], map[], 0, Str("x"));
    assert IsOutput(lib, [d], map[], m);
    forall n | IsOutput(lib, [d], map[], n) ensures n == m { OutputIsUnique(lib, [d], map[], m, n); }
    assert Given(m, d) && Refuses(lib, d, m);
    RefusedHasNoOutput(lib, [d], 0, m);
  }

  /** A number field whose default is an integer: re-validation stores it as a float. */
  lemma IntegerDefaultChanges(lib: Library, i: int)
    ensures var d := Definition("c", Number, [], false, Int(i), None, None, "", true);
            var m, n: Values := map["c" := Int(i)], map["c" := Float64(i as real)];
            IsAnswer(lib, [d], map[], Some(m)) && IsAnswer(lib, [d], m, Some(n)) && m != n
  {
    var d := Definition("c", Number, [], false, Int(i), None, None, "", true);
    var m, n: Values := map["c" := Int(i)], map["c" := Float64(i as real)];
    assert [d][0] == d && Stores(lib, d, map[], Int(i)) && Writes(lib, [d], map[], 0, Int(i));
    assert IsOutput(lib, [d], map[], m);
    forall o | IsOutput(lib, [d], map[], o) ensures o == m { OutputIsUnique(lib, [d], map[], m, o); }
    assert Accepts(lib, d, Int(i), Float64(i as real)) && Stores(lib, d, m, Float64(i as real));
    assert Writes(lib, [d], m, 0, Float64(i as real));
    assert IsOutput(lib, [d], m, n);
    forall o | IsOutput(lib, [d], m, o) ensures o == n { OutputIsUnique(lib, [d], m, n, o); }
    assert m["c"] != n["c"];
  }

  // ---- What is stored, and what counts as missing ----

  /** Numbers keep their value, texts, flags and lists of options their content. */
  lemma StoredForms(f: real, i: int, s: string, b: bool, list: seq<string>, v: Value, name: string)
    ensures Canonical(Number, Float64(f)) == Canonical(Number, Float32(f)) == Some(Float64(f))
    ensures Canonical(Number, Int(i)) == Some(Float64(i as real))
    ensures Canonical(Number, Str(s)) == Canonical(Number, Bool(b)) == None
    ensures Canonical(Text, Str(s)) == Canonical(Date, Str(s)) == Canonical(Select, Str(s)) == Some(Str(s))
    ensures Canonical(Boolean, Bool(b)) == Some(Bool(b)) && Canonical(MultiSelect, StrList(list)) == Some(StrList(list))
    ensures Canonical(Json, v) == Canonical(Unlisted(name), v) == Some(v)
  {
  }

  lemma NullLikeMissing(lib: Library, d: Definition, raw: Values, c: string, v: Value)
    ensures Stores(lib, d, raw[c := Null], v) <==> Stores(lib, d, raw - {c}, v)
    ensures Refuses(lib, d, raw[c := Null]) <==> Refuses(lib, d, raw - {c})
  {
  }

  /** The definitions cannot tell the two inputs apart. */
  ghost predicate SameFor(lib: Library, defs: seq<Definition>, a: Values, b: Values) {
    forall i, v :: 0 <= i < |defs| ==>
      && (Stores(lib, defs[i], a, v) <==> Stores(lib, defs[i], b, v))
      && (Refuses(lib, defs[i], a) <==> Refuses(lib, defs[i], b))
  }

  lemma OutputTransfers(lib: Library, defs: seq<Definition>, a: Values, b: Values, m: Values)
    requires SameFor(lib, defs, a, b) && IsOutput(lib, defs, a, m)
    ensures IsOutput(lib, defs, b, m)
  {
    hide Stores, Refuses;
    forall i | 0 <= i < |defs| ensures !Refuses(lib, defs[i], b) {
      assert Stores(lib, defs[i], a, Null) <==> Stores(lib, defs[i], b, Null);
    }
    forall c | c in m ensures exists i: nat :: i < |defs| && defs[i].code == c && Writes(lib, defs, b, i, m[c]) {
      var i: nat :| i < |defs| && defs[i].code == c && Writes(lib, defs, a, i, m[c]);
      assert IsLast(lib, defs, b, i);
    }
  }

  /** A null value is treated exactly like a missing one. */
  lemma NullIsMissing(lib: Library, defs: seq<Definition>, raw: Values, c: string, m: Values)
    ensures IsOutput(lib, defs, raw[c := Null], m) <==> IsOutput(lib, defs, raw - {c}, m)
  {
    var a, b := raw[c := Null], raw - {c};
    forall i, v | 0 <= i < |defs|
      ensures Stores(lib, defs[i], a, v) <==> Stores(lib, defs[i], b, v)
      ensures Refuses(lib, defs[i], a) <==> Refuses(lib, defs[i], b)
    {
      NullLikeMissing(lib, defs[i], raw, c, v);
    }
    hide Stores, Refuses, IsOutput;
    if IsOutput(lib, defs, a, m) { OutputTransfers(lib, defs, a, b, m); }
    if IsOutput(lib, defs, b, m) { OutputTransfers(lib, defs, b, a, m); }
  }
}
