/** Small vocabulary shared by the models: optional values, fallible results,
    duplicate-free sequences and identifiers. */
module Shared {

  datatype Option<+T> = None | Some(value: T)

  datatype Result<+T, +E> = Ok(value: T) | Err(error: E)

  /** A UUID, as its 128 bits read as a number. The all-zero UUID is `shared.NilID()`. */
  datatype Id = Uuid(bits: nat)

  const NIL_ID: Id := Uuid(0)

  ghost predicate NoDup<T>(s: seq<T>) {
    forall i, j :: 0 <= i < j < |s| ==> s[i] != s[j]
  }

  ghost function Elems<T>(s: seq<T>): set<T> {
    set x | x in s
  }

  /** `order` lists every element of `s` exactly once. */
  ghost predicate Enumerates<T>(order: seq<T>, s: set<T>) {
    NoDup(order) && Elems(order) == s
  }

  /** Go's zero value for a missing entry of a map of slices. */
  function Lookup<K, V>(m: map<K, seq<V>>, k: K): seq<V> {
    if k in m then m[k] else []
  }

  lemma NoDupLength<T>(s: seq<T>)
    requires NoDup(s)
    ensures |Elems(s)| == |s|
  {
    if s != [] {
      var init, last := s[..|s| - 1], s[|s| - 1];
      NoDupLength(init);
      assert s == init + [last];
      assert Elems(s) == Elems(init) + {last};
    }
  }

  /** Pigeonhole: a duplicate-free sequence of members of `s` is no longer than `s` is large. */
  lemma NoDupBound<T>(s: seq<T>, all: set<T>)
    requires NoDup(s) && Elems(s) <= all
    ensures |s| <= |all|
  {
    NoDupLength(s);
    SubsetSize(Elems(s), all);
  }

  lemma SubsetSize<T>(a: set<T>, b: set<T>)
    requires a <= b
    ensures |a| <= |b|
  {
    assert b == a + (b - a);
  }

  lemma NoDupConcat<T>(a: seq<T>, b: seq<T>)
    requires NoDup(a) && NoDup(b) && forall x :: x in a ==> x !in b
    ensures NoDup(a + b)
  {
    var c := a + b;
    forall i, j | 0 <= i < j < |c| ensures c[i] != c[j] {
      if i < |a| <= j {
        assert c[i] in a && c[j] == b[j - |a|];
      }
    }
  }

  /** Before the first member of a set is visited. */
  lemma NothingEnumerated<T>(s: set<T>)
    ensures Enumerates([], s - s)
  {
  }

  /** Visiting one more member of a set. */
  lemma EnumerateOneMore<T>(order: seq<T>, s: set<T>, x: T)
    requires Enumerates(order, s) && x !in s
    ensures Enumerates(order + [x], s + {x})
  {
    assert forall y :: y in order ==> y in Elems(order);
    assert Elems(order + [x]) == Elems(order) + {x};
  }

  /** A finite set can be visited in some order. */
  lemma EnumerationExists<T>(s: set<T>) returns (order: seq<T>)
    ensures Enumerates(order, s)
  {
    if s == {} {
      order := [];
    } else {
      var x :| x in s;
      var rest := EnumerationExists(s - {x});
      EnumerateOneMore(rest, s - {x}, x);
      assert (s - {x}) + {x} == s;
      order := rest + [x];
    }
  }

  /** Taking one element out of a duplicate-free sequence. */
  lemma WithoutOne<T>(x: seq<T>, p: T, z: seq<T>)
    requires NoDup(x + [p] + z)
    ensures NoDup(x + z) && Elems(x + z) == Elems(x + [p] + z) - {p}
  {
    var s, t := x + [p] + z, x + z;
    forall i, j | 0 <= i < j < |t| ensures t[i] != t[j] {
      assert t[i] == s[if i < |x| then i else i + 1] && t[j] == s[if j < |x| then j else j + 1];
    }
    assert s[|x|] == p;
    forall y ensures y in t <==> y in s && y != p {
      if y in t {
        var i :| 0 <= i < |t| && t[i] == y;
        assert s[if i < |x| then i else i + 1] == y;
      }
      if y in s && y != p {
        var i :| 0 <= i < |s| && s[i] == y;
        assert t[if i < |x| then i else i - 1] == y;
      }
    }
  }
}
