/** Shared vocabulary: optional and fallible results, octets, and
    order-preserving selection from a sequence. */
module Foundation {

  datatype Option<+T> = None | Some(value: T)

  datatype Result<+T, +E> = Ok(value: T) | Err(error: E)

  type Byte = b: int | 0 <= b < 256

  const INT64_MIN: int := -0x8000_0000_0000_0000
  const INT64_MAX: int := 0x7FFF_FFFF_FFFF_FFFF

  type Int64 = x: int | INT64_MIN <= x <= INT64_MAX

  function Min(a: int, b: int): int {
    if a < b then a else b
  }

  predicate Distinct<T(==)>(s: seq<T>) {
    forall i, j :: 0 <= i < j < |s| ==> s[i] != s[j]
  }

  lemma DistinctAppend<T>(s: seq<T>, t: seq<T>)
    requires Distinct(s) && Distinct(t)
    requires forall x :: x in s ==> x !in t
    ensures Distinct(s + t)
  {
    forall i, j | 0 <= i < j < |s + t| ensures (s + t)[i] != (s + t)[j] {
      if i < |s| && |s| <= j {
        assert (s + t)[i] in s && (s + t)[j] in t;
      }
    }
  }

  /** The elements of `s` that satisfy `p`, in order. */
  function Keep<T>(s: seq<T>, p: T -> bool): seq<T> {
    if s == [] then []
    else (if p(s[0]) then [s[0]] else []) + Keep(s[1..], p)
  }

  lemma {:induction false} KeepMembers<T>(s: seq<T>, p: T -> bool)
    ensures |Keep(s, p)| <= |s|
    ensures forall x :: x in Keep(s, p) <==> x in s && p(x)
  {
    if s != [] {
      KeepMembers(s[1..], p);
      assert forall x :: x in s <==> x == s[0] || x in s[1..];
    }
  }

  lemma KeepCons<T>(x: T, s: seq<T>, p: T -> bool)
    ensures Keep([x] + s, p) == (if p(x) then [x] else []) + Keep(s, p)
  {
    assert ([x] + s)[1..] == s;
  }

  lemma KeepOne<T>(x: T, p: T -> bool)
    ensures Keep([x], p) == if p(x) then [x] else []
  {
    assert [x] == [x] + [];
    KeepCons(x, [], p);
  }

  lemma KeepEmpty<T>(p: T -> bool)
    ensures Keep([], p) == []
  {
  }

  lemma {:induction false} KeepAppend<T>(s: seq<T>, t: seq<T>, p: T -> bool)
    ensures Keep(s + t, p) == Keep(s, p) + Keep(t, p)
  {
    hide Keep;
    if s == [] {
      KeepEmpty(p);
      assert s + t == t && [] + Keep(t, p) == Keep(t, p);
    } else {
      var first, rest := s[0], s[1..];
      assert s == [first] + rest;
      assert s + t == [first] + (rest + t);
      KeepCons(first, rest, p);
      KeepCons(first, rest + t, p);
      KeepAppend(rest, t, p);
      var kept := if p(first) then [first] else [];
      assert kept + (Keep(rest, p) + Keep(t, p)) == kept + Keep(rest, p) + Keep(t, p);
    }
  }

  lemma {:induction false} KeepAll<T>(s: seq<T>, p: T -> bool)
    requires forall x :: x in s ==> p(x)
    ensures Keep(s, p) == s
  {
    if s != [] {
      assert forall x :: x in s[1..] ==> x in s;
      KeepAll(s[1..], p);
      assert s == [s[0]] + s[1..];
    }
  }

  lemma {:induction false} KeepTwice<T>(s: seq<T>, p: T -> bool, q: T -> bool, both: T -> bool)
    requires forall x :: x in s ==> both(x) == (p(x) && q(x))
    ensures Keep(Keep(s, p), q) == Keep(s, both)
  {
    if s != [] {
      assert forall x :: x in s[1..] ==> x in s;
      KeepTwice(s[1..], p, q, both);
      if p(s[0]) {
        KeepAppend([s[0]], Keep(s[1..], p), q);
        assert s[0] in s;
      } else {
        assert s[0] in s;
        assert [] + Keep(s[1..], p) == Keep(s[1..], p);
      }
    }
  }

  lemma {:induction false} KeepMultiset<T>(s: seq<T>, p: T -> bool, x: T)
    ensures multiset(Keep(s, p))[x] == if p(x) then multiset(s)[x] else 0
  {
    if s != [] {
      KeepMultiset(s[1..], p, x);
      assert s == [s[0]] + s[1..];
    }
  }

  lemma {:induction false} KeepDistinct<T>(s: seq<T>, p: T -> bool)
    requires Distinct(s)
    ensures Distinct(Keep(s, p))
  {
    if s != [] {
      KeepDistinct(s[1..], p);
      KeepMembers(s[1..], p);
      assert s[0] !in s[1..];
    }
  }
}
