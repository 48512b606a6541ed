/** Texts in the order Rust sorts them, and a list sorted without repeats. */
module TextOrder {
  import opened Foundation

  /** `a` comes strictly before `b`. */
  predicate Less(a: string, b: string)
    decreases a
  {
    b != [] && (a == [] || a[0] < b[0] || (a[0] == b[0] && Less(a[1..], b[1..])))
  }

  /** `a` is a proper prefix of `b`, or the first character they differ in is smaller. */
  ghost predicate Before(a: string, b: string, k: nat) {
    && k <= |a| && k < |b| && a[..k] == b[..k]
    && (k < |a| ==> a[k] < b[k])
  }

  lemma {:induction false} LessIsLexicographic(a: string, b: string)
    ensures Less(a, b) <==> exists k: nat :: Before(a, b, k)
    decreases a
  {
    if a == [] {
      assert b != [] ==> Before(a, b, 0);
    } else if b != [] {
      LessIsLexicographic(a[1..], b[1..]);
      if a[0] < b[0] {
        assert Before(a, b, 0);
      } else if a[0] == b[0] {
        if k: nat :| Before(a[1..], b[1..], k) {
          assert a[..k + 1] == [a[0]] + a[1..][..k] && b[..k + 1] == [b[0]] + b[1..][..k];
          assert Before(a, b, k + 1);
        }
        if k: nat :| Before(a, b, k) {
          assert k > 0 && a[1..][..k - 1] == a[..k][1..] && b[1..][..k - 1] == b[..k][1..];
          assert Before(a[1..], b[1..], k - 1);
        }
      } else {
        forall k: nat | Before(a, b, k) ensures false {
          FirstAtMost(a, b, k);
        }
      }
    }
  }

  lemma FirstAtMost(a: string, b: string, k: nat)
    requires a != [] && b != [] && Before(a, b, k)
    ensures a[0] <= b[0]
  {
    if k > 0 {
      assert a[0] == a[..k][0] && b[0] == b[..k][0];
    }
  }

  lemma {:induction false} LessIsStrict(a: string)
    ensures !Less(a, a)
    decreases a
  {
    if a != [] {
      LessIsStrict(a[1..]);
    }
  }

  lemma {:induction false} LessIsTransitive(a: string, b: string, c: string)
    requires Less(a, b) && Less(b, c)
    ensures Less(a, c)
    decreases a
  {
    if a != [] && a[0] == b[0] == c[0] {
      LessIsTransitive(a[1..], b[1..], c[1..]);
    }
  }

  lemma {:induction false} LessIsTotal(a: string, b: string)
    ensures a == b || Less(a, b) || Less(b, a)
    decreases a
  {
    if a != [] && b != [] && a[0] == b[0] {
      LessIsTotal(a[1..], b[1..]);
      assert a == [a[0]] + a[1..] && b == [b[0]] + b[1..];
    }
  }

  predicate Ascending(s: seq<string>) {
    forall i, j :: 0 <= i < j < |s| ==> Less(s[i], s[j])
  }

  lemma AscendingIsDistinct(s: seq<string>)
    requires Ascending(s)
    ensures Distinct(s)
  {
    forall i, j | 0 <= i < j < |s| ensures s[i] != s[j] {
      LessIsStrict(s[i]);
    }
  }

  /** Put a text in its place, unless it is there already. */
  function Insert(s: seq<string>, x: string): seq<string> {
    if s == [] then [x]
    else if x == s[0] then s
    else if Less(x, s[0]) then [x] + s
    else [s[0]] + Insert(s[1..], x)
  }

  lemma {:induction false} InsertKeepsOrder(s: seq<string>, x: string)
    requires Ascending(s)
    ensures Ascending(Insert(s, x))
    ensures forall y :: y in Insert(s, x) <==> y in s || y == x
  {
    hide Less;
    if s != [] {
      var first, rest := s[0], s[1..];
      assert s == [first] + rest;
      LessIsTotal(x, first);
      if Less(x, first) {
        forall j | 0 <= j < |s| ensures Less(x, s[j]) {
          if j > 0 {
            LessIsTransitive(x, first, s[j]);
          }
        }
      } else if x != first {
        InsertKeepsOrder(rest, x);
        forall y | y in Insert(rest, x) ensures Less(first, y) {
          if y in rest {
            var j :| 0 <= j < |rest| && rest[j] == y;
            assert s[j + 1] == y;
          }
        }
      }
    }
  }

  /** Sorting and then dropping repeats. */
  function SortedOnce(s: seq<string>): seq<string> {
    if s == [] then [] else Insert(SortedOnce(s[1..]), s[0])
  }

  lemma {:induction false} SortedOnceIsAscending(s: seq<string>)
    ensures Ascending(SortedOnce(s))
    ensures forall x :: x in SortedOnce(s) <==> x in s
  {
    if s != [] {
      SortedOnceIsAscending(s[1..]);
      InsertKeepsOrder(SortedOnce(s[1..]), s[0]);
      assert s == [s[0]] + s[1..];
    }
  }

  /** A set of texts has one ascending list. */
  lemma {:induction false} AscendingIsUnique(s: seq<string>, t: seq<string>)
    requires Ascending(s) && Ascending(t) && forall x :: x in s <==> x in t
    ensures s == t
  {
    hide Less;
    if s == [] {
      if t != [] {
        HasAMember(t);
      }
    } else if t == [] {
      HasAMember(s);
    } else {
      assert s[0] in t;
      FirstIsLeast(s, t[0]);
      FirstIsLeast(t, s[0]);
      if s[0] != t[0] {
        LessIsTransitive(s[0], t[0], s[0]);
        LessIsStrict(s[0]);
      }
      forall x ensures x in s[1..] <==> x in t[1..] {
        RestHasTheOthers(s, x);
        RestHasTheOthers(t, x);
      }
      AscendingIsUnique(s[1..], t[1..]);
      assert s == [s[0]] + s[1..] && t == [t[0]] + t[1..];
    }
  }

  lemma HasAMember(s: seq<string>)
    requires s != []
    ensures exists x :: x in s
  {
    assert s[0] in s;
  }

  lemma FirstIsLeast(s: seq<string>, x: string)
    requires Ascending(s) && x in s
    ensures x == s[0] || Less(s[0], x)
  {
    var i :| 0 <= i < |s| && s[i] == x;
  }

  lemma RestHasTheOthers(s: seq<string>, x: string)
    requires Ascending(s) && s != []
    ensures x in s[1..] <==> x in s && x != s[0]
  {
    AscendingIsDistinct(s);
    assert s == [s[0]] + s[1..];
    if x in s[1..] {
      var i :| 0 <= i < |s| - 1 && s[1..][i] == x;
      assert s[i + 1] != s[0];
    }
  }
}
