/** The path policy of `rust/src/path.rs`: the millisecond reading of OpenSSL's
    whole-second validity checks, and the two ordered verdicts over the problems
    a path has. */
module PathPolicy {
  import opened Foundation
  import opened OpenSsl
  import opened Verdicts

  // ---------------------------------------------------------------------
  // Seconds.

  function SaturatingAdd(a: Int64, b: Int64): Int64 {
    if a + b > INT64_MAX then INT64_MAX else if a + b < INT64_MIN then INT64_MIN else a + b
  }

  /** The second an instant falls in, and the instant rounded up to a second. */
  function Seconds(atMillis: Int64): (r: (Int64, Int64))
    ensures 1000 * r.0 <= atMillis < 1000 * (r.0 + 1)
    ensures 1000 * (r.1 - 1) < atMillis <= 1000 * r.1
  {
    var second := atMillis / 1000;
    (second, SaturatingAdd(second, if atMillis % 1000 != 0 then 1 else 0))
  }

  // ---------------------------------------------------------------------
  // The checked path.

  predicate NotAfterAtLeast(lib: Library, c: Certificate, second: int) {
    lib.asn1Time(second) && lib.notAfter(c).Some? && lib.notAfter(c).value >= second
  }

  /** How many certificates of the path stand below the anchor it reached. */
  function BelowAnchor(outcome: PathOutcome): nat {
    if outcome.anchored && outcome.chain != [] then |outcome.chain| - 1 else |outcome.chain|
  }

  /** An `Expired` problem for each certificate below the anchor whose `notAfter`
      is before the rounded-up second, from depth `depth` on. */
  function Late(lib: Library, chain: seq<Certificate>, depth: nat, below: nat, roundedUp: int): seq<Problem>
    requires depth <= below <= |chain|
    decreases below - depth
  {
    if depth == below then []
    else (if NotAfterAtLeast(lib, chain[depth], roundedUp) then [] else [Problem(depth, Expired)])
         + Late(lib, chain, depth + 1, below, roundedUp)
  }

  function CheckedPath(
      lib: Library, target: Certificate, untrusted: seq<Certificate>, anchors: seq<Certificate>, atMillis: Int64): PathOutcome
  {
    var (second, roundedUp) := Seconds(atMillis);
    var outcome := lib.verifyPath(target, untrusted, anchors, second);
    outcome.(problems := outcome.problems + Late(lib, outcome.chain, 0, BelowAnchor(outcome), roundedUp))
  }

  lemma {:induction false} LateMembers(
      lib: Library, chain: seq<Certificate>, depth: nat, below: nat, roundedUp: int, p: Problem)
    requires depth <= below <= |chain|
    ensures p in Late(lib, chain, depth, below, roundedUp)
       <==> p.kind == Expired && depth <= p.depth < below && !NotAfterAtLeast(lib, chain[p.depth], roundedUp)
    decreases below - depth
  {
    if depth < below {
      LateMembers(lib, chain, depth + 1, below, roundedUp, p);
    }
  }

  // ---------------------------------------------------------------------
  // What whole-second checks mean in milliseconds.

  /** The years an ASN.1 time can state, 0000 to 9999, in Unix seconds. */
  const FIRST_ASN1: int := -62_167_219_200
  const LAST_ASN1: int := 253_402_300_799

  /** Certificate times are ASN.1 times, and OpenSSL can write every such second. */
  ghost predicate Asn1Times(lib: Library) {
    && (forall s :: FIRST_ASN1 <= s <= LAST_ASN1 ==> lib.asn1Time(s))
    && (forall c :: lib.notBefore(c).Some? ==> FIRST_ASN1 <= lib.notBefore(c).value <= LAST_ASN1)
    && (forall c :: lib.notAfter(c).Some? ==> FIRST_ASN1 <= lib.notAfter(c).value <= LAST_ASN1)
  }

  predicate IsAnchor(lib: Library, anchors: seq<Certificate>, c: Certificate) {
    exists a :: a in anchors && lib.sameAs(c, a)
  }

  /** OpenSSL's validity checks at a second, `notAfter` inclusive: reported for
      every certificate on the path, except that a pinned anchor's readable times
      are waived. */
  ghost predicate JudgesWindows(lib: Library, outcome: PathOutcome, anchors: seq<Certificate>, second: int) {
    forall d :: 0 <= d < |outcome.chain| ==>
      var c := outcome.chain[d];
      && (Problem(d, NotYetValid) in outcome.problems <==>
            lib.notBefore(c).None? || (second < lib.notBefore(c).value && !IsAnchor(lib, anchors, c)))
      && (Problem(d, Expired) in outcome.problems <==>
            lib.notAfter(c).None? || (lib.notAfter(c).value < second && !IsAnchor(lib, anchors, c)))
  }

  predicate ReadableTimes(lib: Library, c: Certificate) {
    lib.notBefore(c).Some? && lib.notAfter(c).Some?
  }

  /** The inclusive millisecond window a certificate states. */
  predicate InWindow(lib: Library, c: Certificate, atMillis: int) {
    ReadableTimes(lib, c) && 1000 * lib.notBefore(c).value <= atMillis <= 1000 * lib.notAfter(c).value
  }

  predicate WindowProblemAt(outcome: PathOutcome, depth: nat) {
    Problem(depth, NotYetValid) in outcome.problems || Problem(depth, Expired) in outcome.problems
  }

  /** What is asked of a certificate below the anchor reached: to be inside its
      millisecond window; of one that is itself a pinned anchor, only not to be past
      the window's end, at a second OpenSSL can write. */
  predicate MeetsWindow(lib: Library, anchors: seq<Certificate>, c: Certificate, atMillis: Int64) {
    if IsAnchor(lib, anchors, c)
    then ReadableTimes(lib, c) && lib.asn1Time(Seconds(atMillis).1) && atMillis <= 1000 * lib.notAfter(c).value
    else InWindow(lib, c, atMillis)
  }

  /** A certificate below the anchor has a validity problem exactly when it does not
      meet its window; the anchor the path reached has one exactly when its times
      do not read. */
  lemma WindowsAreExact(
      lib: Library, target: Certificate, untrusted: seq<Certificate>, anchors: seq<Certificate>, atMillis: Int64, depth: nat)
    requires Asn1Times(lib)
    requires JudgesWindows(lib, lib.verifyPath(target, untrusted, anchors, Seconds(atMillis).0), anchors, Seconds(atMillis).0)
    requires depth < |lib.verifyPath(target, untrusted, anchors, Seconds(atMillis).0).chain|
    ensures var outcome := CheckedPath(lib, target, untrusted, anchors, atMillis);
            var c := outcome.chain[depth];
            && (depth < BelowAnchor(outcome) ==> (WindowProblemAt(outcome, depth) <==> !MeetsWindow(lib, anchors, c, atMillis)))
            && (depth == BelowAnchor(outcome) && IsAnchor(lib, anchors, c) ==>
                  (WindowProblemAt(outcome, depth) <==> !ReadableTimes(lib, c)))
  {
    var (second, roundedUp) := Seconds(atMillis);
    var raw := lib.verifyPath(target, untrusted, anchors, second);
    LateMembers(lib, raw.chain, 0, BelowAnchor(raw), roundedUp, Problem(depth, NotYetValid));
    LateMembers(lib, raw.chain, 0, BelowAnchor(raw), roundedUp, Problem(depth, Expired));
    hide IsAnchor, Late;
  }

  /** A library for a leaf that A issued, where B issued A and A begins at second
      1000. As the anchors are tried in order, the path goes on to B only when B comes
      before A. */
  function TwoAnchors(): Library {
    Library(
      (c, issuer) => (c == Certificate([0]) && issuer == Certificate([1])) || (c == Certificate([1]) && issuer == Certificate([2])),
      (c, d) => c == d,
      c => true,
      (c, oid) => true,
      c => Some(if c == Certificate([1]) then 1000 else 0),
      c => Some(2000),
      (target, untrusted, anchors, second) =>
        if anchors != [] && anchors[0] == Certificate([2])
        then PathOutcome([Certificate([0]), Certificate([1]), Certificate([2])], true, [])
        else PathOutcome([Certificate([0]), Certificate([1])], true, []),
      (signer, signature, octets) => true,
      der => None,
      second => true)
  }

  /** Before A begins, the path has no problem, although A is below the anchor
      reached and outside its window. */
  lemma AnchorBelowAnother()
    ensures var lib, leaf, a, b := TwoAnchors(), Certificate([0]), Certificate([1]), Certificate([2]);
            var outcome := CheckedPath(lib, leaf, [a], [b, a], 500_000);
            && Asn1Times(lib)
            && JudgesWindows(lib, lib.verifyPath(leaf, [a], [b, a], Seconds(500_000).0), [b, a], Seconds(500_000).0)
            && outcome.chain == [leaf, a, b] && outcome.anchored
            && outcome.problems == [] && !InWindow(lib, a, 500_000)
  {
    var lib, leaf, a, b := TwoAnchors(), Certificate([0]), Certificate([1]), Certificate([2]);
    assert Seconds(500_000) == (500, 500);
    assert a in [b, a] && b in [b, a] && lib.sameAs(a, a) && lib.sameAs(b, b);
    assert a.encoding[0] != 0;
  }

  // ---------------------------------------------------------------------
  // Verdicts over the problems.

  predicate IsStructural(kind: ProblemKind) {
    !(kind.NotYetValid? || kind.Expired? || kind.UnhandledCriticalExtension?)
  }

  function StructuralFailure(kind: ProblemKind): Failure {
    match kind
    case NotCa => Failure(UntrustedChain, IntermediateNotCa)
    case TooLong => Failure(UntrustedChain, ChainTooLong)
    case _ => Failure(UntrustedChain, NoPinnedRoot)
  }

  /** The first problem of a kind `p` picks. */
  function Find(problems: seq<Problem>, p: ProblemKind -> bool): Option<Problem> {
    if problems == [] then None
    else if p(problems[0].kind) then Some(problems[0])
    else Find(problems[1..], p)
  }

  function ReceiptVerdict(outcome: PathOutcome): Result<seq<Certificate>, Failure> {
    var structural := Find(outcome.problems, IsStructural);
    if structural.Some? then Err(StructuralFailure(structural.value.kind))
    else if !outcome.anchored then Err(Failure(UntrustedChain, NoPinnedRoot))
    else if exists p :: p in outcome.problems && (p.kind.NotYetValid? || p.kind.Expired?)
      then Err(Failure(InvalidCertificate, OutsideValidity))
    else if outcome.problems != [] then Err(Failure(UntrustedChain, CriticalExtension))
    else Ok(if outcome.chain == [] then [] else outcome.chain[..|outcome.chain| - 1])
  }

  function ReceiptPath(
      lib: Library, signer: Certificate, authenticated: seq<Certificate>, anchors: seq<Certificate>, atMillis: Int64)
    : Result<seq<Certificate>, Failure>
  {
    ReceiptVerdict(CheckedPath(lib, signer, authenticated, anchors, atMillis))
  }

  predicate ProblemAt(problems: seq<Problem>, depth: nat, p: ProblemKind -> bool) {
    exists q :: q in problems && q.depth == depth && p(q.kind)
  }

  /** The second half of `validate_pair`: what it reads from the checked path. */
  function PairVerdict(lib: Library, leaf: Certificate, intermediate: Certificate, outcome: PathOutcome): Result<(), Failure> {
    var broken := Find(outcome.problems, (k: ProblemKind) => IsStructural(k) && !k.NotCa?);
    var validity := (k: ProblemKind) => k.NotYetValid? || k.Expired?;
    var critical := (k: ProblemKind) => k.UnhandledCriticalExtension?;
    if broken.Some? then Err(StructuralFailure(broken.value.kind))
    else if ProblemAt(outcome.problems, 1, validity) then Err(Failure(InvalidCertificate, OutsideValidity))
    else if ProblemAt(outcome.problems, 1, (k: ProblemKind) => k.NotCa?) then Err(Failure(UntrustedChain, IntermediateNotCa))
    else if ProblemAt(outcome.problems, 1, critical) then Err(Failure(UntrustedChain, CriticalExtension))
    else if ProblemAt(outcome.problems, 0, validity) then Err(Failure(InvalidCertificate, OutsideValidity))
    else if ProblemAt(outcome.problems, 0, critical) then Err(Failure(UntrustedChain, CriticalExtension))
    else if outcome.problems != [] then Err(Failure(UntrustedChain, DoesNotValidate))
    else if |outcome.chain| != 3 then Err(Failure(UntrustedChain, NotTheExpectedPath))
    else if !outcome.anchored || !lib.sameAs(outcome.chain[0], leaf) || !lib.sameAs(outcome.chain[1], intermediate)
      then Err(Failure(UntrustedChain, NotTheExpectedPath))
    else Ok(())
  }

  function ValidatePair(
      lib: Library, leaf: Certificate, intermediate: Certificate, anchors: seq<Certificate>, atMillis: Int64)
    : Result<(), Failure>
  {
    if !exists a :: a in anchors && lib.issuedBy(intermediate, a) then Err(Failure(UntrustedChain, NotIssuedByRoot))
    else if !lib.usableKey(intermediate) then Err(Failure(InvalidCertificate, UnusableKey))
    else if !lib.issuedBy(leaf, intermediate) then Err(Failure(UntrustedChain, NotIssuedByIntermediate))
    else if !lib.usableKey(leaf) then Err(Failure(InvalidCertificate, UnusableKey))
    else PairVerdict(lib, leaf, intermediate, CheckedPath(lib, leaf, [intermediate], anchors, atMillis))
  }

  // ---------------------------------------------------------------------
  // The order and repetition of problems do not matter to a reason.

  lemma {:induction false} FindFinds(problems: seq<Problem>, p: ProblemKind -> bool)
    ensures Find(problems, p).Some? <==> exists q :: q in problems && p(q.kind)
    ensures Find(problems, p).Some? ==> Find(problems, p).value in problems && p(Find(problems, p).value.kind)
  {
    if problems != [] {
      FindFinds(problems[1..], p);
      assert problems[0] in problems;
      if q :| q in problems && p(q.kind) {
        assert q == problems[0] || q in problems[1..];
      }
    }
  }

  ghost predicate SameProblems(a: PathOutcome, b: PathOutcome) {
    a.chain == b.chain && a.anchored == b.anchored && forall p :: p in a.problems <==> p in b.problems
  }

  /** Two results with the same value, or failures with the same reason. */
  predicate Agree<T(==)>(a: Result<T, Failure>, b: Result<T, Failure>) {
    match (a, b)
    case (Ok(x), Ok(y)) => x == y
    case (Err(e), Err(f)) => e.reason == f.reason
    case _ => false
  }

  lemma SameFound(a: seq<Problem>, b: seq<Problem>, p: ProblemKind -> bool)
    requires forall q :: q in a <==> q in b
    ensures Find(a, p).Some? <==> Find(b, p).Some?
    ensures forall depth :: ProblemAt(a, depth, p) <==> ProblemAt(b, depth, p)
    ensures a == [] <==> b == []
  {
    FindFinds(a, p);
    FindFinds(b, p);
    assert a != [] ==> a[0] in b;
    assert b != [] ==> b[0] in a;
  }

  /** Permuting or repeating the problems changes no verdict's reason. */
  lemma ReasonsIgnoreProblemOrder(lib: Library, leaf: Certificate, intermediate: Certificate, a: PathOutcome, b: PathOutcome)
    requires SameProblems(a, b)
    ensures Agree(ReceiptVerdict(a), ReceiptVerdict(b))
    ensures Agree(PairVerdict(lib, leaf, intermediate, a), PairVerdict(lib, leaf, intermediate, b))
  {
    hide Find, ProblemAt, IsStructural;
    SameFound(a.problems, b.problems, IsStructural);
    SameFound(a.problems, b.problems, (k: ProblemKind) => IsStructural(k) && !k.NotCa?);
    SameFound(a.problems, b.problems, (k: ProblemKind) => k.NotYetValid? || k.Expired?);
    SameFound(a.problems, b.problems, (k: ProblemKind) => k.NotCa?);
    SameFound(a.problems, b.problems, (k: ProblemKind) => k.UnhandledCriticalExtension?);
  }

  /** The receipt verdict, case by case: `INVALID_CERTIFICATE` exactly for an
      anchored path with no structural problem and a validity problem, success
      exactly for an anchored path with no problem, and `UNTRUSTED_CHAIN` otherwise. */
  lemma ReceiptVerdictMeans(outcome: PathOutcome)
    ensures var v := ReceiptVerdict(outcome);
            var structural := exists p :: p in outcome.problems && IsStructural(p.kind);
            var window := exists p :: p in outcome.problems && (p.kind.NotYetValid? || p.kind.Expired?);
            && (v == Err(Failure(InvalidCertificate, OutsideValidity)) <==> outcome.anchored && !structural && window)
            && (v.Ok? <==> outcome.anchored && outcome.problems == [])
            && (v.Err? ==> v.error.reason == UntrustedChain || v.error == Failure(InvalidCertificate, OutsideValidity))
            && (v.Ok? && outcome.chain != [] ==> v.value + [outcome.chain[|outcome.chain| - 1]] == outcome.chain)
  {
    FindFinds(outcome.problems, IsStructural);
  }

  /** An anchored path as OpenSSL reports one: its last certificate is a pinned
      anchor, and problems stand on it. */
  ghost predicate AnchoredPath(lib: Library, anchors: seq<Certificate>, raw: PathOutcome) {
    && raw.anchored && raw.chain != []
    && IsAnchor(lib, anchors, raw.chain[|raw.chain| - 1])
    && (forall p :: p in raw.problems && !IsStructural(p.kind) ==> p.depth < |raw.chain|)
  }

  /** Some certificate below the anchor does not meet its window, or the anchor's
      times do not read. */
  ghost predicate OutsideSomeWindow(lib: Library, anchors: seq<Certificate>, chain: seq<Certificate>, atMillis: Int64)
    requires chain != []
  {
    || !ReadableTimes(lib, chain[|chain| - 1])
    || exists d :: 0 <= d < |chain| - 1 && !MeetsWindow(lib, anchors, chain[d], atMillis)
  }

  /** On an anchored path, some validity problem is reported exactly when some
      window is not met. */
  lemma WindowProblemsInMillis(
      lib: Library, signer: Certificate, authenticated: seq<Certificate>, anchors: seq<Certificate>, atMillis: Int64)
    requires Asn1Times(lib)
    requires JudgesWindows(lib, lib.verifyPath(signer, authenticated, anchors, Seconds(atMillis).0), anchors, Seconds(atMillis).0)
    requires AnchoredPath(lib, anchors, lib.verifyPath(signer, authenticated, anchors, Seconds(atMillis).0))
    ensures var outcome := CheckedPath(lib, signer, authenticated, anchors, atMillis);
            (exists p :: p in outcome.problems && (p.kind.NotYetValid? || p.kind.Expired?))
            <==> OutsideSomeWindow(lib, anchors, outcome.chain, atMillis)
  {
    hide IsAnchor, MeetsWindow, Late, JudgesWindows, Asn1Times;
    var outcome := CheckedPath(lib, signer, authenticated, anchors, atMillis);
    if p :| p in outcome.problems && (p.kind.NotYetValid? || p.kind.Expired?) {
      LateMembers(lib, outcome.chain, 0, BelowAnchor(outcome), Seconds(atMillis).1, p);
      assert p == Problem(p.depth, NotYetValid) || p == Problem(p.depth, Expired);
      WindowsAreExact(lib, signer, authenticated, anchors, atMillis, p.depth);
    }
    WindowsAreExact(lib, signer, authenticated, anchors, atMillis, |outcome.chain| - 1);
    if d :| 0 <= d < |outcome.chain| - 1 && !MeetsWindow(lib, anchors, outcome.chain[d], atMillis) {
      WindowsAreExact(lib, signer, authenticated, anchors, atMillis, d);
    }
  }

  /** `INVALID_CERTIFICATE` in milliseconds: exactly for an anchored path with no
      structural problem and a window that is not met. */
  lemma ReceiptPathInMillis(
      lib: Library, signer: Certificate, authenticated: seq<Certificate>, anchors: seq<Certificate>, atMillis: Int64)
    requires Asn1Times(lib)
    requires JudgesWindows(lib, lib.verifyPath(signer, authenticated, anchors, Seconds(atMillis).0), anchors, Seconds(atMillis).0)
    requires AnchoredPath(lib, anchors, lib.verifyPath(signer, authenticated, anchors, Seconds(atMillis).0))
    ensures var raw := lib.verifyPath(signer, authenticated, anchors, Seconds(atMillis).0);
            ReceiptPath(lib, signer, authenticated, anchors, atMillis) == Err(Failure(InvalidCertificate, OutsideValidity))
            <==> && (forall p :: p in raw.problems ==> !IsStructural(p.kind))
                 && OutsideSomeWindow(lib, anchors, raw.chain, atMillis)
  {
    hide IsAnchor, OutsideSomeWindow, Late, JudgesWindows, Asn1Times, ReceiptVerdict;
    var raw := lib.verifyPath(signer, authenticated, anchors, Seconds(atMillis).0);
    var outcome := CheckedPath(lib, signer, authenticated, anchors, atMillis);
    ReceiptVerdictMeans(outcome);
    WindowProblemsInMillis(lib, signer, authenticated, anchors, atMillis);
    forall p | p in outcome.problems && IsStructural(p.kind) ensures p in raw.problems {
      LateMembers(lib, raw.chain, 0, BelowAnchor(raw), Seconds(atMillis).1, p);
    }
  }

  /** `validate_pair` succeeds exactly on the path leaf, intermediate, anchor,
      vouched for from the anchor down, with usable keys and no problem, in the
      library's answer or by a late `notAfter`. */
  lemma ValidatePairMeans(lib: Library, leaf: Certificate, intermediate: Certificate, anchors: seq<Certificate>, atMillis: Int64)
    ensures var raw := lib.verifyPath(leaf, [intermediate], anchors, Seconds(atMillis).0);
            ValidatePair(lib, leaf, intermediate, anchors, atMillis).Ok?
            <==> (&& (exists a :: a in anchors && lib.issuedBy(intermediate, a))
                  && lib.issuedBy(leaf, intermediate)
                  && lib.usableKey(intermediate) && lib.usableKey(leaf)
                  && raw.problems == [] && raw.anchored && |raw.chain| == 3
                  && lib.sameAs(raw.chain[0], leaf) && lib.sameAs(raw.chain[1], intermediate)
                  && NotAfterAtLeast(lib, raw.chain[0], Seconds(atMillis).1)
                  && NotAfterAtLeast(lib, raw.chain[1], Seconds(atMillis).1))
  {
    hide NotAfterAtLeast, PairVerdict, Late, Seconds;
    var raw := lib.verifyPath(leaf, [intermediate], anchors, Seconds(atMillis).0);
    PairVerdictMeans(lib, leaf, intermediate, CheckedPath(lib, leaf, [intermediate], anchors, atMillis));
    if raw.anchored && |raw.chain| == 3 {
      NoneLate(lib, raw.chain, Seconds(atMillis).1);
    }
  }

  // ---------------------------------------------------------------------
  // Which failure, by the set of problems.

  ghost predicate Reported(problems: seq<Problem>, depth: nat, kind: ProblemKind) {
    Problem(depth, kind) in problems
  }

  ghost predicate WindowAt(problems: seq<Problem>, depth: nat) {
    Reported(problems, depth, NotYetValid) || Reported(problems, depth, Expired)
  }

  /** A problem that says no path leads to a pinned anchor: not a validity window, a
      critical extension or a certificate that is not a CA. */
  ghost predicate Breaks(p: Problem) {
    p.kind in {NoIssuer, BadSignature, TooLong} || p.kind.Other?
  }

  ghost predicate Broken(problems: seq<Problem>) {
    exists k: nat :: FirstBreak(problems, k)
  }

  /** The first such problem is number `k`. */
  ghost predicate FirstBreak(problems: seq<Problem>, k: nat) {
    k < |problems| && Breaks(problems[k]) && forall j :: 0 <= j < k ==> !Breaks(problems[j])
  }

  lemma StructuralMeans(kind: ProblemKind)
    ensures IsStructural(kind) <==> kind in {NoIssuer, BadSignature, TooLong, NotCa} || kind.Other?
    ensures StructuralFailure(kind) == Failure(UntrustedChain, if kind == NotCa then IntermediateNotCa
                                                               else if kind == TooLong then ChainTooLong else NoPinnedRoot)
  {
  }

  lemma {:induction false} FindIsFirst(problems: seq<Problem>, p: ProblemKind -> bool, k: nat)
    requires k < |problems| && p(problems[k].kind) && forall j :: 0 <= j < k ==> !p(problems[j].kind)
    ensures Find(problems, p) == Some(problems[k])
  {
    if k > 0 {
      assert !p(problems[0].kind);
      forall j | 0 <= j < k - 1 ensures !p(problems[1..][j].kind) {
        assert !p(problems[j + 1].kind);
      }
      FindIsFirst(problems[1..], p, k - 1);
    }
  }

  lemma {:induction false} FirstBreakExists(problems: seq<Problem>) returns (k: nat)
    requires exists p :: p in problems && Breaks(p)
    ensures FirstBreak(problems, k)
  {
    if Breaks(problems[0]) {
      k := 0;
    } else {
      var p :| p in problems && Breaks(p);
      assert problems == [problems[0]] + problems[1..];
      assert p in problems[1..];
      k := FirstBreakExists(problems[1..]);
      k := k + 1;
      forall j | 0 <= j < k ensures !Breaks(problems[j]) {
        if j > 0 {
          assert problems[1..][j - 1] == problems[j];
        }
      }
    }
  }

  lemma AtMeans(problems: seq<Problem>, depth: nat)
    ensures ProblemAt(problems, depth, (k: ProblemKind) => k.NotYetValid? || k.Expired?) <==> WindowAt(problems, depth)
    ensures ProblemAt(problems, depth, (k: ProblemKind) => k.NotCa?) <==> Reported(problems, depth, NotCa)
    ensures ProblemAt(problems, depth, (k: ProblemKind) => k.UnhandledCriticalExtension?)
       <==> Reported(problems, depth, UnhandledCriticalExtension)
  {
    forall q | q in problems && q.depth == depth ensures q == Problem(depth, q.kind) {
    }
  }

  /** Which failure a pair gets, by the set of problems the checked path has. */
  ghost predicate PairFailsWith(problems: seq<Problem>, onPath: bool, failure: Failure) {
    var windowAbove, windowBelow := WindowAt(problems, 1), WindowAt(problems, 0);
    var notCa := Reported(problems, 1, NotCa);
    var criticalAbove := Reported(problems, 1, UnhandledCriticalExtension);
    var criticalBelow := Reported(problems, 0, UnhandledCriticalExtension);
    var aboveIsClean := !windowAbove && !notCa && !criticalAbove;
    match failure.detail
    case ChainTooLong =>
      failure.reason == UntrustedChain && exists k: nat :: FirstBreak(problems, k) && problems[k].kind == TooLong
    case NoPinnedRoot =>
      failure.reason == UntrustedChain && exists k: nat :: FirstBreak(problems, k) && problems[k].kind != TooLong
    case OutsideValidity =>
      failure.reason == InvalidCertificate && !Broken(problems) && (windowAbove || (aboveIsClean && windowBelow))
    case IntermediateNotCa => failure.reason == UntrustedChain && !Broken(problems) && !windowAbove && notCa
    case CriticalExtension =>
      && failure.reason == UntrustedChain && !Broken(problems) && !windowAbove && !notCa
      && (criticalAbove || (!windowBelow && criticalBelow))
    case DoesNotValidate =>
      && failure.reason == UntrustedChain && !Broken(problems) && problems != []
      && aboveIsClean && !windowBelow && !criticalBelow
    case NotTheExpectedPath => failure.reason == UntrustedChain && problems == [] && !onPath
    case _ => false
  }

  ghost predicate OnPath(lib: Library, leaf: Certificate, intermediate: Certificate, outcome: PathOutcome) {
    && outcome.anchored && |outcome.chain| == 3
    && lib.sameAs(outcome.chain[0], leaf) && lib.sameAs(outcome.chain[1], intermediate)
  }

  /** A pair's path gets exactly the failure its problems call for. */
  lemma PairFailureMeans(lib: Library, leaf: Certificate, intermediate: Certificate, outcome: PathOutcome, failure: Failure)
    ensures PairVerdict(lib, leaf, intermediate, outcome) == Err(failure)
       <==> PairFailsWith(outcome.problems, OnPath(lib, leaf, intermediate, outcome), failure)
  {
    var problems, breaks := outcome.problems, (k: ProblemKind) => IsStructural(k) && !k.NotCa?;
    forall p: Problem ensures breaks(p.kind) <==> Breaks(p) {
      StructuralMeans(p.kind);
    }
    AtMeans(problems, 0);
    AtMeans(problems, 1);
    FindFinds(problems, breaks);
    hide Find, ProblemAt, WindowAt, IsStructural, StructuralFailure, Breaks;
    if Find(problems, breaks).Some? {
      var k := FirstBreakExists(problems);
      FindIsFirst(problems, breaks, k);
      StructuralMeans(problems[k].kind);
      BrokenFailure(problems, OnPath(lib, leaf, intermediate, outcome), failure, k);
    } else {
      NotBroken(problems);
    }
  }

  lemma NotBroken(problems: seq<Problem>)
    requires forall p :: p in problems ==> !Breaks(p)
    ensures !Broken(problems) && forall k: nat :: !FirstBreak(problems, k)
  {
    hide Breaks;
    forall k: nat | k < |problems| ensures !FirstBreak(problems, k) {
      assert problems[k] in problems;
    }
  }

  lemma BrokenFailure(problems: seq<Problem>, onPath: bool, failure: Failure, k: nat)
    requires FirstBreak(problems, k)
    ensures PairFailsWith(problems, onPath, failure)
       <==> failure == Failure(UntrustedChain, if problems[k].kind == TooLong then ChainTooLong else NoPinnedRoot)
  {
    hide Breaks, WindowAt, Reported;
    assert Broken(problems) && problems != [];
    forall j: nat | FirstBreak(problems, j) ensures j == k {
    }
  }

  /** The first problem that says no path leads to a pinned anchor, a certificate
      that is not a CA among them, is number `k`. */
  ghost predicate FirstStructural(problems: seq<Problem>, k: nat) {
    && k < |problems| && (Breaks(problems[k]) || problems[k].kind == NotCa)
    && forall j :: 0 <= j < k ==> !Breaks(problems[j]) && problems[j].kind != NotCa
  }

  /** A receipt's path gets exactly the failure its problems call for: the first
      structural one, then a missing anchor, a validity window, any other problem. */
  lemma ReceiptFailureMeans(outcome: PathOutcome, k: nat)
    ensures FirstStructural(outcome.problems, k) ==>
              ReceiptVerdict(outcome)
              == Err(Failure(UntrustedChain, match outcome.problems[k].kind case NotCa => IntermediateNotCa
                                                                           case TooLong => ChainTooLong
                                                                           case _ => NoPinnedRoot))
    ensures (forall j: nat :: !FirstStructural(outcome.problems, j)) ==>
              ReceiptVerdict(outcome)
              == if !outcome.anchored then Err(Failure(UntrustedChain, NoPinnedRoot))
                 else if exists d :: WindowAt(outcome.problems, d) then Err(Failure(InvalidCertificate, OutsideValidity))
                 else if outcome.problems != [] then Err(Failure(UntrustedChain, CriticalExtension))
                 else Ok(outcome.chain[..if outcome.chain == [] then 0 else |outcome.chain| - 1])
  {
    var problems := outcome.problems;
    forall p: Problem ensures IsStructural(p.kind) <==> Breaks(p) || p.kind == NotCa {
      StructuralMeans(p.kind);
    }
    FindFinds(problems, IsStructural);
    hide Find, IsStructural, StructuralFailure, Breaks;
    if FirstStructural(problems, k) {
      FindIsFirst(problems, IsStructural, k);
      StructuralMeans(problems[k].kind);
    }
    if forall j: nat :: !FirstStructural(problems, j) {
      NothingStructural(problems);
      SomeWindow(problems);
      hide WindowAt;
    }
  }

  lemma SomeWindow(problems: seq<Problem>)
    ensures (exists p :: p in problems && (p.kind.NotYetValid? || p.kind.Expired?)) <==> exists d :: WindowAt(problems, d)
  {
    if p :| p in problems && (p.kind.NotYetValid? || p.kind.Expired?) {
      assert p == Problem(p.depth, NotYetValid) || p == Problem(p.depth, Expired);
      assert WindowAt(problems, p.depth);
    }
    if d :| WindowAt(problems, d) {
      assert Problem(d, NotYetValid) in problems || Problem(d, Expired) in problems;
    }
  }

  lemma {:induction false} NothingStructural(problems: seq<Problem>)
    requires forall j: nat :: !FirstStructural(problems, j)
    ensures forall p :: p in problems ==> !Breaks(p) && p.kind != NotCa
  {
    hide Breaks;
    var j: nat := 0;
    while j < |problems|
      invariant j <= |problems|
      invariant forall i :: 0 <= i < j ==> !Breaks(problems[i]) && problems[i].kind != NotCa
    {
      assert !FirstStructural(problems, j);
      j := j + 1;
    }
  }

  /** `validate_pair`'s failures, all of them: the first link or key that fails, or
      the one the path's problems call for. */
  lemma ValidatePairFailures(
      lib: Library, leaf: Certificate, intermediate: Certificate, anchors: seq<Certificate>, atMillis: Int64, failure: Failure)
    ensures var outcome := CheckedPath(lib, leaf, [intermediate], anchors, atMillis);
            var rooted := exists a :: a in anchors && lib.issuedBy(intermediate, a);
            var linked := lib.issuedBy(leaf, intermediate);
            var usable := lib.usableKey(intermediate) && lib.usableKey(leaf);
            ValidatePair(lib, leaf, intermediate, anchors, atMillis) == Err(failure)
            <==> || (failure == Failure(UntrustedChain, NotIssuedByRoot) && !rooted)
                 || (failure == Failure(UntrustedChain, NotIssuedByIntermediate) && rooted && lib.usableKey(intermediate) && !linked)
                 || (failure == Failure(InvalidCertificate, UnusableKey) && rooted
                       && (!lib.usableKey(intermediate) || (linked && !lib.usableKey(leaf))))
                 || (rooted && linked && usable
                       && PairFailsWith(outcome.problems, OnPath(lib, leaf, intermediate, outcome), failure))
  {
    hide PairVerdict, PairFailsWith, OnPath, CheckedPath;
    PairFailureMeans(lib, leaf, intermediate, CheckedPath(lib, leaf, [intermediate], anchors, atMillis), failure);
  }

  lemma PairVerdictMeans(lib: Library, leaf: Certificate, intermediate: Certificate, outcome: PathOutcome)
    ensures PairVerdict(lib, leaf, intermediate, outcome).Ok?
            <==> (&& outcome.problems == [] && outcome.anchored && |outcome.chain| == 3
                  && lib.sameAs(outcome.chain[0], leaf) && lib.sameAs(outcome.chain[1], intermediate))
  {
    if outcome.problems == [] {
      FindFinds(outcome.problems, (k: ProblemKind) => IsStructural(k) && !k.NotCa?);
    }
  }

  lemma NoneLate(lib: Library, chain: seq<Certificate>, roundedUp: Int64)
    requires |chain| == 3
    ensures Late(lib, chain, 0, 2, roundedUp) == []
            <==> NotAfterAtLeast(lib, chain[0], roundedUp) && NotAfterAtLeast(lib, chain[1], roundedUp)
  {
    hide NotAfterAtLeast;
    LateMembers(lib, chain, 0, 2, roundedUp, Problem(0, Expired));
    LateMembers(lib, chain, 0, 2, roundedUp, Problem(1, Expired));
    var late := Late(lib, chain, 0, 2, roundedUp);
    if late != [] {
      LateMembers(lib, chain, 0, 2, roundedUp, late[0]);
    }
  }

  /** A pair that validates meets both its windows. */
  lemma ValidPairIsInWindow(lib: Library, leaf: Certificate, intermediate: Certificate, anchors: seq<Certificate>, atMillis: Int64)
    requires Asn1Times(lib)
    requires JudgesWindows(lib, lib.verifyPath(leaf, [intermediate], anchors, Seconds(atMillis).0), anchors, Seconds(atMillis).0)
    requires ValidatePair(lib, leaf, intermediate, anchors, atMillis).Ok?
    ensures var chain := lib.verifyPath(leaf, [intermediate], anchors, Seconds(atMillis).0).chain;
            && |chain| == 3
            && MeetsWindow(lib, anchors, chain[0], atMillis) && MeetsWindow(lib, anchors, chain[1], atMillis)
  {
    hide IsAnchor, MeetsWindow, JudgesWindows, Asn1Times, Late, NotAfterAtLeast, PairVerdict;
    ValidatePairMeans(lib, leaf, intermediate, anchors, atMillis);
    var outcome := CheckedPath(lib, leaf, [intermediate], anchors, atMillis);
    NoneLate(lib, outcome.chain, Seconds(atMillis).1);
    WindowsAreExact(lib, leaf, [intermediate], anchors, atMillis, 0);
    WindowsAreExact(lib, leaf, [intermediate], anchors, atMillis, 1);
  }
}
