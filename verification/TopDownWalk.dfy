/** The top-down certificate walk of `rust/src/path.rs`: which embedded
    certificates a pinned anchor vouched for, directly or through a certificate
    accepted the same way. Each round after the first tries only the previous
    round's acceptances as issuers. */
module TopDownWalk {
  import opened Foundation
  import opened OpenSsl

  predicate AnchorCopy(lib: Library, anchors: seq<Certificate>, c: Certificate) {
    exists a :: a in anchors && lib.sameAs(a, c)
  }

  predicate VouchedBy(lib: Library, c: Certificate, issuers: seq<Certificate>) {
    exists i :: i in issuers && lib.issuedBy(c, i)
  }

  predicate Rooted(lib: Library, anchors: seq<Certificate>, c: Certificate) {
    AnchorCopy(lib, anchors, c) || VouchedBy(lib, c, anchors)
  }

  // ---------------------------------------------------------------------
  // Reference: reachability along chains of issued certificates.

  /** A chain of embedded certificates, each issued by the one before it, whose
      first is an anchor copy or issued by an anchor. */
  ghost predicate VouchPath(lib: Library, bag: seq<Certificate>, anchors: seq<Certificate>, path: seq<Certificate>) {
    && path != []
    && path[|path| - 1] in bag
    && if |path| == 1 then Rooted(lib, anchors, path[0])
       else lib.issuedBy(path[|path| - 1], path[|path| - 2])
            && VouchPath(lib, bag, anchors, path[..|path| - 1])
  }

  ghost predicate Reachable(lib: Library, bag: seq<Certificate>, anchors: seq<Certificate>, c: Certificate) {
    exists path :: VouchPath(lib, bag, anchors, path) && path[|path| - 1] == c
  }

  lemma ReachableRoot(lib: Library, bag: seq<Certificate>, anchors: seq<Certificate>, c: Certificate)
    requires c in bag && Rooted(lib, anchors, c)
    ensures Reachable(lib, bag, anchors, c)
  {
    assert VouchPath(lib, bag, anchors, [c]);
  }

  lemma ReachableStep(lib: Library, bag: seq<Certificate>, anchors: seq<Certificate>, c: Certificate, issuer: Certificate)
    requires c in bag && lib.issuedBy(c, issuer) && Reachable(lib, bag, anchors, issuer)
    ensures Reachable(lib, bag, anchors, c)
  {
    var path :| VouchPath(lib, bag, anchors, path) && path[|path| - 1] == issuer;
    assert (path + [c])[..|path|] == path;
    assert VouchPath(lib, bag, anchors, path + [c]);
  }

  /** A set of certificates that holds every rooted embedded certificate and
      everything its members issued holds every reachable one. */
  lemma {:induction false} ClosedHoldsPath(
      lib: Library, bag: seq<Certificate>, anchors: seq<Certificate>, held: seq<Certificate>, path: seq<Certificate>)
    requires VouchPath(lib, bag, anchors, path)
    requires forall c :: c in bag && (Rooted(lib, anchors, c) || VouchedBy(lib, c, held)) ==> c in held
    ensures path[|path| - 1] in held
  {
    if |path| > 1 {
      ClosedHoldsPath(lib, bag, anchors, held, path[..|path| - 1]);
    }
  }

  /** Reachability depends only on which certificates the bag holds, and grows with it. */
  lemma {:induction false} PathInLargerBag(
      lib: Library, bag: seq<Certificate>, larger: seq<Certificate>, anchors: seq<Certificate>, path: seq<Certificate>)
    requires VouchPath(lib, bag, anchors, path)
    requires forall c :: c in path && Reachable(lib, bag, anchors, c) ==> c in larger
    ensures VouchPath(lib, larger, anchors, path)
  {
    var c := path[|path| - 1];
    assert c in path;
    assert Reachable(lib, bag, anchors, c);
    if |path| > 1 {
      assert forall d :: d in path[..|path| - 1] ==> d in path;
      PathInLargerBag(lib, bag, larger, anchors, path[..|path| - 1]);
    }
  }

  lemma ReachableInLargerBag(
      lib: Library, bag: seq<Certificate>, larger: seq<Certificate>, anchors: seq<Certificate>, c: Certificate)
    requires Reachable(lib, bag, anchors, c)
    requires forall d :: Reachable(lib, bag, anchors, d) ==> d in larger
    ensures Reachable(lib, larger, anchors, c)
  {
    var path :| VouchPath(lib, bag, anchors, path) && path[|path| - 1] == c;
    PathInLargerBag(lib, bag, larger, anchors, path);
  }

  // ---------------------------------------------------------------------
  // The walk as a function of the bag.

  /** The rounds after the anchor copies were set aside: each accepts what the
      current issuers vouched for, and only those become the next issuers. */
  function Rounds(lib: Library, issuers: seq<Certificate>, pending: seq<Certificate>): seq<Certificate>
    decreases |pending|
  {
    var round := Keep(pending, c => VouchedBy(lib, c, issuers));
    var rest := Keep(pending, c => !VouchedBy(lib, c, issuers));
    if round == [] then []
    else
      RestIsShorter(lib, issuers, pending);
      round + Rounds(lib, round, rest)
  }

  function Walk(lib: Library, bag: seq<Certificate>, anchors: seq<Certificate>): seq<Certificate> {
    var copies := Keep(bag, c => AnchorCopy(lib, anchors, c));
    copies + Rounds(lib, anchors + copies, Keep(bag, c => !AnchorCopy(lib, anchors, c)))
  }

  lemma KeepSplits(s: seq<Certificate>, p: Certificate -> bool, q: Certificate -> bool)
    requires forall x :: q(x) == !p(x)
    ensures |Keep(s, p)| + |Keep(s, q)| == |s|
  {
    if s != [] {
      KeepSplits(s[1..], p, q);
    }
  }

  lemma RestIsShorter(lib: Library, issuers: seq<Certificate>, pending: seq<Certificate>)
    ensures |Keep(pending, c => VouchedBy(lib, c, issuers))| + |Keep(pending, c => !VouchedBy(lib, c, issuers))| == |pending|
  {
    KeepSplits(pending, c => VouchedBy(lib, c, issuers), c => !VouchedBy(lib, c, issuers));
  }

  /** What holds between rounds: `accepted` is what the walk accepted so far, and
      no pending certificate was issued by an anchor or an accepted certificate
      that is not among the current issuers. */
  ghost predicate Between(
    lib: Library, bag: seq<Certificate>, anchors: seq<Certificate>,
    accepted: seq<Certificate>, issuers: seq<Certificate>, pending: seq<Certificate>)
  {
    && (forall c :: c in accepted ==> c in bag && Reachable(lib, bag, anchors, c))
    && (forall c :: c in bag ==> c in accepted || c in pending)
    && (forall c :: c in pending ==> c in bag && !AnchorCopy(lib, anchors, c))
    && (forall i :: i in issuers ==> i in anchors || i in accepted)
    && (forall c, i :: c in pending && (i in anchors || i in accepted) && i !in issuers ==> !lib.issuedBy(c, i))
  }

  lemma RoundIsReachable(
      lib: Library, bag: seq<Certificate>, anchors: seq<Certificate>,
      accepted: seq<Certificate>, issuers: seq<Certificate>, pending: seq<Certificate>, c: Certificate)
    requires Between(lib, bag, anchors, accepted, issuers, pending)
    requires c in pending && VouchedBy(lib, c, issuers)
    ensures Reachable(lib, bag, anchors, c)
  {
    var i :| i in issuers && lib.issuedBy(c, i);
    if i in anchors {
      ReachableRoot(lib, bag, anchors, c);
    } else {
      ReachableStep(lib, bag, anchors, c, i);
    }
  }

  /** A round that accepts nothing proves the rest unreachable. */
  lemma EmptyRoundIsFinal(
      lib: Library, bag: seq<Certificate>, anchors: seq<Certificate>,
      accepted: seq<Certificate>, issuers: seq<Certificate>, pending: seq<Certificate>, c: Certificate)
    requires Between(lib, bag, anchors, accepted, issuers, pending)
    requires forall d :: d in pending ==> !VouchedBy(lib, d, issuers)
    requires c in pending
    ensures !Reachable(lib, bag, anchors, c)
  {
    forall d | d in bag && (Rooted(lib, anchors, d) || VouchedBy(lib, d, accepted))
      ensures d in accepted && d !in pending
    {
    }
    if Reachable(lib, bag, anchors, c) {
      var path :| VouchPath(lib, bag, anchors, path) && path[|path| - 1] == c;
      if |path| > 1 {
        ClosedHoldsPath(lib, bag, anchors, accepted, path[..|path| - 1]);
      }
    }
  }

  lemma BetweenNextRound(
      lib: Library, bag: seq<Certificate>, anchors: seq<Certificate>,
      accepted: seq<Certificate>, issuers: seq<Certificate>, pending: seq<Certificate>)
    requires Between(lib, bag, anchors, accepted, issuers, pending)
    ensures var round := Keep(pending, c => VouchedBy(lib, c, issuers));
            var rest := Keep(pending, c => !VouchedBy(lib, c, issuers));
            Between(lib, bag, anchors, accepted + round, round, rest)
  {
    var round := Keep(pending, c => VouchedBy(lib, c, issuers));
    var rest := Keep(pending, c => !VouchedBy(lib, c, issuers));
    KeepMembers(pending, c => VouchedBy(lib, c, issuers));
    KeepMembers(pending, c => !VouchedBy(lib, c, issuers));
    forall c | c in round ensures Reachable(lib, bag, anchors, c) {
      RoundIsReachable(lib, bag, anchors, accepted, issuers, pending, c);
    }
    forall c, i | c in rest && (i in anchors || i in accepted + round) && i !in round ensures !lib.issuedBy(c, i) {
      if lib.issuedBy(c, i) {
        assert i in issuers ==> VouchedBy(lib, c, issuers);
      }
    }
  }

  lemma BetweenStart(lib: Library, bag: seq<Certificate>, anchors: seq<Certificate>)
    ensures var copies := Keep(bag, c => AnchorCopy(lib, anchors, c));
            Between(lib, bag, anchors, copies, anchors + copies, Keep(bag, c => !AnchorCopy(lib, anchors, c)))
  {
    var copies := Keep(bag, c => AnchorCopy(lib, anchors, c));
    KeepMembers(bag, c => AnchorCopy(lib, anchors, c));
    KeepMembers(bag, c => !AnchorCopy(lib, anchors, c));
    forall c | c in copies ensures Reachable(lib, bag, anchors, c) {
      ReachableRoot(lib, bag, anchors, c);
    }
  }

  /** From any point between rounds, the remaining rounds accept exactly the
      pending certificates that are reachable, each as often as it is pending. */
  lemma {:induction false} RoundsExact(
      lib: Library, bag: seq<Certificate>, anchors: seq<Certificate>,
      accepted: seq<Certificate>, issuers: seq<Certificate>, pending: seq<Certificate>, x: Certificate)
    requires Between(lib, bag, anchors, accepted, issuers, pending)
    ensures multiset(Rounds(lib, issuers, pending))[x]
         == if Reachable(lib, bag, anchors, x) then multiset(pending)[x] else 0
    decreases |pending|
  {
    var vouched := (c: Certificate) => VouchedBy(lib, c, issuers);
    var unvouched := (c: Certificate) => !VouchedBy(lib, c, issuers);
    var round, rest := Keep(pending, vouched), Keep(pending, unvouched);
    KeepMembers(pending, vouched);
    KeepMultiset(pending, vouched, x);
    KeepMultiset(pending, unvouched, x);
    if round == [] {
      if x in pending {
        EmptyRoundIsFinal(lib, bag, anchors, accepted, issuers, pending, x);
      }
    } else {
      RestIsShorter(lib, issuers, pending);
      BetweenNextRound(lib, bag, anchors, accepted, issuers, pending);
      RoundsExact(lib, bag, anchors, accepted + round, round, rest, x);
      if x in round {
        RoundIsReachable(lib, bag, anchors, accepted, issuers, pending, x);
      }
    }
  }

  /** The walk accepts exactly the reachable certificates of the bag, each as
      often as the bag holds it. */
  lemma WalkExact(lib: Library, bag: seq<Certificate>, anchors: seq<Certificate>, x: Certificate)
    ensures multiset(Walk(lib, bag, anchors))[x]
         == if Reachable(lib, bag, anchors, x) then multiset(bag)[x] else 0
  {
    var isCopy := (c: Certificate) => AnchorCopy(lib, anchors, c);
    var notCopy := (c: Certificate) => !AnchorCopy(lib, anchors, c);
    var copies, pending := Keep(bag, isCopy), Keep(bag, notCopy);
    BetweenStart(lib, bag, anchors);
    RoundsExact(lib, bag, anchors, copies, anchors + copies, pending, x);
    KeepMultiset(bag, isCopy, x);
    KeepMultiset(bag, notCopy, x);
    if x in bag && AnchorCopy(lib, anchors, x) {
      ReachableRoot(lib, bag, anchors, x);
    }
  }

  lemma WalkMembers(lib: Library, bag: seq<Certificate>, anchors: seq<Certificate>, x: Certificate)
    ensures x in Walk(lib, bag, anchors) <==> Reachable(lib, bag, anchors, x)
  {
    WalkExact(lib, bag, anchors, x);
    var accepted := Walk(lib, bag, anchors);
    assert x in accepted <==> multiset(accepted)[x] > 0;
    assert x in bag <==> multiset(bag)[x] > 0;
  }

  /** Accepted are exactly the embedded certificates that are the same as an anchor,
      or that an anchor or an accepted certificate issued. */
  lemma WalkIsClosed(lib: Library, bag: seq<Certificate>, anchors: seq<Certificate>, c: Certificate)
    ensures var accepted := Walk(lib, bag, anchors);
            c in accepted <==>
              && c in bag
              && (|| (exists a :: a in anchors && (lib.sameAs(a, c) || lib.issuedBy(c, a)))
                  || (exists i :: i in accepted && lib.issuedBy(c, i)))
  {
    hide Walk;
    var accepted := Walk(lib, bag, anchors);
    WalkMembers(lib, bag, anchors, c);
    if c in accepted {
      var path :| VouchPath(lib, bag, anchors, path) && path[|path| - 1] == c;
      if |path| > 1 {
        var above := path[..|path| - 1];
        assert Reachable(lib, bag, anchors, above[|above| - 1]);
        WalkMembers(lib, bag, anchors, above[|above| - 1]);
      }
    }
    if c in bag {
      if a :| a in anchors && (lib.sameAs(a, c) || lib.issuedBy(c, a)) {
        ReachableRoot(lib, bag, anchors, c);
      }
      if i :| i in accepted && lib.issuedBy(c, i) {
        WalkMembers(lib, bag, anchors, i);
        ReachableStep(lib, bag, anchors, c, i);
      }
    }
  }

  // ---------------------------------------------------------------------
  // The bag's order and its strangers.

  lemma ReachableInPermutation(
      lib: Library, bag: seq<Certificate>, other: seq<Certificate>, anchors: seq<Certificate>, c: Certificate)
    requires multiset(bag) == multiset(other)
    requires Reachable(lib, bag, anchors, c)
    ensures Reachable(lib, other, anchors, c)
  {
    forall d | Reachable(lib, bag, anchors, d) ensures d in other {
      assert d in multiset(bag);
    }
    ReachableInLargerBag(lib, bag, other, anchors, c);
  }

  /** Permuting the bag permutes what is accepted. */
  lemma WalkOfPermutation(lib: Library, bag: seq<Certificate>, other: seq<Certificate>, anchors: seq<Certificate>)
    requires multiset(bag) == multiset(other)
    ensures multiset(Walk(lib, bag, anchors)) == multiset(Walk(lib, other, anchors))
  {
    forall x ensures multiset(Walk(lib, bag, anchors))[x] == multiset(Walk(lib, other, anchors))[x] {
      WalkExact(lib, bag, anchors, x);
      WalkExact(lib, other, anchors, x);
      if Reachable(lib, bag, anchors, x) {
        ReachableInPermutation(lib, bag, other, anchors, x);
      }
      if Reachable(lib, other, anchors, x) {
        ReachableInPermutation(lib, other, bag, anchors, x);
      }
    }
  }

  /** What is left of `bag` when only the positions `kept` marks stay. */
  function Masked(bag: seq<Certificate>, kept: seq<bool>): seq<Certificate>
    requires |kept| == |bag|
  {
    if bag == [] then []
    else (if kept[0] then [bag[0]] else []) + Masked(bag[1..], kept[1..])
  }

  lemma {:induction false} MaskedMembers(bag: seq<Certificate>, kept: seq<bool>)
    requires |kept| == |bag|
    ensures forall c :: c in Masked(bag, kept) ==> c in bag
    ensures forall i :: 0 <= i < |bag| && kept[i] ==> bag[i] in Masked(bag, kept)
  {
    if bag != [] {
      MaskedMembers(bag[1..], kept[1..]);
      forall i | 0 <= i < |bag| && kept[i] ensures bag[i] in Masked(bag, kept) {
        if i > 0 {
          assert bag[i] == bag[1..][i - 1] && kept[i] == kept[1..][i - 1];
        }
      }
    }
  }

  lemma {:induction false} MaskedKeep(bag: seq<Certificate>, kept: seq<bool>, p: Certificate -> bool)
    requires |kept| == |bag|
    requires forall i :: 0 <= i < |bag| && !kept[i] ==> !p(bag[i])
    ensures Keep(Masked(bag, kept), p) == Keep(bag, p)
  {
    if bag != [] {
      forall i | 0 <= i < |bag| - 1 && !kept[1..][i] ensures !p(bag[1..][i]) {
        assert !kept[i + 1];
      }
      MaskedKeep(bag[1..], kept[1..], p);
      if kept[0] {
        KeepAppend([bag[0]], Masked(bag[1..], kept[1..]), p);
      } else {
        assert [] + Masked(bag[1..], kept[1..]) == Masked(bag[1..], kept[1..]);
      }
    }
  }

  /** Dropping from the pending certificates only ones outside `wanted`, a set
      that holds whatever the walk can still accept, changes no round. */
  lemma {:induction false} RoundsIgnoreOthers(
      lib: Library, issuers: seq<Certificate>, pending: seq<Certificate>, wanted: Certificate -> bool)
    requires forall c :: c in pending && VouchedBy(lib, c, issuers) ==> wanted(c)
    requires forall c, i :: c in pending && i in pending && wanted(i) && lib.issuedBy(c, i) ==> wanted(c)
    ensures Rounds(lib, issuers, pending) == Rounds(lib, issuers, Keep(pending, wanted))
    decreases |pending|
  {
    var vouched := (c: Certificate) => VouchedBy(lib, c, issuers);
    var unvouched := (c: Certificate) => !VouchedBy(lib, c, issuers);
    var wantedRest := (c: Certificate) => wanted(c) && !VouchedBy(lib, c, issuers);
    var fewer := Keep(pending, wanted);
    var round, rest := Keep(pending, vouched), Keep(pending, unvouched);
    assert Keep(fewer, vouched) == round by { KeepTwice(pending, wanted, vouched, vouched); }
    assert Keep(fewer, unvouched) == Keep(rest, wanted) by {
      KeepTwice(pending, wanted, unvouched, wantedRest);
      KeepTwice(pending, unvouched, wanted, wantedRest);
    }
    if round != [] {
      RestIsShorter(lib, issuers, pending);
      KeepMembers(pending, vouched);
      KeepMembers(pending, unvouched);
      forall c | c in rest && VouchedBy(lib, c, round) ensures wanted(c) {
        var i :| i in round && lib.issuedBy(c, i);
        assert i in pending && wanted(i);
      }
      RoundsIgnoreOthers(lib, round, rest, wanted);
    }
  }

  /** The walk of a bag is the walk of its reachable certificates alone. */
  lemma WalkIgnoresOthers(lib: Library, bag: seq<Certificate>, anchors: seq<Certificate>, wanted: Certificate -> bool)
    requires forall c :: c in bag ==> wanted(c) == Reachable(lib, bag, anchors, c)
    ensures Walk(lib, bag, anchors) == Walk(lib, Keep(bag, wanted), anchors)
  {
    var isCopy := (c: Certificate) => AnchorCopy(lib, anchors, c);
    var notCopy := (c: Certificate) => !AnchorCopy(lib, anchors, c);
    var wantedNotCopy := (c: Certificate) => wanted(c) && !AnchorCopy(lib, anchors, c);
    var fewer := Keep(bag, wanted);
    var copies, pending := Keep(bag, isCopy), Keep(bag, notCopy);
    forall c | c in bag && AnchorCopy(lib, anchors, c) ensures wanted(c) {
      ReachableRoot(lib, bag, anchors, c);
    }
    assert Keep(fewer, isCopy) == copies by { KeepTwice(bag, wanted, isCopy, isCopy); }
    assert Keep(fewer, notCopy) == Keep(pending, wanted) by {
      KeepTwice(bag, wanted, notCopy, wantedNotCopy);
      KeepTwice(bag, notCopy, wanted, wantedNotCopy);
    }
    BetweenStart(lib, bag, anchors);
    KeepMembers(bag, notCopy);
    forall c | c in pending && VouchedBy(lib, c, anchors + copies) ensures wanted(c) {
      RoundIsReachable(lib, bag, anchors, copies, anchors + copies, pending, c);
    }
    forall c, i | c in pending && i in pending && wanted(i) && lib.issuedBy(c, i) ensures wanted(c) {
      ReachableStep(lib, bag, anchors, c, i);
    }
    RoundsIgnoreOthers(lib, anchors + copies, pending, wanted);
  }

  /** Padding a bag with strangers, at any positions, changes nothing: when only
      certificates unreachable in the padded bag are taken out, the accepted
      sequence is identical, order included. */
  lemma PaddingChangesNothing(lib: Library, padded: seq<Certificate>, kept: seq<bool>, anchors: seq<Certificate>)
    requires |kept| == |padded|
    requires forall i :: 0 <= i < |padded| && !kept[i] ==> !Reachable(lib, padded, anchors, padded[i])
    ensures Walk(lib, Masked(padded, kept), anchors) == Walk(lib, padded, anchors)
  {
    var bag := Masked(padded, kept);
    var accepted := Walk(lib, padded, anchors);
    var wanted := (c: Certificate) => c in accepted;
    forall c ensures wanted(c) == Reachable(lib, padded, anchors, c) {
      WalkMembers(lib, padded, anchors, c);
    }
    MaskedMembers(padded, kept);
    forall c | Reachable(lib, padded, anchors, c) ensures c in bag {
      assert c in padded;
      var i :| 0 <= i < |padded| && padded[i] == c;
      assert kept[i];
    }
    forall c | c in bag ensures wanted(c) == Reachable(lib, bag, anchors, c) {
      if Reachable(lib, padded, anchors, c) {
        ReachableInLargerBag(lib, padded, bag, anchors, c);
      }
      if Reachable(lib, bag, anchors, c) {
        ReachableInLargerBag(lib, bag, padded, anchors, c);
      }
    }
    WalkIgnoresOthers(lib, bag, anchors, wanted);
    WalkIgnoresOthers(lib, padded, anchors, wanted);
    MaskedKeep(padded, kept, wanted);
  }

  // ---------------------------------------------------------------------
  // The walk as the core runs it, with a record of every key it used.

  /** Whose key an issuing test used: an anchor's, or an embedded certificate's. */
  datatype Key = AnchorKey(anchor: nat) | BagKey(position: nat)

  /** One test of whether `key`'s owner issued the embedded certificate at `candidate`. */
  datatype KeyTest = KeyTest(candidate: nat, key: Key, vouched: bool)

  /** A key an anchor vouched for by the time `log` was written. */
  ghost predicate Justified(
    lib: Library, bag: seq<Certificate>, anchors: seq<Certificate>, log: seq<KeyTest>, key: Key)
  {
    match key
    case AnchorKey(a) => a < |anchors|
    case BagKey(p) =>
      p < |bag| && (AnchorCopy(lib, anchors, bag[p]) || exists t :: t in log && t.candidate == p && t.vouched)
  }

  ghost predicate SafeLog(lib: Library, bag: seq<Certificate>, anchors: seq<Certificate>, log: seq<KeyTest>) {
    forall k :: 0 <= k < |log| ==> Justified(lib, bag, anchors, log[..k], log[k].key)
  }

  /** No candidate is tested twice against one key. */
  ghost predicate TestedOnce(log: seq<KeyTest>) {
    forall j, k :: 0 <= j < k < |log| ==> log[j].candidate != log[k].candidate || log[j].key != log[k].key
  }

  predicate InBag(bag: seq<Certificate>, positions: seq<nat>) {
    forall k :: 0 <= k < |positions| ==> positions[k] < |bag|
  }

  function At(bag: seq<Certificate>, positions: seq<nat>): (certificates: seq<Certificate>)
    requires InBag(bag, positions)
    ensures |certificates| == |positions|
  {
    seq(|positions|, k requires 0 <= k < |positions| => bag[positions[k]])
  }

  predicate Names(bag: seq<Certificate>, anchors: seq<Certificate>, key: Key) {
    match key case AnchorKey(a) => a < |anchors| case BagKey(p) => p < |bag|
  }

  function Owner(bag: seq<Certificate>, anchors: seq<Certificate>, key: Key): Certificate
    requires Names(bag, anchors, key)
  {
    match key case AnchorKey(a) => anchors[a] case BagKey(p) => bag[p]
  }

  /** The keys are those of the certificates in `issuers`, in order. */
  ghost predicate KeysOf(bag: seq<Certificate>, anchors: seq<Certificate>, issuers: seq<Certificate>, keys: seq<Key>) {
    && |keys| == |issuers|
    && forall k :: 0 <= k < |keys| ==> Names(bag, anchors, keys[k]) && Owner(bag, anchors, keys[k]) == issuers[k]
  }

  /** The record says what was asked and what OpenSSL answered. */
  ghost predicate Truthful(lib: Library, bag: seq<Certificate>, anchors: seq<Certificate>, t: KeyTest) {
    && t.candidate < |bag| && Names(bag, anchors, t.key)
    && t.vouched == lib.issuedBy(bag[t.candidate], Owner(bag, anchors, t.key))
  }

  /** The tests of one candidate: the issuers in order, up to the first that issued it. */
  ghost function CandidateTests(
      lib: Library, bag: seq<Certificate>, candidate: nat, issuers: seq<Certificate>, keys: seq<Key>): seq<KeyTest>
    requires candidate < |bag| && |keys| == |issuers|
  {
    if issuers == [] then []
    else
      var issued := lib.issuedBy(bag[candidate], issuers[0]);
      [KeyTest(candidate, keys[0], issued)]
      + (if issued then [] else CandidateTests(lib, bag, candidate, issuers[1..], keys[1..]))
  }

  ghost function RoundTests(
      lib: Library, bag: seq<Certificate>, pending: seq<nat>, issuers: seq<Certificate>, keys: seq<Key>): seq<KeyTest>
    requires InBag(bag, pending) && |keys| == |issuers|
  {
    if pending == [] then []
    else CandidateTests(lib, bag, pending[0], issuers, keys) + RoundTests(lib, bag, pending[1..], issuers, keys)
  }

  lemma {:induction false} CandidateTestsFacts(
      lib: Library, bag: seq<Certificate>, anchors: seq<Certificate>,
      candidate: nat, issuers: seq<Certificate>, keys: seq<Key>)
    requires candidate < |bag| && KeysOf(bag, anchors, issuers, keys) && Distinct(keys)
    ensures var tests := CandidateTests(lib, bag, candidate, issuers, keys);
            && (forall t :: t in tests ==> t.candidate == candidate && t.key in keys && Truthful(lib, bag, anchors, t))
            && TestedOnce(tests)
            && (VouchedBy(lib, bag[candidate], issuers) ==> exists t :: t in tests && t.candidate == candidate && t.vouched)
  {
    if issuers != [] {
      var head := KeyTest(candidate, keys[0], lib.issuedBy(bag[candidate], issuers[0]));
      var tail := CandidateTests(lib, bag, candidate, issuers[1..], keys[1..]);
      CandidateTestsFacts(lib, bag, anchors, candidate, issuers[1..], keys[1..]);
      assert keys[0] !in keys[1..];
      assert CandidateTests(lib, bag, candidate, issuers, keys)[0] == head;
      assert !head.vouched && VouchedBy(lib, bag[candidate], issuers) ==> VouchedBy(lib, bag[candidate], issuers[1..]);
    }
  }

  /** One round's tests: of pending candidates against current keys, none
      repeated, and one that passed for each certificate accepted. */
  lemma {:induction false} RoundTestsFacts(
      lib: Library, bag: seq<Certificate>, anchors: seq<Certificate>,
      pending: seq<nat>, issuers: seq<Certificate>, keys: seq<Key>)
    requires InBag(bag, pending) && Distinct(pending) && KeysOf(bag, anchors, issuers, keys) && Distinct(keys)
    ensures var tests := RoundTests(lib, bag, pending, issuers, keys);
            && (forall t :: t in tests ==> t.candidate in pending && t.key in keys && Truthful(lib, bag, anchors, t))
            && TestedOnce(tests)
            && (forall k :: 0 <= k < |pending| && VouchedBy(lib, bag[pending[k]], issuers)
                  ==> exists t :: t in tests && t.candidate == pending[k] && t.vouched)
  {
    if pending != [] {
      var first := CandidateTests(lib, bag, pending[0], issuers, keys);
      var others := RoundTests(lib, bag, pending[1..], issuers, keys);
      CandidateTestsFacts(lib, bag, anchors, pending[0], issuers, keys);
      RoundTestsFacts(lib, bag, anchors, pending[1..], issuers, keys);
      TestedOnceAppend(first, others);
      forall k | 0 <= k < |pending| && VouchedBy(lib, bag[pending[k]], issuers)
        ensures exists t: KeyTest :: t in first + others && t.candidate == pending[k] && t.vouched
      {
        if k == 0 {
          var t :| t in first && t.candidate == pending[0] && t.vouched;
          assert t in first + others;
        } else {
          var t :| t in others && t.candidate == pending[1..][k - 1] && t.vouched;
          assert t in first + others;
        }
      }
    }
  }

  lemma TestedOnceAppend(log: seq<KeyTest>, tests: seq<KeyTest>)
    requires TestedOnce(log) && TestedOnce(tests)
    requires forall t, u :: t in log && u in tests ==> t.candidate != u.candidate || t.key != u.key
    ensures TestedOnce(log + tests)
  {
    var all := log + tests;
    forall j, k | 0 <= j < k < |all| ensures all[j].candidate != all[k].candidate || all[j].key != all[k].key {
      if j < |log| && |log| <= k {
        assert all[j] in log && all[k] in tests;
      }
    }
  }

  lemma {:induction false} RoundTestsAppend(
      lib: Library, bag: seq<Certificate>, pending: seq<nat>, last: nat, issuers: seq<Certificate>, keys: seq<Key>)
    requires InBag(bag, pending) && last < |bag| && |keys| == |issuers|
    ensures RoundTests(lib, bag, pending + [last], issuers, keys)
         == RoundTests(lib, bag, pending, issuers, keys) + CandidateTests(lib, bag, last, issuers, keys)
  {
    hide CandidateTests, RoundTests;
    if pending == [] {
      assert pending + [last] == [last] + [];
      RoundTestsCons(lib, bag, last, [], issuers, keys);
      RoundTestsOfNone(lib, bag, issuers, keys);
    } else {
      var first, rest := pending[0], pending[1..];
      assert pending == [first] + rest && pending + [last] == [first] + (rest + [last]);
      RoundTestsAppend(lib, bag, rest, last, issuers, keys);
      RoundTestsCons(lib, bag, first, rest, issuers, keys);
      RoundTestsCons(lib, bag, first, rest + [last], issuers, keys);
    }
  }

  lemma RoundTestsCons(
      lib: Library, bag: seq<Certificate>, first: nat, rest: seq<nat>, issuers: seq<Certificate>, keys: seq<Key>)
    requires InBag(bag, rest) && first < |bag| && |keys| == |issuers|
    ensures InBag(bag, [first] + rest)
    ensures RoundTests(lib, bag, [first] + rest, issuers, keys)
         == CandidateTests(lib, bag, first, issuers, keys) + RoundTests(lib, bag, rest, issuers, keys)
  {
    hide CandidateTests;
    assert ([first] + rest)[1..] == rest;
  }

  lemma RoundTestsOfNone(lib: Library, bag: seq<Certificate>, issuers: seq<Certificate>, keys: seq<Key>)
    requires |keys| == |issuers|
    ensures RoundTests(lib, bag, [], issuers, keys) == []
  {
  }

  /** Tries the issuers in order until one issued the candidate. */
  method AnyIssuer(lib: Library, bag: seq<Certificate>, candidate: nat, issuers: seq<Certificate>, ghost keys: seq<Key>)
    returns (vouched: bool, ghost tests: seq<KeyTest>)
    requires candidate < |bag| && |keys| == |issuers|
    ensures vouched == VouchedBy(lib, bag[candidate], issuers)
    ensures tests == CandidateTests(lib, bag, candidate, issuers, keys)
  {
    hide CandidateTests;
    tests := [];
    assert issuers[0..] == issuers && keys[0..] == keys;
    for k := 0 to |issuers|
      invariant forall j :: 0 <= j < k ==> !lib.issuedBy(bag[candidate], issuers[j])
      invariant CandidateTests(lib, bag, candidate, issuers, keys)
             == tests + CandidateTests(lib, bag, candidate, issuers[k..], keys[k..])
    {
      var issued := lib.issuedBy(bag[candidate], issuers[k]);
      NextTest(lib, bag, candidate, issuers, keys, k);
      tests := tests + [KeyTest(candidate, keys[k], issued)];
      if issued {
        return true, tests;
      }
    }
    NoTests(lib, bag, candidate);
    return false, tests;
  }

  /** The tests from issuer number `k` on. */
  lemma NextTest(lib: Library, bag: seq<Certificate>, candidate: nat, issuers: seq<Certificate>, keys: seq<Key>, k: nat)
    requires candidate < |bag| && |keys| == |issuers| && k < |issuers|
    ensures var issued := lib.issuedBy(bag[candidate], issuers[k]);
            CandidateTests(lib, bag, candidate, issuers[k..], keys[k..])
            == [KeyTest(candidate, keys[k], issued)]
               + (if issued then [] else CandidateTests(lib, bag, candidate, issuers[k + 1..], keys[k + 1..]))
  {
    assert issuers[k..][1..] == issuers[k + 1..] && keys[k..][1..] == keys[k + 1..];
  }

  lemma NoTests(lib: Library, bag: seq<Certificate>, candidate: nat)
    requires candidate < |bag|
    ensures CandidateTests(lib, bag, candidate, [], []) == []
  {
  }

  /** Whether the certificate at a position satisfies `q`. */
  function Holding(bag: seq<Certificate>, q: Certificate -> bool): nat -> bool {
    (p: nat) => p < |bag| && q(bag[p])
  }

  /** The pending positions the issuers vouched for, and the others, in order. */
  function RoundOf(lib: Library, bag: seq<Certificate>, issuers: seq<Certificate>, pending: seq<nat>): seq<nat> {
    Keep(pending, Holding(bag, c => VouchedBy(lib, c, issuers)))
  }

  function RestOf(lib: Library, bag: seq<Certificate>, issuers: seq<Certificate>, pending: seq<nat>): seq<nat> {
    Keep(pending, Holding(bag, c => !VouchedBy(lib, c, issuers)))
  }

  /** The closure `retain` runs over the pending certificates: the ones the
      issuers vouched for move to this round, the others stay, in order. */
  method RetainUnvouched(
      lib: Library, bag: seq<Certificate>, issuers: seq<Certificate>, ghost keys: seq<Key>, pending: seq<nat>)
    returns (thisRound: seq<Certificate>, kept: seq<nat>, ghost round: seq<nat>, ghost tests: seq<KeyTest>)
    requires InBag(bag, pending) && |keys| == |issuers|
    ensures kept == RestOf(lib, bag, issuers, pending)
    ensures round == RoundOf(lib, bag, issuers, pending)
    ensures InBag(bag, round) && thisRound == At(bag, round)
    ensures tests == RoundTests(lib, bag, pending, issuers, keys)
  {
    hide VouchedBy, CandidateTests, Keep;
    thisRound, kept, round, tests := [], [], [], [];
    var isVouched := Holding(bag, c => VouchedBy(lib, c, issuers));
    var notVouched := Holding(bag, c => !VouchedBy(lib, c, issuers));
    KeepEmpty<nat>(isVouched);
    KeepEmpty<nat>(notVouched);
    for k := 0 to |pending|
      invariant kept == Keep(pending[..k], notVouched)
      invariant round == Keep(pending[..k], isVouched)
      invariant InBag(bag, round) && thisRound == At(bag, round)
      invariant tests == RoundTests(lib, bag, pending[..k], issuers, keys)
    {
      var candidate := pending[k];
      assert pending[..k + 1] == pending[..k] + [candidate];
      KeepAppend(pending[..k], [candidate], notVouched);
      KeepAppend(pending[..k], [candidate], isVouched);
      KeepOne(candidate, notVouched);
      KeepOne(candidate, isVouched);
      RoundTestsAppend(lib, bag, pending[..k], candidate, issuers, keys);
      var vouched, more := AnyIssuer(lib, bag, candidate, issuers, keys);
      tests := tests + more;
      if vouched {
        thisRound, round := thisRound + [bag[candidate]], round + [candidate];
      } else {
        kept := kept + [candidate];
      }
    }
    assert pending[..|pending|] == pending;
  }

  /** Selecting positions and then reading them is reading and then selecting. */
  lemma {:induction false} AtKeep(bag: seq<Certificate>, positions: seq<nat>, q: Certificate -> bool)
    requires InBag(bag, positions)
    ensures var selected := Keep(positions, Holding(bag, q));
            InBag(bag, selected) && At(bag, selected) == Keep(At(bag, positions), q)
  {
    if positions != [] {
      AtKeep(bag, positions[1..], q);
      assert At(bag, positions)[1..] == At(bag, positions[1..]);
    }
  }

  lemma JustifiedGrows(
      lib: Library, bag: seq<Certificate>, anchors: seq<Certificate>, log: seq<KeyTest>, more: seq<KeyTest>, key: Key)
    requires Justified(lib, bag, anchors, log, key)
    ensures Justified(lib, bag, anchors, log + more, key)
  {
    if key.BagKey? && !AnchorCopy(lib, anchors, bag[key.position]) {
      var t :| t in log && t.candidate == key.position && t.vouched;
      assert t in log + more;
    }
  }

  lemma SafeLogAppend(
      lib: Library, bag: seq<Certificate>, anchors: seq<Certificate>, log: seq<KeyTest>, more: seq<KeyTest>)
    requires SafeLog(lib, bag, anchors, log)
    requires forall t :: t in more ==> Justified(lib, bag, anchors, log, t.key)
    ensures SafeLog(lib, bag, anchors, log + more)
  {
    var all := log + more;
    forall k | 0 <= k < |all| ensures Justified(lib, bag, anchors, all[..k], all[k].key) {
      if k < |log| {
        assert all[..k] == log[..k];
      } else {
        assert all[..k] == log + more[..k - |log|];
        JustifiedGrows(lib, bag, anchors, log, more[..k - |log|], all[k].key);
      }
    }
  }

  /** Every position of the bag is accepted or pending, once, and equal
      certificates are on the same side. */
  ghost predicate Partition(bag: seq<Certificate>, accepted: seq<Certificate>, positions: seq<nat>, pending: seq<nat>) {
    && InBag(bag, positions) && InBag(bag, pending)
    && accepted == At(bag, positions)
    && Distinct(positions) && Distinct(pending)
    && (forall p :: p in positions ==> p !in pending)
    && (forall p :: 0 <= p < |bag| ==> p in positions || p in pending)
    && (forall k :: 0 <= k < |pending| ==> bag[pending[k]] !in accepted)
  }

  /** The record so far is safe, no test in it is repeated, and none of the
      current keys has been tried on a pending certificate. */
  ghost predicate Recorded(
    lib: Library, bag: seq<Certificate>, anchors: seq<Certificate>, positions: seq<nat>, pending: seq<nat>,
    issuers: seq<Certificate>, keys: seq<Key>, log: seq<KeyTest>)
  {
    && KeysOf(bag, anchors, issuers, keys) && Distinct(keys)
    && (forall k :: k in keys ==> Justified(lib, bag, anchors, log, k))
    && (forall k :: k in keys && k.BagKey? ==> k.position in positions)
    && SafeLog(lib, bag, anchors, log) && TestedOnce(log)
    && (forall t :: t in log ==> Truthful(lib, bag, anchors, t))
    && (forall t :: t in log && t.candidate in pending ==> t.key !in keys)
    && (forall t :: t in log && t.key.BagKey? ==> t.key.position in positions)
  }

  ghost function AnchorKeys(n: nat): (keys: seq<Key>)
    ensures |keys| == n
  {
    seq(n, (k: nat) => AnchorKey(k))
  }

  ghost function BagKeys(positions: seq<nat>): (keys: seq<Key>)
    ensures |keys| == |positions|
  {
    seq(|positions|, k requires 0 <= k < |positions| => BagKey(positions[k]))
  }

  /** Certificates selected by opposite rules are different ones. */
  lemma SidesStayApart(bag: seq<Certificate>, accepted: seq<Certificate>, pending: seq<nat>,
                       q: Certificate -> bool, notQ: Certificate -> bool)
    requires InBag(bag, pending)
    requires forall c :: notQ(c) == !q(c)
    requires forall k :: 0 <= k < |pending| ==> bag[pending[k]] !in accepted
    ensures var round, rest := Keep(pending, Holding(bag, q)), Keep(pending, Holding(bag, notQ));
            && InBag(bag, round) && InBag(bag, rest)
            && (forall k :: 0 <= k < |rest| ==> bag[rest[k]] !in accepted + At(bag, round))
  {
    AtKeep(bag, pending, q);
    AtKeep(bag, pending, notQ);
    KeepMembers(At(bag, pending), q);
    KeepMembers(At(bag, pending), notQ);
    var round, rest := Keep(pending, Holding(bag, q)), Keep(pending, Holding(bag, notQ));
    forall k | 0 <= k < |rest| ensures bag[rest[k]] !in accepted + At(bag, round) {
      assert At(bag, rest)[k] in At(bag, pending);
    }
  }

  lemma PartitionStep(bag: seq<Certificate>, accepted: seq<Certificate>, positions: seq<nat>, pending: seq<nat>,
                      q: Certificate -> bool, notQ: Certificate -> bool)
    requires Partition(bag, accepted, positions, pending)
    requires forall c :: notQ(c) == !q(c)
    ensures var round, rest := Keep(pending, Holding(bag, q)), Keep(pending, Holding(bag, notQ));
            InBag(bag, round) && Partition(bag, accepted + At(bag, round), positions + round, rest)
  {
    var round, rest := Keep(pending, Holding(bag, q)), Keep(pending, Holding(bag, notQ));
    KeepMembers(pending, Holding(bag, q));
    KeepMembers(pending, Holding(bag, notQ));
    KeepDistinct(pending, Holding(bag, q));
    KeepDistinct(pending, Holding(bag, notQ));
    DistinctAppend(positions, round);
    SidesStayApart(bag, accepted, pending, q, notQ);
  }

  lemma RecordedStep(
      lib: Library, bag: seq<Certificate>, anchors: seq<Certificate>, positions: seq<nat>, pending: seq<nat>,
      issuers: seq<Certificate>, keys: seq<Key>, log: seq<KeyTest>, round: seq<nat>, rest: seq<nat>)
    requires InBag(bag, pending) && Distinct(pending) && InBag(bag, round)
    requires forall p :: p in positions ==> p !in pending
    requires Recorded(lib, bag, anchors, positions, pending, issuers, keys, log)
    requires round == RoundOf(lib, bag, issuers, pending)
    requires rest == RestOf(lib, bag, issuers, pending)
    ensures Recorded(lib, bag, anchors, positions + round, rest, At(bag, round), BagKeys(round),
                     log + RoundTests(lib, bag, pending, issuers, keys))
  {
    var tests := RoundTests(lib, bag, pending, issuers, keys);
    KeepMembers(pending, Holding(bag, c => VouchedBy(lib, c, issuers)));
    KeepMembers(pending, Holding(bag, c => !VouchedBy(lib, c, issuers)));
    KeepDistinct(pending, Holding(bag, c => VouchedBy(lib, c, issuers)));
    RoundTestsFacts(lib, bag, anchors, pending, issuers, keys);
    SafeLogAppend(lib, bag, anchors, log, tests);
    TestedOnceAppend(log, tests);
    forall key | key in BagKeys(round) ensures Justified(lib, bag, anchors, log + tests, key) {
      var k :| 0 <= k < |round| && key == BagKey(round[k]);
      assert round[k] in round;
      var j :| 0 <= j < |pending| && pending[j] == round[k];
      var t :| t in tests && t.candidate == pending[j] && t.vouched;
      assert t in log + tests;
    }
  }

  function Upto(n: nat): seq<nat> {
    seq(n, (k: nat) => k)
  }

  /** Sets the embedded copies of anchors aside, accepted without a test. */
  method SetCopiesAside(lib: Library, embedded: seq<Certificate>, anchors: seq<Certificate>)
    returns (accepted: seq<Certificate>, pending: seq<nat>, ghost positions: seq<nat>)
    ensures positions == Keep(Upto(|embedded|), Holding(embedded, c => AnchorCopy(lib, anchors, c)))
    ensures pending == Keep(Upto(|embedded|), Holding(embedded, c => !AnchorCopy(lib, anchors, c)))
    ensures InBag(embedded, positions) && accepted == At(embedded, positions)
  {
    hide Keep, AnchorCopy;
    accepted, pending, positions := [], [], [];
    var isCopy := Holding(embedded, c => AnchorCopy(lib, anchors, c));
    var notCopy := Holding(embedded, c => !AnchorCopy(lib, anchors, c));
    KeepEmpty<nat>(isCopy);
    KeepEmpty<nat>(notCopy);
    assert Upto(0) == [];
    for p := 0 to |embedded|
      invariant positions == Keep(Upto(p), isCopy)
      invariant pending == Keep(Upto(p), notCopy)
      invariant InBag(embedded, positions) && accepted == At(embedded, positions)
    {
      assert Upto(p + 1) == Upto(p) + [p];
      KeepAppend<nat>(Upto(p), [p], isCopy);
      KeepAppend<nat>(Upto(p), [p], notCopy);
      KeepOne<nat>(p, isCopy);
      KeepOne<nat>(p, notCopy);
      if AnchorCopy(lib, anchors, embedded[p]) {
        accepted, positions := accepted + [embedded[p]], positions + [p];
      } else {
        pending := pending + [p];
      }
    }
  }

  lemma PartitionStart(lib: Library, bag: seq<Certificate>, anchors: seq<Certificate>)
    ensures var positions := Keep(Upto(|bag|), Holding(bag, c => AnchorCopy(lib, anchors, c)));
            var pending := Keep(Upto(|bag|), Holding(bag, c => !AnchorCopy(lib, anchors, c)));
            && |pending| <= |bag| && InBag(bag, positions)
            && Partition(bag, At(bag, positions), positions, pending)
            && Walk(lib, bag, anchors)
               == At(bag, positions) + Rounds(lib, anchors + At(bag, positions), At(bag, pending))
  {
    var isCopy := (c: Certificate) => AnchorCopy(lib, anchors, c);
    var notCopy := (c: Certificate) => !AnchorCopy(lib, anchors, c);
    var positions := Keep(Upto(|bag|), Holding(bag, isCopy));
    assert At(bag, Upto(|bag|)) == bag;
    forall p | 0 <= p < |bag| ensures p in Upto(|bag|) {
      assert Upto(|bag|)[p] == p;
    }
    AtKeep(bag, Upto(|bag|), isCopy);
    AtKeep(bag, Upto(|bag|), notCopy);
    PartitionStep(bag, [], [], Upto(|bag|), isCopy, notCopy);
    assert [] + At(bag, positions) == At(bag, positions) && [] + positions == positions;
    KeepMembers(Upto(|bag|), Holding(bag, notCopy));
  }

  lemma RecordedStart(
      lib: Library, bag: seq<Certificate>, anchors: seq<Certificate>, positions: seq<nat>, pending: seq<nat>)
    requires positions == Keep(Upto(|bag|), Holding(bag, c => AnchorCopy(lib, anchors, c)))
    requires InBag(bag, positions) && Distinct(positions)
    ensures Recorded(lib, bag, anchors, positions, pending, anchors + At(bag, positions),
                     AnchorKeys(|anchors|) + BagKeys(positions), [])
  {
    KeepMembers(Upto(|bag|), Holding(bag, c => AnchorCopy(lib, anchors, c)));
    DistinctAppend(AnchorKeys(|anchors|), BagKeys(positions));
    forall key | key in BagKeys(positions) ensures key.BagKey? && key.position in positions {
      var k :| 0 <= k < |positions| && key == BagKey(positions[k]);
    }
  }

  /** The walk's rounds, read off the positions. */
  lemma RoundValue(lib: Library, bag: seq<Certificate>, issuers: seq<Certificate>, pending: seq<nat>)
    requires InBag(bag, pending)
    ensures var round := RoundOf(lib, bag, issuers, pending);
            var rest := RestOf(lib, bag, issuers, pending);
            && InBag(bag, round) && InBag(bag, rest)
            && Rounds(lib, issuers, At(bag, pending))
               == if round == [] then [] else At(bag, round) + Rounds(lib, At(bag, round), At(bag, rest))
  {
    AtKeep(bag, pending, c => VouchedBy(lib, c, issuers));
    AtKeep(bag, pending, c => !VouchedBy(lib, c, issuers));
    RestIsShorter(lib, issuers, At(bag, pending));
  }

  lemma AcceptedPositions(
      lib: Library, bag: seq<Certificate>, anchors: seq<Certificate>, positions: seq<nat>, pending: seq<nat>)
    requires Partition(bag, Walk(lib, bag, anchors), positions, pending)
    ensures forall p :: 0 <= p < |bag| ==> (p in positions <==> Reachable(lib, bag, anchors, bag[p]))
  {
    forall p | 0 <= p < |bag| ensures p in positions <==> Reachable(lib, bag, anchors, bag[p]) {
      WalkMembers(lib, bag, anchors, bag[p]);
      if p in positions {
        var k :| 0 <= k < |positions| && positions[k] == p;
        assert At(bag, positions)[k] == bag[p];
      }
    }
  }

  /** What a run of the walk leaves behind: the accepted positions, the key
      tests in the order they were made, and the number of rounds. */
  datatype Trace = Trace(positions: seq<nat>, log: seq<KeyTest>, rounds: nat)

  ghost function RoundsTrace(
      lib: Library, bag: seq<Certificate>, issuers: seq<Certificate>, keys: seq<Key>, pending: seq<nat>, sofar: Trace): Trace
    requires InBag(bag, pending) && |keys| == |issuers|
    decreases |pending|
  {
    if pending == [] then sofar
    else
      var round := RoundOf(lib, bag, issuers, pending);
      var rest := RestOf(lib, bag, issuers, pending);
      RoundSizes(lib, bag, issuers, pending);
      var next := Trace(sofar.positions + round, sofar.log + RoundTests(lib, bag, pending, issuers, keys), sofar.rounds + 1);
      if round == [] then next
      else RoundsTrace(lib, bag, At(bag, round), BagKeys(round), rest, next)
  }

  lemma RoundsTraceStep(
      lib: Library, bag: seq<Certificate>, issuers: seq<Certificate>, keys: seq<Key>, pending: seq<nat>, sofar: Trace)
    requires InBag(bag, pending) && |keys| == |issuers| && pending != []
    ensures var round := RoundOf(lib, bag, issuers, pending);
            var rest := RestOf(lib, bag, issuers, pending);
            var next := Trace(sofar.positions + round, sofar.log + RoundTests(lib, bag, pending, issuers, keys), sofar.rounds + 1);
            && InBag(bag, round) && InBag(bag, rest) && |round| + |rest| == |pending|
            && RoundsTrace(lib, bag, issuers, keys, pending, sofar)
               == if round == [] then next else RoundsTrace(lib, bag, At(bag, round), BagKeys(round), rest, next)
  {
    RoundSizes(lib, bag, issuers, pending);
  }

  ghost function WalkTrace(lib: Library, bag: seq<Certificate>, anchors: seq<Certificate>): Trace {
    PartitionStart(lib, bag, anchors);
    var positions := Keep(Upto(|bag|), Holding(bag, c => AnchorCopy(lib, anchors, c)));
    var pending := Keep(Upto(|bag|), Holding(bag, c => !AnchorCopy(lib, anchors, c)));
    RoundsTrace(lib, bag, anchors + At(bag, positions), AnchorKeys(|anchors|) + BagKeys(positions),
                pending, Trace(positions, [], 0))
  }

  lemma RoundSizes(lib: Library, bag: seq<Certificate>, issuers: seq<Certificate>, pending: seq<nat>)
    requires InBag(bag, pending)
    ensures var round := RoundOf(lib, bag, issuers, pending);
            var rest := RestOf(lib, bag, issuers, pending);
            InBag(bag, round) && InBag(bag, rest) && |round| + |rest| == |pending|
  {
    AtKeep(bag, pending, c => VouchedBy(lib, c, issuers));
    AtKeep(bag, pending, c => !VouchedBy(lib, c, issuers));
    RestIsShorter(lib, issuers, At(bag, pending));
  }

  lemma WalkStart(lib: Library, bag: seq<Certificate>, anchors: seq<Certificate>)
    ensures var positions := Keep(Upto(|bag|), Holding(bag, c => AnchorCopy(lib, anchors, c)));
            var pending := Keep(Upto(|bag|), Holding(bag, c => !AnchorCopy(lib, anchors, c)));
            && InBag(bag, positions) && InBag(bag, pending)
            && Walk(lib, bag, anchors)
               == At(bag, positions) + Rounds(lib, anchors + At(bag, positions), At(bag, pending))
            && WalkTrace(lib, bag, anchors)
               == RoundsTrace(lib, bag, anchors + At(bag, positions), AnchorKeys(|anchors|) + BagKeys(positions),
                              pending, Trace(positions, [], 0))
  {
    PartitionStart(lib, bag, anchors);
  }

  lemma RoundsOfNothing(lib: Library, bag: seq<Certificate>, issuers: seq<Certificate>, keys: seq<Key>, sofar: Trace)
    requires |keys| == |issuers|
    ensures At(bag, []) == [] && Rounds(lib, issuers, []) == []
    ensures RoundsTrace(lib, bag, issuers, keys, [], sofar) == sofar
  {
  }

  lemma RoundPartition(
      lib: Library, bag: seq<Certificate>, accepted: seq<Certificate>, positions: seq<nat>,
      pending: seq<nat>, issuers: seq<Certificate>)
    requires Partition(bag, accepted, positions, pending)
    ensures var round, rest := RoundOf(lib, bag, issuers, pending), RestOf(lib, bag, issuers, pending);
            && InBag(bag, round)
            && Partition(bag, accepted + At(bag, round), positions + round, rest)
            && (round == [] ==> accepted + At(bag, round) == accepted)
  {
    hide Partition;
    PartitionStep(bag, accepted, positions, pending, c => VouchedBy(lib, c, issuers), c => !VouchedBy(lib, c, issuers));
  }

  /** The remaining rounds accept what the walk's value says, each position
      once, and there are at most as many as pending certificates. */
  lemma {:induction false} RoundsTracePositions(
      lib: Library, bag: seq<Certificate>, accepted: seq<Certificate>, final: seq<Certificate>,
      issuers: seq<Certificate>, keys: seq<Key>, pending: seq<nat>, sofar: Trace)
    returns (left: seq<nat>)
    requires |keys| == |issuers| && InBag(bag, pending) && Partition(bag, accepted, sofar.positions, pending)
    requires final == accepted + Rounds(lib, issuers, At(bag, pending))
    ensures RoundsTrace(lib, bag, issuers, keys, pending, sofar).rounds <= sofar.rounds + |pending|
    ensures Partition(bag, final, RoundsTrace(lib, bag, issuers, keys, pending, sofar).positions, left)
    decreases |pending|
  {
    hide Partition, InBag, RoundsTrace, RoundOf, RestOf, At, BagKeys, RoundTests, Rounds;
    left := pending;
    if pending == [] {
      RoundsOfNothing(lib, bag, issuers, keys, sofar);
      assert final == accepted;
    } else {
      RoundValue(lib, bag, issuers, pending);
      RoundsTraceStep(lib, bag, issuers, keys, pending, sofar);
      RoundPartition(lib, bag, accepted, sofar.positions, pending, issuers);
      var round := RoundOf(lib, bag, issuers, pending);
      left := RestOf(lib, bag, issuers, pending);
      var next := Trace(sofar.positions + round, sofar.log + RoundTests(lib, bag, pending, issuers, keys), sofar.rounds + 1);
      if round != [] {
        left := RoundsTracePositions(
          lib, bag, accepted + At(bag, round), final, At(bag, round), BagKeys(round), left, next);
      }
    }
  }

  /** The remaining rounds keep the record safe and without repetitions. */
  lemma {:induction false} RoundsTraceLog(
      lib: Library, bag: seq<Certificate>, anchors: seq<Certificate>, accepted: seq<Certificate>,
      issuers: seq<Certificate>, keys: seq<Key>, pending: seq<nat>, sofar: Trace)
    requires Partition(bag, accepted, sofar.positions, pending)
    requires Recorded(lib, bag, anchors, sofar.positions, pending, issuers, keys, sofar.log)
    ensures var log := RoundsTrace(lib, bag, issuers, keys, pending, sofar).log;
            && SafeLog(lib, bag, anchors, log) && TestedOnce(log)
            && (forall t :: t in log ==> Truthful(lib, bag, anchors, t))
    decreases |pending|
  {
    if pending != [] {
      var round := RoundOf(lib, bag, issuers, pending);
      var rest := RestOf(lib, bag, issuers, pending);
      var tests := RoundTests(lib, bag, pending, issuers, keys);
      var next := Trace(sofar.positions + round, sofar.log + tests, sofar.rounds + 1);
      RoundsTraceStep(lib, bag, issuers, keys, pending, sofar);
      PartitionStep(bag, accepted, sofar.positions, pending,
                    c => VouchedBy(lib, c, issuers), c => !VouchedBy(lib, c, issuers));
      RecordedStep(lib, bag, anchors, sofar.positions, pending, issuers, keys, sofar.log, round, rest);
      if round != [] {
        RoundsTraceLog(lib, bag, anchors, accepted + At(bag, round), At(bag, round), BagKeys(round), rest, next);
      }
    }
  }

  /** What every run of the walk has done: it took at most as many rounds as
      there are embedded certificates; the positions accepted are exactly the
      reachable ones, each once; every key it used belongs to an anchor or to a
      certificate vouched for earlier in the log; and no candidate was tested
      twice against one key. */
  lemma WalkTraceFacts(lib: Library, bag: seq<Certificate>, anchors: seq<Certificate>)
    ensures var trace := WalkTrace(lib, bag, anchors);
            && trace.rounds <= |bag|
            && InBag(bag, trace.positions) && Distinct(trace.positions)
            && Walk(lib, bag, anchors) == At(bag, trace.positions)
            && (forall p :: 0 <= p < |bag| ==> (p in trace.positions <==> Reachable(lib, bag, anchors, bag[p])))
            && (forall t :: t in trace.log ==> Truthful(lib, bag, anchors, t))
            && SafeLog(lib, bag, anchors, trace.log)
            && TestedOnce(trace.log)
  {
    PartitionStart(lib, bag, anchors);
    var positions := Keep(Upto(|bag|), Holding(bag, c => AnchorCopy(lib, anchors, c)));
    var pending := Keep(Upto(|bag|), Holding(bag, c => !AnchorCopy(lib, anchors, c)));
    RecordedStart(lib, bag, anchors, positions, pending);
    var issuers, keys := anchors + At(bag, positions), AnchorKeys(|anchors|) + BagKeys(positions);
    var left := RoundsTracePositions(lib, bag, At(bag, positions), Walk(lib, bag, anchors), issuers, keys, pending, Trace(positions, [], 0));
    RoundsTraceLog(lib, bag, anchors, At(bag, positions), issuers, keys, pending, Trace(positions, [], 0));
    var trace := WalkTrace(lib, bag, anchors);
    AcceptedPositions(lib, bag, anchors, trace.positions, left);
  }

  /** Which embedded certificates a pinned anchor vouched for. */
  method AuthenticatedTopDown(lib: Library, embedded: seq<Certificate>, anchors: seq<Certificate>)
    returns (accepted: seq<Certificate>, ghost trace: Trace)
    ensures accepted == Walk(lib, embedded, anchors)
    ensures trace == WalkTrace(lib, embedded, anchors)
  {
    hide InBag, Walk, WalkTrace, Rounds, RoundsTrace, RoundOf, RestOf, RoundTests, At, AnchorKeys, BagKeys, Keep, Holding;
    var pending;
    ghost var positions;
    trace := Trace([], [], 0);
    accepted, pending, positions := SetCopiesAside(lib, embedded, anchors);
    WalkStart(lib, embedded, anchors);
    trace := Trace(positions, [], 0);
    var issuers := anchors + accepted;
    ghost var keys := AnchorKeys(|anchors|) + BagKeys(positions);
    while pending != []
      invariant InBag(embedded, pending) && |keys| == |issuers|
      invariant Walk(lib, embedded, anchors) == accepted + Rounds(lib, issuers, At(embedded, pending))
      invariant WalkTrace(lib, embedded, anchors) == RoundsTrace(lib, embedded, issuers, keys, pending, trace)
      decreases |pending|
    {
      var thisRound, kept;
      ghost var round, tests;
      thisRound, kept, round, tests := RetainUnvouched(lib, embedded, issuers, keys, pending);
      RoundValue(lib, embedded, issuers, pending);
      RoundsTraceStep(lib, embedded, issuers, keys, pending, trace);
      pending, trace := kept, Trace(trace.positions + round, trace.log + tests, trace.rounds + 1);
      if thisRound == [] {
        return;
      }
      accepted := accepted + thisRound;
      issuers, keys := thisRound, BagKeys(round);
    }
    RoundsOfNothing(lib, embedded, issuers, keys, trace);
  }
}
