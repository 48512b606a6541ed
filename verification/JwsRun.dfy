/** A JWS verification as it runs, with a record of every key it uses and every
    clock read. */
module JwsRun {
  import opened Foundation
  import opened OpenSsl
  import opened Verdicts
  import opened PathPolicy
  import opened Jws

  datatype Owner = AnchorOwner(index: nat) | IntermediateOwner | LeafOwner

  datatype Purpose = IssuedIntermediate | IssuedLeaf | PathCheck | JwsSignature

  /** One use of an owner's public key, and whether what it checked passed. */
  datatype KeyUse = KeyUse(owner: Owner, purpose: Purpose, passed: bool)

  /** An owner a pinned anchor vouched for within `uses`: an anchor itself, an
      intermediate an anchor's key was seen to have issued, or a leaf that
      intermediate's key was seen to have issued. */
  ghost predicate VouchedFor(uses: seq<KeyUse>, anchors: nat, owner: Owner) {
    match owner
    case AnchorOwner(k) => k < anchors
    case IntermediateOwner =>
      exists u :: u in uses && u.owner.AnchorOwner? && u.purpose == IssuedIntermediate && u.passed
    case LeafOwner =>
      exists u :: u in uses && u.owner == IntermediateOwner && u.purpose == IssuedLeaf && u.passed
  }

  /** Every key was vouched for before it was used. */
  ghost predicate SafeUses(uses: seq<KeyUse>, anchors: nat) {
    forall k :: 0 <= k < |uses| ==> VouchedFor(uses[..k], anchors, uses[k].owner)
  }

  lemma VouchedForGrows(uses: seq<KeyUse>, more: seq<KeyUse>, anchors: nat, owner: Owner)
    requires VouchedFor(uses, anchors, owner)
    ensures VouchedFor(uses + more, anchors, owner)
  {
    forall u | u in uses ensures u in uses + more {
    }
  }

  lemma SafeAppend(uses: seq<KeyUse>, u: KeyUse, anchors: nat)
    requires SafeUses(uses, anchors) && VouchedFor(uses, anchors, u.owner)
    ensures SafeUses(uses + [u], anchors)
  {
    var all := uses + [u];
    forall k | 0 <= k < |all| ensures VouchedFor(all[..k], anchors, all[k].owner) {
      assert all[..k] == uses[..k];
      if k == |uses| {
        assert uses[..k] == uses;
      }
    }
  }

  lemma SafeConcat(uses: seq<KeyUse>, more: seq<KeyUse>, anchors: nat)
    requires SafeUses(uses, anchors)
    requires forall k :: 0 <= k < |more| ==> VouchedFor(uses + more[..k], anchors, more[k].owner)
    ensures SafeUses(uses + more, anchors)
  {
    hide VouchedFor;
    var all := uses + more;
    forall k | 0 <= k < |all| ensures VouchedFor(all[..k], anchors, all[k].owner) {
      if k < |uses| {
        assert all[..k] == uses[..k];
      } else {
        assert all[..k] == uses + more[..k - |uses|];
      }
    }
  }

  // ---------------------------------------------------------------------
  // Every key use of a run, in order: each is there exactly when it is reached.

  /** The anchors from number `k` on, up to the first that issued the intermediate. */
  function AnchorUses(lib: Library, intermediate: Certificate, anchors: seq<Certificate>, k: nat): (uses: seq<KeyUse>)
    requires k <= |anchors|
    decreases |anchors| - k
  {
    if k == |anchors| then []
    else
      var issued := lib.issuedBy(intermediate, anchors[k]);
      [KeyUse(AnchorOwner(k), IssuedIntermediate, issued)]
      + if issued then [] else AnchorUses(lib, intermediate, anchors, k + 1)
  }

  predicate IssuedByAnchor(lib: Library, intermediate: Certificate, anchors: seq<Certificate>) {
    exists a :: a in anchors && lib.issuedBy(intermediate, a)
  }

  /** The leaf's link, once an anchor issued the intermediate and its key is
      usable; then the path check, once the link holds and the leaf's key is usable. */
  function LinkUses(lib: Library, leaf: Certificate, intermediate: Certificate, anchors: seq<Certificate>, at: Int64): seq<KeyUse> {
    if !IssuedByAnchor(lib, intermediate, anchors) || !lib.usableKey(intermediate) then []
    else
      var issued := lib.issuedBy(leaf, intermediate);
      [KeyUse(IntermediateOwner, IssuedLeaf, issued)]
      + if !issued || !lib.usableKey(leaf) then []
        else
          var ok := PairVerdict(lib, leaf, intermediate, CheckedPath(lib, leaf, [intermediate], anchors, at)).Ok?;
          PathUses(|anchors|, ok)
  }

  /** The path check may use the key of any anchor, and uses those of both certificates. */
  function PathUses(anchors: nat, ok: bool): (uses: seq<KeyUse>)
    ensures |uses| == anchors + 2
    ensures forall k :: 0 <= k < anchors ==> uses[k] == KeyUse(AnchorOwner(k), PathCheck, ok)
    ensures uses[anchors] == KeyUse(IntermediateOwner, PathCheck, ok)
    ensures uses[anchors + 1] == KeyUse(LeafOwner, PathCheck, ok)
  {
    seq(anchors, (k: nat) => KeyUse(AnchorOwner(k), PathCheck, ok))
    + [KeyUse(IntermediateOwner, PathCheck, ok), KeyUse(LeafOwner, PathCheck, ok)]
  }

  function PairUses(lib: Library, leaf: Certificate, intermediate: Certificate, anchors: seq<Certificate>, at: Int64): seq<KeyUse> {
    AnchorUses(lib, intermediate, anchors, 0) + LinkUses(lib, leaf, intermediate, anchors, at)
  }

  function VerifyUses(e: Setting, jws: string): seq<KeyUse> {
    match Outer(e, jws)
    case Err(_) => []
    case Ok(p) =>
      match ChainInstant(e, p)
      case None => []
      case Some(at) =>
        PairUses(e.lib, p.leaf, p.intermediate, e.anchors, at)
        + if ValidatePair(e.lib, p.leaf, p.intermediate, e.anchors, at).Err?
             || !e.lib.hasExtension(p.leaf, SIGNING_LEAF_OID)
             || !e.lib.hasExtension(p.intermediate, WWDR_INTERMEDIATE_OID)
          then []
          else [KeyUse(LeafOwner, JwsSignature, e.lib.verifyEs256(p.leaf, p.signature, SigningInput(p.segments)))]
  }

  // ---------------------------------------------------------------------
  // No key is used before its owner was vouched for.

  lemma {:induction false} AnchorUsesFacts(lib: Library, intermediate: Certificate, anchors: seq<Certificate>, k: nat)
    requires k <= |anchors|
    ensures forall u :: u in AnchorUses(lib, intermediate, anchors, k) ==> u.owner.AnchorOwner? && u.owner.index < |anchors|
    ensures (exists u :: u in AnchorUses(lib, intermediate, anchors, k) && u.purpose == IssuedIntermediate && u.passed)
       <==> exists j :: k <= j < |anchors| && lib.issuedBy(intermediate, anchors[j])
    decreases |anchors| - k
  {
    if k < |anchors| {
      var uses := AnchorUses(lib, intermediate, anchors, k);
      if lib.issuedBy(intermediate, anchors[k]) {
        assert uses[0] in uses;
      } else {
        AnchorUsesFacts(lib, intermediate, anchors, k + 1);
        assert uses == [uses[0]] + AnchorUses(lib, intermediate, anchors, k + 1);
      }
    }
  }

  lemma AnchorsVouch(lib: Library, intermediate: Certificate, anchors: seq<Certificate>)
    ensures SafeUses(AnchorUses(lib, intermediate, anchors, 0), |anchors|)
    ensures VouchedFor(AnchorUses(lib, intermediate, anchors, 0), |anchors|, IntermediateOwner)
       <==> IssuedByAnchor(lib, intermediate, anchors)
  {
    var uses := AnchorUses(lib, intermediate, anchors, 0);
    AnchorUsesFacts(lib, intermediate, anchors, 0);
    hide AnchorUses;
    forall k | 0 <= k < |uses| ensures VouchedFor(uses[..k], |anchors|, uses[k].owner) {
      assert uses[k] in uses;
    }
    if IssuedByAnchor(lib, intermediate, anchors) {
      var a :| a in anchors && lib.issuedBy(intermediate, a);
      var j :| 0 <= j < |anchors| && anchors[j] == a;
    }
  }

  lemma PairUsesAreSafe(lib: Library, leaf: Certificate, intermediate: Certificate, anchors: seq<Certificate>, at: Int64)
    ensures SafeUses(PairUses(lib, leaf, intermediate, anchors, at), |anchors|)
    ensures ValidatePair(lib, leaf, intermediate, anchors, at).Ok? ==>
              VouchedFor(PairUses(lib, leaf, intermediate, anchors, at), |anchors|, LeafOwner)
  {
    hide AnchorUses, PairVerdict, CheckedPath, SafeUses, PathUses;
    var first, more := AnchorUses(lib, intermediate, anchors, 0), LinkUses(lib, leaf, intermediate, anchors, at);
    AnchorsVouch(lib, intermediate, anchors);
    forall k | 0 <= k < |more| ensures VouchedFor(first + more[..k], |anchors|, more[k].owner) {
      VouchedForGrows(first, more[..k], |anchors|, IntermediateOwner);
      if more[k].owner == LeafOwner {
        assert more[0] in more[..k] && more[0] in first + more[..k];
      }
    }
    SafeConcat(first, more, |anchors|);
    if ValidatePair(lib, leaf, intermediate, anchors, at).Ok? {
      assert more[0] in first + more;
    }
  }

  /** Over every whole run: each key used as an issuer, on the path or for the JWS
      signature belongs to a pinned anchor or to a certificate vouched for earlier. */
  lemma EveryKeyIsVouchedFor(e: Setting, jws: string)
    ensures SafeUses(VerifyUses(e, jws), |e.anchors|)
  {
    hide Outer, ChainInstant, ValidatePair, PairUses, SafeUses, VouchedFor, SigningInput;
    NoUseIsSafe(|e.anchors|);
    if Outer(e, jws).Ok? && ChainInstant(e, Outer(e, jws).value).Some? {
      var p := Outer(e, jws).value;
      var at := ChainInstant(e, p).value;
      var uses := PairUses(e.lib, p.leaf, p.intermediate, e.anchors, at);
      PairUsesAreSafe(e.lib, p.leaf, p.intermediate, e.anchors, at);
      assert uses + [] == uses;
      if VerifyUses(e, jws) != uses {
        SafeAppend(uses, VerifyUses(e, jws)[|uses|], |e.anchors|);
      }
    }
  }

  lemma NoUseIsSafe(anchors: nat)
    ensures SafeUses([], anchors)
  {
  }

  /** The run ends with the leaf's key checking the JWS signature, with this outcome. */
  ghost predicate EndsWithSignature(uses: seq<KeyUse>, passed: bool) {
    uses != [] && uses[|uses| - 1] == KeyUse(LeafOwner, JwsSignature, passed)
  }

  /** The leaf's key checks the JWS signature at most once, last; it fails exactly when
      the verdict is `INVALID_SIGNATURE`, and passes exactly when the verdict is
      success or `UNREADABLE_PAYLOAD`. */
  lemma SignatureDecides(e: Setting, jws: string)
    ensures var uses := VerifyUses(e, jws);
            && (forall k :: 0 <= k < |uses| && uses[k].purpose == JwsSignature ==> k == |uses| - 1)
            && (EndsWithSignature(uses, true) <==>
                  Verdict(e, jws).Ok? || Verdict(e, jws) == Err(Plain(UnreadablePayload)))
            && (EndsWithSignature(uses, false) <==> Verdict(e, jws) == Err(Plain(InvalidSignature)))
  {
    hide Outer, ChainInstant, PairUses, ReadPayloadOf, SigningInput, ValidatePair;
    OuterIsBeforeTheSignature(e, jws);
    if Outer(e, jws).Ok? && ChainInstant(e, Outer(e, jws).value).Some? {
      var p := Outer(e, jws).value;
      var at := ChainInstant(e, p).value;
      PairUsesAreLinks(e.lib, p.leaf, p.intermediate, e.anchors, at);
    }
  }

  predicate IsLate(failure: Failure) {
    failure == Plain(InvalidSignature) || failure == Plain(UnreadablePayload)
  }

  lemma OuterIsBeforeTheSignature(e: Setting, jws: string)
    ensures Outer(e, jws).Err? ==> !IsLate(Outer(e, jws).error)
  {
    hide Split, ParseX5c;
  }

  lemma PairUsesAreLinks(lib: Library, leaf: Certificate, intermediate: Certificate, anchors: seq<Certificate>, at: Int64)
    ensures forall u :: u in PairUses(lib, leaf, intermediate, anchors, at) ==> u.purpose != JwsSignature
    ensures ValidatePair(lib, leaf, intermediate, anchors, at).Err? ==>
              !IsLate(ValidatePair(lib, leaf, intermediate, anchors, at).error)
  {
    hide AnchorUses, CheckedPath, PairVerdict, IssuedByAnchor, PathUses;
    AnchorUsesPurpose(lib, intermediate, anchors, 0);
    PairVerdictIsEarly(lib, leaf, intermediate, CheckedPath(lib, leaf, [intermediate], anchors, at));
    PathUsesPurpose(|anchors|, true);
    PathUsesPurpose(|anchors|, false);
  }

  lemma PathUsesPurpose(anchors: nat, ok: bool)
    ensures forall u :: u in PathUses(anchors, ok) ==> u.purpose == PathCheck
  {
  }

  lemma PairVerdictIsEarly(lib: Library, leaf: Certificate, intermediate: Certificate, outcome: PathOutcome)
    ensures PairVerdict(lib, leaf, intermediate, outcome).Err? ==>
              !IsLate(PairVerdict(lib, leaf, intermediate, outcome).error)
  {
    hide Find, ProblemAt;
  }

  lemma {:induction false} AnchorUsesPurpose(lib: Library, intermediate: Certificate, anchors: seq<Certificate>, k: nat)
    requires k <= |anchors|
    ensures forall u :: u in AnchorUses(lib, intermediate, anchors, k) ==> u.purpose == IssuedIntermediate
    decreases |anchors| - k
  {
    if k < |anchors| {
      AnchorUsesPurpose(lib, intermediate, anchors, k + 1);
    }
  }

  // ---------------------------------------------------------------------
  // The run.

  /** Whether an anchor issued the intermediate, trying them in order. */
  method AnyAnchorIssued(lib: Library, intermediate: Certificate, anchors: seq<Certificate>)
    returns (issued: bool, ghost uses: seq<KeyUse>)
    ensures issued == IssuedByAnchor(lib, intermediate, anchors)
    ensures uses == AnchorUses(lib, intermediate, anchors, 0)
  {
    hide AnchorUses;
    uses := [];
    for k := 0 to |anchors|
      invariant AnchorUses(lib, intermediate, anchors, 0) == uses + AnchorUses(lib, intermediate, anchors, k)
      invariant forall j :: 0 <= j < k ==> !lib.issuedBy(intermediate, anchors[j])
    {
      var passed := lib.issuedBy(intermediate, anchors[k]);
      NextAnchorUse(lib, intermediate, anchors, k);
      uses := uses + [KeyUse(AnchorOwner(k), IssuedIntermediate, passed)];
      if passed {
        return true, uses;
      }
    }
    NoAnchorUse(lib, intermediate, anchors);
    return false, uses;
  }

  lemma NextAnchorUse(lib: Library, intermediate: Certificate, anchors: seq<Certificate>, k: nat)
    requires k < |anchors|
    ensures var issued := lib.issuedBy(intermediate, anchors[k]);
            AnchorUses(lib, intermediate, anchors, k)
            == [KeyUse(AnchorOwner(k), IssuedIntermediate, issued)]
               + if issued then [] else AnchorUses(lib, intermediate, anchors, k + 1)
  {
  }

  lemma NoAnchorUse(lib: Library, intermediate: Certificate, anchors: seq<Certificate>)
    ensures AnchorUses(lib, intermediate, anchors, |anchors|) == []
  {
  }

  /** `validate_pair` as it runs: the two links from the anchor down, then the
      path, whose check may use the keys of the anchors and of both certificates. */
  method CheckPair(lib: Library, leaf: Certificate, intermediate: Certificate, anchors: seq<Certificate>, at: Int64)
    returns (r: Result<(), Failure>, ghost uses: seq<KeyUse>)
    ensures r == ValidatePair(lib, leaf, intermediate, anchors, at)
    ensures uses == PairUses(lib, leaf, intermediate, anchors, at)
  {
    hide AnchorUses, PairVerdict, CheckedPath, PathUses;
    var issued;
    issued, uses := AnyAnchorIssued(lib, intermediate, anchors);
    ghost var first := uses;
    assert first + [] == first;
    if !issued {
      return Err(Failure(UntrustedChain, NotIssuedByRoot)), uses;
    }
    if !lib.usableKey(intermediate) {
      return Err(Failure(InvalidCertificate, UnusableKey)), uses;
    }
    var passed := lib.issuedBy(leaf, intermediate);
    uses := uses + [KeyUse(IntermediateOwner, IssuedLeaf, passed)];
    assert uses == first + ([KeyUse(IntermediateOwner, IssuedLeaf, passed)] + []);
    if !passed {
      return Err(Failure(UntrustedChain, NotIssuedByIntermediate)), uses;
    }
    if !lib.usableKey(leaf) {
      return Err(Failure(InvalidCertificate, UnusableKey)), uses;
    }
    r := PairVerdict(lib, leaf, intermediate, CheckedPath(lib, leaf, [intermediate], anchors, at));
    assert uses + PathUses(|anchors|, r.Ok?)
        == first + ([KeyUse(IntermediateOwner, IssuedLeaf, passed)] + PathUses(|anchors|, r.Ok?));
    uses := uses + PathUses(|anchors|, r.Ok?);
  }

  /** The signature over the two segments as they were sent. */
  method VerifySignature(lib: Library, leaf: Certificate, s: Segments, signature: seq<Byte>) returns (ok: bool)
    ensures ok == lib.verifyEs256(leaf, signature, SigningInput(s))
  {
    var input := Bytes(s.header);
    input := input + ['.' as int];
    input := input + Bytes(s.payload);
    assert input == SigningInput(s);
    ok := lib.verifyEs256(leaf, signature, input);
  }

  /** The whole verification: the verdict of the stages, every key use it makes, in
      order, and its clock reads, at most one, exactly when the stages before the
      chain passed and no usable date is stated. */
  method Verify(e: Setting, jws: string)
    returns (r: Result<JsonPayload, Failure>, ghost uses: seq<KeyUse>, ghost clockReads: nat)
    ensures r == Verdict(e, jws)
    ensures uses == VerifyUses(e, jws) && SafeUses(uses, |e.anchors|)
    ensures clockReads == ClockReads(e, jws) <= 1
  {
    hide Outer, ValidatePair, SigningInput, ReadPayloadOf, SafeUses, PairUses;
    EveryKeyIsVouchedFor(e, jws);
    uses, clockReads := [], 0;
    var outer := Outer(e, jws);
    if outer.Err? {
      return Err(outer.error), [], 0;
    }
    var p := outer.value;
    var read := ReadPayloadOf(e.readers, p.payload);
    var stated := if read.Some? then read.value.signedDate else None;
    var at := stated;
    if stated.None? {
      at, clockReads := e.clock, 1;
    }
    if at.None? {
      return Err(Plain(InternalError)), [], clockReads;
    }
    var pair;
    pair, uses := CheckPair(e.lib, p.leaf, p.intermediate, e.anchors, at.value);
    if pair.Err? {
      return Err(pair.error), uses, clockReads;
    }
    if !e.lib.hasExtension(p.leaf, SIGNING_LEAF_OID) {
      return Err(Plain(InvalidCertificatePurpose)), uses, clockReads;
    }
    if !e.lib.hasExtension(p.intermediate, WWDR_INTERMEDIATE_OID) {
      return Err(Plain(InvalidCertificatePurpose)), uses, clockReads;
    }
    var signed := VerifySignature(e.lib, p.leaf, p.segments, p.signature);
    uses := uses + [KeyUse(LeafOwner, JwsSignature, signed)];
    if !signed {
      return Err(Plain(InvalidSignature)), uses, clockReads;
    }
    if read.None? {
      return Err(Plain(UnreadablePayload)), uses, clockReads;
    }
    r := Ok(JsonPayload(read.value.json, read.value.environment));
  }
}
