# Apple purchase receipt verifier: a Dafny model

The verifier decides offline whether an App Store receipt or a signed JWS really
comes from Apple. It leaves cryptography, ASN.1 and the JSON grammar to OpenSSL and
serde_json; what it does itself is modelled and proved here:

- **The certificate walk and the path policy** (`TopDownWalk`, `PathPolicy`). The
  walk that tries only the previous round's certificates as issuers is proved equal
  to reachability from the pinned anchors, for every bag, every anchor list and
  every issuing relation. Whole-second checks are proved equal to an inclusive
  millisecond window.
- **Dates** (`Calendar`, `ReceiptDates`, `ReceiptDateRoundTrip`). A proleptic
  Gregorian calendar with its inverse, the RFC 3339 reader and the renderer that
  carries seconds in the UTC offset, with both round trips.
- **The instance pool and one guest call** (`InstancePool`, `GuestCall`). The pool
  is a step machine over any interleaving of calls with a fault wherever one can be
  raised; the call is a class over the guest's linear memory.
- **Encodings** (`Base64`, `Jws`, `JwsMeaning`, `JwsRun`, `Ber`, `BerRoundTrip`, `InputBytes`,
  `Decimal`, `ReceiptWire`). Strict and receipt base64, the JWS split and its
  ordered stages, the BER reader with a writer for every mix of length forms, UTF-8
  prefixes of JavaScript strings, and the JSON a Go payload crosses as.
- **The endpoint** (`Endpoint`, `AnswerReader`, with the receipt of `Receipts`) and
  **the schema bundler** (`JsonTree`, `TextOrder`, `SchemaBundle`, `SchemaMeaning`, `SchemaBuild`).

`OpenSsl` is a record of arbitrary functions: nothing is assumed of them except
where a lemma says so (`PathPolicy.Asn1Times`, `PathPolicy.JudgesWindows`). Clocks,
JSON readers, receipt verification, the Pacific zone, the order in which Go visits a
map, the guest and the schema files are parameters. In modules about texts a `char`
is one byte.

## Findings

Seven properties one might expect are false of the code. Each is proved in its exact
form, with an input at which it fails.

- A pooled Python instance is not always within the retire limit: the constructor
  pools its first instance without measuring it (`_host.py:290-293`, while `run`
  measures at line 321). `InstancePool.PooledWithinLimitIff`.
- `init` runs once on each instance only as long as nobody asks the pool for it: the
  export name comes from the caller (`_host.py:316`). `InstancePool.InitOnceIff`,
  and `InstancePool.VerifierInitsOnce` for the three exports the verifier asks for.
- A pinned anchor that stands below another anchor on a path is held to its
  `notAfter` only, because OpenSSL's callback waives its problems
  (`rust/openssl/src/path.rs:383-397`) and `checked_path` adds the late ones back.
  `PathPolicy.WindowsAreExact`, and `PathPolicy.AnchorBelowAnother` at an input.
- `attributesFromJSON` is not a function of its input: two keys such as `7` and `07`
  stand for one attribute type, and the one visited last wins.
  `ReceiptWire.OrderIsUnseenIff`, and `ReceiptWire.SevenTwice` at an input. No
  payload `ToJSON` writes is affected.
- A bundled schema whose file name holds a slash or a JSON pointer escape is not
  reached in every document by the reference written for it, since the bundler
  escapes neither: only a document that happens to hold an equal value where that
  reference leads hides it. `SchemaMeaning.NameIsReachedIff` and
  `SchemaMeaning.LocalIsKeptIff` quantify over all documents, and
  `SchemaMeaning.SlashedNameIsLost` is an input.
- A local reference through the root `$id` or `$schema` loses its target when the
  schema is embedded, and no other does. `SchemaMeaning.LocalRefKeepsMeaning`, and
  `SchemaMeaning.OwnIdIsLost` at an input.
- A schema file called `$ref` that is itself a text becomes a reference where it is
  embedded. `SchemaBundle.NoExternalReferenceRemainsIff` and
  `SchemaBundle.EmbeddedStandsIff` say when that is seen, and
  `SchemaMeaning.TextCalledRefRemains` is an input.

## Model

| member | source | states |
|---|---|---|
| TopDownWalk.WalkExact | rust/src/path.rs:78-112 | For every bag, anchors and issuing relation, the walk accepts a certificate exactly as often as the bag holds it when it is an anchor copy or at the end of a chain of embedded certificates from an anchor, and never otherwise, although later rounds try only the round before. |
| TopDownWalk.RoundsExact | rust/src/path.rs:94-110 | The same for the rounds alone, from any state between rounds: the frontier replaces the full set of accepted issuers without loss. |
| TopDownWalk.WalkMembers | rust/src/path.rs:78-112 | A certificate is accepted if and only if it is reachable. |
| TopDownWalk.WalkIsClosed | rust/src/path.rs:84-110 | Accepted are exactly the embedded certificates that are the same as an anchor, or that an anchor or an accepted one issued. |
| TopDownWalk.WalkOfPermutation | rust/src/path.rs:82-111 | Permuting the bag leaves the multiset of accepted certificates unchanged. |
| TopDownWalk.PaddingChangesNothing | rust/src/path.rs:82-111 | Taking certificates unreachable in the padded bag out, from any positions, leaves the accepted sequence identical, order included. |
| TopDownWalk.WalkIgnoresOthers | rust/src/path.rs:82-111 | The walk of a bag is, order included, the walk of its reachable certificates alone. |
| TopDownWalk.WalkTraceFacts | rust/src/path.rs:82-111 | At most as many rounds as embedded certificates; accepted positions are exactly the reachable ones, each once; every key used is an anchor's or that of a certificate vouched for earlier in the log; no candidate is tested twice against one key. |
| TopDownWalk.SetCopiesAside | rust/src/path.rs:82-93 | The first loop accepts exactly the anchor copies and leaves the other positions pending, both in order. |
| TopDownWalk.AnyIssuer | rust/src/path.rs:99-99 | The inner search answers whether some issuer issued the candidate, and its tests stop at the first that did. |
| TopDownWalk.RetainUnvouched | rust/src/path.rs:97-104 | The in-place `retain` splits the pending positions into this round's and the rest, in order. |
| TopDownWalk.AuthenticatedTopDown | rust/src/path.rs:78-112 | The loop computes the walk and leaves the log the facts above are about. |
| PathPolicy.WindowsAreExact | rust/src/path.rs:115-154 | Below the anchor, a certificate has a validity problem exactly when the instant is outside its inclusive millisecond window; one that is itself a pinned anchor exactly when its times do not read, it is past its `notAfter`, or the rounded-up second cannot be written; the anchor reached exactly when its times do not read. |
| PathPolicy.AnchorBelowAnother | rust/src/path.rs:128-154 | Anchors B, A in that order and a path leaf, A, B with no problem, although A has not begun. |
| PathPolicy.ReasonsIgnoreProblemOrder | rust/src/path.rs:158-217 | Permuting or repeating the problem list changes the reason of neither verdict. |
| PathPolicy.ReceiptVerdictMeans | rust/src/path.rs:190-217 | `INVALID_CERTIFICATE` exactly for an anchored path with no structural problem and a validity problem; success exactly for an anchored path with no problem, handing on the chain below the anchor; otherwise `UNTRUSTED_CHAIN`. |
| PathPolicy.ReceiptFailureMeans | rust/src/path.rs:158-217 | Which failure, by detail, a receipt's path gets: the first structural problem's, then a missing anchor, a validity window, any other problem. |
| PathPolicy.WindowProblemsInMillis | rust/src/path.rs:128-154 | On an anchored path some validity problem is reported exactly when some certificate below the anchor does not meet its window, one that is itself an anchor only its end, or the anchor's times do not read. |
| PathPolicy.ReceiptPathInMillis | rust/src/path.rs:190-217 | `receipt_path` answers `INVALID_CERTIFICATE` exactly for an anchored path with no structural problem and such a window not met, anchors below the top included. |
| PathPolicy.ValidatePairMeans | rust/src/path.rs:233-307 | `validate_pair` succeeds exactly on leaf, intermediate, anchor, vouched for from the anchor down, usable keys, no problem reported and no late `notAfter`. |
| PathPolicy.ValidatePairFailures | rust/src/path.rs:233-307 | `validate_pair` fails with each failure exactly when its own condition holds: the first link or key that fails, or what the path's problems call for. |
| PathPolicy.PairFailureMeans | rust/src/path.rs:264-306 | The exact condition on the set of problems for each failure: `INVALID_CERTIFICATE` for a window at the intermediate, or at the leaf when the intermediate is clean; the first problem that breaks the path before all others. |
| PathPolicy.ValidPairIsInWindow | rust/src/path.rs:233-307 | A pair that validates meets both its windows, a leaf or intermediate that is itself an anchor the end of its own. |
| Calendar.DayNumberCounts | rust/src/datetime.rs:96-118 | The day number goes up by one from each date to the next, over month and year ends. |
| Calendar.DateOfIsInverse | rust/src/datetime.rs:96-118 | Every day number, negative ones included, is that of a valid date. |
| Calendar.DateOfDayNumber | rust/src/datetime.rs:96-118 | The date of a valid date's day number is that date. |
| Calendar.CivilAtIsInverse | rust/src/datetime.rs:96-118 | Every second is that of a valid civil time, its own. |
| Calendar.CivilAtSecondNumber | rust/src/datetime.rs:162-223 | The civil time of a valid civil time's second is itself. |
| ReceiptDates.EveryOffsetIsInCalendar | rust/src/datetime.rs:96-118 | Every timestamp in every offset up to 25:59:59 stays between the years -9999 and 9999. |
| ReceiptDates.FormatCivilIsExact | rust/src/datetime.rs:50-118 | For every instant that renders and every offset from -93,599 to 0 seconds, `format_civil` succeeds and prints the Gregorian civil time of the floored second plus the offset. |
| ReceiptDates.FormatCivilExists | rust/src/datetime.rs:96-118 | `format_civil` answers exactly when the carried offset exists and the timestamp does. |
| ReceiptDates.RenderingsExist | rust/src/datetime.rs:50-135 | Both renderings of an instant exist exactly when `renders` accepts it. |
| ReceiptDates.PacificIsExact | rust/src/datetime.rs:75-137 | The Pacific rendering is the civil time at the offset the zone has at the floored second, or at `jiff`'s last second for a later one. |
| ReceiptDates.RendersMeans | rust/src/datetime.rs:46-52 | An instant renders from `jiff`'s first timestamp to the last receipt date, and every receipt date does. |
| ReceiptDates.RangeEnds | rust/src/datetime.rs:40-44 | The two range constants are the first instant of the year 0000 and the last of 9999. |
| ReceiptDates.YearReadsBack | rust/src/datetime.rs:91-111 | A rendered year reads back, sign included, and takes four characters wherever it can. |
| ReceiptDateRoundTrip.ParseOfSpell | rust/src/datetime.rs:162-223 | Every spelling of every valid stamp is read as its instant, when that is between `FIRST_MILLIS` and `LAST_MILLIS`, and refused otherwise. |
| ReceiptDateRoundTrip.SpellOfParse | rust/src/datetime.rs:162-223 | Every accepted text is a spelling of a valid stamp with the instant read: nothing else is accepted. |
| ReceiptDateRoundTrip.FractionIsTruncated | rust/src/datetime.rs:189-193 | A fraction of any number of digits is read as its value rounded down to the millisecond. |
| ReceiptDateRoundTrip.ParseOfRendering | rust/src/datetime.rs:96-223 | For every instant from `FIRST_MILLIS` to `LAST_MILLIS`, the GMT rendering rewritten with `T`, three millisecond digits and `Z` is read as that instant. |
| ReceiptDateRoundTrip.RenderingOfParse | rust/src/datetime.rs:96-223 | Every accepted `Z` text with a second below 60 renders back to its own date and time fields. |
| InstancePool.CountedStep | python/apple_purchase_receipt_verifier/_host.py:301-331 | Every step keeps permits plus calls in flight equal to the size, and pooled plus busy instances within it. |
| InstancePool.OwnershipStep | python/apple_purchase_receipt_verifier/_host.py:301-331 | Every step leaves each instance with at most one call or once in the free list, and what is pooled or held sound. |
| InstancePool.RunKeepsInvariant | python/apple_purchase_receipt_verifier/_host.py:284-331 | Every run of steps keeps the invariant. |
| InstancePool.EveryReachableState | python/apple_purchase_receipt_verifier/_host.py:284-331 | In every state any interleaving reaches: permits plus calls equal the size, pooled plus held or being made never exceed it, no instance serves two calls or is pooled and in use, and every pooled one had `init` called on it first, accepted, and never faulted. |
| InstancePool.ReleaseIsBounded | python/apple_purchase_receipt_verifier/_host.py:286-331 | The bounded semaphore is never released past its bound. |
| InstancePool.PooledWithinLimitIff | python/apple_purchase_receipt_verifier/_host.py:290-331 | Every pooled instance is within the retire limit in every run exactly when the constructor's instance was refused or within it. |
| InstancePool.InitOnceIff | python/apple_purchase_receipt_verifier/_host.py:295-331 | Over every run, every instance ever made has `init` called on it once, first, exactly when `init` is not among the exports calls ask for. |
| InstancePool.VerifierInitsOnce | python/apple_purchase_receipt_verifier/verifier.py:99-125 | So it is in every run of the verifier's own three operations. |
| InstancePool.RankFalls | python/apple_purchase_receipt_verifier/_host.py:308-331 | Every step of a call in flight lowers the number of steps calls can still take. |
| InstancePool.NobodyWaits | python/apple_purchase_receipt_verifier/_host.py:308-331 | Every call in flight can go on and can fail, whatever the others do. |
| InstancePool.EveryMaximalRunReturnsThePermits | python/apple_purchase_receipt_verifier/_host.py:308-331 | Every run without new calls, however scheduled and wherever it faults, is bounded, and when no step is left every call is gone and every permit back. |
| InstancePool.CallStepsRun | python/apple_purchase_receipt_verifier/_host.py:301-331 | One undisturbed call is a run of the machine that gives its permit back and leaves the free list with its instance last, if kept. |
| InstancePool.Pool.constructor | python/apple_purchase_receipt_verifier/_host.py:271-293 | The pool starts in the machine's start state, the first instance pooled when accepted. |
| InstancePool.Pool.Enter | python/apple_purchase_receipt_verifier/_host.py:306-306 | Taking a permit is the machine's step, and keeps the invariant. |
| InstancePool.Pool.Take | python/apple_purchase_receipt_verifier/_host.py:310-311 | Under the lock, the last free instance is taken if there is one: the machine's step. |
| InstancePool.Pool.Make | python/apple_purchase_receipt_verifier/_host.py:312-315 | Making an instance, refused or failing, is the machine's step. |
| InstancePool.Pool.Use | python/apple_purchase_receipt_verifier/_host.py:316-322 | The call, the parse and the measure are the machine's step, and the instance is kept exactly when nothing faulted and its memory is within the limit. |
| InstancePool.Pool.GiveBack | python/apple_purchase_receipt_verifier/_host.py:328-330 | Under the lock, the instance is appended: the machine's step. |
| InstancePool.Pool.Leave | python/apple_purchase_receipt_verifier/_host.py:331-331 | Releasing the permit is the machine's step. |
| InstancePool.Pool.Run | python/apple_purchase_receipt_verifier/_host.py:301-331 | With no other call in between, the sections end where the machine's steps for that call lead, with the permit back and the instance last in the free list if kept, and answer exactly when there was an accepted instance and no fault. |
| GuestCall.Instance.Place | python/apple_purchase_receipt_verifier/_host.py:243-248 | The input is written where the guest allocated it, only when that lies inside memory; what is done, and the memory left, are given in every case. |
| GuestCall.PlacedMeans | python/apple_purchase_receipt_verifier/_host.py:243-248 | The pointer is the low 32 bits of the guest's answer; the memory holds the input there and is otherwise unchanged; placing fails exactly when the room is outside memory. |
| GuestCall.Instance.Fetch | python/apple_purchase_receipt_verifier/_host.py:250-256 | The answer is the bytes the return area names, only when area and bytes lie inside memory; the reads made are given in every case. |
| GuestCall.FetchedIsWhatTheAreaNames | python/apple_purchase_receipt_verifier/_host.py:250-256 | For an address and a count written as little-endian words at the area, what is fetched is those octets, when they lie inside memory. |
| GuestCall.Instance.Call | python/apple_purchase_receipt_verifier/_host.py:231-262 | The answer, every act of the host in order with the guest's own addresses and the memory's length at that point, and the memory left, for every guest and wherever the call stops. |
| GuestCall.EveryCallIsDisciplined | python/apple_purchase_receipt_verifier/_host.py:231-262 | For every guest, every read and write of a call lies inside the memory as it was then, and post-return comes last and at most once. |
| GuestCall.AnsweredCall | python/apple_purchase_receipt_verifier/_host.py:231-262 | A call that answers read the area the guest returned and the answer that area names from the memory the guest left, and handed back that area exactly once, after the copy. |
| GuestCall.SentMeans | python/apple_purchase_receipt_verifier/_host.py:238-242 | Only a verification's input is cut, to the limit `init` stated, if it stated one. |
| Base64.StrictIsCanonical | rust/src/base64.rs:80-104 | The strict decoder answers `b` for a text exactly when the text is the canonical encoding of `b`. |
| Base64.ReceiptRoundTrip | rust/src/base64.rs:42-78 | Every non-empty byte string decodes back from `encode`. |
| Base64.ReceiptAcceptsSpellings | rust/src/base64.rs:42-78 | The texts the receipt decoder reads as `b` are exactly the spellings of `b`. |
| Base64.SpellingsDifferInSpareBits | rust/src/base64.rs:42-78 | Spellings of `b` have one length and differ exactly in the unused bits of the last data character. |
| Base64.AcceptedTexts | rust/src/base64.rs:42-78 | There are exactly 1, 16 or 4 accepted texts for length 0, 1 or 2 modulo 3. |
| Jws.SplitIsExact | rust/src/jws.rs:146-154 | A text splits into three segments exactly when it is three dot-free texts joined by dots. |
| Jws.OneSpellingPerJws | rust/src/jws.rs:146-163 | Two texts that pass the split and the decoder with the same decoded segments are one text. |
| Jws.ReadEnvironment | rust/src/jws.rs:279-295 | The loop finds the environment of the first of the three places that is present. |
| Jws.FirstFailingStageDecides | rust/src/jws.rs:131-219 | With every stage judged on its own, the verdict is the failure of the first that fails, and a success when none does. |
| JwsMeaning.SuccessIff | rust/src/jws.rs:131-219 | A JWS verifies with an answer exactly when its three segments are canonical, the header read from the first names `ES256` and three certificates, the first two form the chain at the payload's date or the clock's, the first signed the two segments as sent, and the answer is the text and environment read from the second. |
| JwsMeaning.EnvironmentMeans | rust/src/jws.rs:279-295 | The environment is `Production` or `Sandbox` exactly when the first claim present, at the top, in `data` or in `summary`, is that text. |
| JwsMeaning.InstantOfInteger | rust/src/json.rs:73-83 | Every 64-bit integer a member is written as is read as that instant, and a text, an object or a missing member as none. |
| JwsMeaning.InstantOfFraction | rust/src/json.rs:84-94 | A number with a fraction or an exponent is left to the double-precision reader. |
| Jws.UnreadableIsUndatedUntilTheEnd | rust/src/jws.rs:164-219 | An unreadable payload gets an undated one's verdict at every earlier stage, and turns only the final success into `UNREADABLE_PAYLOAD`. |
| Jws.UnreadClockIsIrrelevant | rust/src/jws.rs:177-184 | Where the clock is not read, every clock gives the same verdict. |
| Jws.OversizedIsTooLarge | rust/src/jws.rs:136-141 | A text over the cap is `TOO_LARGE`, whatever it holds. |
| JwsRun.AnyAnchorIssued | rust/src/path.rs:239-244 | Trying the anchors in order uses their keys up to the first that issued the intermediate, and no other. |
| JwsRun.CheckPair | rust/src/path.rs:233-307 | `validate_pair` as it runs gives its verdict and makes exactly the key uses listed for it, each where it is reached. |
| JwsRun.VerifySignature | rust/src/jws.rs:297-317 | The buffer filled is the two segments as sent, joined by a dot, and that is what the leaf's key checks. |
| JwsRun.EveryKeyIsVouchedFor | rust/src/jws.rs:185-202 | Over every run, failing ones included, each key used as an issuer, on the path or for the JWS signature belongs to a pinned anchor or to a certificate vouched for earlier. |
| JwsRun.PairUsesAreSafe | rust/src/path.rs:239-264 | So it is within `validate_pair`, and its success vouches for the leaf. |
| JwsRun.SignatureDecides | rust/src/jws.rs:185-203 | The leaf's key checks the JWS signature at most once, last; it fails exactly for `INVALID_SIGNATURE` and passes exactly for success and `UNREADABLE_PAYLOAD`. |
| JwsRun.Verify | rust/src/jws.rs:131-219 | The run gives the staged verdict, makes exactly the key uses listed for it, and reads the clock at most once, exactly when the stages before the chain passed and no usable date is stated. |
| BerRoundTrip.ElementReads | rust/fuzz/derive-seeds.py:72-97 | For every tree within the depth bound, any mix of definite and indefinite lengths, at any place in any buffer, `element` recovers the tree with its children contiguous. |
| BerRoundTrip.ElementWasWritten | rust/fuzz/derive-seeds.py:72-97 | Every element accepted is the encoding of some tree within the bound, and the node is that tree's. |
| BerRoundTrip.ElementAcceptsEncodings | rust/fuzz/derive-seeds.py:39-97 | `element` answers a node exactly when the encoding of a tree with that node stands there. |
| BerRoundTrip.ChildrenTile | rust/fuzz/derive-seeds.py:79-93 | Children start where the one before ended, from the content's start to its end. |
| BerRoundTrip.HeaderReads | rust/fuzz/derive-seeds.py:39-69 | A header is recovered for every tag, high tag numbers included, and every length form. |
| Ber.IdentifierReads | rust/fuzz/derive-seeds.py:44-57 | The identifier octet's constructed bit and the high tag number are the ones section 8.1.2 of X.690 defines. |
| BerRoundTrip.OctetsAreLeaves | rust/fuzz/derive-seeds.py:100-105 | `octets` of any chunking of a string is its leaves' contents joined. |
| BerRoundTrip.PastHighTag | rust/fuzz/derive-seeds.py:46-51 | The loop ends after the first octet below 128, or refuses at the buffer's end. |
| BerRoundTrip.HeaderAt | rust/fuzz/derive-seeds.py:39-69 | `header` computes the header the round trip is about. |
| BerRoundTrip.ElementAt | rust/fuzz/derive-seeds.py:72-97 | `element` terminates on every buffer and computes the node the round trip is about. |
| BerRoundTrip.ChildrenAt | rust/fuzz/derive-seeds.py:79-93 | The cursor loop collects exactly the children up to the stated end or the end-of-contents octets. |
| InputBytes.AtMostThreeBytesAUnit | node/src/verifier.ts:68-72 | A code unit takes at most three UTF-8 bytes, so the short branch never exceeds the limit. |
| InputBytes.Utf8RoundTrip | node/src/verifier.ts:68-79 | Each code point can be read back from its bytes, whose number the first states. |
| InputBytes.EncodeOfUtf16 | node/src/verifier.ts:68-79 | A well-formed UTF-16 text is encoded code point by code point. |
| InputBytes.LoneIsReplaced | node/src/verifier.ts:68-79 | A surrogate without its other half, and nothing else, becomes the replacement character. |
| InputBytes.FittingIsAPrefix | node/src/verifier.ts:73-78 | What fits a buffer is a prefix of the encoding, and all of it unless less than four bytes of room are left. |
| InputBytes.EncodeInto | node/src/verifier.ts:77-77 | `encodeInto` fills the buffer with whole code points up to the first that does not fit. |
| InputBytes.RoomIsEnough | node/src/verifier.ts:73-78 | Three bytes past the limit make the cut prefix the first `max` bytes of the encoding. |
| InputBytes.InputBytesOf | node/src/verifier.ts:68-79 | On both branches, lone surrogates and non-strings included, the result is the first min(length, max) bytes of the encoding. |
| InputBytes.NodeCutsUnseen | rust/src/lib.rs:139-150 | With `MAX_INPUT_BYTES`, the JWS operation, the endpoint and any receipt verification that keeps its cap answer for the cut input as for the whole. |
| InputBytes.CutIsUnseen | rust/src/lib.rs:134-143 | An operation that answers everything over its cap alike cannot tell an input from one cut past the cap. |
| InputBytes.HostsCutAlike | python/apple_purchase_receipt_verifier/_host.py:238-242 | The Python host cuts an input exactly as node does. |
| SchemaBundle.OnlyTheRestIsLeft | rust/server/build.rs:114-134 | After any part of the loop, an external `$ref` left was in the document and is still to come, or is a schema file that is a text called `$ref`. |
| SchemaBundle.NoExternalReferenceRemainsIff | rust/server/build.rs:109-134 | No `$ref` into the schema directory is left in the served document, exactly unless a schema file called `$ref` is itself such a text. |
| SchemaBundle.NamePathReaches | rust/server/build.rs:114-134 | What each name holds at the end, whatever the files hold. |
| SchemaBundle.EmbeddedStandsIff | rust/server/build.rs:114-134 | Each name holds the embedded schema of the last file with that name, untouched by later steps, exactly unless it is a text under `$ref` that is rewritten. |
| SchemaBundle.NameMeans | rust/server/build.rs:115-116 | A reference is the schema directory, the name, any number of `.schema` and any number of `.json`, and the name has none of them left. |
| SchemaMeaning.ExternalRefKeepsMeaning | rust/server/build.rs:132-133 | Under a plain name, the reference written for an external one reaches its schema in the served document, with the same exception. |
| SchemaMeaning.MissingFileSaysSo | rust/server/build.rs:125-130 | Where the file is missing, the reference reaches an object that says so. |
| SchemaMeaning.NameIsReachedIff | rust/server/build.rs:132-133 | It does so for all files and all documents, with exactly the references the document holds, exactly when the name holds no slash and no pointer escape. |
| SchemaMeaning.SlashedNameIsLost | rust/server/build.rs:132-133 | A document that refers to `a/b.json`: the reference written for it reaches nothing. |
| SchemaMeaning.LocalRefKeepsMeaning | rust/server/build.rs:152-181 | Under a plain name, a local `$ref`, re-anchored, reaches in the served document the re-anchored image of its original target, exactly unless it had one through a dropped root member. |
| SchemaMeaning.LocalIsKeptIff | rust/server/build.rs:152-181 | For each local `$ref`, that holds for all files that hold it and all documents, with exactly the references the document holds, exactly when the name is plain. |
| SchemaMeaning.OwnIdIsLost | rust/server/build.rs:152-156 | A document that refers to a schema that refers to its own `$id`: that reference reaches nothing in the served document. |
| SchemaMeaning.TextCalledRefRemains | rust/server/build.rs:132-133 | A document that refers to a text schema file called `$ref.json` is served with an external `$ref` left. |
| SchemaMeaning.ServedDocumentKeepsMeaning | rust/server/build.rs:104-139 | With distinct plain names and no text called `$ref`: nothing refers outside, every external and local reference keeps its meaning, and so does every path of the document apart from the schemas. |
| SchemaBundle.OwnPathKeepsMeaning | rust/server/build.rs:109-134 | A path of the document apart from the embedded schemas reaches what it reached, with the external references rewritten. |
| SchemaBundle.EmbeddedIsInside | rust/server/build.rs:152-159 | An embedded schema refers to nothing in the schema directory. |
| SchemaBuild.AnchorLocalRefs | rust/server/build.rs:161-181 | The walk re-anchors every `$ref` and refuses exactly a tree holding one that is not local. |
| SchemaBuild.RewriteRef | rust/server/build.rs:200-214 | The walk replaces exactly the `$ref`s with the given text. |
| SchemaBuild.CollectRefs | rust/server/build.rs:183-198 | The texts pushed are exactly the external `$ref`s of the tree. |
| SchemaBuild.EmbedSchema | rust/server/build.rs:152-159 | The embedded schema is the file without its root `$id` and `$schema`, re-anchored. |
| SchemaBuild.BundleRefs | rust/server/build.rs:114-134 | The loop computes the bundle of a list of references, and refuses where a step does. |
| SchemaBuild.BundleOpenApi | rust/server/build.rs:104-134 | Collecting, sorting, dropping repeats and the loop together bundle the one ascending list of the document's external references. |
| TextOrder.SortedOnceIsAscending | rust/server/build.rs:111-112 | The sorted list without repeats is strictly ascending and has the same members. |
| TextOrder.LessIsLexicographic | rust/server/build.rs:111-111 | The order is lexicographic. |
| TextOrder.AscendingIsUnique | rust/server/build.rs:111-112 | A set of texts has one strictly ascending list. |
| JsonTree.ResolveOfMap | rust/server/build.rs:161-181 | A pointer reaches, after the references are changed, the image of what it reached before. |
| JsonTree.ResolveElsewhere | rust/server/build.rs:132-132 | Setting a value at a path changes nothing on a path apart from it. |
| JsonTree.MentionsOfMap | rust/server/build.rs:200-214 | The reference texts after a replacement are images of those before. |
| JsonTree.MentionsOfSet | rust/server/build.rs:132-132 | Setting a value adds only that value's references. |
| Decimal.ParseOfFormat | go/receiptpayload.go:128-134 | Every 64-bit integer reads back from its decimal text. |
| Decimal.ParseIntMeans | go/receiptpayload.go:285-288 | A text reads as an integer exactly when it is digits, alone or after one sign, within 64 bits. |
| Decimal.FormatIntIsInjective | go/receiptpayload.go:138-148 | Two attribute types have one text only when they are one type. |
| ReceiptWire.StdRoundTrip | go/receiptpayload.go:143-143 | Octets read back from their padded base64. |
| ReceiptWire.LineBreaksAreSkipped | go/receiptpayload.go:304-306 | Line breaks of either kind, anywhere, change nothing. |
| ReceiptWire.AttributesJson | go/receiptpayload.go:138-148 | Whatever the order of visits, each type stands under its decimal text with its values encoded, and there are as many entries as types. |
| ReceiptWire.AttributesRoundTrip | go/receiptpayload.go:295-311 | Reading what was written gives the attributes back, whatever the order of visits. |
| ReceiptWire.AttributesFromJson | go/receiptpayload.go:295-311 | The loops read the wire in the order given, refusing a bad key or value. |
| ReceiptWire.ReadKeys | go/receiptpayload.go:295-311 | A visit succeeds exactly when every key and value reads, and then has exactly the types of the keys. |
| ReceiptWire.LastKeyDecides | go/receiptpayload.go:309-309 | The key of a type that is visited last decides its values. |
| ReceiptWire.OrderIsUnseenIff | go/receiptpayload.go:295-311 | The result is the same for every order exactly when something does not read or no two keys of one type differ in values. |
| ReceiptWire.SevenTwice | go/receiptpayload.go:297-309 | A wire with the keys `7` and `07` on which the order is seen. |
| ReceiptWire.PayloadRoundTrip | go/receiptpayload.go:161-311 | `receiptFromJSON` after `ToJSON` gives back every payload whose strings are valid UTF-8, nil and empty collections identified, with the environment stated beside it. |
| ReceiptWire.ToJson | go/receiptpayload.go:161-187 | The loops write the JSON the round trip is about. |
| ReceiptWire.PurchaseOf | go/receiptpayload.go:257-277 | A purchase is read with its id and its attributes, or refused when one of them does not read. |
| ReceiptWire.FromJson | go/receiptpayload.go:213-255 | The loops read it, refusing the whole where a part does not read. |
| Endpoint.EveryAnswer | rust/src/endpoint.rs:72-126 | The exact condition for each status: 0 for a verified receipt at its own endpoint with no raw attribute 17 and a clock that renders; 21002 for malformed or oversized; 21003 for the four authentication reasons; 21007 and 21008 at the other endpoint; 21009 for an unreadable payload, an internal error, a raw attribute 17 or a clock that does not render; no other status, and a body exactly with 0. |
| Endpoint.VerifiedMeans | rust/src/endpoint.rs:78-79 | An oversized or malformed body is refused before any verification, which otherwise decides, with the same clock. |
| Endpoint.HomeMeans | rust/src/environment.rs:38-44 | The production endpoint is home to `Production` and `ProductionVPP` receipts only. |
| Endpoint.ExactlyOneEndpointAnswersZero | rust/src/endpoint.rs:80-112 | A verified receipt with no raw attribute 17 and a rendering clock gets status 0 in exactly one environment. |
| Endpoint.OnlyTheClockFailsToRender | rust/src/endpoint.rs:165-227 | With every date from `parse_receipt_date`, `render` fails exactly when the clock does not render. |
| Endpoint.ObjectsHoldTheirFields | rust/src/endpoint.rs:178-324 | The answer's objects hold each field of their tables with its value, absent where it has none, none overwritten and nothing else. |
| AnswerReader.AnswerReadsBack | rust/src/endpoint.rs:178-324 | Every status-0 answer reads back as the receipt it was made from, but for what has no key in it, with each date in its three forms and the request's date. |
| Endpoint.AppleDates | rust/src/endpoint.rs:312-324 | All three forms of a date are inserted, or the date is refused, exactly when one form does not exist. |
| Endpoint.PurchaseJson | rust/src/endpoint.rs:229-282 | A purchase's insertions fill its table, or are refused exactly when a date does not render. |
| Endpoint.ReceiptJson | rust/src/endpoint.rs:178-227 | The receipt's insertions fill its table, purchases in order, or are refused exactly when a date does not render. |
| Endpoint.RespondTo | rust/src/endpoint.rs:72-112 | The method gives the answer the results above are about. |
| Endpoint.UnreadClockIsIrrelevant | rust/src/endpoint.rs:80-110 | Two clock readings for which the receipt's verification gives one result get one answer wherever the endpoint does not itself read the clock: for a failure, at the other endpoint, or with a raw attribute 17. |
| Endpoint.ReadClockIsStated | rust/src/endpoint.rs:94-105 | Where it does read it, two rendering readings with one verification result get one answer exactly when they are equal, because the answer states it. |
| Endpoint.OversizedIsMalformed | rust/src/endpoint.rs:142-148 | A request over the cap answers 21002, whatever it holds. |

## Left out

- OpenSSL: signatures, X.509 and CMS decoding and path building are arbitrary functions.
- The JSON grammar of serde_json and Go's encoding/json, and the double-precision branch of a JSON instant: documents enter as members, and numbers with a fraction or an exponent through a reader. Go's replacement of invalid UTF-8 in strings is therefore not seen by `ReceiptWire`.
- The IANA table: the Pacific zone is any function with negative offsets down to -93,599 seconds.
- Receipt verification (`rust/src/receipt.rs`, `rust/src/receipt_payload.rs`): an arbitrary result, held to its size cap where that matters.
- Failure messages and sources: a failure is its reason and, for paths, which check failed.
- Node's `Slot` lifecycle and `randomGet`, wasm compilation and ABI checks, transports, command lines and installers: they would add only one-branch facts.
- Instance state other than linear memory and `max_input`: the guest's exports are functions of the memory.
- Asynchronous exceptions between the pool's `acquire` and its `try`, or inside its `finally` block, either of which loses a permit.
- InstancePool.Pool.Run: one call without another in between; interleavings are those of the sections, each of which is a step of the machine.
- Endpoint.PurchaseJson: runs of `present_*` insertions between two dates are one loop over their fields.
- SchemaBuild.BundleOpenApi: the tree is a value rather than changed in place, pointers are not percent-decoded, and a file that is not JSON, which stops the build, is not modelled.
