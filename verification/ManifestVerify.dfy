/** Acceptance of a parsed runtime manifest by a keyring of trusted publisher keys. */
module ManifestVerify {
  import opened Wrappers
  import opened Bytes
  import opened ManifestPayload

  const MAX_TRUSTED_KEYS := 8
  const PUBLIC_KEY_BYTES := 32
  const MIN_UNIX_SECOND := 1_700_000_000
  const MAX_UNIX_SECOND := 4_102_444_800
  const MAX_SUPPORT_SECONDS := 1_095 * 24 * 60 * 60
  const MAX_ACTIVATION_SKEW := 5 * 60

  datatype TrustedKey = TrustedKey(algorithm: Text, keyId: Text, publicKey: Text, activation: U64, notAfter: U64)

  datatype Signature = Signature(algorithm: Text, keyId: Text, signature: Text)

  datatype Manifest = Manifest(claims: Claims, signatures: seq<Signature>)

  /** The cryptography and encodings the verifier relies on, of which nothing is assumed. */
  datatype Library = Library(
    keyIdOf: Text -> Text,                     // the key identifier that is the fingerprint of a public key
    verify: (Text, Text, Text) -> bool,        // public key, payload, signature
    decode: Text -> Option<Text>,              // canonical padded base64 of a signature
    identityOk: Claims -> bool)                // the claims other than the times

  function Minus64(a: U64, b: U64): U64 { (a - b) % 0x1_0000_0000_0000_0000 }

  /** The interval check as written, on unsigned words. */
  predicate IntervalOk(c: Claims) {
    !(c.issuedAt < MIN_UNIX_SECOND
      || c.issuedAt > c.notBefore
      || c.notBefore > c.validUntil
      || c.validUntil > MAX_UNIX_SECOND
      || Minus64(c.notBefore, c.issuedAt) > MAX_ACTIVATION_SKEW
      || Minus64(c.validUntil, c.issuedAt) > MAX_SUPPORT_SECONDS)
  }

  /** The guards before them keep the unsigned subtractions from wrapping. */
  lemma IntervalDoesNotWrap(c: Claims)
    ensures IntervalOk(c) <==>
              && MIN_UNIX_SECOND <= c.issuedAt <= c.notBefore <= c.validUntil <= MAX_UNIX_SECOND
              && c.notBefore <= c.issuedAt + MAX_ACTIVATION_SKEW
              && c.validUntil <= c.issuedAt + MAX_SUPPORT_SECONDS
  {
    if c.issuedAt <= c.notBefore <= c.validUntil {
      assert Minus64(c.notBefore, c.issuedAt) == c.notBefore - c.issuedAt;
      assert Minus64(c.validUntil, c.issuedAt) == c.validUntil - c.issuedAt;
    }
  }

  predicate Current(c: Claims, now: int) { c.notBefore <= now <= c.validUntil }

  predicate ValidKey(lib: Library, key: TrustedKey) {
    && key.algorithm == SignatureVersion()
    && CanonicalKeyId(key.keyId)
    && |key.publicKey| == PUBLIC_KEY_BYTES
    && key.keyId == lib.keyIdOf(key.publicKey)
    && MIN_UNIX_SECOND <= key.activation < key.notAfter <= MAX_UNIX_SECOND
  }

  predicate DistinctIds(keys: seq<TrustedKey>) {
    forall i, j :: 0 <= i < j < |keys| ==> keys[i].keyId != keys[j].keyId
  }

  predicate KeyringOk(lib: Library, keys: seq<TrustedKey>) {
    && 1 <= |keys| <= MAX_TRUSTED_KEYS
    && (forall i :: 0 <= i < |keys| ==> ValidKey(lib, keys[i]))
    && DistinctIds(keys)
  }

  predicate WellFormed(lib: Library, s: Signature) {
    s.algorithm == SignatureVersion() && CanonicalKeyId(s.keyId) && lib.decode(s.signature).Some?
  }

  /** What a key demands of a signature made under its identifier. */
  predicate Covers(lib: Library, key: TrustedKey, c: Claims, s: Signature) {
    && key.activation <= c.issuedAt && c.validUntil <= key.notAfter
    && CanonicalPayload(c, s.algorithm, s.keyId).Signed?
    && lib.decode(s.signature).Some?
    && lib.verify(key.publicKey, CanonicalPayload(c, s.algorithm, s.keyId).bytes, lib.decode(s.signature).value)
  }

  /** Each key the signature names covers it; an unknown signer is passed over. */
  predicate SignatureOk(lib: Library, keys: seq<TrustedKey>, c: Claims, s: Signature) {
    WellFormed(lib, s) && forall key :: key in keys && key.keyId == s.keyId ==> Covers(lib, key, c, s)
  }

  predicate Trusted(keys: seq<TrustedKey>, s: Signature) {
    exists key :: key in keys && key.keyId == s.keyId
  }

  predicate SomeTrusted(keys: seq<TrustedKey>, signatures: seq<Signature>) {
    exists s :: s in signatures && Trusted(keys, s)
  }

  predicate Increasing(signatures: seq<Signature>) {
    forall i, j :: 0 <= i < j < |signatures| ==> Less(signatures[i].keyId, signatures[j].keyId)
  }

  /** Every signature is in order, and none by a known key fails. */
  predicate GoodSignatures(lib: Library, keys: seq<TrustedKey>, c: Claims, signatures: seq<Signature>) {
    && (forall i :: 0 <= i < |signatures| ==> SignatureOk(lib, keys, c, signatures[i]))
    && Increasing(signatures)
  }

  /** What acceptance means. */
  predicate Accepts(lib: Library, m: Manifest, keys: seq<TrustedKey>, now: int) {
    && KeyringOk(lib, keys)
    && lib.identityOk(m.claims) && IntervalOk(m.claims) && Current(m.claims, now)
    && GoodSignatures(lib, keys, m.claims, m.signatures)
    && SomeTrusted(keys, m.signatures)
  }

  datatype VerifyError =
    | NotProvisioned | IdentityMismatch | BadInterval | NotActive | Expired | InvalidKey | DuplicateKey
    | BadSignatureHeader | DuplicateSignature | NotOrdered | BadEncoding | AlgorithmMismatch | OutsideKeyInterval
    | PayloadRefused(error: PayloadError) | BadSignature | NoTrustedSignature

  ghost predicate Indexes(trusted: map<Text, TrustedKey>, keys: seq<TrustedKey>) {
    && (forall id :: id in trusted ==> trusted[id] in keys && trusted[id].keyId == id)
    && (forall key :: key in keys ==> key.keyId in trusted && trusted[key.keyId] == key)
  }

  /** The first `n` keys are valid and distinct, and indexed. */
  ghost predicate Indexed(lib: Library, keys: seq<TrustedKey>, n: nat, trusted: map<Text, TrustedKey>) {
    && n <= |keys|
    && (forall i :: 0 <= i < n ==> ValidKey(lib, keys[i]))
    && DistinctIds(keys[..n])
    && Indexes(trusted, keys[..n])
  }

  lemma IndexOne(lib: Library, keys: seq<TrustedKey>, n: nat, trusted: map<Text, TrustedKey>)
    requires n < |keys| && Indexed(lib, keys, n, trusted) && ValidKey(lib, keys[n]) && keys[n].keyId !in trusted
    ensures Indexed(lib, keys, n + 1, trusted[keys[n].keyId := keys[n]])
  {
    assert forall i :: 0 <= i < n ==> keys[..n][i] in keys[..n];
    assert keys[..n + 1] == keys[..n] + [keys[n]];
  }

  lemma DuplicateSpoils(keys: seq<TrustedKey>, n: nat, trusted: map<Text, TrustedKey>)
    requires n < |keys| && Indexes(trusted, keys[..n]) && keys[n].keyId in trusted
    ensures !DistinctIds(keys)
  {
    var i :| 0 <= i < n && keys[..n][i] == trusted[keys[n].keyId];
    assert keys[i].keyId == keys[n].keyId;
  }

  /** Builds the index of the keyring, or finds the key that spoils it. */
  method IndexKeyring(lib: Library, keys: seq<TrustedKey>)
    returns (trusted: map<Text, TrustedKey>, error: Option<VerifyError>)
    ensures error == None <==> (forall i :: 0 <= i < |keys| ==> ValidKey(lib, keys[i])) && DistinctIds(keys)
    ensures error == None ==> Indexes(trusted, keys)
    ensures error != Some(NotActive) && error != Some(Expired) && error != Some(NotProvisioned)
  {
    trusted := map[];
    var n := 0;
    while n < |keys|
      invariant 0 <= n && Indexed(lib, keys, n, trusted)
    {
      var key := keys[n];
      if !ValidKey(lib, key) { return trusted, Some(InvalidKey); }
      if key.keyId in trusted {
        DuplicateSpoils(keys, n, trusted);
        return trusted, Some(DuplicateKey);
      }
      IndexOne(lib, keys, n, trusted);
      trusted := trusted[key.keyId := key];
      n := n + 1;
    }
    assert keys[..n] == keys;
    error := None;
  }

  /** The checks of one signature by the key it names. */
  method CheckCovered(lib: Library, key: TrustedKey, c: Claims, s: Signature, decoded: Text)
    returns (error: Option<VerifyError>)
    requires key.algorithm == s.algorithm && lib.decode(s.signature) == Some(decoded)
    ensures error == None <==> Covers(lib, key, c, s)
    ensures error != Some(NotActive) && error != Some(Expired) && error != Some(NotProvisioned)
  {
    if key.algorithm != s.algorithm { return Some(AlgorithmMismatch); }
    if c.issuedAt < key.activation || c.validUntil > key.notAfter { return Some(OutsideKeyInterval); }
    var payload := BuildPayload(c, s.algorithm, s.keyId);
    if payload.Refused? { return Some(PayloadRefused(payload.error)); }
    if !lib.verify(key.publicKey, payload.bytes, decoded) { return Some(BadSignature); }
    return None;
  }

  /** Decodes one signature and has it checked if its signer is known. */
  method CheckSigner(lib: Library, keys: seq<TrustedKey>, trusted: map<Text, TrustedKey>, c: Claims, s: Signature)
    returns (error: Option<VerifyError>, known: bool)
    requires Indexes(trusted, keys) && forall key :: key in keys ==> key.algorithm == SignatureVersion()
    requires s.algorithm == SignatureVersion() && CanonicalKeyId(s.keyId)
    ensures error == None <==> SignatureOk(lib, keys, c, s)
    ensures known <==> Trusted(keys, s)
    ensures error != Some(NotActive) && error != Some(Expired) && error != Some(NotProvisioned)
  {
    known := s.keyId in trusted;
    var decoded := lib.decode(s.signature);
    if decoded == None { return Some(BadEncoding), known; }
    if known {
      error := CheckCovered(lib, trusted[s.keyId], c, s, decoded.value);
    } else {
      error := None;
    }
  }

  function IdsOf(signatures: seq<Signature>): set<Text> { set s | s in signatures :: s.keyId }

  /** What a signature must show before it is decoded: a header of the one known form, under an identifier that is
      new and above the last. */
  predicate HeaderOk(s: Signature, seen: set<Text>, previousKeyId: Text) {
    && s.algorithm == SignatureVersion() && CanonicalKeyId(s.keyId)
    && s.keyId !in seen
    && (previousKeyId == [] || Less(previousKeyId, s.keyId))
  }

  method CheckHeader(s: Signature, seen: set<Text>, previousKeyId: Text) returns (error: Option<VerifyError>)
    ensures error == None <==> HeaderOk(s, seen, previousKeyId)
    ensures error != Some(NotActive) && error != Some(Expired) && error != Some(NotProvisioned)
  {
    if s.algorithm != SignatureVersion() || !CanonicalKeyId(s.keyId) { return Some(BadSignatureHeader); }
    if s.keyId in seen { return Some(DuplicateSignature); }
    LessTotal(s.keyId, previousKeyId);
    if previousKeyId != [] && (Less(s.keyId, previousKeyId) || s.keyId == previousKeyId) { return Some(NotOrdered); }
    return None;
  }

  /** What the loop remembers of the signatures before `n`. */
  predicate Remembers(signatures: seq<Signature>, n: nat, seen: set<Text>, previousKeyId: Text) {
    && n <= |signatures|
    && seen == IdsOf(signatures[..n])
    && previousKeyId == if n == 0 then [] else signatures[n - 1].keyId
  }

  /** A refused header means that the signatures are not all well formed and in order. */
  lemma HeaderSpoils(signatures: seq<Signature>, n: nat, seen: set<Text>, previousKeyId: Text)
    requires n < |signatures| && Remembers(signatures, n, seen, previousKeyId)
    requires !HeaderOk(signatures[n], seen, previousKeyId)
    ensures !(signatures[n].algorithm == SignatureVersion() && CanonicalKeyId(signatures[n].keyId))
            || !Increasing(signatures)
  {
    LessIrreflexive(signatures[n].keyId);
    if signatures[n].keyId in seen {
      var s :| s in signatures[..n] && s.keyId == signatures[n].keyId;
      var i :| 0 <= i < n && signatures[i] == s;
    }
  }

  /** The checks of signature `n` spoil the whole, or extend the good signatures by one. */
  lemma OneMoreSignature(lib: Library, keys: seq<TrustedKey>, c: Claims, signatures: seq<Signature>, n: nat,
                         seen: set<Text>, previousKeyId: Text)
    requires n < |signatures| && Remembers(signatures, n, seen, previousKeyId)
    requires GoodSignatures(lib, keys, c, signatures[..n])
    ensures if HeaderOk(signatures[n], seen, previousKeyId) && SignatureOk(lib, keys, c, signatures[n])
            then GoodSignatures(lib, keys, c, signatures[..n + 1])
            else !GoodSignatures(lib, keys, c, signatures)
  {
    var s := signatures[n];
    if !HeaderOk(s, seen, previousKeyId) {
      HeaderSpoils(signatures, n, seen, previousKeyId);
    } else if SignatureOk(lib, keys, c, s) {
      IncreasingGrows(signatures, n);
      var more := signatures[..n + 1];
      forall i | 0 <= i < |more| ensures SignatureOk(lib, keys, c, more[i]) {
        if i < n { assert SignatureOk(lib, keys, c, signatures[..n][i]); }
      }
    }
  }

  method CheckSignature(lib: Library, keys: seq<TrustedKey>, trusted: map<Text, TrustedKey>, c: Claims, s: Signature,
                        seen: set<Text>, previousKeyId: Text)
    returns (error: Option<VerifyError>, known: bool)
    requires Indexes(trusted, keys) && forall key :: key in keys ==> key.algorithm == SignatureVersion()
    ensures error == None <==> HeaderOk(s, seen, previousKeyId) && SignatureOk(lib, keys, c, s)
    ensures known <==> Trusted(keys, s)
    ensures error != Some(NotActive) && error != Some(Expired) && error != Some(NotProvisioned)
  {
    known := s.keyId in trusted;
    error := CheckHeader(s, seen, previousKeyId);
    if error != None { return; }
    error, known := CheckSigner(lib, keys, trusted, c, s);
  }

  /** The signature loop, with its running count, last identifier and set of identifiers seen. */
  method CheckSignatures(lib: Library, keys: seq<TrustedKey>, trusted: map<Text, TrustedKey>, c: Claims,
                         signatures: seq<Signature>)
    returns (error: Option<VerifyError>)
    requires Indexes(trusted, keys) && forall key :: key in keys ==> key.algorithm == SignatureVersion()
    ensures error == None <==> GoodSignatures(lib, keys, c, signatures) && SomeTrusted(keys, signatures)
    ensures error != Some(NotActive) && error != Some(Expired) && error != Some(NotProvisioned)
  {
    var seen: set<Text> := {};
    var trustedValid := 0;
    var previousKeyId: Text := [];
    var n := 0;
    while n < |signatures|
      invariant Remembers(signatures, n, seen, previousKeyId)
      invariant GoodSignatures(lib, keys, c, signatures[..n])
      invariant 0 <= trustedValid
      invariant trustedValid > 0 <==> SomeTrusted(keys, signatures[..n])
    {
      var s := signatures[n];
      var problem, known := CheckSignature(lib, keys, trusted, c, s, seen, previousKeyId);
      OneMoreSignature(lib, keys, c, signatures, n, seen, previousKeyId);
      if problem != None { return problem; }
      if known { trustedValid := trustedValid + 1; }
      SomeTrustedGrows(keys, signatures, n);
      RemembersOneMore(signatures, n, seen, previousKeyId);
      seen := seen + {s.keyId};
      previousKeyId := s.keyId;
      n := n + 1;
    }
    assert signatures[..n] == signatures;
    return if trustedValid == 0 then Some(NoTrustedSignature) else None;
  }

  lemma RemembersOneMore(signatures: seq<Signature>, n: nat, seen: set<Text>, previousKeyId: Text)
    requires n < |signatures| && Remembers(signatures, n, seen, previousKeyId)
    ensures Remembers(signatures, n + 1, seen + {signatures[n].keyId}, signatures[n].keyId)
  {
    assert signatures[..n + 1] == signatures[..n] + [signatures[n]];
  }

  lemma SomeTrustedGrows(keys: seq<TrustedKey>, signatures: seq<Signature>, n: nat)
    requires n < |signatures|
    ensures SomeTrusted(keys, signatures[..n + 1])
            <==> SomeTrusted(keys, signatures[..n]) || Trusted(keys, signatures[n])
  {
    assert signatures[..n + 1] == signatures[..n] + [signatures[n]];
    assert forall s :: s in signatures[..n + 1] <==> s in signatures[..n] || s == signatures[n];
  }

  /** Comparing with the last identifier only is enough. */
  lemma IncreasingGrows(signatures: seq<Signature>, n: nat)
    requires n < |signatures| && Increasing(signatures[..n])
    requires n > 0 ==> Less(signatures[n - 1].keyId, signatures[n].keyId)
    ensures Increasing(signatures[..n + 1])
  {
    forall i | 0 <= i < n ensures Less(signatures[i].keyId, signatures[n].keyId) {
      if i < n - 1 {
        assert signatures[..n][i] == signatures[i] && signatures[..n][n - 1] == signatures[n - 1];
        LessTransitive(signatures[i].keyId, signatures[n - 1].keyId, signatures[n].keyId);
      }
    }
  }

  /** An accepted manifest has a signature that some key of the keyring verifies over the payload of its claims. */
  lemma AcceptedIsSigned(lib: Library, m: Manifest, keys: seq<TrustedKey>, now: int)
    requires Accepts(lib, m, keys, now)
    ensures m.claims.notBefore <= now <= m.claims.validUntil
    ensures exists i, j :: 0 <= i < |m.signatures| && 0 <= j < |keys|
              && keys[j].keyId == m.signatures[i].keyId
              && CanonicalPayload(m.claims, m.signatures[i].algorithm, m.signatures[i].keyId).Signed?
              && lib.decode(m.signatures[i].signature).Some?
              && lib.verify(keys[j].publicKey,
                            CanonicalPayload(m.claims, m.signatures[i].algorithm, m.signatures[i].keyId).bytes,
                            lib.decode(m.signatures[i].signature).value)
  {
    var s :| s in m.signatures && Trusted(keys, s);
    var key :| key in keys && key.keyId == s.keyId;
    var i :| 0 <= i < |m.signatures| && m.signatures[i] == s;
    var j :| 0 <= j < |keys| && keys[j] == key;
    assert SignatureOk(lib, keys, m.claims, m.signatures[i]);
    assert Covers(lib, keys[j], m.claims, m.signatures[i]);
  }

  /** `verifyRuntimeManifestV2` on a parsed manifest: it accepts exactly what `Accepts` says. */
  method VerifyManifest(lib: Library, m: Manifest, keys: seq<TrustedKey>, now: int) returns (error: Option<VerifyError>)
    ensures error == None <==> Accepts(lib, m, keys, now)
    // what is accepted is current, and signed by a key of the keyring
    ensures error == None ==> m.claims.notBefore <= now <= m.claims.validUntil
    ensures error == None ==>
              exists i, j :: 0 <= i < |m.signatures| && 0 <= j < |keys|
                && keys[j].keyId == m.signatures[i].keyId
                && CanonicalPayload(m.claims, m.signatures[i].algorithm, m.signatures[i].keyId).Signed?
                && lib.decode(m.signatures[i].signature).Some?
                && lib.verify(keys[j].publicKey,
                              CanonicalPayload(m.claims, m.signatures[i].algorithm, m.signatures[i].keyId).bytes,
                              lib.decode(m.signatures[i].signature).value)
    // without a signature under an identifier of the keyring nothing is accepted
    ensures (forall i, j :: 0 <= i < |m.signatures| && 0 <= j < |keys| ==> keys[j].keyId != m.signatures[i].keyId) ==>
              error != None
    ensures error == Some(NotActive) ==> now < m.claims.notBefore
    ensures error == Some(Expired) ==> now > m.claims.validUntil
    ensures error == Some(NotProvisioned) <==> |keys| == 0 || |keys| > 8
  {
    if |keys| < 1 || |keys| > MAX_TRUSTED_KEYS { return Some(NotProvisioned); }
    if !lib.identityOk(m.claims) { return Some(IdentityMismatch); }
    if !IntervalOk(m.claims) { return Some(BadInterval); }
    if now < 0 || now < m.claims.notBefore { return Some(NotActive); }
    if now > m.claims.validUntil { return Some(Expired); }
    error := VerifySignatures(lib, m, keys);
    if error == None { AcceptedIsSigned(lib, m, keys, now); }
  }

  /** The part of `verifyRuntimeManifestV2` after the checks of the claims. */
  method VerifySignatures(lib: Library, m: Manifest, keys: seq<TrustedKey>) returns (error: Option<VerifyError>)
    ensures error == None <==>
              && (forall i :: 0 <= i < |keys| ==> ValidKey(lib, keys[i])) && DistinctIds(keys)
              && GoodSignatures(lib, keys, m.claims, m.signatures) && SomeTrusted(keys, m.signatures)
    ensures error != Some(NotActive) && error != Some(Expired) && error != Some(NotProvisioned)
  {
    var trusted;
    trusted, error := IndexKeyring(lib, keys);
    if error != None { return; }
    error := CheckSignatures(lib, keys, trusted, m.claims, m.signatures);
  }

  // ------------------------------------------------------------------------------------------ what acceptance gives

  /** Every signer the keyring knows vouches for exactly these claims, over an interval that contains the whole
      validity of the manifest and the present. */
  lemma AcceptedIsCovered(lib: Library, m: Manifest, keys: seq<TrustedKey>, now: int, i: nat, key: TrustedKey)
    requires Accepts(lib, m, keys, now) && i < |m.signatures| && key in keys && key.keyId == m.signatures[i].keyId
    ensures key.activation <= m.claims.issuedAt <= m.claims.notBefore <= now <= m.claims.validUntil <= key.notAfter
    ensures var s := m.signatures[i];
            && CanonicalPayload(m.claims, s.algorithm, s.keyId).Signed?
            && lib.decode(s.signature).Some?
            && var payload := CanonicalPayload(m.claims, s.algorithm, s.keyId).bytes;
               && lib.verify(key.publicKey, payload, lib.decode(s.signature).value)
               && DecodePayload(payload + []) == Some((m.claims, s.algorithm, s.keyId, []))
  {
    assert SignatureOk(lib, keys, m.claims, m.signatures[i]);
    IntervalDoesNotWrap(m.claims);
    PayloadReadsBack(m.claims, m.signatures[i].algorithm, m.signatures[i].keyId, []);
  }

  /** The keyring, read flatly: up to eight Ed25519 keys, named by their fingerprints, no two alike. */
  lemma KeyringSpelledOut(lib: Library, keys: seq<TrustedKey>)
    ensures KeyringOk(lib, keys) <==>
              && 1 <= |keys| <= 8
              && (forall i, j :: 0 <= i < |keys| && 0 <= j < |keys| && keys[i].keyId == keys[j].keyId ==> i == j)
              && forall i :: 0 <= i < |keys| ==>
                   var key := keys[i];
                   && key.algorithm == Ascii("publisher-ed25519-v2")
                   && CanonicalKeyId(key.keyId) && key.keyId == lib.keyIdOf(key.publicKey) && |key.publicKey| == 32
                   && 1_700_000_000 <= key.activation < key.notAfter <= 4_102_444_800
  {
  }

  /** A signature, read flatly. */
  lemma SignatureSpelledOut(lib: Library, keys: seq<TrustedKey>, c: Claims, s: Signature)
    ensures SignatureOk(lib, keys, c, s) <==>
              && s.algorithm == Ascii("publisher-ed25519-v2")
              && CanonicalKeyId(s.keyId) && lib.decode(s.signature).Some?
              && forall key :: key in keys && key.keyId == s.keyId ==>
                   && key.activation <= c.issuedAt && c.validUntil <= key.notAfter
                   && CanonicalPayload(c, s.algorithm, s.keyId).Signed?
                   && lib.verify(key.publicKey, CanonicalPayload(c, s.algorithm, s.keyId).bytes,
                                 lib.decode(s.signature).value)
  {
  }

  /** Acceptance, read flatly: a good keyring, claims of this release that are current, and signatures in increasing
      order of their keys, each good, at least one by a key of the keyring. */
  lemma AcceptanceSpelledOut(lib: Library, m: Manifest, keys: seq<TrustedKey>, now: int)
    ensures Accepts(lib, m, keys, now) <==>
              && KeyringOk(lib, keys) && lib.identityOk(m.claims)
              && 1_700_000_000 <= m.claims.issuedAt <= m.claims.notBefore <= now <= m.claims.validUntil <= 4_102_444_800
              && m.claims.notBefore <= m.claims.issuedAt + 300
              && m.claims.validUntil <= m.claims.issuedAt + 94_608_000
              && (forall i :: 0 <= i < |m.signatures| ==> SignatureOk(lib, keys, m.claims, m.signatures[i]))
              && (forall i :: 0 < i < |m.signatures| ==> Less(m.signatures[i - 1].keyId, m.signatures[i].keyId))
              && exists i, j :: 0 <= i < |m.signatures| && 0 <= j < |keys| && keys[j].keyId == m.signatures[i].keyId
  {
    IntervalDoesNotWrap(m.claims);
    IncreasingSpelledOut(m.signatures);
    SomeTrustedSpelledOut(keys, m.signatures);
  }

  lemma IncreasingSpelledOut(signatures: seq<Signature>)
    ensures Increasing(signatures) <==>
              forall i :: 0 < i < |signatures| ==> Less(signatures[i - 1].keyId, signatures[i].keyId)
  {
    if forall i :: 0 < i < |signatures| ==> Less(signatures[i - 1].keyId, signatures[i].keyId) {
      forall i, j | 0 <= i < j < |signatures| ensures Less(signatures[i].keyId, signatures[j].keyId) {
        NeighboursIncrease(signatures, i, j);
      }
    }
  }

  lemma {:induction false} NeighboursIncrease(signatures: seq<Signature>, i: nat, j: nat)
    requires forall k :: 0 < k < |signatures| ==> Less(signatures[k - 1].keyId, signatures[k].keyId)
    requires i < j < |signatures|
    ensures Less(signatures[i].keyId, signatures[j].keyId)
    decreases j
  {
    assert Less(signatures[j - 1].keyId, signatures[j].keyId);
    if i < j - 1 {
      NeighboursIncrease(signatures, i, j - 1);
      LessTransitive(signatures[i].keyId, signatures[j - 1].keyId, signatures[j].keyId);
    }
  }

  lemma SomeTrustedSpelledOut(keys: seq<TrustedKey>, signatures: seq<Signature>)
    ensures SomeTrusted(keys, signatures) <==>
              exists i, j :: 0 <= i < |signatures| && 0 <= j < |keys| && keys[j].keyId == signatures[i].keyId
  {
    if SomeTrusted(keys, signatures) {
      var s :| s in signatures && Trusted(keys, s);
      var key :| key in keys && key.keyId == s.keyId;
      var i :| 0 <= i < |signatures| && signatures[i] == s;
      var j :| 0 <= j < |keys| && keys[j] == key;
      assert keys[j].keyId == signatures[i].keyId;
    }
    forall i, j | 0 <= i < |signatures| && 0 <= j < |keys| && keys[j].keyId == signatures[i].keyId
      ensures SomeTrusted(keys, signatures)
    {
      assert signatures[i] in signatures && keys[j] in keys;
      assert Trusted(keys, signatures[i]);
    }
  }

  lemma {:induction false} RepeatedInMultiset(keys: seq<TrustedKey>, i: nat, j: nat)
    requires i < j < |keys| && keys[i] == keys[j]
    ensures multiset(keys)[keys[i]] >= 2
  {
    assert keys == keys[..j] + [keys[j]] + keys[j + 1..];
    assert keys[i] in keys[..j];
  }

  lemma {:induction false} RepeatedInSequence(keys: seq<TrustedKey>, key: TrustedKey) returns (i: nat, j: nat)
    requires multiset(keys)[key] >= 2
    ensures i < j < |keys| && keys[i] == key && keys[j] == key
  {
    var last := |keys| - 1;
    assert keys == keys[..last] + [keys[last]];
    if keys[last] == key {
      assert key in multiset(keys[..last]);
      i :| 0 <= i < last && keys[..last][i] == key;
      j := last;
    } else {
      i, j := RepeatedInSequence(keys[..last], key);
    }
  }

  lemma ReorderedStaysDistinct(keys: seq<TrustedKey>, keys': seq<TrustedKey>)
    requires multiset(keys) == multiset(keys') && DistinctIds(keys)
    ensures DistinctIds(keys')
  {
    forall i, j | 0 <= i < j < |keys'| ensures keys'[i].keyId != keys'[j].keyId {
      var a, b := keys'[i], keys'[j];
      if a == b {
        RepeatedInMultiset(keys', i, j);
        var k, l := RepeatedInSequence(keys, a);
      } else {
        assert a in multiset(keys') && b in multiset(keys');
        var k :| 0 <= k < |keys| && keys[k] == a;
        var l :| 0 <= l < |keys| && keys[l] == b;
        assert keys[k].keyId != keys[l].keyId;
      }
    }
  }

  lemma ReorderedAccepts(lib: Library, m: Manifest, keys: seq<TrustedKey>, keys': seq<TrustedKey>, now: int)
    requires multiset(keys) == multiset(keys') && Accepts(lib, m, keys, now)
    ensures Accepts(lib, m, keys', now)
  {
    ReorderedStaysDistinct(keys, keys');
    assert |keys| == |multiset(keys)| == |multiset(keys')| == |keys'|;
    assert forall key :: key in keys' <==> key in multiset(keys');
    assert forall key :: key in keys <==> key in multiset(keys);
    forall i | 0 <= i < |keys'| ensures ValidKey(lib, keys'[i]) { assert keys'[i] in keys; }
    var s :| s in m.signatures && Trusted(keys, s);
    assert Trusted(keys', s);
  }

  /** The verdict does not depend on the order of the keyring. */
  lemma KeyringOrderIsIrrelevant(lib: Library, m: Manifest, keys: seq<TrustedKey>, keys': seq<TrustedKey>, now: int)
    requires multiset(keys) == multiset(keys')
    ensures Accepts(lib, m, keys, now) <==> Accepts(lib, m, keys', now)
  {
    if Accepts(lib, m, keys, now) { ReorderedAccepts(lib, m, keys, keys', now); }
    if Accepts(lib, m, keys', now) { ReorderedAccepts(lib, m, keys', keys, now); }
  }

  lemma OneMoreKeyring(lib: Library, keys: seq<TrustedKey>, key: TrustedKey)
    requires KeyringOk(lib, keys)
    ensures KeyringOk(lib, keys + [key]) <==>
              && |keys| < MAX_TRUSTED_KEYS && ValidKey(lib, key)
              && forall k :: k in keys ==> k.keyId != key.keyId
  {
    var keys' := keys + [key];
    assert keys'[|keys|] == key;
    if KeyringOk(lib, keys') {
      forall k | k in keys ensures k.keyId != key.keyId {
        var i :| 0 <= i < |keys| && keys[i] == k;
        assert keys'[i].keyId != keys'[|keys|].keyId;
      }
    }
  }

  lemma OneMoreSigner(lib: Library, keys: seq<TrustedKey>, key: TrustedKey, c: Claims, s: Signature)
    requires SignatureOk(lib, keys, c, s)
    ensures SignatureOk(lib, keys + [key], c, s) <==> (s.keyId == key.keyId ==> Covers(lib, key, c, s))
  {
    assert forall k :: k in keys + [key] <==> k in keys || k == key;
  }

  lemma OneMoreKeyGood(lib: Library, keys: seq<TrustedKey>, key: TrustedKey, c: Claims, signatures: seq<Signature>)
    requires GoodSignatures(lib, keys, c, signatures)
    ensures GoodSignatures(lib, keys + [key], c, signatures) <==>
              forall i :: 0 <= i < |signatures| && signatures[i].keyId == key.keyId ==>
                Covers(lib, key, c, signatures[i])
  {
    forall i | 0 <= i < |signatures|
      ensures SignatureOk(lib, keys + [key], c, signatures[i]) <==>
              (signatures[i].keyId == key.keyId ==> Covers(lib, key, c, signatures[i]))
    {
      OneMoreSigner(lib, keys, key, c, signatures[i]);
    }
  }

  lemma OneMoreKeyTrusts(keys: seq<TrustedKey>, key: TrustedKey, signatures: seq<Signature>)
    requires SomeTrusted(keys, signatures)
    ensures SomeTrusted(keys + [key], signatures)
  {
    var s :| s in signatures && Trusted(keys, s);
    var k :| k in keys && k.keyId == s.keyId;
    assert k in keys + [key];
    assert Trusted(keys + [key], s);
  }

  /** Trusting one more key is not harmless: an accepted manifest stays accepted exactly when there is room for the
      key, it is valid and new, and it covers the signature made under its identifier, if there is one. */
  lemma TrustingOneMoreKey(lib: Library, m: Manifest, keys: seq<TrustedKey>, key: TrustedKey, now: int)
    requires Accepts(lib, m, keys, now)
    ensures Accepts(lib, m, keys + [key], now) <==>
              && |keys| < MAX_TRUSTED_KEYS
              && ValidKey(lib, key)
              && (forall k :: k in keys ==> k.keyId != key.keyId)
              && forall i :: 0 <= i < |m.signatures| && m.signatures[i].keyId == key.keyId ==>
                   Covers(lib, key, m.claims, m.signatures[i])
  {
    OneMoreKeyring(lib, keys, key);
    OneMoreKeyGood(lib, keys, key, m.claims, m.signatures);
    OneMoreKeyTrusts(keys, key, m.signatures);
  }
}
