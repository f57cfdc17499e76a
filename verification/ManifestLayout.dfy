/** The layout of the signed payload as bytes and identifiers, for a reader that knows the format, not the builder. */
module ManifestLayout {
  import opened Wrappers
  import opened Bytes
  import opened ManifestPayload

  // ------------------------------------------------------------------------------------------ numbers

  /** Numbers begin with their most significant byte. */
  lemma TwoBytes(value: nat)
    ensures BigEndian(value, 2) == [value / 256 % 256, value % 256]
  {
    assert BigEndian(value / 256, 1) == BigEndian(value / 256 / 256, 0) + [value / 256 % 256];
  }

  lemma FourBytes(value: nat)
    ensures BigEndian(value, 4) == [value / 16777216 % 256, value / 65536 % 256, value / 256 % 256, value % 256]
  {
    var high := value / 65536;
    assert value / 256 / 256 == high && high / 256 == value / 16777216;
    TwoBytes(high);
    assert BigEndian(value / 256, 3) == BigEndian(high, 2) + [value / 256 % 256];
  }

  lemma EightBytes(value: nat)
    ensures var high := value / 0x1_0000_0000;
            BigEndian(value, 8) == [high / 16777216 % 256, high / 65536 % 256, high / 256 % 256, high % 256,
                                    value / 16777216 % 256, value / 65536 % 256, value / 256 % 256, value % 256]
  {
    var high, a, b, c := value / 0x1_0000_0000, value / 256, value / 65536, value / 16777216;
    assert b == a / 256 && c == b / 256 && high == c / 256;
    FourBytes(high);
    assert BigEndian(c, 5) == BigEndian(high, 4) + [c % 256];
    assert BigEndian(b, 6) == BigEndian(c, 5) + [b % 256];
    assert BigEndian(a, 7) == BigEndian(b, 6) + [a % 256];
  }

  /** A field on the wire: two bytes of identifier, four of length, the value. */
  lemma FieldLayout(field: Field)
    requires Encodable(field)
    ensures var id, n := field.id, |field.value|;
            EncodeField(field)
            == [id / 256, id % 256] + [n / 16777216, n / 65536 % 256, n / 256 % 256, n % 256] + field.value
  {
    var id, n := field.id, |field.value|;
    TwoBytes(id);
    FourBytes(n);
    assert id / 256 % 256 == id / 256 && n / 16777216 % 256 == n / 16777216;
    assert n % 0x1_0000_0000 == n;
  }

  // ------------------------------------------------------------------------------------------ identifiers

  /** The fields are numbered 1 to 5 and 10 to 41, in this order. */
  predicate Numbered(fields: seq<Field>) {
    |fields| == 37 && forall i :: 0 <= i < 37 ==> fields[i].id == if i < 5 then i + 1 else i + 5
  }

  lemma FieldsAreNumbered(c: Claims, algorithm: Text, keyId: Text)
    ensures Numbered(FieldsOf(c, algorithm, keyId))
  {
  }

  /** What the payload is for, who signs it and how. */
  lemma PurposeById(c: Claims, algorithm: Text, keyId: Text)
    ensures var f := FieldsOf(c, algorithm, keyId);
            && f[0] == Field(1, Ascii("loadstrike.runtime-manifest"))
            && f[1] == Field(2, Ascii("publisher-artifact-authentication"))
            && f[2] == Field(3, [0, 0, 0, 2]) && f[3] == Field(4, algorithm) && f[4] == Field(5, keyId)
  {
    FourBytes(2);
  }

  /** The text claims about the artifact. */
  lemma ArtifactById(c: Claims, algorithm: Text, keyId: Text)
    ensures var f := FieldsOf(c, algorithm, keyId);
            && f[6] == Field(11, c.sdk) && f[7] == Field(12, c.runtimeVersion) && f[8] == Field(13, c.os)
            && f[9] == Field(14, c.arch) && f[11] == Field(16, c.sha256) && f[13] == Field(18, c.downloadUrl)
            && f[14] == Field(19, c.executable)
  {
  }

  /** The claims that are numbers. */
  lemma NumbersById(c: Claims, algorithm: Text, keyId: Text)
    ensures var f := FieldsOf(c, algorithm, keyId);
            && f[5] == Field(10, BigEndian(c.manifestVersion, 4)) && f[10] == Field(15, BigEndian(c.protocol, 4))
            && f[12] == Field(17, BigEndian(c.byteLength, 8)) && f[15] == Field(20, BigEndian(c.issuedAt, 8))
            && f[16] == Field(21, BigEndian(c.notBefore, 8)) && f[17] == Field(22, BigEndian(c.validUntil, 8))
            && f[24] == Field(29, BigEndian(c.runId, 8)) && f[25] == Field(30, BigEndian(c.runAttempt, 4))
  {
  }

  /** The text claims about the release. */
  lemma ReleaseById(c: Claims, algorithm: Text, keyId: Text)
    ensures var f := FieldsOf(c, algorithm, keyId);
            && f[18] == Field(23, c.publisher) && f[19] == Field(24, c.releaseId)
            && f[20] == Field(25, c.repository) && f[21] == Field(26, c.sourceRef)
            && f[22] == Field(27, c.sourceSha) && f[23] == Field(28, c.workflowIdentity)
  {
  }

  /** The text claims about the build. */
  lemma BuildById(c: Claims, algorithm: Text, keyId: Text)
    ensures var f := FieldsOf(c, algorithm, keyId);
            && f[26] == Field(31, c.wrapperModule) && f[27] == Field(32, c.wrapperVersion)
            && f[28] == Field(33, c.wrapperSum) && f[29] == Field(34, c.wrapperGoModSum)
            && f[30] == Field(35, c.wrapperTagObject) && f[31] == Field(36, c.wrapperCommit)
            && f[32] == Field(37, c.wrapperTree) && f[33] == Field(38, c.toolchain)
            && f[34] == Field(39, c.buildFlags) && f[35] == Field(40, c.attestationDigest)
            && f[36] == Field(41, c.attestationMediaType)
  {
  }

  /** Any payload is the count 37 and then fields, which read back with nothing left over, numbered, and with the
      claims under their identifiers. */
  lemma PayloadLayout(c: Claims, algorithm: Text, keyId: Text) returns (fields: seq<Field>)
    requires CanonicalPayload(c, algorithm, keyId).Signed?
    ensures var bytes := CanonicalPayload(c, algorithm, keyId).bytes;
            && 2 <= |bytes| <= 16384 && bytes[..2] == [0, 37]
            && DecodeFields(bytes[2..], |fields|) == Some((fields, []))
    ensures Numbered(fields) && fields == FieldsOf(c, algorithm, keyId)
  {
    var bytes;
    fields, bytes := SignedParts(c, algorithm, keyId);
    FieldsAreNumbered(c, algorithm, keyId);
    TwoBytes(37);
    Framed(fields, BigEndian(|fields|, 2), bytes);
  }

  lemma SignedParts(c: Claims, algorithm: Text, keyId: Text) returns (fields: seq<Field>, bytes: Text)
    requires CanonicalPayload(c, algorithm, keyId).Signed?
    ensures fields == FieldsOf(c, algorithm, keyId) && bytes == CanonicalPayload(c, algorithm, keyId).bytes
    ensures bytes == BigEndian(|fields|, 2) + EncodeFields(fields) && |bytes| <= 16384
    ensures forall i :: 0 <= i < |fields| ==> Encodable(fields[i])
  {
    fields, bytes := FieldsOf(c, algorithm, keyId), CanonicalPayload(c, algorithm, keyId).bytes;
    NoTruncation(c, algorithm, keyId);
    SignedBytes(c, algorithm, keyId);
    SignedIsShort(c, algorithm, keyId);
  }

  lemma Framed(fields: seq<Field>, head: Text, bytes: Text)
    requires forall i :: 0 <= i < |fields| ==> Encodable(fields[i])
    requires |head| == 2 && bytes == head + EncodeFields(fields)
    ensures 2 <= |bytes| && bytes[..2] == head && DecodeFields(bytes[2..], |fields|) == Some((fields, []))
  {
    FieldsReadBack(fields, []);
    HeadAndBody(head, EncodeFields(fields));
  }

  lemma HeadAndBody(head: Text, body: Text)
    requires |head| == 2
    ensures var bytes := head + body; bytes[..2] == head && bytes[2..] == body + []
  {
  }

  // ------------------------------------------------------------------------------------------ what is signed at all

  lemma TooLargeIsLong(c: Claims, algorithm: Text, keyId: Text)
    requires CanonicalPayload(c, algorithm, keyId) == Refused(TooLarge)
    ensures 2 + |EncodeFields(FieldsOf(c, algorithm, keyId))| > 16384
  {
  }

  lemma SignedIsShort(c: Claims, algorithm: Text, keyId: Text)
    requires CanonicalPayload(c, algorithm, keyId).Signed?
    ensures |CanonicalPayload(c, algorithm, keyId).bytes| <= 16384
  {
  }

  /** The claims that are text. */
  function Texts(c: Claims): seq<Text> {
    [c.sdk, c.runtimeVersion, c.os, c.arch, c.sha256, c.downloadUrl, c.executable,
     c.publisher, c.releaseId, c.repository, c.sourceRef, c.sourceSha, c.workflowIdentity,
     c.wrapperModule, c.wrapperVersion, c.wrapperSum, c.wrapperGoModSum, c.wrapperTagObject, c.wrapperCommit,
     c.wrapperTree, c.toolchain, c.buildFlags, c.attestationDigest, c.attestationMediaType]
  }

  /** Seven bit text throughout. */
  predicate SevenBit(texts: seq<Text>) {
    forall i, j :: 0 <= i < |texts| && 0 <= j < |texts[i]| ==> texts[i][j] < 128
  }

  /** The text of `sha256:` and 64 digits 0 to 9 and a to f. */
  predicate Fingerprint(id: Text) {
    && |id| == 71
    && id[0] == 0x73 && id[1] == 0x68 && id[2] == 0x61
    && id[3] == 0x32 && id[4] == 0x35 && id[5] == 0x36 && id[6] == 0x3a
    && forall i :: 7 <= i < 71 ==> id[i] in [0x30, 0x31, 0x32, 0x33, 0x34, 0x35, 0x36, 0x37, 0x38, 0x39,
                                            0x61, 0x62, 0x63, 0x64, 0x65, 0x66]
  }

  lemma FingerprintSpelledOut(id: Text)
    ensures CanonicalKeyId(id) <==> Fingerprint(id)
  {
    var prefix := Ascii("sha256:");
    assert prefix == [0x73, 0x68, 0x61, 0x32, 0x35, 0x36, 0x3a];
    if Fingerprint(id) {
      assert id[..7] == prefix;
    }
    if |id| == 71 && id[..7] == prefix {
      assert forall i :: 0 <= i < 7 ==> id[i] == prefix[i];
    }
  }

  /** Where each of them is among the fields. */
  const SLOTS := [6, 7, 8, 9, 11, 13, 14, 18, 19, 20, 21, 22, 23, 26, 27, 28, 29, 30, 31, 32, 33, 34, 35, 36]

  lemma SlotsMatch(f: seq<Field>, c: Claims)
    requires |f| == 37
    requires f[6].value == c.sdk && f[7].value == c.runtimeVersion && f[8].value == c.os && f[9].value == c.arch
    requires f[11].value == c.sha256 && f[13].value == c.downloadUrl && f[14].value == c.executable
    requires f[18].value == c.publisher && f[19].value == c.releaseId && f[20].value == c.repository
    requires f[21].value == c.sourceRef && f[22].value == c.sourceSha && f[23].value == c.workflowIdentity
    requires f[26].value == c.wrapperModule && f[27].value == c.wrapperVersion && f[28].value == c.wrapperSum
    requires f[29].value == c.wrapperGoModSum && f[30].value == c.wrapperTagObject
    requires f[31].value == c.wrapperCommit && f[32].value == c.wrapperTree && f[33].value == c.toolchain
    requires f[34].value == c.buildFlags && f[35].value == c.attestationDigest
    requires f[36].value == c.attestationMediaType
    ensures |SLOTS| == |Texts(c)| == 24 && forall j :: 0 <= j < 24 ==> f[SLOTS[j]].value == Texts(c)[j]
  {
  }

  lemma TextsAreFields(c: Claims, algorithm: Text, keyId: Text)
    ensures var f := FieldsOf(c, algorithm, keyId);
            |SLOTS| == |Texts(c)| == 24 && forall j :: 0 <= j < 24 ==> f[SLOTS[j]].value == Texts(c)[j]
  {
    ArtifactById(c, algorithm, keyId);
    ReleaseById(c, algorithm, keyId);
    BuildById(c, algorithm, keyId);
    SlotsMatch(FieldsOf(c, algorithm, keyId), c);
  }

  lemma SlotsAreNotNumeric(j: nat)
    requires j < 24
    ensures var i := SLOTS[j]; 5 <= i < 37 && !Numeric(i + 5)
  {
  }

  lemma OthersAreNumeric(i: nat)
    requires 5 <= i < 37 && i !in SLOTS
    ensures Numeric(i + 5)
  {
    assert i in {5, 10, 12, 15, 16, 17, 24, 25};
  }

  /** Text is checked in every field that holds text, and in no other. */
  lemma CheckedTexts(c: Claims, algorithm: Text, keyId: Text)
    requires StrictAscii(algorithm) && StrictAscii(keyId)
    ensures AsciiWhereText(FieldsOf(c, algorithm, keyId)) <==> SevenBit(Texts(c))
  {
    var f, texts := FieldsOf(c, algorithm, keyId), Texts(c);
    TextsAreFields(c, algorithm, keyId);
    FieldsAreNumbered(c, algorithm, keyId);
    if AsciiWhereText(f) {
      forall j | 0 <= j < 24 ensures StrictAscii(texts[j]) {
        SlotsAreNotNumeric(j);
        assert f[SLOTS[j]].id == SLOTS[j] + 5;
      }
    } else {
      var i :| 0 <= i < 37 && !Numeric(f[i].id) && !StrictAscii(f[i].value);
      HeadIsAscii(c, algorithm, keyId, i);
      if i !in SLOTS { OthersAreNumeric(i); }
      var j :| 0 <= j < 24 && SLOTS[j] == i;
      assert !StrictAscii(texts[j]);
    }
  }

  lemma HeadIsAscii(c: Claims, algorithm: Text, keyId: Text, i: nat)
    requires StrictAscii(algorithm) && StrictAscii(keyId) && i < 37
    requires var field := FieldsOf(c, algorithm, keyId)[i]; !Numeric(field.id) && !StrictAscii(field.value)
    ensures 5 <= i
  {
    PurposeById(c, algorithm, keyId);
    ConstantsAreAscii();
  }

  lemma AsciiText(text: string)
    requires forall i :: 0 <= i < |text| ==> text[i] as int <= 0x7f
    ensures StrictAscii(Ascii(text))
  {
  }

  lemma ConstantsAreAscii()
    ensures StrictAscii(SignatureDomain()) && StrictAscii(SignaturePurpose()) && StrictAscii(SignatureVersion())
  {
    AsciiText("loadstrike.runtime-manifest");
    AsciiText("publisher-artifact-authentication");
    AsciiText("publisher-ed25519-v2");
  }

  lemma FingerprintIsAscii(id: Text)
    requires Fingerprint(id)
    ensures StrictAscii(id)
  {
    forall i | 0 <= i < 71 ensures id[i] <= 0x7f { if i >= 7 { assert id[i] in [0x30, 0x31, 0x32, 0x33, 0x34, 0x35,
      0x36, 0x37, 0x38, 0x39, 0x61, 0x62, 0x63, 0x64, 0x65, 0x66]; } }
  }

  /** Which payloads there are: of the one algorithm, for a key identifier that is a fingerprint, of seven bit text, and
      of at most 16384 bytes. The first of these that fails is reported. */
  lemma PayloadOutcome(c: Claims, algorithm: Text, keyId: Text)
    ensures var p := CanonicalPayload(c, algorithm, keyId);
            if algorithm != SignatureVersion() then p == Refused(UnsupportedAlgorithm)
            else if !Fingerprint(keyId) then p == Refused(InvalidKeyId)
            else if !SevenBit(Texts(c)) then p == Refused(NotAscii)
            else p.Signed? || p == Refused(TooLarge)
  {
    FingerprintSpelledOut(keyId);
    if algorithm == SignatureVersion() && Fingerprint(keyId) {
      ConstantsAreAscii();
      FingerprintIsAscii(keyId);
      CheckedTexts(c, algorithm, keyId);
    }
  }
}
