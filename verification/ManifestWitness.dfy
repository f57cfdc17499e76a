/** A manifest that is accepted, and that one more trusted key spoils. Its claims meet the identity checks for a release
    of the runtime; what the library says of keys and signatures is a hypothesis. */
module ManifestWitness {
  import opened Wrappers
  import opened Bytes
  import opened ManifestLayout
  import opened ManifestPayload
  import opened ManifestVerify

  /** `sha256:` and one hexadecimal digit over and over. */
  function Id(digit: Byte): (id: Text)
    requires LowerHex(digit)
    ensures CanonicalKeyId(id) && id[7] == digit && StrictAscii(id)
  {
    var id := Ascii("sha256:") + seq(64, _ => digit);
    assert id[..7] == Ascii("sha256:");
    id
  }

  lemma IdsDiffer(a: Byte, b: Byte)
    requires LowerHex(a) && LowerHex(b) && a < b
    ensures Less(Id(a), Id(b)) && Id(a) != Id(b)
  {
    LessFrom(Id(a), Id(b), 7);
  }

  lemma {:induction false} LessFrom(a: Text, b: Text, k: nat)
    requires k < |a| && k < |b| && a[..k] == b[..k] && a[k] < b[k]
    ensures Less(a, b)
  {
    if k > 0 {
      assert a[0] == a[..k][0] == b[..k][0] == b[0];
      assert a[1..][..k - 1] == a[..k][1..] == b[..k][1..] == b[1..][..k - 1];
      LessFrom(a[1..], b[1..], k - 1);
    }
  }

  // ------------------------------------------------------------------------------------------ the claims

  function Repeat(b: Byte, n: nat): (text: Text)
    requires b <= 0x7f
    ensures |text| == n && StrictAscii(text)
  {
    seq(n, _ => b)
  }

  /** 40 hexadecimal digits. */
  function GitObject(): (text: Text)
    ensures |text| == 40 && StrictAscii(text)
  {
    Repeat(0x61, 40)
  }

  /** `h1:` and the padded base64 of 32 zero bytes. */
  function GoSum(): (text: Text)
    ensures |text| == 47 && StrictAscii(text)
  {
    AsciiText("h1:");
    AsciiText("=");
    Ascii("h1:") + Repeat(0x41, 43) + Ascii("=")
  }

  const VERSION := "v0.2.3"
  const ORIGIN := "https://licensing.loadstrike.com/"
  const RELEASE := "runtime/v0.2.3/go/linux-amd64/"
  const EXECUTABLE := "loadstrike-runtime"
  const WORKFLOW := "Meticulis/LoadStrike/.github/workflows/"
  const DELIVERY := "main-delivery.yml@refs/heads/main"
  const MEDIA := "application/vnd.dev.sigstore."
  const BUNDLE := "bundle+json;version=0.3"
  const FLAGS := "-mod=readonly -trimpath -buildvcs=false "
  const LINK := "-ldflags=-X=github.com/Meticulis/LoadStrike/"
  const PACKAGE := "sdk/go-runtime-private/internal/engine."
  const VARIABLE := "moduleVersion=LOADSTRIKE_RUNTIME_VERSION:"
  const ENVIRONMENT := "v0.2.3 CGO_ENABLED=0"

  /** A release of the runtime for linux-amd64, current for one second. */
  function ReleaseClaims(): Claims {
    Claims(2, Ascii("go"), Ascii(VERSION), Ascii("linux"), Ascii("amd64"), 2, Repeat(0x61, 64), 1,
           Ascii(ORIGIN) + Ascii(RELEASE) + Ascii(EXECUTABLE), Ascii(EXECUTABLE),
           MIN_UNIX_SECOND, MIN_UNIX_SECOND, MIN_UNIX_SECOND,
           Ascii("LoadStrike"), Ascii("go-runtime/v0.2.3/linux-amd64"), Ascii("Meticulis/LoadStrike"),
           Ascii("refs/heads/main"), GitObject(), Ascii(WORKFLOW) + Ascii(DELIVERY), 1, 1,
           Ascii("loadstrike.com/sdk/go"), Ascii(VERSION), GoSum(), GoSum(),
           GitObject(), GitObject(), GitObject(), Ascii("go1.26.8"),
           Ascii(FLAGS) + Ascii(LINK) + Ascii(PACKAGE) + Ascii(VARIABLE) + Ascii(ENVIRONMENT),
           Ascii("sha256:") + Repeat(0x61, 64), Ascii(MEDIA) + Ascii(BUNDLE))
  }

  // ------------------------------------------------------------------------------------------ the payload exists

  /** Short fields make a short payload. */
  lemma {:induction false} ShortFields(fields: seq<Field>)
    requires forall i :: 0 <= i < |fields| ==> |fields[i].value| <= 200
    ensures |EncodeFields(fields)| <= 206 * |fields|
  {
    if fields != [] { ShortFields(fields[..|fields| - 1]); }
  }

  predicate ShortAscii(field: Field) { |field.value| <= 200 && (Numeric(field.id) || StrictAscii(field.value)) }

  lemma Joined(a: Text, b: Text)
    requires StrictAscii(a) && StrictAscii(b)
    ensures StrictAscii(a + b)
  {
  }

  lemma LocationsAreAscii()
    ensures StrictAscii(Ascii(ORIGIN) + Ascii(RELEASE) + Ascii(EXECUTABLE)) && StrictAscii(Ascii(EXECUTABLE))
  {
    AsciiText(ORIGIN);
    AsciiText(RELEASE);
    AsciiText(EXECUTABLE);
    Joined(Ascii(ORIGIN), Ascii(RELEASE));
    Joined(Ascii(ORIGIN) + Ascii(RELEASE), Ascii(EXECUTABLE));
  }

  lemma WorkflowIsAscii()
    ensures StrictAscii(Ascii(WORKFLOW) + Ascii(DELIVERY)) && StrictAscii(Ascii(MEDIA) + Ascii(BUNDLE))
  {
    AsciiText(WORKFLOW);
    AsciiText(DELIVERY);
    AsciiText(MEDIA);
    AsciiText(BUNDLE);
    Joined(Ascii(WORKFLOW), Ascii(DELIVERY));
    Joined(Ascii(MEDIA), Ascii(BUNDLE));
  }

  lemma LinkIsAscii()
    ensures StrictAscii(Ascii(FLAGS) + Ascii(LINK)) && StrictAscii(Ascii(PACKAGE))
  {
    AsciiText(FLAGS);
    AsciiText(LINK);
    AsciiText(PACKAGE);
    Joined(Ascii(FLAGS), Ascii(LINK));
  }

  lemma VariableIsAscii()
    ensures StrictAscii(Ascii(VARIABLE)) && StrictAscii(Ascii(ENVIRONMENT))
  {
    AsciiText(VARIABLE);
    AsciiText(ENVIRONMENT);
  }

  lemma JoinedAll(a: Text, b: Text, c: Text, d: Text)
    requires StrictAscii(a) && StrictAscii(b) && StrictAscii(c) && StrictAscii(d)
    ensures StrictAscii(a + b + c + d)
  {
    Joined(a, b);
    Joined(a + b, c);
    Joined(a + b + c, d);
  }

  lemma FlagsAreAscii()
    ensures StrictAscii(Ascii(FLAGS) + Ascii(LINK) + Ascii(PACKAGE) + Ascii(VARIABLE) + Ascii(ENVIRONMENT))
  {
    LinkIsAscii();
    VariableIsAscii();
    JoinedAll(Ascii(FLAGS) + Ascii(LINK), Ascii(PACKAGE), Ascii(VARIABLE), Ascii(ENVIRONMENT));
  }

  lemma NamesAreAscii()
    ensures StrictAscii(Ascii("go")) && StrictAscii(Ascii(VERSION)) && StrictAscii(Ascii("linux"))
    ensures StrictAscii(Ascii("amd64")) && StrictAscii(Ascii("LoadStrike"))
    ensures StrictAscii(Ascii("go1.26.8")) && StrictAscii(Ascii("sha256:") + Repeat(0x61, 64))
  {
    AsciiText("go");
    AsciiText(VERSION);
    AsciiText("linux");
    AsciiText("amd64");
    AsciiText("LoadStrike");
    AsciiText("go1.26.8");
    AsciiText("sha256:");
    Joined(Ascii("sha256:"), Repeat(0x61, 64));
  }

  lemma IdentitiesAreAscii()
    ensures StrictAscii(Ascii("go-runtime/v0.2.3/linux-amd64")) && StrictAscii(Ascii("Meticulis/LoadStrike"))
    ensures StrictAscii(Ascii("refs/heads/main")) && StrictAscii(Ascii("loadstrike.com/sdk/go"))
  {
    AsciiText("go-runtime/v0.2.3/linux-amd64");
    AsciiText("Meticulis/LoadStrike");
    AsciiText("refs/heads/main");
    AsciiText("loadstrike.com/sdk/go");
  }

  lemma PurposeIsShort(keyId: Text, i: nat)
    requires CanonicalKeyId(keyId) && StrictAscii(keyId) && i < 5
    ensures ShortAscii(PurposeFields(SignatureVersion(), keyId)[i])
  {
    ConstantsAreAscii();
    LocationsAreAscii();
    WorkflowIsAscii();
    FlagsAreAscii();
    NamesAreAscii();
    IdentitiesAreAscii();
  }

  lemma ArtifactIsShort(i: nat)
    requires i < 13
    ensures ShortAscii(ArtifactFields(ReleaseClaims())[i])
  {
    ConstantsAreAscii();
    LocationsAreAscii();
    WorkflowIsAscii();
    FlagsAreAscii();
    NamesAreAscii();
    IdentitiesAreAscii();
  }

  lemma ReleaseIsShort(i: nat)
    requires i < 8
    ensures ShortAscii(ReleaseFields(ReleaseClaims())[i])
  {
    ConstantsAreAscii();
    LocationsAreAscii();
    WorkflowIsAscii();
    FlagsAreAscii();
    NamesAreAscii();
    IdentitiesAreAscii();
  }

  lemma BuildIsShort(i: nat)
    requires i < 11
    ensures ShortAscii(BuildFields(ReleaseClaims())[i])
  {
    ConstantsAreAscii();
    LocationsAreAscii();
    WorkflowIsAscii();
    FlagsAreAscii();
    NamesAreAscii();
    IdentitiesAreAscii();
  }

  lemma FieldIsShort(keyId: Text, i: nat)
    requires CanonicalKeyId(keyId) && StrictAscii(keyId) && i < 37
    ensures ShortAscii(FieldsOf(ReleaseClaims(), SignatureVersion(), keyId)[i])
  {
    if i < 5 { PurposeIsShort(keyId, i); }
    else if i < 18 { ArtifactIsShort(i - 5); }
    else if i < 26 { ReleaseIsShort(i - 18); }
    else { BuildIsShort(i - 26); }
  }

  lemma ReleaseIsSigned(keyId: Text)
    requires CanonicalKeyId(keyId) && StrictAscii(keyId)
    ensures CanonicalPayload(ReleaseClaims(), SignatureVersion(), keyId).Signed?
  {
    var fields := FieldsOf(ReleaseClaims(), SignatureVersion(), keyId);
    forall i | 0 <= i < 37 ensures ShortAscii(fields[i]) { FieldIsShort(keyId, i); }
    ShortFields(fields);
  }

  // ------------------------------------------------------------------------------------------ accepted, then spoiled

  function Trust(digit: Byte, publicKey: Text): TrustedKey
    requires LowerHex(digit)
  {
    TrustedKey(SignatureVersion(), Id(digit), publicKey, MIN_UNIX_SECOND, MIN_UNIX_SECOND + 1)
  }

  function SignatureBy(digit: Byte, encoded: Text): Signature
    requires LowerHex(digit)
  {
    Signature(SignatureVersion(), Id(digit), encoded)
  }

  /** The situation: two signatures by the keys with the identifiers of all zeros and all ones, of which the first
      verifies and the second, decodable, does not. */
  ghost predicate OneGoodOneBad(lib: Library, c: Claims, good: Text, bad: Text, goodSignature: Text,
                                badSignature: Text)
  {
    && |good| == PUBLIC_KEY_BYTES && lib.keyIdOf(good) == Id(0x30)
    && |bad| == PUBLIC_KEY_BYTES && lib.keyIdOf(bad) == Id(0x31)
    && lib.identityOk(c) && c.issuedAt == c.notBefore == c.validUntil == MIN_UNIX_SECOND
    && CanonicalPayload(c, SignatureVersion(), Id(0x30)).Signed?
    && CanonicalPayload(c, SignatureVersion(), Id(0x31)).Signed?
    && lib.decode(goodSignature).Some? && lib.decode(badSignature).Some?
    && lib.verify(good, CanonicalPayload(c, SignatureVersion(), Id(0x30)).bytes, lib.decode(goodSignature).value)
    && !lib.verify(bad, CanonicalPayload(c, SignatureVersion(), Id(0x31)).bytes, lib.decode(badSignature).value)
  }

  lemma KnownIsOk(lib: Library, c: Claims, good: Text, bad: Text, goodSignature: Text, badSignature: Text)
    requires OneGoodOneBad(lib, c, good, bad, goodSignature, badSignature)
    ensures SignatureOk(lib, [Trust(0x30, good)], c, SignatureBy(0x30, goodSignature))
    ensures Trusted([Trust(0x30, good)], SignatureBy(0x30, goodSignature))
    ensures !Covers(lib, Trust(0x31, bad), c, SignatureBy(0x31, badSignature))
  {
    assert Trust(0x30, good) in [Trust(0x30, good)];
    assert forall key :: key in [Trust(0x30, good)] ==> key == Trust(0x30, good);
    assert Covers(lib, Trust(0x30, good), c, SignatureBy(0x30, goodSignature));
  }

  lemma UnknownIsOk(lib: Library, c: Claims, good: Text, bad: Text, goodSignature: Text, badSignature: Text)
    requires OneGoodOneBad(lib, c, good, bad, goodSignature, badSignature)
    ensures SignatureOk(lib, [Trust(0x30, good)], c, SignatureBy(0x31, badSignature))
  {
    IdsDiffer(0x30, 0x31);
    assert forall key :: key in [Trust(0x30, good)] ==> key == Trust(0x30, good);
  }

  lemma BothAreGood(lib: Library, c: Claims, good: Text, bad: Text, goodSignature: Text, badSignature: Text)
    requires OneGoodOneBad(lib, c, good, bad, goodSignature, badSignature)
    ensures var signatures := [SignatureBy(0x30, goodSignature), SignatureBy(0x31, badSignature)];
            GoodSignatures(lib, [Trust(0x30, good)], c, signatures) && SomeTrusted([Trust(0x30, good)], signatures)
  {
    KnownIsOk(lib, c, good, bad, goodSignature, badSignature);
    UnknownIsOk(lib, c, good, bad, goodSignature, badSignature);
    IdsDiffer(0x30, 0x31);
    assert SignatureBy(0x30, goodSignature) in [SignatureBy(0x30, goodSignature), SignatureBy(0x31, badSignature)];
  }

  /** With the first key alone the manifest is accepted: its second signature is by nobody known. */
  lemma OneKeyAccepts(lib: Library, c: Claims, good: Text, bad: Text, goodSignature: Text, badSignature: Text)
    requires OneGoodOneBad(lib, c, good, bad, goodSignature, badSignature)
    ensures Accepts(lib, Manifest(c, [SignatureBy(0x30, goodSignature), SignatureBy(0x31, badSignature)]),
                    [Trust(0x30, good)], MIN_UNIX_SECOND)
  {
    BothAreGood(lib, c, good, bad, goodSignature, badSignature);
    IntervalDoesNotWrap(c);
  }

  /** Trusting one more key, valid, new and with room for it, turns the accepted manifest into a refused one. */
  lemma OneMoreKeySpoils(lib: Library, c: Claims, good: Text, bad: Text, goodSignature: Text, badSignature: Text)
    requires OneGoodOneBad(lib, c, good, bad, goodSignature, badSignature)
    ensures var m := Manifest(c, [SignatureBy(0x30, goodSignature), SignatureBy(0x31, badSignature)]);
            var keys, key := [Trust(0x30, good)], Trust(0x31, bad);
            && Accepts(lib, m, keys, MIN_UNIX_SECOND)
            && KeyringOk(lib, keys + [key])
            && !Accepts(lib, m, keys + [key], MIN_UNIX_SECOND)
  {
    var m := Manifest(c, [SignatureBy(0x30, goodSignature), SignatureBy(0x31, badSignature)]);
    var keys, key := [Trust(0x30, good)], Trust(0x31, bad);
    OneKeyAccepts(lib, c, good, bad, goodSignature, badSignature);
    KnownIsOk(lib, c, good, bad, goodSignature, badSignature);
    IdsDiffer(0x30, 0x31);
    OneMoreKeyring(lib, keys, key);
    TrustingOneMoreKey(lib, m, keys, key, MIN_UNIX_SECOND);
    assert m.signatures[1].keyId == key.keyId;
  }

  /** The claims of a release can be in that situation: whatever the library, if its identity checks accept them and it
      knows one signature as good and the other as bad. */
  lemma ReleaseIsSpoiled(lib: Library, good: Text, bad: Text, goodSignature: Text, badSignature: Text)
    requires |good| == PUBLIC_KEY_BYTES && lib.keyIdOf(good) == Id(0x30)
    requires |bad| == PUBLIC_KEY_BYTES && lib.keyIdOf(bad) == Id(0x31)
    requires lib.identityOk(ReleaseClaims())
    requires lib.decode(goodSignature).Some? && lib.decode(badSignature).Some?
    requires var payload := CanonicalPayload(ReleaseClaims(), SignatureVersion(), Id(0x30));
             payload.Signed? ==> lib.verify(good, payload.bytes, lib.decode(goodSignature).value)
    requires var payload := CanonicalPayload(ReleaseClaims(), SignatureVersion(), Id(0x31));
             payload.Signed? ==> !lib.verify(bad, payload.bytes, lib.decode(badSignature).value)
    ensures OneGoodOneBad(lib, ReleaseClaims(), good, bad, goodSignature, badSignature)
  {
    ReleaseIsSigned(Id(0x30));
    ReleaseIsSigned(Id(0x31));
  }
}
