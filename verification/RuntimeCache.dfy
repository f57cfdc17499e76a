/** Resolution of the runtime: a cached binary with its signed manifest beside it, installed by atomic
    replacement, while other resolvers may change the cache between any two file steps and any step may fail. */
module RuntimeCache {
  import opened Wrappers
  import opened Bytes
  import opened ManifestPayload
  import opened ManifestVerify

  const MAX_MANIFEST_BYTES := 64 * 1024
  const MAX_ARTIFACT_BYTES := 128 * 1024 * 1024

  /** The two files of the cache. */
  datatype Store = Store(binary: Option<Text>, sidecar: Option<Text>)

  /** A manifest with the bytes it was parsed from. */
  datatype Descriptor = Descriptor(manifest: Manifest, raw: Text)

  /** Everything outside the resolver, of which nothing is assumed. `before(n)` is what others have made of the
      cache when file step `n` is reached, or None if they left it alone; `fails(n)` says that the step fails. */
  datatype World = World(
    lib: Library,
    keys: Option<seq<TrustedKey>>,         // the configured keyring, if it parses
    parse: Text -> Option<Manifest>,
    digest: Text -> Text,                  // SHA-256 in lower-case hexadecimal
    urlOk: Text -> bool,
    clock: nat -> int,
    fetch: nat -> Option<Text>,            // the resolve endpoint
    download: nat -> Option<Text>,         // the artifact server
    before: nat -> Option<Store>,
    tamper: nat -> Option<Text>,           // what others make of a private execution copy
    fails: nat -> bool)
  {
    predicate Authentic(d: Descriptor, now: int) {
      keys.Some? && parse(d.raw) == Some(d.manifest) && Accepts(lib, d.manifest, keys.value, now)
    }

    /** The manifest is accepted at a reading of the clock between two file steps. */
    ghost predicate AuthenticWithin(d: Descriptor, from: nat, to: nat) {
      exists n: nat :: from <= n <= to && Authentic(d, clock(n))
    }

    /** `content` is the artifact the manifest vouches for. */
    predicate Matches(content: Text, d: Descriptor) {
      |content| <= MAX_ARTIFACT_BYTES && digest(content) == d.manifest.claims.sha256
    }

    /** The cached manifest, if it is accepted at `now`. */
    function Held(store: Store, now: int): Option<Descriptor> {
      if store.sidecar == None || |store.sidecar.value| > MAX_MANIFEST_BYTES then None
      else if parse(store.sidecar.value) == None then None
      else
        var d := Descriptor(parse(store.sidecar.value).value, store.sidecar.value);
        if urlOk(d.manifest.claims.downloadUrl) && Authentic(d, now) then Some(d) else None
    }

    /** The binary in place is the artifact of the manifest. */
    predicate InPlace(store: Store, d: Descriptor) {
      LowerHex64(d.manifest.claims.sha256) && store.binary.Some? && Matches(store.binary.value, d)
    }

    /** Binary and sidecar agree, and the sidecar is accepted. */
    predicate Usable(store: Store, now: int) {
      Held(store, now).Some? && InPlace(store, Held(store, now).value)
    }

    /** What the artifact server must send for the manifest to be installed. */
    predicate Installable(d: Descriptor, content: Option<Text>) {
      && urlOk(d.manifest.claims.downloadUrl)
      && content.Some? && 1 <= |content.value| <= MAX_ARTIFACT_BYTES
      && |content.value| == d.manifest.claims.byteLength
      && digest(content.value) == d.manifest.claims.sha256 && LowerHex64(d.manifest.claims.sha256)
      && 1 <= |d.raw| <= MAX_MANIFEST_BYTES
    }

    /** What the resolve endpoint must send. */
    predicate Fetchable(raw: Option<Text>) {
      && raw.Some? && |raw.value| <= MAX_MANIFEST_BYTES && parse(raw.value).Some?
      && urlOk(parse(raw.value).value.claims.downloadUrl)
    }

    /** The endpoint sends an authentic manifest, and its artifact is in place or comes from the artifact server. */
    predicate Refills(store: Store, raw: Option<Text>, content: Option<Text>, now: int) {
      && Fetchable(raw)
      && var d := Descriptor(parse(raw.value).value, raw.value);
         Authentic(d, now) && ((InPlace(store, d) && 1 <= |d.raw|) || Installable(d, content))
    }

    /** What a resolve needs from file step `n` on, if no step fails, once it has looked at the cache. */
    predicate Serves(store: Store, cachedOnly: bool, n: nat, now: int) {
      match Held(store, now)
      case Some(d) => InPlace(store, d) || (!cachedOnly && Installable(d, download(n + 1)))
      case None => !cachedOnly && Refills(store, fetch(n), download(n + 2), now)
    }

    /** Nobody else touches the cache. */
    ghost predicate Undisturbed() { forall n: nat :: before(n) == None }

    /** Nobody else touches a private execution copy. */
    ghost predicate Untampered() { forall n: nat :: tamper(n) == None }

    ghost predicate Reliable() { Undisturbed() && forall n: nat :: !fails(n) }
  }

  predicate LowerHex64(text: Text) { |text| == 64 && forall i :: 0 <= i < 64 ==> LowerHex(text[i]) }

  /** The manifest is current, and some key of the keyring verifies a signature over the payload of its claims. */
  ghost predicate SignedAndCurrent(lib: Library, keys: seq<TrustedKey>, m: Manifest, now: int) {
    && m.claims.notBefore <= now <= m.claims.validUntil
    && exists i, j :: 0 <= i < |m.signatures| && 0 <= j < |keys|
         && keys[j].keyId == m.signatures[i].keyId
         && CanonicalPayload(m.claims, m.signatures[i].algorithm, m.signatures[i].keyId).Signed?
         && lib.decode(m.signatures[i].signature).Some?
         && lib.verify(keys[j].publicKey,
                       CanonicalPayload(m.claims, m.signatures[i].algorithm, m.signatures[i].keyId).bytes,
                       lib.decode(m.signatures[i].signature).value)
  }

  datatype Execution = Execution(content: Text, descriptor: Descriptor)

  class Resolver {
    const world: World
    var store: Store
    var step: nat
    var networkCalls: nat

    constructor (world: World, store: Store)
      ensures this.world == world && this.store == store && step == 0 && networkCalls == 0
    {
      this.world, this.store, step, networkCalls := world, store, 0, 0;
    }

    /** Reaches the next file step: others may have been there first, and the step may fail. */
    method Tick() returns (ok: bool)
      modifies this`store, this`step
      ensures world.before(old(step)) == None ==> store == old(store)
      ensures step == old(step) + 1 && (ok <==> !world.fails(old(step)))
    {
      var others := world.before(step);
      if others.Some? { store := others.value; }
      ok := !world.fails(step);
      step := step + 1;
    }

    method ReadSidecar() returns (d: Option<Descriptor>)
      modifies this`store, this`step
      ensures d.Some? ==> |d.value.raw| <= MAX_MANIFEST_BYTES && world.parse(d.value.raw) == Some(d.value.manifest)
                          && store.sidecar == Some(d.value.raw)
      ensures world.Undisturbed() ==> store == old(store)
      ensures step == old(step) + 1
      ensures world.Reliable() && store.sidecar.Some? && |store.sidecar.value| <= MAX_MANIFEST_BYTES
              && world.parse(store.sidecar.value).Some? ==>
                d == Some(Descriptor(world.parse(store.sidecar.value).value, store.sidecar.value))
    {
      var ok := Tick();
      if !ok || store.sidecar == None || |store.sidecar.value| > MAX_MANIFEST_BYTES { return None; }
      var manifest := world.parse(store.sidecar.value);
      if manifest == None { return None; }
      return Some(Descriptor(manifest.value, store.sidecar.value));
    }

    method VerifyArtifactFile(d: Descriptor) returns (ok: bool)
      modifies this`store, this`step
      ensures ok ==> world.InPlace(store, d)
      ensures world.Undisturbed() ==> store == old(store)
      ensures step == if LowerHex64(d.manifest.claims.sha256) then old(step) + 1 else old(step)
      ensures world.Reliable() ==> (ok <==> world.InPlace(store, d))
    {
      if !LowerHex64(d.manifest.claims.sha256) { return false; }
      ok := Tick();
      if !ok || store.binary == None || |store.binary.value| > MAX_ARTIFACT_BYTES { return false; }
      return world.digest(store.binary.value) == d.manifest.claims.sha256;
    }

    /** An atomic replacement: the file has its old content or the new one, never part of it. */
    method ReplaceBinary(content: Text) returns (ok: bool)
      modifies this`store, this`step
      ensures old(step) <= step
      ensures ok ==> store.binary == Some(content)
      ensures world.Undisturbed() ==> store == if ok then old(store).(binary := Some(content)) else old(store)
      ensures world.Reliable() ==> ok
    {
      ok := Tick();
      if ok { store := store.(binary := Some(content)); }
    }

    /** The canonical bytes of a descriptor in a temporary file beside the cache. */
    method PrepareSidecar(d: Descriptor) returns (ok: bool)
      modifies this`store, this`step
      ensures old(step) <= step
      ensures ok ==> 1 <= |d.raw| <= MAX_MANIFEST_BYTES
      ensures world.Undisturbed() ==> store == old(store)
      ensures world.Reliable() ==> (ok <==> 1 <= |d.raw| <= MAX_MANIFEST_BYTES)
    {
      if |d.raw| < 1 || |d.raw| > MAX_MANIFEST_BYTES { return false; }
      ok := Tick();
    }

    method ReplaceSidecar(d: Descriptor) returns (ok: bool)
      modifies this`store, this`step
      ensures old(step) <= step
      ensures ok ==> store.sidecar == Some(d.raw)
      ensures world.Undisturbed() ==> store == if ok then old(store).(sidecar := Some(d.raw)) else old(store)
      ensures world.Reliable() ==> ok
    {
      ok := Tick();
      if ok { store := store.(sidecar := Some(d.raw)); }
    }

    /** `verifyRuntimeManifest`: what it accepts is current, and signed by a key of the keyring. */
    method Authenticate(d: Descriptor, now: int) returns (ok: bool)
      requires world.parse(d.raw) == Some(d.manifest)
      ensures ok <==> world.Authentic(d, now)
      ensures ok ==> world.keys.Some? && SignedAndCurrent(world.lib, world.keys.value, d.manifest, now)
    {
      if world.keys == None { return false; }
      var error := VerifyManifest(world.lib, d.manifest, world.keys.value, now);
      ok := error == None;
    }

    method FetchManifest() returns (d: Option<Descriptor>)
      modifies this`networkCalls, this`step
      ensures networkCalls == old(networkCalls) + 1 && step == old(step) + 1
      ensures d.Some? <==> world.Fetchable(world.fetch(old(step)))
      ensures d.Some? ==>
                Some(d.value.raw) == world.fetch(old(step)) && world.parse(d.value.raw) == Some(d.value.manifest)
    {
      networkCalls := networkCalls + 1;
      var raw := world.fetch(step);
      step := step + 1;
      if raw == None || |raw.value| > MAX_MANIFEST_BYTES { return None; }
      var manifest := world.parse(raw.value);
      if manifest == None || !world.urlOk(manifest.value.claims.downloadUrl) { return None; }
      return Some(Descriptor(manifest.value, raw.value));
    }

    /** The artifact as downloaded, if it has the signed length and digest. */
    method Download(d: Descriptor) returns (artifact: Option<Text>)
      modifies this`networkCalls, this`step
      ensures old(step) <= step
      ensures networkCalls <= old(networkCalls) + 1
      ensures artifact.Some? ==>
                && world.urlOk(d.manifest.claims.downloadUrl) && artifact == world.download(old(step))
                && 1 <= |artifact.value| <= MAX_ARTIFACT_BYTES && |artifact.value| == d.manifest.claims.byteLength
                && world.digest(artifact.value) == d.manifest.claims.sha256
      ensures artifact == None ==> !world.Installable(d, world.download(old(step)))
    {
      if !world.urlOk(d.manifest.claims.downloadUrl) { return None; }
      networkCalls := networkCalls + 1;
      var content := world.download(step);
      step := step + 1;
      if content == None { return None; }
      var length := d.manifest.claims.byteLength;
      if length < 1 || length > MAX_ARTIFACT_BYTES { return None; }
      var temporary := if |content.value| > length + 1 then content.value[..length + 1] else content.value;
      if |temporary| != length || world.digest(temporary) != d.manifest.claims.sha256 { return None; }
      return Some(temporary);
    }

    /** `downloadAndInstallRuntime`: nothing is installed that does not have the signed length and digest, and nothing
        before the new sidecar is ready. */
    method DownloadAndInstall(d: Descriptor) returns (ok: bool)
      modifies this
      ensures old(step) <= step
      ensures networkCalls <= old(networkCalls) + 1
      ensures world.Reliable() ==> (ok <==> world.Installable(d, world.download(old(step))))
      ensures ok ==> world.InPlace(store, d)
      ensures world.Undisturbed() && ok ==>
                && store.sidecar == Some(d.raw) && |d.raw| <= MAX_MANIFEST_BYTES
                && world.urlOk(d.manifest.claims.downloadUrl)
      ensures world.Undisturbed() && store.binary != old(store).binary ==>
                store.binary.Some? && world.digest(store.binary.value) == d.manifest.claims.sha256
      ensures world.Undisturbed() && !(1 <= |d.raw| <= MAX_MANIFEST_BYTES) ==> store == old(store)
    {
      var artifact := Download(d);
      if artifact == None { return false; }
      ok := PrepareSidecar(d);
      if !ok { return false; }
      ok := ReplaceBinary(artifact.value);
      if !ok { return false; }
      ok := Tick();                       // protect the binary
      if !ok { return false; }
      ok := ReplaceSidecar(d);
      if !ok { return false; }
      ok := Tick();                       // protect the sidecar and sync the directory
      if !ok { return false; }
      ok := VerifyArtifactFile(d);
    }

    /** `writeRuntimeManifestSidecar`. */
    method WriteSidecar(d: Descriptor) returns (ok: bool)
      modifies this`store, this`step
      ensures old(step) <= step
      ensures world.Undisturbed() ==> store.binary == old(store).binary && (ok ==> store.sidecar == Some(d.raw))
      ensures world.Reliable() ==> (ok <==> 1 <= |d.raw| <= MAX_MANIFEST_BYTES)
    {
      ok := PrepareSidecar(d);
      if !ok { return false; }
      ok := ReplaceSidecar(d);
      if !ok { return false; }
      ok := Tick();                       // protect the sidecar and sync the directory
    }

    /** The part of `resolveRuntimePath` that asks for a manifest, and installs its artifact unless the cached binary
        is it. */
    method FetchAndInstall(now: int) returns (ok: bool)
      requires world.keys.Some?
      modifies this
      ensures old(step) <= step
      ensures ok && world.Undisturbed() ==> world.Usable(store, now)
      ensures world.Reliable() ==>
                (ok <==> world.Refills(old(store), world.fetch(old(step)), world.download(old(step) + 2), now))
    {
      var fetched := FetchManifest();
      if fetched == None { return false; }
      ok := Authenticate(fetched.value, now);
      if !ok { return false; }
      ok := VerifyArtifactFile(fetched.value);
      if ok {
        ok := WriteSidecar(fetched.value);
        if !ok { return false; }
        ok := VerifyArtifactFile(fetched.value);
      } else {
        ok := DownloadAndInstall(fetched.value);
      }
    }

    /** The cached manifest, if it is accepted at `now`. */
    method ReadAccepted(now: int) returns (d: Option<Descriptor>)
      modifies this`store, this`step
      ensures d.Some? ==> world.Held(store, now) == d
      ensures world.Undisturbed() ==> store == old(store)
      ensures step == old(step) + 1
      ensures world.Reliable() ==> d == world.Held(store, now)
    {
      d := ReadSidecar();
      if d.Some? {
        var ok := Authenticate(d.value, now);
        if !ok || !world.urlOk(d.value.manifest.claims.downloadUrl) { d := None; }
      }
    }

    /** The cached binary if it is the artifact of the accepted manifest; otherwise, unless only the cache may be
        used, that artifact is installed. */
    method UseAccepted(d: Descriptor, now: int, cachedOnly: bool) returns (settled: bool, ok: bool)
      requires world.Held(store, now) == Some(d)
      modifies this
      ensures old(step) <= step
      ensures settled && ok && world.Undisturbed() ==> world.Usable(store, now)
      ensures settled <==> !cachedOnly || ok
      ensures cachedOnly ==> networkCalls == old(networkCalls)
      ensures world.Reliable() ==>
                (ok <==> world.InPlace(old(store), d)
                         || (!cachedOnly && world.Installable(d, world.download(old(step) + 1))))
      ensures world.Reliable() && world.InPlace(old(store), d) ==>
                networkCalls == old(networkCalls) && store == old(store)
    {
      ok := VerifyArtifactFile(d);
      settled := ok || !cachedOnly;
      if settled && !ok { ok := DownloadAndInstall(d); }
    }

    /** Uses what the cache holds, or asks for a manifest. */
    method UseOrFetch(cached: Option<Descriptor>, now: int, cachedOnly: bool) returns (ok: bool)
      requires world.keys.Some? && (cached.Some? ==> world.Held(store, now) == cached)
      modifies this
      ensures old(step) <= step
      ensures cachedOnly ==> networkCalls == old(networkCalls)
      ensures ok && world.Undisturbed() ==> world.Usable(store, now)
      ensures world.Reliable() && cached == world.Held(old(store), now) ==>
                (ok <==> world.Serves(old(store), cachedOnly, old(step), now))
      ensures world.Reliable() && cached == world.Held(old(store), now) && world.Usable(old(store), now) ==>
                ok && networkCalls == old(networkCalls) && store == old(store)
    {
      if cached.Some? {
        var settled;
        settled, ok := UseAccepted(cached.value, now, cachedOnly);
        if settled { return; }
      }
      if cachedOnly { return false; }
      ok := FetchAndInstall(now);
    }

    /** The part of `resolveRuntimePath` after its refusals. */
    method ResolveCached(cachedOnly: bool) returns (ok: bool)
      requires world.keys.Some?
      modifies this
      ensures old(step) <= step
      ensures cachedOnly ==> networkCalls == old(networkCalls)
      ensures ok && world.Undisturbed() ==> world.Usable(store, world.clock(old(step) + 1))
      ensures world.Reliable() ==>
                (ok <==> world.Serves(old(store), cachedOnly, old(step) + 2, world.clock(old(step) + 1)))
      ensures world.Reliable() && world.Usable(old(store), world.clock(old(step) + 1)) ==>
                ok && networkCalls == old(networkCalls) && store == old(store)
    {
      ok := Tick();                       // make the cache directory
      if !ok { return false; }
      var now := world.clock(step);
      var cached := ReadAccepted(now);
      ok := UseOrFetch(cached, now, cachedOnly);
    }

    /** `resolveRuntimePath`. `hasKey` says that a runner key remains after trimming. */
    method ResolvePath(hasKey: bool, agentCachedOnly: bool) returns (ok: bool)
      modifies this
      ensures old(step) <= step
      ensures ok ==> world.keys.Some?
      // agent mode without a key never uses the network
      ensures agentCachedOnly && !hasKey ==> networkCalls == old(networkCalls)
      // no key and no agent mode is refused before anything is looked at
      ensures !agentCachedOnly && !hasKey ==> !ok && networkCalls == old(networkCalls) && store == old(store)
      // a success nobody interfered with leaves a binary and a sidecar that agree
      ensures ok && world.Undisturbed() ==> world.Usable(store, world.clock(old(step) + 1))
      // in flat terms: the binary in place has the digest that a manifest claims which is current and signed by a key
      // of the keyring
      ensures ok && world.Undisturbed() ==>
                && world.keys.Some? && store.sidecar.Some? && |store.sidecar.value| <= 65536
                && world.parse(store.sidecar.value).Some? && store.binary.Some? && |store.binary.value| <= 134217728
                && var m := world.parse(store.sidecar.value).value;
                   && world.digest(store.binary.value) == m.claims.sha256 && world.urlOk(m.claims.downloadUrl)
                   && m.claims.notBefore <= world.clock(old(step) + 1) <= m.claims.validUntil
                   && exists i, j :: 0 <= i < |m.signatures| && 0 <= j < |world.keys.value|
                        && world.keys.value[j].keyId == m.signatures[i].keyId
                        && CanonicalPayload(m.claims, m.signatures[i].algorithm, m.signatures[i].keyId).Signed?
                        && world.lib.decode(m.signatures[i].signature).Some?
                        && world.lib.verify(
                             world.keys.value[j].publicKey,
                             CanonicalPayload(m.claims, m.signatures[i].algorithm, m.signatures[i].keyId).bytes,
                             world.lib.decode(m.signatures[i].signature).value)
      // if no step fails, from any cache: success exactly if the cache or the servers have what is needed
      ensures world.Reliable() && (hasKey || agentCachedOnly) ==>
                (ok <==> world.keys.Some? && world.Serves(old(store), agentCachedOnly && !hasKey, old(step) + 2,
                                                          world.clock(old(step) + 1)))
      // and a cache that agrees is used as it is, without the network
      ensures world.Reliable() && (hasKey || agentCachedOnly)
              && world.Usable(old(store), world.clock(old(step) + 1)) ==>
                ok && networkCalls == old(networkCalls) && store == old(store)
    {
      var cachedOnly := agentCachedOnly && !hasKey;
      if !hasKey && !cachedOnly { return false; }
      if world.keys == None { return false; }
      ok := ResolveCached(cachedOnly);
      if ok && world.Undisturbed() { UsableIsSigned(world, store, world.clock(old(step) + 1)); }
    }

    /** Copies the cached binary into a private directory while hashing it, and hashes the copy again. */
    method PrepareExecutionCopy(d: Descriptor) returns (copy: Option<Text>)
      modifies this`store, this`step
      ensures old(step) <= step
      ensures copy.Some? ==> world.Matches(copy.value, d)
      // and that is written with 64 digits 0 to 9 and a to f
      ensures copy.Some? ==>
                var name := d.manifest.claims.sha256;
                |name| == 64 && forall i :: 0 <= i < 64 ==> 0x30 <= name[i] <= 0x39 || 0x61 <= name[i] <= 0x66
      ensures world.Undisturbed() ==> store == old(store)
      ensures world.Reliable() && world.Untampered() ==> (copy.Some? <==> world.InPlace(old(store), d))
    {
      if !LowerHex64(d.manifest.claims.sha256) { return None; }
      var ok := Tick();
      if !ok || store.binary == None { return None; }
      var content := store.binary.value;
      if |content| > MAX_ARTIFACT_BYTES || world.digest(content) != d.manifest.claims.sha256 { return None; }
      ok := Tick();
      if !ok { return None; }
      var others := world.tamper(step);
      var private := if others.Some? then others.value else content;
      if |private| > MAX_ARTIFACT_BYTES || world.digest(private) != d.manifest.claims.sha256 { return None; }
      return Some(private);
    }

    /** `resolveRuntimeExecution`: from any cache contents, and whatever others do to the cache between any two
        steps, an execution copy has the digest claimed by a manifest that verified at a time of this call. */
    method ResolveExecution(hasKey: bool, agentCachedOnly: bool) returns (execution: Option<Execution>)
      modifies this
      ensures old(step) <= step
      ensures execution.Some? ==>
                && world.Matches(execution.value.content, execution.value.descriptor)
                && world.AuthenticWithin(execution.value.descriptor, old(step), step)
      ensures agentCachedOnly && !hasKey ==> networkCalls == old(networkCalls)
      ensures world.Undisturbed() && execution.Some? ==>
                && world.Usable(store, world.clock(old(step) + 1))
                && world.Held(store, world.clock(old(step) + 1)) == Some(execution.value.descriptor)
      // in flat terms: at a time of this call that manifest was current, and signed by a key of the keyring
      ensures execution.Some? ==>
                && world.keys.Some? && |execution.value.content| <= 134217728
                && world.digest(execution.value.content) == execution.value.descriptor.manifest.claims.sha256
                && world.parse(execution.value.descriptor.raw) == Some(execution.value.descriptor.manifest)
                && var m := execution.value.descriptor.manifest;
                   && (exists n: nat :: old(step) <= n <= step
                         && m.claims.notBefore <= world.clock(n) <= m.claims.validUntil)
                   && exists i, j :: 0 <= i < |m.signatures| && 0 <= j < |world.keys.value|
                        && world.keys.value[j].keyId == m.signatures[i].keyId
                        && CanonicalPayload(m.claims, m.signatures[i].algorithm, m.signatures[i].keyId).Signed?
                        && world.lib.decode(m.signatures[i].signature).Some?
                        && world.lib.verify(
                             world.keys.value[j].publicKey,
                             CanonicalPayload(m.claims, m.signatures[i].algorithm, m.signatures[i].keyId).bytes,
                             world.lib.decode(m.signatures[i].signature).value)
      // if no step fails, a copy needs what a resolve needs
      ensures world.Reliable() && execution.Some? ==> Resolvable(old(store), hasKey, agentCachedOnly, old(step))
      // and that is enough, while the manifest that the resolve leaves stays current and nobody touches the copy
      ensures world.Reliable() && world.Untampered() && Resolvable(old(store), hasKey, agentCachedOnly, old(step)) ==>
                && world.Usable(store, world.clock(old(step) + 1))
                && (CurrentFrom(old(step), world.Held(store, world.clock(old(step) + 1)).value) ==> execution.Some?)
      // a usable cache is executed without the network, and left as it is
      ensures world.Reliable() && world.Untampered() && (hasKey || agentCachedOnly)
              && world.Usable(old(store), world.clock(old(step) + 1))
              && CurrentFrom(old(step), world.Held(old(store), world.clock(old(step) + 1)).value) ==>
                execution.Some? && networkCalls == old(networkCalls) && store == old(store)
    {
      ghost var now := world.clock(step + 1);
      var ok := ResolvePath(hasKey, agentCachedOnly);
      if !ok { return None; }
      ghost var resolved := step;
      execution := ExecuteResolved(now);
      if execution.Some? { AuthenticIsSigned(world, execution.value.descriptor, old(step), resolved, step); }
    }

    /** What a resolve that begins at file step `n` needs, if no step fails. */
    predicate Resolvable(store: Store, hasKey: bool, agentCachedOnly: bool, n: nat) {
      && (hasKey || agentCachedOnly) && world.keys.Some?
      && world.Serves(store, agentCachedOnly && !hasKey, n + 2, world.clock(n + 1))
    }

    /** The manifest is current whenever the clock is read from file step `n` on. */
    ghost predicate CurrentFrom(n: nat, d: Descriptor) {
      forall m: nat :: n <= m ==> Current(d.manifest.claims, world.clock(m))
    }

    /** The part of `resolveRuntimeExecution` after the resolve, which was made at `now`. */
    method ExecuteResolved(ghost now: int) returns (execution: Option<Execution>)
      modifies this`store, this`step
      ensures old(step) <= step
      ensures execution.Some? ==>
                && world.Matches(execution.value.content, execution.value.descriptor)
                && world.AuthenticWithin(execution.value.descriptor, old(step), step)
      ensures world.Undisturbed() ==> store == old(store)
      ensures world.Undisturbed() && execution.Some? && world.Usable(store, now) ==>
                world.Held(store, now) == Some(execution.value.descriptor)
      ensures world.Reliable() && world.Untampered() && world.Usable(old(store), now)
              && CurrentFrom(old(step), world.Held(old(store), now).value) ==>
                execution.Some?
    {
      var d := ReadSidecar();
      if d == None { return None; }
      var ok := Authenticate(d.value, world.clock(step));
      if !ok { return None; }
      ghost var verified := step;
      var copy := PrepareExecutionCopy(d.value);
      if copy == None { return None; }
      execution := Some(Execution(copy.value, d.value));
      assert old(step) <= verified <= step && world.Authentic(d.value, world.clock(verified));
    }
  }

  lemma AuthenticIsSigned(world: World, d: Descriptor, from: nat, middle: nat, to: nat)
    requires from <= middle && world.AuthenticWithin(d, middle, to)
    ensures world.AuthenticWithin(d, from, to)
    ensures world.keys.Some? && world.parse(d.raw) == Some(d.manifest)
    ensures exists n: nat ::
              from <= n <= to && SignedAndCurrent(world.lib, world.keys.value, d.manifest, world.clock(n))
  {
    var n: nat :| middle <= n <= to && world.Authentic(d, world.clock(n));
    assert from <= n <= to && world.Authentic(d, world.clock(n));
    AcceptedIsSigned(world.lib, d.manifest, world.keys.value, world.clock(n));
    assert SignedAndCurrent(world.lib, world.keys.value, d.manifest, world.clock(n));
  }

  lemma UsableIsSigned(world: World, store: Store, now: int)
    requires world.Usable(store, now)
    ensures world.keys.Some? && store.sidecar.Some? && world.parse(store.sidecar.value).Some?
    ensures SignedAndCurrent(world.lib, world.keys.value, world.parse(store.sidecar.value).value, now)
  {
    AcceptedIsSigned(world.lib, world.parse(store.sidecar.value).value, world.keys.value, now);
  }

  /** A usable cache stays usable within the validity of its manifest. */
  lemma UsableWhileCurrent(world: World, store: Store, now: int, later: int)
    requires world.Usable(store, now)
    ensures store.sidecar.Some? && world.parse(store.sidecar.value).Some?
    ensures Current(world.parse(store.sidecar.value).value.claims, later) ==> world.Usable(store, later)
  {
  }

  /** Resolves, and reads off the manifest that is left in the cache. */
  method ResolveAndRead(r: Resolver, hasKey: bool, agentCachedOnly: bool) returns (ok: bool, manifest: Option<Manifest>)
    modifies r
    ensures r.world.Undisturbed() && ok ==>
              && manifest.Some? && r.store.sidecar.Some? && r.world.parse(r.store.sidecar.value) == manifest
              && forall later: int :: Current(manifest.value.claims, later) ==> r.world.Usable(r.store, later)
  {
    ghost var now := r.world.clock(r.step + 1);
    ok := r.ResolvePath(hasKey, agentCachedOnly);
    manifest := if r.store.sidecar.Some? then r.world.parse(r.store.sidecar.value) else None;
    if r.world.Usable(r.store, now) {
      forall later: int
        ensures manifest.Some? && (Current(manifest.value.claims, later) ==> r.world.Usable(r.store, later))
      {
        UsableWhileCurrent(r.world, r.store, now, later);
      }
    }
  }

  /** Resolves twice. If nobody interferes and no step fails, a second resolve within the validity of the manifest that
      the first one left, with or without a key, succeeds without the network and without touching the cache. `start`
      is the file step, and `between` the number of network calls, between the two. */
  method ResolveTwice(r: Resolver, hasKey: bool, agentCachedOnly: bool, hasKeyAgain: bool, agentCachedOnlyAgain: bool)
    returns (first: bool, second: bool, manifest: Option<Manifest>, start: nat, between: nat)
    requires hasKeyAgain || agentCachedOnlyAgain
    modifies r
    ensures r.world.Undisturbed() && first ==> manifest.Some?
    ensures r.world.Reliable() && first && manifest.Some?
            && Current(manifest.value.claims, r.world.clock(start + 1)) ==>
              && second && r.networkCalls == between
              && r.store.sidecar.Some? && r.world.parse(r.store.sidecar.value) == manifest
  {
    first, manifest := ResolveAndRead(r, hasKey, agentCachedOnly);
    start, between := r.step, r.networkCalls;
    second := r.ResolvePath(hasKeyAgain, agentCachedOnlyAgain);
  }
}
