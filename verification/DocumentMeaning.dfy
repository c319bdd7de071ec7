/**
 * What a configuration document amounts to, told over its own fields: when it is accepted, when it
 * expires, and what a sync or a start then puts in force (`sidecar/crypto.py`, `sync.py`, `storage.py`).
 */
module DocumentMeaning {
  import opened Wrappers
  import opened Text
  import opened JsonValues
  import opened Hosting
  import opened ConfigSigning
  import opened SidecarRuntime
  import opened Storage
  import opened Synchronization
  import opened FailoverProperties
  import opened DataPlane
  import opened RuleMeaning

  // ---------- acceptance ----------

  /** The text under the configuration signature. */
  function SignedText(version: int, organization: string, environment: string, issuedAt: string, expiresAt: string,
                      digest: string): string {
    "AGENTTRUST-CONFIG/1" + "\n" + (Decimal(version) + "\n" + (organization + "\n" + (environment + "\n"
    + (issuedAt + "\n" + (expiresAt + "\n" + (digest + "\n"))))))
  }

  lemma LinesCons(first: string, rest: seq<string>)
    ensures Lines([first] + rest) == first + "\n" + Lines(rest)
  {
    assert ([first] + rest)[1..] == rest;
  }

  lemma ConfigStringIsSignedText(f: ConfigFields)
    ensures ConfigString(f)
      == SignedText(f.version, f.organization, f.environment, f.issuedAt, f.expiresAt, f.sha256)
  {
    var end := [f.sha256] + [];
    var from5 := [f.expiresAt] + end;
    var from4 := [f.issuedAt] + from5;
    var from3 := [f.environment] + from4;
    var from2 := [f.organization] + from3;
    var from1 := [Decimal(f.version)] + from2;
    LinesCons(f.sha256, []);
    assert f.sha256 + "\n" + "" == f.sha256 + "\n";
    LinesCons(f.expiresAt, end);
    LinesCons(f.issuedAt, from5);
    LinesCons(f.environment, from4);
    LinesCons(f.organization, from3);
    LinesCons(Decimal(f.version), from2);
    LinesCons("AGENTTRUST-CONFIG/1", from1);
    assert ConfigLines(f) == ["AGENTTRUST-CONFIG/1"] + from1;
  }

  lemma HeartbeatStringIsBeatText(gatewayId: string, version: int, timestamp: string)
    ensures HeartbeatString(gatewayId, version, timestamp)
      == "AGENTTRUST-HEARTBEAT/1" + "\n" + (gatewayId + "\n" + (Decimal(version) + "\n" + (timestamp + "\n")))
  {
    var end := [timestamp] + [];
    var from2 := [Decimal(version)] + end;
    var from1 := [gatewayId] + from2;
    LinesCons(timestamp, []);
    assert timestamp + "\n" + "" == timestamp + "\n";
    LinesCons(Decimal(version), end);
    LinesCons(gatewayId, from2);
    LinesCons("AGENTTRUST-HEARTBEAT/1", from1);
    assert [HEARTBEAT_SIGNING_VERSION, gatewayId, Decimal(version), timestamp] == ["AGENTTRUST-HEARTBEAT/1"] + from1;
  }

  /** The content; a bundle that is absent or falsy stands for an empty one. */
  ghost function Content(doc: ConfigDocument): Json {
    if doc.bundle.Some? && !Falsy(doc.bundle.value) then doc.bundle.value else Obj(map[])
  }

  ghost predicate Given(text: Option<string>) {
    text.Some? && text.value != ""
  }

  /** Nothing is missing, the digest is that of the content, and the signature is one on the signed text. */
  ghost predicate Vouched(host: Host, publicKey: string, doc: ConfigDocument) {
    doc.version.Some? && doc.version.value != 0 &&
    Given(doc.organization) && Given(doc.environment) && Given(doc.issuedAt) && Given(doc.expiresAt) &&
    Given(doc.bundleSha256) && Given(doc.signature) &&
    host.sha256(host.canonicalJson(Content(doc))) == doc.bundleSha256.value &&
    host.verifyEd25519(publicKey,
      SignedText(doc.version.value, doc.organization.value, doc.environment.value, doc.issuedAt.value,
                 doc.expiresAt.value, doc.bundleSha256.value),
      doc.signature.value)
  }

  /** A document is accepted iff no key is set, or the key vouches for the document as it stands. */
  lemma AcceptedIffVouched(host: Host, publicKey: Option<string>, doc: ConfigDocument)
    ensures SignatureAccepted(host, publicKey, doc) <==>
      publicKey == None || publicKey == Some("") || Vouched(host, publicKey.value, doc)
  {
    if doc.bundle.Some? {
      LookupsAgree(doc.bundle.value, "");
    }
    if Complete(doc) {
      ConfigStringIsSignedText(FieldsOf(doc));
    }
  }

  // ---------- expiry ----------

  /** The instant a text names: a final Z is the offset of UTC, and nothing else is touched. */
  ghost predicate Names(host: Host, text: string, t: real) {
    (exists p :: text == p + "Z" && host.parseIso(p + "+00:00") == Some(t)) ||
    ((forall p :: text != p + "Z") && host.parseIso(text) == Some(t))
  }

  ghost predicate NamesNone(host: Host, text: string) {
    forall t :: !Names(host, text, t)
  }

  lemma ZuluSuffix(p: string)
    ensures ExpiryText(p + "Z") == p + "+00:00"
  {
    var s := p + "Z";
    assert s[|p|..] == "Z" && s[..|p|] == p;
  }

  lemma ExpiryNames(host: Host, text: string, t: real)
    ensures host.parseIso(ExpiryText(text)) == Some(t) <==> Names(host, text, t)
  {
    if EndsWith(text, "Z") {
      var p := text[..|text| - 1];
      assert text == p + "Z";
      ZuluSuffix(p);
      forall q | text == q + "Z" ensures q == p {
        assert text[..|text| - 1] == q;
      }
    } else {
      forall p ensures text != p + "Z" {
        assert (p + "Z")[|p|..] == "Z";
      }
    }
  }

  // ---------- what comes into force ----------

  function TextOr(text: Option<string>, otherwise: string): string {
    match text
    case Some(given) => given
    case None => otherwise
  }

  /** In force is what the document says: its version or 0, its bundle or {}, and the instant its expiry names. */
  ghost predicate InForceAs(host: Host, doc: ConfigDocument, s: Snapshot) {
    s.version == (match doc.version case Some(v) => v case None => 0) &&
    s.activeConfig == (match doc.bundle case Some(b) => b case None => Obj(map[])) &&
    s.expiresAt.Some? && Names(host, TextOr(doc.expiresAt, ""), s.expiresAt.value)
  }

  lemma ActivationMeaning(host: Host, doc: ConfigDocument)
    ensures ActivatesAs(host, doc).None? <==> NamesNone(host, TextOr(doc.expiresAt, ""))
    ensures forall a :: ActivatesAs(host, doc) == Some(a) <==>
      a.version == (match doc.version case Some(v) => v case None => 0) &&
      a.bundle == (match doc.bundle case Some(b) => b case None => Obj(map[])) &&
      Names(host, TextOr(doc.expiresAt, ""), a.expiresAt)
  {
    var text := TextOr(doc.expiresAt, "");
    forall t ensures host.parseIso(ExpiryText(text)) == Some(t) <==> Names(host, text, t) {
      ExpiryNames(host, text, t);
    }
    if ActivatesAs(host, doc).Some? {
      assert Names(host, text, ActivatesAs(host, doc).value.expiresAt);
    }
  }

  /**
   * A sync that is offered an accepted document with a newer version puts in force what the
   * document says, however the cache write goes; if its expiry names no instant, nothing changes.
   */
  lemma SyncPutsInForce(host: Host, s: Snapshot, d: Disk, text: string, doc: ConfigDocument, fate: WriteFate, now: real)
    requires Given(s.gatewayId) && host.loadDocument(text) == Some(doc) && SignatureAccepted(host, s.publicKey, doc)
    requires s.version <= 0 || (doc.version.Some? && doc.version.value > s.version)
    ensures var o := Sync(host, s, d, [Attempt(Body(text), fate)], now);
      if NamesNone(host, TextOr(doc.expiresAt, "")) then
        InForce(o.state) == InForce(s) && o.disk == d && o.ending == Returned(false) && !o.state.reachable
      else
        InForceAs(host, doc, o.state) && o.state.lastSync == Some(now) &&
        (fate.Completes? ==> o.ending == Returned(true) && o.state.reachable)
  {
    var a := Attempt(Body(text), fate);
    assert [a][0] == a && [a][1..] == [];
    ActivationMeaning(host, doc);
    var t := EndpointTurn(host, s, d, a, now);
    assert t == DocumentTurn(host, s, d, doc, fate, now);
    var rest := SyncEndpoints(host, t.state, t.disk, [], now);
    assert rest == SyncOutcome(t.state.(reachable := false), t.disk, Returned(false), None);
    assert !RollbackBlocked(s, doc);
    match ActivatesAs(host, doc)
    case None =>
      assert Sync(host, s, d, [a], now) == rest;
    case Some(applied) =>
      assert t.state == WithApplied(s.(reachable := true), applied, now);
      assert InForceAs(host, doc, t.state);
  }

  lemma LoadableIsActivated(host: Host, publicKey: Option<string>, doc: ConfigDocument)
    ensures LoadableAs(host, publicKey, doc)
      == if SignatureAccepted(host, publicKey, doc) && Given(doc.expiresAt) then ActivatesAs(host, doc) else None
  {
  }

  /** A start puts in force what the readable, accepted document in the cache says, or else nothing. */
  lemma StartPutsInForce(dep: Deployment, d: Disk, text: string, doc: ConfigDocument, now: real)
    requires d.cacheFile == Some(text) && dep.host.loadDocument(text) == Some(doc)
    ensures var s := Started(dep, d, true, now);
      if SignatureAccepted(dep.host, dep.publicKey, doc) && Given(doc.expiresAt)
         && !NamesNone(dep.host, TextOr(doc.expiresAt, ""))
      then InForceAs(dep.host, doc, s)
      else s.version == 0 && s.expiresAt == None
  {
    LoadableIsActivated(dep.host, dep.publicKey, doc);
    ActivationMeaning(dep.host, doc);
    var cached := CachedAs(dep.host, dep.publicKey, d, true);
    assert cached == LoadableAs(dep.host, dep.publicKey, doc);
    match cached
    case None =>
    case Some(a) =>
      assert ActivatesAs(dep.host, doc) == Some(a);
      assert InForceAs(dep.host, doc, Started(dep, d, true, now));
  }

  /** Two documents that differ only in writing the offset of UTC as Z or as +00:00 come into force alike. */
  lemma ZuluIsUtc(dep: Deployment, s: Snapshot, d: Disk, zulu: string, utc: string, doc: ConfigDocument, p: string, now: real)
    requires dep.host.loadDocument(zulu) == Some(doc.(expiresAt := Some(p + "Z")))
    requires dep.host.loadDocument(utc) == Some(doc.(expiresAt := Some(p + "+00:00")))
    requires SignatureAccepted(dep.host, dep.publicKey, doc.(expiresAt := Some(p + "Z")))
    requires SignatureAccepted(dep.host, dep.publicKey, doc.(expiresAt := Some(p + "+00:00")))
    requires s.publicKey == dep.publicKey
    ensures Sync(dep.host, s, d, [Attempt(Body(zulu), Completes)], now).state
         == Sync(dep.host, s, d, [Attempt(Body(utc), Completes)], now).state
    ensures Started(dep, Disk(Some(zulu), None), true, now) == Started(dep, Disk(Some(utc), None), true, now)
  {
    ZuluSuffix(p);
    var u := p + "+00:00";
    assert u[|u| - 1] == '0' && ExpiryText(u) == u;
    var z, y := Attempt(Body(zulu), Completes), Attempt(Body(utc), Completes);
    assert [z][0] == z && [z][1..] == [] && [y][0] == y && [y][1..] == [];
    assert EndpointTurn(dep.host, s, d, z, now).state == EndpointTurn(dep.host, s, d, y, now).state;
  }

  // ---------- around a sync ----------

  /** Without a registered gateway neither a sync nor a heartbeat does anything. */
  lemma UnregisteredDoesNothing(host: Host, s: Snapshot, d: Disk, attempts: seq<Attempt>, replies: seq<HeartbeatReply>, now: real)
    requires s.gatewayId == None || s.gatewayId == Some("")
    ensures Sync(host, s, d, attempts, now) == Heartbeat(host, s, d, replies, now)
         == SyncOutcome(s, d, Returned(false), None)
  {
  }

  /** The primary control plane is asked first, and a configured secondary when the primary fails to answer. */
  lemma SecondaryIsAsked(host: Host, s: Snapshot, d: Disk, primary: string, secondary: string, a: Attempt, now: real)
    requires secondary != "" && Given(s.gatewayId)
    ensures Endpoints(primary, Some(secondary)) == [primary, secondary]
    ensures Endpoints(primary, Some("")) == Endpoints(primary, None) == [primary]
    ensures Sync(host, s, d, [Attempt(NoReply, a.fate), a], now) == Sync(host, s, d, [a], now)
    ensures Heartbeat(host, s, d, [NoAnswer, Acknowledged(true, [a])], now)
         == Heartbeat(host, s, d, [Acknowledged(true, [a])], now)
  {
    assert [Attempt(NoReply, a.fate), a][1..] == [a];
    assert [NoAnswer, Acknowledged(true, [a])][1..] == [Acknowledged(true, [a])];
  }

  /** A process starts online, with no nonces and all counters at zero, under the configured key and gateway. */
  lemma StartsAfresh(dep: Deployment, d: Disk, readable: bool, now: real)
    ensures var s := Started(dep, d, readable, now);
      s.reachable && s.nonces == map[] && s.metrics == Metrics(0, 0, 0, 0, 0) && s.lastHeartbeat == None &&
      s.publicKey == dep.publicKey && s.gatewayId == (if Given(dep.gatewayId) then dep.gatewayId else None) &&
      (!readable || d.cacheFile.None? ==> s.version == 0 && s.expiresAt == None)
  {
  }
}
