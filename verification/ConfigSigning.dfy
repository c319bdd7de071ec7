/** Signing strings and the verification of control-plane configuration (`sidecar/crypto.py`). */
module ConfigSigning {
  import opened Wrappers
  import opened Text
  import opened JsonValues
  import opened Hosting

  const CONFIG_SIGNING_VERSION := "AGENTTRUST-CONFIG/1"
  const HEARTBEAT_SIGNING_VERSION := "AGENTTRUST-HEARTBEAT/1"

  /** The six values the configuration signature covers. */
  datatype ConfigFields = ConfigFields(
    version: int,
    organization: string,
    environment: string,
    issuedAt: string,
    expiresAt: string,
    sha256: string)
  {
    function Texts(): seq<string> {
      [organization, environment, issuedAt, expiresAt, sha256]
    }
  }

  function ConfigLines(f: ConfigFields): seq<string> {
    [CONFIG_SIGNING_VERSION, Decimal(f.version)] + f.Texts()
  }

  function ConfigString(f: ConfigFields): string {
    Lines(ConfigLines(f))
  }

  function HeartbeatString(gatewayId: string, version: int, timestamp: string): string {
    Lines([HEARTBEAT_SIGNING_VERSION, gatewayId, Decimal(version), timestamp])
  }

  function BundleSha256(host: Host, bundle: Json): string {
    host.sha256(host.canonicalJson(bundle))
  }

  /** `config_bundle_data.get("bundle") or {}` */
  function HashedBundle(doc: ConfigDocument): Json {
    if doc.bundle.Some? && Truthy(doc.bundle.value) then doc.bundle.value else EMPTY_OBJECT
  }

  predicate Complete(doc: ConfigDocument) {
    doc.version.Some? && doc.version.value != 0 &&
    IsSet(doc.organization) && IsSet(doc.environment) && IsSet(doc.issuedAt) &&
    IsSet(doc.expiresAt) && IsSet(doc.bundleSha256) && IsSet(doc.signature)
  }

  function FieldsOf(doc: ConfigDocument): ConfigFields
    requires Complete(doc)
  {
    ConfigFields(doc.version.value, doc.organization.value, doc.environment.value,
                 doc.issuedAt.value, doc.expiresAt.value, doc.bundleSha256.value)
  }

  predicate VerifyConfig(host: Host, doc: ConfigDocument, publicKey: string) {
    Complete(doc) &&
    BundleSha256(host, HashedBundle(doc)) == doc.bundleSha256.value &&
    host.verifyEd25519(publicKey, ConfigString(FieldsOf(doc)), doc.signature.value)
  }

  // ---------- the configuration string is uniquely decodable ----------

  /**
   * If the text fields of `signed` hold no newline, nothing else prints like it: the other
   * side may contain newlines anywhere and still cannot collide.
   */
  lemma ConfigStringInjective(signed: ConfigFields, other: ConfigFields)
    requires NewlineFree(signed.Texts())
    requires ConfigString(signed) == ConfigString(other)
    ensures signed == other
  {
    DecimalRoundTrip(signed.version);
    DecimalRoundTrip(other.version);
    var a, b := ConfigLines(signed), ConfigLines(other);
    assert NewlineFree(a) by {
      forall i | 0 <= i < |a| ensures '\n' !in a[i] {
        if i >= 2 { assert a[i] == signed.Texts()[i - 2]; }
      }
    }
    LinesInjective(a, b);
    assert a[1] == b[1] && a[2] == b[2] && a[3] == b[3] && a[4] == b[4] && a[5] == b[5] && a[6] == b[6];
  }

  /** Moving the cut between two adjacent fields leaves the printed text as it was. */
  lemma LinesShift(before: seq<string>, a: string, b: string, c: string, after: seq<string>)
    ensures Lines(before + [a + "\n" + b, c] + after) == Lines(before + [a, b + "\n" + c] + after)
  {
    if before == [] {
      var x, y := [a + "\n" + b, c] + after, [a, b + "\n" + c] + after;
      assert before + [a + "\n" + b, c] + after == x && before + [a, b + "\n" + c] + after == y;
      assert x[1..] == [c] + after && x[1..][1..] == after;
      assert y[1..] == [b + "\n" + c] + after && y[1..][1..] == after;
      assert Lines(x) == a + "\n" + b + "\n" + (c + "\n" + Lines(after));
      assert Lines(y) == a + "\n" + (b + "\n" + c + "\n" + Lines(after));
    } else {
      LinesShift(before[1..], a, b, c, after);
      assert (before + [a + "\n" + b, c] + after)[1..] == before[1..] + [a + "\n" + b, c] + after;
      assert (before + [a, b + "\n" + c] + after)[1..] == before[1..] + [a, b + "\n" + c] + after;
    }
  }

  /** The same version with the texts that seven lines say. */
  function Recut(f: ConfigFields, lines: seq<string>): ConfigFields
    requires |lines| == 7
  {
    ConfigFields(f.version, lines[2], lines[3], lines[4], lines[5], lines[6])
  }

  lemma CutBackward(f: ConfigFields, k: nat, head: string, tail: string) returns (other: ConfigFields)
    requires k < 4 && f.Texts()[k] == head + "\n" + tail
    ensures other != f && ConfigString(other) == ConfigString(f)
  {
    var lines := ConfigLines(f);
    var next := lines[k + 3];
    var lines' := lines[..k + 2] + [head, tail + "\n" + next] + lines[k + 4..];
    LinesShift(lines[..k + 2], head, tail, next, lines[k + 4..]);
    assert lines == lines[..k + 2] + [head + "\n" + tail, next] + lines[k + 4..];
    other := Recut(f, lines');
    assert ConfigLines(other) == lines';
    assert other.Texts()[k] == head && |head| < |f.Texts()[k]|;
  }

  lemma CutForward(f: ConfigFields, head: string, tail: string) returns (other: ConfigFields)
    requires f.sha256 == head + "\n" + tail
    ensures other != f && ConfigString(other) == ConfigString(f)
  {
    var lines := ConfigLines(f);
    var lines' := lines[..5] + [f.expiresAt + "\n" + head, tail] + [];
    LinesShift(lines[..5], f.expiresAt, head, tail, []);
    assert lines == lines[..5] + [f.expiresAt, head + "\n" + tail] + [];
    other := Recut(f, lines');
    assert ConfigLines(other) == lines';
    assert other.sha256 == tail && |tail| < |f.sha256|;
  }

  /** A field that holds a newline can give its tail to its neighbour: another tuple, the same string. */
  lemma NewlineCollides(f: ConfigFields) returns (other: ConfigFields)
    requires !NewlineFree(f.Texts())
    ensures other != f && ConfigString(other) == ConfigString(f)
  {
    var t := f.Texts();
    var k :| 0 <= k < |t| && '\n' in t[k];
    var p :| 0 <= p < |t[k]| && t[k][p] == '\n';
    var head, tail := t[k][..p], t[k][p + 1..];
    assert t[k] == head + "\n" + tail;
    if k < 4 {
      other := CutBackward(f, k, head, tail);
    } else {
      other := CutForward(f, head, tail);
    }
  }

  /** Exactly when a configuration string determines all six values it was printed from. */
  lemma UniquelyDecodableIff(f: ConfigFields)
    ensures (forall other :: ConfigString(other) == ConfigString(f) ==> other == f)
            <==> NewlineFree(f.Texts())
  {
    if NewlineFree(f.Texts()) {
      forall other | ConfigString(other) == ConfigString(f) ensures other == f {
        ConfigStringInjective(f, other);
      }
    } else {
      var other := NewlineCollides(f);
    }
  }

  /** No configuration string is a heartbeat string, whatever the fields contain. */
  lemma ConfigIsNeverHeartbeat(f: ConfigFields, gatewayId: string, version: int, timestamp: string)
    ensures ConfigString(f) != HeartbeatString(gatewayId, version, timestamp)
  {
    var beat := [HEARTBEAT_SIGNING_VERSION, gatewayId, Decimal(version), timestamp];
    assert ConfigLines(f)[0] == CONFIG_SIGNING_VERSION && beat[0] == HEARTBEAT_SIGNING_VERSION;
    assert ConfigString(f)[11] == 'C';
    assert HeartbeatString(gatewayId, version, timestamp)[11] == 'H';
  }

  // ---------- only what was signed is accepted ----------

  /** What the control plane put its signature on. */
  datatype SignedConfig = SignedConfig(
    version: int, organization: string, environment: string,
    issuedAt: string, expiresAt: string, bundle: Json)

  function SignedFields(host: Host, c: SignedConfig): ConfigFields {
    ConfigFields(c.version, c.organization, c.environment, c.issuedAt, c.expiresAt, BundleSha256(host, c.bundle))
  }

  ghost predicate IsHeartbeat(message: string) {
    exists g, v, t :: message == HeartbeatString(g, v, t)
  }

  /**
   * An unforgeable key: a signature verifies only on the configurations in `signed`, or on
   * some heartbeat (the same key may sign those too).
   */
  ghost predicate SignsOnly(host: Host, publicKey: string, signed: set<SignedConfig>) {
    forall m, sig :: host.verifyEd25519(publicKey, m, sig) ==>
      (exists c :: c in signed && m == ConfigString(SignedFields(host, c))) || IsHeartbeat(m)
  }

  ghost predicate OneLineTexts(host: Host, c: SignedConfig) {
    NewlineFree(SignedFields(host, c).Texts())
  }

  /** The document's content shares its digest with no signed content but an equal one. */
  ghost predicate NoCollision(host: Host, signed: set<SignedConfig>, doc: ConfigDocument) {
    forall c :: c in signed && BundleSha256(host, c.bundle) == BundleSha256(host, HashedBundle(doc)) ==>
      c.bundle == HashedBundle(doc)
  }

  /** Every signed value, including the content and not only its digest, is the one in the document. */
  ghost predicate Carries(doc: ConfigDocument, c: SignedConfig) {
    doc.version == Some(c.version) &&
    doc.organization == Some(c.organization) && doc.environment == Some(c.environment) &&
    doc.issuedAt == Some(c.issuedAt) && doc.expiresAt == Some(c.expiresAt) &&
    HashedBundle(doc) == c.bundle
  }

  /** An accepted document carries, value for value, one configuration that was signed. */
  lemma AcceptedIsSigned(host: Host, publicKey: string, signed: set<SignedConfig>, doc: ConfigDocument)
    requires SignsOnly(host, publicKey, signed) && NoCollision(host, signed, doc)
    requires forall c :: c in signed ==> OneLineTexts(host, c)
    requires VerifyConfig(host, doc, publicKey)
    ensures exists c :: c in signed && Carries(doc, c)
  {
    var f := FieldsOf(doc);
    if IsHeartbeat(ConfigString(f)) {
      var g, v, t :| ConfigString(f) == HeartbeatString(g, v, t);
      ConfigIsNeverHeartbeat(f, g, v, t);
    }
    var c :| c in signed && ConfigString(f) == ConfigString(SignedFields(host, c));
    ConfigStringInjective(SignedFields(host, c), f);
    assert Carries(doc, c);
  }

  function DocumentOf(host: Host, c: SignedConfig, signature: string): ConfigDocument {
    ConfigDocument(Some(c.version), Some(c.organization), Some(c.environment), Some(c.issuedAt),
                   Some(c.expiresAt), Some(BundleSha256(host, c.bundle)), Some(signature), Some(c.bundle))
  }

  /**
   * The control plane's own document is accepted exactly when its signature verifies, provided
   * the fields are non-empty; a version of zero is never accepted.
   */
  lemma HonestDocumentAcceptedIff(host: Host, publicKey: string, c: SignedConfig, signature: string)
    requires c.organization != "" && c.environment != "" && c.issuedAt != "" && c.expiresAt != "" && signature != ""
    requires BundleSha256(host, c.bundle) != "" && c.bundle.Obj?
    ensures VerifyConfig(host, DocumentOf(host, c, signature), publicKey)
            <==> c.version != 0 && host.verifyEd25519(publicKey, ConfigString(SignedFields(host, c)), signature)
  {
    var doc := DocumentOf(host, c, signature);
    assert HashedBundle(doc) == c.bundle;
    if c.version != 0 {
      assert FieldsOf(doc) == SignedFields(host, c);
    }
  }
}
