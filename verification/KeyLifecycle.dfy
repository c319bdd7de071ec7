/** The software key provider and the life of its keys (`backend/app/core/crypto_keys.py`). */
module KeyLifecycle {
  import opened Wrappers

  datatype KeyPurpose =
    | AgentSigning | GatewaySigning | ControlPlaneSigning | CredentialIssuerSigning | WebhookSigning | ApprovalSigning

  datatype KeyStatus = Pending | Active | Rotating | Retired | Revoked | Compromised

  datatype KeyError = KeyNotFound | KeyCompromised | KeyRevoked | AlgorithmConfusion

  datatype Result<+T> = Ok(value: T) | Err(error: KeyError)

  const ED25519 := "Ed25519"

  /** The signature scheme; keys, messages and signatures are texts. */
  datatype Scheme = Scheme(
    publicOf: string -> string,
    encode: string -> string,
    sign: (string, string) -> string,
    verify: (string, string, string) -> bool)

  /** RFC 8032, sections 5.1.6 and 5.1.7: what a private key signs, its public key verifies. */
  ghost predicate Correct(scheme: Scheme) {
    forall key, data :: scheme.verify(scheme.publicOf(key), data, scheme.sign(key, data))
  }

  datatype KeyRecord = KeyRecord(
    purpose: KeyPurpose,
    status: KeyStatus,
    algorithm: string,
    publicKey: string,
    createdAt: real,
    rotatedAt: Option<real>,
    revokedAt: Option<real>,
    revocationReason: Option<string>)

  /** One entry of the two dictionaries together. */
  datatype Key = Key(privateKey: string, record: KeyRecord)

  type Ring = map<string, Key>

  function PurposeName(p: KeyPurpose): string {
    match p
    case AgentSigning => "agent_signing"
    case GatewaySigning => "gateway_signing"
    case ControlPlaneSigning => "control_plane_signing"
    case CredentialIssuerSigning => "credential_issuer_signing"
    case WebhookSigning => "webhook_signing"
    case ApprovalSigning => "approval_signing"
  }

  /** The suffix is the random part of the id. */
  function KeyId(purpose: KeyPurpose, suffix: string): string {
    "key-" + PurposeName(purpose) + "-" + suffix
  }

  // ---------- what the operations compute ----------

  function NewKey(scheme: Scheme, purpose: KeyPurpose, privateKey: string, now: real): Key {
    Key(privateKey, KeyRecord(purpose, Active, ED25519, scheme.encode(scheme.publicOf(privateKey)), now, None, None, None))
  }

  function MarkRotating(k: Key, now: real): Key {
    k.(record := k.record.(status := Rotating, rotatedAt := Some(now)))
  }

  function MarkRevoked(k: Key, reason: string, compromised: bool, now: real): Key {
    k.(record := k.record.(status := if compromised then Compromised else Revoked,
                           revokedAt := Some(now), revocationReason := Some(reason)))
  }

  /** The material a create or rotate draws: the random suffix and the generated key. */
  datatype Draw = Draw(suffix: string, privateKey: string)

  datatype Operation =
    | Create(purpose: KeyPurpose, algorithm: string, draw: Draw, now: real)
    | Rotate(keyId: string, draw: Draw, now: real)
    | Revoke(keyId: string, reason: string, compromised: bool, now: real)

  /** The ring after an operation, whether it returns or raises. */
  function After(scheme: Scheme, ring: Ring, op: Operation): Ring {
    match op
    case Create(purpose, algorithm, draw, now) =>
      if algorithm != ED25519 then ring
      else ring[KeyId(purpose, draw.suffix) := NewKey(scheme, purpose, draw.privateKey, now)]
    case Rotate(keyId, draw, now) =>
      if keyId !in ring then ring
      else
        var was := ring[keyId];
        var marked := ring[keyId := MarkRotating(was, now)];
        if was.record.algorithm != ED25519 then marked
        else marked[KeyId(was.record.purpose, draw.suffix) := NewKey(scheme, was.record.purpose, draw.privateKey, now)]
    case Revoke(keyId, reason, compromised, now) =>
      if keyId !in ring then ring else ring[keyId := MarkRevoked(ring[keyId], reason, compromised, now)]
  }

  function SignResult(scheme: Scheme, ring: Ring, data: string, keyId: string): Result<string> {
    if keyId !in ring then Err(KeyNotFound)
    else match ring[keyId].record.status
      case Compromised => Err(KeyCompromised)
      case Revoked | Retired => Err(KeyRevoked)
      case _ => Ok(scheme.sign(ring[keyId].privateKey, data))
  }

  function VerifyResult(scheme: Scheme, ring: Ring, data: string, signature: string, keyId: string): Result<bool> {
    if keyId !in ring then Err(KeyNotFound)
    else match ring[keyId].record.status
      case Compromised | Revoked => Ok(false)
      case _ => Ok(scheme.verify(scheme.publicOf(ring[keyId].privateKey), data, signature))
  }

  // ---------- the provider ----------

  class KeyMetadata {
    var keyId: string
    var purpose: KeyPurpose
    var status: KeyStatus
    var algorithm: string
    var publicKey: string
    var createdAt: real
    var rotatedAt: Option<real>
    var revokedAt: Option<real>
    var revocationReason: Option<string>

    function Record(): KeyRecord
      reads this
    {
      KeyRecord(purpose, status, algorithm, publicKey, createdAt, rotatedAt, revokedAt, revocationReason)
    }

    constructor (keyId: string, r: KeyRecord)
      ensures this.keyId == keyId && Record() == r
    {
      this.keyId := keyId;
      purpose, status, algorithm, publicKey := r.purpose, r.status, r.algorithm, r.publicKey;
      createdAt, rotatedAt, revokedAt, revocationReason := r.createdAt, r.rotatedAt, r.revokedAt, r.revocationReason;
    }
  }

  class LocalKeyProvider {
    var privateKeys: map<string, string>
    var metadata: map<string, KeyMetadata>

    /** The two dictionaries are in step, and no two ids share a metadata object. */
    ghost predicate Valid()
      reads this, metadata.Values
    {
      privateKeys.Keys == metadata.Keys && forall k :: k in metadata ==> metadata[k].keyId == k
    }

    ghost function Value(): Ring
      reads this, metadata.Values
      requires Valid()
    {
      map k | k in metadata :: Key(privateKeys[k], metadata[k].Record())
    }

    constructor ()
      ensures Valid() && Value() == map[]
      ensures fresh(metadata.Values)
    {
      privateKeys, metadata := map[], map[];
    }

    /** Both dictionaries under one id. */
    method Store(keyId: string, privateKey: string, meta: KeyMetadata)
      requires Valid() && meta.keyId == keyId
      modifies this
      ensures Valid() && metadata == old(metadata)[keyId := meta]
      ensures Value() == old(Value())[keyId := Key(privateKey, meta.Record())]
    {
      privateKeys := privateKeys[keyId := privateKey];
      metadata := metadata[keyId := meta];
    }

    /** The object returned is the one the provider keeps. */
    method CreateKey(scheme: Scheme, purpose: KeyPurpose, algorithm: string, draw: Draw, now: real)
      returns (r: Result<KeyMetadata>)
      requires Valid()
      modifies this
      ensures Valid() && fresh(metadata.Values - old(metadata.Values))
      ensures Value() == After(scheme, old(Value()), Create(purpose, algorithm, draw, now))
      ensures if algorithm != ED25519 then r == Err(AlgorithmConfusion)
              else r.Ok? && KeyId(purpose, draw.suffix) in metadata && r.value == metadata[KeyId(purpose, draw.suffix)]
    {
      if algorithm != ED25519 {
        return Err(AlgorithmConfusion);
      }
      var keyId := KeyId(purpose, draw.suffix);
      var pub := scheme.encode(scheme.publicOf(draw.privateKey));
      var meta := new KeyMetadata(keyId, KeyRecord(purpose, Active, algorithm, pub, now, None, None, None));
      Store(keyId, draw.privateKey, meta);
      return Ok(meta);
    }

    method Sign(scheme: Scheme, data: string, keyId: string) returns (r: Result<string>)
      requires Valid()
      ensures r == SignResult(scheme, Value(), data, keyId)
    {
      if keyId !in metadata {
        return Err(KeyNotFound);
      }
      var meta := metadata[keyId];
      if meta.status == Compromised {
        return Err(KeyCompromised);
      }
      if meta.status in {Revoked, Retired} {
        return Err(KeyRevoked);
      }
      return Ok(scheme.sign(privateKeys[keyId], data));
    }

    method Verify(scheme: Scheme, data: string, signature: string, keyId: string) returns (r: Result<bool>)
      requires Valid()
      ensures r == VerifyResult(scheme, Value(), data, signature, keyId)
    {
      if keyId !in metadata {
        return Err(KeyNotFound);
      }
      var meta := metadata[keyId];
      if meta.status == Compromised {
        return Ok(false);
      }
      if meta.status == Revoked {
        return Ok(false);
      }
      return Ok(scheme.verify(scheme.publicOf(privateKeys[keyId]), data, signature));
    }

    /** The old key is marked first and whatever its status; then a key of the same purpose is created. */
    method RotateKey(scheme: Scheme, keyId: string, draw: Draw, now: real) returns (r: Result<KeyMetadata>)
      requires Valid()
      modifies this, metadata.Values
      ensures Valid() && fresh(metadata.Values - old(metadata.Values))
      ensures Value() == After(scheme, old(Value()), Rotate(keyId, draw, now))
      ensures keyId !in old(Value()) ==> r == Err(KeyNotFound)
      ensures keyId in old(Value()) ==>
        var was := old(Value())[keyId].record;
        if was.algorithm != ED25519 then r == Err(AlgorithmConfusion)
        else r.Ok? && KeyId(was.purpose, draw.suffix) in metadata && r.value == metadata[KeyId(was.purpose, draw.suffix)]
    {
      if keyId !in metadata {
        return Err(KeyNotFound);
      }
      var meta := metadata[keyId];
      ghost var ring := Value();
      meta.status := Rotating;
      meta.rotatedAt := Some(now);
      assert Value() == ring[keyId := MarkRotating(ring[keyId], now)];
      r := CreateKey(scheme, meta.purpose, meta.algorithm, draw, now);
    }

    method RevokeKey(scheme: Scheme, keyId: string, reason: string, compromised: bool, now: real)
      returns (r: Result<()>)
      requires Valid()
      modifies metadata.Values
      ensures Valid() && metadata == old(metadata)
      ensures Value() == After(scheme, old(Value()), Revoke(keyId, reason, compromised, now))
      ensures r == if keyId in old(Value()) then Ok(()) else Err(KeyNotFound)
    {
      if keyId !in metadata {
        return Err(KeyNotFound);
      }
      var meta := metadata[keyId];
      meta.status := if compromised then Compromised else Revoked;
      meta.revokedAt := Some(now);
      meta.revocationReason := Some(reason);
      return Ok(());
    }

    /** A copy: changing it changes nothing here. */
    method Status(keyId: string) returns (r: Result<KeyMetadata>)
      requires Valid()
      ensures keyId !in Value() ==> r == Err(KeyNotFound)
      ensures keyId in Value() ==>
        r.Ok? && fresh(r.value) && r.value.keyId == keyId && r.value.Record() == Value()[keyId].record
    {
      if keyId !in metadata {
        return Err(KeyNotFound);
      }
      var copy := new KeyMetadata(metadata[keyId].keyId, metadata[keyId].Record());
      return Ok(copy);
    }
  }

  const PURPOSES := [AgentSigning, GatewaySigning, ControlPlaneSigning, CredentialIssuerSigning, WebhookSigning, ApprovalSigning]

  /** Ids of different purposes differ whatever their random parts. */
  lemma IdsOfPurposesDiffer(p: KeyPurpose, q: KeyPurpose, s: string, t: string)
    requires p != q
    ensures KeyId(p, s) != KeyId(q, t)
  {
    var a, b := KeyId(p, s), KeyId(q, t);
    assert a[4] == PurposeName(p)[0] && a[5] == PurposeName(p)[1];
    assert b[4] == PurposeName(q)[0] && b[5] == PurposeName(q)[1];
  }

  /** The ring that results from storing the first `n` of these keys under these ids, in order. */
  function Assembled(ids: seq<string>, keys: seq<Key>, n: nat): Ring
    requires n <= |ids| == |keys|
  {
    if n == 0 then map[] else Assembled(ids, keys, n - 1)[ids[n - 1] := keys[n - 1]]
  }

  ghost predicate Distinct(ids: seq<string>) {
    forall i, j :: 0 <= i < j < |ids| ==> ids[i] != ids[j]
  }

  lemma {:induction false} AssembledEntries(ids: seq<string>, keys: seq<Key>, n: nat)
    requires n <= |ids| == |keys| && Distinct(ids)
    ensures |Assembled(ids, keys, n)| == n
    ensures forall i :: 0 <= i < n ==> ids[i] in Assembled(ids, keys, n) && Assembled(ids, keys, n)[ids[i]] == keys[i]
    ensures forall i :: n <= i < |ids| ==> ids[i] !in Assembled(ids, keys, n)
  {
    if n > 0 {
      AssembledEntries(ids, keys, n - 1);
      assert Assembled(ids, keys, n).Keys == Assembled(ids, keys, n - 1).Keys + {ids[n - 1]};
    }
  }

  function SeedIds(draws: seq<Draw>): (ids: seq<string>)
    requires |draws| == |PURPOSES|
    ensures |ids| == |PURPOSES|
  {
    seq(|PURPOSES|, i requires 0 <= i < |PURPOSES| => KeyId(PURPOSES[i], draws[i].suffix))
  }

  function SeedKeys(scheme: Scheme, draws: seq<Draw>, now: real): (keys: seq<Key>)
    requires |draws| == |PURPOSES|
    ensures |keys| == |PURPOSES|
  {
    seq(|PURPOSES|, i requires 0 <= i < |PURPOSES| => NewKey(scheme, PURPOSES[i], draws[i].privateKey, now))
  }

  lemma PurposesDistinct(i: nat, j: nat)
    requires i < j < |PURPOSES|
    ensures PURPOSES[i] != PURPOSES[j]
  {
  }

  /** Seeding gives one active key for each of the six purposes, even if the random parts coincide. */
  lemma SeedHasOneKeyPerPurpose(scheme: Scheme, draws: seq<Draw>, now: real)
    requires |draws| == |PURPOSES|
    ensures var ring := Assembled(SeedIds(draws), SeedKeys(scheme, draws, now), |PURPOSES|);
      |ring| == 6 && forall i :: 0 <= i < |PURPOSES| ==>
        SeedIds(draws)[i] in ring && ring[SeedIds(draws)[i]] == NewKey(scheme, PURPOSES[i], draws[i].privateKey, now)
  {
    var ids := SeedIds(draws);
    forall i, j | 0 <= i < j < |ids| ensures ids[i] != ids[j] {
      PurposesDistinct(i, j);
      IdsOfPurposesDiffer(PURPOSES[i], PURPOSES[j], draws[i].suffix, draws[j].suffix);
    }
    AssembledEntries(ids, SeedKeys(scheme, draws, now), |PURPOSES|);
  }

  /** The provider a process starts with. */
  method SeedProvider(scheme: Scheme, draws: seq<Draw>, now: real) returns (provider: LocalKeyProvider)
    requires |draws| == |PURPOSES|
    ensures fresh(provider) && provider.Valid()
    ensures provider.Value() == Assembled(SeedIds(draws), SeedKeys(scheme, draws, now), |PURPOSES|)
  {
    ghost var ids, keys := SeedIds(draws), SeedKeys(scheme, draws, now);
    provider := new LocalKeyProvider();
    for k := 0 to |PURPOSES|
      invariant fresh(provider) && provider.Valid() && fresh(provider.metadata.Values)
      invariant provider.Value() == Assembled(ids, keys, k)
    {
      var r := provider.CreateKey(scheme, PURPOSES[k], ED25519, draws[k], now);
    }
  }
}
