/** Keys over whole histories of create, rotate and revoke (`backend/app/core/crypto_keys.py`). */
module KeyHistory {
  import opened Wrappers
  import opened KeyLifecycle

  function RingAfter(scheme: Scheme, ring: Ring, ops: seq<Operation>): Ring
    decreases |ops|
  {
    if ops == [] then ring else RingAfter(scheme, After(scheme, ring, ops[0]), ops[1..])
  }

  // ---------- what every operation keeps ----------

  /** The stored public key belongs to the private key, and only four statuses ever occur. */
  ghost predicate GoodKey(scheme: Scheme, k: Key) {
    k.record.publicKey == scheme.encode(scheme.publicOf(k.privateKey)) && k.record.algorithm == ED25519 &&
    k.record.status in {Active, Rotating, Revoked, Compromised}
  }

  ghost predicate GoodRing(scheme: Scheme, ring: Ring) {
    forall id :: id in ring ==> GoodKey(scheme, ring[id])
  }

  lemma {:induction false} RingStaysGood(scheme: Scheme, ring: Ring, ops: seq<Operation>)
    requires GoodRing(scheme, ring)
    ensures GoodRing(scheme, RingAfter(scheme, ring, ops))
    decreases |ops|
  {
    if ops != [] {
      RingStaysGood(scheme, After(scheme, ring, ops[0]), ops[1..]);
    }
  }

  /** The id an operation is about to add to the ring, if it adds one. */
  function NewIdOf(ring: Ring, op: Operation): Option<string> {
    match op
    case Create(purpose, algorithm, draw, _) => if algorithm != ED25519 then None else Some(KeyId(purpose, draw.suffix))
    case Rotate(keyId, draw, _) =>
      if keyId !in ring || ring[keyId].record.algorithm != ED25519 then None
      else Some(KeyId(ring[keyId].record.purpose, draw.suffix))
    case Revoke(_, _, _, _) => None
  }

  /** Random parts are drawn fresh: no operation produces an id that is in use. */
  ghost predicate FreshIds(scheme: Scheme, ring: Ring, ops: seq<Operation>)
    decreases |ops|
  {
    ops == [] ||
    ((NewIdOf(ring, ops[0]).Some? ==> NewIdOf(ring, ops[0]).value !in ring) &&
     FreshIds(scheme, After(scheme, ring, ops[0]), ops[1..]))
  }

  /** What can never change about a key. */
  ghost predicate SameKey(a: Key, b: Key) {
    a.privateKey == b.privateKey && a.record.purpose == b.record.purpose && a.record.algorithm == b.record.algorithm &&
    a.record.publicKey == b.record.publicKey && a.record.createdAt == b.record.createdAt
  }

  /** No id is lost, and a key keeps its purpose, algorithm and key pair for ever. */
  lemma {:induction false} KeysPersist(scheme: Scheme, ring: Ring, ops: seq<Operation>, id: string)
    requires FreshIds(scheme, ring, ops) && id in ring
    ensures id in RingAfter(scheme, ring, ops) && SameKey(ring[id], RingAfter(scheme, ring, ops)[id])
    decreases |ops|
  {
    if ops != [] {
      KeysPersist(scheme, After(scheme, ring, ops[0]), ops[1..], id);
    }
  }

  /** On a good ring a rotation never meets a wrong algorithm: it always leaves a new active key of the same purpose. */
  lemma RotationAlwaysRenews(scheme: Scheme, ring: Ring, keyId: string, draw: Draw, now: real)
    requires GoodRing(scheme, ring) && keyId in ring
    requires KeyId(ring[keyId].record.purpose, draw.suffix) !in ring
    ensures var ring', newId := After(scheme, ring, Rotate(keyId, draw, now)), KeyId(ring[keyId].record.purpose, draw.suffix);
      ring'.Keys == ring.Keys + {newId} && ring'[keyId].record.status == Rotating &&
      ring'[newId].record.status == Active && ring'[newId].record.purpose == ring[keyId].record.purpose &&
      forall id :: id in ring && id != keyId ==> ring'[id] == ring[id]
  {
  }

  // ---------- revocation ----------

  predicate Refused(k: Key) {
    k.record.status == Revoked || k.record.status == Compromised
  }

  /** Whether an operation revokes or rotates the key, or has no say about it. */
  function WordOn(op: Operation, id: string): Option<bool> {
    match op
    case Revoke(keyId, _, _, _) => if keyId == id then Some(true) else None
    case Rotate(keyId, _, _) => if keyId == id then Some(false) else None
    case Create(_, _, _, _) => None
  }

  /** The last word: was the key revoked more recently than it was rotated? */
  function LastWord(ops: seq<Operation>, id: string, otherwise: bool): bool {
    if ops == [] then otherwise
    else
      match WordOn(ops[0], id)
      case Some(revoked) => LastWord(ops[1..], id, revoked)
      case None => LastWord(ops[1..], id, otherwise)
  }

  /**
   * A key is refused iff the last revocation or rotation that names it is a revocation. So
   * revocation holds up to the next rotation of that key, and no longer.
   */
  lemma {:induction false} RefusedIffLastRevoked(scheme: Scheme, ring: Ring, ops: seq<Operation>, id: string)
    requires FreshIds(scheme, ring, ops) && id in ring
    ensures id in RingAfter(scheme, ring, ops)
    ensures Refused(RingAfter(scheme, ring, ops)[id]) <==> LastWord(ops, id, Refused(ring[id]))
    decreases |ops|
  {
    if ops != [] {
      RefusedIffLastRevoked(scheme, After(scheme, ring, ops[0]), ops[1..], id);
    }
  }

  ghost predicate NeverRotates(ops: seq<Operation>, id: string) {
    forall i :: 0 <= i < |ops| ==> !(ops[i].Rotate? && ops[i].keyId == id)
  }

  lemma {:induction false} RefusedStaysLastWord(ops: seq<Operation>, id: string)
    requires NeverRotates(ops, id)
    ensures LastWord(ops, id, true)
  {
    if ops != [] {
      assert ops[0] == ops[0];
      assert forall i :: 0 <= i < |ops[1..]| ==> ops[1..][i] == ops[i + 1];
      RefusedStaysLastWord(ops[1..], id);
    }
  }

  /** From its revocation until it is rotated, a key signs nothing and verifies nothing. */
  lemma RevokedKeyIsDead(scheme: Scheme, ring: Ring, reason: string, compromised: bool, now: real,
                         ops: seq<Operation>, id: string, data: string, signature: string)
    requires id in ring && NeverRotates(ops, id)
    requires FreshIds(scheme, After(scheme, ring, Revoke(id, reason, compromised, now)), ops)
    ensures var later := RingAfter(scheme, After(scheme, ring, Revoke(id, reason, compromised, now)), ops);
      SignResult(scheme, later, data, id) in {Err(KeyCompromised), Err(KeyRevoked)} &&
      VerifyResult(scheme, later, data, signature, id) == Ok(false)
  {
    var revoked := After(scheme, ring, Revoke(id, reason, compromised, now));
    RefusedIffLastRevoked(scheme, revoked, ops, id);
    RefusedStaysLastWord(ops, id);
  }

  /** The documented life cycle ends in REVOKED; the code does not: rotating a revoked key lets it sign and verify again. */
  lemma RotationRevivesRevoked(scheme: Scheme, ring: Ring, id: string, draw: Draw, now: real, data: string)
    requires Correct(scheme) && GoodRing(scheme, ring) && id in ring && Refused(ring[id])
    requires KeyId(ring[id].record.purpose, draw.suffix) !in ring
    ensures SignResult(scheme, ring, data, id).Err?
    ensures var revived := After(scheme, ring, Rotate(id, draw, now));
      SignResult(scheme, revived, data, id).Ok? &&
      VerifyResult(scheme, revived, data, SignResult(scheme, revived, data, id).value, id) == Ok(true)
  {
  }

  // ---------- signatures over time ----------

  /** A signature once produced verifies later iff the key is then neither revoked nor compromised. */
  lemma SignatureVerifiesIffNotRefused(scheme: Scheme, ring: Ring, ops: seq<Operation>, id: string, data: string)
    requires Correct(scheme) && FreshIds(scheme, ring, ops)
    requires SignResult(scheme, ring, data, id).Ok?
    ensures var later := RingAfter(scheme, ring, ops);
      id in later &&
      VerifyResult(scheme, later, data, SignResult(scheme, ring, data, id).value, id) == Ok(!Refused(later[id]))
  {
    KeysPersist(scheme, ring, ops, id);
  }

  // ---------- what a revocation and a rotation leave on the record ----------

  ghost predicate NeverNames(ops: seq<Operation>, id: string) {
    forall i :: 0 <= i < |ops| ==> WordOn(ops[i], id) == None
  }

  /** Only operations that name a key change it. */
  lemma {:induction false} UnnamedKeyStays(scheme: Scheme, ring: Ring, ops: seq<Operation>, id: string)
    requires FreshIds(scheme, ring, ops) && id in ring && NeverNames(ops, id)
    ensures id in RingAfter(scheme, ring, ops) && RingAfter(scheme, ring, ops)[id] == ring[id]
    decreases |ops|
  {
    if ops != [] {
      assert WordOn(ops[0], id) == None;
      assert forall i :: 0 <= i < |ops[1..]| ==> ops[1..][i] == ops[i + 1];
      assert After(scheme, ring, ops[0])[id] == ring[id];
      UnnamedKeyStays(scheme, After(scheme, ring, ops[0]), ops[1..], id);
    }
  }

  /**
   * A revocation decides how signing is refused until the key is next named: as compromised if it
   * was said to be so, as revoked otherwise. Its time and reason stay on the record.
   */
  lemma RevocationSticks(scheme: Scheme, ring: Ring, id: string, reason: string, compromised: bool, now: real,
                         ops: seq<Operation>, data: string)
    requires id in ring && NeverNames(ops, id)
    requires FreshIds(scheme, After(scheme, ring, Revoke(id, reason, compromised, now)), ops)
    ensures var later := RingAfter(scheme, After(scheme, ring, Revoke(id, reason, compromised, now)), ops);
      SignResult(scheme, later, data, id) == Err(if compromised then KeyCompromised else KeyRevoked) &&
      id in later && later[id].privateKey == ring[id].privateKey &&
      later[id].record.status == (if compromised then Compromised else Revoked) &&
      later[id].record.revokedAt == Some(now) && later[id].record.revocationReason == Some(reason) &&
      later[id].record.rotatedAt == ring[id].record.rotatedAt && later[id].record.createdAt == ring[id].record.createdAt
  {
    UnnamedKeyStays(scheme, After(scheme, ring, Revoke(id, reason, compromised, now)), ops, id);
  }

  /** A rotation leaves its time on the old key, which goes on signing until it is next named, and its revocation as it was. */
  lemma RotationSticks(scheme: Scheme, ring: Ring, id: string, draw: Draw, now: real, ops: seq<Operation>, data: string)
    requires id in ring && NeverNames(ops, id) && KeyId(ring[id].record.purpose, draw.suffix) !in ring
    requires FreshIds(scheme, After(scheme, ring, Rotate(id, draw, now)), ops)
    ensures var later := RingAfter(scheme, After(scheme, ring, Rotate(id, draw, now)), ops);
      SignResult(scheme, later, data, id) == Ok(scheme.sign(ring[id].privateKey, data)) &&
      id in later && later[id].record.status == Rotating && later[id].record.rotatedAt == Some(now) &&
      later[id].record.revokedAt == ring[id].record.revokedAt &&
      later[id].record.revocationReason == ring[id].record.revocationReason
  {
    UnnamedKeyStays(scheme, After(scheme, ring, Rotate(id, draw, now)), ops, id);
  }

  /** A key that a creation or a rotation adds: active, of the purpose asked for, its own pair, created now. */
  ghost predicate IsNew(scheme: Scheme, k: Key, purpose: KeyPurpose, privateKey: string, now: real) {
    k.privateKey == privateKey && k.record.purpose == purpose && k.record.status == Active && k.record.algorithm == "Ed25519" &&
    k.record.publicKey == scheme.encode(scheme.publicOf(privateKey)) && k.record.createdAt == now &&
    k.record.rotatedAt == None && k.record.revokedAt == None && k.record.revocationReason == None
  }

  /** A created key is new, signs at once, and stays as it is until it is named; another algorithm creates nothing. */
  lemma CreationSticks(scheme: Scheme, ring: Ring, purpose: KeyPurpose, algorithm: string, draw: Draw, now: real,
                       ops: seq<Operation>, data: string)
    requires NeverNames(ops, KeyId(purpose, draw.suffix))
    requires FreshIds(scheme, After(scheme, ring, Create(purpose, algorithm, draw, now)), ops)
    ensures algorithm != "Ed25519" ==> After(scheme, ring, Create(purpose, algorithm, draw, now)) == ring
    ensures algorithm == "Ed25519" ==>
      var id, later := KeyId(purpose, draw.suffix), RingAfter(scheme, After(scheme, ring, Create(purpose, algorithm, draw, now)), ops);
      id in later && IsNew(scheme, later[id], purpose, draw.privateKey, now) &&
      SignResult(scheme, later, data, id) == Ok(scheme.sign(draw.privateKey, data))
  {
    if algorithm == "Ed25519" {
      UnnamedKeyStays(scheme, After(scheme, ring, Create(purpose, algorithm, draw, now)), ops, KeyId(purpose, draw.suffix));
    }
  }

  /** Which keys sign and which verify: a retired key verifies what it signed and signs no more. */
  lemma WhoSignsWhoVerifies(scheme: Scheme, ring: Ring, data: string, signature: string, id: string)
    ensures SignResult(scheme, ring, data, id).Ok? <==> id in ring && ring[id].record.status in {Pending, Active, Rotating}
    ensures SignResult(scheme, ring, data, id) == Err(KeyCompromised) <==> id in ring && ring[id].record.status == Compromised
    ensures SignResult(scheme, ring, data, id) == Err(KeyRevoked) <==> id in ring && ring[id].record.status in {Revoked, Retired}
    ensures SignResult(scheme, ring, data, id) == Err(KeyNotFound) <==> id !in ring
    ensures VerifyResult(scheme, ring, data, signature, id) == Ok(true) <==>
      id in ring && ring[id].record.status !in {Revoked, Compromised} &&
      scheme.verify(scheme.publicOf(ring[id].privateKey), data, signature)
    ensures VerifyResult(scheme, ring, data, signature, id).Err? <==> id !in ring
  {
  }
}
