# AgentTrust data plane and key services, modelled in Dafny

The project models the sidecar of AgentTrust, the process beside an agent that authorizes its
requests locally, as one state machine that can lose power at any point, and proves what it keeps
over whole runs. Four companions cover the destination check, the key provider, the secret cache,
and two families of account and organization handlers.

* `Evaluator.dfy`, `AplRules.dfy`, `WildcardPatterns.dfy`, `TrustConfiguration.dfy`: one
  authorization call, from the configuration dictionary to the counters.
* `EvaluatorProperties.dfy`: when a call is approved, offline against online, stricter configurations.
* `RuleMeaning.dfy`, `ConfiguredOutcomes.dfy`: the outcome of a call over the JSON of its
  configuration, without reading step, rule functions or stages, and that the evaluator computes it.
* `ConfigSigning.dfy`: the signing strings and the verification of configuration documents.
* `DocumentMeaning.dfy`: what a document amounts to over its own fields, by sync and by start.
* `SidecarRuntime.dfy`, `Storage.dfy`, `Synchronization.dfy`: the shared state, the cache files, and
  the sync and heartbeat loops; `FailoverProperties.dfy` says what those loops amount to.
* `DataPlane.dfy`: the state machine. `DurableConfiguration.dfy`, `SignedRuns.dfy` and
  `RequestHistory.dfy` hold the theorems about its runs; `ExampleRuns.dfy` gives a deployment that
  meets all their assumptions, and two of its runs.
* `DestinationSafety.dfy`, `KeyLifecycle.dfy` with `KeyHistory.dfy`, `SecretManagement.dfy`,
  `EnterpriseSecurity.dfy`, `AccountSecurity.dfy`: the companions.

Classes carry the fields the Python objects have, and each method is proved equal to a function
of the old state; the theorems are about those functions. Hashing, Ed25519, JSON text, ISO times,
`str`, `float` and `int` are function parameters, so the results hold for all of them. What is
assumed of them, where anything is, are these predicates: `StorageFaithful` (a document that was
read from some text survives being written and read back, and the empty text is no time),
`NoCollision` (a document shares its content digest with no signed content but an equal one),
`SignsOnly` (an unforgeable key), `Correct` (what a key signs it verifies) and `ReadsDecimals` (the
destination check's `int` reads printed numbers). The first two speak only of documents that were
read from some text; `ExampleRuns.dfy` meets all those of the run theorems together, and
`DecimalsCanBeRead` the last. Clocks, network replies, random draws, write failures and power
losses are inputs of each step.

A call that ends in an exception is an outcome of its own (`NonceNotAscii`, `RuleError`), not a
precondition. The control-plane key is a setting of the deployment; nothing under `sidecar/`
assigns it, so with the code as it stands `IsSet(publicKey)` is false and signatures are not checked.

Where the code and its documents differ, the model follows the code:

* A rollback is refused only once the running version is positive (`sidecar/sync.py:64`);
  `docs/enterprise/OFFLINE_SECURITY.md` states the gate without that condition. The version lives
  in memory, so two events reopen the gate: a start that cannot read the cache
  (`RollbackAfterStartIff`), and any start after a configuration was activated whose cache write
  failed (`sidecar/sync.py:79-80`). In the second case the older cached configuration returns, and
  with it an agent that the lost one had revoked (`RevocationLost`); `NeverRollsBackIffCached` says
  exactly when this cannot happen.
* The startup load does not look at the expiry, although its docstring says so
  (`sidecar/storage.py:35`); the evaluator does (`ExpiredCacheLoadsAndRefuses`).
* LIMITED_OFFLINE limits amount and action suffix only; the risk score and per-agent listing of
  `docs/enterprise/OFFLINE_SECURITY.md` are not in the code.
* 224.0.0.0/4 is not refused (`MulticastPasses`).
* A key in ROTATING still signs, and a rotation revives a revoked key (`RotationRevivesRevoked`);
  `docs/security/KEY_MANAGEMENT.md` has ROTATING verify only and REVOKED as an end state.
* One entry in `apl_policies` hides the APL policies embedded in `policies` (`AddingAplIsMonotoneIff`).

## Model

| member | source | states |
|---|---|---|
| `AplRules.MatchRule` | sidecar/evaluator.py:176-207 | The condition loop with its break computes the conjunction of the rule's conditions, including where a comparison raises |
| `AplRules.RunRules` | sidecar/evaluator.py:172-224 | The policy and rule loops return the verdict of the first rule, in the flattened rule sequence, that does not pass |
| `AplRules.ConjunctionHoldsIff` | sidecar/evaluator.py:178-207 | A rule matches iff every one of its conditions holds |
| `AplRules.FirstVerdictIsFirst` | sidecar/evaluator.py:172-224 | The stage falls through iff every rule passes; otherwise one rule is the first decisive one and its verdict stands |
| `AplRules.PassingRulesAreInert` | sidecar/evaluator.py:208-224 | Inserting rules that pass, that is rules that do not match and matching rules of another effect such as ALLOW, at any place changes no verdict |
| `AplRules.FallThroughIgnoresOrder` | sidecar/evaluator.py:172-224 | Whether the rule stage falls through is invariant under every permutation of the rules |
| `AplRules.SecondLookRedundant` | sidecar/evaluator.py:184-186 | The second look into `input` never finds what the flat context lacked |
| `WildcardPatterns.StarTestRedundant` | sidecar/evaluator.py:240-241 | The separate test for `"*"` in the pattern list decides nothing |
| `WildcardPatterns.PrefixMatchIsGlobIff` | sidecar/evaluator.py:240-241 | Star-deleting prefix match equals glob matching on every text iff the pattern has stars and all of them at the end |
| `SidecarRuntime.SidecarState.constructor` | sidecar/state.py:11-43 | Version 0, no expiry, empty nonce table, zero counters, reachable |
| `SidecarRuntime.SidecarState.UpdateConfig` | sidecar/state.py:45-56 | Version, bundle and expiry change together and nothing else but the sync time does |
| `SidecarRuntime.SidecarState.IsConfigExpired` | sidecar/state.py:58-62 | Expired iff there is no expiry or the clock is strictly past it |
| `SidecarRuntime.SidecarState.RecordRequest` | sidecar/state.py:64-74 | One request moves the total, the offline counter and at most one decision counter |
| `SidecarRuntime.OneRequestRecorded` | sidecar/state.py:64-74 | Which of the counters each result moves, and that no other moves |
| `Evaluator.EvaluateLocalRequest` | sidecar/evaluator.py:30-263 | Outcome and new state of a call: the decided code, the nonce table and the counters; everything else unchanged |
| `Evaluator.CheckNonce` | sidecar/evaluator.py:47-60 | Evicts what has run out, refuses a live nonce, otherwise remembers it for 300 seconds |
| `Evaluator.CheckOfflineSafety` | sidecar/evaluator.py:71-102 | The offline stage ends a call with the code of the configured policy, and records it |
| `Evaluator.CheckTrustAndRisk` | sidecar/evaluator.py:104-158 | Requirements, revocations and risk end a call with their first finding, and record it |
| `Evaluator.CheckPolicies` | sidecar/evaluator.py:160-263 | The rule verdict, else the standard policies, decide the call, and record it |
| `Evaluator.FindMissingRequirement` | sidecar/evaluator.py:106-116 | True iff some required type is presented by no credential |
| `Evaluator.FindRevokedCredential` | sidecar/evaluator.py:118-129 | True iff some presented credential id is revoked |
| `Evaluator.FindAllowingPolicy` | sidecar/evaluator.py:236-245 | True iff one policy matches both action and resource |
| `Evaluator.ChosenIffFirst` | sidecar/evaluator.py:47-263 | The cascade returns the one code whose own condition holds although that of no earlier code does |
| `EvaluatorProperties.ApprovedIff` | sidecar/evaluator.py:47-263 | A call is LOCAL_APPROVED iff eight conditions hold that mention no stage order |
| `EvaluatorProperties.OfflineNeverMorePermissive` | sidecar/evaluator.py:71-102 | Under LIMITED_OFFLINE the same calls are approved offline and online; under any other policy none offline; the stage-5 results are unreachable offline |
| `EvaluatorProperties.OfflineOutcome` | sidecar/evaluator.py:71-102 | The offline outcome in terms of the online one, code by code |
| `EvaluatorProperties.StricterNeverApprovesMore` | sidecar/evaluator.py:104-234 | Adding requirements, revocations or effective rules never turns a refused call into an approved one |
| `EvaluatorProperties.AddingAplIsMonotoneIff` | sidecar/evaluator.py:162 | Adding entries to `apl_policies` keeps every refusal of a call unless embedded APL rules, with that list empty, are all that stops it; exactly then it fails |
| `EvaluatorProperties.HiddenDenyExample` | sidecar/evaluator.py:162 | A concrete call denied by an embedded rule that an `apl_policies` entry would hide |
| `ConfiguredOutcomes.OutcomeIffFirstSaid` | sidecar/evaluator.py:47-263 | The outcome of every call from the JSON of its configuration: the first of seventeen codes, in source order, whose own condition on the JSON, the request and the state holds |
| `ConfiguredOutcomes.DecisionsOfCodes` | sidecar/evaluator.py:47-263 | Which codes approve, escalate, reject or end in an exception |
| `ConfiguredOutcomes.RequirementsAreRead` | sidecar/evaluator.py:106-116 | A requirement counts as text and as an object with a type; a call misses one iff no credential has that type |
| `ConfiguredOutcomes.RevocationsAreRead` | sidecar/evaluator.py:118-139 | A credential or an agent is revoked iff an entry of that type holds its id |
| `ConfiguredOutcomes.StandardPoliciesAreRead` | sidecar/evaluator.py:226-245 | Permitted iff no standard policy exists, or one has both an allowed action and an allowed resource that begin what is asked for |
| `ConfiguredOutcomes.RulesInForceAreRead` | sidecar/evaluator.py:162-174 | The rules that run are those of the listed APL policies in order, or with none listed those of the embedded ones |
| `ConfiguredOutcomes.FirstRuleMeaning` | sidecar/evaluator.py:172-224 | The stage ends as the first rule that ends it says, by that rule's JSON |
| `RuleMeaning.VerdictMeaning` | sidecar/evaluator.py:175-224 | A rule denies, or asks for approval, iff all its conditions hold and its upper-cased effect says so; it raises iff a condition raises after ones that all hold |
| `RuleMeaning.ConditionMeaning` | sidecar/evaluator.py:180-207 | For each of the eight operators, the fields a rule may name and any operands: when the condition holds and when it raises |
| `RuleMeaning.EqualIffSame` | sidecar/evaluator.py:189-200 | Equality of any two JSON values is equality part by part, numbers and booleans by value |
| `ConfigSigning.UniquelyDecodableIff` | sidecar/crypto.py:138-147 | A seven-line configuration string determines its six values, version included, iff its text fields hold no newline |
| `ConfigSigning.ConfigStringInjective` | sidecar/crypto.py:138-147 | Newline-free signed fields suffice: the received document may hold newlines anywhere and still cannot collide |
| `ConfigSigning.ConfigIsNeverHeartbeat` | sidecar/crypto.py:97-102 | No configuration string equals a heartbeat string, whatever the fields contain |
| `ConfigSigning.AcceptedIsSigned` | sidecar/crypto.py:111-156 | With an unforgeable key, one-line signed fields and no digest collision, an accepted document carries version, organization, environment, times and content of one signed configuration |
| `DocumentMeaning.AcceptedIffVouched` | sidecar/crypto.py:111-156 | A document is accepted iff no key is set, or nothing is missing, the digest is that of its content and the signature is one on the seven lines written out |
| `Storage.CacheDirectory.SaveConfigCache` | sidecar/storage.py:16-29 | The cache file changes only at the replace, for every failure and every point of power loss |
| `Storage.WriteIsAtomic` | sidecar/storage.py:16-29 | For every failure and power-loss point the cache file is the whole new text from the replacement on and the whole old one until then |
| `Storage.CacheDirectory.LoadConfigCache` | sidecar/storage.py:32-66 | Loads iff readable, decodable, signature accepted and expiry parses; then version, bundle and expiry are those of the file |
| `Synchronization.SyncConfiguration` | sidecar/sync.py:28-94 | The endpoint loop leaves the state, the files and the result of the endpoint-by-endpoint specification |
| `Synchronization.ApplyDocument` | sidecar/sync.py:51-82 | Signature, then rollback guard, then expiry, then activation and persistence |
| `Synchronization.SendHeartbeat` | sidecar/sync.py:97-144 | The heartbeat loop, with the sync it may nest |
| `FailoverProperties.FirstDecisiveEndpoint` | sidecar/sync.py:40-94 | Result and reachability are those of the first endpoint that is not a failure, judged in the state handed on by failed cache writes; unreachable iff all fail |
| `FailoverProperties.FirstAcknowledgement` | sidecar/sync.py:128-144 | A heartbeat is decided by the first endpoint that acknowledges; only its nested sync can touch configuration or cache |
| `FailoverProperties.SavedIsLoadable` | sidecar/storage.py:46-63 | Every document a sync can persist, if it survives being written and read back, is one the startup load accepts, with the same version, bundle and expiry |
| `FailoverProperties.SyncProgress` | sidecar/sync.py:63-82 | A sync that activates from a positive version strictly raises it, never falls behind the cache, and saves only what is then in force |
| `DocumentMeaning.SyncPutsInForce` | sidecar/sync.py:61-82 | A newer accepted document puts its version or 0, its bundle or {}, and the instant its expiry names in force, however the cache write goes; one whose expiry names none changes nothing |
| `DocumentMeaning.StartPutsInForce` | sidecar/storage.py:43-66 | The same for a start that reads the document from the cache |
| `DocumentMeaning.ZuluIsUtc` | sidecar/sync.py:70-75 | An expiry written with Z comes into force exactly as the same one written with +00:00, by sync and by start |
| `DocumentMeaning.SecondaryIsAsked` | sidecar/sync.py:33-37 | A configured secondary comes after the primary and takes the turn of a primary that does not answer |
| `DocumentMeaning.UnregisteredDoesNothing` | sidecar/sync.py:30-31 | Without a gateway id neither a sync nor a heartbeat changes anything |
| `DataPlane.StartUp` | sidecar/main.py:53-63 | Startup: fresh state, cached configuration if it loads, configured gateway |
| `DocumentMeaning.StartsAfresh` | sidecar/state.py:11-43 | A process starts online, with no nonces, zero counters and the configured key and gateway; with nothing to read, with version 0 and no expiry |
| `DataPlane.EveryEventListRuns` | sidecar/main.py:41-65 | Every disk content and every sequence of events is a run the theorems speak about |
| `DurableConfiguration.SavedVersionsIncrease` | sidecar/sync.py:63-80 | Durable anti-rollback: saved versions strictly increase once positive, over every run with starts, failed writes and power losses |
| `DurableConfiguration.StartRestoresLastSaved` | sidecar/storage.py:32-66 | A start restores exactly the version, bundle and expiry saved last |
| `DurableConfiguration.RunningConfigurationNeverRollsBack` | sidecar/sync.py:63-79 | Within one process life the configuration in force is the same or a newer one a sync activated, even when cache writes fail |
| `DurableConfiguration.NeverRollsBackIffCached` | sidecar/sync.py:63-80 | Every continuation of a run, with any starts and power losses, keeps the configuration in force or something newer iff the cache holds it |
| `ExampleRuns.RevocationLost` | sidecar/sync.py:79-80 | A run in which the property fails: the cache write of a revoking configuration raises, and after a restart the revoked agent is approved |
| `ExampleRuns.HypothesesMeet` | sidecar/main.py:41-65 | One deployment and one run meet the hypotheses of the theorems about runs all at once: faithful storage, a trusted key, two saved versions, a cached revocation, an approval |
| `DurableConfiguration.RollbackAfterStartIff` | sidecar/sync.py:64 | After a start, a document no newer than the cache is activated iff that start could not read the cache |
| `DurableConfiguration.RevocationHolds` | sidecar/evaluator.py:131-139 | Once the configuration in force revokes an agent, then within that process life, or over any restarts and power losses if that configuration reached the cache, the agent is approved only under a bundle that omits the revocation and that a sync has since activated with a higher version |
| `DurableConfiguration.NothingApprovedUntilInstall` | sidecar/evaluator.py:62-69 | Before the first installation, and after expiry until the next, no call is approved |
| `DurableConfiguration.ExpiredCacheLoadsAndRefuses` | sidecar/storage.py:46-64 | A start puts an already expired cached configuration in force; every later call with an ASCII nonce is then answered with the expiry refusal |
| `SignedRuns.OnlySignedInForce` | sidecar/sync.py:55-59 | With a key set, what is in force in any state of any run, from any disk content, is a signed configuration |
| `SignedRuns.ApprovalRestsOnSignedConfiguration` | sidecar/evaluator.py:47-263 | End to end: behind every approved call stands an unexpired signed configuration that revokes neither agent nor credential, whose requirements are met and whose policies permit the request |
| `RequestHistory.ReplayIffRecentlyAdmitted` | sidecar/evaluator.py:47-60 | From the last start on, a call is refused as a replay iff a call admitted since then used the same nonce hash strictly less than 300 seconds before, by a reference that knows no table |
| `RequestHistory.StartForgetsNonces` | sidecar/state.py:34-35 | The first use of a nonce after a start is admitted, whatever was admitted before the start |
| `RequestHistory.AdmittedUsesAreApart` | sidecar/evaluator.py:47-60 | Two admitted uses of a nonce are at least 300 seconds apart |
| `RequestHistory.MetricsConserved` | sidecar/state.py:64-74 | Over any stretch of a process life the counters move by exactly the calls that returned such a decision; the rest were escalated |
| `DestinationSafety.IpToIntBijective` | sidecar/router.py:34-36 | On canonical dotted quads the parser is one-to-one and onto 0 to 2^32 - 1 |
| `DestinationSafety.IpToIntIff` | sidecar/router.py:34-36 | For any text: every part between dots must be a number, at least four must be there, and the first four make the value |
| `DestinationSafety.MaskTestIsInterval` | sidecar/router.py:45 | The mask test holds iff the address lies in the interval of the CIDR block, for every width and prefix length |
| `DestinationSafety.SafeIffOutsideBlocks` | sidecar/router.py:39-61 | For any text: safe iff it parses and its low 32 bits lie outside the refused blocks |
| `DestinationSafety.SafeQuadIff` | sidecar/router.py:27-61 | The same in octets: 127/8, 0/8, 169.254/16 and, unless allowed, the three private blocks |
| `DestinationSafety.MulticastPasses` | sidecar/router.py:27-31 | Every multicast address is accepted, against the threat model document |
| `DestinationSafety.AcceptedDestinationReachesNoBlock` | sidecar/router.py:64-86 | An accepted destination resolves to no refused address |
| `DestinationSafety.AcceptedIff` | sidecar/router.py:64-86 | Exactly which destinations are accepted: scheme, host name, and where every resolved address lies |
| `KeyLifecycle.LocalKeyProvider.CreateKey` | backend/app/core/crypto_keys.py:143-165 | Adds an active key under its id in both dictionaries, or raises and changes nothing |
| `KeyLifecycle.LocalKeyProvider.Sign` | backend/app/core/crypto_keys.py:167-177 | Signs unless missing, compromised, revoked or retired |
| `KeyLifecycle.LocalKeyProvider.Verify` | backend/app/core/crypto_keys.py:179-196 | False for a compromised or revoked key, otherwise the scheme's answer |
| `KeyLifecycle.LocalKeyProvider.RotateKey` | backend/app/core/crypto_keys.py:202-212 | Marks the old key ROTATING whatever its status and creates a new one of its purpose |
| `KeyLifecycle.LocalKeyProvider.RevokeKey` | backend/app/core/crypto_keys.py:214-222 | Marks one key revoked or compromised and leaves every other as it was |
| `KeyLifecycle.LocalKeyProvider.Status` | backend/app/core/crypto_keys.py:224-240 | Returns a fresh copy of the metadata |
| `KeyLifecycle.SeedProvider` | backend/app/core/crypto_keys.py:266-275 | Seeding leaves the ring assembled from the six purposes |
| `KeyLifecycle.SeedHasOneKeyPerPurpose` | backend/app/core/crypto_keys.py:272-273 | Six keys, one active key for each purpose, even if the random parts of the ids coincide |
| `KeyHistory.RingStaysGood` | backend/app/core/crypto_keys.py:143-222 | In every history the stored public key belongs to the private key, and only four of the six statuses occur |
| `KeyHistory.KeysPersist` | backend/app/core/crypto_keys.py:143-222 | With fresh ids no key is lost, and purpose, algorithm and key pair never change |
| `KeyHistory.RefusedIffLastRevoked` | backend/app/core/crypto_keys.py:202-222 | A key is revoked or compromised iff the last revoke or rotate naming it was a revoke |
| `KeyHistory.RevokedKeyIsDead` | backend/app/core/crypto_keys.py:167-222 | From its revocation until a rotation of it, a key signs nothing and verifies nothing |
| `KeyHistory.RotationRevivesRevoked` | backend/app/core/crypto_keys.py:202-212 | Rotating a revoked key lets it sign and verify again |
| `KeyHistory.SignatureVerifiesIffNotRefused` | backend/app/core/crypto_keys.py:167-196 | A signature once produced verifies in a later state iff the key is then neither revoked nor compromised |
| `KeyHistory.RevocationSticks` | backend/app/core/crypto_keys.py:214-222 | After a revocation, until the key is next named, signing is refused as compromised or as revoked as the revocation said, and its time and reason stay on the record |
| `KeyHistory.RotationSticks` | backend/app/core/crypto_keys.py:202-212 | After a rotation the old key is ROTATING with that time, still signs, and keeps its revocation record |
| `KeyHistory.CreationSticks` | backend/app/core/crypto_keys.py:143-165 | A created key is active, of its purpose and pair, created now, and stays so until it is named |
| `KeyHistory.WhoSignsWhoVerifies` | backend/app/core/crypto_keys.py:167-196 | Which statuses sign, which error the others give, and that a retired key still verifies |
| `SecretManagement.SecretCache.Get` | backend/app/core/secrets.py:44-52 | Returns an unexpired value and deletes an expired entry |
| `SecretManagement.LookupMeaning` | backend/app/core/secrets.py:44-52 | A lookup returns exactly an unexpired value and leaves no expired entry under the name |
| `SecretManagement.SecretCache.Set` | backend/app/core/secrets.py:54-58 | Stores the value until now plus the given or default TTL |
| `SecretManagement.EnvSecretProvider.GetSecret` | backend/app/core/secrets.py:102-109 | The cached value, else the environment's, cached when not empty |
| `SecretManagement.VaultKmsSecretProvider.GetSecret` | backend/app/core/secrets.py:145-152 | The cached value, else the store's or the environment's, cached when not empty |
| `SecretManagement.StoreBeforeEnvironment` | backend/app/core/secrets.py:149 | The store's value, else the environment's, else the empty text |
| `SecretManagement.VaultKmsSecretProvider.GetSecretVersion` | backend/app/core/secrets.py:154-156 | A known version, else the current secret, which is fetched either way |
| `SecretManagement.VaultKmsSecretProvider.SetMockSecret` | backend/app/core/secrets.py:139-143 | Changes both tables of the store and not the cache |
| `SecretManagement.BoundedStaleness` | backend/app/core/secrets.py:102-116 | Each value returned is the store's current one, or a non-empty one seen there less than the TTL ago with no refresh between |
| `SecretManagement.CurrentAfterRefresh` | backend/app/core/secrets.py:115-116 | The first read after a refresh returns the current value |
| `SecretManagement.ServedFromCache` | backend/app/core/secrets.py:44-52 | Within the TTL every read returns the value cached by the miss, whatever the store now holds |
| `SecretManagement.NoTtlNoStaleness` | backend/app/core/secrets.py:44-58 | With a TTL of zero or less every read returns the current value |
| `EnterpriseSecurity.Database.SetSecurityPolicy` | backend/app/api/enterprise_security.py:46-72 | Stores the merged policy, or refuses and changes nothing |
| `EnterpriseSecurity.Database.CreateSsoConnection` | backend/app/api/enterprise_security.py:83-101 | Adds a draft connection, or refuses and changes nothing |
| `EnterpriseSecurity.Database.TestSsoConnection` | backend/app/api/enterprise_security.py:113-125 | Stamps a connection of the organization whose discovery succeeded |
| `EnterpriseSecurity.Database.EnableSsoConnection` | backend/app/api/enterprise_security.py:129-144 | Activates a stamped connection of the organization |
| `EnterpriseSecurity.Database.DisableSsoConnection` | backend/app/api/enterprise_security.py:148-164 | Disables a connection unless SSO is required |
| `EnterpriseSecurity.AlwaysSound` | backend/app/api/enterprise_security.py:46-164 | In every reachable state required SSO has an active connection, and active connections have passed discovery |
| `EnterpriseSecurity.OnlyRecentOwnersAct` | backend/app/api/enterprise_security.py:26-49 | 404 without a workspace; 403 iff the asker has one and is no owner with a step-up at most 300 seconds old; what is refused changes nothing |
| `EnterpriseSecurity.UpdateOutcome` | backend/app/api/enterprise_security.py:50-61 | A policy update by the resulting values: out of bounds, SSO without an active connection, or stored field by field |
| `EnterpriseSecurity.ConnectionOutcomesByCode` | backend/app/api/enterprise_security.py:83-164 | For each code, exactly when an operation on a connection is answered with it |
| `EnterpriseSecurity.StatusIsLastSwitch` | backend/app/api/enterprise_security.py:83-164 | Over any requests of anyone, a connection's status is what the last accepted create, enable or disable of it made it |
| `EnterpriseSecurity.OthersNeverInterfere` | backend/app/api/enterprise_security.py:46-164 | However many requests other organizations make, an organization's policy and connections stay as they are |
| `EnterpriseSecurity.SsoCanBeRequiredAndLifted` | backend/app/api/enterprise_security.py:152-156 | The requirement can be reached from create, test and enable; it blocks disabling until lifted |
| `AccountSecurity.SessionTable.Sweep` | backend/app/api/account_security.py:59-68 | The loop marks the current session and revokes every other open one of the user, in place |
| `AccountSecurity.SessionTable.HandleConfirmMfa` | backend/app/api/account_security.py:51-71 | Refuses on the rate limit or a wrong code, else sweeps with the MFA and step-up mark |
| `AccountSecurity.SessionTable.HandleRemoveMfa` | backend/app/api/account_security.py:86-101 | Refuses without the factors, else sweeps and clears the MFA mark |
| `AccountSecurity.SessionTable.HandleChangePassword` | backend/app/api/account_security.py:128-161 | Its four refusals in order, else sweeps with the step-up mark |
| `AccountSecurity.SessionTable.HandleRevokeOthers` | backend/app/api/account_security.py:185-196 | Refuses without a current session, else revokes the others and reports how many |
| `AccountSecurity.SessionTable.HandleRevokeOne` | backend/app/api/account_security.py:200-205 | Revokes one own session once; not found for another user's |
| `AccountSecurity.SweepHolds` | backend/app/api/account_security.py:59-69 | After a sweep, and after anything the handlers do next, only the session that asked can be open |
| `AccountSecurity.RefusalsByCode` | backend/app/api/account_security.py:51-205 | For each code, exactly when a handler answers with it; what is refused changes nothing |
| `AccountSecurity.NamedSessionIsRevoked` | backend/app/api/account_security.py:200-205 | Revoking one session revokes that one, keeping an earlier time, and no other |
| `AccountSecurity.CurrentIsMarked` | backend/app/api/account_security.py:59-68 | What each sweep writes into the session that asked for it |
| `AccountSecurity.OthersAndRevokedUntouched` | backend/app/api/account_security.py:61-68 | No handler touches another user's session or a revoked one |
| `AccountSecurity.RevocationIsFinal` | backend/app/api/account_security.py:184-205 | Over any run a revocation time once set never changes |
| `AccountSecurity.ReportedCountIsExact` | backend/app/api/account_security.py:189-196 | The reported number is exactly how many open sessions the user has fewer |

## Left out

- Thread interleavings: each call is one atomic step. The nonce and rollback checks act outside the
  lock, so nothing is claimed about concurrent calls.
- HTTP transport, file permissions, key-file creation, SQL and the notification and event records
  written beside a change; a reply, a failed query or a refused check is an input.
- Evaluator.EvaluateLocalRequest: returns the code of a result; the texts and echoed fields of the
  returned dictionary are not modelled, the decision is `DecisionOf(code)`.
- TrustConfiguration.ReadConfig: reads well-typed configuration; a list or dictionary of the wrong
  JSON type reads as empty, where Python would raise.
- AplRules.RunRules: NaN and infinite numbers are not modelled; numbers are reals, so `float`
  rounding is not either.
- SidecarRuntime.SidecarState.constructor: the organization, environment, status and software
  version fields, which no modelled step reads, are absent. `get_health_summary` is left out: it
  takes a lock it already holds.
- Synchronization.SendHeartbeat: the telemetry payload and its signature are not modelled beyond the
  signing string; the heartbeat and the sync it nests share one clock reading.
- DestinationSafety.AcceptedDestinationReachesNoBlock: URL parsing and name resolution are inputs;
  the host name is taken as `urlparse` lower-cases it.
- KeyLifecycle.LocalKeyProvider.Status: `list_keys` and `get_public_key`, which only read, have no
  counterpart. `list_keys` and `create_key` hand out the stored metadata object itself.
- SecretManagement.SecretCache.Set: `clear`, `health` and the global provider accessors are left out.
- EnterpriseSecurity.Database.SetSecurityPolicy: the policy fields beyond the two requirements and
  the two session limits, which no guard reads, are absent, as are the descriptive fields of a
  connection.
- AccountSecurity.SessionTable.HandleRevokeOthers: one clock reading stands for the one per row.
- AccountSecurity.SessionTable.HandleChangePassword: the stored password hash and lockout counters
  are not modelled, and neither are login, step-up and session issue.
- The backend services under `backend/app/services` (authorization, agent delegation, risk engine, the
  APL package), policy publishing, migrations, scripts, web and mobile code are not modelled.
