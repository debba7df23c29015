# Verified model of the farm access-control and sensor-transport system

The repository holds three connected pieces: an access-control ledger written as a Hyperledger Fabric contract,
a transport that sends sensor readings as Chinese-remainder residues over three lossy radio channels, and a
gateway that ties the two together. This project models all three and proves what each is for.

**Ledger** (`Text`, `Roles`, `Ledger`, `Transactions`, `Contract`, `LedgerFacts`, `LedgerRuns`, `Provenance`,
`ActHistory`, `AccessRules`, `Retries`). The store is one map from strings to typed values.
`Contract.SmartContract` writes it step by step as the Go methods do; every transaction method is proved to
leave the state and give the answer of `Transactions.Exec`. `AccessRules` says in plain names and numbers when
each transaction succeeds and what it leaves. `LedgerRuns`, `Provenance` and `ActHistory` then reason about
every run from the empty store: replay is excluded up to pruning, the nonce index lists exactly the live rows,
the audit trail only grows and is the history of the run, and an access check that no earlier transaction is
stamped after grants if and only if the administrators' acts say so (`ActHistory.GrantActs`). Without the
condition on stamps the deletion of an expired role counts as well (`Provenance.GrantHistory`), and it can take
away what the acts support (`ActHistory.GrantsUnlessSwept`, `ActHistory.SweptTooSoon`). `Policy` is the TLA+
specification of the same policy, for any finite sets of users, roles and tokens and any clock horizon, with its
safety and, under weak fairness, its liveness.

**Transport** (`NumberTheory`, `Crt`, `CrtCodec`, `Firmware`, `Receiver`, `ReceiverRuns`, `Transport`). The
Chinese remainder theorem is proved for any pairwise-coprime moduli and instantiated at 97, 101 and 103. The
gateway's decoder and the firmware's stepping search are proved to compute the same number. The receiver is a
class, and its threads are a transition system in which packets may be lost, repeated, reordered or expire; what
it promises is stated key by key.

**Gateway** (`PolicyCache`, `Gateway`, `RateLimiter`, `FabricClient`, `Retries`). The decision cache and what a
forwarded reading rests on, the enrollment limiter against a naive count over the whole history, and the retry
loop with its backoff and its single nonce.

Conventions. Identity, transaction id, transaction time, clock readings, jitter and fresh identifiers are
inputs. A transaction reads its own earlier writes, as the repository's mock stub does
(`chaincode/hrbac/contract_test.go:49-66`). Each event of a run says whether a failed transaction is rolled
back, so the run theorems hold both for a network that discards failed transactions and for a store that keeps
their partial writes.

## Where the code and its documentation disagree

The model follows the code. Each of these is stated exactly by a lemma.

- `esp32/main/crt_encode.h:11` sets `CRT_MAX_VALUE` to 1009591, and README.md and DECISIONS.md of the
  repository repeat it, but 97 * 101 * 103 is 1009091; the static assertion at `esp32/main/crt_encode.c:8` is
  false. `Firmware.OversizedReadings` says which accepted readings come back wrong.
- `esp32/main/test/test_crt.c:38-49` expects 500000 and the largest value back from any two residues. A pair
  recovers a value if and only if it is below the pair's product (`CrtCodec.PairExact`,
  `CrtCodec.PairCounterexample`), which agrees with `paper_iot/V10/tables/s10_crt_bounds.tex:5-7`. For packed readings
  this means that soil counts of 52 and above never survive on a pair (`Firmware.ReadingFromPair`), while the
  receiver decodes as soon as it has two residues.
- A nonce row does not always belong to one caller: two ids can share rows if and only if one, followed by a
  colon, starts the other (`Ledger.NonceRowShared`). A cache key does not always belong to one device and zone:
  two zones can share keys if and only if one, preceded by a colon, ends the other (`Gateway.KeysShared`), and
  over a set of zones every run forwards only what was granted for the same device and zone if and only if no
  two of them do (`Gateway.ForwardingExact`).
- `RenewRole` and `IssueCrossZoneToken` trim the subject to look it up and store it untrimmed
  (`LedgerFacts.RenewalTakesEffect`, `LedgerFacts.TokenUsable`).
- A transaction whose id is `index` that writes the very first audit entry loses it under the index
  (`Ledger.AuditWrite`). The audit index is exact, and the trail is the history of the run, if and only if that
  has not happened (`LedgerRuns.AuditIndexExact`, `LedgerRuns.TrailIsActs`).
- The backoff is not always min(maximum, initial * multiplier^k): `FabricClient.BackoffExact` says when it is.

## Model

| member | source | states |
|---|---|---|
| Crt.SolutionUnique | gateway/crt_decode.py:58-61 | for any pairwise-coprime moduli, two numbers in [0, product) that match every residue are equal |
| Crt.SolutionExists | gateway/crt_decode.py:58-61 | for any pairwise-coprime moduli some number in [0, product) matches every residue |
| Crt.Combine | gateway/crt_decode.py:67-76 | the product loop and the sum of residue * cofactor * inverse, reduced, give that one solution |
| Crt.TermVanishes | gateway/crt_decode.py:72-74 | each term of the sum is divisible by every modulus but its own |
| Crt.ScaledInverse | gateway/crt_decode.py:51-52 | a residue times a cofactor times its inverse leaves the residue |
| NumberTheory.ModInverse | gateway/crt_decode.py:51-52 | the inverse of coprime arguments lies below the modulus and undoes multiplication |
| NumberTheory.InverseExact | gateway/crt_decode.py:51-52 | an inverse exists if and only if the arguments are coprime |
| CrtCodec.DecodesModuloProduct | gateway/crt_decode.py:55-62 | any two or more residues of any v decode to v modulo the product of the moduli received |
| CrtCodec.RoundTrip | gateway/crt_decode.py:11-17 | the three residues of every value in range decode to that value |
| CrtCodec.EncodeRange | gateway/crt_decode.py:15-16 | exactly the values from 0 to 1009090 are encoded |
| CrtCodec.PositionalRoundTrip | gateway/crt_decode.py:33-35 | bare residues in the order 97, 101, 103 decode to the value |
| CrtCodec.PairExact | gateway/crt_decode.py:59-61 | a pair recovers v if and only if v is below the pair's product |
| CrtCodec.PairCounterexample | esp32/main/test/test_crt.c:38-42 | 500000 decodes to 353 from its residues modulo 97 and 101 |
| CrtCodec.Capacity | paper_iot/V10/tables/s10_crt_bounds.tex:5-7 | at most three residues; pairs carry 9797 to 10403 values, triples 1009091, so a decoded value is always in range |
| CrtCodec.CollectedEntries | gateway/crt_decode.py:37-48 | normalisation keeps exactly the last residue given for each modulus, once |
| CrtCodec.ItemMeaning | gateway/crt_decode.py:25-40 | what one item says: a pair its modulus and residue, a bare residue the modulus at its position, an incomplete item nothing |
| CrtCodec.Normalise | gateway/crt_decode.py:20-48 | fails with an index error exactly for a bare residue beyond position 2, otherwise with a value error exactly for an unsupported modulus or out-of-range residue, and else returns the collected dict |
| CrtCodec.Decode | gateway/crt_decode.py:55-79 | every argument gets the error of its first failing phase or the one solution; the final range check never fires |
| CrtCodec.MappingDecoded | gateway/crt_decode.py:21-22 | a mapping argument decodes as the dict it is |
| Firmware.CrtEncode | esp32/main/crt_encode.c:22-36 | a null array and an oversized reading are refused without writing; otherwise the array holds the three residues in index order |
| Firmware.OversizedReadings | esp32/main/crt_encode.h:11 | CRT_MAX_VALUE exceeds the true product; an accepted reading comes back from all three residues if and only if it is below 1009091, else 1009091 too small |
| Firmware.SearchStep | esp32/main/crt_encode.c:54-60 | a candidate that fails leaves the least solution at least a stride ahead; one that matches is it |
| Firmware.CrtDecode | esp32/main/crt_encode.c:38-62 | success exactly for two residues with distinct valid indices in range; no uint32 overflow, never ESP_ERR_NOT_FOUND, and the result is the gateway's decoding of the pair |
| Firmware.PairOrder | esp32/main/crt_encode.c:48-58 | the order of the pair does not matter and no smaller number matches it |
| Firmware.EncodeSensorValue | esp32/main/main.c:67-80 | truncating division and in-place clamping equal the flooring version of the analysis script for every 16-bit input |
| Firmware.PackedFields | paper_iot/V10/analysis/scripts/05_crt_quantization.py:39-42 | the packed value is at most 823295 and dividing by 201 gives back the clamped soil and bucket |
| Firmware.ReadingRoundTrip | esp32/main/main.c:67-80 | packing, encoding, decoding and unpacking give back the clamped fields |
| Firmware.ReadingFromPair | paper_iot/V10/analysis/scripts/05_crt_quantization.py:13-16 | a packed reading survives on a pair if and only if it is below the pair's product: always for soil up to 47, never from 52 |
| Firmware.CorrectedPairsExact | paper_iot/V10/analysis/scripts/05_crt_quantization.py:65-76 | with moduli 253, 254, 255 and an 8-bit soil field every pair recovers every legal value |
| Receiver.PacketModulusNamed | gateway/lora_rx.py:157-170 | the modulus accepted is the one the packet names, field by field and number by number, negative positions included; an index error comes exactly from a position out of range |
| Receiver.KeptOpen | gateway/lora_rx.py:107-116 | a packet that is alone or whose decoding fails stays in its assembly, which stays open; other assemblies change only by expiring |
| Receiver.StoredResidues | gateway/lora_rx.py:111-113 | storing a packet replaces the residue of its modulus and no other |
| Receiver.LockedKeepsGood | gateway/lora_rx.py:107-118 | through successes, failed decodes and expiry: open and finished keys disjoint, one to three residues per assembly, two or more only with one out of range |
| Receiver.EmittedFresh | gateway/lora_rx.py:107-131 | for one call: an emitted reading comes from an unfinished key whose assembly was younger than the timeout at this call's sweep, and includes this packet's residue |
| Receiver.LoRaReceiver.ExpireLocked | gateway/lora_rx.py:143-147 | removes exactly the assemblies that have reached the timeout |
| Receiver.LoRaReceiver.ProcessLocked | gateway/lora_rx.py:107-118 | the locked section does what the table function says and keeps the invariant |
| Receiver.LoRaReceiver.ProcessPacket | gateway/lora_rx.py:99-131 | a packet without supported modulus changes nothing; any other runs the locked section and queues at most one reading |
| Receiver.LoRaReceiver.NextReading | gateway/lora_rx.py:133-137 | takes the oldest queued reading, if any |
| ReceiverRuns.HasTrace | gateway/lora_rx.py:83-131 | every sequence of scheduling steps has a run, so what holds of all runs holds of all interleavings |
| ReceiverRuns.AtMostOnce | gateway/lora_rx.py:107-131 | under any thread interleaving the keys queued and in flight are pairwise distinct and are exactly the assembled ones |
| ReceiverRuns.EndToEnd | gateway/lora_rx.py:99-131 | key by key: if the packets that get in under a key carry v modulo the modulus they name, then under loss, duplication, reordering and expiry, and whatever other keys send, every reading that comes out under it equals v modulo the product of the two moduli used |
| ReceiverRuns.EmittedExact | gateway/lora_rx.py:116-131 | such a reading is v if and only if v is below the product used, hence always below 9797 |
| ReceiverRuns.EmittedInTime | gateway/lora_rx.py:107-147 | in every run a reading that comes out was completed by a packet whose sweep came less than a timeout after the packet that opened its assembly, and it is v modulo the product used if the packets of its key taken in from the one to the other are residues of v, whatever the key carried before or after |
| ReceiverRuns.Delivered | gateway/lora_rx.py:99-131 | two residues of a key under different moduli that both get in suffice for the reading to be assembled, if the assembly that holds the first took in residues of one value and no sweep up to the second comes a timeout after its opening; assemblies that expired before do not matter |
| ReceiverRuns.DeliveredFromOpening | gateway/lora_rx.py:107-118 | the same for the packet that opens an assembly and a second one of another modulus |
| Transport.SentCarries | esp32/main/lora_tx.c:185-206 | every packet sent for the array that crt_encode leaves, naming its residue by position or channel, carries the value modulo the modulus the receiver takes it for |
| Transport.ReadingArrives | esp32/main/main.c:125-133 | from the packed sensor fields to the emitted reading: the packed value modulo the product used, and both clamped fields exactly whenever the soil count is at most 47 |
| Transport.AllThreeDecode | esp32/main/main.c:125-126 | with all three residues the packed value comes back whatever the fields |
| Roles.GetEffectivePermissions | chaincode/hrbac/roles.go:56-75 | exactly the permissions of some ancestor, each once, in the order of first listing |
| Roles.EffectiveList | chaincode/hrbac/roles.go:32-75 | the list gathered for each of the seven roles, written out in order |
| Roles.PermissionTable | chaincode/hrbac/contract.go:608-618 | a permission is held exactly as those lists say, and an administrator holds every named one |
| Roles.RoleNames | chaincode/hrbac/roles.go:6-14 | a role name stands for its own role, and no other string for any |
| Roles.PermissionNames | chaincode/hrbac/roles.go:19-30 | a permission asked for by name is the permission of that name |
| Roles.CheckPermission | chaincode/hrbac/contract.go:608-618 | true exactly if the permission is named and it or AdminAll is inherited |
| Roles.InheritanceTransitive | chaincode/hrbac/roles.go:42-50 | a role holds whatever any of its ancestors holds |
| Roles.RolePower | chaincode/hrbac/roles.go:32-50 | only Admin has AdminAll and with it every named permission; a sensor holds WriteSensor alone |
| Roles.ParseZones | chaincode/hrbac/zones.go:24-36 | the set of trimmed non-empty comma-separated parts, whatever the order of visits |
| Roles.StoredZonesParse | chaincode/hrbac/zones.go:24-36 | parsing a stored zone list changes nothing |
| Roles.ZoneNames | chaincode/hrbac/zones.go:54-65 | the zones that may be stored are North, South, East, West and the wildcard |
| Roles.ZoneList | chaincode/hrbac/contract.go:537-557 | a comma-separated list is accepted exactly if every part that is not blank is such a zone and, where required, there is one; it gives just those parts |
| Roles.NormalizeZones | chaincode/hrbac/contract.go:537-557 | valid names and the wildcard pass, anything else is refused, and an empty list is refused when a zone is required |
| Text.TrimMeaning | chaincode/hrbac/zones.go:28-28 | trimming takes white space off both ends and nothing else |
| Text.AsciiSpaces | chaincode/hrbac/zones.go:28-28 | which ASCII characters count as white space |
| Text.SplitJoin | chaincode/hrbac/zones.go:27-27 | the pieces hold no separator and joined give the string back |
| Text.JoinSplit | chaincode/hrbac/zones.go:27-27 | joining pieces without separator and splitting gives them back |
| Text.DecimalValue | chaincode/hrbac/contract.go:379-379 | the decimal of a number is made of digits and stands for it |
| Ledger.SensorKeyInjective | chaincode/hrbac/contract.go:379-379 | two sensor keys are equal exactly if device and time are |
| Ledger.NonceKeyInjective | chaincode/hrbac/nonces.go:19-21 | for ids of which none, followed by a colon, starts the other, equal nonce keys mean equal caller and nonce |
| Ledger.NonceRowShared | chaincode/hrbac/nonces.go:19-21 | two different callers can meet in a nonce row, for some non-empty nonces, if and only if one id followed by a colon starts the other |
| Ledger.AuditKeyInjective | chaincode/hrbac/audit.go:26-31 | the slots of one transaction are pairwise distinct |
| Ledger.SlotsTaken | chaincode/hrbac/audit.go:53-63 | taken slots are no more than the rows of the store, so the search ends |
| Ledger.SlotFirst | chaincode/hrbac/audit.go:53-63 | the slot used is the first one free |
| Ledger.AuditWrite | chaincode/hrbac/audit.go:64-71 | no row but the index is overwritten, the index gains the slot at its end, and the entry survives unless the transaction is called "index" and is the first to be audited |
| Contract.SmartContract.ValidateNonce | chaincode/hrbac/nonces.go:23-68 | refuses an empty caller, an empty or a used nonce without writing; otherwise records row and index entry |
| Contract.SmartContract.FindSlot | chaincode/hrbac/audit.go:53-63 | the loop terminates on the first free slot |
| Contract.SmartContract.WriteAuditEntry | chaincode/hrbac/audit.go:33-72 | entry in its slot, slot appended to the index |
| Contract.SmartContract.AssignRole | chaincode/hrbac/contract.go:53-94 | state and answer are those of Exec on every input, failing checks included |
| Contract.SmartContract.RevokeRole | chaincode/hrbac/contract.go:96-116 | the same for revocation |
| Contract.SmartContract.RenewRole | chaincode/hrbac/contract.go:118-147 | the same for renewal |
| Contract.SmartContract.ValidCrossZoneToken | chaincode/hrbac/contract.go:624-651 | no refusal exactly if a live token of this user covers the zone; otherwise the first reason |
| Contract.SmartContract.ValidateZoneAccess | chaincode/hrbac/zones.go:38-52 | no refusal exactly if the assignment holds the trimmed zone or the wildcard |
| Contract.SmartContract.AccessRefusal | chaincode/hrbac/contract.go:166-200 | the first failing check, and the deletion of an expired role |
| Contract.SmartContract.CheckAccess | chaincode/hrbac/contract.go:149-206 | verdict, sweep of an expired role and one audit entry, on every input |
| Contract.SmartContract.IssueCrossZoneToken | chaincode/hrbac/contract.go:208-250 | state and answer are those of Exec on every input |
| Contract.SmartContract.RevokeCrossZoneToken | chaincode/hrbac/contract.go:252-272 | the same for token revocation |
| Contract.SmartContract.GetAuditLog | chaincode/hrbac/contract.go:274-305 | reads the last thousand indexed entries, skipping missing rows, for those who may |
| Contract.SmartContract.PruneNonces | chaincode/hrbac/contract.go:307-350 | the deletion loop equals the pruning function, and the index is rewritten with the survivors |
| Contract.SmartContract.WriteSensorData | chaincode/hrbac/contract.go:352-384 | nonce, nested access check, then the sensor row, in that order and with every early exit |
| AccessRules.NonceGate | chaincode/hrbac/nonces.go:23-38 | every transaction but the access check and the log needs a fresh nonce; without it nothing changes and the error says why, with it the plan is carried out |
| AccessRules.NonceUsed | chaincode/hrbac/nonces.go:46-66 | what using up a nonce writes, and that it writes nothing else |
| AccessRules.AssignSucceeds | chaincode/hrbac/contract.go:53-79 | succeeds exactly with a fresh nonce, for an administrator, a subject, a known role, a fitting zone list and no or a later expiry |
| AccessRules.RevokeSucceeds | chaincode/hrbac/contract.go:96-110 | succeeds exactly with a fresh nonce, for an administrator and a subject that is not blank |
| AccessRules.RenewSucceeds | chaincode/hrbac/contract.go:118-136 | succeeds exactly with a fresh nonce, for an administrator, an existing role and a later expiry |
| AccessRules.IssueSucceeds | chaincode/hrbac/contract.go:208-230 | succeeds exactly with a fresh nonce, for an administrator, farmer or agronomist, a user with a role, fitting target zones and a later expiry |
| AccessRules.RevokeTokenSucceeds | chaincode/hrbac/contract.go:252-266 | succeeds exactly with a fresh nonce, for the same three roles and a token id that is not blank |
| AccessRules.PruneSucceeds | chaincode/hrbac/contract.go:307-317 | succeeds exactly with a fresh nonce and for an administrator |
| AccessRules.LogRefused | chaincode/hrbac/contract.go:274-281 | refused exactly to all but administrators, farmers, agronomists and certifiers |
| AccessRules.CheckAnswers | chaincode/hrbac/contract.go:149-206 | the answer to an access check, with certificate mark, role row, expiry, permission list, zones and token row written out |
| AccessRules.ZonesMatter | chaincode/hrbac/contract.go:187-200 | ReadZone, WriteSensor and ControlZone are refused outside the zones of the assignment when no token is shown; for any other permission zones and tokens make no difference |
| AccessRules.WriteSucceeds | chaincode/hrbac/contract.go:352-374 | succeeds exactly with a fresh nonce, a device, valid JSON and the access check granted to the caller |
| AccessRules.AssignLeaves | chaincode/hrbac/contract.go:84-93 | the role row, the audit entry and the answer of a successful assignment, field by field |
| AccessRules.RevokeLeaves | chaincode/hrbac/contract.go:111-115 | the same for a revocation |
| AccessRules.RenewLeaves | chaincode/hrbac/contract.go:137-146 | the same for a renewal, which changes the expiry alone and writes under the subject as given |
| AccessRules.IssueLeaves | chaincode/hrbac/contract.go:235-249 | the same for a token issue |
| AccessRules.RevokeTokenLeaves | chaincode/hrbac/contract.go:267-271 | the same for a token revocation |
| AccessRules.PruneLeaves | chaincode/hrbac/contract.go:318-349 | which nonce rows a pruning removes, its count and its audit entry |
| AccessRules.WriteLeaves | chaincode/hrbac/contract.go:360-380 | a sensor write leaves what the caller's own access check leaves, and the row under device and time if it succeeds |
| AccessRules.CheckLeaves | chaincode/hrbac/contract.go:158-205 | an access check leaves one audit entry with its verdict, and takes away at most the expired role |
| AccessRules.ReasonGiven | chaincode/hrbac/contract.go:166-200 | the reason recorded is the first check that fails, in the source's order, or the permission granted |
| AccessRules.RefusalLeaves | chaincode/hrbac/contract.go:53-350 | a refused administrative transaction leaves at most its nonce behind; anyone but an administrator is told Unauthorized |
| LedgerFacts.DecisionMeaning | chaincode/hrbac/contract.go:166-205 | the chain of checks grants if and only if one declarative condition holds |
| LedgerFacts.CheckAudited | chaincode/hrbac/contract.go:149-206 | an access check appends exactly one slot to the trail, holding an entry with the verdict it returns, unless it is the very first to be audited and called "index" |
| LedgerFacts.CheckHarmless | chaincode/hrbac/contract.go:180-183 | after any access check, every later check for anyone decides as it would have without it |
| LedgerFacts.SensorWriteAuthorised | chaincode/hrbac/contract.go:352-384 | a sensor row is written if and only if the check grants, the device is named and the reading is JSON; it is that reading, and no other sensor row changes |
| LedgerFacts.RenewalTakesEffect | chaincode/hrbac/contract.go:129-144 | a renewal reaches the record that lookups see if and only if the subject was trimmed (or the expiry is unchanged) |
| LedgerFacts.TokenUsable | chaincode/hrbac/contract.go:219-244 | a fresh token can serve its user if and only if the user was trimmed and the expiry lies beyond the issuing second |
| LedgerFacts.PlanFrame | chaincode/hrbac/contract.go:53-384 | each transaction's plan leaves every row family but its own untouched |
| LedgerFacts.ExecAudit | chaincode/hrbac/audit.go:33-72 | a transaction keeps the audit index exact, and only extends the trail, if and only if it is not the one that loses its entry |
| LedgerFacts.ExecTrail | chaincode/hrbac/audit.go:33-72 | a transaction, however it ends, adds to the trail exactly the entry its plan tells before the call |
| LedgerFacts.LogMeaning | chaincode/hrbac/contract.go:282-304 | the answer is the last min(n, 1000) of the entries listed, in order |
| LedgerFacts.PruneMeaning | chaincode/hrbac/contract.go:318-349 | removes exactly the older nonce rows except its own, keeps the order of the rest and answers with the number removed |
| LedgerFacts.ExecNonceIndexed | chaincode/hrbac/nonces.go:56-66 | every transaction, however it ends, keeps the nonce index exact |
| LedgerRuns.NonceIndexExact | chaincode/hrbac/nonces.go:56-66 | in every reachable state the nonce index lists exactly the live nonce rows, each once |
| LedgerRuns.AuditIndexExact | chaincode/hrbac/audit.go:48-71 | in every reachable state the audit index lists exactly the stored entries, each once, if and only if no step so far has lost its entry |
| LedgerRuns.TrailIsActs | chaincode/hrbac/audit.go:33-72 | in every reachable state the rows the index lists are the entries of all steps so far, in order, if and only if none has been lost |
| LedgerRuns.AuditAppendOnly | chaincode/hrbac/audit.go:53-71 | until an entry is lost, between any two points of a run the trail has only been appended to |
| LedgerRuns.LogReads | chaincode/hrbac/contract.go:274-305 | until an entry is lost, reading the log answers permitted callers, and only them, with the last thousand entries of all steps so far, and changes nothing |
| LedgerRuns.NonceLiveness | chaincode/hrbac/nonces.go:31-58 | a nonce row is present if and only if a call consumed it and no prune above its time has happened since |
| LedgerRuns.NonceAcceptance | chaincode/hrbac/nonces.go:23-38 | when validateNonce accepts, told from the history of the run alone |
| LedgerRuns.ReplayExcluded | chaincode/hrbac/nonces.go:31-58 | between two consumptions of one nonce row a prune ran with a bound above the first one's time |
| Provenance.RoleStep | chaincode/hrbac/contract.go:53-206 | what one step of any kind does to the role of one user |
| Provenance.RoleProvenance | chaincode/hrbac/contract.go:84-91 | a user holds a role record if and only if an administrator assigned it and it was neither replaced, revoked nor swept since |
| Provenance.ExpiryProvenance | chaincode/hrbac/contract.go:137-144 | a role has an expiry if and only if the last assignment or renewal set it |
| Provenance.TokenProvenance | chaincode/hrbac/contract.go:237-244 | a token is on the ledger if and only if the last issue under its id left it so and no revocation followed |
| Provenance.RevocationProvenance | chaincode/hrbac/contract.go:166-173 | a certificate is marked if and only if its revocation was published; no transaction lifts the mark |
| Provenance.GrantHistory | chaincode/hrbac/contract.go:149-206 | in every reachable state an access check grants if and only if the history does, in which the deletions of expired roles count beside the administrators' acts |
| Provenance.GrantTraced | chaincode/hrbac/contract.go:149-206 | every grant of every run rests on a named assignment by an administrator, a named last dating and, where needed, a named token issue, none undone since |
| Provenance.WriteTraced | chaincode/hrbac/contract.go:352-384 | so does every sensor reading written |
| Provenance.SensorProvenance | chaincode/hrbac/contract.go:379-380 | a sensor row is on the ledger if and only if the last successful write under its key stored it |
| Provenance.SensorTraced | chaincode/hrbac/contract.go:352-384 | every sensor row of every reachable state is the reading of a named write, the last under its key, whose writer was entitled to it by a named assignment that stood at the time |
| Provenance.ReadingKept | chaincode/hrbac/contract.go:379-380 | a stored reading stays through whatever follows until the same device writes at the same time again |
| ActHistory.RowByActs | chaincode/hrbac/contract.go:180-183 | the role on the ledger is the one the acts leave, unless a sweep has hidden it until the next assignment |
| ActHistory.GrantsUnlessSwept | chaincode/hrbac/contract.go:149-206 | in every reachable state an access check grants if and only if the acts alone grant and no sweep hides the role |
| ActHistory.GrantActs | chaincode/hrbac/contract.go:149-206 | in every reachable state an access check that no earlier transaction is stamped after grants if and only if the acts alone do: roles assigned, renewed and revoked, tokens issued and revoked, revocations published |
| ActHistory.SweptTooSoon | chaincode/hrbac/contract.go:180-183 | a sweep by a check stamped later takes away what a check stamped earlier would have been granted, while every act that supports it stands |
| ActHistory.SweepAhead | chaincode/hrbac/contract.go:180-183 | after any run, a check stamped past the expiry sweeps a role that expires |
| ActHistory.OnlyAdmins | chaincode/hrbac/contract.go:61-147 | an assignment, revocation or renewal sent by anyone but an administrator fails and leaves every role row as it was |
| ActHistory.RoleChangedBy | chaincode/hrbac/contract.go:53-206 | a role changes only by an administrator's successful act, or goes when an access check finds it expired |
| Policy.StepSafe | tla/AccessControl.tla:181-190 | every action keeps all grants authorised now, nothing past its expiry, and every request in one status that the log confirms |
| Policy.AlwaysSafe | tla/AccessControl.tla:86-90 | so every state of every behaviour is safe |
| Policy.ExpireRoleDisabled | tla/AccessControl.tla:164-172 | ExpireRole is never enabled in a safe state |
| Policy.StatusLogged | tla/AccessControl.tla:84-90 | pending, granted, denied and revoked are told apart by the log |
| Policy.StatusForward | tla/AccessControl.tla:104-172 | a request only moves from pending to granted or denied and from granted to revoked |
| Policy.EnabledWhilePending | tla/AccessControl.tla:174-174 | ProcessRequest is enabled if and only if something is pending |
| Policy.PendingShrinks | tla/AccessControl.tla:104-190 | no action adds to pending and each ProcessRequest step removes from it |
| Policy.EventuallyDecided | tla/AccessControl.tla:192-194 | under weak fairness every pending request stops being pending, for any sets and horizon |
| Policy.StaysDecided | tla/AccessControl.tla:104-190 | once decided, a request is never pending again |
| Policy.AuthorizedMeans | tla/AccessControl.tla:61-82 | authorised means an assignment of the user, not past its expiry, to a role that permits it, for the zone or for one from which a live token of the user leads there |
| Policy.GrantsEntitled | tla/AccessControl.tla:86-87 | in every state of every behaviour whoever is granted a request is entitled to it there and then |
| Policy.GrantsMove | tla/AccessControl.tla:104-172 | a step grants only pending requests that something entitles to, and withdraws only those nothing entitles to any more |
| Policy.AlwaysDrawn | tla/AccessControl.tla:118-140 | assignments and tokens come from the given sets, within the horizon, and no token leads from a zone to itself |
| Policy.ClockAndLog | tla/AccessControl.tla:104-172 | the clock stands still or ticks once, and log entries carry its time |
| PolicyCache.PolicyCache.Create | gateway/policy_cache.py:25-30 | a cache comes into being exactly for a positive time to live, empty |
| PolicyCache.PolicyCache.Get | gateway/policy_cache.py:32-40 | answers an entry strictly before its expiry and drops an expired one, nothing else |
| PolicyCache.PolicyCache.Set | gateway/policy_cache.py:42-47 | stores with the given or default time to live, or refuses a non-positive one |
| PolicyCache.PolicyCache.Invalidate | gateway/policy_cache.py:49-51 | drops exactly that key |
| PolicyCache.PolicyCache.InvalidateAll | gateway/policy_cache.py:53-55 | drops everything |
| Gateway.KeyInjective | gateway/gateway.py:86-87 | for zones of which none, preceded by a colon, ends the other, equal keys mean equal device and zone |
| Gateway.KeysShared | gateway/gateway.py:86-87 | readings of two different zones can meet in a cache key if and only if one zone preceded by a colon ends the other |
| Gateway.Gateway.HandleReading | gateway/gateway.py:98-111 | asks for the reading's device and its or the gateway's zone exactly when no decision is cached; submits exactly on a granting decision; lists only readings whose submission went through |
| Gateway.GrantingAnswers | gateway/gateway.py:89-96 | which answers grant, letter by letter and without the gateway's own notions |
| Gateway.FirstReading | gateway/gateway.py:98-111 | with nothing cached a reading is forwarded exactly on such an answer |
| Gateway.ForwardedWhen | gateway/gateway.py:102-107 | a cached decision decides until its expiry, a fresh answer otherwise |
| Gateway.EntryOrigin | gateway/policy_cache.py:32-55 | every cache entry was put there by an answer for its own key that nothing has invalidated since |
| Gateway.ForwardingRests | gateway/gateway.py:86-111 | over zones that do not overlap in that way, every forwarded reading rests on a grant for the same device and zone, obtained in that call or stored less than the time to live before and not invalidated since |
| Gateway.ForwardingAcrossDevices | gateway/gateway.py:102-109 | whenever two different devices or zones share a key, a grant for the first lets the second through without access being asked for it |
| Gateway.ForwardingExact | gateway/gateway.py:86-111 | over a set of zones every forwarded reading of every run rests on a grant for its own device and zone if and only if no two of the zones overlap |
| Gateway.StaleDecision | gateway/gateway.py:102-107 | within the time to live the gateway repeats its decision without asking |
| RateLimiter.EnrollmentLimiter.RateLimited | gateway/enrollment_server.py:49-57 | one attempt pops, decides and possibly records for this caller alone |
| RateLimiter.HistoryRemembered | gateway/enrollment_server.py:51-53 | the pruned deque decides any later attempt as the full accepted history would |
| RateLimiter.RefusedExactly | gateway/enrollment_server.py:49-57 | for one caller on a non-decreasing clock an attempt is refused if and only if the full history has ten accepted attempts in the last window |
| RateLimiter.OwnHistory | gateway/enrollment_server.py:44-51 | in a run of all callers, each one's deque and accepted attempts are what its own attempts alone would have led to |
| RateLimiter.RefusedInRun | gateway/enrollment_server.py:49-57 | in a run of all callers an attempt is refused if and only if ten of the same caller have been accepted in the last window |
| RateLimiter.AtMostTenPerWindow | gateway/enrollment_server.py:49-57 | in a run of all callers no window of 3600 seconds, wherever it starts, holds more than ten accepted attempts of one caller |
| FabricClient.FabricClient.Invoke | gateway/fabric_client.py:63-82 | one identical payload and nonce until the first success or the limit, the last answer returned or raised, pauses only between attempts |
| FabricClient.ConductedOnce | gateway/fabric_client.py:63-82 | that description determines calls and result |
| FabricClient.BackoffExact | gateway/fabric_client.py:68-80 | without jitter the pauses are min(maximum, initial * multiplier^k) if and only if the multiplier is at least one or the first step stays below the cap |
| FabricClient.CappedTooSoon | gateway/fabric_client.py:80-80 | otherwise the third pause is too short |
| FabricClient.JitterBounded | gateway/fabric_client.py:77-78 | jitter moves a pause by at most its own size, within [0, maximum] |
| FabricClient.JitterAdded | gateway/fabric_client.py:77-78 | where neither bound bites the pause is the delay and the draw |
| Retries.LaterAttemptRefused | gateway/fabric_client.py:63-82 | once one attempt has consumed the nonce, every later one of the same invocation is refused as a replay and changes nothing, unless a prune above its time came between |
| Retries.AtMostOneAttempt | chaincode/hrbac/nonces.go:31-58 | two attempts of one invocation can both take effect only if a prune above the earlier one's time lies strictly between them |
| Retries.FixedNonceRefused | gateway/fabric_client.py:44-55 | under a fixed nonce whatever is invoked after a call that consumed it is refused as a replay, whichever transaction and payload it carries |

## Left out

- X.509, PEM and attribute extraction (`chaincode/hrbac/contract.go:386-524`): the caller is an input record.
- SHA-256 of the token id: an input string, so different issues may share an id and the theorems speak of the last issue.
- RFC 3339 parsing: an expiry is absent, malformed or an instant.
- JSON encoding: rows are typed values; rows that do not decode, which no transaction writes, are excluded by the `Typed` invariant.
- Texts of errors and of audit reasons: error kinds and reasons are datatypes.
- Stub input/output errors: reads and writes of the store succeed.
- Endorsement, ordering and conflict checks of Fabric: committed transactions run one at a time.
- Zone order and `SourceZone`: zones are sets, since the source builds the list from an unordered map.
- Strings are sequences of characters, without UTF-8; upper-casing in `Gateway.IsGrant` covers ASCII letters.
- Coercions with Python's `int()` and `str()` of packet fields and residues: fields arrive as integers and strings.
- Packet timestamp, signature and certificate, and signature verification in `handle_reading`: carried along or pluggable.
- Floating-point rounding of clocks and pauses: `real` throughout.
- RateLimiter.AtMostTenPerWindow: attempts are taken one at a time; `rate_limited` takes no lock and the server
  is threaded (`gateway/gateway.py:80`), so requests handled at once can exceed ten.
- The handling of one reading by two threads at once in the gateway: `Gateway` covers sequential runs, and exactly-once submission is not promised by `Gateway.run`.
- `fixed_nonce` and `invoke_with_nonce` wrappers: the field and the `addNonce` argument are modelled.
- The adapter between gateway transaction names and contract methods, which is a pluggable invoker.
- Receiver start, stop and source loops, Flask routes, dashboards, radio, ADC, deep sleep, eFuse, signing, certificates, packaging and the statistics scripts.
