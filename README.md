# NTumbleBit core in Dafny

This project models the sequential core of NTumbleBit, a classic tumbler for Bitcoin. It covers:

- **The server's channel negotiation** (`Negotiation`). The key checks made when a session is created.
  - Alice's session: receive her escrow information, build her escrow output, confirm it.
  - Bob's four-state session: voucher, escrow information, signed transaction.
  - Snapshots and restores of either session's state.
- **The standard cycle templates** (`Cycles`).
  - Block-count and time conversions, and the length of a cycle.
  - The Kotori and Shorty templates.
  - The construction-time overlap self-check: sort the phase starts, check the minimum gap, stop at the first repeated residue state.
  - Lookup by name and by parameters.
- **The RSA core engine** (`RsaCore`): block sizes, input and output conversion, and exponentiation.
  - The private-key path uses the Chinese Remainder Theorem (section 5.1.2 of RFC 8017, RSADP step 2.b).
- **ASN.1/DER pieces.**
  - OBJECT IDENTIFIER (`ObjectIdentifier`, with `OidText`, `OidCodec`, `Base128`): validation of the dotted text, `Branch` and `On`, and base-128 subidentifiers both ways (ITU-T X.690 section 8.19). A round trip from text to body octets and back is proved.
  - INTEGER (`Asn1`): two's-complement content octets (X.690 section 8.3).
  - The PKCS #1 RSAPublicKey structure (`RsaPublicKey`, appendix A.1.1 of RFC 8017).
  - AlgorithmIdentifier (`AlgorithmId`, section 4.1.1.2 of RFC 5280).
- **Small data operations.**
  - Broadcast heights and signature substitution in a trusted broadcast request (`TrustedBroadcast`).
  - The escrow receiver's configuration (`Escrow`).
  - The blinding factor's byte conversions (`Blinding`).
  - Mask generation parameters with defensive copies (`Mgf`).

Helper modules:

- `Wrappers`: Option, Result and Outcome.
- `Numeric`: powers, bit lengths, ceiling and truncating division.
- `Bytes`: unsigned and two's-complement big-endian, hex.
- `Decimal`: decimal digit strings.
- `Sorting`: insertion sort, which models `OrderBy`.
- `Bitcoin`: keys, scripts, transactions, lock times.

Imperative code is modelled imperatively:

- The sessions, the escrow receiver, the RSA engine, the OID object with its lazily memoised body, and the MGF parameters are classes with `modifies` clauses.
- `WriteField`, `IsValidBranchID`, `MakeOidStringFromBytes`, the cycle self-check loop, `ConvertOutput`'s padding copy and `ReSign`'s op loop are methods with loops. Each is proved equal to a specification function, and the properties are proved about that function.
- Pure code (`DerInteger`, `RsaPublicKeyStructure`, `AlgorithmIdentifier`, `BlindFactor`, the block-size getters, `ProcessBlock`) is datatypes and functions.

Computations that NBitcoin and the rest of NTumbleBit perform are uninterpreted function values passed in (`Bitcoin.Chain`, `Negotiation.Primitives`): Hash160, public-key derivation, escrow scripts, puzzle generation and solving, transaction signing, the cycle generator's lock times. Random choices (`new Key()`, a puzzle's solution) are parameters. Constructors that throw in C# are modelled by a factory returning `Result`, beside a Dafny constructor that requires the inputs the checks accept.

Points of the code that the model keeps as they are:

- Alice's session has no status field; only Bob's session is a state machine.
- `ConfirmAliceEscrow` takes the *first* output paying the escrow script hash and then checks that output's amount.
- The cycle self-check runs until a residue vector repeats. Outside debug mode it checks only Kotori, the only template `ToEnumerable` yields there.
- A cycle has seven phases: registration, safety, client channel establishment, tumbler channel establishment, payment, tumbler cashout and client cashout.
- Snapshots are deep clones of a mutable state.

## Model

| member | source | states |
|---|---|---|
| Negotiation.CheckNegotiation | NTumbleBit/ClassicTumbler/ServerChannelNegotiation.cs:15-28 | Succeeds exactly when both keys are present, the parameters are present, and the voucher and server keys equal the keys' public halves. Each failure is reported in the source's order: null tumbler key, null voucher key, null parameters (a null reference), voucher key mismatch, tumbler key mismatch. |
| Negotiation.NewAliceSession | NTumbleBit/ClassicTumbler/ServerChannelNegotiation.cs:88-95 | Fails with the base constructor's error when the key checks fail; otherwise a fresh session with an all-null state. |
| Negotiation.TumblerAliceServerSession.constructor | NTumbleBit/ClassicTumbler/ServerChannelNegotiation.cs:88-95 | Keeps the parameters and keys; the state is fresh and empty. |
| Negotiation.TumblerAliceServerSession.Restore | NTumbleBit/ClassicTumbler/ServerChannelNegotiation.cs:97-105 | The session's state is a fresh object with the given state's values, never the given object. |
| Negotiation.AliceState.Clone | NTumbleBit/ClassicTumbler/ServerChannelNegotiation.cs:84 | A fresh state with equal values. |
| Negotiation.TumblerAliceServerSession.GetInternalState | NTumbleBit/ClassicTumbler/ServerChannelNegotiation.cs:82-86 | Returns a fresh object equal to the live state. |
| Negotiation.AliceSnapshotIsolated | NTumbleBit/ClassicTumbler/ServerChannelNegotiation.cs:82-86 | Writing to a snapshot leaves the session's state unchanged. |
| Negotiation.TumblerAliceServerSession.ReceiveAliceEscrowInformation | NTumbleBit/ClassicTumbler/ServerChannelNegotiation.cs:107-116 | Records the cycle's start, the new escrow key, Alice's escrow and redeem keys and her unsigned voucher. Returns the new key's public half. Null information fails with nothing changed. |
| Negotiation.AliceEscrowScript | NTumbleBit/ClassicTumbler/ServerChannelNegotiation.cs:128-131 | The escrow is built from the tumbler's escrow public key, Alice's key, her redeem key and the client lock time of the recorded cycle. It exists exactly when the escrow key is set. |
| Negotiation.AliceEscrowTxOut | NTumbleBit/ClassicTumbler/ServerChannelNegotiation.cs:118-121 | The amount is denomination + fee, paid to the escrow script's hash. It fails only when the escrow key is null. |
| Negotiation.TumblerAliceServerSession.BuildEscrowTxOut | NTumbleBit/ClassicTumbler/ServerChannelNegotiation.cs:118-121 | Equals AliceEscrowTxOut of the live state; the amount is denomination + fee. |
| Negotiation.FirstOutputPaying | NTumbleBit/ClassicTumbler/ServerChannelNegotiation.cs:137 | The least index whose output pays the script. None exactly when no output does. |
| Negotiation.AliceConfirmCheck | NTumbleBit/ClassicTumbler/ServerChannelNegotiation.cs:136-141 | "No output containing the escrowed coin" when no output pays the escrow hash. "Incorrect amount" when the first such output's amount is not denomination + fee. Otherwise that output's index, whose output equals BuildEscrowTxOut's. |
| Negotiation.BuiltOutputConfirms | NTumbleBit/ClassicTumbler/ServerChannelNegotiation.cs:118-141 | The output BuildEscrowTxOut builds is accepted when it is the first output paying that hash. |
| Negotiation.WrongAmountRefused | NTumbleBit/ClassicTumbler/ServerChannelNegotiation.cs:140-141 | The first output paying the escrow hash with any other amount is refused with "Incorrect amount". |
| Negotiation.TumblerAliceServerSession.ConfirmAliceEscrow | NTumbleBit/ClassicTumbler/ServerChannelNegotiation.cs:133-153 | A failed check leaves the state unchanged. On success the unsigned voucher, other escrow key, redeem key and escrow key are all cleared. The solver session gets the found coin with the escrow script and the old escrow key. The solved voucher is Solve of the old voucher under the voucher key; a null voucher fails after the clearing. |
| Negotiation.StatusIndex | NTumbleBit/ClassicTumbler/ServerChannelNegotiation.cs:161-167 | The order of Bob's four statuses, 0 to 3. |
| Negotiation.InitialBob | NTumbleBit/ClassicTumbler/ServerChannelNegotiation.cs:216-225 | A new Bob state waits for the voucher request in the given cycle. |
| Negotiation.TumblerBobServerSession.constructor | NTumbleBit/ClassicTumbler/ServerChannelNegotiation.cs:216-225 | Keeps the parameters and keys; a fresh state equal to InitialBob(cycleStart). |
| Negotiation.NewBobSession | NTumbleBit/ClassicTumbler/ServerChannelNegotiation.cs:216-225 | Fails with the base constructor's error when the key checks fail. Otherwise a fresh session in WaitingVoucherRequest, whose state is consistent. |
| Negotiation.TumblerBobServerSession.Restore | NTumbleBit/ClassicTumbler/ServerChannelNegotiation.cs:227-235 | The session works on a fresh clone of the given state. |
| Negotiation.BobState.Clone | NTumbleBit/ClassicTumbler/ServerChannelNegotiation.cs:239 | A fresh state with equal values. |
| Negotiation.TumblerBobServerSession.GetInternalState | NTumbleBit/ClassicTumbler/ServerChannelNegotiation.cs:237-241 | Returns a fresh object equal to the live state. |
| Negotiation.BobSnapshotIsolated | NTumbleBit/ClassicTumbler/ServerChannelNegotiation.cs:237-241 | Writing to a snapshot leaves the session's state unchanged. |
| Negotiation.AssertState | NTumbleBit/ClassicTumbler/ServerChannelNegotiation.cs:303-307 | Passes exactly when the status is the expected one. Otherwise it is an invalid-state error naming the actual and the expected status. |
| Negotiation.AfterGenerateUnsignedVoucher | NTumbleBit/ClassicTumbler/ServerChannelNegotiation.cs:243-250 | Succeeds exactly in WaitingVoucherRequest. Records the solution's hash and moves one status on, to WaitingBobEscrowInformation; nothing else changes. |
| Negotiation.TumblerBobServerSession.GenerateUnsignedVoucher | NTumbleBit/ClassicTumbler/ServerChannelNegotiation.cs:243-250 | On the wrong status, fails with the state unchanged. Otherwise returns the puzzle of the solution under the voucher key and takes the new state. |
| Negotiation.AfterReceiveBobEscrowInformation | NTumbleBit/ClassicTumbler/ServerChannelNegotiation.cs:252-267 | Null information is rejected first, then a wrong status. Succeeds exactly when the signed voucher's Hash160 equals the recorded hash. On success the escrow, other escrow and redeem keys are set, the hash is cleared, and the status moves one step to WaitingSignedTransaction. |
| Negotiation.TumblerBobServerSession.ReceiveBobEscrowInformation | NTumbleBit/ClassicTumbler/ServerChannelNegotiation.cs:252-267 | A failure leaves the state unchanged; a success takes the new state. |
| Negotiation.BobEscrowScript | NTumbleBit/ClassicTumbler/ServerChannelNegotiation.cs:276-286 | The escrow is built from the tumbler's escrow public key, Bob's key, the redeem key's public half and the tumbler lock time. It exists exactly when both keys are set. |
| Negotiation.BobEscrowTxOut | NTumbleBit/ClassicTumbler/ServerChannelNegotiation.cs:269-274 | Only in WaitingSignedTransaction (otherwise an invalid-state error). The amount is the denomination, paid to the escrow script's hash. |
| Negotiation.TumblerBobServerSession.BuildEscrowTxOut | NTumbleBit/ClassicTumbler/ServerChannelNegotiation.cs:269-274 | Equals BobEscrowTxOut of the live state; the amount is the denomination. |
| Negotiation.MatchingOutputs | NTumbleBit/ClassicTumbler/ServerChannelNegotiation.cs:292-293 | Exactly the indices, increasing, of the outputs equal to the expected one in script and value. |
| Negotiation.SignedTransactionOutput | NTumbleBit/ClassicTumbler/ServerChannelNegotiation.cs:288-293 | Succeeds exactly when one output matches both script and value, and returns that output, which no other output equals. Zero matches and several matches fail differently. |
| Negotiation.TwoMatches | NTumbleBit/ClassicTumbler/ServerChannelNegotiation.cs:292-293 | Two matching indices mean more than one match. |
| Negotiation.OnlyMatch | NTumbleBit/ClassicTumbler/ServerChannelNegotiation.cs:292-293 | An output that equals the expected one and that no other output equals is the single match. |
| Negotiation.AfterSetSignedTransaction | NTumbleBit/ClassicTumbler/ServerChannelNegotiation.cs:288-301 | Succeeds exactly when the single escrow output is found, only from WaitingSignedTransaction. Clears the escrow and redeem keys and reaches Completed. |
| Negotiation.TumblerBobServerSession.SetSignedTransaction | NTumbleBit/ClassicTumbler/ServerChannelNegotiation.cs:288-301 | A failure leaves the state unchanged. On success the promise session gets the found coin with the escrow script, the escrow key and the redeem key, and the new state is taken. |
| Negotiation.TransitionsKeepConsistency | NTumbleBit/ClassicTumbler/ServerChannelNegotiation.cs:243-301 | Each successful transition keeps the status-to-secrets invariant (which of the hash, escrow and redeem keys each status holds). |
| Negotiation.ConsistentEscrowBuilds | NTumbleBit/ClassicTumbler/ServerChannelNegotiation.cs:269-286 | In a consistent WaitingSignedTransaction state the escrow output can always be built. |
| Negotiation.HappyPathCompletes | NTumbleBit/ClassicTumbler/ServerChannelNegotiation.cs:243-301 | From a new session, the voucher, matching escrow information and a transaction holding the escrow output once reach Completed with no keys left. |
| Negotiation.DuplicateEscrowOutputRefused | NTumbleBit/ClassicTumbler/ServerChannelNegotiation.cs:292-293 | A transaction holding the escrow output twice is refused. |
| Negotiation.StatusOnlyAdvances | NTumbleBit/ClassicTumbler/ServerChannelNegotiation.cs:161-167 | Every successful call starts from its one status and moves exactly one step forward. In Completed, every call fails. |
| Cycles.GetBlocksCount | NTumbleBit/ClassicTumbler/StandardCycles.cs:164 | The ceiling of minutes over the spacing: blocks × spacing ≥ minutes, and (blocks − 1) × spacing < minutes. |
| Cycles.EstimatedTimeCovers | NTumbleBit/ClassicTumbler/StandardCycles.cs:164-166 | GetEstimatedTime(GetBlocksCount(m)) ≥ m minutes, by less than one block. |
| Cycles.BlocksCountPositive | NTumbleBit/ClassicTumbler/StandardCycles.cs:164 | A positive number of minutes takes at least one block. |
| Cycles.GetEstimatedTime | NTumbleBit/ClassicTumbler/StandardCycles.cs:166 | A whole number of block spacings, which divides back into the block count. |
| Cycles.StandardCycle.GetLength | NTumbleBit/ClassicTumbler/StandardCycles.cs:38-44 | At startup, the estimated time of the whole Total period. Otherwise, the estimated time of the non-overlapped part (registration length less the overlap). |
| Cycles.Kotori | NTumbleBit/ClassicTumbler/StandardCycles.cs:86-108 | The production template: each of the seven phases lasts at least one block, consecutive cycles start a positive number of blocks apart, and a cycle has a positive total length. |
| Cycles.Shorty | NTumbleBit/ClassicTumbler/StandardCycles.cs:62-84 | The debug template: each of the seven phases lasts at least one block, consecutive cycles start a positive number of blocks apart, and a cycle has a positive total length. |
| Cycles.GetPeriods | NTumbleBit/ClassicTumbler/StandardCycles.cs:120-122 | The seven phases run one after another from the cycle's start; Total spans them. |
| Cycles.Generation | NTumbleBit/ClassicTumbler/StandardCycles.cs:121-127 | The k-th cycle starts k non-overlapped parts after the first and is as long. |
| Cycles.GetCycles | NTumbleBit/ClassicTumbler/StandardCycles.cs:130 | Exactly the generations running at the height: each returned cycle's Total period contains the height, every generation whose Total period contains it is returned, and there are at most MaxOverlapped + 1 of them. |
| Cycles.RunningWindow | NTumbleBit/ClassicTumbler/StandardCycles.cs:130 | A cycle running at the height is one of the last MaxOverlapped generations started by then, so the window GetCycles searches is enough. |
| Cycles.ActiveBetween | NTumbleBit/ClassicTumbler/StandardCycles.cs:130 | Among generations lo to hi, all those whose Total period contains the height and only those. |
| Cycles.SortedStarts | NTumbleBit/ClassicTumbler/StandardCycles.cs:129-142 | A sorted permutation of the five phase starts of every active cycle. |
| Sorting.Sort | NTumbleBit/ClassicTumbler/StandardCycles.cs:142 | Sorted, and a permutation of its input. |
| Sorting.SortedUnique | NTumbleBit/ClassicTumbler/StandardCycles.cs:142 | Two sorted permutations of each other are equal, so OrderBy's result is determined. |
| Sorting.SortPermutation | NTumbleBit/ClassicTumbler/StandardCycles.cs:142 | Sorting ignores the input order. |
| Cycles.CheckGaps | NTumbleBit/ClassicTumbler/StandardCycles.cs:143-147 | Passes exactly when every two neighbouring starts are at least the gap apart. |
| Cycles.GapsBetweenAll | NTumbleBit/ClassicTumbler/StandardCycles.cs:143-147 | For sorted starts with neighbouring gaps ≥ gap, starts j − i apart differ by at least gap × (j − i). |
| Cycles.ReduceModulo | NTumbleBit/ClassicTumbler/StandardCycles.cs:150-153 | Each start is replaced in place by its residue modulo the total length. |
| Cycles.Residues | NTumbleBit/ClassicTumbler/StandardCycles.cs:150-153 | Each entry is the start modulo the total, in [0, total). |
| Cycles.CheckStarts | NTumbleBit/ClassicTumbler/StandardCycles.cs:143-153 | The gap verdict and the residue vector of one iteration. |
| Cycles.CheckIteration | NTumbleBit/ClassicTumbler/StandardCycles.cs:129-158 | One iteration of the check loop agrees with one unfolding of CheckLoop. |
| Cycles.CheckLoopFrom | NTumbleBit/ClassicTumbler/StandardCycles.cs:127-159 | The loop's verdict equals CheckLoop from the first generation with nothing seen. |
| Cycles.CheckStandard | NTumbleBit/ClassicTumbler/StandardCycles.cs:115-159 | The verdict on one template is CheckFrom(generator, gap, 0, {}). |
| Cycles.LoopCount | NTumbleBit/ClassicTumbler/StandardCycles.cs:127-158 | The loop stops after at least one iteration. It terminates because the residue vectors come from a finite universe. |
| Cycles.CheckLoopMeaning | NTumbleBit/ClassicTumbler/StandardCycles.cs:127-158 | The loop passes exactly when every iteration up to the first repeated state has wide enough gaps. |
| Cycles.CheckFromMeaning | NTumbleBit/ClassicTumbler/StandardCycles.cs:127-147 | The self-check passes exactly when, at every checked height, the sorted phase starts are at least the gap apart. |
| Cycles.CheckedStatesDistinct | NTumbleBit/ClassicTumbler/StandardCycles.cs:149-158 | The checked generations record pairwise different residue vectors, and the last one repeats an earlier one. |
| Cycles.LoopStatesPairwise | NTumbleBit/ClassicTumbler/StandardCycles.cs:157-158 | The states before the last iteration are pairwise different. |
| Cycles.LoopLastRepeats | NTumbleBit/ClassicTumbler/StandardCycles.cs:157-158 | The last iteration's state was recorded by an earlier iteration. |
| Cycles.StandardCycles.constructor | NTumbleBit/ClassicTumbler/StandardCycles.cs:58-60 | Keeps the debug flag and both templates. |
| Cycles.Create | NTumbleBit/ClassicTumbler/StandardCycles.cs:58-162 | In debug mode, always succeeds. Otherwise succeeds exactly when Kotori passes the self-check with a gap of GetBlocksCount(20). On success it holds Kotori and Shorty. |
| Cycles.StandardCycles.ToEnumerable | NTumbleBit/ClassicTumbler/StandardCycles.cs:174-179 | Kotori first and always; Shorty second, and only in debug mode. |
| Cycles.FirstMatch | NTumbleBit/ClassicTumbler/StandardCycles.cs:181-183 | The first element satisfying the predicate; None exactly when none does. |
| Cycles.StandardCycles.GetStandardCycleByName | NTumbleBit/ClassicTumbler/StandardCycles.cs:183 | A template whose name equals the given one ignoring case; None exactly when no enumerated template matches. |
| Cycles.StandardCycles.GetStandardCycleByParameters | NTumbleBit/ClassicTumbler/StandardCycles.cs:181 | A template with the same generator hash and denomination; None exactly when none matches. |
| RsaCore.RsaCoreEngine.Init | NTumbleBit/BouncyCastle/crypto/engines/RSACoreEngine.cs:25-35 | Non-RSA parameters fail with nothing changed. Otherwise it keeps the key and the direction, and bitSize becomes the modulus' bit length. |
| RsaCore.InputBlockSize | NTumbleBit/BouncyCastle/crypto/engines/RSACoreEngine.cs:44-52 | When encrypting, the whole bytes below the modulus' top bit (8r ≤ bitSize − 1 < 8r + 8). When decrypting, the bytes the modulus takes (8r ≥ bitSize > 8r − 8). |
| RsaCore.OutputBlockSize | NTumbleBit/BouncyCastle/crypto/engines/RSACoreEngine.cs:61-69 | The input block size of the opposite direction. |
| RsaCore.RsaCoreEngine.GetInputBlockSize | NTumbleBit/BouncyCastle/crypto/engines/RSACoreEngine.cs:44-52 | For an initialised engine: when encrypting, every block of at most this many bytes is below the modulus; when decrypting, every residue of the modulus fits in this many bytes. |
| RsaCore.RsaCoreEngine.GetOutputBlockSize | NTumbleBit/BouncyCastle/crypto/engines/RSACoreEngine.cs:61-69 | For an initialised engine: when encrypting, every residue of the modulus fits in this many bytes; when decrypting, every block of at most this many bytes is below the modulus. |
| RsaCore.BlockSizesFit | NTumbleBit/BouncyCastle/crypto/engines/RSACoreEngine.cs:44-69 | The plaintext block size keeps every block below a positive modulus, and the ciphertext block size holds every residue. |
| RsaCore.EncryptionBlocksFit | NTumbleBit/BouncyCastle/crypto/engines/RSACoreEngine.cs:44-52 | When encrypting, every block of at most the input block size is below the modulus. |
| RsaCore.RsaCoreEngine.ConvertInput | NTumbleBit/BouncyCastle/crypto/engines/RSACoreEngine.cs:71-87 | Accepts exactly when inLen ≤ (bitSize + 7) / 8 and the unsigned value is below the modulus. The result is that value, untruncated, in [0, modulus). Both rejections raise the same data-length error. |
| RsaCore.CopyToEnd | NTumbleBit/BouncyCastle/crypto/engines/RSACoreEngine.cs:100-105 | The bytes copied to the end of a zero-filled buffer of the output size: the left padding. |
| RsaCore.RsaCoreEngine.ConvertOutput | NTumbleBit/BouncyCastle/crypto/engines/RSACoreEngine.cs:89-109 | When encrypting, the minimal unsigned bytes left-padded to the output block size. When decrypting, the minimal unsigned bytes. |
| RsaCore.EncryptionOutputFits | NTumbleBit/BouncyCastle/crypto/engines/RSACoreEngine.cs:89-109 | For a result below the modulus, the encryption output is exactly the output block size and reads back as the result. |
| RsaCore.DecryptionOutputValue | NTumbleBit/BouncyCastle/crypto/engines/RSACoreEngine.cs:89-109 | The decryption output reads back as the result and takes (BitLength + 7) / 8 bytes. |
| RsaCore.ModPow | NTumbleBit/BouncyCastle/crypto/engines/RSACoreEngine.cs:147 | input^exponent mod modulus lies in [0, modulus). |
| RsaCore.CrtH | NTumbleBit/BouncyCastle/crypto/engines/RSACoreEngine.cs:135-138 | h is in [0, p), even when mP < mQ, and h ≡ (mP − mQ)·qInv (mod p). |
| RsaCore.CrtRecombine | NTumbleBit/BouncyCastle/crypto/engines/RSACoreEngine.cs:140-144 | m = h·q + mQ satisfies m < p·q and m ≡ mQ (mod q); when qInv·q ≡ 1 (mod p), also m ≡ mP (mod p). |
| RsaCore.CrtRecombineModP | NTumbleBit/BouncyCastle/crypto/engines/RSACoreEngine.cs:129-144 | With qInv·q ≡ 1 (mod p), h·q + mQ ≡ mP (mod p). |
| RsaCore.CrtProcess | NTumbleBit/BouncyCastle/crypto/engines/RSACoreEngine.cs:119-145 | The CRT result is below p·q and agrees modulo q (and, for a correct qInv, modulo p) with the two half exponentiations. |
| RsaCore.RsaCoreEngine.ProcessBlock | NTumbleBit/BouncyCastle/crypto/engines/RSACoreEngine.cs:111-148 | With CRT factors, CrtProcess; without them, input^exponent mod modulus. Without factors, a zero modulus is ModPow's non-positive-modulus error. With factors, a zero p or q is a division by zero in Remainder. These are the only failures. |
| ObjectIdentifier.IsValidBranchId | NTumbleBit/BouncyCastle/asn1/DerObjectIdentifier.cs:112-142 | The backward scan accepts exactly texts from start on that are a non-empty run of digits with single dots, neither leading nor trailing. |
| OidText.ValidBranchArcs | NTumbleBit/BouncyCastle/asn1/DerObjectIdentifier.cs:112-142 | A valid branch splits into non-empty digit runs. |
| OidText.ArcsMakeValidBranch | NTumbleBit/BouncyCastle/asn1/DerObjectIdentifier.cs:112-142 | Non-empty digit runs joined by dots form a valid branch that splits back into them. |
| ObjectIdentifier.IsValidIdentifier | NTumbleBit/BouncyCastle/asn1/DerObjectIdentifier.cs:144-154 | Accepts exactly: length ≥ 3, first character 0 to 2, a dot at index 1, and a valid branch from index 2. |
| OidText.IdentifierArcs | NTumbleBit/BouncyCastle/asn1/DerObjectIdentifier.cs:144-154 | A valid identifier has at least two arcs, all non-empty digit runs. |
| ObjectIdentifier.DerObjectIdentifier.Create | NTumbleBit/BouncyCastle/asn1/DerObjectIdentifier.cs:17-26 | Null is rejected, then a text that is not an OID; otherwise a fresh object holding the text. |
| ObjectIdentifier.DerObjectIdentifier.constructor | NTumbleBit/BouncyCastle/asn1/DerObjectIdentifier.cs:17-26 | Holds the validated text, with no body yet. |
| ObjectIdentifier.DerObjectIdentifier.OfBranch | NTumbleBit/BouncyCastle/asn1/DerObjectIdentifier.cs:28-34 | The identifier is stem + "." + branch. |
| ObjectIdentifier.DerObjectIdentifier.Branch | NTumbleBit/BouncyCastle/asn1/DerObjectIdentifier.cs:39 | An invalid branch is rejected; otherwise a fresh object with Id + "." + branch. |
| ObjectIdentifier.BranchSpelling | NTumbleBit/BouncyCastle/asn1/DerObjectIdentifier.cs:28-39 | Branching a valid identifier gives a valid identifier. |
| ObjectIdentifier.BranchIsOn | NTumbleBit/BouncyCastle/asn1/DerObjectIdentifier.cs:33-50 | A branch is On its stem, and its arcs are the stem's arcs followed by the branch's. |
| ObjectIdentifier.OnIffArcPrefix | NTumbleBit/BouncyCastle/asn1/DerObjectIdentifier.cs:46-51 | On holds exactly when the stem's arcs are a proper prefix of the identifier's arcs. |
| ObjectIdentifier.IsOn | NTumbleBit/BouncyCastle/asn1/DerObjectIdentifier.cs:46-51 | The identifier is on the stem exactly when it spells stem + "." + some branch text. |
| ObjectIdentifier.DerObjectIdentifier.On | NTumbleBit/BouncyCastle/asn1/DerObjectIdentifier.cs:46-51 | True exactly when the stem's arcs are a proper prefix of this identifier's arcs. |
| ObjectIdentifier.DerObjectIdentifier.FromBytes | NTumbleBit/BouncyCastle/asn1/DerObjectIdentifier.cs:53-57 | The text is read from the bytes, and a copy of the bytes is kept as the body. |
| Base128.WriteFieldLong | NTumbleBit/BouncyCastle/asn1/DerObjectIdentifier.cs:59-72 | The nine-byte buffer filled from the end writes exactly the subidentifier encoding of the value. |
| Base128.FillFlagged | NTumbleBit/BouncyCastle/asn1/DerObjectIdentifier.cs:85-91 | The loop leaves the buffer's length worth of low base-128 digits, each with 0x80 set. |
| Base128.ClearLastContinuation | NTumbleBit/BouncyCastle/asn1/DerObjectIdentifier.cs:92 | Clearing the last byte's 0x80 turns the flagged digits into the subidentifier. |
| Base128.WriteFieldBig | NTumbleBit/BouncyCastle/asn1/DerObjectIdentifier.cs:74-95 | The buffer sized from the bit length writes exactly the same encoding as the long overload; zero is a single 0x00. |
| Base128.SubidentifierForm | NTumbleBit/BouncyCastle/asn1/DerObjectIdentifier.cs:59-95 | The encoding is minimal: 0x80 on every byte but the last, no leading 0x80 byte, and [0] exactly for zero. |
| Base128.SubidentifierDecodes | NTumbleBit/BouncyCastle/asn1/DerObjectIdentifier.cs:59-95 | The encoding reads back as the value. |
| ObjectIdentifier.WriteArc | NTumbleBit/BouncyCastle/asn1/DerObjectIdentifier.cs:259-266 | Whichever overload the token's length selects, the field is the subidentifier of the token's value plus the offset. |
| ObjectIdentifier.TokenValues | NTumbleBit/BouncyCastle/asn1/DerObjectIdentifier.cs:253-279 | For a valid identifier, the first subidentifier is 40·first + second arc, and each later arc is one subidentifier. |
| ObjectIdentifier.FirstTokenDecides | NTumbleBit/BouncyCastle/asn1/DerObjectIdentifier.cs:255-256 | Among the texts an object can hold, int.Parse of the first token fails exactly for non-identifiers. |
| ObjectIdentifier.WriteTokens | NTumbleBit/BouncyCastle/asn1/DerObjectIdentifier.cs:255-279 | The token loop writes the subidentifiers of the values, the first two arcs merged. |
| ObjectIdentifier.WriteArcs | NTumbleBit/BouncyCastle/asn1/DerObjectIdentifier.cs:251-280 | The bytes written for a valid identifier are its body, EncodeBody. |
| ObjectIdentifier.DerObjectIdentifier.DoOutput | NTumbleBit/BouncyCastle/asn1/DerObjectIdentifier.cs:251-280 | A valid identifier gives EncodeBody; a text produced by Branch on an empty identifier fails with a format error. |
| ObjectIdentifier.DerObjectIdentifier.GetBody | NTumbleBit/BouncyCastle/asn1/DerObjectIdentifier.cs:236-249 | A stored body is returned unchanged. Otherwise DoOutput's body is computed, stored and returned. |
| OidCodec.SubidentifierValues | NTumbleBit/BouncyCastle/asn1/DerObjectIdentifier.cs:253-279 | One value fewer than there are arcs: the first two arcs merge. |
| ObjectIdentifier.StepCases | NTumbleBit/BouncyCastle/asn1/DerObjectIdentifier.cs:166-229 | One byte of the reader. A continued byte shifts. A final byte appends ".v" to the text; for the first subidentifier it appends "0.v", "1.(v−40)" or "2.(v−80)" for v < 40, v < 80 or otherwise. |
| ObjectIdentifier.ReadLongByte | NTumbleBit/BouncyCastle/asn1/DerObjectIdentifier.cs:170-202 | One byte read into the long accumulator matches one step of the reference reader. |
| ObjectIdentifier.ReadBigByte | NTumbleBit/BouncyCastle/asn1/DerObjectIdentifier.cs:203-228 | One byte read into the BigInteger accumulator (Or, Subtract, ShiftLeft) matches one step of the reference reader. |
| ObjectIdentifier.MakeOidStringFromBytes | NTumbleBit/BouncyCastle/asn1/DerObjectIdentifier.cs:158-232 | The text built equals OidStringOfBytes, the reference reader, across both accumulators. |
| OidCodec.DecodeSubidentifier | NTumbleBit/BouncyCastle/asn1/DerObjectIdentifier.cs:166-229 | Reading one subidentifier encoding appends exactly its value's text. |
| OidCodec.FirstArcsRoundTrip | NTumbleBit/BouncyCastle/asn1/DerObjectIdentifier.cs:175-197 | For a canonical identifier, the first subidentifier is read back as the first two arcs. |
| OidCodec.BodyRoundTrip | NTumbleBit/BouncyCastle/asn1/DerObjectIdentifier.cs:158-280 | Reading back the body of an identifier gives the identifier. This holds when no arc has a leading zero and, under first arc 0 or 1, the second arc is below 40. |
| OidCodec.DecodedIsIdentifierOrEmpty | NTumbleBit/BouncyCastle/asn1/DerObjectIdentifier.cs:158-232 | Any bytes read as the empty text or a valid identifier. |
| ObjectIdentifier.DerObjectIdentifier.Asn1Equals | NTumbleBit/BouncyCastle/asn1/DerObjectIdentifier.cs:99-108 | Equal exactly to an object identifier with the same text. |
| Asn1.GetInstance | NTumbleBit/BouncyCastle/asn1/DerInteger.cs:18-27 | Null and DER INTEGERs pass through; anything else is an illegal-object error. |
| Asn1.FromInt | NTumbleBit/BouncyCastle/asn1/DerInteger.cs:29-33 | An int value is stored in at most four bytes and reads back as itself. |
| Asn1.FromBigInteger | NTumbleBit/BouncyCastle/asn1/DerInteger.cs:35-42 | Null is rejected; otherwise Value gives the value back. |
| Asn1.DerInteger.Value | NTumbleBit/BouncyCastle/asn1/DerInteger.cs:50 | The signed reading lies in [−128·256^(n−1), 128·256^(n−1)); no bytes is an error. |
| Asn1.DerInteger.PositiveValue | NTumbleBit/BouncyCastle/asn1/DerInteger.cs:56 | The unsigned reading, ≥ 0 and below 256^n. |
| Asn1.IntegerRoundTrip | NTumbleBit/BouncyCastle/asn1/DerInteger.cs:35-50 | new DerInteger(v).Value == v, and the stored bytes are the minimal two's-complement form. |
| Asn1.PositiveValueAgrees | NTumbleBit/BouncyCastle/asn1/DerInteger.cs:50-56 | PositiveValue equals Value whenever Value ≥ 0. |
| Asn1.PositiveValueOfNegative | NTumbleBit/BouncyCastle/asn1/DerInteger.cs:50-56 | For a negative Value, PositiveValue is Value + 256^n. |
| Asn1.DerInteger.Encode | NTumbleBit/BouncyCastle/asn1/DerInteger.cs:58-62 | Tag 0x02, then the length, then the stored bytes unchanged. |
| Asn1.DecodeIntegerEncoding | NTumbleBit/BouncyCastle/asn1/DerInteger.cs:58-62 | The encoding reads back as the INTEGER tag and the stored bytes. |
| Asn1.ParseEncodeTlv | NTumbleBit/BouncyCastle/asn1/DerInteger.cs:61 | A DER tag-length-value reads back as its tag, content and what follows. |
| Asn1.EqualIntegersHashEqually | NTumbleBit/BouncyCastle/asn1/DerInteger.cs:64-75 | Whatever the array hash, Asn1GetHashCode agrees on integers Asn1Equals calls equal. |
| Asn1.Asn1Equals | NTumbleBit/BouncyCastle/asn1/DerInteger.cs:66-75 | Equal exactly when the other object is a DER INTEGER with this one's content; equal integers have the same signed and unsigned values. |
| RsaPublicKey.GetKeyInstance | NTumbleBit/BouncyCastle/asn1/pkcs/RSAPublicKeyStructure.cs:16-30 | Null and structures pass through, sequences are parsed, and anything else is rejected with its type name. |
| RsaPublicKey.Create | NTumbleBit/BouncyCastle/asn1/pkcs/RSAPublicKeyStructure.cs:32-47 | Rejects a null modulus, then a null exponent, then modulus ≤ 0, then exponent ≤ 0. Succeeds exactly when both are positive, keeping them. |
| RsaPublicKey.FromSequence | NTumbleBit/BouncyCastle/asn1/pkcs/RSAPublicKeyStructure.cs:49-58 | Any count but 2 is rejected. Two INTEGERs are read unsigned, through PositiveValue. |
| RsaPublicKey.NegativeEncodingsReadPositive | NTumbleBit/BouncyCastle/asn1/pkcs/RSAPublicKeyStructure.cs:55-57 | A negative INTEGER is accepted and read as its value + 256^n. |
| RsaPublicKey.RsaPublicKeyStructure.ToAsn1Object | NTumbleBit/BouncyCastle/asn1/pkcs/RSAPublicKeyStructure.cs:73-75 | SEQUENCE of the modulus, then the exponent, as INTEGERs holding those values. |
| RsaPublicKey.ParseToAsn1Object | NTumbleBit/BouncyCastle/asn1/pkcs/RSAPublicKeyStructure.cs:49-75 | Parsing ToAsn1Object gives back the same modulus and exponent. |
| RsaPublicKey.CreateRoundTrip | NTumbleBit/BouncyCastle/asn1/pkcs/RSAPublicKeyStructure.cs:32-75 | A key the public constructor accepts reads back as itself. |
| AlgorithmId.OfOid | NTumbleBit/BouncyCastle/asn1/X509/AlgorithmIdentifier.cs:12-16 | No parameters; it encodes as a sequence holding only the OID. |
| AlgorithmId.OfString | NTumbleBit/BouncyCastle/asn1/X509/AlgorithmIdentifier.cs:18-22 | Null and non-OID texts are rejected by the OID constructor; otherwise a fresh OID with that text and no parameters. |
| AlgorithmId.WithParameters | NTumbleBit/BouncyCastle/asn1/X509/AlgorithmIdentifier.cs:24-31 | Keeps the OID and the parameters. It encodes as [OID, parameters], or [OID, NULL] for null parameters. |
| AlgorithmId.AlgorithmIdentifier.ToAsn1Object | NTumbleBit/BouncyCastle/asn1/X509/AlgorithmIdentifier.cs:45-62 | The OID first. A second element exactly when parameters were given: the parameters, or NULL for null ones. |
| AlgorithmId.ToAsn1ObjectParses | NTumbleBit/BouncyCastle/asn1/X509/AlgorithmIdentifier.cs:45-62 | The encoding reads back as the OID text and the parameters, with null parameters as NULL. |
| AlgorithmId.NullParametersEncodeAsNull | NTumbleBit/BouncyCastle/asn1/X509/AlgorithmIdentifier.cs:49-58 | Null parameters encode like explicit NULL parameters, and differ from no parameters. |
| TrustedBroadcast.TrustedBroadcastRequest.BroadcastableHeight | NTumbleBit/TrustedBroadcastRequest.cs:37-47 | 0 when neither lock is a height lock. Otherwise it is one of the height locks present and at least each of them, which is their maximum. |
| TrustedBroadcast.TrustedBroadcastRequest.IsBroadcastableAt | NTumbleBit/TrustedBroadcastRequest.cs:32 | True exactly when the height has reached BroadcastAt and the transaction is final. Reading a time lock's height fails. |
| TrustedBroadcast.NotBroadcastableBeforeHeight | NTumbleBit/TrustedBroadcastRequest.cs:32 | Below BroadcastAt's height, never broadcastable. |
| TrustedBroadcast.Substitute | NTumbleBit/TrustedBroadcastRequest.cs:56-65 | Same length. Each placeholder push (71 zero bytes) becomes the signature push; every other op stays in place. |
| TrustedBroadcast.IsPlaceholder | NTumbleBit/TrustedBroadcastRequest.cs:65 | True exactly for an op pushing 71 bytes, all zero. |
| TrustedBroadcast.ReplacePlaceholders | NTumbleBit/TrustedBroadcastRequest.cs:56-60 | The foreach loop builds exactly Substitute. |
| TrustedBroadcast.SubstituteLeavesNoPlaceholder | NTumbleBit/TrustedBroadcastRequest.cs:56-65 | After substitution with a real signature, no placeholder remains. |
| TrustedBroadcast.SubstituteIdempotent | NTumbleBit/TrustedBroadcastRequest.cs:56-65 | Substituting twice is substituting once. |
| TrustedBroadcast.WithFirstPrevOut | NTumbleBit/TrustedBroadcastRequest.cs:51-52 | The copy differs only in input 0's previous outpoint. |
| TrustedBroadcast.TrustedBroadcastRequest.ReSign | NTumbleBit/TrustedBroadcastRequest.cs:49-63 | Fails exactly when there is no input, the script signature is empty, its last op pushes nothing, or the redeem script that push carries does not pay to the coin's output script (ToScriptCoin's check). Each case has its own error. Otherwise a copy in which only input 0's PrevOut and ScriptSig change. The ScriptSig's placeholders are replaced by ReSignSignature: the key's signature of the copy whose input 0 spends the coin, redeemed by the script the last push carries. The stored transaction is untouched. |
| Escrow.EscrowReceiver.ConfigureEscrowedCoin | NTumbleBit/EscrowReceiver.cs:34-38 | A null key fails with nothing changed. A null coin fails after the key was already stored. On success both are stored. |
| Escrow.EscrowReceiver.Id | NTumbleBit/EscrowReceiver.cs:32 | The hex of the coin's script bytes, twice their length, which decodes back to them; no coin, no id. |
| Escrow.SameIdSameScript | NTumbleBit/EscrowReceiver.cs:32 | Equal ids mean equal script bytes. |
| Blinding.FromBytes | NTumbleBit/BlindFactor.cs:12-17 | Null is rejected; otherwise the unsigned big-endian value, below 256^n. |
| Blinding.FromValue | NTumbleBit/BlindFactor.cs:19-22 | Null is rejected; otherwise the value is kept. |
| Blinding.BlindFactor.ToBytes | NTumbleBit/BlindFactor.cs:26 | Bytes that read back as the value, with no leading zero byte. |
| Blinding.ToBytesStripsZeros | NTumbleBit/BlindFactor.cs:12-26 | new BlindFactor(b).ToBytes() is b with its leading zero bytes stripped. |
| Blinding.ToBytesRoundTrip | NTumbleBit/BlindFactor.cs:12-26 | Re-reading ToBytes gives the same factor. |
| Mgf.MgfParameters.constructor | NTumbleBit/BouncyCastle/crypto/parameters/Mfg1Parameters.cs:16-23 | The seed is a fresh array equal to source[off, off + len). |
| Mgf.Create | NTumbleBit/BouncyCastle/crypto/parameters/Mfg1Parameters.cs:16-23 | A negative length, a null array, a negative offset and a range past the end are rejected, in that order. Otherwise a fresh copy of the range. |
| Mgf.CreateWhole | NTumbleBit/BouncyCastle/crypto/parameters/Mfg1Parameters.cs:10-14 | A null array fails when its length is read, a null reference distinct from the three-argument constructor's null check; otherwise a fresh copy of the whole seed. |
| Mgf.MgfParameters.GetSeed | NTumbleBit/BouncyCastle/crypto/parameters/Mfg1Parameters.cs:25 | A fresh array equal to the stored seed. |
| Mgf.SeedSurvivesSourceWrite | NTumbleBit/BouncyCastle/crypto/parameters/Mfg1Parameters.cs:21-22 | Writing to the caller's array afterwards leaves the stored seed as it was copied. |
| Mgf.SeedSurvivesCopyWrite | NTumbleBit/BouncyCastle/crypto/parameters/Mfg1Parameters.cs:25 | Writing to a GetSeed copy leaves the stored seed unchanged. |

## Left out

- BigInteger is not part of this model. Its behaviour is assumed as follows:
  - The signed constructor rejects an empty array.
  - The unsigned constructor reads an empty array as 0.
  - `ToByteArray` gives the minimal two's complement.
  - `ToByteArrayUnsigned` gives the minimal unsigned bytes, none for 0.
  - `ModPow` is taken for non-negative exponents only.
- Integers are unbounded. C# `int`/`long` overflow is modelled only where the source branches on it: the OID reader's `LONG_LIMIT` switch to BigInteger, `DoOutput`'s 18-digit token rule, and `DerInteger(int)`'s range.
- OidTokenizer, DerOutputStream, MemoryStream, Asn1EncodableVector, DerSequence and DerNull are not part of this model.
  - The tokenizer is modelled as splitting at every dot (`OidText.Arcs`).
  - Streams are modelled as the byte sequence written.
  - ASN.1 objects are the `Asn1.Asn1Object` datatype.
- `DerObjectIdentifier.FromOctetString`, its 1024-entry cache and the locks around the cache and `GetBody` are left out: there is no concurrency in this model. `GetBody` is a sequential lazy memo.
- Hash codes: `Arrays.GetHashCode` is not part of this model; it is a parameter function of the bytes, and only "equal bytes, equal hash" is proved. A string's `GetHashCode` is left out.
- `ObjectIdentifier.DerObjectIdentifier.DoOutput`: a text from `Branch` on an empty identifier makes `int.Parse("")` throw. This is modelled as a format error without the .NET message text.
- `Cycles.GetBlocksCount`: the `double` division and `Math.Ceiling` are modelled as exact integer ceiling division of ticks. This is exact for spacings and minute counts whose tick counts a double holds.
- `StandardCycle.CoinsPerDay` (decimal division) is left out.
- `CycleParameters.GetPeriods` and `OverlappedCycleGenerator.GetCycles`/`GetHash` are not part of this model.
  - Periods are assumed to be the seven phases, consecutive in declaration order.
  - The cycles at a height are assumed to be the generations shifted by multiples of the non-overlapped part whose Total period contains the height.
  - The generator hash is a parameter function.
- The self-check's `maxOverlapped` is computed but unused by the source; the model keeps it only as the bound on the cycles active at once.
- The self-check records `Hash256` of the serialised residue vector. The model compares the vectors themselves, so hash collisions are not modelled.
- `StandardCycles(Network)`: which networks count as debug (`IsDebug`) is left out. The constructor taking the debug flag is modelled.
- `Cycles.StandardCycles.GetStandardCycleByName`: OrdinalIgnoreCase is modelled as upper-casing ASCII letters only.
- RsaCoreEngine:
  - The `inOff + inLen` array bound is a precondition of `ConvertInput`, since `BigInteger`'s own range check is not part of this model.
  - The RSA key parameters' own validity checks are not part of this model.
  - `RsaPrivateCrtKeyParameters` is an `RsaKey` with CRT factors.
- `RsaCore.CrtRecombine`: m ≡ mP (mod p) is stated under qInv·q ≡ 1 (mod p), a property of well-formed CRT keys that the source does not check.
- `BlindFactor`: a null `BigInteger` is modelled as `None`. Negative values of the internal constructor are excluded by the `nat` type.
- `AlgorithmIdentifier(DerObjectIdentifier)` and `AlgorithmIdentifier(DerObjectIdentifier, Asn1Encodable)`: the source stores a null `objectID` without a check. The model's `objectID` is never null, so that case and the null reference `ToAsn1Object` would later hit are not modelled.
- `DerInteger(byte[])`: the source stores a null array without a check. The model's `bytes` is never null, so the null references `Value`, `PositiveValue` and encoding would later hit are not modelled.
- `TrustedBroadcastRequest`:
  - `Transaction.IsFinal` reads the clock and is a boolean parameter of `IsBroadcastableAt`.
  - `SignInput` and `Script` parsing belong to NBitcoin and are parameter functions of `Bitcoin.Chain`. Cloning is a value copy.
  - `Op.GetPushOp`'s special opcodes for small pushes are not modelled: every push carries its data.
  - The exceptions NBitcoin raises on a missing input, an empty script, a last op pushing nothing and an incoherent redeem script are the four cases of `TrustedBroadcast.ReSignError`, without their .NET messages.
- TrustedBroadcast.TrustedBroadcastRequest.ReSign: `ToScriptCoin`'s coherence check is modelled for pay-to-script-hash coins only (the redeem script's `p2shScriptPubKey` must be the coin's output script). NBitcoin's acceptance of segregated-witness script coins is not modelled, so such a coin fails here.
- `EscrowReceiver`: `InternalState` is held as the receiver's own fields. The subclasses that create it (`PromiseServerSession`, `SolverServerSession`) are not part of this model.
- `ServerChannelNegotiation`:
  - `GetChannelId` and the `GetCycle` methods are left out; the lock times and cycle starts are parameter functions of the cycle generator.
  - `Money` arithmetic is unbounded integers.
  - Null parameters fail the base constructor with a null reference, so the derived constructors' own null check is unreachable and not modelled.
  - The sessions' internals are left out; only what `ConfigureEscrowedCoin` receives is modelled.
  - `Restore` is not handed a null state.
- `ToScriptCoin` in `ConfirmAliceEscrow` and `SetSignedTransaction`: its coherence check is not modelled there, because it holds by construction. Each session locates the output by the escrow script's P2SH output script, so the script always pays to that output.
- Negotiation.TumblerAliceServerSession.ConfirmAliceEscrow: the voucher's `WithRsaKey(VoucherKey.PubKey)` is folded into the given `solve` function.
- Randomness (`new Key()`, the puzzle solution chosen by `GeneratePuzzle`) is a parameter of the call.
