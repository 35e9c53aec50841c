# Verification of external signatures for Solana

The repository lets a P-256 passkey (WebAuthn) authorise on-chain execution on Solana. A browser signs a
challenge; the TypeScript SDK turns the result into a precompile instruction and a program instruction; the
program rebuilds the signed document, checks it against the account of the passkey, and makes the requested
calls. This project models both sides in Dafny and proves that they fit together.

The main results, each for all inputs or all runs:

- **The two ends meet.** Whatever the SDK builds and the browser signs, the program accepts and runs as exactly the
  requested batch of calls (`Acceptance`). Whatever the program executes, the message it reads from the transaction
  stands under the key of the account and asserts that very action, with a nonce from a slot at most 149 slots old;
  signature, key and message may each stand in the precompile instruction or in any other instruction of the
  transaction (`Soundness`, `Precompile`). Over whole runs that key belongs to the address of the account, and a
  message with a nonzero counter is never honoured again (`RunSoundness`). Unless two byte strings, named by the two
  instructions, collide under SHA-256, one signed message stands for one action of one kind (`Authorisation`), and is
  honoured again only as that action within the nonce window (`RunSoundness`).
- **What a success is.** For each of the four instructions a success with a given outcome is characterised, in both
  directions, over the bytes, accounts and transaction it was given: which bytes stand where, which account is at which
  derived address, which key the precompile checked, what is stored, and every field of every call (`Effects`). Each
  refusal has its own error, in the order of the checks (`Refusals`).
- **State over runs.** Initialisation happens at most once, keys never change, counters only rise, and a session key
  works only from its storing until its expiration (`Runs`). The slot-hash nonce is obtainable for exactly its window
  as the slot list evolves (`Nonce`, `NonceRuns`).
- **Exact parsers and formats.** The DER, SPKI, CBOR and registration-data parsers accept exactly the encodings and
  invert them (`Der`, `Spki`, `Cbor`, `AttestedCredential`); the wire formats round-trip across the two languages in
  both directions (`Wire`, `WireExact`, `SmallVecIo`); the rebuilt clientDataJSON is injective and agrees across
  languages (`ClientData`, `TemplateInjective`, `ClientDataParser`); challenge payloads are injective and separate
  (`Preimages`, `Challenges`); the precompile layout is read back (`Precompile`). The formats are also read by offset,
  with short encodings written out (`Layouts`).
- **The executor.** The batch loop over reused buffers makes exactly the calls of its instructions and gains no
  privilege (`Batch`). The bump allocator hands out disjoint aligned blocks over every request sequence (`Allocator`).

## How the model is laid out

Bytes are integers below 256 and byte strings are sequences of them. A thrown SDK error is `None`; a program error is
a `Result` that carries the error, and every aborting panic is `Err(Panicked)`. Code that works step by step is a
method or a class with fields, proved equal to a function; the laws are lemmas about those functions.

`Passkey.Runtime` holds what the program takes from the runtime: SHA-256 and program address derivation as arbitrary
functions, and the well-known addresses as arbitrary keys. No lemma assumes that SHA-256 is injective: a law that
depends on it names the two byte strings that would collide. `Instructions.Environment` holds what one instruction
sees: the slot list, the clock, the call depth, the transaction, whether the system program created the account, and
the verdict of the runtime on each call. A failed instruction changes nothing: `Runs.Step` keeps the old account.

Integer widths are explicit where they matter: JavaScript's 32-bit shifts in `Der`, the checked `u16` arithmetic of
`Nonce`, the wrapping `u64` and `i64` additions of `Passkey`, the one-byte counts of `Preimages`.

The standards behind the formats are ITU-T X.690 (DER, sections 8.3 and 10.1), RFC 3279 (section 2.2.3), RFC 5480
(section 2), RFC 8949 (section 3), RFC 4648 (section 5) and WebAuthn Level 2 (sections 5.8.1.1, 6.1.1 and 6.5.1).

## Where the code and its documentation differ

The model follows the code in each case.

- `src/utils/nonce.rs:15-17` speaks of the last four digits of the slot height; the code keeps the value modulo 1000.
- `docs/nonce_mechanism.md:77` puts the signer before the slot hash; the code puts the slot hash first.
- An expiration is absolute in the arguments of an initialisation and a duration in those of a refresh.
- No build profile turns overflow checks on, so `now as u64 + limit` and `now + duration` wrap in a release build.

## Model

| member | source | states |
|---|---|---|
| `Der.ParseDerSignatureToCompact` | sdks/ts-sdk/src/webauthn.ts:202-236 | Succeeds if and only if the bytes are the canonical DER encoding of some (r, s), both in [1, n-1], and then returns 32-byte r followed by 32-byte min(s, n-s) |
| `Der.CompactOfEncoding` | sdks/ts-sdk/src/webauthn.ts:202-236 | Every encoded pair has its compact form as meaning: decoding inverts encoding |
| `Der.SignatureUnique` | sdks/ts-sdk/src/webauthn.ts:202-236 | A byte string is the encoding of at most one pair |
| `Der.MirroredSignature` | sdks/ts-sdk/src/webauthn.ts:220-225 | (r, s) and (r, n-s) have the same compact form |
| `Der.CompactDetermines` | sdks/ts-sdk/src/webauthn.ts:220-225 | The compact form determines r, and s up to sign |
| `Der.WalkDecides` | sdks/ts-sdk/src/webauthn.ts:209-218 | Reading a sequence header and two integers, and nothing after them, finds exactly the encoded pairs |
| `Der.ReadDerLength` | sdks/ts-sdk/src/webauthn.ts:497-518 | Reads a length if and only if it stands there in its shortest form, through 32-bit shifts that can go negative |
| `Der.ReadDerInteger` | sdks/ts-sdk/src/webauthn.ts:520-539 | Reads an integer if and only if a minimal positive INTEGER below the order stands there |
| `Der.CanonicalIffMinimal` | sdks/ts-sdk/src/webauthn.ts:541-547 | The leading-byte test holds exactly for the minimal encoding of the value it reads |
| `Der.DerIntegerToBigInt` | sdks/ts-sdk/src/webauthn.ts:549-556 | The hexadecimal detour computes the big-endian value |
| `Der.BigIntTo32Bytes` | sdks/ts-sdk/src/webauthn.ts:558-563 | Padded hexadecimal digits are the 32-byte big-endian form of any value below the order |
| `Spki.DecodeSpkiP256PublicKey` | sdks/ts-sdk/src/webauthn.ts:125-199 | Succeeds if and only if the bytes are the SubjectPublicKeyInfo of an uncompressed P-256 point, and returns its coordinates with the parity prefix |
| `Spki.KeyOfEncoding` | sdks/ts-sdk/src/webauthn.ts:125-199 | Every pair of coordinates is read back from its encoding |
| `Spki.WalkDecidesSpki` | sdks/ts-sdk/src/webauthn.ts:130-189 | Walking the nested elements and testing the leaves accepts exactly the encodings |
| `Spki.ReadDerElement` | sdks/ts-sdk/src/webauthn.ts:565-578 | Reads an element if and only if its tag, shortest length and whole content stand there |
| `Spki.BytesEqual` | sdks/ts-sdk/src/webauthn.ts:580-586 | The comparison loop decides equality |
| `Cbor.SkipCborItem` | sdks/ts-sdk/src/webauthn.ts:391-452 | The recursive method with its loops computes the skipping function, and terminates whatever counts are claimed |
| `Cbor.SkipElements` | sdks/ts-sdk/src/webauthn.ts:412-426 | The array loop skips as many items as claimed |
| `Cbor.SkipEntries` | sdks/ts-sdk/src/webauthn.ts:427-442 | The map loop skips twice as many items as claimed entries |
| `Cbor.Skip` | sdks/ts-sdk/src/webauthn.ts:391-452 | Every success moves strictly forward and stays within the buffer |
| `Cbor.SkipMany` | sdks/ts-sdk/src/webauthn.ts:412-442 | Skipping a number of items consumes at least one byte for each |
| `Cbor.SkipsOverItem` | sdks/ts-sdk/src/webauthn.ts:391-452 | For every definite-length item, at any nesting depth and argument width, skipping its encoding followed by anything stops at its end |
| `Cbor.SkipIsExact` | sdks/ts-sdk/src/webauthn.ts:391-452 | Skipping ends at an offset if and only if an encoded item ends there |
| `Cbor.HeadReads` | sdks/ts-sdk/src/webauthn.ts:454-495 | The argument reader reads back the major type and argument of every head |
| `Cbor.ReadIsHead` | sdks/ts-sdk/src/webauthn.ts:454-495 | Whatever the argument reader accepts is a head of the announced width with an argument of at most 2^53-1 |
| `AttestedCredential.ParseAttestedCredentialData` | sdks/ts-sdk/src/webauthn.ts:306-353 | The running-offset parser computes the credential, for any CBOR decoder of the key |
| `AttestedCredential.ParseIsExact` | sdks/ts-sdk/src/webauthn.ts:306-378 | A credential is returned if and only if the bytes assemble its parts around the bytes of a P-256 COSE key, and its key is that point with the parity prefix |
| `AttestedCredential.CoseKeyIsExact` | sdks/ts-sdk/src/webauthn.ts:355-372 | A decoded map yields a key if and only if it names an EC2 key for ES256 on P-256 with two 32-byte coordinates, and yields the key of that point |
| `AttestedCredential.ExposedKeyMatches` | sdks/ts-sdk/src/webauthn.ts:83-92 | The SubjectPublicKeyInfo a browser exposes passes both comparisons with the attested key if and only if it is the encoding of the attested point |
| `AttestedCredential.SplitIsExact` | sdks/ts-sdk/src/webauthn.ts:306-353 | The split exists if and only if the bytes are the assembly of those parts, one CBOR key and, when flagged, extensions |
| `Nonce.ReverseLinearSearchSlotHash` | src/utils/nonce.rs:66-82 | The backward loop computes the backward search |
| `Nonce.FindIsFullScan` | src/utils/nonce.rs:85-108 | Over every strictly descending list, looking up the slot d below the newest at index d returns what a scan of the whole list returns |
| `Nonce.OlderByIndex` | src/utils/nonce.rs:85-108 | An entry at index i is at least i slots older than the newest, so none that is d older sits past index d |
| `Nonce.DifferenceResolves` | src/utils/nonce.rs:22-49 | Through the checked u16 arithmetic, two truncated slots resolve to the one difference below 1000 |
| `Nonce.NonceAcceptance` | src/utils/nonce.rs:111-155 | Validation succeeds if and only if the value is below 1000, the call is no CPI, the signer signed, and a listed slot at most 149 old has that value modulo 1000; that slot is unique and its hash is returned |
| `Nonce.ValidatedInWindow` | src/utils/nonce.rs:132-154 | Whatever validates names a listed slot in the window and returns its hash |
| `NonceRuns.ProduceIsCappedHistory` | tests/p256/utils/svm.rs:149-156 | Pushing slots one by one onto the capped list keeps the newest 512 of the whole history |
| `NonceRuns.RunKeepsDescending` | tests/p256/utils/svm.rs:149-156 | Pushing strictly newer slots keeps the list strictly descending and within its capacity |
| `NonceRuns.ObtainableInWindow` | src/utils/nonce.rs:132-154 | The hash of a produced slot s validates at every later state with newest height up to s+149 |
| `NonceRuns.GoneAfterWindow` | src/utils/nonce.rs:132-154 | With distinct hashes it validates at no later state, even when another slot shares s modulo 1000 |
| `Allocator.BumpAllocator.Alloc` | src/allocator.rs:105-122 | One allocation takes the step of the specification: a block at the aligned cursor that ends within the heap, or a null that leaves the cursor unchanged |
| `Allocator.AlignUpIsLeast` | src/allocator.rs:115 | The mask expression is the least multiple of a power-of-two alignment at or above the cursor |
| `Allocator.AlignedIsMultiple` | src/allocator.rs:115 | Having k zero low digits is being a multiple of 2^k |
| `Allocator.AllocatorSafety` | src/allocator.rs:105-122 | Over every sequence of requests, every block is aligned, lies after the reserved bytes and within the heap, and is disjoint from every earlier one |
| `Text.Utf8Exact` | src/utils/signatures/p256_webauthn/client_data_json.rs:142-146 | UTF-8 decoding accepts exactly the encodings of texts and inverts them |
| `Text.Base64UrlExact` | sdks/ts-sdk/src/crypto.ts:11-17 | Unpadded base64url decodes a text to bytes if and only if the bytes encode to the text |
| `Text.Base64UrlInjective` | src/utils/signatures/p256_webauthn/client_data_json.rs:127 | Equal base64url texts come from equal bytes |
| `Text.DecimalReads` | src/utils/signatures/p256_webauthn/client_data_json.rs:142-143 | The printed port reads back as the port |
| `ClientData.NewWithOptionalCrossOrigin` | src/utils/signatures/p256_webauthn/client_data_json.rs:45-75 | The or-ing constructor builds the flag byte whose accessors return the arguments |
| `ClientData.CreateClientDataJsonReconstructionParams` | sdks/ts-sdk/src/clientDataJson.ts:19-31 | The SDK constructor builds the same byte |
| `ClientData.CreateParams` | src/utils/signatures/p256_webauthn/client_data_json.rs:78-104 | The accessors read back type, crossOrigin presence and value, scheme, extra field and port from the packed byte |
| `ClientData.PackInverts` | src/utils/signatures/p256_webauthn/client_data_json.rs:45-104 | Packing what a flag byte means gives the byte back if and only if it is canonical |
| `ClientData.ReconstructClientDataJson` | src/utils/signatures/p256_webauthn/client_data_json.rs:121-181 | The appending reconstruction writes exactly the template, or panics on a relying party id that is not UTF-8 |
| `ClientData.TsIsTemplate` | sdks/ts-sdk/src/clientDataJson.ts:42-72 | The SDK reconstruction is the template for all parameters |
| `ClientData.Agreement` | src/utils/signatures/p256_webauthn/client_data_json.rs:121-181 | Program and SDK reconstruct the same bytes for all parameters |
| `TemplateInjective.TemplateIsInjective` | src/utils/signatures/p256_webauthn/client_data_json.rs:121-181 | For a fixed relying party, documents are equal if and only if challenge, type, scheme, port, crossOrigin and extra field are |
| `TemplateInjective.ReconstructionDetermines` | src/utils/signatures/p256_webauthn/client_data_json.rs:121-181 | The same for the bytes the program rebuilds |
| `ClientDataParser.ObjectRoundTrip` | sdks/ts-sdk/src/webauthn.ts:243 | Parsing the text of a flat JSON object returns its members |
| `ClientDataParser.ParseOfTemplate` | sdks/ts-sdk/src/webauthn.ts:239-285 | Parsing a template document returns its packed meaning, with a default or zero port seen as the URL parser sees it |
| `ClientDataParser.ParamsRoundTrip` | sdks/ts-sdk/src/webauthn.ts:239-285 | Parsing the reconstruction returns the same parameters if and only if the flags are canonical and the port is absent, or nonzero and not the default of the scheme |
| `ClientDataParser.BytesRoundTrip` | sdks/ts-sdk/src/webauthn.ts:239-285 | Reconstructing the parsed parameters gives the same bytes if and only if the port is so |
| `Wire.ConcatBytes` | sdks/ts-sdk/src/bytes.ts:38-48 | The copying loop computes the concatenation |
| `WireExact.OptionU16Exact` | sdks/ts-sdk/src/serialize.ts:32-37 | The SDK encodes an optional port as bytes exactly when the program reads the port from them |
| `WireExact.ParamsExact` | sdks/ts-sdk/src/serialize.ts:39-43 | The same for the reconstruction parameters |
| `WireExact.SmallVecU8Exact` | sdks/ts-sdk/src/serialize.ts:45-48 | The same for byte vectors with a one-byte length |
| `WireExact.SmallVecU16Exact` | sdks/ts-sdk/src/serialize.ts:50-53 | The same for byte vectors with a two-byte length |
| `WireExact.SessionKeyExact` | sdks/ts-sdk/src/serialize.ts:55-60 | The same for session keys |
| `WireExact.CompiledInstructionExact` | sdks/ts-sdk/src/serialize.ts:84-96 | The same for one compiled instruction |
| `WireExact.CompiledInstructionsExact` | sdks/ts-sdk/src/serialize.ts:98-106 | The same for the counted list of instructions |
| `WireExact.VerificationDataRoundTrip` | sdks/ts-sdk/src/serialize.ts:62-69 | Verification data encodes to bytes if and only if exactly these bytes decode to it |
| `WireExact.InitializationDataRoundTrip` | sdks/ts-sdk/src/serialize.ts:71-82 | The same for initialisation data |
| `WireExact.ExecuteRoundTrip` | sdks/ts-sdk/src/serialize.ts:161-175 | The same for execute arguments: the decoder returns the encoded value, and accepts in full only the encoding of one value |
| `WireExact.SessionedRoundTrip` | sdks/ts-sdk/src/serialize.ts:191-201 | The same for sessioned arguments |
| `WireExact.RefreshRoundTrip` | sdks/ts-sdk/src/serialize.ts:177-189 | The same for refresh arguments |
| `WireExact.InitializeRoundTrip` | sdks/ts-sdk/src/serialize.ts:145-159 | The same for initialise arguments |
| `Wire.TakeEach` | src/utils/small_vec.rs:78-97 | A decoded vector has exactly the announced number of elements |
| `SmallVecIo.Reader.ReadSmallVecU8` | src/utils/small_vec.rs:73-98 | Reading from a mutable reader returns what the decoder returns and leaves what it leaves |
| `SmallVecIo.Reader.ReadSmallVecU16` | src/utils/small_vec.rs:73-98 | The same with a two-byte length |
| `SmallVecIo.Reader.ReadCompiledInstruction` | src/utils/instructions.rs:10-16 | The same for one compiled instruction |
| `SmallVecIo.Reader.ReadCompiledInstructions` | src/utils/small_vec.rs:73-98 | The pushing loop reads the vector of instructions |
| `SmallVecIo.Reader.ReadEach` | src/utils/small_vec.rs:87-93 | With that many elements still to read, the pushing loop returns what they decode to and leaves the rest |
| `SmallVecIo.PrependOne` | src/utils/small_vec.rs:87-93 | Pushing one more element does not change what the whole vector is |
| `SmallVecIo.Writer.WriteSmallVecU8` | src/utils/small_vec.rs:51-60 | Writing succeeds exactly when the SDK encodes, and appends the same bytes |
| `SmallVecIo.Writer.WriteSmallVecU16` | src/utils/small_vec.rs:62-71 | The same with a two-byte length |
| `SmallVecIo.Writer.WriteCompiledInstruction` | src/utils/instructions.rs:10-16 | The same for one compiled instruction |
| `SmallVecIo.Writer.WriteCompiledInstructions` | src/utils/small_vec.rs:112-121 | The same for the loop over instructions |
| `SmallVecIo.EachAppend` | src/utils/small_vec.rs:112-121 | Serialising one more element appends its encoding |
| `Preimages.ExecutePreimageInjective` | src/instructions/execute_instructions.rs:125-151 | With at most 255 accounts, execute payloads are equal if and only if slot hash, signer, every account key and flag and every instruction are |
| `Preimages.CountWrapsAt256` | src/instructions/execute_instructions.rs:133 | The bound is sharp as a fact about the byte format: with 256 accounts the count byte wraps and another list has the same payload. Neither list reaches the chain: one has an instruction with 8700 data bytes and the other 256 accounts, which no transaction carries, and the SDK refuses the second |
| `Preimages.RefreshPreimageInjective` | src/instructions/refresh_session_key.rs:100-112 | Refresh payloads are equal if and only if nonce and session key are |
| `Preimages.InitializePreimageInjective` | src/instructions/initialize_external_account.rs:164-182 | Initialise payloads are equal if and only if nonce and optional session key are |
| `Preimages.KindsAreSeparate` | src/instructions/execute_instructions.rs:125-151 | No byte string is a payload of two kinds |
| `Preimages.Utf8OfAscii` | src/instructions/execute_instructions.rs:130 | A byte-string tag is the UTF-8 form of its text |
| `Challenges.BuildExecutePayload` | src/instructions/execute_instructions.rs:125-151 | The extended vector holds exactly the execute payload |
| `Challenges.WriteAccounts` | src/instructions/execute_instructions.rs:136-143 | The account loop appends key, signer byte and writable byte of each account in order |
| `Challenges.WriteInstructions` | src/instructions/execute_instructions.rs:146-149 | The instruction loop appends every serialised instruction in order |
| `Challenges.BuildRefreshPayload` | src/instructions/refresh_session_key.rs:100-112 | The extended vector holds exactly the refresh payload |
| `Challenges.BuildInitializePayload` | src/instructions/initialize_external_account.rs:164-182 | The extended vector holds exactly the initialise payload |
| `Challenges.ExecuteChallengeAgrees` | sdks/ts-sdk/src/challenges.ts:39-56 | The SDK hashes the payload of the program for all accounts and instructions a byte can count, and throws otherwise |
| `Challenges.RefreshChallengeAgrees` | sdks/ts-sdk/src/challenges.ts:59-74 | The same for a refresh |
| `Challenges.InitializeChallengeAgrees` | sdks/ts-sdk/src/challenges.ts:21-36 | The same for an initialisation |
| `Challenges.MetasAreAccounts` | sdks/ts-sdk/src/serialize.ts:203-215 | The encoded metas are the account part of the payload |
| `Precompile.ParserRecovers` | src/utils/precompiles.rs:138-238 | In any transaction, from the layout of the SDK the parser recovers exactly one signature, and exactly its compact form, key and message |
| `Precompile.PayloadExact` | src/utils/precompiles.rs:138-238 | A payload is read if and only if its signature, key and message stand where the offsets, byte by byte, say, in this or another instruction |
| `Precompile.CreateSecp256r1Instruction` | sdks/ts-sdk/src/instructions.ts:91-121 | Builds the layout for exactly the canonical DER signatures, 33-byte keys and messages of at most 65535 bytes |
| `Precompile.TsLayout` | sdks/ts-sdk/src/instructions.ts:97-114 | The twelve concatenated parts are the header followed by key, signature and message |
| `Precompile.RawSliceWithin` | src/utils/precompiles.rs:103-112 | The unchecked slice of another instruction is the checked one wherever it lies within that instruction, whatever the memory behind holds |
| `Precompile.ReferringRecovers` | src/utils/precompiles.rs:138-238 | A key that stands in another instruction of the transaction is read from there, with the signature and the message of the Rust layout |
| `Precompile.CreateSecp256r1InstructionRust` | sdks/rust-sdk/src/instructions/precompile.rs:19-75 | From a DER signature, the Rust builder lays out the bytes of the TypeScript layout for an inline key and of the referring layout for a key in another instruction, and refuses long messages and signatures |
| `Precompile.ParseDerSignatureToCompactRust` | sdks/rust-sdk/src/instructions/precompile.rs:77-117 | Padding both numbers to 32 bytes and subtracting a high s from the order gives the compact form, and an error exactly when a number needs more than 32 bytes |
| `Precompile.CompactsAgree` | sdks/rust-sdk/src/instructions/precompile.rs:77-117 | On every pair the TypeScript SDK accepts, both SDKs give the same compact signature |
| `Passkey.ExternalAccount.Initialize` | src/state/p256_webauthn/trait_impl.rs:49-72 | Writes exactly the initialised fields in place, or refuses a session key past the limit |
| `Passkey.ExternalAccount.InitializeHeader` | src/state/externally_signed_account/account.rs:154-158 | Sets version and scheme and nothing else |
| `Passkey.ExternalAccount.Verify` | src/state/p256_webauthn/trait_impl.rs:119-197 | Returns the specified error, or leaves exactly the specified data |
| `Passkey.FirstSignatureExact` | src/state/p256_webauthn/trait_impl.rs:125-140 | A payload is read if and only if the first instruction is the precompile's, counts one signature, and the payload stands at its offsets |
| `Passkey.FirstSignatureRefuses` | src/state/p256_webauthn/trait_impl.rs:125-137 | No instruction, another program, no data, and any other count are refused, each by its own error |
| `Passkey.CounterReads` | src/utils/signatures/p256_webauthn/authenticator_data.rs:32-34 | Behind any hash and flag byte, the counter is the number in the four big-endian bytes |
| `Passkey.ExternalAccount.VerifyAssertion` | src/state/p256_webauthn/trait_impl.rs:140-196 | The same for the part after the public key check |
| `Passkey.ExternalAccount.StoreSessionKey` | src/state/p256_webauthn/trait_impl.rs:234-245 | Stores exactly the key, or refuses an expiration past the limit |
| `Passkey.ExternalAccount.Create` | src/instructions/initialize_external_account.rs:128-161 | Leaves zeroed data owned by the program |
| `Passkey.RefreshIsModular` | src/instructions/refresh_session_key.rs:146-150 | Through all casts and the wrapping i64 addition, the computed expiration is now plus duration modulo 2^64 |
| `Passkey.RefreshArithmetic` | src/instructions/refresh_session_key.rs:146-156 | At every nonnegative time, a refresh stores now plus duration exactly when the duration is within the limit, stores an expiration before now exactly when the sum passes 2^64, and refuses otherwise |
| `Authorisation.VerifyExact` | src/state/p256_webauthn/trait_impl.rs:119-197 | Verification succeeds if and only if what the parser reads as the single signature, inline or from other instructions, has the key of the account and a message that is authenticator data for this account followed by the hash of the template document over the payload; it then changes only the counter |
| `Authorisation.OneMessageOnePayload` | src/state/p256_webauthn/trait_impl.rs:173-185 | A message that verifies for two payloads exhibits a hash collision between their documents |
| `Authorisation.PreimageDetermines` | src/instructions/execute_instructions.rs:125-151 | Payloads of actions of any kind are equal if and only if the actions are |
| `Authorisation.OneMessageOneAction` | docs/nonce_mechanism.md:72-84 | A signed message verifies for one action only, whatever the kinds, unless two named byte strings collide |
| `Batch.Buffers.Collect` | src/instructions/execute_instructions.rs:190-200 | From cleared buffers, one pass leaves the mapped metas and the distinct indices, or reports an index out of bounds |
| `Batch.InvokeAll` | src/instructions/execute_instructions.rs:184-235 | The loop over reused buffers makes exactly the calls of the specification |
| `Batch.InvokeAllSessioned` | src/instructions/execute_instructions_sessioned.rs:115-163 | The second copy of the loop makes the same calls |
| `Batch.BatchExact` | src/instructions/execute_instructions.rs:184-235 | A batch succeeds with these calls if and only if they are its instructions in order, each built from its own indices alone, none to this program, each let through |
| `Batch.DistinctIsFirstOccurrences` | src/instructions/execute_instructions.rs:196-199 | The account infos of a call are the distinct listed indices in order of first occurrence |
| `Batch.CallConserves` | src/utils/instructions.rs:19-43 | The metas of one call ask for no privilege beyond those passed, save the signature of the execution account, which is never writable when it is the passkey account itself |
| `Batch.CallExact` | src/instructions/execute_instructions.rs:186-226 | A call is built from an instruction if and only if its program, data, metas, accounts and signer are, field by field, those at the indices of the instruction |
| `Batch.MetaExact` | src/utils/instructions.rs:19-43 | Each meta keeps the key, signs exactly when the account does or is the executing one, and is writable exactly when the account is, save the passkey account that signs for itself |
| `Batch.BatchMeans` | src/instructions/execute_instructions.rs:184-235 | A batch succeeds if and only if its calls, field by field and over the accounts alone, are those of its instructions, none to this program, each let through |
| `Batch.BatchStops` | src/instructions/execute_instructions.rs:190-235 | The first instruction that cannot be called stops the batch: an index past the accounts or 63 and a call to this program panic, and a refused call fails |
| `Batch.PrivilegeConservation` | src/utils/instructions.rs:19-43 | The same over every call of every successful batch, and no call targets this program |
| `Instructions.ProcessExecuteInstructions` | src/instructions/execute_instructions.rs:155-236 | The instruction over the account in place returns the specified error, or makes the specified calls and leaves the specified account |
| `Instructions.ProcessExecuteInstructionsSessioned` | src/instructions/execute_instructions_sessioned.rs:96-164 | The same for sessioned execution, which leaves the account unchanged |
| `Instructions.ProcessRefreshSessionKey` | src/instructions/refresh_session_key.rs:116-159 | The same for refresh |
| `Instructions.ProcessInitializeExternalAccount` | src/instructions/initialize_external_account.rs:186-236 | The same for initialisation |
| `Instructions.VerifyAndInvoke` | src/instructions/execute_instructions.rs:170-235 | Hash, verify, then run the batch |
| `Instructions.VerifyAndRefresh` | src/instructions/refresh_session_key.rs:131-158 | Hash, verify, then store the refreshed key |
| `Instructions.CreateInitializeVerify` | src/instructions/initialize_external_account.rs:204-235 | Hash, create, initialise, then verify against what was just stored |
| `Instructions.LoadInitialize` | src/instructions/initialize_external_account.rs:54-125 | What loads is an unallocated account of the system program at the address of its key, behind the two sysvars and the system program, with the nonce that validation returns, and initialisation data that decode to a quote-free relying party id of at most 32 bytes and a 33-byte key |
| `Runs.StepKeeps` | src/state/p256_webauthn/trait_impl.rs:187-195 | Every instruction keeps key and relying party and never lowers the counter; a successful assertion with a nonzero counter raises it to that counter, with zero leaves it |
| `Runs.StepStores` | src/state/p256_webauthn/trait_impl.rs:234-245 | The session key changes exactly to what a successful refresh or initialisation stores |
| `Runs.RunInvariant` | src/instructions/initialize_external_account.rs:80-110 | Over every run initialisation succeeds at most once, key and relying party never change, the counter never falls, and nonzero counters of accepted assertions strictly increase |
| `Runs.HoldsLastStored` | src/state/p256_webauthn/trait_impl.rs:234-245 | An account holds exactly the session key stored last, with an expiration within the limit of its storing |
| `Runs.StoredEarlier` | src/state/p256_webauthn/trait_impl.rs:234-245 | The key stored last was stored at an earlier or equal clock reading |
| `Runs.SessionExact` | src/state/p256_webauthn/trait_impl.rs:216-231 | At a positive clock the session check accepts exactly the key stored last, while signed for and not past its expiration |
| `Runs.SessionLifetime` | src/state/p256_webauthn/trait_impl.rs:216-231 | A sessioned execution succeeds only for the key stored last, from its storing until at most 7776000 seconds later; an account that never stored a key accepts none |
| `Acceptance.ExecuteAccepted` | sdks/ts-sdk/src/instructions.ts:171-212 | For every execution the SDK can build and a browser signs, with a slot in the window, the parser recovers exactly its signature, key and message, and the instruction is its batch of calls |
| `Acceptance.HonestExecution` | sdks/ts-sdk/src/instructions.ts:171-212 | The situation of acceptance arises for every key, relying party id of at most 32 bytes, signature, nonce and batch that the wire format carries |
| `Acceptance.SessionedAccepted` | sdks/ts-sdk/src/instructions.ts:218-240 | For every sessioned execution the SDK can build, on an account whose live session key signs, the outcome is exactly the calls of the batch over the accounts after the first two |
| `Acceptance.RefreshAccepted` | sdks/ts-sdk/src/instructions.ts:241-278 | A refresh the SDK builds reaches exactly the storing of its key |
| `Acceptance.HonestRefresh` | sdks/ts-sdk/src/instructions.ts:241-278 | The situation of that acceptance arises for every key, id, signature, nonce, session key and duration |
| `Acceptance.InitializeAccepted` | sdks/ts-sdk/src/instructions.ts:124-165 | An initialisation the SDK builds leaves exactly the account asked for |
| `Acceptance.HonestInitialization` | sdks/ts-sdk/src/instructions.ts:124-165 | The situation of that acceptance arises for every key, quote-free id of at most 32 bytes, signature, nonce and session key within the limit |
| `Acceptance.RecoversSignature` | src/utils/precompiles.rs:138-238 | With the precompile instruction of the SDK first in the transaction, the program reads its one signature |
| `Acceptance.Verifies` | src/state/p256_webauthn/trait_impl.rs:119-197 | A message signed over the template of the SDK verifies |
| `Soundness.ExecuteSound` | src/instructions/execute_instructions.rs:155-236 | The message the program reads for a successful execution, inline or from other instructions, is signed under the key of the account and asserts its own accounts and instructions, under a nonce of its signer from a slot at most 149 old; its calls are the batch under the scheme its arguments name and gain no privilege |
| `Soundness.RefreshSound` | src/instructions/refresh_session_key.rs:116-159 | The same for a successful refresh, with its own key and duration |
| `Soundness.InitializeSound` | src/instructions/initialize_external_account.rs:186-236 | A successful initialisation was signed for by the key and relying party it stores, at the address of that key, under a recent nonce |
| `Soundness.ReplayOnlyInWindow` | docs/nonce_mechanism.md:45-49 | Two actions signed for by one message, whose nonces hold where hashes name slots, are the same action with newest slots at most 149 apart, unless two named byte strings collide |
| `Effects.VerifyMeans` | src/state/p256_webauthn/trait_impl.rs:119-197 | Verification leaves this data if and only if the precompile, first in the transaction and for one signature, checked under the key of the account the stored hash, a flag byte with bit 0, a counter v in four big-endian bytes that is 0 or above the stored one, anything, and the hash of the document; v is then stored unless 0 |
| `Effects.ExecuteMeans` | src/instructions/execute_instructions.rs:155-236 | Execution succeeds with an outcome if and only if, over its bytes and accounts, the data encode arguments of scheme 0, the account is owned with version 1 and scheme 0 at the address of the key, the sysvars are passed, the nonce is listed and recent, the payload is authentic, and the outcome has exactly the calls of the instructions over the accounts after the first four and the moved counter |
| `Effects.SessionedMeans` | src/instructions/execute_instructions_sessioned.rs:96-164 | Sessioned execution succeeds with an outcome if and only if the live session key of the owned account signed, and the outcome has exactly the calls of the instructions over the accounts after the first two and the same account |
| `Effects.RefreshMeans` | src/instructions/refresh_session_key.rs:116-159 | The same for a refresh, which stores the key until now plus its duration modulo 2^64, at most 7776000 seconds ahead |
| `Effects.InitializeMeans` | src/instructions/initialize_external_account.rs:186-236 | The same for an initialisation, which fills a free account at the address of its key with exactly the fields asked for |
| `Effects.SchemeMeans` | src/state/externally_signed_account/account.rs:255-283 | Scheme byte 0 signs as the program address of the account and the 17 bytes of execution_account, 1 as the passkey address, and any other is refused |
| `Effects.ExecutionAddressesApart` | src/state/externally_signed_account/account.rs:255-283 | Where equal addresses come from equal joined seeds, an execution address is no passkey address and is shared by no two accounts |
| `Effects.PasskeyAddressesApart` | src/state/p256_webauthn/trait_impl.rs:84-97 | Under the same assumption, two keys share an address only when their hashes collide |
| `Effects.ExecutedCalls` | src/instructions/execute_instructions.rs:184-235 | Call k of a successful execution goes to infos[4 + index] of instruction k, never to this program, with its data, signed for by the address of the scheme byte |
| `Effects.SessionedSound` | src/instructions/execute_instructions_sessioned.rs:96-164 | Call k of a successful sessioned execution goes to infos[2 + index] of instruction k, never to this program, with its data, signed for by the address of the scheme byte, while the session key was live and signed |
| `RunSoundness.StoredAtItsAddress` | src/instructions/initialize_external_account.rs:104-110 | Over every run that starts without data and names one account, the stored key is the one from which the address of the account derives |
| `RunSoundness.ExecutedByItsAccount` | src/instructions/execute_instructions.rs:155-236 | What a successful execution in such a run loaded from its arguments was signed for, with its own accounts and instructions, by the key of the account it names; when the scheme byte of its arguments is 1, the executing key is that account and no call may write it |
| `RunSoundness.SessionedSparesAccount` | src/instructions/execute_instructions_sessioned.rs:96-164 | Nor may any call of a sessioned execution write the account it names when its scheme byte is 1 |
| `RunSoundness.SuccessHonours` | src/instructions/execute_instructions.rs:155-236 | Every successful assertion was signed for the action it loaded from its own arguments and accounts, under the data the account held (or was given), with a recent nonce for which infos[3], or the payer of an initialisation, signed |
| `RunSoundness.ListsNameSlots` | tests/p256/utils/svm.rs:149-156 | The slot lists at any two moments of one history with distinct hashes agree on the slot of a hash |
| `RunSoundness.NoReplay` | docs/nonce_mechanism.md:45-49 | Over every run and slot history with distinct hashes, two successes on one signed message loaded the same action of the same kind, with newest slots at most 149 apart, unless the two payloads they hashed collide or the two documents they rebuilt do; at most 255 further accounts each |
| `RunSoundness.OnlyCounterlessRepeats` | src/state/p256_webauthn/trait_impl.rs:187-195 | Whatever the hash, a message accepted twice in a run has counter zero, and not both successes are initialisations |
| `RunSoundness.AssertionMovesCounter` | src/state/p256_webauthn/trait_impl.rs:187-195 | A successful assertion over a message with counter v in four big-endian bytes leaves v stored and had less before; with 0 it leaves the stored one |
| `RunSoundness.AssertionChecked` | src/state/p256_webauthn/trait_impl.rs:125-140 | Every successful assertion had its one signature checked by the precompile, first in the transaction, under the key the account then holds |
| `RunSoundness.NoCallEnters` | src/instructions/execute_instructions.rs:219-220 | No call of any successful instruction goes to this program |
| `Refusals.NonceRefuses` | src/utils/nonce.rs:111-155 | Each failing nonce check has its own error, in order; the age is the distance modulo 1000 from the newest slot |
| `Refusals.SkippedSlotRefused` | src/utils/nonce.rs:66-108 | A slot in the window that is not listed is refused as an invalid index |
| `Refusals.LoadSignedRefuses` | src/state/p256_webauthn/trait_impl.rs:99-117 | On an owned account: not writable, another address, other sysvars, then the error of the nonce |
| `Refusals.AssertionRefused` | src/state/p256_webauthn/trait_impl.rs:140-196 | Over authenticator data and a hash: an absent user, another relying party, another document, and a counter that does not advance are refused, each by its own error |
| `Refusals.OtherKeyRefused` | src/state/p256_webauthn/trait_impl.rs:142-146 | A payload checked under another key is refused as such |
| `Refusals.ExecuteRefuses` | src/instructions/execute_instructions.rs:155-168 | Data that encode nothing, another scheme, too few accounts and verification data that encode nothing are refused, each by its own error |
| `Refusals.ExecuteRefusesLoaded` | src/instructions/execute_instructions.rs:66-121 | Past those, execution fails with the error of loading, or for an unknown scheme byte |
| `Refusals.SessionedRefuses` | src/instructions/execute_instructions_sessioned.rs:96-112 | For sessioned execution: data that encode nothing, another scheme, too few accounts, then the error of the account, in this order |
| `Refusals.SessionedRefusesKey` | src/state/p256_webauthn/trait_impl.rs:216-231 | A session signer that did not sign, another key, an expired key and an unknown scheme byte are refused, each by its own error |
| `Refusals.RefreshRefuses` | src/instructions/refresh_session_key.rs:116-129 | For a refresh: data that encode nothing, another scheme, too few accounts and verification data that encode nothing, in this order |
| `Refusals.LongDurationRefused` | src/state/p256_webauthn/trait_impl.rs:234-245 | A duration past the limit is refused whoever signed it |
| `Refusals.InitializeRefuses` | src/instructions/initialize_external_account.rs:186-200 | For an initialisation: data that encode nothing, another scheme, too few accounts, another owner and an account that holds data, in this order |
| `Refusals.InitializeRefusesLoaded` | src/instructions/initialize_external_account.rs:84-110 | On a free account: other sysvars, another system program, the error of the nonce, data that encode nothing, an id too long or with a quote, and another address, in this order |
| `Layouts.ExecutePayloadLayout` | src/instructions/execute_instructions.rs:125-151 | Slot hash, signer, the 20 bytes of the tag, the account count, per account 32 key bytes and two flag bytes, the instruction count and the instructions stand at these offsets |
| `Layouts.RefreshPayloadLayout` | src/instructions/refresh_session_key.rs:100-112 | The same for a refresh payload of 123 bytes |
| `Layouts.InitializePayloadLayout` | src/instructions/initialize_external_account.rs:164-182 | The same for an initialise payload of 82 or 122 bytes |
| `Layouts.ExecuteLayout` | sdks/ts-sdk/src/serialize.ts:161-175 | Schemes, slot value, verification data and instructions stand at these offsets of execute arguments |
| `Layouts.SessionedLayout` | sdks/ts-sdk/src/serialize.ts:191-201 | The same for sessioned arguments |
| `Layouts.RefreshLayout` | sdks/ts-sdk/src/serialize.ts:177-189 | The same for refresh arguments |
| `Layouts.InitializeLayout` | sdks/ts-sdk/src/serialize.ts:145-159 | The same for initialise arguments |
| `Layouts.InstructionLayout` | sdks/ts-sdk/src/serialize.ts:84-96 | The same for one compiled instruction |
| `Layouts.FlagMeanings` | src/utils/signatures/p256_webauthn/client_data_json.rs:16-25 | 16 says get, 8 omits crossOrigin, 4 adds the extra field, 2 says http and 1 is the crossOrigin value |
| `Layouts.DocumentReads` | src/utils/signatures/p256_webauthn/client_data_json.rs:121-181 | The document of an assertion, character by character |
| `Layouts.SpkiHead` | sdks/ts-sdk/src/webauthn.ts:130-189 | The fixed 27 bytes before every pair of coordinates |
| `Layouts.SmallestSignature` | sdks/ts-sdk/src/webauthn.ts:202-236 | The signature (1, 1) in its eight bytes |
| `Layouts.GroupOrder` | sdks/rust-sdk/src/instructions/precompile.rs:11-15 | The order, in decimal, is twice the half order plus one |
| `Layouts.Base64UrlReads` | src/utils/signatures/p256_webauthn/client_data_json.rs:127 | The six bytes 0, 1, 2, 253, 254 and 255 encode to AAEC_f7_ |
| `Layouts.Base64UrlAlphabet` | src/utils/signatures/p256_webauthn/client_data_json.rs:127 | The 64 symbols by their codes |
| `Layouts.CborMap` | sdks/ts-sdk/src/webauthn.ts:427-442 | A map of one entry in its bytes |
| `Layouts.CborHeads` | sdks/ts-sdk/src/webauthn.ts:454-495 | Heads of several widths in their bytes |

## Left out

- SHA-256, the ECDSA check of the precompile and the search for program addresses: arbitrary functions or the runtime.
- Precompile.CreateSecp256r1InstructionRust: the DER decoder of OpenSSL is a foreign library and a parameter, so the DER strings it accepts beyond the canonical ones are not named.
- Precompile.GetDataSliceRaw: an unchecked slice past the end of an instruction reads arbitrary bytes (`TxInstruction.beyond`); the layout of the sysvar behind it and a fault of the read are not modelled.
- Alignment of the zero-copy casts, borrow tracking and raw-pointer aliasing: the account is one object whose fields are updated in place.
- The raw bytes of the slot-hash sysvar and of the account data: the list and the fields are modelled decoded, and account data is either absent or of full size.
- Passkey.ExternalAccount.Create: rent, the transfer of lamports and the three system-program calls of an initialisation are one verdict, `Environment.creates`.
- ClientDataParser.ObjectRoundTrip: of `JSON.parse`, flat objects of strings, booleans and null; whitespace, escapes, numbers and nesting, which no template document with such a host contains, are not part of this model.
- ClientDataParser.ParamsRoundTrip: of `URL`, http(s) origins with any name, IPv4 or bracketed IPv6 host; the check of the host itself is an arbitrary predicate, and its normalised spelling, which the parameters do not hold, is not modelled.
- AttestedCredential.ParseAttestedCredentialData: `cbor-x` is a foreign library and a parameter, so what it makes of the bytes of the COSE key is arbitrary.
- `TransactionMessage` compilation: account metas and compiled instructions are taken as given.
- The text of SDK error messages, and the difference between two thrown errors.
- Cbor.SkipCborItem: recurses as deep as the items nest; the limit of the JavaScript call stack is not modelled.
- Entry-point dispatch on the first data byte, which would add only one-branch members.
- The example application, `codama/`, `idl.json`, the commented-out key parser of `authenticator_data.rs` and the unimplemented secp256k1 branch.
