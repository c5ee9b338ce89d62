# Verified models of Tari's checksums, seeds, miner and merge-mining proxy

This project models four parts of the Tari code base and proves what they promise, for every input
and every run.

* **DammSum, emoji IDs and addresses** (`DammSum`, `Emoji`, `EmojiId`, `TariAddress`). The checksum is
  a fold in GF(2^8) modulo x^8 + x^4 + x^3 + x + 1, the field of section 4.2 of FIPS 197. What it
  detects is derived from doubling being linear and injective and from 2 having multiplicative order
  51. On top of it, each decoder accepts exactly what its printer writes, and the two address decoders
  agree. Every single substitution or swap in an emoji ID is caught, and in an address when it is read
  for its own network; what a damaged address is read as without a network is stated exactly.
* **The cipher seed** (`Crc32`, `CipherSeed`). CRC-32 is concrete (section 8 of RFC 1952). The decoder
  accepts exactly the encoder's image, and no change inside four consecutive bytes gets as far as
  decryption. The parts of the MAC cannot run into each other.
* **The miner** (`Hasher`, `Miner`, `MinerStream`, `RunMiner`). Workers, polls and kills interleave in
  any order; reports are conserved, every item of the stream is honest, what becomes of a found header
  is decided by the schedule alone, and workers stop. Whole runs of mining cycles submit only blocks
  that meet their target, and stop at a block limit after exactly that many were accepted.
* **The merge-mining proxy** (`TemplateRepository`, `SubmitBlock`, `ProxyService`, `TemplateProtocol`,
  `Monerod`). The template cache refines its history, every block sent to the node is a saved template
  with its own proof of work, retries are paid for by tip advances, and server fail-over keeps its
  invariant while requests interleave.

## How the model is built

Bytes are `bv8`. Code outside the repository is a parameter, of which nothing more is assumed than is
written: the curve that accepts public keys, the hexadecimal codec, Blake2, Argon2 and the ChaCha20 key
stream, the proof-of-work difficulty of a header, the Monero library, the base node, the wallet, monerod
and the clock. A public key is the 32 bytes of its canonical encoding (section 4.3.1 of RFC 9496).

Loops and objects keep their form: methods with loops, classes with fields, an array for the buffer the
stream cipher overwrites. Each such method is proved against a function, and the theorems are about the
function. Where requests or threads interleave, the model is a step function and a run is any sequence
of steps; a step that cannot be taken leaves the state as it is. `MinerStream`, `ProxyService` and the
class in `Monerod` show that the code, as written, takes exactly these steps.

A header as the miner sends it carries its own hash, which is computed anew from the mined header and
so differs from the template's. Its other fields are those of the header that is hashed; timestamps are
whole seconds. The hash behind the MAC is a function of the concatenated parts, which the hashing
library frames further.

Some lemmas `hide` a definition they do not need, which keeps bit-level reasoning out of algebraic
proofs.

## Where the code and its comments differ

The model follows the code in each case.

* `base_layer/common_types/src/dammsum.rs:30` says all single transpositions are detected. A swap of two
  unequal digits is detected exactly when their distance is not a multiple of 51 (`SwapDetected`,
  `UndetectedSwap`); that covers every swap inside the 33 symbols of an ID or address.
* `base_layer/common_types/src/tari_address.rs:151` takes the checksum as valid once the network is. At
  every position and for every other network, exactly one byte turns an address into a string that is
  read as that network's, with another key unless the position is the last, if the curve accepts that
  key (`OneByteChoosesNetwork`, `KeyByteMisread`). `AddressSubstitution` and `AddressSwap` say what a damaged address is read as; it is
  never accepted for its own network.
* `base_layer/key_manager/src/cipher_seed.rs:200` lists the salt before the secret data; the code writes
  it after, as the comment at line 101 says.
* `applications/tari_merge_mining_proxy/src/proxy.rs:619` says probing starts after the last used server;
  it starts at it.
* `applications/tari_miner/src/run_miner.rs:356` tests for missing metadata that line 347 has already
  unwrapped, and line 359 repeats the test of line 353; neither test decides anything.

Three things one might expect do not hold, and the model says exactly when they do.

* A found header is not always yielded. It is, outside share mode, if and only if its slot was free with
  a receiver when it was found, and a poll selects that slot before the receivers are killed or another
  header is yielded (`FoundHeaderFate`); a run that loses one is `FoundHeaderLost`. Without kills, the
  receivers go only when a header has been yielded (`GoneMeansHeader`).
* An accepted merge-mining hash can be sent again. A lookup can lead to that if and only if another
  handler holds the hash, or is about to remove it and it was not saved since it was accepted
  (`LookupGuard`); the handlers of a run can finish in any order without it, from each of its states, if
  and only if none of its lookups is such (`NoResubmission`). `OverlapResubmits` is a run that does it.
* A template just saved can be lost at once. It stays for its twenty minutes, whatever the handlers at
  work do, if and only if none of them is working on its hash (`SavedStays`).

## Model

| member | source | states |
|---|---|---|
| DammSum.ComputeChecksum | base_layer/common_types/src/dammsum.rs:49-71 | the loops compute the fold whose algebra the rows below state |
| DammSum.ValidateChecksum | base_layer/common_types/src/dammsum.rs:74-85 | the two error cases and acceptance, as `Validate` |
| DammSum.DoubleIsFieldDoubling | base_layer/common_types/src/dammsum.rs:50-67 | shift, overflow and mask are multiplication by 2 modulo 0x11B |
| DammSum.OrderIs51 | base_layer/common_types/src/dammsum.rs:60-68 | k doublings fix a nonzero byte exactly when 51 divides k |
| DammSum.ChecksumIsPolynomial | base_layer/common_types/src/dammsum.rs:49-71 | the checksum is the sum of 2^(n-i) times digit i |
| DammSum.ChecksumLinear | base_layer/common_types/src/dammsum.rs:49-71 | for arrays of any equal length, the checksum of the xor is the xor of the checksums |
| DammSum.UniqueCompletion | base_layer/common_types/src/dammsum.rs:74-85 | exactly one byte appended to a nonempty array validates: the computed checksum; every other case gets its error |
| DammSum.SubstitutionDetected | base_layer/common_types/src/dammsum.rs:25-85 | any single substitution in a valid array of any length is rejected |
| DammSum.SwapDetected | base_layer/common_types/src/dammsum.rs:25-85 | a swap of two unequal digits of a valid array is rejected exactly when their distance is not a multiple of 51 |
| DammSum.UndetectedSwap | base_layer/common_types/src/dammsum.rs:25-85 | a valid 53-byte array on which a swap goes undetected |
| Emoji.EmojiTable | base_layer/common_types/src/emoji.rs:78-93 | the table's 256 characters are distinct and none is white space or a bar |
| Emoji.BuildReverseEmoji | base_layer/common_types/src/emoji.rs:96-104 | the inserted map holds exactly the table's characters, entry i under byte i |
| Emoji.RenderedAs | base_layer/common_types/src/emoji.rs:162-170 | byte b is printed as entry b of the table |
| Emoji.TranslateSymbols | base_layer/common_types/src/emoji.rs:131-139 | the loop finds the bytes of every symbol, or nothing if one is unknown |
| Emoji.Untranslatable | base_layer/common_types/src/emoji.rs:131-139 | a string fails to translate exactly when it holds a character that is not in the table |
| Emoji.TranslateInvertsRender | base_layer/common_types/src/emoji.rs:131-169 | a string translates to bytes exactly when the bytes print as it |
| EmojiId.ParseEmojiId | base_layer/common_types/src/emoji.rs:125-154 | size, symbol, checksum and key checks in this order |
| EmojiId.EmojiIdExact | base_layer/common_types/src/emoji.rs:124-170 | a string parses to a key exactly when the key is on the curve and prints as the string |
| EmojiId.EmojiIdSymbols | base_layer/common_types/src/emoji.rs:157-170 | the 33 symbols, as table entries of the key's bytes and of the checksum polynomial |
| EmojiId.EmojiIdErrors | base_layer/common_types/src/emoji.rs:125-154 | exactly when each error is given: by size, by symbols, by no key printing as the string, by the key being off the curve |
| EmojiId.EmojiIdSubstitution | base_layer/common_types/src/emoji.rs:37-45 | changing one symbol of an emoji ID to any other character is rejected as bad emoji or checksum |
| EmojiId.EmojiIdSwap | base_layer/common_types/src/emoji.rs:37-68 | swapping any two different symbols of an emoji ID is rejected by the checksum |
| TariAddress.NetworkFromByte | common/src/configuration/network.rs:133-155 | a byte names a network exactly when it is that network's byte |
| TariAddress.NetworkBytes | common/src/configuration/network.rs:40-49 | the ten network bytes, by number |
| TariAddress.WriteBytes | base_layer/common_types/src/tari_address.rs:162-168 | the filled buffer is key, then checksum masked with the network |
| TariAddress.AddressLayout | base_layer/common_types/src/tari_address.rs:162-168 | the 33 bytes: the key, then the checksum polynomial xored with the network byte |
| TariAddress.ReadBytesWithNetwork | base_layer/common_types/src/tari_address.rs:126-142 | the unmasked copy is validated, with each error in its order |
| TariAddress.MaskedChecksum | base_layer/common_types/src/tari_address.rs:131-136 | unmasking and validating all 33 bytes is the same as comparing the last byte with the masked checksum |
| TariAddress.WithNetworkExact | base_layer/common_types/src/tari_address.rs:126-168 | decoding for a network accepts exactly the encodings of that network's addresses |
| TariAddress.FromBytesExact | base_layer/common_types/src/tari_address.rs:145-168 | decoding without one accepts exactly the encodings of addresses |
| TariAddress.FromBytesErrors | base_layer/common_types/src/tari_address.rs:145-159 | exactly when each error is given: by size, by no address encoding to the string, by its key being off the curve |
| TariAddress.WithNetworkErrors | base_layer/common_types/src/tari_address.rs:126-142 | the same for the decoder that is told the network |
| TariAddress.DecodersAgree | base_layer/common_types/src/tari_address.rs:126-159 | one decoder yields an address exactly when the other does for its network |
| TariAddress.AtMostOneNetwork | base_layer/common_types/src/tari_address.rs:126-159 | no string is accepted for two networks |
| TariAddress.AddressSubstitution | base_layer/common_types/src/tari_address.rs:126-168 | any one-byte change, the masked byte included, is rejected for the address's network; the inferring decoder yields an address exactly when it has the changed key and the network byte shifted by 2^(32-i) times the change, and gives the checksum error exactly when no network has that byte |
| TariAddress.AddressSwap | base_layer/common_types/src/tari_address.rs:126-168 | the same for the swap of any two unequal bytes, with the shift a swap amounts to |
| TariAddress.OneByteChoosesNetwork | base_layer/common_types/src/tari_address.rs:145-168 | at every position, for every other network, the one byte that makes the string read as that network's |
| TariAddress.KeyByteMisread | base_layer/common_types/src/tari_address.rs:145-168 | a changed key byte read as another key's address on another network |
| TariAddress.ReadEmoji | base_layer/common_types/src/tari_address.rs:68-84 | size and symbol errors, or the bytes |
| TariAddress.EmojiStringExact | base_layer/common_types/src/tari_address.rs:86-118 | an emoji string is accepted, by either decoder, exactly when the address prints as it |
| TariAddress.EmojiStringErrors | base_layer/common_types/src/tari_address.rs:68-98 | the size and symbol errors of both emoji decoders, and otherwise what the bytes behind the symbols decode to |
| TariAddress.FromStrExact | base_layer/common_types/src/tari_address.rs:189-201 | which address a text is read as, emoji form first, and the one error otherwise |
| TariAddress.BarAnywhere | base_layer/common_types/src/tari_address.rs:193 | a bar inserted at any place makes no difference to what is parsed, and none is left |
| Emoji.WhiteSpaceExact | base_layer/common_types/src/tari_address.rs:193 | which characters trimming removes |
| TariAddress.EmojiTextRoundTrip | base_layer/common_types/src/tari_address.rs:189-201 | the emoji form is read back with bars anywhere in it and white space around it |
| TariAddress.HexTextRoundTrip | base_layer/common_types/src/tari_address.rs:171-201 | the hexadecimal form is read back |
| TariAddress.TwoDigitCodec | base_layer/common_types/src/tari_address.rs:171-187 | the two-digit codec satisfies the round trip that is asked of a hexadecimal codec |
| Crc32.CheckValue | base_layer/key_manager/src/cipher_seed.rs:207-210 | the checksum function is CRC-32: its published check value |
| Crc32.IntactIffResidue | base_layer/key_manager/src/cipher_seed.rs:246-251 | data followed by its checksum is exactly what leaves the register at one residue |
| Crc32.BurstDetected | base_layer/key_manager/src/cipher_seed.rs:239-251 | in messages of any length, no change inside four consecutive bytes, checksum included, goes unnoticed |
| CipherSeed.DeriveKeys | base_layer/key_manager/src/cipher_seed.rs:360-397 | the two keys are the halves of one password hash, or the one error |
| CipherSeed.PhraseUsed | base_layer/key_manager/src/cipher_seed.rs:172-178 | the passphrase given is the one used, and the default spells TARI_CIPHER_SEED |
| CipherSeed.ApplyStreamCipher | base_layer/key_manager/src/cipher_seed.rs:298-317 | the buffer is overwritten with its xor with the key stream |
| CipherSeed.StreamCipherInvolution | base_layer/key_manager/src/cipher_seed.rs:297-317 | encrypting twice gives the data back |
| CipherSeed.MacCoversEverything | base_layer/key_manager/src/cipher_seed.rs:330-357 | inputs that pass the length checks and are chained together determine birthday, entropy, version, salt and key |
| CipherSeed.ChecksAreNeeded | base_layer/key_manager/src/cipher_seed.rs:338-346 | without the checks the chained bytes do not determine the parts |
| CipherSeed.EncipherSeed | base_layer/key_manager/src/cipher_seed.rs:172-213 | the assembled and overwritten buffers are `Encipher` |
| CipherSeed.EncipherExact | base_layer/key_manager/src/cipher_seed.rs:172-213 | from the primitives alone: the password hash fails, or the 33 bytes written, each cipher byte as the xor of its plain byte and its key stream byte |
| CipherSeed.DecipherSeed | base_layer/key_manager/src/cipher_seed.rs:216-295 | the buffers split off are `FromEncipheredBytes`, every error in its order |
| CipherSeed.DecipherExact | base_layer/key_manager/src/cipher_seed.rs:253-294 | from the primitives alone, for an intact string: the seed read or which error |
| CipherSeed.EncipheredLayout | base_layer/key_manager/src/cipher_seed.rs:81-105 | version, cipher text, salt and checksum in place, and what the cipher text opens to |
| CipherSeed.DecryptExact | base_layer/key_manager/src/cipher_seed.rs:253-294 | a secret opens to a seed exactly when it is that seed's plain text, encrypted |
| CipherSeed.ForgeryIsCollision | base_layer/key_manager/src/cipher_seed.rs:253-294 | two different cipher texts with the same MAC bytes both decrypt only if the MAC hash collides on their two different inputs |
| CipherSeed.ExactInverse | base_layer/key_manager/src/cipher_seed.rs:171-295 | any byte string decodes to s exactly when s has version 1 and enciphers to it |
| CipherSeed.RejectedBeforeDecryption | base_layer/key_manager/src/cipher_seed.rs:220-251 | length, version and checksum errors are decided by the bytes alone, and when each is given |
| CipherSeed.BurstRejected | base_layer/key_manager/src/cipher_seed.rs:207-251 | any change to a seed inside four consecutive bytes is VersionMismatch or CrcError, whatever the passphrase and the cryptography |
| Hasher.BlockHeaderSha3.constructor | applications/tari_miner/src/difficulty.rs:42-45 | the header as given, no hashes yet |
| Hasher.BlockHeaderSha3.New | applications/tari_miner/src/difficulty.rs:42-45 | a hasher on the received header exactly when it converts |
| Hasher.BlockHeaderSha3.CreateHeader | applications/tari_miner/src/difficulty.rs:74-76 | the header with its hash computed anew |
| Hasher.BlockHeaderSha3.SetForwardTimestamp | applications/tari_miner/src/difficulty.rs:49-55 | the timestamp moves forward only; nothing else changes |
| Hasher.BlockHeaderSha3.RandomNonce | applications/tari_miner/src/difficulty.rs:57-60 | only the nonce is replaced |
| Hasher.BlockHeaderSha3.IncNonce | applications/tari_miner/src/difficulty.rs:63-65 | the nonce goes up by one modulo 2^64 |
| Hasher.BlockHeaderSha3.ComputeDifficulty | applications/tari_miner/src/difficulty.rs:68-71 | the header's difficulty, the count saturating |
| Miner.ReachableInv | applications/tari_miner/src/miner.rs:90-239 | every reachable state of every interleaving satisfies the worker, channel and stream invariants |
| Miner.EveryItemHonest | applications/tari_miner/src/miner.rs:121-239 | each yielded report is its worker's: template header with only nonce, later timestamp (same in share mode) and the hash that goes with them changed, own difficulty at least the target, nonce = start + hashes - 1 |
| Miner.ReportsConserved | applications/tari_miner/src/miner.rs:101-166 | each accepted report is delivered once and in order, in its slot, or dropped with the receiver; each refusal is explained by one unread report |
| Miner.ReportsExact | applications/tari_miner/src/miner.rs:172-238 | in every run a worker hashes consecutive nonces and reports exactly what is due for them: every header that meets the target, and a status at every reporting nonce; and it stops exactly when the source returns or panics |
| Miner.FirstPoll | applications/tari_miner/src/miner.rs:90-117 | one worker per thread, each from its own nonce on the template header, with an empty slot |
| Miner.StatusMovesClock | applications/tari_miner/src/miner.rs:215-236 | outside share mode a received status moves the timestamp forward to now; nothing else of the header changes |
| Miner.PollAnswer | applications/tari_miner/src/miner.rs:121-167 | from every state satisfying the invariant, exactly which answer a poll gives |
| Miner.PollsExplained | applications/tari_miner/src/miner.rs:121-167 | in every run, each answer was given by a poll in a state that called for it |
| Miner.NeverEndsEarly | applications/tari_miner/src/miner.rs:121-167 | in every run with threads, none of which has stopped, without kills and before a header is yielded, no poll ends the stream |
| Miner.NoncesDistinct | applications/tari_miner/src/miner.rs:186-238 | in every run, two attempts of one worker at different unsaturated counts name different nonces |
| Miner.BadTemplate | applications/tari_miner/src/miner.rs:172-182 | in every run, a template that does not convert is never hashed and yields nothing |
| Miner.StreamEnds | applications/tari_miner/src/miner.rs:134-137 | without receivers, nothing more is yielded and every poll is the end |
| Miner.HeaderEndsStream | applications/tari_miner/src/miner.rs:162-166 | outside share mode a header is the last item, and every later poll is the end |
| Miner.ToReportDecreases | applications/tari_miner/src/miner.rs:215-237 | the distance to the next reporting nonce is below the frequency and falls with each increment, wrap-around included |
| Miner.DroppedWorkerStops | applications/tari_miner/src/miner.rs:186-238 | without a receiver, at most 3,000,000 more evaluations under any schedule, and the worker stops |
| Miner.FoundHeaderFate | applications/tari_miner/src/miner.rs:139-213 | in every run, a found header is refused unless its slot is free with a receiver, and then waits, is yielded or is dropped as the first selecting poll or drop decides; outside share mode it is among the items if and only if it was kept and yielded first |
| Miner.GoneMeansHeader | applications/tari_miner/src/miner.rs:134-166 | in every run without kills, receivers gone means that the last item is a header |
| Miner.FoundHeaderLost | applications/tari_miner/src/miner.rs:145-213 | a run in which a header is found, refused and never yielded |
| MinerStream.MiningTurn | applications/tari_miner/src/miner.rs:186-238 | the loop body takes the worker's steps, in place |
| MinerStream.TurnTells | applications/tari_miner/src/miner.rs:186-238 | a turn hashes one header, makes exactly the attempts due for it, and goes on to the next nonce or stops |
| MinerStream.StartWorker | applications/tari_miner/src/miner.rs:172-184 | a new thread has a fresh worker's header, or panics if it does not convert |
| MinerStream.Stream.InitMining | applications/tari_miner/src/miner.rs:73-82 | a stream without threads or channels |
| MinerStream.Stream.KillThreads | applications/tari_miner/src/miner.rs:85-87 | clearing the channels is the kill step |
| MinerStream.Stream.PollNext | applications/tari_miner/src/miner.rs:121-167 | polling, in every branch, is the poll step of every state the object shows |
| RunMiner.ValidateTipExact | applications/tari_miner/src/run_miner.rs:338-363 | for every reply: when the tip check passes, and which error otherwise |
| RunMiner.PrepareBlock | applications/tari_miner/src/run_miner.rs:224-265 | the requests before mining, with every error in its order |
| RunMiner.PreparedExact | applications/tari_miner/src/run_miner.rs:224-265 | a block and target are mined exactly when the block is the node's assembly of its own template with the first output and kernel of the coinbase for that height, reward and fees, ahead of the tip if asked for, and the target is the template's |
| RunMiner.PrepareErrors | applications/tari_miner/src/run_miner.rs:224-265 | exactly when each error is given, tip errors and missing objects by name included |
| RunMiner.UntilHeightExact | applications/tari_miner/src/run_miner.rs:232-244 | preparation ends with the until height h exactly when the tip is checked and has reached h |
| RunMiner.ConsumeReports | applications/tari_miner/src/run_miner.rs:268-321 | the report loop, every ending, as the function below |
| RunMiner.CycleStream | applications/tari_miner/src/run_miner.rs:268-271 | the stream of a cycle has the configured threads, the target, and at most one header, as its last report |
| RunMiner.LoopExact | applications/tari_miner/src/run_miner.rs:268-321 | the loop ends at the first event that does not pass, and how |
| RunMiner.PassesExact | applications/tari_miner/src/run_miner.rs:271-317 | which reports are submitted and which passed over, by difficulty, limits and tip |
| RunMiner.MiningCycle | applications/tari_miner/src/run_miner.rs:218-321 | a cycle, from its first request on, is the function the rows below are about |
| RunMiner.SubmittedBlock | applications/tari_miner/src/run_miner.rs:218-321 | over every miner run, a cycle sends at most one block, returns true exactly when the node accepted it, and that block is the prepared one with only nonce, later timestamp and their hash changed, its difficulty at least the target and within the limits |
| RunMiner.StartMiner | applications/tari_miner/src/run_miner.rs:114-166 | the loop over cycles ends at the first one that ends it, and says why; its count is of blocks the node accepted; a cycle that finds the tip at the until height ends the run with that reason |
| RunMiner.EndsExact | applications/tari_miner/src/run_miner.rs:117-166 | which cycles end a run, by their answers: the until height, a panic, no reconnection, or the limit reached |
| RunMiner.Reconnect | applications/tari_miner/src/run_miner.rs:121-136 | connection attempts go on until one succeeds |
| RunMiner.EverySubmissionMined | applications/tari_miner/src/run_miner.rs:114-166 | over every run of cycles, each block sent belongs to the cycle that prepared and mined it |
| RunMiner.LimitIsExact | applications/tari_miner/src/run_miner.rs:154-164 | a run stopped by a limit m >= 1 has had exactly m blocks accepted, the last in its last cycle, and every block sent was prepared and mined in its cycle; with 0, it stops at the first cycle without error |
| TemplateRepository.BlockTemplateRepository.constructor | applications/tari_merge_mining_proxy/src/block_template_data.rs:68-72 | an empty cache with an empty history |
| TemplateRepository.BlockTemplateRepository.Get | applications/tari_merge_mining_proxy/src/block_template_data.rs:75-83 | returns d exactly when a save of d is live in the history |
| TemplateRepository.BlockTemplateRepository.Save | applications/tari_merge_mining_proxy/src/block_template_data.rs:86-95 | replaces the entry, stamped with the time |
| TemplateRepository.BlockTemplateRepository.RemoveOutdated | applications/tari_merge_mining_proxy/src/block_template_data.rs:98-106 | keeps every item not older than twenty minutes unchanged, drops the others |
| TemplateRepository.TwentyMinutes | applications/tari_merge_mining_proxy/src/block_template_data.rs:98-106 | an eviction keeps an item up to and including 1200 seconds after it was saved, and no longer |
| TemplateRepository.BlockTemplateRepository.Remove | applications/tari_merge_mining_proxy/src/block_template_data.rs:109-117 | drops one entry and returns it |
| TemplateRepository.ReplayIsStored | applications/tari_merge_mining_proxy/src/block_template_data.rs:75-117 | over every history, an item is held exactly when it was last saved and not removed, replaced or outdated since |
| TemplateRepository.GetIsLive | applications/tari_merge_mining_proxy/src/block_template_data.rs:75-117 | the same for what a lookup returns |
| TemplateRepository.LiveUnique | applications/tari_merge_mining_proxy/src/block_template_data.rs:75-95 | at most one save of a hash is live |
| SubmitBlock.PlanIsFromTemplate | applications/tari_merge_mining_proxy/src/proxy.rs:243-292 | a block to submit is the template stored under the hash the Monero block carries, with only proof-of-work data appended, and meets its difficulty when checked |
| SubmitBlock.PlanSubmits | applications/tari_merge_mining_proxy/src/proxy.rs:243-292 | exactly which block is submitted, with or without the difficulty being checked |
| SubmitBlock.PlanBeforeLookup | applications/tari_merge_mining_proxy/src/proxy.rs:244-266 | what is decided when the block cannot be read, carries no hash, or one that is not saved |
| SubmitBlock.PlanAfterLookup | applications/tari_merge_mining_proxy/src/proxy.rs:268-292 | exactly when each error is given after the lookup, and when a block is held back for its difficulty |
| SubmitBlock.EverySubmissionFromTemplate | applications/tari_merge_mining_proxy/src/proxy.rs:243-346 | in every interleaving, every block sent is so made from a template saved before |
| SubmitBlock.OnceMeansOpen | applications/tari_merge_mining_proxy/src/proxy.rs:243-345 | on every run, sent again only after being saved again means the same as sent only while saved and not accepted since |
| SubmitBlock.LookupGuard | applications/tari_merge_mining_proxy/src/proxy.rs:255-321 | from every reachable state, a lookup of a hash can lead to its being sent again unsaved if and only if another handler holds it, or is removing it and it was not saved since |
| SubmitBlock.NoResubmission | applications/tari_merge_mining_proxy/src/proxy.rs:243-345 | a run takes up no claimed hash if and only if, from each of its states, the handlers at work can finish in any order without an accepted hash being sent again unsaved |
| SubmitBlock.OverlapResubmits | applications/tari_merge_mining_proxy/src/proxy.rs:255-321 | two overlapping handlers send every submittable block twice |
| SubmitBlock.SavedStays | applications/tari_merge_mining_proxy/src/proxy.rs:293-345 | a saved template stays for its twenty minutes, whatever the handlers at work do, if and only if none is working on its hash |
| ProxyService.ParamOutcome | applications/tari_merge_mining_proxy/src/proxy.rs:243-346 | what one parameter does to cache and node, all steps together |
| ProxyService.HandleParamKeepsQuiet | applications/tari_merge_mining_proxy/src/proxy.rs:243-346 | one parameter handled alone keeps both invariants |
| ProxyService.InnerService.constructor | applications/tari_merge_mining_proxy/src/proxy.rs:84-96 | a service with an empty cache satisfies the invariants |
| ProxyService.InnerService.Prepare | applications/tari_merge_mining_proxy/src/proxy.rs:244-292 | the handler's checks, errors and difficulty gate are `MakePlan` |
| ProxyService.InnerService.HandleOne | applications/tari_merge_mining_proxy/src/proxy.rs:243-346 | one turn of the loop is the handler's steps; an error changes nothing |
| ProxyService.ParamsInOrder | applications/tari_merge_mining_proxy/src/proxy.rs:243-346 | string parameters are handled in order up to the first that fails, whose error is returned |
| ProxyService.InnerService.HandleSubmitBlock | applications/tari_merge_mining_proxy/src/proxy.rs:218-353 | the loop over the parameters, keeping the invariants: nothing accepted is ever sent again unsaved |
| ProxyService.InnerService.HandleGetBlockTemplate | applications/tari_merge_mining_proxy/src/proxy.rs:395-479 | it succeeds exactly when the sync gate passes and the first round that is not overtaken can be built; what is saved is that round's template under its own hash; nothing is saved otherwise |
| TemplateProtocol.AddMoneroData | applications/tari_merge_mining_proxy/src/block_template_protocol.rs:211-261 | when it succeeds, with which error it fails, and that block, miner data, tag and difficulties all come from its arguments |
| TemplateProtocol.GetNextBlockTemplate | applications/tari_merge_mining_proxy/src/block_template_protocol.rs:64-109 | every part of the result derives from one round's template, ahead of the tip seen after fetching it; every earlier round was overtaken; an error is that of the deciding round |
| TemplateProtocol.AheadExact | applications/tari_merge_mining_proxy/src/block_template_protocol.rs:72-79 | which templates count as ahead of the tip |
| TemplateProtocol.RetriesBounded | applications/tari_merge_mining_proxy/src/block_template_protocol.rs:68-109 | with a node that keeps its word, n retries take the tip at least n up |
| TemplateProtocol.HeaderlessNeverUsed | applications/tari_merge_mining_proxy/src/block_template_protocol.rs:72-79 | a template without a header is retried, never used |
| Monerod.Pass | applications/tari_merge_mining_proxy/src/proxy.rs:619-628 | one pass visits each configured entry once, the last assigned server first |
| Monerod.PassRotates | applications/tari_merge_mining_proxy/src/proxy.rs:619-628 | a pass is the configured list rotated to the first place of the last assigned server |
| Monerod.Probe | applications/tari_merge_mining_proxy/src/proxy.rs:630-650 | servers are asked in order until one answers or an address is malformed |
| Monerod.ServerSelection.constructor | applications/tari_merge_mining_proxy/src/proxy.rs:92-93 | no server yet |
| Monerod.ServerSelection.GetUrl | applications/tari_merge_mining_proxy/src/proxy.rs:594-651 | alone: the current server unprobed, or two passes; the new server is current and last assigned; errors change nothing |
| Monerod.ServerSelection.Handle | applications/tari_merge_mining_proxy/src/proxy.rs:815-851 | alone: a failure leaves no current server, `ServersUnavailable` comes only after every entry was probed twice, and the whole request is a run of the steps of the rows below |
| Monerod.ReachableInv | applications/tari_merge_mining_proxy/src/proxy.rs:594-651 | in every interleaving of requests, the current server is the last assigned one and configured, and each request's probes, end and error are accounted for |
| Monerod.WasLastAssigned | applications/tari_merge_mining_proxy/src/proxy.rs:606-617 | the server a request starts its probing at was the last assigned one when it looked |
| Monerod.UnavailableAskedTwice | applications/tari_merge_mining_proxy/src/proxy.rs:619-651 | in every interleaving, a request that ends with `ServersUnavailable` asked each entry exactly twice, round from the place of the server it read and round again, and none answered |

## Left out

- gRPC, HTTP, Tor, SQLite, logging, command line and configuration: plumbing over libraries that are not part of this model.
- Cryptographic strength (wrong passphrases, MAC forgery): probabilistic, and inside the libraries taken as parameters.
- Mnemonic words, key derivation, the stratum controller, difficulty adjustment, the mempool and the Merkle mountain ranges.
- Elapsed times, wakers, thread names and stack sizes of the miner: they decide nothing that is proved.
- The conversion of a received header other than whether it succeeds; if it fails, the mining thread panics, which is modelled as a worker that has stopped.
- The response bodies of the proxy and the auxiliary JSON data: only what decides cache and submission is kept.
- The template data builder: all its fields are always set where it is used.
- RunMiner.StartMiner: does not model the first connection, nor 64-bit overflow of the block count; it is given finitely many cycles and connection attempts, where the source goes on.
- RunMiner.ConsumeReports: takes the end of the given reports for the end of the stream.
- TemplateProtocol.GetNextBlockTemplate: takes the answers of finitely many rounds and returns None when all of them were overtaken, where the source goes on asking.
- Miner.ReachableInv: thread start is taken to succeed; the source panics when a thread cannot be spawned.
