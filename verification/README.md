# Virtual Storage, verified

Virtual Storage keeps files only in memory, encrypted, in motion and under keys that are never in
one place. This project models its algorithms and protocols in Dafny and proves what they promise.
`dafny verify dfyconfig.toml` checks everything.

## What is modelled

**Secret sharing** (`Bytes`, `GaloisField`, `Generator`, `Polynomial`, `Shamir`, `Secrecy`). The
field of section 4.2 of FIPS 197 is built from XOR and doubling and shown to be polynomial
arithmetic modulo 0x11B; its laws, the order of the generator 3 and the log/exp isomorphism are
proved, not assumed. On top: table filling in place, Horner evaluation, splitting and Lagrange
recombination as loops. Any k shares give the secret back; fewer than k are consistent with every
secret, through equally many coefficient choices. The random bytes are an explicit argument.

**Trust groups** (`TrustPolicy`, `MarkBounds`, `LocalTrust`, `Digits`, `Wire`, `NetworkTrust`,
`NetworkMarks`, `NetworkRuns`). The kill policy is the interleaving of any number of threads
inside `_on_holder_compromised`, one read or write a step; `MarkBounds` says for every group
exactly how many holders can be marked while the process lives, and what that means for the secret
and for fetch(). The local group is an object whose fetch takes the marks as they were read before
the lock and says which holders still answer when asked; the network group is a state machine over
byte streams, with late replies, receives that stop half way, stale lists of live holders and
deaths. Its marks are a group of `TrustPolicy`, so the results of `MarkBounds` hold of it. Killing
the main process is one step, after which nothing runs.

**Falling boxes** (`Crypto`, `BoxModel`, `BoxRotation`, `KeyRatchet`, `BoxNonces`, `Slicing`,
`Streams`, `Pools`, `KeyGuards`, `ChunkedBox`, `SecureBox`). `BoxModel` says on values what hops,
cell bounces and snapshots do; `SecureBox` is the object over real byte arrays, with its chunks in
slots of bump-allocated pools and its keys in cells, and every method is proved equal to the value
model. A hop reads each guard under that guard's own lock; `BounceKeepsStored` is why bounces
between those reads do not matter. The guards of a box share no cell until a promotion raises;
then they are one object, and a bounce of one of its cells is two bounce events of the value model
(`ServiceGuardCell`). A box whose hop has raised is not hopped again, as the scheduler drops it;
another promotion would collapse the guard in use (`PromoteLocked`). The paused flag, the guards
reported to the callback and the closing of pages and pools are part of the object.

**Schedulers** (`Scheduler`). Workers, readers, registrations and collapses interleave at the
granularity of the locks. One model covers both pools of workers: an owner is a box with one item,
or a guard with one item per cell.

**Around them** (`PackedBox`, `PackedStorage`, `Splice`, `Splitter`, `Storage`, `Watchdog`,
`Tokens`): the shared buffers and their index, the three-thread pipeline, saving and retrieving,
the region table with its registrars, and the single-use tokens. `Wrappers` holds Option and Min.

AES-GCM, LZMA and SHA-256 are arbitrary functions. AES-GCM is taken to satisfy: decryption inverts
encryption under the same key and nonce, accepts nothing else, and a ciphertext is 16 bytes longer
than its plaintext. LZMA: decompression inverts compression, and compressed data is not empty.
SHA-256: nothing. json.loads is an arbitrary function that reads the text of a reply as that reply,
accepts no blank text, accepts text closing with a brace only if it opens with one, and accepts
nothing but white space after a complete object; these follow from sections 2 to 4 of RFC 8259.
`PlainCipher`, `PlainCompressor` and `StrictLoader` show these laws can be met. An exception is an
explicit result; clocks, keys, nonces and tokens are arguments.

## Where the code and its description differ

- Splitting is said to need 1 <= k <= n. With n > 255 it raises IndexError as well, unless every
  polynomial is constant, as with k = 1 (`Shamir.GaloisTables.SplitSecret`).
- The kill is described as coming one mark before the secret could be reconstructed. While a thread
  is between adding an index and the kill, the marks can already have reached the threshold; with
  one marking thread the secret is still hidden when k >= 2, but while one of two threads is in that
  window the other can mark k holders and more (`MarkBounds.MarksExactly`, `AlwaysHiddenExactly`).
  Outside the window the description is right (`SettledMarksHide`).
- Tolerating the marks below the threshold is said to keep fetch() working. That needs n >= 2k - 2,
  and with two threads no n is enough (`MarkBounds.NeverRefusedExactly`).
- A negative chunk size is accepted, makes one empty chunk, and silently loses the data
  (`Storage.ChunkSizeIsExact`).
- `_do_one_hop_locked` describes refreshing a chunk that has already migrated; in a run without
  exceptions that branch is never taken (`BoxRotation.RefreshBranchUnreachable`), and after an
  exception the scheduler drops the box.
- `redeem_key` describes TimeoutError for any real but expired token; an issuance in between sweeps
  the token away and the error is KeyError (`Tokens.TimeoutIsExact`, `Tokens.ExpiredCanLookUnknown`).
- `snapshot`, `get` and `remove` leave the pause flag set when they raise; `stream_to` does not.

## Model

| member | source | states |
|---|---|---|
| Bytes.WordXor | virtual-memory/vstorage/shamir.py:44-48 | The integer exclusive or of the model is the machine's, on every 9-bit word, so reducing `x << 1` by 0x11B means what the code does. |
| GaloisField.MulIsRemainder | virtual-memory/vstorage/shamir.py:26-27 | The product of two bytes is the remainder of their carry-less (polynomial) product modulo 0x11B: some multiple of the modulus XOR the product gives the carry-less product. |
| GaloisField.RemainderIsMul | virtual-memory/vstorage/shamir.py:26-27 | That remainder is unique: any byte that differs from the carry-less product by a multiple of the modulus is the product. |
| GaloisField.MulAssoc | virtual-memory/vstorage/shamir.py:56-59 | Multiplication is associative on all bytes. |
| GaloisField.MulComm | virtual-memory/vstorage/shamir.py:56-59 | Multiplication is commutative on all bytes. |
| GaloisField.MulAdditiveRight | virtual-memory/vstorage/shamir.py:47-48 | Multiplication distributes over XOR. |
| Generator.OrderIsExact | virtual-memory/vstorage/shamir.py:34-39 | 3 is primitive: no positive power of 3 below the 255th is 1. |
| Generator.ExpInjective | virtual-memory/vstorage/shamir.py:40-48 | The table loop never meets a power of 3 twice in its 255 turns. |
| Generator.ExpSurjective | virtual-memory/vstorage/shamir.py:40-48 | The 255 turns reach every non-zero byte, so every log entry is filled. |
| Generator.NoZeroDivisors | virtual-memory/vstorage/shamir.py:56-67 | A product is 0 only when a factor is. |
| Generator.DivUnique | virtual-memory/vstorage/shamir.py:62-67 | Division by b is the one inverse of multiplication by b. |
| Polynomial.ValueIsPowerSum | virtual-memory/vstorage/shamir.py:70-76 | Horner evaluation equals the sum of c_i * x^i for coefficient lists of any length. |
| Polynomial.PartitionOfUnity | virtual-memory/vstorage/shamir.py:103-112 | The Lagrange weights at 0 sum to 1 for any non-empty list of distinct points. |
| Polynomial.Interpolation | virtual-memory/vstorage/shamir.py:95-113 | Lagrange interpolation at 0 through at least as many distinct points as coefficients gives the constant term. |
| Polynomial.SolveValues | virtual-memory/vstorage/shamir.py:79-92 | Through any distinct points some polynomial of that many coefficients takes any prescribed values. |
| Polynomial.ManyRoots | virtual-memory/vstorage/shamir.py:79-92 | A polynomial with as many distinct roots as coefficients is zero, so that polynomial is the only one. |
| Shamir.InitTables | virtual-memory/vstorage/shamir.py:29-53 | Fills both tables in place: 512 powers of 3, wrapping after 255, and the logarithm of every non-zero byte. |
| Shamir.GaloisTables.GfMul | virtual-memory/vstorage/shamir.py:56-59 | The table lookup is the field product, zero operands included. |
| Shamir.GaloisTables.GfDiv | virtual-memory/vstorage/shamir.py:62-67 | The table lookup is the field quotient; 0 / 0 is 0 and a / 0 raises. |
| Shamir.GaloisTables.EvalPoly | virtual-memory/vstorage/shamir.py:70-76 | The reversed loop computes the sum of c_i * x^i; at a point above 255 it raises IndexError exactly when a coefficient besides the constant one is not zero. |
| Shamir.GaloisTables.SplitSecret | virtual-memory/vstorage/shamir.py:79-92 | Raises ValueError exactly when not 1 <= k <= n, and IndexError exactly when n > 255 and some random coefficient is not zero; else share i is the polynomial of every secret byte evaluated at i + 1, or beyond 255 the constant. |
| Shamir.GaloisTables.InterpolateByte | virtual-memory/vstorage/shamir.py:101-112 | One byte: the Lagrange sum at 0, or ZeroDivisionError exactly when some division fails. |
| Shamir.GaloisTables.CombineShares | virtual-memory/vstorage/shamir.py:95-113 | The whole result, with IndexError for an empty list or a short share and ZeroDivisionError for points that cannot be divided. |
| Shamir.DivisibleIff | virtual-memory/vstorage/shamir.py:103-110 | Recombining raises ZeroDivisionError for want of distinct points exactly when a point repeats and none is 0. |
| Shamir.CombineRaisesExactly | virtual-memory/vstorage/shamir.py:95-113 | For any list of shares: ZeroDivisionError exactly for non-empty shares at points that repeat with none 0; IndexError exactly for no shares or one shorter than the first where the loop reaches it. |
| Shamir.AnySharesReconstruct | virtual-memory/vstorage/shamir.py:79-113 | For every secret, every coefficient choice and 1 <= k <= n <= 255, any list of at least k shares at distinct points recombines to exactly the secret. |
| Secrecy.ExactlyOneExplanation | virtual-memory/vstorage/shamir.py:79-92 | Any k - 1 shares are consistent with every candidate byte through exactly one coefficient vector. |
| Secrecy.TranslationIsBijection | virtual-memory/vstorage/shamir.py:79-92 | For fewer than k shares, adding one fixed vector maps the explanations of one candidate onto those of any other, and is its own inverse. |
| Secrecy.EquallyManyExplanations | virtual-memory/vstorage/shamir.py:79-92 | So every two candidates have equally many explanations. |
| Secrecy.SharesBelowThresholdHideSecret | virtual-memory/vstorage/shamir.py:79-92 | For whole secrets: fewer than k shares of one secret are also shares of any other of the same length, under random bytes given by an involution. |
| TrustPolicy.StepKeepsInvariant | virtual-memory/vstorage/distributed_key.py:222-234 | Every read and write of any thread inside _on_holder_compromised keeps: enough marks mean someone is about to kill, or has. |
| MarkBounds.MarksExactly | virtual-memory/vstorage/distributed_key.py:222-234 | For every n, threshold (kill off included) and number of threads: a number of marks occurs while the process lives exactly when it is at most min(threshold, n) with one thread, and at most n with two or more; in states where no thread is between adding and deciding, exactly when it is at most min(threshold - 1, n). |
| MarkBounds.BelowThresholdExactly | virtual-memory/vstorage/distributed_key.py:222-234 | Fewer marks than a positive threshold in every live state of every run: exactly when nobody marks, or the threshold exceeds n. |
| MarkBounds.BoundFailsInsideWindow | virtual-memory/vstorage/distributed_key.py:225-228 | With k = 3 and n = 5 one thread reaches two marks, and two threads three, before the kill. |
| MarkBounds.SettledBelowThreshold | virtual-memory/vstorage/distributed_key.py:145-145 | Outside the window there are always fewer marks than the threshold; with the default one, at most max(0, k - 2). |
| MarkBounds.KilledOnlyAtThreshold | virtual-memory/vstorage/distributed_key.py:222-234 | The process is killed only with at least a positive threshold of holders marked, in any run. |
| MarkBounds.KillExactly | virtual-memory/vstorage/distributed_key.py:222-234 | For every n, threshold and number of threads: some run ends in the kill exactly when someone marks holders and 0 < threshold <= n. |
| MarkBounds.HiddenExactly | virtual-memory/vstorage/distributed_key.py:122-138 | What a set of marked holders knows leaves every root secret possible exactly when they are fewer than k. |
| MarkBounds.AlwaysHiddenExactly | virtual-memory/vstorage/distributed_key.py:122-145 | With the default threshold the marked holders never know the secret, in any live state of any run: exactly when at most one thread marks holders and k is not 1. |
| MarkBounds.SettledMarksHide | virtual-memory/vstorage/distributed_key.py:122-145 | Outside the window they never do, with any number of threads. |
| MarkBounds.AlwaysEnoughExactly | virtual-memory/vstorage/distributed_key.py:244-248 | In every live state at least k holders are unmarked: exactly when nobody marks, or one thread does and n >= k + max(1, k - 1). |
| MarkBounds.NeverRefusedExactly | virtual-memory/vstorage/distributed_key.py:244-248 | No fetch is refused for want of unmarked holders, in any run: exactly when there is no thread, or one and n >= 2k - 2. |
| MarkBounds.NeverRefusedSettledExactly | virtual-memory/vstorage/distributed_key.py:244-248 | In states where no thread is in the window, with any number of threads: exactly when n >= 2k - 2. |
| TrustPolicy.AloneIsMark | virtual-memory/vstorage/distributed_key.py:222-234 | A thread that is alone in the method goes through to the result the sequential method gives. |
| LocalTrust.AliveIndices | virtual-memory/vstorage/distributed_key.py:244-244 | Exactly the unmarked indices, in order. |
| LocalTrust.DistributedTrustGroup.Create | virtual-memory/vstorage/distributed_key.py:142-177 | Raises exactly when not 1 <= k <= n <= 255, ValueError or IndexError; else holder i has the share at i + 1 and nobody is marked. |
| LocalTrust.DistributedTrustGroup.OnHolderCompromised | virtual-memory/vstorage/distributed_key.py:222-234 | Marks once; kills when the marks reach a positive threshold for the first time. |
| LocalTrust.DistributedTrustGroup.MonitorSweep | virtual-memory/vstorage/distributed_key.py:214-220 | A sweep marks every dead holder and no live one, and kills exactly when a new mark reaches the threshold. |
| LocalTrust.DistributedTrustGroup.Collect | virtual-memory/vstorage/distributed_key.py:250-255 | The shares of the asked holders in order, up to the first that is dead. |
| LocalTrust.DistributedTrustGroup.Fetch | virtual-memory/vstorage/distributed_key.py:236-263 | Refused with fewer than k unmarked holders; marks the first dead one asked and raises; otherwise returns exactly the root secret and marks nobody. |
| Digits.HexRoundTrip | virtual-memory/vstorage/network_trust.py:248-248 | bytes.fromhex of the digits bytes.hex writes gives the bytes back, two digits being 16 * high + low. |
| Digits.DecimalRoundTrip | virtual-memory/vstorage/holder_server.py:77-77 | The decimal text of a number reads back as the number. |
| Wire.EncodeInjective | virtual-memory/vstorage/holder_server.py:76-82 | Different replies are different lines. |
| Wire.EncodeShape | virtual-memory/vstorage/holder_server.py:76-82 | A reply has one opening and one closing brace, at its ends, and no line break. |
| Wire.LineDecodes | virtual-memory/vstorage/network_trust.py:89-96 | For any json.loads that obeys the grammar of RFC 8259, a whole line is read as the reply that was sent. |
| Wire.SegmentWasSent | virtual-memory/vstorage/network_trust.py:89-96 | For any such json.loads, however late or partial the reads: text that ends a line either raises ValueError or is read as a reply this holder really sent, never as anything else. |
| Wire.StrictLoadObeys | virtual-memory/vstorage/network_trust.py:96-96 | Those facts about json.loads can be met: a loader that accepts nothing but replies obeys them. |
| NetworkTrust.StepKeepsInvariant | virtual-memory/vstorage/network_trust.py:182-259 | Every step of fetches, pings, answers, partial receives, timeouts, deaths and marking keeps: what a fetch has collected are the shares of the holders it asked, and the lock is held exactly by the thread that needs it. |
| NetworkTrust.EveryFetchReturnsTheSecret | virtual-memory/vstorage/network_trust.py:234-259 | In every run every fetch that returns, returns the root secret. |
| NetworkTrust.OutOfStepReplyRaises | virtual-memory/vstorage/network_trust.py:246-252 | A line read in a fetch is either the share of the holder asked, or the fetch goes to mark that holder, with the lock. |
| NetworkTrust.LockIsGivenUp | virtual-memory/vstorage/network_trust.py:213-222 | In every state of every run the lock is held exactly while its thread asks, receives, or marks in a fetch. |
| NetworkTrust.DeadStaySilent | virtual-memory/vstorage/holder_server.py:62-87 | In every run a dead holder never writes another reply. |
| NetworkMarks.PolicyReachable | virtual-memory/vstorage/network_trust.py:223-232 | In every state of every run the marks and the kill of the network group are those of a reachable state of the policy machine with as many threads, so all of MarkBounds holds of it. |
| NetworkMarks.MarksInEveryState | virtual-memory/vstorage/network_trust.py:223-232 | So in every state of every run: killed only with the threshold reached; while alive and no thread is between adding and deciding, fewer marks than a positive threshold and, with the default one, the secret hidden; one thread alone never passes the threshold. |
| NetworkMarks.LostContactIsMarked | virtual-memory/vstorage/network_trust.py:202-204 | From a timeout, a closed connection or a wrong answer on, in a fetch or a ping, in every later state the holder is marked or the thread is on its way to marking it. |
| NetworkMarks.MarkedOnReturn | virtual-memory/vstorage/network_trust.py:249-252 | A thread leaves _on_holder_compromised only with the holder marked: a fetch raises and gives up the lock, the monitor goes on. |
| NetworkMarks.RefusedExactly | virtual-memory/vstorage/network_trust.py:235-239 | In every run a fetch is refused exactly when fewer than k holders are unmarked. |
| NetworkRuns.DeathsKill | virtual-memory/vstorage/network_trust.py:229-232 | For every set of holders of the size of a positive threshold, a run in which they die ends in the kill with exactly them marked. |
| NetworkRuns.FetchSurvivesDeaths | virtual-memory/vstorage/network_trust.py:234-259 | For every k, n and set of dead holders that leaves k and stays below the threshold (or with the kill off): a run marks exactly them, and a fetch still returns. |
| NetworkRuns.SurvivingFetchIsTheSecret | virtual-memory/vstorage/network_trust.py:234-259 | And what it returns is the root secret. |
| NetworkRuns.PromptFetchReturns | virtual-memory/vstorage/network_trust.py:234-259 | In particular with nobody dead, for every 1 <= k <= n whose reply lines fit one receive. |
| NetworkTrust.LineIsGenuine | virtual-memory/vstorage/network_trust.py:89-96 | A line read from a holder raises ValueError, or is a pong or that holder's own share. |
| BoxModel.NewGuardHoldsKey | virtual-memory/vstorage/split_key_guard.py:229-247 | A new guard reconstructs to the key it was given. |
| BoxModel.BounceKeepsStored | virtual-memory/vstorage/split_key_guard.py:95-105 | A bounce of any cell leaves what the guard stores unchanged. |
| BoxModel.HopKeepsData | virtual-memory/vstorage/chunked_secure_box.py:423-462 | A hop keeps every chunk decryptable under the key its flag selects, in all branches; it raises only if the trust group does. |
| BoxModel.BounceKeepsData | virtual-memory/vstorage/split_key_guard.py:197-203 | So does a bounce of any key cell. |
| BoxModel.EveryStateHoldsData | virtual-memory/vstorage/chunked_secure_box.py:423-462 | So does any interleaving of hops and bounces, promotions that raise included. |
| BoxModel.SnapshotIsData | virtual-memory/vstorage/chunked_secure_box.py:486-496 | A snapshot in any such state is the original data. |
| BoxModel.EveryStateIsEncrypted | virtual-memory/vstorage/chunked_secure_box.py:154-200 | In any such state each chunk is exactly the encryption, under the key its flag selects, of its piece compressed with preset 6 (or of nothing, for an empty piece). |
| BoxNonces.NoncesNeverRepeat | virtual-memory/vstorage/chunked_secure_box.py:181-190 | If all nonces drawn for a box differ, its chunks carry pairwise different drawn nonces in every state of every run, promotions that raise included. |
| BoxRotation.HopMigrates | virtual-memory/vstorage/chunked_secure_box.py:441-462 | What a hop does to flags, cursor, guards and keys, lap end included. |
| BoxRotation.EveryStatePosition | virtual-memory/vstorage/chunked_secure_box.py:423-462 | After h hops without exceptions, under any interleaving with bounces: flag i is set exactly when i < cursor, the cursor is h mod the chunk count, and the guards hold generations h div the chunk count and the one after. |
| BoxRotation.RefreshBranchUnreachable | virtual-memory/vstorage/chunked_secure_box.py:446-450 | In such a run the branch for a chunk already on the next key is never taken. |
| BoxRotation.CurrentKeyIsRatchet | virtual-memory/vstorage/chunked_secure_box.py:415-421 | Without a trust group the current key is the initial key ratcheted h div the chunk count times. |
| KeyRatchet.DerivedKey | virtual-memory/vstorage/chunked_secure_box.py:415-421 | A derived key is sha256 of the old key, the secret the trust group returned (nothing without a group) and the suffix "vstorage-ratchet"; no key when the group raises. |
| KeyRatchet.KeysAreFolded | virtual-memory/vstorage/chunked_secure_box.py:415-462 | With or without a trust group, after h hops without exceptions the guards hold the initial key folded with exactly h div n, and one more, of the secrets fetched: the first when the box was made, each later one by the last hop of a lap. |
| KeyRatchet.KeyDependsOnEverySecret | virtual-memory/vstorage/chunked_secure_box.py:415-420 | If sha256 has no collisions, a key determines the initial key and every secret folded in: other secrets of the same lengths give another key. |
| BoxRotation.RaisedPromotionKeepsData | virtual-memory/vstorage/chunked_secure_box.py:455-462 | If deriving the new key raises in a promotion, both guards are the same, all flags are set, and a snapshot still returns the data. |
| Slicing.SlicesAreData | virtual-memory/vstorage/chunked_secure_box.py:328-331 | The slices concatenate to the data; none is empty, and all but the last have exactly the chunk size. |
| Slicing.BlockSlicesAreData | virtual-memory/vstorage/chunked_secure_box.py:382-400 | The same for a file read in blocks, whether or not the block size is a multiple of the chunk size. |
| Slicing.BlocksEndSlices | virtual-memory/vstorage/chunked_secure_box.py:384-394 | No slice straddles two blocks: after any number of blocks some slices concatenate to exactly those blocks. |
| Slicing.SameCut | virtual-memory/vstorage/chunked_secure_box.py:382-394 | When it is a multiple, both ways cut the same chunks. |
| Streams.StreamIsSnapshot | virtual-memory/vstorage/chunked_secure_box.py:498-525 | The pieces stream_to writes concatenate to what snapshot returns, in any reachable state. |
| Streams.BigEndianRoundTrip | virtual-memory/vstorage/chunked_secure_box.py:562-562 | The four length bytes read back as the length. |
| Streams.UnwrapWrapped | virtual-memory/vstorage/chunked_secure_box.py:544-563 | The reader applied to the writer's frames gives the pieces back, for every list of pieces whose ciphertexts are under 2^32 bytes. |
| Streams.AcceptedIsWrapped | virtual-memory/vstorage/secure_system.py:433-449 | And conversely: of the files whose lengths add up, the reader finishes without raising only on those a writer makes under that key, and what it returns is their data. |
| Streams.WrappedShowsCiphertexts | virtual-memory/vstorage/chunked_secure_box.py:556-562 | The wrapped file shows nothing of the data but its ciphertexts: pieces under another key with the same ciphertexts give the same file. |
| Streams.WrappedBoxReadsBack | virtual-memory/vstorage/chunked_secure_box.py:527-565 | Decrypting the wrapped stream of a box in any reachable state gives its data. |
| Streams.DecryptWrappedFile | virtual-memory/vstorage/secure_system.py:433-449 | The reading loop computes the reader's function for every file, well formed or not: what it wrote, and whether it raised. |
| Pools.RetrySucceeds | virtual-memory/vstorage/chunked_secure_box.py:163-168 | Allocating in a new pool never fails, and is what the second attempt does. |
| Pools.SlotsAreSeparate | virtual-memory/vstorage/chunked_secure_box.py:133-144 | Over any sequence of payloads the slots are in bounds and pairwise disjoint. |
| Pools.PoolCountBound | virtual-memory/vstorage/chunked_secure_box.py:163-168 | There are at most 1 + 2 * (total payload) / (pool size) pools. |
| Pools.PoolSizes | virtual-memory/vstorage/chunked_secure_box.py:163-168 | Over any sequence of payloads every pool has the standard size, except one that was made for a single larger payload and has just that size. |
| KeyGuards.RawCell.constructor | virtual-memory/vstorage/split_key_guard.py:79-93 | The value is on page a, page b is zero, a is active. |
| KeyGuards.RawCell.Bounce | virtual-memory/vstorage/split_key_guard.py:95-101 | The other page becomes active and holds the same value. |
| KeyGuards.RawCell.Write | virtual-memory/vstorage/split_key_guard.py:107-109 | The active page, and only it, holds the new value. |
| KeyGuards.SplitKeyGuard.constructor | virtual-memory/vstorage/split_key_guard.py:229-242 | One distinct cell per byte of the compressed key. |
| KeyGuards.SplitKeyGuard.Reconstruct | virtual-memory/vstorage/split_key_guard.py:244-247 | Reads the cells in order and decompresses. |
| KeyGuards.SplitKeyGuard.Update | virtual-memory/vstorage/split_key_guard.py:249-260 | Succeeds exactly when the compressed length is unchanged; then the new key is stored, else nothing changes. |
| KeyGuards.SplitKeyGuard.ServiceCell | virtual-memory/vstorage/split_key_guard.py:197-203 | Bounces one cell unless the guard is removed; the stored key stays. |
| ChunkedBox.ChunkPool.TryAllocate | virtual-memory/vstorage/chunked_secure_box.py:133-144 | None exactly when the payload does not fit; otherwise the old cursor, advanced by the length. |
| ChunkedBox.SameLength | virtual-memory/vstorage/chunked_secure_box.py:183-189 | A ciphertext that decrypts is 16 bytes longer than its plaintext, so re-encryption never outgrows a slot. |
| ChunkedBox.RewriteAt | virtual-memory/vstorage/chunked_secure_box.py:182-200 | Re-encrypts one chunk in place; every other chunk and every byte outside the slot is as before; a failed decryption changes nothing. |
| ChunkedBox.Chunk.Decrypt | virtual-memory/vstorage/chunked_secure_box.py:202-208 | Decrypts the slot and decompresses unless empty. |
| ChunkedBox.Allocate | virtual-memory/vstorage/chunked_secure_box.py:163-168 | The pools follow the allocator's function, and the new slot lies above every chunk in its pool. |
| ChunkedBox.NewChunk | virtual-memory/vstorage/chunked_secure_box.py:154-172 | The pools then hold the old chunks unchanged and the new one sealed, laid out as the allocator says. |
| SecureBox.AppendSlices | virtual-memory/vstorage/chunked_secure_box.py:328-331 | The loop adds exactly the slices of the data, in order. |
| SecureBox.ChunksFromFile | virtual-memory/vstorage/chunked_secure_box.py:384-400 | The two nested loops add the slices of every block; an empty file makes one empty chunk. |
| SecureBox.ChunkedSecureBox.Make | virtual-memory/vstorage/chunked_secure_box.py:315-334 | Raises exactly when deriving the second key does or the chunk size is 0; else the new box is the model's fresh box over the slices of the data, holding the key and sha256 of key, fetched secret and suffix, with the callback given. |
| SecureBox.ChunkedSecureBox.constructor | virtual-memory/vstorage/chunked_secure_box.py:321-334 | With the keys in hand: that box, with at most 1 + 2 * total / pool size pools, and two guards that share no cell. |
| SecureBox.ChunkedSecureBox.MakeFromFile | virtual-memory/vstorage/chunked_secure_box.py:336-404 | The same over a file read in blocks; an empty file is fine with chunk size 0. |
| SecureBox.ChunkedSecureBox.FromFile | virtual-memory/vstorage/chunked_secure_box.py:336-404 | With the keys in hand: the fresh box over the slices of every block. |
| SecureBox.ChunkedSecureBox.MigrateLocked | virtual-memory/vstorage/chunked_secure_box.py:441-453 | The first half of a hop, over the pools. |
| SecureBox.ChunkedSecureBox.PromoteLocked | virtual-memory/vstorage/chunked_secure_box.py:455-462 | The promotion: the new next guard holds sha256 of the promoted key, the secret fetched and the suffix, and is reported to the callback; the old current guard is collapsed; and the state an exception leaves, both guards one object and nothing reported. |
| SecureBox.ChunkedSecureBox.DoOneHopLocked | virtual-memory/vstorage/chunked_secure_box.py:423-462 | The box becomes exactly what the model's hop says, whether it finishes or raises; in the pools only one slot is written; a guard is reported exactly when a promotion made it. |
| SecureBox.ChunkedSecureBox.ServiceGuardCell | virtual-memory/vstorage/split_key_guard.py:197-203 | Servicing a cell of either guard is exactly the model's bounce event, or both bounce events when the guards are one object; the rest of the box stays. |
| SecureBox.ChunkedSecureBox.TakeSnapshot | virtual-memory/vstorage/chunked_secure_box.py:486-496 | Returns the model's snapshot and changes nothing; only an exception leaves the box paused. |
| SecureBox.ChunkedSecureBox.SendTo | virtual-memory/vstorage/chunked_secure_box.py:498-525 | Hands over the model's pieces and always clears the pause. |
| SecureBox.ChunkedSecureBox.SendWrapped | virtual-memory/vstorage/chunked_secure_box.py:527-565 | Writes the frames of those pieces when all lengths fit in four bytes, and raises otherwise. |
| SecureBox.ChunkedSecureBox.Collapse | virtual-memory/vstorage/chunked_secure_box.py:567-571 | The box and both its guards are flagged removed, and the pages of both guards and of every pool are closed. |
| Scheduler.StepKeepsInv | virtual-memory/vstorage/chunked_secure_box.py:253-308 | Every step of every worker, reader, registration and collapse keeps the invariant. |
| Scheduler.OneWorkerAtATime | virtual-memory/vstorage/chunked_secure_box.py:260-308 | In every run of any number of workers: a registered item is in exactly one place, one owner is serviced by one worker, and never once its removed flag is set. |
| Scheduler.TiesNeverReachOwners | virtual-memory/vstorage/split_key_guard.py:212-215 | Heap entries with equal due times differ in their number, so owners are never compared. |
| Scheduler.OnlyDropsRetire | virtual-memory/vstorage/chunked_secure_box.py:285-303 | An item leaves the schedule only when its owner is removed or its own service raises. |
| Scheduler.DroppedForEver | virtual-memory/vstorage/chunked_secure_box.py:285-303 | Over whole runs: once the service of an item raised, or its owner was found removed, it is in no heap entry and with no worker ever again. |
| Scheduler.RetiredExactly | virtual-memory/vstorage/chunked_secure_box.py:285-303 | In every state of every run the retired items are exactly those some earlier action dropped. |
| Scheduler.OnlyFirstDueIsTaken | virtual-memory/vstorage/chunked_secure_box.py:271-283 | Only an entry that is due is popped, and of all entries the first by due time and number. |
| Scheduler.ServiceBegins | virtual-memory/vstorage/chunked_secure_box.py:285-290 | A service begins only for an owner neither removed nor paused, by the one worker that has its lock. |
| Scheduler.PushedWithDelay | virtual-memory/vstorage/chunked_secure_box.py:304-308 | An item put back is due at the present time plus the delay its turn returned. |
| Scheduler.ServedNoSoonerThanDelay | virtual-memory/vstorage/chunked_secure_box.py:260-308 | Over whole runs: between two services of an item at least the delay the first returned passes, whatever else happens. |
| Scheduler.WholeTurn | virtual-memory/vstorage/chunked_secure_box.py:260-308 | A worker can go through with a turn whenever an entry is due and the owner is free; the item of a removed owner, or whose service raises, is then retired, every other back in the heap with its delay. |
| Scheduler.OthersStayScheduled | virtual-memory/vstorage/chunked_secure_box.py:290-303 | Whatever is dropped, every other item stays in the heap or with exactly one worker, over whole runs. |
| PackedBox.IntervalsDisjoint | virtual-memory/vstorage/packed_box.py:68-78 | Index intervals never overlap, even when empty pieces share an offset. |
| PackedBox.IndexedAppend | virtual-memory/vstorage/packed_box.py:74-77 | Adding a new name keeps index and buffer in step. |
| PackedBox.IndexedWithout | virtual-memory/vstorage/packed_box.py:99-105 | Cutting a piece and moving the later entries keeps them in step, wherever the piece was. |
| PackedBox.HeldWithout | virtual-memory/vstorage/packed_box.py:93-106 | Every other name still finds its own bytes after the cut. |
| PackedBox.ShadowsWithout | virtual-memory/vstorage/packed_box.py:100-105 | Cutting the same slice out of both buffers keeps in the inactive one, at each remaining piece's place, that piece or zeros. |
| PackedBox.PackedFallingBox.BufferIsSumOfPieces | virtual-memory/vstorage/packed_box.py:68-106 | Both buffers are as long as the held pieces together: nothing else takes up space. |
| PackedBox.PackedFallingBox.Add | virtual-memory/vstorage/packed_box.py:68-78 | The box stands for its old map with one entry more; both buffers grow by the same length. |
| PackedBox.PackedFallingBox.Get | virtual-memory/vstorage/packed_box.py:80-91 | Exactly the bytes under the name; an unknown name raises and leaves the box paused. |
| PackedBox.PackedFallingBox.Remove | virtual-memory/vstorage/packed_box.py:93-106 | The map without the name; each of the two buffers is its old self without the slice of that piece; an unknown name changes neither. |
| PackedBox.PackedFallingBox.OnlyHeldBytes | virtual-memory/vstorage/packed_box.py:93-106 | In every state every byte of either buffer lies in the place of a piece still held, and is that piece's byte or, in the inactive buffer, a zero: nothing of a removed piece is left. |
| PackedBox.PackedFallingBox.CloseGap | virtual-memory/vstorage/packed_box.py:103-105 | Every later entry moves down by the length of the gap, every other stays. |
| PackedBox.PackedFallingBox.Fall | virtual-memory/vstorage/packed_box.py:41-59 | A hop changes which buffer is active and nothing the box stands for. |
| PackedBox.PackedFallingBox.CopyOver | virtual-memory/vstorage/packed_box.py:50-52 | The 64 KB steps copy the whole buffer. |
| PackedStorage.MatchesGet | virtual-memory/vstorage/packed_system.py:44-64 | What a shared box returns for a file is its piece compressed (nothing if empty), and decompresses to it. |
| PackedStorage.PackedVirtualStorage.SaveBytes | virtual-memory/vstorage/packed_system.py:32-42 | The three shared boxes hold the new file's pieces beside all others; "full" is the input. |
| PackedStorage.PackedVirtualStorage.Retrieve | virtual-memory/vstorage/packed_system.py:59-64 | Every piece and "full" come back exactly; an unknown id raises. |
| PackedStorage.PackedVirtualStorage.Forget | virtual-memory/vstorage/packed_system.py:75-83 | That file is gone and every other is as before. |
| Splice.StepKeepsInv | virtual-memory/vstorage/splice_stealth.py:51-96 | Received, second pipe, first pipe and unsent concatenate to the input at every step; no write fails and no splice ends early. |
| Splice.SomeThreadCanMove | virtual-memory/vstorage/splice_stealth.py:64-104 | With any positive pipe capacities some thread can move until all have finished. |
| Splice.EveryStateInv | virtual-memory/vstorage/splice_stealth.py:64-104 | Along every run, with the weight of bytes still to move falling at each step. |
| Splice.ResultEqualsInput | virtual-memory/vstorage/splice_stealth.py:64-104 | Every run is at most 3 * len(data) + 3 steps, and one that can go no further returns the input. |
| Splitter.SourceIsOriginal | virtual-memory/vstorage/splitter.py:120-178 | For every extension the piece to reconstruct from is the input byte for byte. |
| Splitter.PiecesByExtension | virtual-memory/vstorage/splitter.py:120-178 | What both pieces and the metadata are for every kind of extension, the same for both entry points; only the original is left on disk. |
| Splitter.MetadataForPath | virtual-memory/vstorage/splitter.py:102-117 | The digest updated block by block is that of the whole file. |
| Splitter.MetadataTells | virtual-memory/vstorage/splitter.py:116-117 | The metadata line determines the size and the digest, whatever the names contain. |
| Storage.SavedFileComesBack | virtual-memory/vstorage/secure_system.py:163-174 | For every extension, positive chunk size, schedule of hops and bounces and entry point: snapshot, plain stream and the read-back wrapped stream are the input. |
| Storage.ChunkSizeIsExact | virtual-memory/vstorage/chunked_secure_box.py:328-331 | Over every chunk size but 0, in every reachable state: a snapshot is the input exactly when the chunk size is positive or the input is empty. |
| BoxModel.SnapshotTakesLength | virtual-memory/vstorage/chunked_secure_box.py:486-496 | Whatever length a box records, a snapshot in any reachable state is what its chunks hold, cut to that length. |
| Storage.MakeBox | virtual-memory/vstorage/secure_system.py:163-174 | Either kind of piece becomes a box that keeps exactly its bytes, starts with the key supplied and one derived with the group's secret, and reports to the watchdog if there is one; None exactly when deriving raises. |
| Storage.Hold | virtual-memory/vstorage/secure_system.py:219-243 | Three boxes that keep the three pieces, each with its own keys and registrar, or an exception when deriving a key for one of them raises; the original size is that of the source piece. |
| Storage.HopBox | virtual-memory/vstorage/chunked_secure_box.py:285-303 | A hop through the objects keeps a box's data, whether or not it raises. |
| Storage.BounceBox | virtual-memory/vstorage/split_key_guard.py:197-203 | So does moving a cell of either guard, also when the guards are one object. |
| Storage.Retrieve | virtual-memory/vstorage/secure_system.py:247-251 | Returns the data the box keeps. |
| Storage.SaveHopRetrieve | virtual-memory/vstorage/secure_system.py:163-251 | Hold, any schedule of hops and cell bounces with promotions that raise, retrieve, through the objects: the input. |
| Watchdog.ProcessWatchdog.Write | virtual-memory/vstorage/process_watchdog.py:130-132 | The loop changes exactly the entries from the start index on. |
| Watchdog.ProcessWatchdog.AddRegions | virtual-memory/vstorage/process_watchdog.py:122-133 | Succeeds exactly when count + len(regions) <= 200000; then the count grows by that and the new entries are the regions; every other entry, and on failure everything, is as before. |
| Watchdog.ProcessWatchdog.ReserveSlot | virtual-memory/vstorage/process_watchdog.py:135-155 | Returns the old count exactly when the slot fits, and -1 otherwise; writes no entry. |
| Watchdog.ProcessWatchdog.UpdateSlot | virtual-memory/vstorage/process_watchdog.py:157-165 | Overwrites in place; the table does not grow. |
| Watchdog.Registrar.Report | virtual-memory/vstorage/secure_system.py:202-217 | One registrar's reaction to a report. |
| Watchdog.StepKeepsInv | virtual-memory/vstorage/secure_system.py:202-235 | Every append and every report of any box keeps the layout of the table. |
| Watchdog.TableIsCurrent | virtual-memory/vstorage/process_watchdog.py:122-165 | Over any run: the count is within the maximum, the watched entries are exactly the current contents of the appended and reserved blocks, one after the other with nothing stale between them, and each box has at most one slot. |
| Watchdog.AppendCovers | virtual-memory/vstorage/process_watchdog.py:122-133 | After any run, a save adds its regions to what is watched exactly when they fit, and otherwise changes nothing. |
| Watchdog.FirstReportCovers | virtual-memory/vstorage/secure_system.py:207-212 | After any run, a box's first report adds its regions exactly when they fit, in a slot at the end; otherwise the box has none for ever. |
| Watchdog.UnsetUntilReport | virtual-memory/vstorage/secure_system.py:202-207 | A box has no decided slot exactly while it has not reported. |
| Watchdog.SlotHoldsLatest | virtual-memory/vstorage/secure_system.py:207-212 | A box's slot holds the regions of its most recent report of the slot's length. |
| Watchdog.SlotsNeverMove | virtual-memory/vstorage/secure_system.py:207-215 | A slot stays where it was reserved; only a box's first report can make the table grow. |
| Tokens.RedemptionIsExact | virtual-memory/vstorage/secure_system.py:389-397 | A redemption releases the issued key exactly when it is the first attempt since issuance and not past the token's own deadline; a table that is never swept does the same. |
| Tokens.TimeoutIsExact | virtual-memory/vstorage/secure_system.py:378-407 | TimeoutError is raised exactly for a live token past its deadline that no later issuance has swept. |
| Tokens.ExpiredCanLookUnknown | virtual-memory/vstorage/secure_system.py:378-388 | An expired token swept by a later issuance gives KeyError. |
| Tokens.AtMostOnce | virtual-memory/vstorage/secure_system.py:378-397 | With distinct tokens each yields its key at most once. |
| Tokens.PendingKeys.Sweep | virtual-memory/vstorage/secure_system.py:399-407 | Deletes exactly the entries whose deadline has passed. |
| Tokens.PendingKeys.IssueToken | virtual-memory/vstorage/secure_system.py:369-374 | Sweeps, then adds the token; follows the history. |
| Tokens.PendingKeys.RedeemKey | virtual-memory/vstorage/secure_system.py:378-397 | The outcome and the table after it follow the history. |

## Left out

- Shamir.GaloisTables.CombineShares: points are bytes; a share at a point above 255, which splitting makes only of constant polynomials, cannot be given to it.
- LocalTrust.DistributedTrustGroup.Create: excludes more than 255 holders of constant polynomials only, as with k = 1, for that reason; with any other polynomial splitting raises, which is modelled.
- NetworkTrust.StepKeepsInvariant: the request side of the wire (operation and token) is a queue of operations; a wrong token, TLS and the closing of connections by stop() are not modelled.
- SecureBox.ChunkedSecureBox.Make: starting to fall, that is registering with the scheduler, is the Register step of Scheduler.
- SecureBox.ChunkedSecureBox.DoOneHopLocked: is atomic, as the box lock makes it; on_new_guard is a record of the guards it was called with, and the registrar behind it is modelled in Watchdog.
- SecureBox.ChunkedSecureBox.Collapse: a reader that meets closed pages raises; that is not a state of the readers here, and the Close step of Scheduler orders closing after the flag.
- KeyGuards.RawCell.constructor: a page is the one byte that is used; locking pages and hiding them from dumps are foreign calls.
- Watchdog.SlotHoldsLatest: speaks of the most recently reported guard, because the registrar is told only of the new next guard; the current guard is covered by the block appended at save time until it is promoted away.
- Storage.Hold: the dictionary of held files, uuid generation and the registration of the boxes' regions are left to the caller; PackedStorage models the same dictionary and Watchdog the registration.
- Storage.Retrieve: takes the box itself; the lookup by file id and piece name is that dictionary again.
- Storage.MakeBox: has a positive chunk size, as every caller has; ChunkSizeIsExact covers the others.
- PackedStorage.PackedVirtualStorage.SaveBytes: save(path) hands a file marker to the compressor, which cannot take it, so only save_bytes is modelled.
- Scheduler.WholeTurn: due times are ordered values and the choice of worker is free; that every item is serviced soon is not claimed.
- Tokens.RedemptionIsExact: time is a real number and the clock does not run backwards.
- The watchdog's detection loop, ptrace, SIGKILL delivery, process spawning, page-cache hints and measurements: facts about the environment.
- PDF and Office extraction and the encoding of text: their result may be any bytes; how a name gives its extension is left to the caller.
- `sharing.py`: a hand-off over one pipe, an easier case of Splice.
- `secrets_api.py`: not modelled.
- `layer_streaming.py`: its bound is on floating-point arithmetic inside numpy.
- `self_healing.py`, `falling_box.py`, `system.py`, `sharing_tracked.py`, `vstorage_c/` and the superseded and demo files: earlier or simpler versions, and experiments.
