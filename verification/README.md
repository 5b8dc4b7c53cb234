# Proofs about the password bridge

This project models the hard parts of the bridge in Dafny and proves what they keep:

* the SRP-6a key agreement and the big-number arithmetic under it, in its Rust and its Deno form;
* the two state machines that carry requests between daemon and browser extension: `BrowserBridge`,
  whose tasks interleave under a lock, and `BridgeController`, whose handlers run one at a time;
* the readers that have an inverse: length-prefixed frames (Rust, Swift, Deno), the tree that `pass find`
  draws, semantic versions, and the keyword scan of the diagnostics bundle;
* the configuration file with the keychain behind it.

Code that works step by step is a class or a method with loops, proved against a specification on values;
the theorems are about those specifications, for every input and every run. Sockets, processes, timers,
clocks, disks, JSON, base64 and SHA-256 are parameters: a run may contain any move of theirs, and a hash is any
function with 32-byte results. The modulus of the key agreement is any number above one.

| file | what it models |
|---|---|
| `ModularArithmetic`, `Bits`, `Bytes`, `PowerMod` | powers and remainders, bit operations, padding and byte/number conversion, square-and-multiply |
| `Srp`, `Client` | the client's session, the handshake, an honest server; the client that stores the key and resumes |
| `Frames` | frame readers and writers over streams with short reads, over chunks, and under `select!` |
| `ControllerModel`, `Controller` | the extension's controller as transitions, and as a class |
| `DaemonModel`, `Daemon`, `DaemonConnection` | the daemon's locked sections, their interleavings, the class, one connection's loop |
| `Text`, `PassTree`, `Decimal`, `Semver`, `KeywordScan` | strings and the three text readers |
| `ConfigModel`, `ConfigStore` | the configuration store on values, and as a class |

## Where the code differs from what one would expect

Each of these is proved with its exact condition.

* `powermod` answers 1 to `x^0 mod 1` in Rust and 0 in Deno, and a zero modulus makes Deno fault where Rust returns a number; the loops agree otherwise (`PowerMod.LoopsAgreeExactly`).
* Rust's padding keeps the last bytes of a number that is too long, Deno's the first (`Bytes.PadValue`, `Bytes.DenoPadOfLong`).
* The Deno frame writer takes payloads that the Deno reader refuses, because the reader's cap counts the header (`Frames.DenoTripExactly`).
* When a socket closes while a request is in flight, the controller fails the request but keeps the native port; the host's late answer is then passed off as a success of the next request (`ControllerModel.LateAnswerMisdelivered`). Nothing else has this effect (`ControllerModel.AlignmentLostExactly`, `ControllerModel.AnswersAreTheirOwn`).
* The controller stops reconnecting in two ways: a socket that is not its own opens while it waits on the timer, as can happen after `updateSettings`, or the stored settings fail to load, after which starting again does nothing (`ControllerModel.RetryingLostExactly`, `ControllerModel.RetryingLostInARun`, `ControllerModel.RetryingLostAtStart`).
* A frame read that `select!` drops after it has taken bytes off the stream spoils the list of payloads for good (`Frames.SelectRecoversExactly`). It happens to any payload whose header arrives alone, just before a request is to be sent (`Frames.HeaderDroppedLosesPayload`).
* The client refuses an honest server whose public key N divides, or whose g^b N divides (`Srp.HonestHandshakeExactly`). The first can happen (`Srp.HonestKeyVanishes`); the second cannot where g has an inverse modulo N (`Srp.InvertiblePowersStay`).
* Request ids are unique up to 2^64 calls and no further (`DaemonModel.RequestIdsDistinctExactly`).
* The second status check of `enqueue_request` never fires (`DaemonModel.SecondCheckNeverFires`); `mark_status` itself would break the invariant for other statuses (`DaemonModel.MarkStatusKeepsExactly`).
* A browser connection whose loop is left through an error return is never marked: the bridge goes on showing it as attached (`DaemonConnection.LetGoExactly`, `DaemonConnection.WaitersLeftBehind`).
* Nothing keeps the parts of two hashed texts apart: a user name with a colon (`Srp.ColonsConfuse`), and public keys of different lengths in the server's proof, which is not padded (`Srp.HamkPartsShift`).
* A write meant to refuse incomplete configurations stores one without a key when a keychain-backed configuration meets a machine without a keychain (`ConfigModel.WriteIsComplete`).
* A maximum age of 2^63 milliseconds or more is read as negative, and every session as expired (`ConfigModel.LoginLifetime`).
* The test of the bundle for letters of both cases looks at lowered text and never decides (`KeywordScan.NoMixedCase`).
* The scan that jumps past rejected keywords is complete for the listed ones, but not for every keyword (`KeywordScan.ScanIsDeclaredExactly`).
* A metadata-only write rewrites a provider path in canonical form, and starts over if the path no longer validates (`ConfigModel.MetadataWriteKeepsExactly`); on a keychain-backed configuration it may delete the key, or leave it under a user that the file no longer names (`ConfigModel.KeychainKeyKeptExactly`).
* Keys stay behind in the keychain when a second user signs in, when a user signs out while the provider path does not validate, and in a few other cases (`ConfigModel.KeysStrandedExactly`, `ConfigModel.SecondLoginStrands`, `ConfigModel.UnreadableSignOutStrands`).
* A response is not asked which connection it comes from: a replaced connection can answer a request handed to its successor (`DaemonModel.IntrusionExactly`, `DaemonModel.ReplacedConnectionAnswers`).
* A `pass` tree whose columns are filled with no-break spaces reads flat, with the art left in the names (`PassTree.IndentReads`, `PassTree.NoBreakSpacesBreakIndent`).
* `write_config` has a third keychain branch that nothing reaches: the assertion in `ConfigStore.PlaceSecret` says why. The second reduction in `mod_` is never taken either.

## Model

| member | source | states |
|---|---|---|
| `PowerMod.RustMod` | rust/src/utils.rs:1142-1152 | for a modulus above zero, the remainder: below it, and different from the argument by a multiple; zero otherwise |
| `PowerMod.RustModIsRemainder` | rust/src/utils.rs:1142-1152 | so it is the Euclidean remainder |
| `PowerMod.RustPowermod` | rust/src/utils.rs:1154-1174 | the square-and-multiply loop ends with base^exponent mod modulus for every modulus above one, and with what the code's early return gives for the degenerate ones |
| `PowerMod.DenoMod` | legacy/deno/src/utils.ts:90-94 | the least non-negative residue of a number of either sign, or the division fault |
| `PowerMod.DenoModIsRemainder` | legacy/deno/src/utils.ts:90-94 | so JavaScript's signed remainder, corrected, is the Euclidean one |
| `PowerMod.DenoPowermod` | legacy/deno/src/utils.ts:96-116 | the second loop ends with g^x mod N, for a base of either sign, or reports the two faults |
| `PowerMod.SquareStep` | rust/src/utils.rs:1162-1170 | one turn keeps result * base^exp modulo n while exp halves |
| `PowerMod.LoopsAgreeExactly` | rust/src/utils.rs:1154-1174 | the loops agree exactly for moduli above one, and for modulus one unless the exponent is zero |
| `Bytes.ToBytes` | rust/src/utils.rs:1108-1110 | big-endian digits, never empty, no leading zero unless the number is zero |
| `Bytes.NumberRoundTrip` | rust/src/utils.rs:1098-1110 | reading the bytes of a number gives it back |
| `Bytes.ShortestIsToBytes` | rust/src/utils.rs:1098-1110 | a number has one spelling without superfluous bytes, and that is the one the code writes |
| `Bytes.PadBuffer` | rust/src/utils.rs:1126-1134 | the buffer filled in place is exactly `length` bytes: zeros, then the input, or the input's last bytes |
| `Bytes.PadValue` | rust/src/utils.rs:1126-1134 | padding keeps the value modulo 256^length |
| `Bytes.PadNumber` | rust/src/utils.rs:1126-1134 | the same for the bytes of a number |
| `Bytes.PadDetermines` | rust/src/utils.rs:1126-1134 | two numbers pad alike exactly when they are equal modulo 256^length |
| `Bytes.DenoPadOfShort` | legacy/deno/src/utils.ts:84-88 | Deno pads short inputs as Rust does |
| `Bytes.DenoPadOfLong` | legacy/deno/src/utils.ts:84-88 | of inputs too long it keeps the leading digits: the quotient where Rust keeps the remainder |
| `Bytes.DenoToBuffer` | legacy/deno/src/utils.ts:38-48 | the loop that puts bytes in front produces the big-endian digits |
| `Bytes.DenoReadsBigEndian` | legacy/deno/src/utils.ts:77-79 | shift-and-or over the buffer is big-endian reading |
| `Bytes.VerifyConstantTime` | legacy/deno/src/srp.ts:358-372 | the accumulating comparison decides equality, lengths included |
| `Srp.BaseIsServerPower` | legacy/rust-src/srp.rs:223-233 | B - k g^x is g^b modulo N: the verifier cancels |
| `Srp.ClientSide` | legacy/rust-src/srp.rs:223-243 | the client's secret is g^(b(a + u x)) |
| `Srp.ServerSide` | legacy/rust-src/srp.rs:199-247 | so is the server's of section 2.6 of RFC 5054 |
| `Srp.Agreement` | legacy/rust-src/srp.rs:199-247 | for every N above one, g, k, u, x, a, b and every verifier congruent to g^x, client and server compute the same secret |
| `Srp.GuardedAgreement` | legacy/rust-src/srp.rs:223-243 | with the refusal of the zero base: an error exactly when N divides g^b, else the server's secret |
| `Srp.TwoBranchSubtract` | legacy/rust-src/srp.rs:224-233 | neither subtraction underflows and the branch taken gives (B - product) mod N |
| `Srp.RustSharedSecret` | legacy/rust-src/srp.rs:223-243 | the client's computation is the guarded secret |
| `Srp.DenoSharedSecret` | legacy/deno/src/srp.ts:223-230 | a difference of either sign raised modulo N is the same secret |
| `Srp.ClientsShareTheSecret` | legacy/deno/src/srp.ts:223-230 | for the same k, u, x and a, both clients agree whenever Rust does not refuse; when it does, Deno goes on with a power of zero |
| `Srp.ScrambleInputDetermines` | legacy/rust-src/srp.rs:185-197 | the bytes hashed for u determine both public keys, modulo 256^384 |
| `Srp.ProofInputDetermines` | legacy/rust-src/srp.rs:297-317 | the bytes hashed for the proof determine salt, A, B and K, modulo 256^384, and the three digests |
| `Srp.ScrambleFields` | legacy/rust-src/srp.rs:185-197 | where the two keys stand in the bytes hashed for u: A in the first 384, B in the last |
| `Srp.ScrambleSeparates` | legacy/rust-src/srp.rs:185-197 | two pairs of public keys give the same u under every hash exactly when they agree modulo 256^384 |
| `Srp.MultiplierSeparates` | legacy/rust-src/srp.rs:27-37 | two groups give the same k under every hash exactly when modulus and generator agree |
| `Srp.CredentialsDetermine` | legacy/rust-src/srp.rs:213 | the colon tells user and password apart for users without a colon in their name |
| `Srp.ColonsConfuse` | legacy/rust-src/srp.rs:213 | and for others it does not: a user and password that are hashed like another user and password |
| `Srp.PasswordExponentSeparates` | legacy/rust-src/srp.rs:213-220 | x is the same under every hash exactly when salt, modulo 256^384, and joined user and password are |
| `Srp.NumeralFields` | legacy/rust-src/srp.rs:303-317 | where salt, A, B and K stand in the bytes hashed for the proof |
| `Srp.ProofSeparates` | legacy/rust-src/srp.rs:297-317 | for one user and group, the proof is the same under every hash exactly when salt, A, B and K agree modulo 256^384 |
| `Srp.XorBytesUndoes` | legacy/rust-src/srp.rs:297-303 | neither digest is lost in the xor that opens the proof |
| `Srp.HamkSeparates` | legacy/rust-src/srp.rs:320-332 | the server's proof is the same under every hash exactly when the unpadded bytes before hashing are |
| `Srp.HamkInputDetermines` | legacy/rust-src/srp.rs:320-332 | and for public keys and proofs of equal length those bytes tell A, proof and K apart |
| `Srp.HamkPartsShift` | legacy/rust-src/srp.rs:320-332 | for keys of different length they do not: two triples with proofs of one length and the same bytes |
| `Srp.KeyOfIsSessionKey` | legacy/rust-src/srp.rs:243-246 | the session key is the hash of the one shortest spelling of the secret |
| `Srp.SessionKeysSeparate` | legacy/rust-src/srp.rs:243-246 | two secrets have the same session key under every hash exactly when they are equal |
| `Srp.SrpSession.ClientPublicKey` | legacy/rust-src/srp.rs:176-183 | A is g^a mod N |
| `Srp.SrpSession.DeriveScramble` | legacy/rust-src/srp.rs:185-197 | the hash of both padded public keys |
| `Srp.SrpSession.SetServerPublicKey` | legacy/rust-src/srp.rs:249-263 | stores key and salt exactly when N does not divide the key, else changes nothing |
| `Srp.SrpSession.DeriveSessionKey` | legacy/rust-src/srp.rs:199-247 | a key exactly when the session's secret is defined, and then the hash of bytes without superfluous zeros that spell that secret; its error otherwise |
| `Srp.SrpSession.SetSharedKey` | legacy/rust-src/srp.rs:265-275 | stores the derived key, or leaves the session as it was |
| `Srp.SrpSession.ComputeM` | legacy/rust-src/srp.rs:277-318 | the proof over group, user, salt, both keys, session key and scramble; an error exactly when one of the three values is missing |
| `Srp.SrpSession.ComputeHmac` | legacy/rust-src/srp.rs:320-332 | the server's proof, as the client computes it |
| `Srp.SrpSession.VerifyHamk` | legacy/rust-src/srp.rs:452-457 | accepts exactly equal, non-empty proofs |
| `Srp.SrpSession.AcceptChallenge` | legacy/rust-src/client.rs:791-892 | a recent session is kept; otherwise exactly an acceptable message sets key and salt, and any error leaves the session alone |
| `Srp.SrpSession.CheckVerification` | legacy/rust-src/client.rs:911-958 | which verification messages carry a proof, and when the session is to blame |
| `Srp.SrpSession.ExchangeProofs` | legacy/rust-src/client.rs:894-962 | succeeds exactly when the server's proof is the one made with the client's key |
| `Srp.SrpSession.VerifyChallenge` | legacy/rust-src/client.rs:894-962 | the same from the password on, with the key the session is left holding; the closing write is in `Client.Manager.VerifyChallenge` |
| `Srp.SrpSession.Handshake` | legacy/rust-src/client.rs:791-962 | challenge and verification in turn succeed exactly when the challenge is acceptable and the server's proof matches, and leave the session with that key |
| `Srp.SrpSession.Restore` | legacy/rust-src/srp.rs:158-174 | user and key are set, everything else untouched |
| `ModularArithmetic.LiftedExactly` | legacy/rust-src/srp.rs:222-223 | the verifiers an honest server may hold, as `Srp` writes them, are exactly the numbers congruent to g^x |
| `Srp.HonestKeysMatch` | legacy/rust-src/srp.rs:199-247 | against an honest server the client ends with the server's session key, unless N divides g^b |
| `Srp.HonestServerIsAccepted` | legacy/rust-src/client.rs:894-962 | once its challenge has been taken, and under exactly that condition, the client accepts the server's proof |
| `Srp.HonestHandshakeExactly` | legacy/rust-src/client.rs:791-962 | whatever the session held before, the handshake with an honest server succeeds exactly when N divides neither the server's public key nor g^b, and yields the server's key |
| `Srp.HonestKeyCanVanish` | legacy/rust-src/srp.rs:249-260 | for N = 2 and g = 1 the server's public key vanishes exactly when the multiplier is odd, where g^b never does |
| `Srp.HonestKeyVanishes` | legacy/rust-src/srp.rs:249-260 | a hash with which it does |
| `Srp.InvertiblePowersStay` | legacy/rust-src/srp.rs:234-239 | where g has an inverse modulo N, N divides no power of g, so an honest server never meets the refusal of the zero base |
| `Client.Manager.constructor` | legacy/rust-src/client.rs:601-652 | a client over a session and a store |
| `Client.Manager.VerifyChallenge` | legacy/rust-src/client.rs:894-975 | a verified server's key is written to the configuration, with the write's error; otherwise the store is untouched |
| `Client.Manager.Resume` | legacy/rust-src/client.rs:601-652 | a new client takes user, key, host and port from a readable configuration, or keeps its own name and no key and takes the default address |
| `Client.HonestLoginIsRemembered` | legacy/rust-src/client.rs:894-975 | after a login against an honest server, a later read gives back the user and the server's own session key, and a new client is that user and holds that key, exactly when provider, age and keychain allow it |
| `Frames.LengthRoundTrip` | legacy/rust-src/daemon.rs:174-175 | four little-endian bytes carry any 32-bit length |
| `Frames.SwiftLengthIsLittleEndian` | legacy/native-host/Sources/main.swift:129-137 | Swift's shift-and-or reduction reads the same number as Rust's conversion |
| `Frames.FrameRoundTrip` | legacy/rust-src/daemon.rs:1871-1899 | a written frame decodes to its payload, with what follows untouched, exactly for legal lengths |
| `Frames.CapsAgreeExactly` | legacy/native-host/Sources/main.swift:135-137 | readers with the 16 and 32 KiB caps agree exactly unless the announced length lies between |
| `Frames.ReadNativeHostExact` | legacy/rust-src/daemon.rs:1901-1919 | fills the buffer with the next bytes through any pattern of short and interrupted reads, or reports the end |
| `Frames.ReadNativeHostFrame` | legacy/rust-src/daemon.rs:1871-1899 | returns the first frame and stops right behind it; on a stream without faults, also the right error |
| `Frames.SwiftReadExact` | legacy/native-host/Sources/main.swift:118-127 | the appending loop returns the next bytes, or reports the end |
| `Frames.SwiftReadFrame` | legacy/native-host/Sources/main.swift:129-139 | as the Rust reader, with the smaller cap |
| `Frames.WriteFrame` | legacy/rust-src/daemon.rs:1921-1951 | appends the frame, or as much of it as the sink takes before it fails, or refuses an oversized payload and appends nothing; success only for the whole frame, flushed |
| `Frames.CutFrameIsClosed` | legacy/rust-src/daemon.rs:1921-1951 | what a failed write leaves behind never reads as a frame |
| `Frames.ReadAll` | legacy/rust-src/daemon.rs:1871-1919 | reading frames repeatedly gives back the list of payloads written, for any pattern of partial reads |
| `Frames.PollFrame` | legacy/rust-src/daemon.rs:1871-1919 | a frame read given a number of stream reads does what its specification says of every script; ready, it has decoded the frame or met its error, unless the stream failed; pending, it has taken its bytes along |
| `Frames.PendingSpends` | legacy/rust-src/daemon.rs:1901-1919 | a read is left pending only when its whole budget of reads is spent |
| `Frames.EnoughReads` | legacy/rust-src/daemon.rs:1871-1919 | three reads more than there are short reads and interruptions always end the frame read |
| `Frames.PendingEmptyExactly` | legacy/rust-src/daemon.rs:1901-1919 | a read is dropped without having taken a byte exactly when every one of its reads was interrupted |
| `Frames.SelectLoop` | legacy/rust-src/daemon.rs:2057-2092 | the turns the loop takes are those its stream and budgets determine, all of them unless a read fails, on reliable streams and others; it sees the payloads of those turns and leaves the stream where they do |
| `Frames.BytesAccounted` | legacy/rust-src/daemon.rs:2057-2092 | bytes turned into payloads and bytes lost were all on the stream |
| `Frames.RecoveredExactly` | legacy/rust-src/daemon.rs:2057-2092 | for any list of turns, the payloads written are seen exactly when nothing is lost to abandoned reads and as many frame reads ran to their end |
| `Frames.SelectRecoversExactly` | legacy/rust-src/daemon.rs:2057-2092 | the turns of the loop on any stream of legal frames recover the payloads exactly when no read it dropped had taken a byte and as many ran to their end |
| `Frames.HeaderDroppedLosesPayload` | legacy/rust-src/daemon.rs:2057-2092 | a header that arrives alone before a request to be sent is dropped, and its payload never recovered, whatever the loop does later |
| `Frames.ReadFramedResponse` | legacy/deno/src/daemon.ts:100-152 | the loop over chunks answers what the chunk-by-chunk specification says, with each of the four errors |
| `Frames.FrameForHelper` | legacy/deno/src/daemon.ts:334-344 | header written in place and payload form the frame; refused above the cap |
| `Frames.ChunkIndependence` | legacy/deno/src/daemon.ts:100-152 | a frame of 1 to MAX - 4 bytes is read back however it is cut into chunks, empty ones included |
| `Frames.TruncationIsAnError` | legacy/deno/src/daemon.ts:108-115 | a stream that ends inside such a frame is an error |
| `Frames.AnswerExactly` | legacy/deno/src/daemon.ts:100-152 | on every stream: a payload is answered exactly when its frame ends at a chunk boundary and it has 1 to MAX - 4 bytes |
| `Frames.VerdictExactly` | legacy/deno/src/daemon.ts:100-152 | on every stream the answer, each of the four errors included, is read off the first beginning that is too long, has an illegal header or holds a frame; without one the stream closed too early |
| `Frames.DenoTripExactly` | legacy/deno/src/daemon.ts:334-344 | of the frames the writer makes, exactly those survive the reader |
| `PassTree.PassLineDepth` | rust/src/native_app.rs:1877-1891 | the counting loop gives the depth of a line |
| `PassTree.PassPickEntry` | rust/src/native_app.rs:1812-1871 | the truncate-and-push loop computes the rows of the listing, and the choice among its candidates is made |
| `PassTree.DrawnLineReads` | rust/src/native_app.rs:1873-1895 | a drawn line gives back depth and name exactly when the name is non-empty, does not start with tree art and does not end in white space |
| `PassTree.IndentReads` | rust/src/native_app.rs:1877-1895 | with a legal name, a line gives back depth and name exactly when its indent is all tree art, four columns a level |
| `PassTree.IndentBroken` | rust/src/native_app.rs:1877-1895 | any other character ends the art: depth counts up to it, the rest goes into the name |
| `PassTree.NoBreakSpacesBreakIndent` | rust/src/native_app.rs:1877-1895 | an indent filled with no-break spaces, for one |
| `PassTree.RenderParses` | rust/src/native_app.rs:1825-1841 | whatever the stack holds beyond the current path, a drawn forest yields its preorder of depths and slash-joined paths |
| `PassTree.CandidatesAreLeaves` | rust/src/native_app.rs:1843-1853 | the test on the next depth selects exactly the childless nodes |
| `PassTree.RenderParseRoundTrip` | rust/src/native_app.rs:1812-1855 | from the printed text of any listing, all rows and all childless nodes are recovered |
| `PassTree.ChooseIsBestThenFirst` | rust/src/native_app.rs:1855-1870 | the three searches pick the first among the best matches by last segment, segment, substring; none only if nothing contains the host |
| `PassTree.PickFromListing` | rust/src/native_app.rs:1812-1871 | both together: the pick from a printed listing, in terms of what was drawn |
| `PassTree.SegmentsAreNames` | rust/src/native_app.rs:1855-1870 | for names without slashes, the last segment of a joined path is the last name and its segments are the names |
| `PassTree.PickByName` | rust/src/native_app.rs:1812-1871 | the pick from a printed listing in the drawn names: the first childless node called as asked, else the first below a node so called, else the first with the text anywhere in its path, else none |
| `Text.ContainsExactly` | rust/src/native_app.rs:1869 | containment means something before and something after make up the string |
| `ControllerModel.EveryRunKeeps` | legacy/browser-bridge/bridge-controller.js:214-375 | in every run: requests accepted = answered ++ in flight ++ queued, each answer under its request's id; posted in order, at most once; at most one posted and not yet passed to `sendResponse`; what the host owes is in order and ends with the request in flight; a success carries the host's answer to that request or an earlier one; no stall on an open socket; the published depth is true |
| `ControllerModel.AnswersAreFinal` | legacy/browser-bridge/bridge-controller.js:358-390 | answers are only ever appended |
| `ControllerModel.AlignmentLostExactly` | legacy/browser-bridge/bridge-controller.js:176-185 | the host owes exactly the in-flight request's answer, and every step keeps that unless it closes a socket with a request in flight |
| `ControllerModel.AnswersAreTheirOwn` | legacy/browser-bridge/bridge-controller.js:328-356 | in a run without such a step, every success is the host's answer to the request whose id it carries |
| `ControllerModel.NextAnswerIsOwnExactly` | legacy/browser-bridge/bridge-controller.js:328-356 | in any run, the next message of the host answers the in-flight request exactly when the host owes nothing else |
| `ControllerModel.LateAnswerMisdelivered` | legacy/browser-bridge/bridge-controller.js:176-185 | a run in which the answer to one request becomes the success of the next |
| `ControllerModel.EveryRunWiresInOrder` | legacy/browser-bridge/bridge-controller.js:385-402 | the answers on the wire are a subsequence of those handed to `sendResponse`, in every run |
| `ControllerModel.DeliveredInOrder` | legacy/browser-bridge/bridge-controller.js:385-402 | so the daemon receives at most one answer per request, in order, under its id |
| `ControllerModel.StepDelivers` | legacy/browser-bridge/bridge-controller.js:214-403 | every step puts the answers it adds on the wire, all and in order, on the controller's own socket, exactly when that socket is open when they are handed over, and otherwise none; nothing is taken back |
| `ControllerModel.DeliversExactly` | legacy/browser-bridge/bridge-controller.js:214-403 | so in every run the answers on the wire are exactly those given while the own socket was open |
| `ControllerModel.AnswersGiven` | legacy/browser-bridge/bridge-controller.js:176-375 | what the answers of a step say: the host's message for the request in flight, or code 104 if it is malformed; code 103 with the reason for everything outstanding when a socket closes, the port goes or the controller stops; none otherwise unless a request cannot be started |
| `ControllerModel.GreetsAndComplains` | legacy/browser-bridge/bridge-controller.js:151-162 | the greeting comes first on a new connection; malformed data and unexpected host messages are reported |
| `ControllerModel.PublishesExactly` | legacy/browser-bridge/bridge-controller.js:69-185 | the published address and socket state, after every event |
| `ControllerModel.EveryRunShowsHost` | legacy/browser-bridge/bridge-controller.js:242-295 | in every run the native host is shown as connected exactly while there is a port |
| `ControllerModel.StopLetsGo` | legacy/browser-bridge/bridge-controller.js:88-93 | stopping leaves no socket, timer or port, and the own socket is closing |
| `ControllerModel.UpdateReopens` | legacy/browser-bridge/bridge-controller.js:95-109 | changed settings close the own socket, open one new one and touch no other |
| `ControllerModel.FlushEstablishes` | legacy/browser-bridge/bridge-controller.js:297-326 | a flush turns any consistent state into one that is not stalled |
| `ControllerModel.FailKeeps` | legacy/browser-bridge/bridge-controller.js:358-375 | failing everything answers exactly what was outstanding |
| `ControllerModel.RetryingLostExactly` | legacy/browser-bridge/bridge-controller.js:69-86 | the two ways in which a started controller ends with no socket, no timer and nothing loading |
| `ControllerModel.RetryingLostInARun` | legacy/browser-bridge/bridge-controller.js:95-109 | a run from the start that gets there through `updateSettings` |
| `ControllerModel.RetryingLostAtStart` | legacy/browser-bridge/bridge-controller.js:69-76 | a run that gets there because the settings fail to load, and in which starting again changes nothing |
| `Controller.BridgeController.constructor` | legacy/browser-bridge/bridge-controller.js:23-67 | the initial state |
| `Controller.BridgeController.UpdateState` | legacy/browser-bridge/bridge-controller.js:117-124 | publishes with the queue depth recomputed |
| `Controller.BridgeController.SendWebSocket` | legacy/browser-bridge/bridge-controller.js:392-402 | a message goes out exactly on the controller's own, open socket |
| `Controller.BridgeController.FailCurrentAndQueue` | legacy/browser-bridge/bridge-controller.js:358-375 | empties slot and queue, answering in-flight first, in order |
| `Controller.BridgeController.ConnectNativePort` | legacy/browser-bridge/bridge-controller.js:242-272 | reuses, opens, or reports the native port |
| `Controller.BridgeController.FlushQueue` | legacy/browser-bridge/bridge-controller.js:297-326 | dispatches the head of the queue, or fails everything, or does nothing: the transition `Flush` |
| `Controller.BridgeController.HandleNativeMessage` | legacy/browser-bridge/bridge-controller.js:328-356 | answers the in-flight request and flushes |
| `Controller.BridgeController.HandleWebSocketMessage` | legacy/browser-bridge/bridge-controller.js:214-240 | queues a request and flushes, or reports malformed data |
| `Controller.BridgeController.Connect` | legacy/browser-bridge/bridge-controller.js:126-149 | opens a socket if started and without one; on failure schedules a retry |
| `Controller.BridgeController.Disconnect` | legacy/browser-bridge/bridge-controller.js:188-194 | lets go of the socket and closes it if it is connecting or open |
| `Controller.BridgeController.DisconnectNativePort` | legacy/browser-bridge/bridge-controller.js:274-295 | drops the port and fails what is outstanding |
| `Controller.BridgeController.SocketClosed` | legacy/browser-bridge/bridge-controller.js:176-185 | fails what is outstanding and schedules a retry |
| `Controller.BridgeController.Handle` | legacy/browser-bridge/bridge-controller.js:69-403 | every handler is its transition and keeps the invariants, so the theorems about runs are about this class |
| `DaemonModel.IdsRepeatExactly` | legacy/rust-src/daemon.rs:378-381 | ids are equal exactly when the calls are a multiple of 2^64 apart |
| `DaemonModel.RequestIdsDistinctExactly` | legacy/rust-src/daemon.rs:378-381 | in a run, all ids differ exactly while at most 2^64 were drawn |
| `DaemonModel.SectionsKeepAttachment` | legacy/rust-src/daemon.rs:266-448 | each locked section keeps: transport, active id, attached status and connected-at present together, nothing pending without them |
| `DaemonModel.MarkStatusKeepsExactly` | legacy/rust-src/daemon.rs:309-340 | for which statuses `mark_status` keeps that |
| `DaemonModel.EveryRunKeeps` | legacy/rust-src/daemon.rs:266-454 | the whole invariant in every interleaving of at most 2^64 calls and connections |
| `DaemonModel.ExactlyOnce` | legacy/rust-src/daemon.rs:371-454 | each call's waiter is in exactly one place at any time; no channel carries two results; no call returns twice |
| `DaemonModel.NoWaiterIsLost` | legacy/rust-src/daemon.rs:371-454 | a call that has not returned has a live channel somewhere, and what it receives as a response named its own id |
| `DaemonModel.EnqueueExactly` | legacy/rust-src/daemon.rs:383-430 | a call with the lock is pending under its id and handed to the attached connection; if the send fails, or nothing is attached, it returns and the bridge is as before |
| `DaemonModel.ResponseReachesCaller` | legacy/rust-src/daemon.rs:298-307 | after any run, a response to a pending request, once delivered and received, is what its call returns, and only its entry is gone |
| `DaemonModel.ReplacementReachesCaller` | legacy/rust-src/daemon.rs:266-296 | a newer connection fails a pending call, which returns with that cause |
| `DaemonModel.EndReachesCaller` | legacy/rust-src/daemon.rs:342-364 | so does the end of the connection the request was handed to |
| `DaemonModel.StaleConnectionsAreInert` | legacy/rust-src/daemon.rs:309-364 | an error or disconnect of any connection but the attached one changes nothing; every failed waiter was handed to the connection that ended, or was replaced by another |
| `DaemonModel.IntrusionExactly` | legacy/rust-src/daemon.rs:298-307 | answers come from the connection the request was handed to, and every step keeps that unless a response naming a pending id arrives on another connection than the attached one |
| `DaemonModel.AnswersComeFromOwners` | legacy/rust-src/daemon.rs:298-307 | so in a run without such a response every answer comes from the request's own connection |
| `DaemonModel.ReplacedConnectionAnswers` | legacy/rust-src/daemon.rs:298-307 | a run with one: a replaced connection answers the first request handed to its successor |
| `DaemonModel.SecondCheckNeverFires` | legacy/rust-src/daemon.rs:383-407 | in every run the status check after the transport check finds an attached bridge |
| `DaemonModel.NumberedInOrder` | legacy/rust-src/daemon.rs:1530 | ids come from the counters in order, in every run |
| `Daemon.BrowserBridge.AttachSection` | legacy/rust-src/daemon.rs:266-296 | replaces the connection and hands back everything that was pending |
| `Daemon.BrowserBridge.CompleteSection` | legacy/rust-src/daemon.rs:298-307 | takes the waiter with that id, and only it |
| `Daemon.BrowserBridge.MarkStatusSection` | legacy/rust-src/daemon.rs:309-340 | nothing for a connection that is not the active one; detaching statuses empty the bridge |
| `Daemon.BrowserBridge.MarkError` | legacy/rust-src/daemon.rs:342-349 | fails exactly what was pending on the active connection |
| `Daemon.BrowserBridge.MarkDisconnected` | legacy/rust-src/daemon.rs:351-364 | the same for a disconnect |
| `Daemon.BrowserBridge.EnqueueSection` | legacy/rust-src/daemon.rs:383-430 | enters the waiter, or refuses, or withdraws it after a failed send and leaves the bridge as it was |
| `Daemon.BrowserBridge.FailPending` | legacy/rust-src/daemon.rs:450-454 | every waiter taken is sent the error exactly once |
| `Daemon.BrowserBridge.ServeConnection` | legacy/rust-src/daemon.rs:1578-1677 | the loop of one attached connection, interleaved with any sections of other tasks, does what its specification says and keeps the attachment invariant |
| `DaemonConnection.LetGoExactly` | legacy/rust-src/daemon.rs:1578-1677 | whatever other tasks do, the bridge is let go exactly through a reported or observed end or a newer connection, never through an error return |
| `DaemonConnection.WaitersLeftBehind` | legacy/rust-src/daemon.rs:1578-1677 | so a waiter handed to the connection, and not answered meanwhile, stays pending with the bridge still attached |
| `DaemonConnection.PendingExactly` | legacy/rust-src/daemon.rs:1578-1677 | for any interleaving: a waiter is pending at the end exactly when it was there or was entered, and no later event the loop took answered its id, entered it anew, let the bridge go, marked the attached connection or attached another |
| `DaemonConnection.OneEvent` | legacy/rust-src/daemon.rs:1578-1677 | one event: who waits and who is attached afterwards, and whether the loop goes on |
| `DaemonConnection.ShownAfterOne` | legacy/rust-src/daemon.rs:1609-1640 | what the bridge shows after an event of its attached connection |
| `DaemonConnection.RunsOnExactly` | legacy/rust-src/daemon.rs:1578-1677 | the loop runs on exactly as long as no event ends it |
| `Semver.ValidateIdentifiers` | rust/src/cli.rs:335-359 | the loop accepts exactly when every dot-separated part is a legal identifier |
| `Semver.IdentifierExactly` | rust/src/cli.rs:322-359 | the code's tests on parts are the grammar's identifiers |
| `Semver.SpellingParses` | rust/src/cli.rs:283-359 | every spelling of the grammar of Semantic Versioning 2.0.0 (items 2, 9 and 10) parses to its numbers, exactly when they are below 2^64 |
| `Semver.AcceptedDerives` | rust/src/cli.rs:283-359 | every accepted string is such a spelling |
| `Semver.RecognisesTheGrammar` | rust/src/cli.rs:283-359 | the two directions together |
| `Semver.NumbersRoundTrip` | rust/src/cli.rs:283-359 | rendering any triple below 2^64, with any legal prerelease and build, and parsing returns the triple |
| `Semver.AcceptedIsRendered` | rust/src/cli.rs:283-359 | conversely an accepted version is the rendering of its numbers with some valid prerelease and build |
| `KeywordScan.ContainsSecretKeyword` | rust/src/bundle.rs:739-766 | the skip-ahead loop computes the scan, for any non-empty keyword |
| `KeywordScan.ScanIsDeclaredExactly` | rust/src/bundle.rs:739-766 | the scan finds a revealing occurrence wherever there is one, on all texts, exactly for keywords that are safe to jump |
| `KeywordScan.ScanMisses` | rust/src/bundle.rs:762 | a text that shows it for any other keyword |
| `KeywordScan.KeywordsAreSafe` | rust/src/bundle.rs:723-733 | every listed keyword is safe |
| `KeywordScan.MatchesSecretKeyword` | rust/src/bundle.rs:721-737 | hence the answer is whether any listed keyword stands alone anywhere and reveals |
| `KeywordScan.LowerForgetsCase` | rust/src/bundle.rs:722 | lowering makes two texts equal exactly when they differ in the case of ASCII letters only |
| `KeywordScan.RevealsExactly` | rust/src/bundle.rs:743-762 | which occurrences reveal, for a text taken apart into what is before, the keyword, separators and tail |
| `KeywordScan.LooksLikeExactly` | rust/src/bundle.rs:768-793 | which tails look like a secret, by positions in the text between framing characters |
| `KeywordScan.NoMixedCase` | rust/src/bundle.rs:721-793 | in lowered text, which is all the scan sees, the test for letters of both cases never decides |
| `ConfigModel.KeyTextRoundTrip` | rust/src/utils.rs:1098-1110 | a stored key reads back, and its text is never empty |
| `ConfigModel.LoginRoundTrip` | rust/src/utils.rs:636-1096 | after a successful login write a read gives the key back exactly when provider, age and keychain allow it, with user, host and port; otherwise it fails, or gives no key if authentication was not required |
| `ConfigModel.LoginLifetime` | rust/src/utils.rs:123-132 | provider and keychain permitting, a login written at w is given back at r exactly when w <= r < w + (maximum age + 1) milliseconds and the maximum age is below 2^63; otherwise the read fails or gives no key, and the file is gone |
| `ConfigModel.LoginSucceedsExactly` | rust/src/utils.rs:824-1096 | when a login is stored at all |
| `ConfigModel.DemandedReadIsComplete` | rust/src/utils.rs:636-805 | a read that demands authentication gives a user, a key, a port and a valid host, or fails |
| `ConfigModel.WrittenIsRead` | rust/src/utils.rs:453-1096 | whatever a successful write of any kind stored is what the next read of the file returns |
| `ConfigModel.WriteStoresSettings` | rust/src/utils.rs:827-1041 | from one read of the file to the next: after a successful write, port, host, mode, user, date and provider settings are those given, else those read before, else the defaults |
| `ConfigModel.WriteStoresReports` | rust/src/utils.rs:930-998 | the same for the seven launch and bridge texts, which a reset drops |
| `ConfigModel.WriteIsComplete` | rust/src/utils.rs:848-927 | a write that may not leave an empty configuration leaves a user, and a key or a keychain to look for it, but for one case with its exact condition; a refused one leaves the file or, if it was cleared away on reading, none |
| `ConfigModel.ReadShowsFile` | rust/src/utils.rs:636-805 | a read shows the file's settings, or the defaults if there is no usable file and none is demanded |
| `ConfigModel.ManagedGoesFirst` | rust/src/utils.rs:267-296 | an administrator's setting goes before the file's, one by one |
| `ConfigModel.LegacyIsRead` | rust/src/utils.rs:418-451 | what the format before schemas reads as |
| `ConfigModel.SignOutForgets` | rust/src/utils.rs:834-900 | a write that drops the credentials leaves no user and no key in the file, takes the key it pointed to out of the keychain if the keychain lets it go, leaves the others, and no later read finds a key |
| `ConfigModel.ClearForgetsLogin` | rust/src/utils.rs:807-822 | clearing undoes the login: file gone, key gone exactly if the keychain lets it go, other keys kept, no authenticated read succeeds |
| `ConfigModel.EveryRunIsSound` | rust/src/utils.rs:636-1096 | from no file, every sequence of writes, reads and clears keeps schema 1, a non-zero port, a valid host, the size cap, and no key text beside a keychain source |
| `ConfigModel.MetadataWriteKeepsExactly` | rust/src/utils.rs:998-1041 | a metadata-only write to a file-sourced configuration, of either format, keeps user, key, creation time and provider settings exactly when the provider path is settled |
| `ConfigModel.MetadataRunsKeepCredentials` | rust/src/utils.rs:827-1041 | and so does any sequence of them, keychain included; an old file without a date is dated by the first write |
| `ConfigModel.KeychainKeyKeptExactly` | rust/src/utils.rs:900-908 | on a keychain-backed one the key survives exactly when the write does not allow an empty configuration, the deletion fails, or the provider path no longer validates; in the last case the file stops naming its user |
| `ConfigModel.KeysStrandedExactly` | rust/src/utils.rs:315-927 | whatever the file is, which operations leave a key in the keychain that the file names no user for: those that replace the user, drop the file or clear a refused one without deleting the key, or store a key and then fail |
| `ConfigModel.ReadClearsExactly` | rust/src/utils.rs:636-805 | when a read clears the store, by the state of the file and of the configuration that passed both provider checks; otherwise it leaves the store as it was |
| `ConfigModel.RunsStayTidy` | rust/src/utils.rs:315-1096 | from any file, a run of other operations leaves only the key of the user the file names, besides those that were there before |
| `ConfigModel.SecondLoginStrands` | rust/src/utils.rs:886-899 | signing in as a second user without signing out leaves the first user's key |
| `ConfigModel.UnreadableSignOutStrands` | rust/src/utils.rs:881-889 | signing out while the provider path does not validate leaves the key, under a user the file no longer names |
| `ConfigStore.ConfigStore.ClearConfig` | rust/src/utils.rs:807-822 | removes the file and the key it points to, for current and legacy formats; keeps the store sound |
| `ConfigStore.ConfigStore.WriteSharedKey` | rust/src/secrets.rs:141-186 | stores the key or changes nothing |
| `ConfigStore.ConfigStore.DeleteSharedKey` | rust/src/secrets.rs:188-221 | removes that user's key only |
| `ConfigStore.ConfigStore.ReadUserConfigFile` | rust/src/utils.rs:315-380 | which files are read, refused, or refused and cleared |
| `ConfigStore.ConfigStore.ReadConfigFile` | rust/src/utils.rs:453-473 | the same under administrator settings |
| `ConfigStore.ConfigStore.ReadConfig` | rust/src/utils.rs:636-805 | result and remaining store of a read, on every branch; keeps the store sound |
| `ConfigStore.ConfigStore.PlaceSecret` | rust/src/utils.rs:863-915 | where the secret goes and what happens to the keychain on the way |
| `ConfigStore.ConfigStore.WriteConfig` | rust/src/utils.rs:824-1096 | result and remaining store of a write, on every branch; keeps the store sound |

## Left out

- SHA-256, base64, hex and JSON: parameters, with inverse laws where a round trip needs them. AES-GCM is not part of this model. (The example in docs/INSTALLATION.md:230-235 lacks the fields that the current format requires in rust/src/types.rs:120-124, so the code reads it in the format before, which has no provider.)
- The concrete prime: its two spellings in the repository differ, and no theorem needs it.
- Agreement of the key derivations of Rust and Deno: they pad the salt, the prime and the transcript differently before hashing, so the clients are compared for the same k, u, x and a.
- `update_with_values` beyond user and key, and the Deno setter for responses, which bypass the check of B; message formats and retries of the UDP client; logging out.
- The exchange of messages in `Srp`: the server is any function from the client's proof to a decoded reply or an error.
- The Swift reader and writer are modelled on a little-endian machine.
- DaemonModel.EveryRunKeeps: holds up to 2^64 calls and 2^64 connections, the point where `RequestIdsDistinctExactly` shows ids to repeat.
- The direct-helper loop of the daemon, whose frames carry no id; persistence of the bridge status after a locked section.
- Composition of daemon and extension: their wire formats name the fields differently.
- ControllerModel.EveryRunKeeps: does not claim which socket the field `websocket` names, since the close listener clears it for any socket; the native host is taken to answer in the order of posting, and to send nothing more on a port that is gone.
- `stop` and `updateSettings` close sockets through the environment: the closing state is set at once, the close event comes later or never.
- PassTree.RenderParseRoundTrip: names are assumed not to start with tree art, not to end in white space and to have no line break, and columns to be drawn with plain spaces, the conditions `DrawnLineReads` and `IndentReads` show to be exact for a line. Reading the password from the chosen entry is I/O.
- The heuristics of the bundle other than the keyword scan, among them the entropy test.
- Preflight, doctor, installation, launch, plist extraction, Swift UI and command-line wiring: I/O or single-branch behaviour.
- The configuration store takes the file system as still while a provider path is checked: one path has one canonical form throughout a run, and canonical forms are fixed points. Permissions, temporary files and the second clock read of the age check are not modelled.
