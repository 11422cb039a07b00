# Couch Conduit: a verified model of its transport core

Couch Conduit streams a game from a host to a client over UDP. This project models the
parts that decide whether frames survive the network, and proves what they promise:

- the Reed-Solomon erasure codec over GF(2^8), from its tables to "any k of n shards
  recover the data" (`Bytes`, `GaloisField`, `LinearAlgebra`, `GaussJordan`,
  `MatrixInversion`, `Vandermonde`, `ErasureCode`, `ReedSolomon`);
- the video pipeline: packetising, sealing and parity on the host, and on the client the
  state machine that reassembles frames and rebuilds lost packets (`VideoPackets`,
  `VideoSender`, `VideoReceiver`, `FrameTracking`, `FrameRuns`, `VideoPipeline`,
  `FrameLimits`, `Recovery`, `RecoveryDelivery`, `RecoveryBursts`, `RecoveryFailures`,
  `EncryptedRecovery`, `FailingRuns`);
- the feedback loop: the client's 64-frame window, the loss rate read from it, the bitrate
  controller and the adaptive parity ratio (`FeedbackWindow`, `CongestionControl`,
  `RateRuns`, `HostFeedback`, `HostRuns`);
- two wire formats: the attribute walk over STUN responses (`StunDiscovery`,
  `StunResponses`) and the message framing over TCP (`SessionFraming`).

## How it is built

Code that changes things step by step is a class or a method on arrays with the source's
loops. Each such method is proved to refine a specification function, and the promises are
lemmas about those functions. The network is the sequence of packets or bytes that arrive,
the clock a parameter. A TCP socket carries a list of piece sizes that says how many bytes each
call moves at most, so a statement for all lists is one for every fragmentation.

What a specification function computes is also stated in other terms, without naming it: bytes and
header fields as numbers (`FrameLimits.DataOnTheWire`, `ParityAmount`, `StunResponses.ResponseBytes`,
`SessionFraming.WireBytes`), the product of the field as a remainder (`FieldLaws.ProductIsRemainder`),
parity as values of a polynomial (`ErasureCode.ShardIsValue`), averages as exact distances
(`HostRuns.LossConverges`, `RatioFollowsLoss`, `RateRuns.SpreadReports`), rates in whole numbers
(`RateRuns.DefaultDecision`, `HostRuns.ReportDecides`).

The main results, and what each rests on:

- `ErasureCode.EncodeEraseDecode`, `DecodeSucceedsIff` and `MinimumDistance` rest on the field
  laws (`FieldLaws`: doubling is linear, x has order 255), on `GaussJordan.InverseExistsIff`
  (elimination keeps the solutions, and a column without a pivot exhibits a kernel vector),
  and on `Vandermonde.RootsForceZero`. Their condition is that k + m is at most 256 or k at most 1;
  `AnyKRowsInvertibleIff` shows that it is exactly the right one.
- `VideoPipeline.LosslessRoundTrip`, `LossyChannel` and `LossOnlyChannel` rest on
  `FrameTracking.OneFrame`, which says what a blank receiver makes of any arrival order of one
  frame, and on `FrameRuns.LossyRun`, which says what it makes of many, with any parity and slots.
- `RecoveryDelivery.RecoveryDelivers` and `LossyFrame` join codec, sender and receiver: the one
  gives conditions under which a frame comes back, the other says for every run of one frame
  what is delivered and when it is right. Both start from a receiver that is blank or still
  holds part of another frame, and `RecoveryBursts.BurstComesBack` iterates the first over any
  number of lossy frames in a row.
- `FeedbackWindow.WindowIsDecodedSet` gives the bit map its meaning, and `HostRuns.MissingFramesSetTheRate`
  follows it to the bitrate.

## Where the code falls short

These claims one might expect are false of the code. Each is kept as it is, with the exact
condition under which it holds:

- A frame is delivered whole only up to 255 * 1379 bytes, since the packet count is cast to
  8 bits, and an empty frame is never delivered: `FrameLimits.RoundTripIff`.
- Recovery takes the first slot with enough parity for as many packets, whichever frame that was
  computed over, and never clears the flags of a reused slot. `Recovery.RecoveryIsExactIff` is
  the condition, `RecoveryDelivery.LossyFrame` states it for runs. `RecoveryFailures` proves both
  modes for families of frames, `FailingRuns` exhibits a run for each.
- Parity is computed over encrypted payloads, but the receiver keeps decrypted ones. In an
  encrypted stream every repair fails: `EncryptedRecovery.EncryptedLossIsNotRepaired` shows it
  for a frame, `EncryptedStream` for a stream, from slots as they are at the start.
- Late duplicates can deliver a frame twice: `FrameRuns.LateDuplicates`.
- Frames whose numbers agree modulo 2^16 can be mixed into one: `FailingRuns.AliasedFramesMix`.
- A jump of 2^16 frames or more can be mistaken for a small one, and a frame decoded late
  empties the window: `FeedbackWindow.NextFrameIff` and `LateFrame` are the conditions,
  `JumpMisleads` and `LateFrameMisleads` the streams that break them.
- A response with another magic cookie gives the right port and a wrong address:
  `StunResponses.XorRoundTrip`.

Where documentation and code disagree, the model follows the code. `docs/ARCHITECTURE.md`
gives fixed parity percentages for 0%, 1% and 5% loss, adjusted every 100 ms; the code aims at 1.5
times the smoothed loss, between 5% and 40%, more than 500 ms apart. `transport.h` calls the
loss map one of packets and says that a parity packet has index 0xFF; the map is one of frames,
and parity packets count from 0. The host's feedback loop uses the session's own controller
with its default settings, not the one it initialises for each client, and feeds it zero send
times, so that the bitrate follows loss alone (`RateRuns.StillRuns`).

## Model

| member | source | states |
|---|---|---|
| `FieldLaws.DoubleLinear` | include/couch_conduit/common/reed_solomon.h:57-58 | The shift-and-reduce step is linear over XOR, the fact behind every distributive law |
| `FieldLaws.DoubleInjective` | include/couch_conduit/common/reed_solomon.h:57-58 | Different bytes never double to the same byte, so no entry of the table can be reached in two ways by stepping back |
| `FieldLaws.Period` | include/couch_conduit/common/reed_solomon.h:54-59 | 255 doublings of 1 come back to 1 |
| `FieldLaws.OrderIsNotSmaller` | include/couch_conduit/common/reed_solomon.h:54-59 | No smaller positive number of doublings does, so 0x11D is primitive and the loop never overwrites a logarithm |
| `FieldLaws.XPowInjective` | include/couch_conduit/common/reed_solomon.h:54-59 | The 255 generated powers are pairwise different |
| `FieldLaws.XPowMod` | include/couch_conduit/common/reed_solomon.h:60-63 | The i-th doubling of 1 is table entry i mod 255 for every natural i |
| `FieldLaws.EveryNonzeroIsAPower` | include/couch_conduit/common/reed_solomon.h:56 | Every nonzero byte gets a logarithm |
| `FieldLaws.MulAddLeft` | include/couch_conduit/common/reed_solomon.h:26-29 | Polynomial multiplication modulo 0x11D distributes over XOR on the left |
| `FieldLaws.MulAddRight` | include/couch_conduit/common/reed_solomon.h:26-29 | ... and on the right |
| `FieldLaws.XPowAdd` | include/couch_conduit/common/reed_solomon.h:28 | Adding exponents multiplies: the reason why one table lookup can multiply |
| `FieldLaws.MulCommutes` | include/couch_conduit/common/reed_solomon.h:26-29 | Multiplication commutes |
| `FieldLaws.MulAssociates` | include/couch_conduit/common/reed_solomon.h:26-29 | Multiplication associates |
| `FieldLaws.MulNonzero` | include/couch_conduit/common/reed_solomon.h:27 | No two nonzero bytes multiply to zero |
| `FieldLaws.ProductIsRemainder` | include/couch_conduit/common/reed_solomon.h:26-29 | The product is the remainder of the unreduced polynomial product on division by 0x11D, for all bytes |
| `FieldLaws.InvIsInverse` | include/couch_conduit/common/reed_solomon.h:37-40 | Every nonzero byte has a nonzero two-sided inverse |
| `FieldLaws.PowerByLog` | include/couch_conduit/common/reed_solomon.h:42-45 | The n-fold product of a is the power of x with exponent n times the logarithm of a |
| `GaloisTables.GaloisField.constructor` | include/couch_conduit/common/reed_solomon.h:51-64 | The constructor's tables hold the powers of x in all 512 entries and their logarithms |
| `GaloisTables.GeneratePowers` | include/couch_conduit/common/reed_solomon.h:53-59 | The first loop fills 255 powers and logarithms, each logarithm once |
| `GaloisTables.ShiftReduce` | include/couch_conduit/common/reed_solomon.h:57-58 | The 16-bit shift and conditional XOR are one multiplication by x |
| `GaloisTables.RecordedLog` | include/couch_conduit/common/reed_solomon.h:56 | Recording a logarithm keeps all earlier ones |
| `GaloisTables.ExtendPowers` | include/couch_conduit/common/reed_solomon.h:61-63 | The second loop extends the powers to 512 entries without breaking the first 255 |
| `GaloisTables.GaloisField.LogIsLog` | include/couch_conduit/common/reed_solomon.h:56 | Every nonzero entry of the log table is the discrete logarithm |
| `GaloisTables.GaloisField.Mul` | include/couch_conduit/common/reed_solomon.h:26-29 | Table multiplication equals shift-and-add multiplication of polynomials modulo 0x11D, for all bytes including zero |
| `GaloisTables.GaloisField.Div` | include/couch_conduit/common/reed_solomon.h:31-35 | The quotient times the divisor is the dividend; dividing by zero gives zero |
| `GaloisTables.GaloisField.Inv` | include/couch_conduit/common/reed_solomon.h:37-40 | Table inversion is the field inverse, zero for zero |
| `GaloisTables.GaloisField.Pow` | include/couch_conduit/common/reed_solomon.h:42-45 | The n-fold product for a nonzero base; for base zero always zero, so 0 to the power 0 is 0 |
| `LinearAlgebra.DotAddRight` | src/common/fec/reed_solomon.cpp:50-54 | A dot product of any length is additive, so encoding is linear |
| `LinearAlgebra.DotScaleRight` | src/common/fec/reed_solomon.cpp:50-54 | ... and homogeneous |
| `LinearAlgebra.MatMulVec` | src/common/fec/reed_solomon.cpp:46-56 | The computed matrix product applied to a vector is the two matrices applied in turn |
| `GaussJordan.SwapKeepsKernel` | src/common/fec/reed_solomon.cpp:83 | Swapping two rows keeps the solutions of the system, both ways |
| `GaussJordan.ScaleKeepsKernel` | src/common/fec/reed_solomon.cpp:86-90 | Scaling the pivot row keeps the solutions |
| `GaussJordan.ClearKeepsKernel` | src/common/fec/reed_solomon.cpp:92-100 | Clearing a column keeps the solutions |
| `GaussJordan.StepKeepsKernel` | src/common/fec/reed_solomon.cpp:72-101 | So a whole elimination round keeps exactly the solutions of the system |
| `GaussJordan.StepExtendsUnitColumns` | src/common/fec/reed_solomon.cpp:72-101 | Each round makes one more column a unit column and keeps those already made |
| `GaussJordan.ReduceIsSound` | src/common/fec/reed_solomon.cpp:72-101 | A completed elimination has the identity on the left and exactly the original solutions |
| `GaussJordan.StuckColumn` | src/common/fec/reed_solomon.cpp:82 | A column without a pivot yields a nonzero vector that the system sends to zero |
| `GaussJordan.ReduceIsComplete` | src/common/fec/reed_solomon.cpp:82 | Whenever the elimination gives up, such a vector exists with support in the left half |
| `GaussJordan.InverseSolves` | src/common/fec/reed_solomon.cpp:59-110 | A x = y exactly when x is the computed inverse applied to y |
| `GaussJordan.InverseIsTwoSided` | src/common/fec/reed_solomon.cpp:103-109 | The extracted right half is a left and a right inverse |
| `GaussJordan.SingularHasKernel` | src/common/fec/reed_solomon.cpp:82 | On a false result some nonzero vector is mapped to zero |
| `GaussJordan.InverseExistsIff` | src/common/fec/reed_solomon.cpp:59-110 | The elimination succeeds exactly on the invertible matrices, which are exactly the injective ones |
| `GaussJordan.InverseIsUnique` | src/common/fec/reed_solomon.cpp:59-110 | There is only one two-sided inverse, so the result does not depend on the pivots chosen |
| `MatrixInversion.Swap` | src/common/fec/reed_solomon.cpp:83 | Swaps two rows of the work array in place and nothing else |
| `MatrixInversion.Scale` | src/common/fec/reed_solomon.cpp:88-90 | Multiplies every entry of one row by the given byte |
| `MatrixInversion.AddMultiple` | src/common/fec/reed_solomon.cpp:97-99 | Adds a multiple of the pivot row to one other row |
| `MatrixInversion.Clear` | src/common/fec/reed_solomon.cpp:93-100 | Clears the pivot column in every other row, skipping zero factors |
| `MatrixInversion.AugmentWithIdentity` | src/common/fec/reed_solomon.cpp:62-69 | Builds [A, I] in a fresh array |
| `MatrixInversion.Pivot` | src/common/fec/reed_solomon.cpp:73-82 | Finds the first row at or below the diagonal with a nonzero entry, if there is one |
| `MatrixInversion.EliminateColumn` | src/common/fec/reed_solomon.cpp:72-101 | One loop round refines one round of the elimination on values, failing exactly when no pivot exists |
| `MatrixInversion.Eliminate` | src/common/fec/reed_solomon.cpp:72-101 | The whole loop refines the elimination on values |
| `MatrixInversion.ExtractInverse` | src/common/fec/reed_solomon.cpp:103-108 | Copies the right half into the argument |
| `MatrixInversion.InvertMatrix` | src/common/fec/reed_solomon.cpp:59-110 | In place: true exactly for invertible matrices, leaving the two-sided inverse; false leaves the argument as it was |
| `Vandermonde.DivideByRoot` | src/common/fec/reed_solomon.cpp:24-37 | Division of a polynomial by a linear one: the step behind the bound on roots |
| `Vandermonde.RootsForceZero` | src/common/fec/reed_solomon.cpp:24-37 | A polynomial with as many different roots as coefficients is zero |
| `Vandermonde.DotIsEval` | src/common/fec/reed_solomon.cpp:24-37 | A Vandermonde row times coefficients is the value of the polynomial at its point |
| `Vandermonde.EvaluationIsInjective` | src/common/fec/reed_solomon.cpp:24-37 | A square Vandermonde matrix at different points maps only zero to zero |
| `Bytes.IndexOfNat` | src/common/fec/reed_solomon.cpp:34 | The cast to `uint8_t` keeps the value modulo 256 |
| `ErasureCode.PointsAreDistinct` | src/common/fec/reed_solomon.cpp:34 | The points `static_cast<uint8_t>(i)` are different as long as there are at most 256 |
| `ErasureCode.TopIsInvertible` | src/common/fec/reed_solomon.cpp:39-44 | The inversion whose result BuildEncMatrix ignores always succeeds for k up to 256 |
| `ErasureCode.VandEvaluates` | src/common/fec/reed_solomon.cpp:24-37 | Row i of the Vandermonde matrix evaluates a polynomial at the byte i, not at any other point |
| `ErasureCode.EncodingEvaluates` | src/common/fec/reed_solomon.cpp:45-56 | The encoding matrix carries the values of a polynomial at 0, 1, .., k - 1 to its values at 0, 1, .., k + m - 1, each reduced to a byte |
| `ErasureCode.ShardIsValue` | src/common/fec/reed_solomon.cpp:112-141 | Encoding in numbers: when a polynomial takes the data bytes as its values at 0, 1, .., k - 1, byte b of shard i is its value at i, parity included |
| `ErasureCode.ShardsAreValues` | src/common/fec/reed_solomon.cpp:112-141 | There is such a polynomial for every byte position of every data |
| `ErasureCode.TwoShards` | src/common/fec/reed_solomon.cpp:112-141 | For two data shards, byte b of shard i lies on the line through their bytes |
| `ErasureCode.ParityOfOneAndTwo` | src/common/fec/reed_solomon.cpp:112-141 | The parity of [1] and [2] is [7] |
| `ErasureCode.TopIsIdentity` | src/common/fec/reed_solomon.cpp:18-20 | The code is systematic: the top block is the identity |
| `ErasureCode.RowsAtDistinctPoints` | src/common/fec/reed_solomon.cpp:175-184 | Any k rows at different points form an invertible matrix |
| `ErasureCode.PointsWrapAround` | src/common/fec/reed_solomon.cpp:34 | Rows 0 and 256 are equal because the cast wraps around |
| `ErasureCode.AnyKRowsInvertibleIff` | src/common/fec/reed_solomon.cpp:17-57 | Any k different rows are invertible exactly when k + m is at most 256 or k is at most 1 |
| `ErasureCode.DataShards` | src/common/fec/reed_solomon.cpp:18-20 | Shard i below k of a codeword is data shard i, zero padded |
| `ErasureCode.PickedIsChoice` | src/common/fec/reed_solomon.cpp:167-173 | The picked indices are k different present ones in ascending order |
| `ErasureCode.PickedHasData` | src/common/fec/reed_solomon.cpp:167-173 | Every present data shard is among the picked ones |
| `ErasureCode.ChosenIsInvertible` | src/common/fec/reed_solomon.cpp:183-184 | The sub-matrix inversion of Decode never fails within the field |
| `ErasureCode.DecodeSucceedsIff` | src/common/fec/reed_solomon.cpp:143-205 | Decode returns true exactly on k + m buffers and flags with at least k shards present |
| `ErasureCode.DecodedShards` | src/common/fec/reed_solomon.cpp:186-204 | A successful decode leaves present data shards alone and builds missing ones of the full size |
| `ErasureCode.RecoveredSolves` | src/common/fec/reed_solomon.cpp:186-202 | Whatever the shards hold, the decoded data is a solution of the picked rows |
| `ErasureCode.DecodeIsExact` | src/common/fec/reed_solomon.cpp:143-205 | Decode yields given data exactly when the shards it picked are those of that data's codeword |
| `ErasureCode.DecodeRecovers` | src/common/fec/reed_solomon.cpp:112-205 | Any k shards of a codeword recover every missing data shard, zero padded; all other shards are as before |
| `ErasureCode.EncodeEraseDecode` | src/common/fec/reed_solomon.cpp:112-205 | Encode, erase any shards but k, decode: every missing data shard comes back, for all contents, lengths and erasure patterns |
| `ErasureCode.OnlyParityCanDisagree` | src/common/fec/reed_solomon.cpp:186-202 | With right data shards, decoding goes wrong exactly when a picked parity shard is not the codeword's |
| `ErasureCode.AgreementFixesData` | src/common/fec/reed_solomon.cpp:45-56 | Two codewords that agree in k shards carry the same data |
| `ErasureCode.MinimumDistance` | src/common/fec/reed_solomon.cpp:45-56 | Different data always differ in at least m + 1 shards of their codewords |
| `ReedSolomonCodec.BuildVandermonde` | src/common/fec/reed_solomon.cpp:24-37 | The loops put the byte i to the power j at (i, j), with 0 to the power 0 taken as 1: the matrix whose rows evaluate at 0, 1, 2 and so on |
| `ReedSolomonCodec.TopBlock` | src/common/fec/reed_solomon.cpp:39-43 | Copies the top k rows |
| `ReedSolomonCodec.BuildEncMatrix` | src/common/fec/reed_solomon.cpp:17-57 | The loops build the encoding matrix about which the theorems above speak, whatever k and m |
| `ReedSolomonCodec.Multiply` | src/common/fec/reed_solomon.cpp:46-56 | The triple loop computes the matrix product |
| `ReedSolomonCodec.Accumulate` | src/common/fec/reed_solomon.cpp:132-137 | A skipped zero coefficient and the length limit leave the sum as if the shard were zero padded |
| `ReedSolomonCodec.CountAvailable` | src/common/fec/reed_solomon.cpp:153-158 | Counts the present shards |
| `ReedSolomonCodec.AllPresent` | src/common/fec/reed_solomon.cpp:160-165 | Says whether every data shard is there |
| `ReedSolomonCodec.FirstAvailable` | src/common/fec/reed_solomon.cpp:167-173 | The early-ending loop picks the first k present shards |
| `ReedSolomonCodec.ReedSolomon.constructor` | src/common/fec/reed_solomon.cpp:12-15 | The codec holds the encoding matrix for its k and m |
| `ReedSolomonCodec.ReedSolomon.Encode` | src/common/fec/reed_solomon.cpp:112-141 | Refuses a wrong number of data shards, and otherwise produces the parity shards of the codeword |
| `ReedSolomonCodec.ReedSolomon.Decode` | src/common/fec/reed_solomon.cpp:143-205 | In place: succeeds exactly when the specification does, leaving its shards, and changes nothing on failure |
| `ReedSolomonCodec.ReedSolomon.CopyRows` | src/common/fec/reed_solomon.cpp:175-181 | Copies the rows of the picked shards |
| `ReedSolomonCodec.ReedSolomon.RecoverMissing` | src/common/fec/reed_solomon.cpp:186-202 | Rebuilding in place reads only present shards, so no rebuilt shard disturbs another |
| `ReedSolomonCodec.ReedSolomon.RebuildShard` | src/common/fec/reed_solomon.cpp:190-201 | Accumulates one missing shard from the picked ones |
| `VideoPackets.OpenSeal` | src/common/transport/video_receiver.cpp:85-102 | The receiver, rebuilding the nonce from the header, undoes the sender's encryption of any non-empty payload |
| `VideoSending.PaddingIsHarmless` | src/common/transport/video_sender.cpp:147-160 | Zero-padding the shards before encoding does not change the parity |
| `VideoSending.FecPacketAt` | src/common/transport/video_sender.cpp:127-193 | A parity packet exists only with k and m at least 1 and k + m at most 255, and carries shard j of the code over the payloads |
| `VideoSending.VideoSender.SendFrame` | src/common/transport/video_sender.cpp:37-125 | Emits the data packets, sealed, then the parity packets, and leaves the counters behind the last of them |
| `VideoSending.VideoSender.Packetise` | src/common/transport/video_sender.cpp:43-72 | The offset loop cuts the frame into the numbered chunks of the specification |
| `VideoSending.VideoSender.SealAll` | src/common/transport/video_sender.cpp:77-98 | Every packet is sealed under the nonce of its own header; one that cannot be encrypted stays as it is |
| `VideoSending.VideoSender.GenerateFec` | src/common/transport/video_sender.cpp:127-193 | Produces the parity packets of the specification from the packets on their way, encrypted ones included |
| `VideoSending.VideoSender.ClampedParity` | src/common/transport/video_sender.cpp:134-137 | The ratio's share of k rounded down, at least 1, and at most what makes 255 shards |
| `VideoSending.VideoSender.EncodeParity` | src/common/transport/video_sender.cpp:147-168 | Encodes the padded shards to the parity of the unpadded ones |
| `VideoSending.VideoSender.LongestPayload` | src/common/transport/video_sender.cpp:139-145 | The loop finds the longest payload |
| `VideoSending.VideoSender.WrapAll` | src/common/transport/video_sender.cpp:170-190 | Wraps each parity shard with the next sequence number and advances the counter |
| `VideoPipeline.ChunksPartitionTheFrame` | src/common/transport/video_sender.cpp:47-72 | The chunks have 1 to 1379 bytes each and put together are the frame |
| `FrameLimits.EmissionNumbers` | src/common/transport/video_sender.cpp:54 | Packet i of an emission, data or parity, carries sequence number s + i modulo 2^16 |
| `FrameLimits.StreamNumbers` | src/common/transport/video_sender.cpp:54-120 | Over any run of SendFrame calls the i-th packet carries the i-th sequence number, and frame n the n-th group modulo 2^8 |
| `FrameLimits.NoncesRepeat` | src/common/transport/video_sender.cpp:84-87 | Over any run two data packets are sealed under the same nonce exactly when their frame numbers and their positions in the stream agree modulo 2^16 |
| `FrameLimits.NoncesDifferInFrame` | src/common/transport/video_sender.cpp:84-87 | So no two packets of one frame share a nonce |
| `FrameLimits.ParityFieldsSurvive` | src/common/transport/video_sender.cpp:170-190 | For every frame within the limits, k, m and the shard index survive their 8-bit fields in every parity packet |
| `FrameLimits.EmittedParity` | src/common/transport/video_sender.cpp:110-118 | Behind the data packets come exactly the parity packets over them |
| `FrameLimits.ParityAmount` | src/common/transport/video_sender.cpp:110-137 | How much parity follows a frame of k packets: none below a share of one packet, the share rounded down, and with the data never more than 255 |
| `FrameLimits.FiftyPackets` | src/common/transport/video_sender.cpp:110-137 | At the ratio a session starts with, 50 packets are followed by 5 |
| `FrameLimits.DataCountWraps` | src/common/transport/video_sender.cpp:40-44 | As many data packets go out as a 16-bit counter makes of the frame's size over 1379 |
| `FrameLimits.DataOnTheWire` | src/common/transport/video_sender.cpp:46-99 | A data packet in numbers: every header field, the end-of-frame flag exactly on the last packet, its 1379 bytes of the frame, and the nonce they are sealed under |
| `FrameLimits.ParityOnTheWire` | src/common/transport/video_sender.cpp:170-190 | A parity packet in numbers: every header field, among them type 97, flag 4, and the counts of data and parity |
| `VideoReceiving.Step` | src/common/transport/video_receiver.cpp:64-178 | For an arbitrary packet: flags and packets keep length totalPackets, the count is that of the flags, and the pending frame ends blank or strictly incomplete |
| `VideoReceiving.Untouched` | src/common/transport/video_receiver.cpp:85-108 | A data packet that fails to decrypt changes nothing; a parity packet changes no pending frame, only the slot of its group modulo 16, and that only under the Reed-Solomon flag |
| `VideoReceiving.Run` | src/common/transport/video_receiver.cpp:64-178 | The same after every run of arbitrary packets |
| `VideoReceiving.StoreParity` | src/common/transport/video_receiver.cpp:110-130 | Storing a parity packet keeps flags and shards of equal length, large enough for the slot's m |
| `VideoReceiving.FirstUsable` | src/common/transport/video_receiver.cpp:186-214 | The scan ends at the first slot with enough shards for the pending frame, and none before it has them |
| `VideoReceiving.VideoReceiver.OnPacket` | src/common/transport/video_receiver.cpp:64-178 | One loop iteration refines one step: same state, same callbacks in the same order |
| `VideoReceiving.VideoReceiver.OnData` | src/common/transport/video_receiver.cpp:134-176 | The data branch refines its part of the step |
| `VideoReceiving.VideoReceiver.FlushCurrent` | src/common/transport/video_receiver.cpp:138-152 | A partly received frame gets one recovery attempt and is delivered only when that completes it |
| `VideoReceiving.VideoReceiver.TryAssembleFrame` | src/common/transport/video_receiver.cpp:276-311 | Delivers the packets' concatenation with the frame's metadata and blanks the pending frame |
| `VideoReceiving.VideoReceiver.TryRsFecRecovery` | src/common/transport/video_receiver.cpp:180-274 | The scan over the slots refines the recovery of the specification and makes no callback |
| `VideoReceiving.VideoReceiver.HasEnoughShards` | src/common/transport/video_receiver.cpp:187-214 | The chain of checks that skip a slot decides usability |
| `VideoReceiving.VideoReceiver.UseSlot` | src/common/transport/video_receiver.cpp:216-272 | Decoding, copying back and retiring the slot together refine the recovery |
| `VideoReceiving.VideoReceiver.FindShardSize` | src/common/transport/video_receiver.cpp:216-225 | The size is the largest of the stored parity and the received packets |
| `VideoReceiving.VideoReceiver.BuildShards` | src/common/transport/video_receiver.cpp:227-250 | Builds padded data and parity buffers and their presence flags |
| `VideoReceiving.VideoReceiver.Place` | src/common/transport/video_receiver.cpp:230-250 | Copies only the sources that are there, to their own buffers |
| `VideoReceiving.VideoReceiver.CopyBack` | src/common/transport/video_receiver.cpp:255-263 | Takes exactly the missing packets from the decoded shards |
| `FrameTracking.OneFrame` | src/common/transport/video_receiver.cpp:165-176 | Within one frame, in any arrival order and with any duplicates and parity in between, delivery happens exactly when every index has arrived, once, with the chunks in index order |
| `FrameRuns.OneMoreFrame` | src/common/transport/video_receiver.cpp:134-176 | Whatever is pending and whatever parity the slots hold, a frame's first data packet flushes the pending frame, and the frame itself is delivered exactly when complete, once |
| `FrameRuns.NothingToFlush` | src/common/transport/video_receiver.cpp:138-152 | With nothing pending, or without any live parity, a flush delivers nothing and changes no slot: a frame received in part is dropped |
| `FrameRuns.LossyRun` | src/common/transport/video_receiver.cpp:64-178 | Over several frames, with any loss, any parity and any slots: every complete frame is delivered whole, in order and once, and in between only what each part's first data packet flushes |
| `FrameRuns.FlushedIsPending` | src/common/transport/video_receiver.cpp:138-152 | A flush delivers at most the one frame that was pending, and only when part of it was missing |
| `FrameRuns.ManyFrames` | src/common/transport/video_receiver.cpp:134-176 | Where nothing is lost, or no parity is about, nothing is flushed: exactly the complete frames are delivered |
| `FrameRuns.LateDuplicates` | src/common/transport/video_receiver.cpp:309-310 | After completion tracking restarts: duplicates deliver the frame again exactly when all its packets are duplicated |
| `VideoPipeline.SentIsOf` | src/common/transport/video_sender.cpp:43-98 | Data packet i, sealed, sent and opened, is packet i of its frame |
| `VideoPipeline.LosslessRoundTrip` | src/common/transport/video_receiver.cpp:64-178 | Nothing lost: the callbacks receive exactly the frames sent, in order, encrypted or not, whatever parity is interleaved behind them and whatever the slots held |
| `VideoPipeline.LossyChannel` | src/common/transport/video_receiver.cpp:64-178 | Packets lost and any parity packets mixed in, whatever the slots hold: every frame all of whose data packets arrived is delivered, byte for byte, in send order, once; in between come at most frames received in part, each when the next frame with a survivor starts, under its own number |
| `RecoveryDelivery.FlushedBytes` | src/common/transport/video_receiver.cpp:138-272 | The bytes of those: each is the pending frame as recovered, its packets right exactly when the slot used holds parity of its own chunks and no missing chunk exceeds the shard size |
| `VideoPipeline.LossOnlyChannel` | src/common/transport/video_receiver.cpp:134-176 | Packets lost and no parity: exactly the frames all of whose packets arrived are delivered, byte for byte, in send order, each once |
| `FailingRuns.AliasedFramesMix` | src/common/transport/video_receiver.cpp:137 | Two frames of two packets whose numbers agree modulo 2^16 each lose one packet: the rest of both is delivered as one frame |
| `FailingRuns.TheyAlias` | src/common/transport/video_receiver.cpp:137 | That is a case which the two theorems above set apart |
| `FrameLimits.RoundTripIff` | src/common/transport/video_sender.cpp:41-59 | A frame sent alone over a lossless channel is delivered whole exactly when it has 1 to 255 * 1379 bytes |
| `Recovery.RecoverAllOrNothing` | src/common/transport/video_receiver.cpp:252-272 | Recovery fills every missing packet or none, and never touches a received one |
| `Recovery.RecoveryUpToSize` | src/common/transport/video_receiver.cpp:216-272 | Recovery from a usable slot always completes the frame; byte by byte up to its shard size it is right exactly when the parity it uses is that of the frame's own chunks |
| `Recovery.RecoveryIsExactIff` | src/common/transport/video_receiver.cpp:216-272 | Every packet of the recovered frame is its chunk, with zeros behind it at most, exactly when the parity is the frame's own and no missing chunk is longer than the shard size |
| `Recovery.StoreOwn` | src/common/transport/video_receiver.cpp:110-130 | A frame's own parity packet overwrites its shard and flag and leaves the other leftovers as they were |
| `Recovery.CoveredSlotIsOwn` | src/common/transport/video_receiver.cpp:116-129 | Once every leftover flag is overwritten, the slot holds exactly the frame's own parity |
| `Recovery.SlotsWithOwnParity` | src/common/transport/video_receiver.cpp:104-132 | Any mix of data and own parity packets touches only the frame's own slot, and leaves there the arrived parity over whatever the slot held |
| `RecoveryDelivery.OwnSlotIsFirst` | src/common/transport/video_receiver.cpp:186-214 | The scan picks the frame's own slot exactly past slots that are not usable for it, live ones with too few shards included |
| `RecoveryDelivery.OwnRecovery` | src/common/transport/video_receiver.cpp:216-272 | From its own slot, recovery gives back every missing chunk, zero padded to the shard size |
| `RecoveryDelivery.SealedParity` | src/common/transport/video_sender.cpp:77-193 | A parity packet carries a shard of the code over the payloads as they went out, encrypted ones included |
| `RecoveryDelivery.EmissionParity` | src/common/transport/video_sender.cpp:127-193 | Unencrypted, that is the code over the frame's own chunks |
| `RecoveryDelivery.EmissionKinds` | src/common/transport/video_sender.cpp:37-125 | Every packet of a frame is one of its data packets or one of its own parity packets, encrypted or not |
| `RecoveryDelivery.OwnParityOnly` | src/common/transport/video_receiver.cpp:104-132 | The packets of a sent frame change only its own slot, to hold the parity that arrived over what was there |
| `RecoveryDelivery.OwnParityAfter` | src/common/transport/video_receiver.cpp:104-163 | So too when the frame before is flushed in between and takes a slot with it, unless that is the own slot and no own parity follows |
| `RecoveryDelivery.PartOfFrame` | src/common/transport/video_receiver.cpp:134-176 | From a receiver that is blank or still holds part of another frame: while packets of a frame are missing it delivers only what its first data packet flushes, and what arrived of it is what is pending then |
| `RecoveryDelivery.LossyFrame` | src/common/transport/video_receiver.cpp:137-272 | For any slots, any part of a sent frame, encrypted or not, and a receiver that is blank or holds part of another frame: the next frame flushes nothing when no slot is usable, and otherwise the recovered frame, right exactly under the condition of RecoveryIsExactIff |
| `RecoveryDelivery.PaddingBound` | src/common/transport/video_receiver.cpp:216-225 | At most 1378 zero bytes are appended |
| `RecoveryDelivery.RecoveryDelivers` | src/common/transport/video_receiver.cpp:104-274 | End to end with parity, from a receiver that is blank or still holds part of another frame, which is flushed first: with one data packet arrived, no more missing than parity packets arrived, no earlier slot usable after that flush and every leftover flag of the own slot overwritten, the next frame's first packet delivers the frame, its bytes followed by zeros only when its last packet was rebuilt |
| `RecoveryDelivery.FlushOwn` | src/common/transport/video_receiver.cpp:138-152 | Flushing a frame from its own parity delivers it rebuilt and retires just that slot |
| `RecoveryBursts.BurstStep` | src/common/transport/video_receiver.cpp:137-163 | One more frame of a burst: the frame that hung is given back, and the new one hangs with its own parity in the only live slot |
| `RecoveryBursts.BurstComesBack` | src/common/transport/video_receiver.cpp:104-274 | However many frames in a row lose packets that their parity could replace, each is delivered rebuilt when the next one starts, in the order sent, the last with the packet after it; from the 17th on all parity of a frame has to arrive |
| `FailingRuns.TwoLossesComeBack` | src/common/transport/video_receiver.cpp:104-274 | Two frames of five packets in a row lose their last one, and both come back |
| `RecoveryFailures.ParityDiffers` | src/common/fec/reed_solomon.cpp:127-139 | Two frames that differ in one shard, whichever it is, differ in every parity shard |
| `RecoveryFailures.ForeignShardRebuildsWrong` | src/common/transport/video_receiver.cpp:216-263 | When one packet is missing and the first parity shard in the slot belongs to a frame that differs in that packet only, the packet is rebuilt wrongly |
| `RecoveryFailures.StaleParityCorrupts` | src/common/transport/video_receiver.cpp:186-193 | From empty slots: a frame arrives whole, its twin loses the one packet in which they differ, and whatever parity of its own arrives, wrong bytes of the right length are delivered, because an earlier slot is still live |
| `RecoveryFailures.QuietRun` | src/common/transport/video_receiver.cpp:104-132 | Frames without parity that arrive whole leave the slots alone |
| `RecoveryFailures.LeftoverFlagCorrupts` | src/common/transport/video_receiver.cpp:116-129 | Sixteen groups later, in the same slot: the twin loses the packet in which they differ and its first parity packet, another of its parity packets would do, and wrong bytes are delivered, because the leftover flag counts as available |
| `FailingRuns.StaleParityHappens` | src/common/transport/video_receiver.cpp:186-193 | A run of two frames of five packets, packet by packet, in which that happens although all own parity arrives |
| `FailingRuns.LeftoverFlagHappens` | src/common/transport/video_receiver.cpp:116-129 | A run of seventeen frames in which the leftover flag does it |
| `FailingRuns.LostPacketComesBack` | src/common/transport/video_receiver.cpp:104-274 | The same loss at the start: the frame comes back, followed by zeros where its rebuilt last packet was short |
| `EncryptedRecovery.EncryptedParitySize` | src/common/transport/video_sender.cpp:78-113 | Parity of an encrypted frame is computed over ciphertexts and is 16 bytes longer than any payload |
| `EncryptedRecovery.EmissionIsOversized` | src/common/transport/video_sender.cpp:78-193 | So every packet of an encrypted frame keeps the slots' sizes beyond any payload |
| `EncryptedRecovery.SlotsStayTooLarge` | src/common/transport/video_receiver.cpp:110-130 | ... over any sequence of such packets |
| `EncryptedRecovery.EncryptedRecoveryIsTooLong` | src/common/transport/video_receiver.cpp:216-263 | Recovery with such a slot assembles more bytes than the frame has, whichever packets are missing |
| `EncryptedRecovery.EncryptedLossIsNotRepaired` | src/common/transport/video_receiver.cpp:104-274 | Of an encrypted frame received in part, by a receiver that is blank or holds part of another frame, nothing of its own is delivered on the way, and all that the next frame flushes is too long; with enough packets, one such delivery is certain |
| `EncryptedRecovery.EncryptedStream` | src/common/transport/video_receiver.cpp:64-178 | A whole encrypted stream with losses delivers the complete frames, and in between only frames longer than they were sent |
| `FailingRuns.EncryptedLossHappens` | src/common/transport/video_receiver.cpp:104-274 | For any such cipher, one lost packet of five with both parity packets at hand ends in a delivery that is too long |
| `FailingRuns.SomethingEncrypts` | include/couch_conduit/common/aes_gcm.h:22-33 | Such ciphers exist: the round-trip law and the 16-byte tag do not contradict each other |
| `FeedbackWindow.ShiftedBits` | src/client/client_session.cpp:183-184 | Shifting by gap moves every bit up by gap and drops those that reach bit 64 |
| `FeedbackWindow.RecordedBits` | src/client/client_session.cpp:182-189 | After a frame, bit i is set for i = 0 and where bit i - gap was, and nowhere else |
| `FeedbackWindow.ReceiveWindow.OnFrameDecoded` | src/client/client_session.cpp:177-190 | Updates the window and the last number accordingly, bit by bit |
| `FeedbackWindow.NextFrameIff` | src/client/client_session.cpp:182-189 | With ascending frames, the window stays right exactly when the next frame is less than 2^16 ahead, or the shift clears what would be misread |
| `FeedbackWindow.WindowIsDecodedSet` | src/client/client_session.cpp:177-190 | In every run of ascending frames with jumps below 2^16, bit i says whether the frame i before the last was decoded, across 16-bit wrap-around |
| `FeedbackWindow.LateFrame` | src/client/client_session.cpp:182-189 | A frame late by any distance: the window is right exactly when the bits it keeps, shifted by the distance modulo 2^16, are those of the frames decoded before the late one |
| `FeedbackWindow.LateFrameEmpties` | src/client/client_session.cpp:182-189 | Late by at most 65472 it keeps none: right exactly when none of the 63 frames before had been decoded |
| `FeedbackWindow.JumpMisleads` | src/client/client_session.cpp:182-189 | After any stream, a jump of 2^16 and a little claims a frame that was not decoded |
| `FeedbackWindow.LateFrameMisleads` | src/client/client_session.cpp:185-186 | After any stream, a late frame denies every frame decoded shortly before it |
| `FeedbackWindow.MisleadingStreams` | src/client/client_session.cpp:182-189 | Frames 1 and 65538, and frames 1, 3, 2, are two such streams |
| `FeedbackWindow.OnesCountPositions` | src/host/host_session.cpp:450-453 | Counting by shifting gives the number of set positions |
| `FeedbackWindow.CountOnes` | src/host/host_session.cpp:450-453 | The host's loop ends and returns the number of set bits |
| `FeedbackWindow.LossRateCountsMissing` | src/host/host_session.cpp:450-454 | 64 times the loss rate is the number of the last 64 frames not decoded, and the rate lies in [0, 1] |
| `CongestionControl.CongestionEstimator.Init` | src/common/transport/congestion.cpp:13-17 | Sets configuration, bitrate and time of the last decision, and keeps samples and averages |
| `CongestionControl.CongestionEstimator.OnTwccFeedback` | src/common/transport/congestion.cpp:19-64 | Fewer than two entries change nothing; otherwise the window and the gradient become those of the specification |
| `CongestionControl.CongestionEstimator.AddSamples` | src/common/transport/congestion.cpp:31-43 | Push and pop loops leave exactly the newest 50 of all samples |
| `CongestionControl.CongestionEstimator.AddSample` | src/common/transport/congestion.cpp:36-42 | One sample more, the oldest dropped while there are more than 50 |
| `CongestionControl.CongestionEstimator.SumGradients` | src/common/transport/congestion.cpp:48-57 | Sums and counts the gradients of the samples sent apart |
| `CongestionControl.CongestionEstimator.OnLossUpdate` | src/common/transport/congestion.cpp:66-68 | Moves smoothed loss to the reported one but for exactly 0.7 of the distance, and changes nothing else |
| `CongestionControl.CongestionEstimator.ClassifyDelay` | src/common/transport/congestion.cpp:70-78 | Classifies the gradient against 3% and -2% |
| `CongestionControl.CongestionEstimator.ComputeBitrate` | src/common/transport/congestion.cpp:80-133 | Returns 0 and changes nothing before the interval is over; otherwise decides and returns the new rate |
| `RateRuns.EveryRun` | src/common/transport/congestion.cpp:80-133 | Over every interleaving: the window never exceeds 50 samples, smoothed loss stays in [0, 1], decisions are an interval apart and each in [min, max] |
| `RateRuns.OveruseDecision` | src/common/transport/congestion.cpp:109-120 | A decision at more than 5% loss or a gradient above 3% strictly lowers the rate to at most 85% of it, or reaches the least rate |
| `RateRuns.LimitsSwapped` | src/common/transport/congestion.cpp:122-123 | With a least rate above the greatest one every decision gives the least |
| `RateRuns.OveruseAmount` | src/common/transport/congestion.cpp:109-120 | It lowers it no further than rounding down demands, and at more than 15% loss by a tenth more |
| `RateRuns.UnderuseDecision` | src/common/transport/congestion.cpp:98-102 | A decision at underuse raises the rate by the factor, rounded down, and never lowers it |
| `RateRuns.DefaultDecision` | src/common/transport/congestion.cpp:80-133 | A decision with the default settings, in whole numbers: 85% and 90% of that at loss above 15%, 85% at loss above 5% or a gradient above 0.03, 108% below -0.02, 200 more otherwise, within [2000, 80000] |
| `RateRuns.LossReport` | src/common/transport/congestion.cpp:66-68 | One loss report leaves exactly 0.7 of the distance to the rate it reports |
| `RateRuns.LossReports` | src/common/transport/congestion.cpp:66-68 | n reports of one rate leave exactly 0.7^n of it |
| `RateRuns.NewestFifty` | src/common/transport/congestion.cpp:31-43 | After a delay report the window holds the newest 50 of the old samples and the report's, in order, arrivals counted in quarters of a millisecond |
| `RateRuns.OveruseDrivesDown` | src/common/transport/congestion.cpp:90-120 | n decisions at overuse bring the rate b to at most b * down^n, or to the least rate, whatever happens in between |
| `RateRuns.OveruseReachesMinimum` | src/common/transport/congestion.cpp:90-120 | Any n with down^n * b at most min is enough decisions to be at exactly min |
| `RateRuns.GradientFollows` | src/common/transport/congestion.cpp:46-63 | The smoothed gradient never leaves the range of the window's gradients and closes in on a common value by exactly 0.85 per report |
| `RateRuns.SpreadReports` | src/common/transport/congestion.cpp:19-64 | When all packets arrive 1 + g times as far apart as they were sent, n reports bring the gradient to g but for exactly 0.85^n of the distance: growing delay is positive |
| `RateRuns.DelayDecides` | src/common/transport/congestion.cpp:19-133 | From the start, three reports with delay growing by a tenth lead to 17000 kbit/s, two with delay shrinking by a tenth to 21600 |
| `RateRuns.CalmDecision` | src/common/transport/congestion.cpp:104-107 | On a calm link a decision adds 200, up to the greatest rate |
| `RateRuns.CalmRaises` | src/common/transport/congestion.cpp:104-107 | n of them give exactly min(max, b + 200 n) |
| `RateRuns.StillEvent` | src/common/transport/congestion.cpp:51-56 | Without advancing send times a delay report never moves the gradient |
| `RateRuns.StillRuns` | src/host/host_session.cpp:467-483 | Nor does any run of them, so low loss means a calm link |
| `RateRuns.LowLossRaises` | src/common/transport/congestion.cpp:104-107 | With equal send times and loss at most 5%, the greatest rate is reached exactly when 200 n is at least max - b |
| `HostFeedback.FeedbackLoop.OnReport` | src/host/host_session.cpp:441-505 | One report: counts the window, smooths the loss, feeds the controller zero send times, decides the bitrate and, after more than 500 ms, adjusts the parity ratio |
| `HostFeedback.FeedbackLoop.AdjustFec` | src/host/host_session.cpp:507-514 | Moves the ratio to 1.5 times the loss but for exactly 0.8 of the distance, to 5% and 40% where that lies beyond them |
| `HostFeedback.RatioMoves` | src/host/host_session.cpp:507-514 | The same of the specification |
| `HostFeedback.ReportSteps` | src/host/host_session.cpp:459-487 | A report is a loss update, at most one delay report, and a decision |
| `HostRuns.StaysSteady` | src/host/host_session.cpp:441-505 | Every report keeps the rate in [2000, 80000], the ratio in [0.05, 0.40], the gradient at 0, and both loss averages equal |
| `HostRuns.EveryRunIsSteady` | src/host/host_session.cpp:441-505 | ... and so does every run |
| `HostRuns.StartsSteady` | include/couch_conduit/host/host_session.h:89-94 | A session starts that way |
| `HostRuns.SessionIsSteady` | src/host/host_session.cpp:441-505 | So every run of a session keeps rate, ratio, gradient and averages so |
| `HostRuns.LossApproaches` | src/common/transport/congestion.cpp:66-68 | After n reports on one side of a rate, smoothed loss is past it or within 0.7^n of the first distance |
| `HostRuns.PersistentLoss` | src/host/host_session.cpp:441-505 | When every report misses four of 64 frames or more, 23 decisions after the fourth report end at exactly 2000 kbit/s |
| `HostRuns.LittleLoss` | src/host/host_session.cpp:441-505 | When every report misses three of 64 or fewer, every decision after the 16th report adds 200 kbit/s, up to 80000 |
| `HostRuns.MissingFramesSetTheRate` | src/host/host_session.cpp:450-487 | From the frames the client decoded to the bitrate: both of the above in terms of missing frames |
| `HostRuns.FecStaysInRange` | src/host/host_session.cpp:510-514 | An adjustment keeps the ratio between 5% and 40% |
| `HostRuns.RatioConverges` | src/host/host_session.cpp:507-514 | n adjustments leave exactly 0.8^n of the distance: to 1.5 times a constant loss between the limits, to 5% for any losses below, to 40% for any losses above |
| `HostRuns.LossMoves` | src/host/host_session.cpp:454-460 | A report leaves exactly 0.7 of the distance of both loss averages to the rate it reports |
| `HostRuns.LossConverges` | src/host/host_session.cpp:454-460 | n reports of one rate leave exactly 0.7^n of it |
| `HostRuns.RatioWaits` | src/host/host_session.cpp:499-504 | The parity ratio is adjusted, from the loss just taken in, exactly when more than 500000 us have passed since it last was |
| `HostRuns.HalfSecondsApart` | src/host/host_session.cpp:499-504 | So any two adjustments of a run are more than half a second apart |
| `HostRuns.AdjustmentsOfRun` | src/host/host_session.cpp:499-504 | The last adjustment of a run is the last clock reading that far from the one before |
| `HostRuns.RatioFollowsLoss` | src/host/host_session.cpp:454-514 | Over any run of reports of one loss rate, the ratio closes in on 1.5 times that, within its limits, by exactly 0.8 for each half second counted so |
| `HostRuns.DeltasReachWindow` | src/host/host_session.cpp:463-484 | The arrival deltas reach the controller's window with zero send times, exactly when as many came as were announced |
| `HostRuns.ReportDecides` | src/host/host_session.cpp:454-487 | What a session's report makes of the rate, in whole numbers, by the time since the last decision and the loss just taken in |
| `HostRuns.SessionDecisions` | src/host/host_session.cpp:441-505 | All decisions of a session lie in [2000, 80000] and are 200 ms apart, and its rate is that of the last one, or 20000 |
| `HostRuns.FirstReport` | src/host/host_session.cpp:441-505 | A first report that misses four of 64 frames leaves the averages at 0.01875 and the rate at 20200, and an adjustment makes the ratio 0.09 |
| `StunDiscovery.ParseXorMappedAddress` | src/common/net/stun.cpp:162-187 | Needs 8 bytes and the IPv4 family; XORs the port with the constant and the address with the response's cookie |
| `StunDiscovery.ParseMappedAddress` | src/common/net/stun.cpp:188-206 | The same without XOR |
| `StunDiscovery.WalkAttributes` | src/common/net/stun.cpp:117-156 | The walk terminates, reads nothing at or behind end, and returns the first address among the attributes that lie before it |
| `StunDiscovery.ReadResponse` | src/common/net/stun.cpp:95-156 | Checks length, type and transaction, and then answers from the received bytes alone, whatever the rest of the buffer holds |
| `StunDiscovery.ParseStep` | src/common/net/stun.cpp:126-155 | Reading at an offset takes one attribute and goes on at the next four-byte boundary |
| `StunResponses.ParseReadsBack` | src/common/net/stun.cpp:126-155 | Of any well-formed attributes cut at any byte, the walk reads exactly those whose values are complete |
| `StunResponses.ResponseIsRead` | src/common/net/stun.cpp:95-156 | Any response, followed by anything and cut anywhere, gives the first address among the arrived attributes; none when its header is cut or its transaction is another's |
| `StunResponses.FirstUsable` | src/common/net/stun.cpp:137-150 | The first attribute that gives an address decides, unknown and unusable ones before it notwithstanding |
| `StunResponses.NoneUsable` | src/common/net/stun.cpp:158-159 | Without a usable attribute there is no address |
| `StunResponses.MappedRoundTrip` | src/common/net/stun.cpp:188-206 | A written MAPPED-ADDRESS is read back (section 15.1 of RFC 5389) |
| `StunResponses.XorRoundTrip` | src/common/net/stun.cpp:162-187 | Of a written XOR-MAPPED-ADDRESS (section 15.2 of RFC 5389) the port is always read back, the address exactly when the response carries the standard cookie |
| `StunResponses.AddressArrives` | src/common/net/stun.cpp:95-156 | From server to client: the first mapped address written is the one returned |
| `StunResponses.ResponseBytes` | src/common/net/stun.cpp:95-206 | Byte by byte: 01 01 00 0C 21 12 A4 42, the transaction, and a mapped address under type 0x0020, XORed, or 0x0001, plain, give that address, for all addresses, ports and transactions |
| `StunResponses.SoftwareFirst` | src/common/net/stun.cpp:117-156 | The same with an attribute of type 0x8022 and any length in front, aligned to four bytes |
| `StunResponses.UsableIff` | src/common/net/stun.cpp:137-150 | An attribute gives an address exactly when its type is 0x0001 or 0x0020, it has 8 bytes, and the second is 1 |
| `StunResponses.OnlyResponsesAnswer` | src/common/net/stun.cpp:95-115 | Only 20 bytes or more that start with 01 01 and carry the request's transaction give an address |
| `SessionFraming.SendBytes` | src/common/protocol/session.cpp:183-193 | The payload loop ends; with a flowing socket it sends everything exactly when the length fits an int, using up as many pieces as that takes |
| `SessionFraming.SendMsg` | src/common/protocol/session.cpp:174-195 | Puts header and payload on the wire, all of it exactly on true and a part on false; with a flowing socket true exactly when the header is accepted whole and a payload's length fits an int |
| `SessionFraming.Fill` | src/common/protocol/session.cpp:202-213 | The receive loop ends and takes exactly the buffer's size from the stream, however it is cut |
| `SessionFraming.RecvMsg` | src/common/protocol/session.cpp:197-237 | True only with the message at the front of the stream, of which 8 + payloadLen bytes are consumed; with a flowing socket true exactly when there is one of at most 4096 bytes, and otherwise the header alone is gone, or all there was |
| `SessionFraming.HeaderRoundTrip` | src/common/protocol/session.cpp:175-180 | Both header fields are read back |
| `SessionFraming.FrontIffSmall` | src/common/protocol/session.cpp:215-219 | A message at the front is received exactly when its payload has at most 4096 bytes |
| `SessionFraming.WireBytes` | src/common/protocol/session.cpp:175-192 | A message on the wire byte by byte: both header fields lowest byte first, then the payload |
| `SessionFraming.CutShort` | src/common/protocol/session.cpp:202-235 | A message that has not arrived completely is not received |
| `SessionFraming.MessagesArrive` | src/common/protocol/session.cpp:174-237 | On streams: for all messages of at most 4096 bytes, repeated reception returns exactly those sent, in order, and leaves what follows |
| `SessionFraming.SendAll` | src/common/protocol/session.cpp:174-195 | SendMsg for each message writes exactly their concatenation, and succeeds exactly when every header is accepted whole |
| `SessionFraming.RecvAll` | src/common/protocol/session.cpp:197-237 | RecvMsg up to n times returns the first messages of the stream, up to the first that does not come |
| `SessionFraming.Exchange` | src/common/protocol/session.cpp:174-237 | From end to end, for every way to cut what is sent and what is received: if every header is accepted whole, the messages received are those sent |
| `SessionFraming.LongMessageStops` | src/common/protocol/session.cpp:215-219 | A longer one ends the sequence: neither it nor anything behind it is received |
| `SessionFraming.LeftBehind` | src/common/protocol/session.cpp:202-235 | Of a longer one the payload is left in the stream, of one cut short nothing |

## Left out

- GaloisTables.GaloisField.Pow: does not model the overflow of the `int` product of logarithm and exponent, which needs exponents above eight million; the encoding matrix uses those below k.
- VideoReceiving.Step: datagrams shorter than a header, which are dropped, and the byte layout of the header; a packet is a record of its fields.
- VideoReceiving.VideoReceiver.TryAssembleFrame: the frame-ready event, a missing callback and the mutex; the callbacks made are recorded in order.
- VideoPackets.OpenSeal: AES-GCM is an abstract pair of functions with the round-trip law, an empty result standing for failure; its strength is not part of this model.
- VideoSending.VideoSender.SendFrame: batching, failing sends and the count of packets sent; what it hands to the socket is its result.
- ReedSolomonCodec.ReedSolomon.Encode: pointers with separate lengths are sequences, cut at the shard size; negative shard counts are not modelled.
- RecoveryDelivery.RecoveryDelivers: is stated without encryption, for the case that no earlier slot is usable and the arriving parity overwrites every leftover flag of the own slot, whose size is at most a payload's. `RecoveryDelivery.LossyFrame` covers the rest, for slots with k + m at most 256 as every sender fills them.
- RecoveryDelivery.LossyFrame: assumes that a frame still pending has another 16-bit number; otherwise their packets can mix, as in `FailingRuns.AliasedFramesMix`.
- VideoPipeline.LossyChannel: assumes that a frame received in part and the next frame with a surviving packet differ in their 16-bit numbers, for the same reason.
- VideoPipeline.LossOnlyChannel: assumes the same.
- CongestionControl.CongestionEstimator.ComputeBitrate: float rounding; arithmetic is over the reals, casts to integers round down, and a cast beyond 32 bits, undefined in the source, is taken modulo 2^32.
- CongestionControl.CongestionEstimator.OnTwccFeedback: the sequence numbers, which the source ignores, and 64-bit overflow of time differences.
- HostFeedback.FeedbackLoop.OnReport: the byte layout of feedback packets and passing the rate on to several clients.
- StunDiscovery.ReadResponse: resolving the server, the request, the timeout, and writing the address as text; the address is its four bytes.
- SessionFraming.SendMsg: a length beyond the buffer's end, which the source cannot check.
- SessionFraming.RecvMsg: timeouts; a call that would time out is one that fails.
- SessionFraming.Exchange: the source calls SendMsg and RecvMsg one by one from its handshake; the loops around them here only put such calls in a row.
- Session negotiation, ECDH and HMAC: foreign cryptography and message fields.
- Capture, encoding, decoding, rendering, input, audio playback and system tuning: drivers and user interface.
- The audio ring buffer, mouse batching, rolling averages, statistics, signalling and room codes: easy members, or input and output throughout.
