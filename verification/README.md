# RozoFS: a verified model of its core

RozoFS is a distributed file system that stores every block as redundant
projections instead of copies. This project models its most intricate parts in
Dafny and proves what they are meant to guarantee.

**The Mojette erasure code** (`Mojette*.dfy`, `RozofsLayout.dfy`). A block is a
grid of words. Its projection of angle p holds in bin `c + l*p - offset` the
exclusive or of all pixels (l, c) on one line. Any `rows` projections are enough
to rebuild the block. The inverse transform sorts them by descending p and walks
the pixels along staggered rows; it reads one bin per pixel and takes the pixel
out of the other projections. Nothing in it checks that the bin it reads
holds one pixel only. That this is always so is the central theorem
(`MojetteGeometry.LineAlreadyVisited`, `MojetteLines.ReadsOnePixel`), and the
round trips of the 64-bit and of the truncated 128-bit transform follow from it,
for every selection of projections and every layout of RozoFS. A word is the set
of its bits that are 1, so both word sizes share the proofs. `MojetteUniqueness`
proves, without any algorithm, that the kept bins determine the block, and
`MojetteLanes` that the 128-bit transform is two 64-bit transforms side by side.

The decoder works on copies in a scratch buffer. With the stride that its callers pass,
the copies of layout 8-12-16 overlap by one word: the last bin of angle -6 is the
first bin of the next copy. This does no harm (`MojetteScratch.OverlapIsHarmless`). That
bin is written for a pixel of the last column; what it could spoil belongs to the first
column, which has been rebuilt by then because blocks have more columns than the largest
start column by at least two.

**The stream sockets** (`RecordMarking.dfy`, `RpcReceive.dfy`,
`StreamSend.dfy`). The receiver reassembles record-marked messages (section 11 of
RFC 5531) from partial reads; it is proved against a decoder that is fed one byte
at a time. The transmitter drains a queue over partial writes and congestion, with
reference counts on the buffers. System calls and the application are
nondeterministic, so the invariants hold in every run. Ghost counters record what the
system and the application refused; with them each side is shown to give up only for a
cause, and what was sent arrives once the causes stop (`RpcReceive.Serve`,
`StreamSend.Transmitter.RunFsm`).

**Lists, indexes and allocators.** The in-place merge sort on intrusive rings
(`ListSort.dfy`, against the specification in `MergeSort.dfy`), the LRU cache with
bitmap-managed buckets (`CacheBucket.dfy`, `LruCache.dfy`), the on-disk table
(`DiskTable.dfy`), the persistent inode allocator (`InodeTracker.dfy`), the
double-buffered dirty bitmap shared by writers and a flush thread
(`TrackChange.dfy`), and the timers on a wrapping clock (`TxTimer.dfy`).

Some expected properties do not hold of the code. In each case the code is modelled
as it is, and the exact condition under which the property holds is proved beside a
case that breaks it:

- a first RPC fragment that is too long but not the last one is not checked
  (`RpcReceive.Receiver.StepAlloc`, `RpcReceive.UncheckedFirstFragment`);
- the first phase of the inverse transform writes past a row when the block is
  narrower than the largest start column (`MojetteInverse.GuardIsExact`,
  `MojetteInverse.TooFewColumns`); the 2048-byte row of the sizes of layout
  8-12-16 is such a case (`RozofsLayout.SmallestTableTooNarrow`);
- the cache tests the wrong bytes of its bitmap before it releases an array of
  slots other than the first (`LruCache.Cache.Remove`,
  `CacheBucket.OtherArraysAreNotSafe`, `LruCacheRun.ArrayIsLost`); comment and code
  disagree here, the model follows the code;
- an insertion that finds no memory for an array of slots leaves its slot marked as in
  use, without an array (`LruCache.Cache.Insert`: consistent exactly when it succeeds);
- writing a released entry of the on-disk table reports an error and brings the old
  record back, and an append that stores its header word but not its data makes two
  entries share a record (`DiskTable.Table.Write`, `DiskTable.FailedAppendIsShared`);
- the result of flushing the bitmap of the on-disk table is ignored, so a restart can lose
  entries whose writes reported success (`DiskTable.Table.Restart`,
  `DiskTable.UnsavedBitIsLost`);
- an inode is given out twice when the process stops before the attributes of the inode,
  or of a later one of its file, were written: if they were, none is repeated
  (`InodeTracker.Tracker.Restart`), and if they were not, that inode is
  (`InodeTracker.RestartRepeats`);
- `expt_disk_flush` takes a short read and a short write for success: it overwrites what
  it did not read, and clears the whole chunk, so bits are lost and the flush returns 0
  (`TrackChange.RunConserves`, `TrackChange.TwoFlushesExactly`,
  `TrackChange.ShortWriteLoses`, `TrackChange.ShortReadLoses`);
- `expt_set_bit` returns 0 for a bit that it could not record, and `expt_disk_flush`
  returns 0 when it flushed nothing for lack of memory
  (`TrackChange.ReturningZeroIsNotEnough`, `TrackChange.GivingUpLooksLikeSuccess`);
- a timer that is looked up too late is postponed (`TxTimer.FiresExactly`,
  `TxTimer.MovedExactly`).

One more departure has no effect on results: for 16 kB and 32 kB blocks
rozofs/rozofs_srv.c:126 reads `local_tb[3]` and `local_tb[4]`, past the three rows of its
table. The value is not used then; the model does not read it.

## Model

| member | source | states |
|---|---|---|
| `MojetteGeometry.BinInRange` | rozofs/common/transform.c:38-57 | every pixel of the image falls into a bin of the full projection, for both signs of p |
| `MojetteGeometry.StartNonNegative` | rozofs/common/transform.c:108-131 | no start column is negative, whatever the angles |
| `MojetteGeometry.StartBounded` | rozofs/common/transform.c:108-135 | for strictly descending angles the start columns are convex in the row, so the larger of the first and the last bounds all of them |
| `MojetteGeometry.LineAlreadyVisited` | rozofs/common/transform.c:133-224 | every other pixel on the line read for (l, c), on any row and inside the image or not, comes earlier in the order of the nested loops |
| `MojetteLines.LineRemove` | rozofs/common/transform.c:143-147 | xoring a pending pixel out of its line gives the line without it and leaves every other line unchanged |
| `MojetteLines.LineAdd` | rozofs/common/transform.c:52-72 | adding a pixel to the image xors it into exactly one line of an angle |
| `MojetteLines.PendingStep` | rozofs/common/transform.c:135-224 | step (k, l) resolves exactly the pixel of row l in column k plus its start column, if that column exists |
| `MojetteLines.PendingStart` | rozofs/common/transform.c:133-135 | before the first step all the pixels are unresolved |
| `MojetteLines.PendingEnd` | rozofs/common/transform.c:195-224 | after the last step none is: with PendingStep, every pixel is written exactly once |
| `MojetteLines.ReadsOnePixel` | rozofs/common/transform.c:137-142 | the bin read at any step sums exactly one unresolved pixel, the one being rebuilt |
| `MojetteProjection.SortDescending` | rozofs/common/transform.c:77-101 | sorting different slopes with the comparison of the code leaves them strictly descending |
| `MojetteProjection.SortPermutes` | rozofs/common/transform.c:101-101 | the sort loses and duplicates no projection |
| `MojetteProjection.SortProjections` | rozofs/common/transform.c:101-101 | the array of projections is sorted in place |
| `MojetteForward.XorGroups` | rozofs/common/transform.c:56-72 | a row in unrolled groups of eight adds exactly the pixels of those columns to the sums |
| `MojetteForward.XorClippedRow` | rozofs/common/mojette_transform128.c:334-359 | a clipped row (groups of eight, remainder, nothing past the last kept bin) gives the same sums in the kept bins as the whole row, and touches no word behind them, also when the row starts past the kept bins |
| `MojetteForward.PartialSkip` | rozofs/common/mojette_transform128.c:337-339 | the pixels that the clipping leaves out contribute to no kept bin |
| `MojetteForward.TransformForward` | rozofs/common/transform.c:29-75 | every bin of every projection is the sum of the pixels on its line; words behind the bins are unchanged |
| `MojetteForward.TransformForwardOne` | rozofs/common/transform.c:233-264 | the single projection satisfies the same specification as in the transform of all of them |
| `MojetteForward.Transform128Forward` | rozofs/common/mojette_transform128.c:307-362 | for any size, truncated or not, the first `size` bins are the mathematical sums and the words behind them are unchanged |
| `MojetteForward.Transform128ForwardOne` | rozofs/common/mojette_transform128.c:364-411 | the same specification for one projection |
| `MojetteInverse.StartColumns` | rozofs/common/transform.c:108-131 | the loops compute the recurrence Start(i) = Start(i+1) + p(i+1) from its value on the last row |
| `MojetteInverse.GuardIsExact` | rozofs/common/transform.c:135-215 | in each of the three phases the test of the code holds exactly when the column is in the image, given enough columns |
| `MojetteInverse.TooFewColumns` | rozofs/common/transform.c:135-142 | with fewer columns than the largest start column, the first phase writes a pixel of a later row or past the image, for every such selection |
| `MojetteInverse.ReadPixel` | rozofs/common/transform.c:137-142 | the word read is the pixel of the original image |
| `MojetteInverse.XorOutAll` | rozofs/common/transform.c:143-148 | after the inner loop all projections are the sums of the pixels still unresolved; for the 128-bit version the own bin may be skipped and truncated bins may hold anything |
| `MojetteInverse.RebuildPixel` | rozofs/common/transform.c:137-148 | one visit keeps the invariant: resolved pixels are right, bins hold the sums of the others |
| `MojetteInverse.Sweep` | rozofs/common/transform.c:135-164 | all rows of one step, in the order of the code, keep the invariant |
| `MojetteInverse.Phase` | rozofs/common/transform.c:133-224 | each of the three phases carries the invariant to the start of the next one |
| `MojetteInverse.Reconstruct` | rozofs/common/transform.c:133-224 | afterwards every pixel is rebuilt and no pixel is left in any bin that counts |
| `MojetteInverse.NothingLeft` | rozofs/common/transform.c:133-224 | after the 64-bit inverse every bin of the used projections is zero |
| `MojetteInverse.TransformInverse` | rozofs/common/transform.c:89-231 | from any projections with different angles and enough columns: the support holds the image and is unchanged behind it, the projections are sorted, the bins of the used ones are zero; the unused ones may hold anything |
| `Mojette128.TruncatedResidue` | rozofs/common/mojette_transform128.c:137-177 | a truncated projection is as good as a full one for the bins that are read from it |
| `Mojette128.Transform128Inverse` | rozofs/common/mojette_transform128.c:96-178 | the image is rebuilt from truncated projections, whatever the words behind the kept bins and the unused projections hold; the support behind the image is unchanged |
| `MojetteScratch.Transform128InverseCopy` | rozofs/common/mojette_transform128.c:180-291 | the image is rebuilt from copies in one scratch buffer, although copies a stride apart may overlap and the words behind the sums hold anything; the stored bins are only read, and the support behind the image is unchanged |
| `MojetteScratch.SortLockstep` | rozofs/common/mojette_transform128.c:220-220 | sorting the copies by slope moves them exactly as it moves the projections |
| `MojetteScratch.CopyAll` | rozofs/common/mojette_transform128.c:208-216 | every copy starts with the bins of its projection, up to a stride, also when more is copied than a stride holds |
| `MojetteScratch.OverlapIsHarmless` | rozofs/common/mojette_transform128.c:252-290 | no write to a copy, past its stride or not, hits a bin that another copy is still to be read at, for every selection whose overlap is m words and whose largest start column leaves 2m columns |
| `MojetteScratch.XorScratch` | rozofs/common/mojette_transform128.c:257-261 | one xor into a copy keeps what all copies still have to provide |
| `MojetteScratch.ReadsFromCopy` | rozofs/common/mojette_transform128.c:255-256 | the bin read from a copy is the pixel to rebuild |
| `MojetteScratch.ReconstructFromCopies` | rozofs/common/mojette_transform128.c:252-290 | the three phases on the copies rebuild every pixel |
| `MojetteLayout.EffectiveSizeSuffices` | rozofs/common/mojette_transform128.c:139-177 | whatever angles of a layout survive, no bin at or past the effective size of an angle (columns + abs(p) times the number of angles farther from 0 on its side) is read |
| `MojetteLayout.KeptBinsIsEffectiveSize` | rozofs/rozofs_srv.c:107-112 | for consecutive angles the effective size has a closed form |
| `MojetteLayout.KeptBinsAreNeeded` | rozofs/rozofs_srv.c:30-40 | the effective size is tight: for every angle there is a selection that reads its last kept bin |
| `MojetteLayout.MaxStartValue` | rozofs/common/transform.c:108-135 | the largest start column in closed form |
| `MojetteLayout.MaxStartBound` | rozofs/common/transform.c:108-135 | the columns that suffice for every selection of angles between two bounds |
| `RozofsLayout.TableIsEffectiveSize` | rozofs/rozofs_srv.c:30-40 | all nine hand-written rows are the effective sizes of their layouts |
| `RozofsLayout.ColumnsFromBytes` | rozofs/rozofs_srv.c:128-132 | the columns the code derives from block sizes, for all layouts and block sizes; 64-bit columns are a multiple of 8, as the unrolled loop needs |
| `RozofsLayout.LayoutShape` | rozofs/rozofs_srv.c:80-98 | layout 2-3-4 and its doubles: twice as many servers as projections needed, one and a half times as many projections; blocks double from 4 kB on |
| `RozofsLayout.FullSizes` | rozofs/rozofs_srv.c:128-142 | full sizes are the line counts, in 64-bit words padded to an even number |
| `RozofsLayout.ComputeSizes` | rozofs/rozofs_srv.c:120-171 | full and effective sizes of every projection, their maxima, and the two redundancy coefficients |
| `RozofsLayout.TotalIsSum` | rozofs/rozofs_srv.c:144-165 | the bytes stored for a block are those of all words and 24 for each projection |
| `RozofsLayout.InitializeLayout` | rozofs/rozofs_srv.c:79-172 | angles, sizes and coefficients of a layout for all block sizes; no effective sizes above 8 kB |
| `RozofsLayout.LayoutInitialize` | rozofs/rozofs_srv.c:67-174 | the same for the three layouts |
| `RozofsLayout.EverySelectionFits` | rozofs/rozofs_srv.c:79-132 | for every layout, block size and selection of its angles the columns are enough for the inverse, in both word sizes, with two to spare |
| `RozofsLayout.SmallestTableTooNarrow` | rozofs/rozofs_srv.c:38-38 | a selection of layout 8-12-16 that a 2048-byte block is too narrow for |
| `RozofsLayout.StrideOfLayout` | rozofs/rozofs_srv.h:222-226 | the stride that the callers and the decoder agree on, for each layout and block size |
| `RozofsLayout.ScratchSuffices` | rozofs/common/mojette_transform128.c:188-216 | no copy is longer than a stride and one word, and all of them fit into the 18 kB of scratch, even when twice the effective size is copied |
| `RozofsLayout.StridesOverlap` | rozofs/common/mojette_transform128.c:188-216 | in layout 8-12-16 the copy of angle -6 is exactly one word longer than the stride |
| `MojetteRoundTrip.RoundTrip64` | rozofs/common/transform.c:29-231 | encoding, losing all but any `rows` projections, in any order, and decoding gives back the block, word for word |
| `MojetteRoundTrip.RoundTrip128` | rozofs/common/mojette_transform128.c:180-362 | the same with projections truncated to at least the effective sizes of the angles used, decoded from copies that may overlap |
| `MojetteRoundTrip.Recover128` | rozofs/common/mojette_transform128.c:180-291 | any `rows` of the stored projections give the image, and no stored bin changes; bins behind the effective size may hold anything |
| `MojetteRoundTrip.RepairProjection` | rozofs/common/mojette_transform128.c:180-411 | decoding from others and projecting again regenerates a lost projection of the original image |
| `MojetteRoundTrip.LayoutIsReady` | rozofs/rozofs_srv.c:67-174 | the sizes of the tables and the scratch of the code meet every precondition of the round trip, for every layout, for 4 kB and 8 kB blocks and every selection |
| `MojetteRoundTrip.StoreAndRecover` | src/storcli/rozofs_storcli_transform.c:166-181 | the promise of the layouts: any 2 of 3, 4 of 6 or 8 of 12 stored projections give back the block, with the stride and the scratch buffer of the code, also when twice the effective size is copied, as the rebuilders do |
| `MojetteRoundTrip.FullLayoutIsReady` | rozofs/rozofs_srv.c:67-174 | the full 64-bit sizes meet every precondition of the 64-bit round trip, for every layout, block size and selection |
| `MojetteRoundTrip.StoreAndRecover64` | rozofs/rozofs_srv.c:67-174 | the same promise for the 64-bit transform and all four block sizes |
| `MojetteRoundTrip.ProjectsDetermines` | rozofs/common/mojette_transform128.c:307-411 | the kept bins are determined by the image, so the transform of one projection and that of all agree |
| `MojetteUniqueness.ReadLinesDetermineImage` | rozofs/common/transform.c:133-224 | two images with equal sums on the lines that a reconstruction reads are equal |
| `MojetteUniqueness.KeptBinsDetermineImage` | rozofs/common/mojette_transform128.c:180-291 | the truncated bins of any `rows` angles of a layout determine the image |
| `MojetteLanes.LaneLine` | rozofs/common/mojette_transform128.c:38-58 | taking the low or the high 64 bits of every word commutes with the sums of lines |
| `MojetteLanes.LanesDetermine` | rozofs/common/mojette_transform128.c:38-58 | the two halves of a 128-bit word are 64-bit words and determine it |
| `MojetteLanes.ProjectsFits` | rozofs/common/mojette_transform128.c:325-361 | the bins of an image of n-bit words are n-bit words |
| `MojetteLanes.ForwardIsTwoTransforms` | rozofs/common/mojette_transform128.c:307-362 | every kept bin of the 128-bit transform is made of the bins of two 64-bit transforms of the halves of the block |
| `RecordMarking.WordRoundTrip` | rozofs/core/af_unix_socket_stream_recv.c:590-612 | headers of fragments in network order decode to what was encoded |
| `RecordMarking.NetworkOrder` | rozofs/core/af_unix_socket_stream_recv.c:509-516 | network order: zero decodes to 0, the last byte counts once, and moving all bytes one place up multiplies by 256 |
| `RecordMarking.DeliveryIsRecord` | rozofs/core/af_unix_socket_stream_recv.c:704-714 | a delivered buffer is itself a record of one last fragment: its header decodes to the flag and the total length, and the payload follows |
| `RecordMarking.DecodeWire` | rozofs/core/af_unix_socket_stream_recv.c:432-777 | the byte-wise decoder turns any sequence of messages, however fragmented, back into their payloads |
| `RecordMarking.DecodePrefix` | rozofs/core/af_unix_socket_stream_recv.c:432-777 | on every prefix of such a stream it has produced a prefix of the messages |
| `RecordMarking.SendableIsShort` | rozofs/core/af_unix_socket_stream_recv.c:590-640 | messages within the limit have fragments whose length fits the header |
| `RpcReceive.Socket.Recv` | rozofs/core/af_unix_socket_stream_recv.c:62-140 | the bytes returned are the next bytes of the stream for every outcome of the system calls; which outcomes give which status, a third interruption in a row being an error; what came back empty is counted |
| `RpcReceive.FirstHeaderAgrees` | rozofs/core/af_unix_socket_stream_recv.c:478-498 | completing the first header keeps the context equal to the byte-wise decoder |
| `RpcReceive.NextHeaderAgrees` | rozofs/core/af_unix_socket_stream_recv.c:499-548 | so does the header of a further fragment, which is refused exactly when the total exceeds the maximum, and then the byte-wise decoder closes the connection too; the 32-bit total does not wrap |
| `RpcReceive.AllocatedAgrees` | rozofs/core/af_unix_socket_stream_recv.c:590-672 | so does the allocation, and the payload to read fits the buffer if and only if the first fragment is not oversized |
| `RpcReceive.RefusedAgrees` | rozofs/core/af_unix_socket_stream_recv.c:594-628 | a single fragment is refused for its length exactly when the byte-wise decoder closes the connection for it |
| `RpcReceive.EmptyFragmentAgrees` | rozofs/core/af_unix_socket_stream_recv.c:674-681 | an empty fragment, whose read of no bytes looks like the end of the stream, closes the connection in the byte-wise decoder too |
| `RpcReceive.UncheckedFirstFragment` | rozofs/core/af_unix_socket_stream_recv.c:590-640 | a first fragment that the check accepts and whose payload is larger than the buffer |
| `RpcReceive.FragmentDoneAgrees` | rozofs/core/af_unix_socket_stream_recv.c:674-764 | so does the end of a fragment that is not the last one |
| `RpcReceive.MessageDoneAgrees` | rozofs/core/af_unix_socket_stream_recv.c:674-764 | so does the end of a message: the buffer handed over is the total length with the last-fragment flag, then the payload |
| `RpcReceive.Receiver.StepHeader` | rozofs/core/af_unix_socket_stream_recv.c:478-589 | one header read keeps the invariant, delivers nothing and makes progress unless it stops; it stops only if the socket was dry, or dead because the read failed or the total must be refused; on a refusal the buffer is freed before the disconnection |
| `RpcReceive.Receiver.StepAlloc` | rozofs/core/af_unix_socket_stream_recv.c:590-672 | keeps the invariant unless the first fragment is oversized; the size of the buffer asked for, and the exact condition for the payload to fit; the connection closes exactly for a single fragment that is too long, and it stops otherwise only if the application had no buffer |
| `RpcReceive.Receiver.StepPayload` | rozofs/core/af_unix_socket_stream_recv.c:674-770 | keeps the invariant; a message is delivered exactly when its last fragment is complete; it stops only if the socket was dry, or dead because the read failed or the fragment is empty |
| `RpcReceive.Receiver.FreeCurrent` | rozofs/core/af_unix_socket_stream_recv.c:519-525 | the free in the caller: the buffer is accounted as freed and is no longer current, so that the disconnection procedure finds none |
| `RpcReceive.Receiver.Disconnect` | rozofs/core/af_unix_socket_client_generic.c:686-697 | frees the buffer that is still current, if any, and nothing else; deliveries are unchanged and no buffer has been freed twice |
| `RpcReceive.Receiver.OnReadable` | rozofs/core/af_unix_socket_stream_recv.c:432-777 | in every run the deliveries are those of the byte-wise decoder on the bytes read, at most `credit` more per call, all buffers are accounted for, and the loop ends; it ends only when the credit is used up, the socket was dry, a buffer was refused, the receiver is dead or at an overrun, and it dies only of a failed read or where the byte-wise decoder closes the connection; an overrun is where the bytes read end with an oversized first header |
| `RpcReceive.DeliveredIsIndependentOfChunking` | rozofs/core/af_unix_socket_stream_recv.c:432-777 | for any messages within the limit, whatever the socket and the application did, the deliveries are a prefix of the messages sent, and all of them once the stream is read |
| `RpcReceive.SendableNeverOverruns` | rozofs/core/af_unix_socket_stream_recv.c:590-640 | streams of messages within the limit never meet the unchecked case |
| `RpcReceive.SendableNeverStuck` | rozofs/core/af_unix_socket_stream_recv.c:515-628 | no prefix of a stream of messages within the limit gives a reason to close the connection |
| `RpcReceive.ServeOnce` | rozofs/core/af_unix_socket_stream_recv.c:432-777 | on a valid stream that is not read to its end, one call delivers a message, or the socket stalled, a buffer was refused, or a read failed too early |
| `RpcReceive.Serve` | rozofs/core/af_unix_socket_stream_recv.c:432-777 | what was sent arrives: if no read failed before the end of a valid stream, and more calls were made than messages were to come, stalls and refused buffers together, every message has been delivered |
| `RpcReceive.BuffersAccountedFor` | rozofs/core/af_unix_socket_stream_recv.c:650-764 | every buffer ever allocated is delivered once, freed once or still current: exactly one of these |
| `StreamSend.SentAllAgrees` | rozofs/core/af_unix_socket_stream_send.c:173-231 | a complete send keeps order, byte count, reference counts and the ledger of buffers; the done callback gets the buffer if and only if there is one and the opaque reference is still this socket, and it is freed only if one reference is left then |
| `StreamSend.HoldersAgree` | rozofs/core/af_unix_socket_stream_send.c:430-438 | other holders may take and drop references and change the opaque reference at any time, as long as one reference to a buffer inside is left |
| `StreamSend.WithdrawnAgrees` | rozofs/core/rozofs_tx_engine.c:496-521 | taking a queued buffer back leaves a transmitter as if it had never been submitted |
| `StreamSend.Transmitter.Decrement` | rozofs/core/ruc_buffer_api.h:857-900 | its precondition, met at every call in every run, excludes the fatal branches; the count goes down by one |
| `StreamSend.Transmitter.StepSend` | rozofs/core/af_unix_socket_stream_send.c:159-316 | one send keeps the invariant for each outcome; the transmitter dies exactly if the send failed and is congested exactly if it would have blocked; which submissions leave, for which cause, and what becomes of the pool |
| `StreamSend.OneMoreSend` | rozofs/core/af_unix_socket_stream_send.c:159-316 | after any number of complete sends, one more send keeps the order in which submissions leave, whatever its outcome |
| `StreamSend.Transmitter.StepQueue` | rozofs/core/af_unix_socket_stream_send.c:317-366 | the oldest queued buffer becomes current with one increment, or the queue is empty and the transmitter idle; no other buffer is touched |
| `StreamSend.Transmitter.RunFsm` | rozofs/core/af_unix_socket_stream_send.c:117-397 | the state machine ends idle with an empty queue, congested or dead, in every run, and dead or congested exactly if a send failed or would have blocked; the submissions leave in order, first the sent ones, then the failed one, then the rest; the pool follows their fates and no other buffer changes |
| `StreamSend.Transmitter.SendFailed` | rozofs/core/af_unix_socket_stream_send.c:252-310 | the current buffer leaves as the failed one, and the queue, in order, as never started; each is settled once, and the pool follows the fates |
| `StreamSend.Transmitter.TearDown` | rozofs/core/af_unix_socket_client_generic.c:644-685 | the queue is drained in order and each of its buffers settled once as never started; the pool follows the fates |
| `StreamSend.Transmitter.Disconnect` | rozofs/core/af_unix_socket_client_generic.c:589-685 | one decrement for the current buffer, which leaves as cut off, none for queued ones, which leave as never started; the transmitter is dead and nothing is left inside |
| `StreamSend.Transmitter.Send` | rozofs/core/af_unix_socket_stream_send.c:417-465 | a buffer is accepted exactly when the socket is ready or congested, and is then the last; buffers leave during the call as in a run of the state machine; sent on an idle socket without a failed or blocked send, everything accepted is on the wire; otherwise nothing changes |
| `StreamSend.Transmitter.OnWritable` | rozofs/core/af_unix_socket_client_generic.c:549-578 | resumes after congestion without accepting or reordering anything; if no send fails or blocks, everything accepted is on the wire afterwards |
| `StreamSend.Transmitter.ChangeHolders` | rozofs/core/rozofs_tx_api.h:354-359 | a step of the other holders of a buffer keeps the invariant: counts are theirs plus one for the current buffer |
| `StreamSend.Transmitter.ChangeElsewhere` | rozofs/core/ruc_buffer_api.h:857-900 | whatever happens to a buffer that is not inside keeps the invariant |
| `StreamSend.Transmitter.Withdraw` | rozofs/core/rozofs_tx_engine.c:496-521 | a transaction that times out takes its buffer out of the queue, and frees it if nobody else uses it; the others keep their order |
| `StreamSend.WireIsPrefix` | rozofs/core/af_unix_socket_stream_send.c:117-465 | at any time the wire carries a prefix of the accepted buffers that were not withdrawn, in order of submission, and the byte counter is its length |
| `StreamSend.IdleHasSentAll` | rozofs/core/af_unix_socket_stream_send.c:346-357 | an idle transmitter has sent everything that it accepted |
| `StreamSend.EveryBufferSettledOnce` | rozofs/core/af_unix_socket_stream_send.c:183-310 | idle or dead, the settled buffers are exactly the accepted ones that were not withdrawn, each once |
| `StreamSend.WhoGetsTheBuffer` | rozofs/core/af_unix_socket_stream_send.c:183-310 | for each cause, exactly when the done callback or the disconnect callback gets the buffer; it is freed if and only if nobody gets it and one reference is left |
| `StreamSend.FreedWithoutCallbacks` | rozofs/core/af_unix_socket_client_generic.c:611-685 | without callbacks a buffer is freed if and only if nobody else uses it when it is settled |
| `MergeSort.SortPermutes` | rozofs/common/list.h:88-165 | bottom-up merging keeps the nodes |
| `MergeSort.SortSorts` | rozofs/common/list.h:88-165 | and sorts them |
| `MergeSort.SortStable` | rozofs/common/list.h:88-165 | and keeps the order of nodes that compare equal |
| `ListSort.MergeRuns` | rozofs/common/list.h:105-149 | the loop over the links splits off two runs and appends their merge to the list, links both ways |
| `ListSort.MergePass` | rozofs/common/list.h:99-153 | one pass turns the ring into the ring of merged runs and counts the merges |
| `ListSort.RemoveHead` | rozofs/common/list.h:49-54 | unlinking the head leaves two well-formed rings |
| `ListSort.InsertHead` | rozofs/common/list.h:161-164 | linking the head in again gives a well-formed ring |
| `ListSort.SortRing` | rozofs/common/list.h:96-159 | the passes end, with the specified order |
| `ListSort.Sort` | rozofs/common/list.h:88-165 | in place, any well-formed ring becomes a well-formed ring of the specified order; an empty one is left alone |
| `ListSort.SortIsStableSort` | rozofs/common/list.h:88-165 | that order is a sorted and stable permutation, for every total preorder |
| `CacheBucket.CheckBytes` | rozofs/core/com_cache.c:60-151 | the word-wide skips never pass a bit of the kind sought, and one is in the half byte returned; -1 means there is none |
| `CacheBucket.FirstFree` | rozofs/core/com_cache.c:349-373 | the lowest free slot, or none only if all are in use |
| `CacheBucket.Locate` | rozofs/core/com_cache.c:494-549 | the first slot with that tag and key, if there is one; it gives up exactly at a slot whose array is missing and that comes before it |
| `CacheBucket.ReleaseTestCovers` | rozofs/core/com_cache.c:719-728 | which 32 slots the test before releasing array a really looks at |
| `CacheBucket.RemoveSlotSound` | rozofs/core/com_cache.c:696-732 | a removal keeps slots, tags, list and arrays consistent if and only if it does not release an array in use |
| `CacheBucket.FirstArrayIsSafe` | rozofs/core/com_cache.c:719-732 | removals from slots 0 to 31 never do |
| `CacheBucket.FullBucketIsSafe` | rozofs/core/com_cache.c:719-732 | nor do removals from a bucket without a free slot |
| `CacheBucket.OtherArraysAreNotSafe` | rozofs/core/com_cache.c:719-732 | with slots 32 and 63 in use, removing the first one does |
| `CacheBucket.InsertSlotSound` | rozofs/core/com_cache.c:383-420 | an insertion keeps the bucket consistent, clearing the array only if it was not there |
| `CacheBucket.FullBucket` | rozofs/core/com_cache.c:343-350 | a bucket has 256 entries exactly when no slot is free |
| `CacheBucket.InsertKeepsLow` | rozofs/core/com_cache.c:350-378 | with less than 32 entries in the bucket, the slot chosen is below 32 |
| `LruCache.Cache.Remove` | rozofs/core/com_cache.c:607-742 | exactly the entry with the key goes, from both lists, and is given back once; the cache stays consistent if and only if the removal is safe |
| `LruCache.Cache.Search` | rozofs/core/com_cache.c:458-593 | returns exactly the clean entry under the key and makes it the most recent; a dirty one is removed and nothing returned; dirty counters never change, a hit changes nothing but the two lists, and a miss nothing at all |
| `LruCache.Lookup` | rozofs/core/com_cache.c:458-593 | a clean entry is found and stays; a key that is not found is not in the cache afterwards; clean entries are never given up |
| `LruCache.SearchTwice` | rozofs/core/com_cache.c:553-572 | a lookup makes nothing stale: the same key gives the same value again, and so does every other key with a clean entry |
| `LruCache.Cache.MakeRoom` | rozofs/core/com_cache.c:322-341 | a full cache loses exactly its least recently used entry, which is given back |
| `LruCache.Cache.FindSlot` | rozofs/core/com_cache.c:343-443 | a free slot of the bucket; a full bucket loses its own least recently used entry, which is given back, and one retry is enough |
| `LruCache.Cache.Insert` | rozofs/core/com_cache.c:295-444 | the exact new list of all entries and the values given back; consistent exactly when it reports success; a cache of at most 32 entries, or a bucket with less than 32, never leaves the first array |
| `LruCache.Cache.LowMeansSafe` | rozofs/core/com_cache.c:719-732 | while only first arrays are in use every removal is safe, so the conditions above hold by themselves |
| `LruCacheRun.ArrayIsLost` | rozofs/core/com_cache.c:719-732 | a run from an empty cache, with inserts and removals only, after which an entry that was never removed is not found |
| `DiskTable.RoomToAppend` | rozofs/core/disk_table_service.c:485-524 | by pigeonhole none of the size checks before an append can fail |
| `DiskTable.OtherRecord` | rozofs/core/disk_table_service.c:537-549 | writing a record, in full or in part, changes no other record |
| `DiskTable.AppendWorks` | rozofs/core/disk_table_service.c:524-549 | an append keeps header words one to one onto the slots and stores the entry |
| `DiskTable.ShortAppendBreaks` | rozofs/core/disk_table_service.c:524-547 | with its data cut short it never does, for every file |
| `DiskTable.FailedAppendIsShared` | rozofs/core/disk_table_service.c:524-549 | the next append then gets the same slot, and both entries read the same record |
| `DiskTable.UnreleasedTable` | rozofs/core/disk_table_service.c:553-568 | clearing the released mark brings the old record back under the entry, and only there |
| `DiskTable.Table.Read` | rozofs/core/disk_table_service.c:258-348 | exactly the last record written, or no data, or ERANGE, when its calls go well; it fails exactly if a call that it makes fails; data returned and no data are right even with faults; the contents never change, and only the bit of a missing file is cleared |
| `DiskTable.Table.Write` | rozofs/core/disk_table_service.c:365-584 | other entries, files and bits never change; the exact condition for success, which means that the entry is stored; what the entry holds after a failure, and what of the bitmap is on disk; the table stays sound if and only if no append loses its data |
| `DiskTable.Table.DropAbsent` | rozofs/core/disk_table_service.c:450-467 | a file that is announced and missing is not announced any more, which nobody can see |
| `DiskTable.Table.FillNew` | rozofs/core/disk_table_service.c:396-441 | nothing that is written to a file before its bit is set can be seen, however far it gets |
| `DiskTable.Table.BitmapFlush` | rozofs/core/disk_table_service.c:208-239 | the bitmap on disk equals the one in memory, or a failed flush has changed its first bytes and leaves it to be written again |
| `DiskTable.Table.Restart` | rozofs/core/disk_table_service.c:74-121 | a restart keeps the contents if and only if no file whose bit differs on disk has a visible entry; fault-free operations maintain that |
| `DiskTable.SameViews` | rozofs/core/disk_table_service.c:74-121 | two bitmaps show the same contents if and only if they differ on files without a visible entry only |
| `DiskTable.UnsavedBitIsLost` | rozofs/core/disk_table_service.c:441-448 | for every table: the first write to a file reports success although the flush failed, and the entry is gone after a restart |
| `DiskTable.HeaderStartsAfresh` | rozofs/core/disk_table_service.c:402-448 | for every table: the next write to such a file rewrites its header, and the lost entry stays lost after one more restart |
| `InodeTracker.EntriesExact` | rozofs/common/exp_trck_inode_srv_v2.c:408-421 | the entries counted from the length of a file, the last incomplete one included |
| `InodeTracker.WriteRaisesEntries` | rozofs/common/exp_trck_inode_srv_v2.c:961-977 | writing attributes of an entry, in whole or in part, raises the count to that entry and never lowers it |
| `InodeTracker.Tracker.IncrementMain` | rozofs/common/exp_trck_inode_srv_v2.c:57-110 | which replicas of the main file hold the new index, and success if one does |
| `InodeTracker.Tracker.OpenOne` | rozofs/common/exp_trck_inode_srv_v2.c:291-508 | one tracking file: created, resumed behind its last entry, or skipped, exactly when its calls go well and by whether it is full; which replicas hold the new number then; no outcome changes a file that holds anything |
| `InodeTracker.Tracker.Open` | rozofs/common/exp_trck_inode_srv_v2.c:291-508 | skips full files only; without faults it succeeds if and only if one of the next five files is not full |
| `InodeTracker.Tracker.CheckFull` | rozofs/common/exp_trck_inode_srv_v2.c:524-540 | after the last entry of a file, the next file number is in memory and in exactly the replicas that could be written |
| `InodeTracker.Tracker.Allocate` | rozofs/common/exp_trck_inode_srv_v2.c:738-777 | an inode allocated with success was never allocated before, its index is below 2044, and it is above all earlier ones while the allocator is ahead, which it keeps; the position afterwards; without faults it fails only after skipping five full files; replicas only move on to file numbers reached since, and one of them holds the current number after a success |
| `InodeTracker.Tracker.WriteAttributes` | rozofs/common/exp_trck_inode_srv_v2.c:919-986 | success exactly if the file is there, the entry not released and all bytes written; the count of entries becomes the larger of the old one and the entry written; no other file changes and no entry is released; success covers the inode against a restart |
| `InodeTracker.WriteTwice` | rozofs/common/exp_trck_inode_srv_v2.c:919-986 | after attributes of an inode were written they can be written again |
| `InodeTracker.Tracker.Release` | rozofs/common/exp_trck_inode_srv_v2.c:829-897 | success exactly if the file can be opened; exactly that entry is marked, no length changes, and no index becomes free |
| `InodeTracker.ReleaseThenWrite` | rozofs/common/exp_trck_inode_srv_v2.c:558-590 | after a release attributes of that inode are refused, and those of every other one are not |
| `InodeTracker.Tracker.Restart` | rozofs/common/exp_trck_inode_srv_v2.c:129-255 | goes on from the first replica that can be read; the invariant that makes inodes unique holds again if and only if the inodes from that file on are covered; the order survives when only full files lie in between |
| `InodeTracker.ComesTo` | rozofs/common/exp_trck_inode_srv_v2.c:291-508 | a process started from any disk gives out, after finitely many allocations, every inode from its file on that is not covered |
| `InodeTracker.RestartRepeats` | rozofs/common/exp_trck_inode_srv_v2.c:738-777 | for every tracker: an inode that it gave out and that is not covered is given out again after a restart |
| `InodeTracker.CrashBeforeAttributes` | rozofs/common/exp_trck_inode_srv_v2.c:738-777 | the smallest such run |
| `TrackChange.BitInBitmap` | rozofs/common/export_track_change.c:298-314 | the bit of a file lies inside the bitmap and is shared exactly by the files of the slice with the same number modulo 1024 |
| `TrackChange.BitLaws` | rozofs/common/export_track_change.c:296-303 | slice 0 starts with the bits of its 1024 files in order, the next slice follows 8192 bits on, and files repeat after 1024 |
| `TrackChange.StepKeepsInv` | rozofs/common/export_track_change.c:277-470 | every step of writers and flush thread keeps the masks complete and the flushed chunks empty |
| `TrackChange.StepConserves` | rozofs/common/export_track_change.c:277-470 | which bits a step loses, exactly: those behind a short write, and those on disk that a short read missed, unless set again; only a recorded write adds one |
| `TrackChange.RunConserves` | rozofs/common/export_track_change.c:277-470 | over every interleaving, failed and short reads and writes included: a bit is on disk or in a buffer if and only if it was there or was recorded and no step lost it since |
| `TrackChange.NothingLost` | rozofs/common/export_track_change.c:277-470 | without short reads and writes disk and buffers hold exactly the bits ever recorded |
| `TrackChange.TwoFlushesReachDisk` | rozofs/common/export_track_change.c:351-470 | two successful flushes in a row put every bit recorded before them on disk, whatever the writers do meanwhile, unless a short read or write keeps it off |
| `TrackChange.TwoFlushesExactly` | rozofs/common/export_track_change.c:351-470 | a bit that is not set again is on disk right after them if and only if no short read or write has lost it |
| `TrackChange.FlushWritesWhatItTook` | rozofs/common/export_track_change.c:376-456 | what is on disk after one successful flush, bit by bit, with every length of reads and writes; the buffer it took is empty |
| `TrackChange.CompleteFlush` | rozofs/common/export_track_change.c:376-456 | with complete reads and writes it adds exactly what that buffer held at the swap |
| `TrackChange.TrackedFileIsSaved` | rozofs/common/export_track_change.c:277-456 | a change of a file that was recorded is on disk after the next complete flush, together with exactly the files of its slice that share the bit |
| `TrackChange.FlushCompletes` | rozofs/common/export_track_change.c:376-470 | from any swap on, a flush without faults comes to its end |
| `TrackChange.FailedFlushCanBeRepeated` | rozofs/common/export_track_change.c:376-470 | a flush that failed has changed nothing on disk and no bit has left its buffer; the next one can start |
| `TrackChange.ReturningZeroIsNotEnough` | rozofs/common/export_track_change.c:365-470 | after any number of attempts that all return 0, a bit that was in memory only is on disk if and only if two of them completed, or one did and the bit was in the buffer in use |
| `TrackChange.ShortWriteLoses` | rozofs/common/export_track_change.c:439-450 | runs that lose a recorded bit, for every bit of the first chunk and every write that ends before it |
| `TrackChange.ShortReadLoses` | rozofs/common/export_track_change.c:421-450 | from any state, recording one bit and flushing it after a short read loses another bit that was on disk |
| `TrackChange.GivingUpLooksLikeSuccess` | rozofs/common/export_track_change.c:365-374 | the smallest run of two attempts that return 0 and leave a recorded bit off the disk |
| `TxTimer.NotEarly` | rozofs/core/com_tx_timer.c:135-178 | before its deadline a timer neither fires nor is moved, across any wrap of the clock |
| `TxTimer.FiresExactly` | rozofs/core/com_tx_timer.c:135-160 | at any time after the deadline, exactly when a timer fires: whole turns of the clock aside, it is late by less than 2^32 minus the delay and the clock has not wrapped since |
| `TxTimer.MovedWhenLate` | rozofs/core/com_tx_timer.c:162-178 | a date is readjusted only for an overdue timer after a wrap, which then gets its whole delay again |
| `TxTimer.MovedExactly` | rozofs/core/com_tx_timer.c:162-178 | at any time, exactly when a date is readjusted: not before the deadline, and after it if the timer is late, whole turns aside, by less than 2^32 minus the delay and the clock has wrapped since |
| `TxTimer.Slot.Start` | rozofs/core/com_tx_timer.c:225-264 | the timer is dequeued if it was queued, and queued last with its wrapped deadline; with one delay per slot the queue stays in order of deadlines |
| `TxTimer.Slot.Stop` | rozofs/core/com_tx_timer.c:280-289 | exactly that timer leaves the queue, if it was there; the order stays |
| `TxTimer.Slot.Head` | rozofs/core/com_tx_timer.c:135-178 | the head fires exactly if it has expired; otherwise it stays, with its date readjusted or not, and its true deadline follows |
| `TxTimer.Slot.ProcessSlot` | rozofs/core/com_tx_timer.c:110-201 | fires timers from the head, within the credit, each one expired and never early, also when callbacks start and stop timers; when lookups are in time it stops only at a timer that is not due; without such callbacks it fires a prefix of the queue up to the first timer that has not expired, and in a sorted queue no timer is due afterwards |

## Left out

- `transform_inverse_inline` (a copy of `transform_inverse`) and `transform128_forward_one_proj_old` (superseded).
- SSE intrinsics, and the address arithmetic that aligns the scratch of `transform128_inverse_copy` to 32 bytes: at most 64 bytes of it count as unusable. What the call leaves in the projection contexts, addresses inside its own scratch, is not modelled.
- MojetteForward.TransformForward: a number of columns that is not a multiple of 8 is excluded; the code then drops columns, and no layout has such blocks.
- Angles with q other than 1 (no layout has any) and floating-point slopes: slopes are compared as reals, and qsort is some sort for that comparison.
- MojetteLanes.ForwardIsTwoTransforms: only for numbers of columns that the 64-bit transform accepts, which are the multiples of 8; the halves of the bins are the bins of the halves for all of them.
- Sizes and offsets of the transforms are unbounded integers; the tables fill 16-bit and 32-bit fields far from overflow.
- RozofsLayout.InitializeLayout: the unused read past the size table is not made; the redundancy coefficients are exact reals and not floats.
- RpcReceive.Receiver.OnReadable: it stops where the code is about to write outside its buffer, because no later behaviour is defined; the maximum size is below 2^31.
- RpcReceive.Receiver.StepAlloc: the callbacks that admit a message and allocate a buffer are one nondeterministic choice.
- StreamSend.Transmitter.Send: steps of other holders happen between calls, as in the single-threaded event loop; callbacks that call back into the same socket, transmission requests of type XMIT_ASSOC, and a buffer submitted again while it is still inside are not modelled.
- The non-RPC receiver, socket creation, reconnection and supervision, the socket controller: input/output plumbing around the same state machines.
- ListSort.Sort: the comparison looks at keys that do not change; the run length does not overflow.
- `list_move`, `list_push_front` and similar primitives: link updates with easy properties.
- LruCache.Cache.Insert: keys are unique and the victim of a full cache is one whose removal is safe, as explained above (LruCache.Cache.MakeRoom states the same condition); the lists of the cache are sequences, because rings are treated in `ListSort.dfy`.
- `com_cache_dirty_bucket_update` beyond the increment of one bucket's counter (`LruCache.Cache.MarkDirty`): its skip flag and its range test contradict its comments.
- DiskTable.Table.Write: the write of the two bytes of a header word is complete or does nothing; writes of whole headers, of data and of the bitmap may be cut short.
- The iterators over the on-disk table, and whoever marks entries as released.
- InodeTracker.Tracker.Allocate: the 40-bit width of file numbers, and the removal of empty tracking files by the export daemon.
- InodeTracker.Tracker.WriteAttributes: a tracking file that is cut off inside its header has no entries that can be written, and a release leaves its length.
- TrackChange.StepConserves: buffers are sets of bits and not bytes.
- TxTimer.Slot.Start: a cell that is queued in another slot, from which the code would dequeue it too.
- TxTimer.Slot.ProcessSlot: a clock that is set back.
- `norh_lbg_timer.c` (the algorithm of `com_tx_timer.c` again) and the hash table variants with locks.
- Configuration, service ports, statistics, debug output and the other daemons.
