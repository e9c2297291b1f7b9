# The download engine, modelled and proved

This project models the BitTorrent engine vendored in `src-tauri/local-patches/librqbit` and proves
what its comments, tests and structure promise. Check it with `dafny verify dfyconfig.toml`.

The modules follow the engine:

- `Lengths`, `FileLayout` — pieces, chunks and files, and where each lies in the torrent.
- `PieceBits`, `ChunkMarking`, `FileCounters`, `FileSelection`, `PieceQueue`, `ChunkTracker` — the
  chunk tracker: its four bitfields, the totals and per-file counters cached beside them, chunk
  marking, selection, and the order in which pieces are offered. The class `ChunkTracker` is the
  mutable object; the other modules hold its specification and what is proved about it.
- `PieceProtocol`, `ProtocolFields`, `CounterProtocol`, `Completion`, `Finishing`, `StoredBytes`,
  `LiveTorrent`, `ProtocolTraces` — the protocol among peers. `PieceProtocol` is a state machine whose
  steps are the lock-guarded blocks of the live torrent, interleaving freely, and proves that no needed
  piece is lost; `ProtocolFields` follows one peer, piece or write over every step; `CounterProtocol`
  follows the per-file counters and what they hide from peers; `Completion` follows the chunk bits;
  `Finishing` shows from which states the download can finish; `StoredBytes` puts the bytes on disk
  beside the have bits. Every method of the class `LiveTorrent` is proved to take exactly one such
  step; `ProtocolTraces` holds concrete runs that show why the guarantees carry the conditions they do.
- `FlatStorage`, `FileOps`, `CreateTorrent` — many files, some empty, some padding, as one flat
  array of bytes: chunk reads and writes, piece checks, the initial check, and torrent creation.
- `Streaming`, `WakeProtocol` — lookahead queues, their round-robin interleaving, gated reads, and
  wakeups over all interleavings.
- `ReadBuf`, `MetadataExchange`, `Pex` — message framing, metadata transfer, peer exchange.
- `PeerCounters` — peer states counted per torrent and per session.

Conventions. SHA-1 is an injective function: a digest stands for the bytes hashed. Storage is one
byte string per file; reading past the end fails. Clocks, the network and scheduling appear as
parameters or as nondeterministic choices. A lock-guarded block is atomic.

Where a property that one would expect does not hold of the code, the model keeps the code, and the
project proves exactly when the property holds:

- A pause while a needed piece is only in the hash check loses that piece; so does an I/O error in
  the hash check (`CoveredStep`, `PauseCanLose`, `HashErrorCanLose`).
- The comment at live/mod.rs:1686-1688 says the piece lock guarantees that the piece is not stolen.
  Nobody can steal it, but a piece queued again during the write can be reserved by another peer
  (`WriterKeepsPiece`, `WriterCanLosePiece`).
- A pause between setting a have bit and the completion step loses the wakeup of a stream waiting
  for that piece (`WakeStep`, `PauseCanLoseWakeup`).
- Start-up selection and run-time selection differ on chosen empty files (`SelectionsAgree`).
- A piece can pass its hash check twice: selecting its file again during the check queues it again.
  It is then credited twice, and the counters can make a file look finished that is not, which hides
  its missing pieces from peers, before and after a pause; a further credit shows them again
  (`ExactStep`, `OfferedIffShown`, `DoubleCreditHides`, `HiddenAfterResume`, `ThirdCreditShows`).
- A pause between a hash check and its credit loses the credit (`ExactStep`, `PauseDropsCredit`).
- A write still under way when the piece passes its hash check can change a had piece on disk
  (`HaveMeansStored`, `StaleWriteSpoils`).
- A chunk that completes a piece which is not in flight any more is never followed by a hash check;
  the piece then answers every chunk with `PreviouslyCompleted` (`StuckStep`, `StaleWriteSticks`).
- A torrent whose last file is empty lacks the hash of a partial last piece; one whose last file is
  not empty but fills its last piece has a hash of nothing too many (`CreateTorrentRaw`,
  `CreateThenCheck`).
- The initial check passes over the bytes of a piece that lie in an already failed file and judges the
  piece by the rest alone (`InitialCheck`, `BitMeans`, `UnreadPieceMarked`).
- A handshake must arrive whole in the first read (`ReadHandshake`).
- The metadata request one past the last piece is answered with an empty piece or runs out of
  bounds, and offsets wrap for metadata close to 4 GiB (`ServedIff`).
- A live peer that dies on a paused torrent with requests outstanding is left queued (`OnPeerDied`).

## Model

| member | source | states |
|---|---|---|
| `PieceProtocol.NoNeededPieceLost` | src-tauri/local-patches/librqbit/src/torrent_state/live/mod.rs:1227-1320 | in every run of connect, reserve, steal, request, receive, ownership check, chunk mark, hash pass, fail and error, completion, peer death, reselection, pause and resume without a losing step, every selected piece not yet had is queued, in flight or being hashed in every state |
| `PieceProtocol.CoveredStep` | src-tauri/local-patches/librqbit/src/torrent_state/live/mod.rs:1697-1793 | a step keeps every needed piece covered if and only if it is not a pause while a needed piece is only being hashed, nor an I/O error in the last hash check of such a piece |
| `PieceProtocol.PauseCovers` | src-tauri/local-patches/librqbit/src/torrent_state/live/mod.rs:701-725 | a pause keeps every needed piece queued iff no needed piece is standing only in the hash check |
| `PieceProtocol.PauseQueues` | src-tauri/local-patches/librqbit/src/torrent_state/live/mod.rs:701-725 | piece by piece: after a pause a needed piece is queued iff it was not only being hashed |
| `PieceProtocol.HashErrorCovers` | src-tauri/local-patches/librqbit/src/torrent_state/live/mod.rs:1736-1740 | an I/O error in a hash check loses its piece iff that check was the last trace of a needed piece |
| `Finishing.CanFinishIff` | src-tauri/local-patches/librqbit/src/torrent_state/live/mod.rs:1227-1320 | from any live state, peers that deliver, credits included, can bring every needed piece if and only if each can still come to a hash check: it is in one, or lacks a chunk and is in flight, or is queued in a file that looks unfinished or that a credit still to come will show again |
| `Finishing.EveryRunCanFinish` | src-tauri/local-patches/librqbit/src/torrent_state/live/mod.rs:1643-1796 | in every run, pauses and resumes included, without a losing step, a step that leaves a piece stuck, or a second pass of a had piece, the download can finish from every live state |
| `Finishing.HopelessForever` | src-tauri/local-patches/librqbit/src/torrent_state/live/mod.rs:1697-1778 | whatever peers deliver and however it is credited, a needed piece that cannot come to a hash check never can |
| `Finishing.DownloadCanFinish` | src-tauri/local-patches/librqbit/src/torrent_state/live/mod.rs:1643-1796 | the finishing run: everything offered is reserved and delivered, by its owner where that one is live, before another credit is given |
| `StoredBytes.HaveMeansStored` | src-tauri/local-patches/librqbit/src/torrent_state/live/mod.rs:1689-1746 | in every run in which no bytes reach the disk for a piece that is had or being hashed, a have bit means in every state that the piece is stored and matches its digest, if it did at the start |
| `StoredBytes.StaleWriteSpoils` | src-tauri/local-patches/librqbit/src/torrent_state/live/mod.rs:1686-1695 | a concrete run without that condition: a write still under way when the hash check passes brings other bytes, and the had piece does not match |
| `StoredBytes.CheckMatching` | src-tauri/local-patches/librqbit/src/file_ops.rs:184-248 | stored and matching is exactly what check_piece answers true for |
| `StoredBytes.ChunksTileTorrent` | src-tauri/local-patches/librqbit/src/file_ops.rs:301-310 | every byte of the torrent is written by exactly one chunk |
| `CounterProtocol.EveryNeededPieceOffered` | src-tauri/local-patches/librqbit/src/chunk_tracker.rs:216-229 | in every run without a losing step and without a second pass of a had piece, every needed piece is being hashed, in flight, or offered to peers by the tracker's own counters, in every state |
| `CounterProtocol.PauseThenResumeOffersAll` | src-tauri/local-patches/librqbit/src/torrent_state/live/mod.rs:701-725 | a pause taken while nothing is being hashed leaves every needed piece queued; after a resume, which keeps the counters, it is offered iff some file holding it does not look finished, and so always when no counter exceeds the bytes had |
| `PieceProtocol.OfferedIffShown` | src-tauri/local-patches/librqbit/src/chunk_tracker.rs:216-229 | in any state a queued piece is offered iff the counter of some file holding it differs from the file's length |
| `CounterProtocol.ExactStep` | src-tauri/local-patches/librqbit/src/torrent_state/live/mod.rs:775-796 | a step keeps the per-file counters, with the credits still to be given, equal to the bytes had if and only if it is neither a second pass of a had piece nor a pause between a hash check and its credit |
| `CounterProtocol.CountersStayExact` | src-tauri/local-patches/librqbit/src/chunk_tracker.rs:411-424 | over every run without such steps, crediting piece by piece gives what a recalculation would |
| `CounterProtocol.NeverOver` | src-tauri/local-patches/librqbit/src/chunk_tracker.rs:411-424 | over every run without a second pass of a had piece, no counter exceeds the bytes had |
| `Completion.StuckStep` | src-tauri/local-patches/librqbit/src/torrent_state/live/mod.rs:1697-1734 | exactly these steps leave a piece with all chunks marked but neither had nor hashed: a chunk completing a piece not in flight, an error in or a pause during its last hash check; and exactly these free it: the death of a peer with a request for it, a reselection choosing it, a pause while it is in flight |
| `Completion.FullPiecesAreHashed` | src-tauri/local-patches/librqbit/src/torrent_state/live/mod.rs:1697-1734 | in every run without such steps every piece with all its chunks marked is had or being hashed |
| `PieceProtocol.LostStep` | src-tauri/local-patches/librqbit/src/torrent_state/live/mod.rs:1227-1276 | a needed piece that nothing stands for stays so until the files are selected anew, a stream asks for it, or a peer dies with a request for it |
| `PieceProtocol.HaveNeverShrinks` | src-tauri/local-patches/librqbit/src/chunk_tracker.rs:252-262 | over every run a piece once had stays had |
| `PieceProtocol.WriterKeepsPiece` | src-tauri/local-patches/librqbit/src/torrent_state/live/mod.rs:1657-1725 | while a write holds the piece lock its peer keeps the piece, unless the piece was queued again and is reserved by another peer, or another chunk completes it; it is never stolen |
| `PieceProtocol.WellformedStep` | src-tauri/local-patches/librqbit/src/torrent_state/live/mod.rs:125-141 | every step keeps in-flight pieces, requests, writes and hashed pieces inside the torrent |
| `ProtocolFields.RequestsAreOutstanding` | src-tauri/local-patches/librqbit/src/torrent_state/live/mod.rs:1594-1631 | in every state of every run a peer is live exactly from its connection until it dies, is put aside or the torrent is paused, and its requests are exactly those made and not yet received since |
| `ProtocolFields.GoneUntilConnected` | src-tauri/local-patches/librqbit/src/torrent_state/live/mod.rs:1115-1140 | after a peer died or was put aside, and until it connects again, it is not live, and nothing is reserved for it, requested from it or received from it |
| `ProtocolFields.OthersKeepRequests` | src-tauri/local-patches/librqbit/src/torrent_state/live/mod.rs:1125-1140 | losing one peer takes its requests away and leaves those of every other peer alone |
| `ProtocolFields.OwnerStep` | src-tauri/local-patches/librqbit/src/torrent_state/live/mod.rs:1264-1306 | over every step, a piece is with the peer that last reserved or stole it, until its last chunk is marked or the torrent is paused |
| `ProtocolFields.QueuedStep` | src-tauri/local-patches/librqbit/src/chunk_tracker.rs:235-250 | over every step, exactly when a piece is put into the queue and taken from it |
| `ProtocolFields.HadStep` | src-tauri/local-patches/librqbit/src/chunk_tracker.rs:252-262 | over every step, a piece becomes had by passing a hash check, and selected or not by a choice of files |
| `ProtocolFields.CheckStep` | src-tauri/local-patches/librqbit/src/torrent_state/live/mod.rs:1702-1740 | over every step, hash checks begin when the last chunk of a piece in flight is marked and end with their outcome |
| `ProtocolFields.CreditStep` | src-tauri/local-patches/librqbit/src/torrent_state/live/mod.rs:1741-1778 | over every step, a credit is to come from the pass of a hash check until it is given |
| `ProtocolFields.CounterStep` | src-tauri/local-patches/librqbit/src/chunk_tracker.rs:411-424 | over every step, a file's counter grows by its bytes of the credited piece and by nothing else |
| `ProtocolFields.WriteStep` | src-tauri/local-patches/librqbit/src/torrent_state/live/mod.rs:1657-1729 | over every step, a chunk is written from the ownership check, if its peer owns the piece, until it is marked |
| `ProtocolFields.PeerStepNeeds` | src-tauri/local-patches/librqbit/src/torrent_state/live/mod.rs:1227-1320 | what reserving, stealing, requesting and receiving need |
| `ProtocolFields.DiskStepNeeds` | src-tauri/local-patches/librqbit/src/torrent_state/live/mod.rs:1657-1796 | what writing, marking, checking and crediting need |
| `ProtocolFields.LivenessStep` | src-tauri/local-patches/librqbit/src/torrent_state/live/mod.rs:701-725 | a torrent stops being live by a pause and becomes live by a resume; paused, it can only be resumed or have its files selected |
| `ProtocolTraces.PauseCanLose` | src-tauri/local-patches/librqbit/src/torrent_state/live/mod.rs:701-725 | a concrete run in which a pause during the hash check leaves a needed piece, after the resume, neither queued nor in flight nor being hashed |
| `ProtocolTraces.HashErrorCanLose` | src-tauri/local-patches/librqbit/src/torrent_state/live/mod.rs:1736-1740 | a concrete run in which a failing hash check does the same |
| `ProtocolTraces.WriterCanLosePiece` | src-tauri/local-patches/librqbit/src/torrent_state/live/mod.rs:1686-1688 | a concrete run in which a reselection during a write lets another peer take the piece although the first holds the piece lock |
| `ProtocolTraces.OneChunkIsTiny` | src-tauri/local-patches/librqbit/src/chunk_tracker.rs:437-446 | the layouts of the one-piece runs exist |
| `ProtocolTraces.StaleWriteSticks` | src-tauri/local-patches/librqbit/src/torrent_state/live/mod.rs:1697-1734 | a concrete run in which a chunk marked after a failed hash check completes the piece without anyone hashing it: needed, queued, nothing going on, and no chunk completes it any more, also after a pause and a resume |
| `ProtocolTraces.DoubleCreditHides` | src-tauri/local-patches/librqbit/src/torrent_state/live/mod.rs:740-749 | a concrete run, two pieces in one file: selecting the file again during the hash check of a piece lets it be completed, passed and credited twice, and the other piece, needed and queued, is offered to nobody |
| `ProtocolTraces.HiddenAfterResume` | src-tauri/local-patches/librqbit/src/torrent_state/live/mod.rs:215-268 | the same after a pause and a resume, since the counters are handed over; no delivery changes it |
| `ProtocolTraces.ThirdCreditShows` | src-tauri/local-patches/librqbit/src/chunk_tracker.rs:216-229 | with a third pass of the same piece the counter goes past the length of the file, and the hidden piece is offered again |
| `ProtocolTraces.PauseDropsCredit` | src-tauri/local-patches/librqbit/src/torrent_state/live/mod.rs:775-781 | a concrete run in which a pause between hash check and credit leaves the counter below the bytes had, with nothing pending |
| `LiveTorrent.LiveTorrent.constructor` | src-tauri/local-patches/librqbit/src/torrent_state/live/mod.rs:215-293 | going live on a handed-over tracker keeps its bits and counters, with nothing in flight |
| `LiveTorrent.StartDownload` | src-tauri/local-patches/librqbit/src/torrent_state/live/mod.rs:215-293 | a tracker made from the initial check and going live is an initial state of the protocol; fails iff the bitfields differ in length or are too short |
| `LiveTorrent.LiveTorrent.ReserveNextNeededPiece` | src-tauri/local-patches/librqbit/src/torrent_state/live/mod.rs:1227-1276 | gives the peer the earliest streamed piece neither had nor in flight that it has; without one, from the first listed file that looks unfinished and has a queued piece the peer has, the first such piece in the order first, last, then rising; takes it from the queue into flight as one reserve step; fails exactly when paused |
| `LiveTorrent.LiveTorrent.CandidateLegal` | src-tauri/local-patches/librqbit/src/torrent_state/live/mod.rs:1240-1262 | every candidate is queued in a file that looks unfinished, or neither had nor in flight |
| `LiveTorrent.LiveTorrent.TryStealOldSlowPiece` | src-tauri/local-patches/librqbit/src/torrent_state/live/mod.rs:1282-1320 | steals the oldest piece of another peer exactly when it has been in flight longer than the threshold times our average and nobody is writing it, as one steal step |
| `LiveTorrent.LiveTorrent.ReceiveChunk` | src-tauri/local-patches/librqbit/src/torrent_state/live/mod.rs:1594-1631 | accepts a chunk iff it was requested from that peer, and removes the request |
| `LiveTorrent.LiveTorrent.CheckStolen` | src-tauri/local-patches/librqbit/src/torrent_state/live/mod.rs:1657-1684 | a chunk is written iff its peer still owns the piece |
| `LiveTorrent.LiveTorrent.MarkWritten` | src-tauri/local-patches/librqbit/src/torrent_state/live/mod.rs:1697-1725 | the hash check follows exactly when the chunk brings the last missing bytes of a piece in flight, which then leaves the in-flight map |
| `LiveTorrent.LiveTorrent.PassHash` | src-tauri/local-patches/librqbit/src/torrent_state/live/mod.rs:1741-1746 | a passed hash is one protocol step and keeps the tracker's cached totals exact |
| `LiveTorrent.LiveTorrent.FailHash` | src-tauri/local-patches/librqbit/src/torrent_state/live/mod.rs:1782-1793 | a failed hash queues the piece again and clears its chunks, unless it is had |
| `LiveTorrent.LiveTorrent.OnPieceCompleted` | src-tauri/local-patches/librqbit/src/torrent_state/live/mod.rs:775-820 | on a live torrent one completion step, exactly the streams waiting at the piece are woken, and peers are to be put aside iff nothing is needed and no stream is unfinished; on a paused one an error and no change |
| `LiveTorrent.LiveTorrent.SetNotNeeded` | src-tauri/local-patches/librqbit/src/torrent_state/live/mod.rs:822-835 | a live peer is put aside as one step that forgets its requests without queueing their pieces |
| `LiveTorrent.LiveTorrent.CreditFiles` | src-tauri/local-patches/librqbit/src/torrent_state/live/mod.rs:784-793 | skipping to the first file of the piece and stopping at the next miss credits every file with exactly its bytes of the piece |
| `LiveTorrent.LiveTorrent.OnPeerDied` | src-tauri/local-patches/librqbit/src/torrent_state/live/mod.rs:1115-1140 | the peer is not live any more, every other peer keeps its requests, and the pieces of its outstanding requests, and no others, are queued again and cleared, unless had |
| `LiveTorrent.LiveTorrent.UpdateOnlyFiles` | src-tauri/local-patches/librqbit/src/torrent_state/live/mod.rs:740-749 | one reselection step when live, after which peers are to be reconnected iff something is needed; an error and no change when paused |
| `LiveTorrent.LiveTorrent.PauseTorrent` | src-tauri/local-patches/librqbit/src/torrent_state/live/mod.rs:701-725 | hands the tracker over with every in-flight piece not had queued again |
| `ChunkTracker.ChunkTracker.UpdateOnlyFiles` | src-tauri/local-patches/librqbit/src/chunk_tracker.rs:311-388 | the walk with two cursors equals reselecting every piece the files cover to its end, for every list of file lengths and set of ids; it fails iff the files are longer than the torrent; when they make it up, the cached totals are those of the new bitfields |
| `ChunkTracker.ChunkTracker.WalkFiles` | src-tauri/local-patches/librqbit/src/chunk_tracker.rs:317-379 | the walk over all files, without the cached totals |
| `ChunkTracker.ChunkTracker.WalkFile` | src-tauri/local-patches/librqbit/src/chunk_tracker.rs:327-379 | one file of the walk; it stops exactly where the pieces run out |
| `ChunkTracker.ChunkTracker.EndPiece` | src-tauri/local-patches/librqbit/src/chunk_tracker.rs:341-368 | ending a piece reselects it and extends the totals by it |
| `ChunkTracker.PiecesEndedIff` | src-tauri/local-patches/librqbit/src/chunk_tracker.rs:341-376 | the pieces the walk has ended are those whose last byte it has passed |
| `PieceBits.ReselectEffect` | src-tauri/local-patches/librqbit/src/chunk_tracker.rs:311-388 | a piece is selected iff one of its bytes lies in a chosen file, the queue equals the selection on pieces not had, exactly the newly queued pieces lose their chunks, and nothing else changes |
| `FileSelection.ComputeSelectedPieces` | src-tauri/local-patches/librqbit/src/torrent_state/initializing.rs:38-54 | with chosen files, selects exactly the pieces in the recorded range of one of them; without a choice, every piece; files whose range does not fit the bitfield are skipped |
| `FileSelection.CompareSelections` | src-tauri/local-patches/librqbit/src/torrent_state/initializing.rs:38-54 | start-up and run-time selection of the same files, bit against bit, agree iff every chosen empty file lying inside a piece shares it with a chosen non-empty file |
| `FileSelection.SelectionsAgree` | src-tauri/local-patches/librqbit/src/torrent_state/initializing.rs:38-54 | start-up and run-time selection agree on every piece iff every chosen empty file lying inside a piece shares it with a chosen non-empty file |
| `FileSelection.RangesSelect` | src-tauri/local-patches/librqbit/src/torrent_state/initializing.rs:38-54 | start-up selection is run-time selection plus the pieces around chosen empty files |
| `FileSelection.ChosenByRange` | src-tauri/local-patches/librqbit/src/chunk_tracker.rs:311-388 | run-time selection picks a piece iff it is in the range of a chosen non-empty file |
| `FileSelection.SelectionsCanDiffer` | src-tauri/local-patches/librqbit/src/chunk_tracker.rs:311-388 | files of 3, 0 and 3 bytes and pieces of 4, only the empty file chosen: the two selections differ |
| `ChunkTracker.ChunkTracker.New` | src-tauri/local-patches/librqbit/src/chunk_tracker.rs:138-165 | succeeds iff the bitfields agree in length and cover the torrent; the queue is selected minus had, chunks mirror have, counters are accurate and the cached totals exact |
| `ChunkTracker.ComputeChunkHaveStatus` | src-tauri/local-patches/librqbit/src/chunk_tracker.rs:74-101 | a chunk bit is set iff it belongs to a had piece; fails iff the have bitfield is too short |
| `ChunkTracker.ComputeQueuedPieces` | src-tauri/local-patches/librqbit/src/chunk_tracker.rs:103-128 | selected and not had; fails iff the lengths differ |
| `ChunkTracker.ChunkTracker.RecalculatePerFileBytes` | src-tauri/local-patches/librqbit/src/chunk_tracker.rs:167-179 | each counter is the bytes of the file lying in had pieces |
| `ChunkTracker.ChunkTracker.CalcHns` | src-tauri/local-patches/librqbit/src/chunk_tracker.rs:201-214 | the byte totals of had, needed and selected pieces |
| `ChunkTracker.ChunkTracker.ReserveNeededPiece` | src-tauri/local-patches/librqbit/src/chunk_tracker.rs:193-195 | leaves the queue without the piece and the cached totals exact |
| `ChunkTracker.ChunkTracker.MarkPieceBrokenIfNotHave` | src-tauri/local-patches/librqbit/src/chunk_tracker.rs:235-250 | queues and clears the piece unless it is had |
| `ChunkTracker.ChunkTracker.MarkPieceDownloaded` | src-tauri/local-patches/librqbit/src/chunk_tracker.rs:252-262 | sets the have bit; the cached totals stay equal to the recomputed ones and the subtraction cannot underflow |
| `ChunkTracker.ChunkTracker.MarkChunkDownloaded` | src-tauri/local-patches/librqbit/src/chunk_tracker.rs:277-306 | accepts exactly the blocks that start at a multiple of the chunk size inside their piece and reach to the next one or its end; completed iff the block brings the last missing bytes, previously completed iff none was missing |
| `ChunkTracker.ChunkTracker.UpdateFileHaveOnPieceCompleted` | src-tauri/local-patches/librqbit/src/chunk_tracker.rs:411-424 | credits one file with its bytes of the piece and returns what it still lacks |
| `ChunkTracker.ChunkTracker.IsFileFinished` | src-tauri/local-patches/librqbit/src/chunk_tracker.rs:394-400 | true iff all pieces of the file's range are had, or the range does not fit the bitfield |
| `PieceBits.TotalsMeaning` | src-tauri/local-patches/librqbit/src/chunk_tracker.rs:57-69 | needed never exceeds selected, so progress cannot underflow; finished holds iff selected is a subset of have |
| `PieceBits.TotalsOnHave` | src-tauri/local-patches/librqbit/src/chunk_tracker.rs:252-262 | what one more piece does to the three totals |
| `PieceBits.FillPieceEffect` | src-tauri/local-patches/librqbit/src/chunk_tracker.rs:235-250 | clearing one piece leaves the chunks of every other piece alone |
| `Lengths.ChunkRangesDisjoint` | src-tauri/local-patches/librqbit/src/chunk_tracker.rs:74-101 | chunk ranges of distinct pieces are disjoint and inside the chunk bitfield |
| `Lengths.ChunksTilePiece` | src-tauri/local-patches/librqbit/src/chunk_tracker.rs:277-306 | every byte of a piece lies in exactly one of its chunks, and no chunk is empty |
| `Lengths.ChunkBitsAbut` | src-tauri/local-patches/librqbit/src/chunk_tracker.rs:74-101 | the bits of consecutive pieces follow each other without a gap |
| `Lengths.ExampleLayouts` | src-tauri/local-patches/librqbit/src/chunk_tracker.rs:437-446 | the piece and chunk counts of two layouts with a last piece of one byte |
| `ChunkMarking.BitsAreArrivals` | src-tauri/local-patches/librqbit/src/chunk_tracker.rs:277-306 | for every history of arrivals and clearings over all pieces, the bits of a piece are exactly the chunks that arrived since it was last cleared |
| `ChunkMarking.MarkingAnswer` | src-tauri/local-patches/librqbit/src/chunk_tracker.rs:277-306 | Completed precisely when this arrival makes the set of arrivals full, PreviouslyCompleted when it already was |
| `ChunkMarking.CompletedOnce` | src-tauri/local-patches/librqbit/src/chunk_tracker.rs:277-306 | in every history, after a Completed every later arrival for the piece is answered PreviouslyCompleted until the piece is cleared |
| `ChunkMarking.CompletedHappens` | src-tauri/local-patches/librqbit/src/chunk_tracker.rs:277-306 | if arrivals fill a piece, some arrival was answered Completed |
| `ChunkMarking.ReceivedChunk` | src-tauri/local-patches/librqbit/src/chunk_tracker.rs:277-290 | the chunk a received block is |
| `ChunkMarking.BlockAnswer` | src-tauri/local-patches/librqbit/src/chunk_tracker.rs:277-306 | for every history of blocks, in any order, with duplicates and with blocks that are no chunks: completed exactly when the block brings the last bytes of the piece missing since it was last cleared, stated on bytes |
| `ChunkMarking.BytesAreBlocks` | src-tauri/local-patches/librqbit/src/chunk_tracker.rs:277-306 | the bitfield holds exactly the bytes that came in accepted blocks since their piece was last cleared |
| `FileCounters.CreditExact` | src-tauri/local-patches/librqbit/src/chunk_tracker.rs:411-424 | counters credited piece by piece equal a recalculation, file by file, iff no piece was credited twice or had been counted before; they never fall below it in total |
| `FileCounters.CountersConserved` | src-tauri/local-patches/librqbit/src/chunk_tracker.rs:167-179 | below any piece, the bytes had of all files add up to the bytes had |
| `FileCounters.CountersAddUp` | src-tauri/local-patches/librqbit/src/chunk_tracker.rs:167-179 | the sum of accurate per-file counters is the have_bytes of the cached totals |
| `FileCounters.CounterFull` | src-tauri/local-patches/librqbit/src/chunk_tracker.rs:216-229 | on a non-empty file the counter shortcut agrees with is_file_finished |
| `FileCounters.FilesOfPieceContiguous` | src-tauri/local-patches/librqbit/src/torrent_state/live/mod.rs:784-793 | the files whose range holds a piece are consecutive |
| `FileLayout.FilesSharePiece` | src-tauri/local-patches/librqbit/src/chunk_tracker.rs:411-424 | the parts of a piece in all files add up to the piece |
| `FileLayout.SharedBytes` | src-tauri/local-patches/librqbit/src/chunk_tracker.rs:411-424 | the bytes a piece and a file share are consecutive, and are as many as the file is credited |
| `PieceQueue.PrioritiesPermuteRange` | src-tauri/local-patches/librqbit/src/file_info.rs:15-26 | the offered order is a permutation of the range, first piece, last piece, then the rest in order; also for ranges of length 0 and 1, where the subtractions wrap |
| `PieceQueue.OffersExactlyQueued` | src-tauri/local-patches/librqbit/src/chunk_tracker.rs:216-229 | with accurate counters and queue disjoint from have, exactly the queued pieces of the listed non-empty files are offered |
| `PieceQueue.MissingPiecesOffered` | src-tauri/local-patches/librqbit/src/chunk_tracker.rs:216-229 | the counter shortcut never hides a missing piece, also when queue and have overlap |
| `PieceQueue.NothingQueuedIsHidden` | src-tauri/local-patches/librqbit/src/chunk_tracker.rs:216-229 | with every file listed, every queued piece not had is offered |
| `FileOps.WriteChunk` | src-tauri/local-patches/librqbit/src/file_ops.rs:301-352 | for every layout with empty and padding files: the flat array is patched at the chunk, padding excepted, nothing else changes, no file shrinks, and the chunk can be read afterwards |
| `FileOps.ReadChunk` | src-tauri/local-patches/librqbit/src/file_ops.rs:250-299 | succeeds iff the buffer is large enough and every byte asked for is there; then the buffer holds exactly the flat slice, as far as the torrent goes |
| `FileOps.WriteThenRead` | src-tauri/local-patches/librqbit/src/file_ops.rs:250-352 | a chunk read back is the chunk written, with zeros in padding, on any storage |
| `FlatStorage.PatchThenSlice` | src-tauri/local-patches/librqbit/src/file_ops.rs:250-352 | on the flat array: reading any range off the written one gives the old bytes |
| `FileOps.UpdateHashFromFile` | src-tauri/local-patches/librqbit/src/file_ops.rs:22-49 | for any block size, succeeds iff the bytes are there, and then has fed exactly them |
| `FileOps.CheckPiece` | src-tauri/local-patches/librqbit/src/file_ops.rs:184-248 | fails iff some byte of the piece cannot be read or it has no digest; else answers whether the flat slice has the expected digest |
| `FileOps.InitialCheck` | src-tauri/local-patches/librqbit/src/file_ops.rs:76-182 | on any storage: the bit of a piece is set iff all its bytes but those in an already failed file can be read and have the expected digest; it fails iff the files are shorter than the torrent or such a piece has no digest |
| `FileOps.BitMeans` | src-tauri/local-patches/librqbit/src/file_ops.rs:141-179 | a piece that can be read whole is judged as check_piece would; a set bit means the piece was read whole and matched iff it does not start in a file that had already failed, and always if the digest is of a piece-long string |
| `FileOps.UnreadPieceMarked` | src-tauri/local-patches/librqbit/src/file_ops.rs:141-144 | a missing three-byte file followed by a one-byte file, pieces of two: piece 1 cannot be read, yet is marked for the digest of its last byte |
| `FileOps.HashPiece` | src-tauri/local-patches/librqbit/src/file_ops.rs:113-165 | one piece of the forward pass: what was fed is the flat stretch after the bytes passed over, with the file cursor and broken flag it leaves behind; fails iff the files run out |
| `FlatStorage.HoldsIsSlice` | src-tauri/local-patches/librqbit/src/file_ops.rs:184-248 | bytes are held iff they can be read and are the flat slice |
| `FlatStorage.PadsAreZero` | src-tauri/local-patches/librqbit/src/file_ops.rs:250-299 | padding reads as zero |
| `CreateTorrent.CreateTorrentRaw` | src-tauri/local-patches/librqbit/src/create_torrent_file.rs:97-151 | for every pattern of short reads and file boundaries the hashes are those of the consecutive full pieces of all files joined, then one of the rest exactly when the last file is not empty |
| `CreateTorrent.HashesCoverPieces` | src-tauri/local-patches/librqbit/src/create_torrent_file.rs:97-151 | the i-th hash is that of the i-th flat slice, and every piece has one iff the last file is not empty or the files fill whole pieces |
| `CreateTorrent.CreateThenCheck` | src-tauri/local-patches/librqbit/src/create_torrent_file.rs:97-151 | checking the files a torrent was made from marks every piece if and only if the last file is not empty or the files fill whole pieces; otherwise the check fails |
| `Streaming.QueueCoversWindow` | src-tauri/local-patches/librqbit/src/torrent_state/streaming.rs:42-49 | before the end of the file the queue is exactly the pieces meeting the next 32 MiB of the file from the position on; at the end it is at most one piece |
| `Streaming.QueueRises` | src-tauri/local-patches/librqbit/src/torrent_state/streaming.rs:42-49 | the queue rises piece by piece and starts with the piece the reader is waiting for |
| `Streaming.Interleave.Next` | src-tauri/local-patches/librqbit/src/torrent_state/streaming.rs:71-100 | yields the next piece, or nothing when all queues are empty |
| `Streaming.Interleave.Drain` | src-tauri/local-patches/librqbit/src/torrent_state/streaming.rs:71-100 | for every list of queues the iterator ends and yields all first pieces, then all second pieces, and so on, each row in queue order |
| `Streaming.DrainedIsRows` | src-tauri/local-patches/librqbit/src/torrent_state/streaming.rs:71-100 | taking one piece in turn and moving the queue to the back is round robin |
| `Streaming.DrainedKeepsAll` | src-tauri/local-patches/librqbit/src/torrent_state/streaming.rs:71-100 | every piece is yielded as often as it occurs in the queues |
| `Streaming.CurrentPiecesFirst` | src-tauri/local-patches/librqbit/src/torrent_state/streaming.rs:71-100 | the interleaving asks for the pieces readers are waiting for, one per stream, before any other |
| `Streaming.TorrentStreams.RegisterWaker` | src-tauri/local-patches/librqbit/src/torrent_state/streaming.rs:63-68 | registers the waker of that stream only |
| `Streaming.TorrentStreams.WakeStreamsOnPieceCompleted` | src-tauri/local-patches/librqbit/src/torrent_state/streaming.rs:102-119 | wakes, and forgets the wakers of, exactly the streams waiting at the piece |
| `Streaming.FileStream.constructor` | src-tauri/local-patches/librqbit/src/torrent_state/streaming.rs:327-365 | a stream starts at position 0 and is registered |
| `Streaming.FileStream.PollRead` | src-tauri/local-patches/librqbit/src/torrent_state/streaming.rs:165-233 | waits iff the piece at the position is missing, with its waker registered; returned bytes are the file's at the position and all in had pieces; position and registry move together and stay inside the file |
| `Streaming.FileStream.ReadToEnd` | src-tauri/local-patches/librqbit/src/torrent_state/streaming.rs:165-233 | repeated reads with any buffer sizes reach the end having returned exactly the rest of the file |
| `Streaming.FileStream.StartSeek` | src-tauri/local-patches/librqbit/src/torrent_state/streaming.rs:236-258 | moves to the target iff it is inside the file, else changes nothing, although the 64-bit additions can wrap |
| `Streaming.FileStream.SetPosition` | src-tauri/local-patches/librqbit/src/torrent_state/streaming.rs:368-385 | position and registry copy change together |
| `WakeProtocol.WakeupsSurvive` | src-tauri/local-patches/librqbit/src/torrent_state/streaming.rs:102-119 | over all interleavings without a pause, a stream parked on a piece now had has its wake still to come |
| `WakeProtocol.WakeStep` | src-tauri/local-patches/librqbit/src/torrent_state/live/mod.rs:775-796 | a step loses a wakeup if and only if it is a pause while a stream is parked on a had piece |
| `WakeProtocol.CompletionWakes` | src-tauri/local-patches/librqbit/src/torrent_state/streaming.rs:102-119 | the completion step does wake the stream |
| `WakeProtocol.PauseCanLoseWakeup` | src-tauri/local-patches/librqbit/src/torrent_state/live/mod.rs:1741-1778 | a pause between the have bit and the completion step loses the wakeup, from any state with a parked stream |
| `WakeProtocol.LostWakeupReachable` | src-tauri/local-patches/librqbit/src/torrent_state/live/mod.rs:1741-1778 | such a run from the start: open, poll, have bit, pause |
| `WakeProtocol.TorrentStep` | src-tauri/local-patches/librqbit/src/torrent_state/live/mod.rs:1741-1778 | every step of the piece protocol is a have, completion or pause step of the wake protocol, or does not concern the streams |
| `WakeProtocol.CompletePiece` | src-tauri/local-patches/librqbit/src/torrent_state/live/mod.rs:775-796 | completing a piece on a live torrent is a completion step with exactly its wakes |
| `WakeProtocol.PollStream` | src-tauri/local-patches/librqbit/src/torrent_state/streaming.rs:165-233 | a poll is one pending or ready step |
| `WakeProtocol.SeekStream` | src-tauri/local-patches/librqbit/src/torrent_state/streaming.rs:236-258 | a seek is one step if it succeeds, and none otherwise |
| `ReadBuf.ReadBuf.ReadMessages` | src-tauri/local-patches/librqbit/src/peer_connection.rs:415-432 | the messages read and how the stream ends are a function of the concatenated bytes alone, for every way of splitting the reads |
| `ReadBuf.ReadBuf.ReadMessage` | src-tauri/local-patches/librqbit/src/read_buf.rs:71-101 | one message is a function of the unread and pending bytes; exactly its bytes are consumed |
| `ReadBuf.ReadBuf.PrepareForRead` | src-tauri/local-patches/librqbit/src/read_buf.rs:29-44 | unread bytes survive compaction, processed <= filled <= buffer length is kept, and there is room for what is needed |
| `ReadBuf.ReadBuf.ReadMore` | src-tauri/local-patches/librqbit/src/read_buf.rs:91-99 | a read always has room, and loses no byte |
| `ReadBuf.ReadBuf.ReadHandshake` | src-tauri/local-patches/librqbit/src/read_buf.rs:48-68 | accepted iff the first read alone brings a whole handshake; the rest stays unread |
| `ReadBuf.MoreBytesSameAnswer` | src-tauri/local-patches/librqbit/src/read_buf.rs:71-101 | more bytes never change an answer already given |
| `ReadBuf.FrameLayout` | src-tauri/local-patches/librqbit/src/read_buf.rs:71-101 | a frame byte by byte: length most significant byte first, known id, payload; other ids are malformed |
| `ReadBuf.FrameTooShort` | src-tauri/local-patches/librqbit/src/read_buf.rs:77-91 | of every proper front of a frame, what is asked for is the rest of the length, the id, or the rest of the message |
| `ReadBuf.HandshakeLayout` | src-tauri/local-patches/librqbit/src/read_buf.rs:48-68 | a handshake is the byte 19, the protocol name and 48 bytes more |
| `ReadBuf.StreamRoundTrip` | src-tauri/local-patches/librqbit/src/read_buf.rs:71-101 | what was sent as frames is what is received |
| `MetadataExchange.AnyOrderRebuilds` | src-tauri/local-patches/librqbit/src/peer_info_reader/mod.rs:105-137 | pieces cut by the sender are accepted in any order without repetition; the answer is true exactly when all are there, and then the buffer is the original |
| `MetadataExchange.RepeatsRefused` | src-tauri/local-patches/librqbit/src/peer_info_reader/mod.rs:105-137 | a piece that came before is refused, whatever it holds |
| `MetadataExchange.HandlerLocked.RecordPiece` | src-tauri/local-patches/librqbit/src/peer_info_reader/mod.rs:105-137 | refuses a wrong index, a wrong length or a repetition without change; otherwise stores the piece, and answers by completeness and checksum |
| `MetadataExchange.HandlerLocked.New` | src-tauri/local-patches/librqbit/src/peer_info_reader/mod.rs:80-95 | refused iff larger than 32 MiB; else nothing is received yet |
| `MetadataExchange.PieceFits` | src-tauri/local-patches/librqbit/src/peer_info_reader/mod.rs:96-104 | piece sizes agree with the sender's cut |
| `MetadataExchange.ServedIff` | src-tauri/local-patches/librqbit/src/torrent_state/live/mod.rs:1828-1856 | what every request id is answered, for metadata of any size, with the 32-bit offsets wrapping |
| `Pex.PexSender.Tick` | src-tauri/local-patches/librqbit/src/torrent_state/live/mod.rs:847-909 | connected and dropped are disjoint news of at most 50 entries each, and the view becomes what a receiver then holds |
| `Pex.ReceiverHoldsView` | src-tauri/local-patches/librqbit/src/torrent_state/live/mod.rs:847-909 | for any changing live set a receiver applying the messages always holds the sender's view |
| `Pex.Converges` | src-tauri/local-patches/librqbit/src/torrent_state/live/mod.rs:847-909 | for a fixed live set the view is the live set after n ticks iff n >= ceil(max of the two differences / 50) |
| `PeerCounters.SessionAlwaysExact` | src-tauri/local-patches/librqbit/src/torrent_state/live/peers/stats/atomic.rs:21-43 | over every history of torrents added, changed and dropped, each session counter is the sum over the torrents |
| `PeerCounters.ExactCovers` | src-tauri/local-patches/librqbit/src/torrent_state/live/peers/stats/atomic.rs:21-43 | an exact session counts at least the peers of each torrent, so no decrement underflows |
| `PeerCounters.CountersByName` | src-tauri/local-patches/librqbit/src/torrent_state/live/peers/stats/atomic.rs:21-43 | each counter, by name, is the number of peers in its state |
| `PeerCounters.PeerStates.SetState` | src-tauri/local-patches/librqbit/src/torrent_state/live/peer/mod.rs:142-163 | counters stay equal to the number of peers in each state, here and in the session, without underflow |
| `PeerCounters.PeerStates.AddIfNotSeen` | src-tauri/local-patches/librqbit/src/torrent_state/live/peers/mod.rs:45-59 | a new peer is queued and counted; a known one changes nothing |
| `PeerCounters.PeerStates.AddIncoming` | src-tauri/local-patches/librqbit/src/torrent_state/live/mod.rs:354-394 | an incoming connection makes the peer live unless the limit of live peers is reached or it is connecting or live |
| `PeerCounters.PeerStates.MarkPeerConnecting` | src-tauri/local-patches/librqbit/src/torrent_state/live/peer/mod.rs:179-189 | only queued and not-needed peers start connecting |
| `PeerCounters.PeerStates.ConnectingToLive` | src-tauri/local-patches/librqbit/src/torrent_state/live/peer/mod.rs:212-230 | only connecting peers become live |
| `PeerCounters.PeerStates.MarkPeerNotNeeded` | src-tauri/local-patches/librqbit/src/torrent_state/live/peers/mod.rs:133-138 | returns the previous state |
| `PeerCounters.PeerStates.ReconnectNotNeededPeer` | src-tauri/local-patches/librqbit/src/torrent_state/live/peer/mod.rs:58-81 | queued again iff its outgoing address is its own |
| `PeerCounters.PeerStates.ReconnectAll` | src-tauri/local-patches/librqbit/src/torrent_state/live/mod.rs:837-845 | every peer that is not needed is queued again iff its outgoing address is its own, and exactly the outgoing addresses of such peers are tried |
| `PeerCounters.PeerStates.DropPeer` | src-tauri/local-patches/librqbit/src/torrent_state/live/peers/mod.rs:90-97 | the peer leaves the torrent's and the session's counters |
| `PeerCounters.PeerStates.OnPeerDied` | src-tauri/local-patches/librqbit/src/torrent_state/live/mod.rs:1115-1225 | which peers are forgotten, parked as not needed or dead, or dropped for good; a live peer with requests to cancel on a paused torrent is left queued, with an error |
| `PeerCounters.PeerStates.DropAll` | src-tauri/local-patches/librqbit/src/torrent_state/live/peers/mod.rs:32-38 | dropping a torrent removes exactly its share from the session |

## Left out

- librqbit_core is not part of this model; `Lengths` defines what the engine uses of it: piece
  `p` covers `[p * pl, min((p + 1) * pl, total))`, chunks are blocks of 16384 bytes inside a piece,
  a file's piece range is `offset / pl .. ceil((offset + len) / pl)`.
- Integer widths: byte counts, counters and offsets are unbounded, except for the wrapping
  subtractions of `iter_piece_priorities`, the 32-bit metadata offsets and the 64-bit additions of
  `start_seek`.
- Sockets, tasks, timeouts, rate limits, trackers, DHT, UPnP, HTTP: only the lock-guarded steps they
  trigger are modelled.
- LiveTorrent.LiveTorrent.TryStealOldSlowPiece: the clock is a parameter, how long each piece has been
  in flight; times are reals instead of floating point.
- PieceProtocol.Next: whether a thief has an average download time, and the piece is old enough, is not
  part of the state; any peer may steal. `DownloadCanFinish` uses this only for pieces in flight whose
  owner is gone, which someone with an average has to take over.
- LiveTorrent.LiveTorrent.ReserveNextNeededPiece: the peer bitfield and the interleaved streamed
  pieces are parameters.
- Connecting and requesting are steps of the state machine without a method of `LiveTorrent`; a peer
  may request any chunk at any time, which includes what the requester does.
- Write errors: `pwrite_all` always succeeds; the error ends the torrent in the engine.
- FileOps.Storage: a real file's read is exact or fails, as on Unix; the Windows branch of
  `pread_exact` and `pwrite_all` is not modelled.
- FileOps.WriteThenRead: stated for chunks inside the torrent, which is what chunk infos describe.
- StoredBytes.HaveMeansStored: a hash check reads its piece at one moment while it runs, and a write
  brings its whole chunk at one moment while the piece is locked.
- PeerCounters.PeerStates.AddIncoming: the `seen`, `steals` and per-peer connection counters are not
  state counters and are left out.
- PeerCounters.PeerStates.OnPeerDied: back-off durations are a parameter saying whether retries are
  left; the re-queueing after the back-off is a separate step.
- Pex: membership of the live set (`live_outgoing_peers`) is an input of every tick.
- ReadBuf.Deserialize: message contents are not decoded beyond the id; a message id outside BEP 3 and
  BEP 10 is malformed.
- MetadataExchange.AnyOrderRebuilds: states the round trip for existing pieces; the `total_size` field
  of the message is not modelled.
- `ManagedTorrent` state transitions, fast-resume validation, the write-through cache, bencode, the
  session and the HTTP API: they depend on task cancellation, on the disk layout of other crates, or on
  network libraries whose behaviour is not specified in this repository.
- The playlist, probe and desktop crates, the web interface and the deploy scripts.
