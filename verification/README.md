# viiwork: three stateful components, modelled and proved in Dafny

viiwork serves language models on a mesh of nodes. This project models three of its components, with the
branches, constants and error cases of their Go code, and proves what they promise over whole runs.

**Session replication** (`internal/kvshare`). A sender parses a saved session into named sections, asks the
receiver for the block hashes of what it holds, plans a delta and streams it. The receiver cuts each section file
to the kept prefix, appends the rest, and later assembles the file and checks it. A second path applies the
engine's own delta format. A manifest cache is kept up to date by hashing only what changed.
Modules: `Bytes`, `Decimal`, `SessFile` (the session walker), `SessGrammar` (what the walker accepts, as a
grammar), `SectionNames`, `Hashing`, `Delta` (planning), `DeltaStream` (the wire format), `Replica` (a replica
directory as a value), `Replication` (end to end), `CutStreams`, `ManifestCache`, `EngineDelta`, `EngineSound`,
`EngineRebuild`, `EngineKeeps`, `Rebuilding` and `Store` (the same as classes over fields and files, with failures
and crashes), `StoreRuns` and `ChunkRuns` (every run), `LostFiles` (what a stopped removal leads to).

**The replicated alias table** (`internal/alias`). Every node keeps the last write of each alias by version, time
and node name, with a bounded history. Writes spread as history-less broadcasts and as whole tables, and every
change is saved before it takes effect or is undone.
Modules: `TextOrder`, `AliasHistory`, `AliasMerge`, `AliasStore`, `AliasExchange`, `AliasService`, `AliasMesh`,
`AliasTies`.

**Energy accounting** (`energy`, `internal/clientuse`). Slot time is measured by minute, node power is split over
cards and then clients, records go to rings addressed by timestamp and are rolled up, and cumulative counters
count each minute once.
Modules: `SlotTime`, `Ledger`, `Rings`, `RingFile`, `Tiers`, `HourTier`, `EnergyTiers`, `EnergyStore`,
`Attribution`, `ClientSplit`, `MinuteEnergy`, `ClientFold`, `ClientHours`, `HourRecords`, `ClientTotals`,
`CounterRuns`, `ClientStore`, `TotalsText`, `NameTable`, `CounterFiles`.

How things are modelled:

- A file is a sequence of bytes or records. A write that can fail or be cut short is a nondeterministic choice in
  the class method, so a method's contract covers every outcome. Specification functions give the value each
  operation computes, and the theorems are about those functions.
- The block hash, the file digest and the session hash are parameters (`Hashing.Hashes`). No theorem assumes them
  injective; `Replication.EndToEnd` assumes only that no two blocks it compares collide.
- Clocks are parameters. Energy is `real`; integers are unbounded, with the source's limits written out where they
  matter (64-bit lengths, `uint32` and `uint16` fields, the version ceiling).
- One operation on a key, a table or a store is one step, because the source holds a lock for it. Crashes and
  failed writes come between the file writes inside a step.

Where a promise does not hold of the code, the model keeps the code, a lemma shows a case, and another lemma says
exactly when the promise holds:

- A put leaves the new replica or none, and an engine put the untouched old one, the new one or none, unless a
  replica was published, no removal got to its state file, and the put's header was bad, the replica was of another
  model or configuration, or its first state write failed; for an engine put, unless that write failed and another
  file was removed (`LostFiles.DebrisPublished` is such a run; `StoreRuns.RunAtomic` is exact).
- A delta stream that ends between two fields of an item is read as complete (`DeltaStream.CutStreamAccepted`,
  exact in `CutStreams.CutStream`), and the digest of a file shorter than declared is taken with what the read
  buffer held before (`StoreRuns.ShortFilePublished`, exact in `StoreRuns.PublishedDigest`).
- An engine delta is checked against the base's state and not its files, so one that keeps a chunk whose file was
  lost records a wrong chunk hash (`LostFiles.LostChunkRun`; exact for one put in `EngineKeeps.EngineHashesExact`
  and over runs in `ChunkRuns.ChunksCoherent`). It is not published with it (`StoreRuns.SealedChunks`).
- Two writes of one alias by one node in one millisecond can leave histories that never agree
  (`AliasTies.TiesNeverSettle` is such a run; exact for all histories in `AliasHistory.UnionCommutesExactly`, for all
  entries in `AliasExchange.TwoExchangesExactly` and for whole tables in `AliasExchange.TablesSettleExactly`).
- The comment on `Attribute` says the split always reconciles; it does exactly for node power that is not
  negative (`Attribution.Reconciles`). A card whose model index cannot be had is left out of the minute's records,
  which then add up exactly if it was given no power (`MinuteEnergy.MinuteAddsUp`).
- A client name may hold a vertical tab, and totals with such a name cannot be read back (`TotalsText.TabbedNameLost`,
  exact in `TotalsText.SaveReads`).
- A model name that ends in a carriage return loses it when the table is opened again, and its index is then handed
  out for another name (`NameTable.CarriageReturnLost`, exact over runs in `NameTable.Stable` and
  `NameTable.NoSharing`). A name longer than the reader takes is given an index, and the table then does not open
  again (`NameTable.LongNameLost`, exact over runs in `NameTable.OpensAgain` and `NameTable.StableReopened`).
- Counters count each minute once if every reload can read the minutes that are due; a read that fails is taken for
  an empty ring, and the next minute counted moves the mark past those not read (`CounterRuns.LostForGood`, exact
  over runs in `CounterRuns.AtMostOnce`). An hour recomputed after such a read is empty until it is recomputed
  (`EnergyTiers.NodeHour`, `ClientHours.ClientHour`).

## Model

| member | source | states |
|---|---|---|
| SessFile.ParseLayout | internal/kvshare/sessfile.go:45-93 | the walker, field by field and with its latched error, returns exactly the layout the walk of the file describes, or none |
| SessFile.Walker.Skip | internal/kvshare/sessfile.go:102-111 | the position moves on by n, or past the payload the error latches |
| SessFile.Walker.Count | internal/kvshare/sessfile.go:113-128 | a 64-bit count is read if it is inside the payload |
| SessFile.Walker.Vec | internal/kvshare/sessfile.go:131-143 | a counted vector becomes a section if it fits, without the product of count and element size wrapping |
| SessFile.Walker.Payload | internal/kvshare/sessfile.go:45-152 | the walker's position, sections and error after the payload are those of the walk over any declared counts; it always ends |
| SessFile.ParseFields | internal/kvshare/sessfile.go:45-73 | an accepted file has its mark, version 1 and header size 64, and its model, configuration and payload length are the little-endian words at 16, 24 and 32 |
| SessGrammar.ParseSound | internal/kvshare/sessfile.go:45-152 | every accepted file is a header, the bytes of a well-formed session and a trailer, and its sections are that session's, at their offsets: sections and framing tile the file |
| SessGrammar.ParseComplete | internal/kvshare/sessfile.go:45-152 | every file with a good header around a well-formed session is accepted, with exactly the session's sections |
| SessGrammar.ParseAccepts | internal/kvshare/sessfile.go:45-152 | a file is accepted exactly when it is such a file |
| SessGrammar.CheckpointLayout | internal/kvshare/sessfile.go:145-152 | the live state and a checkpoint are, byte for byte, token ids of 4 bytes, images of 16 and five byte vectors, each behind its count, and 8 bytes more |
| SessGrammar.LayerLayout | internal/kvshare/sessfile.go:78-84 | a K/V layer is a head of 56 bytes and five byte vectors, each behind its length |
| SessGrammar.LayoutComplete | internal/kvshare/sessfile.go:72-84 | every record of a session is of one of the two forms |
| SessGrammar.GeometryLength | internal/kvshare/sessfile.go:72 | a session begins with 168 bytes of geometry |
| SectionNames.NameOfInjective | internal/kvshare/sessfile.go:60-152 | two fields of a session never get the same section name |
| SectionNames.NamesAre | internal/kvshare/sessfile.go:72-152 | which field each name stands for |
| SectionNames.ParseTidy | internal/kvshare/sessfile.go:45-152 | accepted sections are in file order, disjoint, inside the payload and differently named, and every name can name a file |
| Hashing.HashBlocks | internal/kvshare/delta.go:46-57 | one hash for each whole block of a range; a shorter rest has none |
| Hashing.ReuseBlocks | internal/kvshare/store.go:179-195 | reusing the hashes of whole kept blocks and hashing the rest gives the hashes of the whole section |
| Hashing.ChunkSplit | internal/kvshare/enginedelta.go:104-116 | the chunk hashes of a file are those of its kept whole chunks followed by those of the rest |
| Hashing.ChunkAt | internal/kvshare/enginedelta.go:104-116 | hash i of a file is that of its bytes from i times 256 KiB on, 256 KiB of them or all there are |
| Delta.KeepBlocks | internal/kvshare/delta.go:166-184 | the kept prefix of a section is its longest run of leading whole blocks with the base's hashes |
| Delta.BaseSections | internal/kvshare/delta.go:154-161 | the base manifest's sections by name, only for the same model and configuration |
| Delta.Keeps | internal/kvshare/delta.go:162-187 | the kept prefix of every section |
| Delta.Diff | internal/kvshare/delta.go:154-204 | the plan: every section with its longest run of held leading blocks, and the framing between them |
| Delta.PlanTiles | internal/kvshare/delta.go:154-204 | the plan tiles the new file from 0 to its size, with no gap and no overlap, and every section item is a section of the file |
| Delta.EverySection | internal/kvshare/delta.go:188-198 | every section of the file is one item of the plan |
| Delta.KeepsLongest | internal/kvshare/delta.go:148-187 | each section item keeps k blocks of 64 KiB: none without a base of the same model and configuration with a section of that name; else each of the k has the base's hash, and then the hashes end, or the section, or the next hash differs |
| DeltaStream.WriteDelta | internal/kvshare/delta.go:215-240 | the stream written is the header, then each item's head and only its new bytes |
| DeltaStream.HeaderLayout | internal/kvshare/delta.go:206-224 | where the header of a stream has its mark, size, digest, model, configuration and number of items |
| DeltaStream.ItemLayout | internal/kvshare/delta.go:225-240 | where an item has the length of its name, the name, its length, what is kept and its new bytes |
| DeltaStream.RoundTrip | internal/kvshare/delta.go:215-310 | reading a written plan gives back its header, its items in order with their offsets, and their new bytes |
| DeltaStream.DeltaReader.Next | internal/kvshare/delta.go:282-310 | the reader's counters and what it returns are those of reading the next item, with every way it can end or fail |
| DeltaStream.DeltaReader.Take | internal/kvshare/delta.go:282-310 | an item's data is what of it the stream still has |
| DeltaStream.AcceptedTiles | internal/kvshare/delta.go:258-310 | of any byte stream read to its end, the items tile as much of the declared file as they build, which is all of it exactly if they build its size, and so if as many came as declared |
| DeltaStream.CutStreamAccepted | internal/kvshare/delta.go:282-310 | a stream that ends before its items is read to the end all the same |
| CutStreams.CutStream | internal/kvshare/delta.go:282-310 | a planned delta cut after n bytes is taken exactly if it is whole or cut between two fields of an item head or inside framing |
| Replication.PutLeaves | internal/kvshare/store.go:209-316 | a put of a planned delta leaves a complete replica of the declared size and digest, whose bytes are the kept prefixes followed by the sender's |
| Replication.PutRefuses | internal/kvshare/store.go:209-316 | a delta that keeps more of a section than the receiver holds is refused |
| Replication.Push | internal/kvshare/push.go:20-60 | the sender parses, plans against the given manifest and streams; a file that does not parse is not sent |
| Replication.EndToEnd | internal/kvshare/delta.go:154-310 | for every replica and session file: manifest, plan, stream, put and materialise give the sender's file byte for byte, if no compared blocks collide |
| Replication.KeepsHeld | internal/kvshare/delta.go:148-187 | against the receiver's current manifest, a section whose first k whole blocks the receiver holds keeps at least those |
| Replica.OtherBase | internal/kvshare/store.go:235-262 | on a replica that is not complete or of another model or configuration, a put goes as on an empty directory |
| Replica.HeaderTaken | internal/kvshare/delta.go:258-281 | a put's header is taken exactly if the stream has one, of at most 2^20 items and a size that is not negative, and of the size and digest declared |
| Replica.PutDeclared | internal/kvshare/store.go:224-312 | a put that is taken records the size, digest, model and configuration of its stream, and the save declared |
| Replication.StaleManifest | internal/kvshare/store.go:209-479 | against any manifest at all, a push is taken exactly if it keeps only what is held, and published exactly if what it built has the sender's digest |
| ManifestCache.FinishRefines | internal/kvshare/store.go:322-367 | hashing only past the kept blocks refines hashing every section, wherever the kept blocks' hashes were right |
| ManifestCache.PutManifestCoherent | internal/kvshare/store.go:149-367 | after any accepted put, the manifest made from the cached one is the one recomputed from the files |
| ManifestCache.PutChunksHeld | internal/kvshare/store.go:322-367 | after any accepted put, every chunk hash recorded for a K/V section is that chunk's |
| EngineSound.RebuiltIsSession | internal/kvshare/enginedelta.go:213-434 | every accepted engine delta leaves a replica of the declared size and save, that assembles to the header and payload of a session of at most 64 checkpoints and 1024 layers, with exactly the session's sections |
| EngineSound.TwoParsersAgree | internal/kvshare/enginedelta.go:278-330 | what an accepted engine delta materialises to, ParseLayout accepts, with the same model, configuration, section names, offsets and lengths |
| EngineDelta.SaveIdReads | internal/kvshare/enginedelta.go:97-98 | a save's identifier is its sixteen hexadecimal digits, and two are equal exactly if their numbers are |
| EngineDelta.AnotherBase | internal/kvshare/enginedelta.go:340-378 | a delta whose header has another base save, model or configuration than the replica, or another new save or size than declared, changes nothing |
| EngineRebuild.EngineAccepts | internal/kvshare/enginedelta.go:293-434 | the delta the engine writes for a session against a base is accepted, with the payload and the chunk hashes of the session |
| EngineRebuild.EngineRebuilds | internal/kvshare/enginedelta.go:18-38 | applying it and materialising gives the session's file, header checksum and trailer included |
| EngineKeeps.EngineManifestCoherent | internal/kvshare/enginedelta.go:340-434 | after any accepted engine delta, the manifest made from the cached one is the one recomputed from the files |
| EngineKeeps.OldSectionsGone | internal/kvshare/enginedelta.go:415-421 | a section the old replica had and the new one has not is gone |
| EngineKeeps.KvHashesExact | internal/kvshare/enginedelta.go:213-276 | an accepted K/V buffer's recorded hashes are its file's exactly if the base's recorded hashes of the kept chunks are right for the base file |
| EngineKeeps.EngineHashesExact | internal/kvshare/enginedelta.go:213-434 | of a whole accepted engine delta: what it records for a section it wrote is its file's exactly if the base's recorded hashes of the kept chunks are those of the base's file; of other sections nothing changes |
| Rebuilding.HashChunks | internal/kvshare/enginedelta.go:104-116 | a section's chunk hashes, kept ones taken over and the rest computed |
| Rebuilding.Rebuild.AddFrame | internal/kvshare/enginedelta.go:154-162 | framing is joined to the framing before it, or begins a new item |
| Rebuilding.Rebuild.Skip | internal/kvshare/enginedelta.go:172-179 | fixed framing is copied, or a short stream breaks the rebuild |
| Rebuilding.Rebuild.Count | internal/kvshare/enginedelta.go:164-170 | a count is read and copied as framing |
| Rebuilding.Rebuild.Whole | internal/kvshare/enginedelta.go:182-194 | a vector that travels whole: its count within the limit, then a section that keeps nothing |
| Rebuilding.Rebuild.PutSection | internal/kvshare/enginedelta.go:197-209 | a section is its kept prefix and the stream's bytes, and the base no longer offers it; too long a keep or a short stream breaks the rebuild |
| Rebuilding.Rebuild.CheckHashes | internal/kvshare/enginedelta.go:236-276 | the stream's chunk hashes agree with the base's recorded ones for the kept chunks and with the file's for the rest, or the rebuild breaks |
| Rebuilding.Rebuild.KvBuffer | internal/kvshare/enginedelta.go:213-276 | a K/V buffer: count, keep, data and chunk hashes, each check in the source's order |
| Rebuilding.Rebuild.Record | internal/kvshare/enginedelta.go:278-291 | one checkpoint or live record: framing, its vectors, framing |
| Rebuilding.Rebuild.Payload | internal/kvshare/enginedelta.go:293-330 | the whole payload rebuilt field by field, as the specification walks it |
| Store.ReplicaStore.RemoveAll | internal/kvshare/store.go:214-246 | files go one by one in any order; a removal stopped anywhere leaves a part of them, none of them changed, and the state file exactly if it did not get to it |
| Store.ReplicaStore.WriteState | internal/kvshare/store.go:117-131 | the state file is the new state or the old one, by a rename |
| Store.ReplicaStore.Drop | internal/kvshare/store.go:214-222 | after an error everything is removed and the cached manifest with it; a removal that stopped leaves a part of the files, none of them changed |
| Store.ReplicaStore.Prepare | internal/kvshare/store.go:231-264 | a replica that cannot be a base is removed; one that can is marked incomplete before its files change; what is left after each failure |
| Store.ReplicaStore.Ready | internal/kvshare/store.go:214-264 | a put that cannot get its base ready is over: everything is removed, and a replica is published only if it was neither marked nor its state file removed |
| Store.ReplicaStore.Apply | internal/kvshare/store.go:272-300 | the stream's items applied one by one give exactly the specified files and items, or the put fails |
| Store.ReplicaStore.Publish | internal/kvshare/store.go:301-312 | frames before state: the state is complete only when everything it names is written |
| Store.ReplicaStore.Complete | internal/kvshare/store.go:301-316 | the end of a put: new frames and state, then the manifest, or nothing published |
| Store.ReplicaStore.PatchSection | internal/kvshare/store.go:369-390 | a section file is cut to the kept prefix and extended by the new bytes, or the failure is reported |
| Store.ReplicaStore.HashSection | internal/kvshare/store.go:179-195 | the block hashes of a section, with the kept whole blocks' taken from the previous manifest |
| Store.ReplicaStore.Finish | internal/kvshare/store.go:322-367 | the manifest cached is the one built by hashing only what was written, or none, and chunk hashes are added to the state only as computed from the files |
| Store.ReplicaStore.ReadManifest | internal/kvshare/store.go:149-175 | the manifest of the files as they are, from the cache or not |
| Store.ReplicaStore.GiveUp | internal/kvshare/store.go:214-222 | a put that stopped among its sections leaves nothing published, and nothing at all if it was refused and its removal ended |
| Store.ReplicaStore.Put | internal/kvshare/store.go:209-316 | a put ends with the complete new replica or with none that is published; a stream refused past its header leaves none; after any failure it reports, a replica is published exactly if one was before, no removal got to its state file, and the header was bad, the replica of no use, or its marking failed; the cache never disagrees with the files |
| Store.ReplicaStore.EngineBase | internal/kvshare/enginedelta.go:359-378 | the delta is taken up exactly if it is well formed, builds the declared save and is against the save, model and configuration the complete replica has |
| Store.ReplicaStore.PutEngineDelta | internal/kvshare/enginedelta.go:340-434 | a delta that does not match the base changes nothing; one refused later leaves none published; any other ends with the complete new replica or with none, and after a reported failure a replica is published exactly if it could not be marked and no removal got to its state file |
| Store.ReplicaStore.SealTrailer | internal/kvshare/store.go:484-540 | the trailer is written only if every recorded chunk hash is the assembled file's, and holds the payload's hash |
| Store.ReplicaStore.AssembleFile | internal/kvshare/store.go:401-450 | the file is its items one after the other, or none if one is short |
| Store.ReplicaStore.Materialize | internal/kvshare/store.go:401-479 | a file is published exactly if the replica assembles and its digest, or its chunk hashes, check |
| Store.ReplicaStore.Evict | internal/kvshare/store.go:677-749 | an eviction that ends leaves nothing; one that stops leaves a part of the files, none of them changed, and the state file exactly if it did not get to it; the cached manifest is gone |
| Store.StepCoherent | internal/kvshare/store.go:149-367 | every step, whatever becomes of it, keeps the cached manifest the one recomputed from the files, though finish hashes only what was written |
| StoreRuns.CacheCoherent | internal/kvshare/store.go:149-367 | over every run of reads, puts of any streams, engine puts, removals and restarts, a cached manifest is the one recomputed from the files |
| StoreRuns.StepAtomic | internal/kvshare/store.go:209-316 | a put leaves the complete new replica or none, an engine put the untouched old one, the new one or none, a removal none, if and only if not: a replica was published, no removal got to its state file, and the header was bad, the replica of no use or its marking failed, and, for an engine put, another file went |
| StoreRuns.RunAtomic | internal/kvshare/enginedelta.go:340-434 | over every run, every put, engine put and removal is all or nothing if and only if none met that condition, which is on what was there, what came and what failed |
| StoreRuns.RefusedLeavesNone | internal/kvshare/store.go:209-246 | a put whose stream is refused leaves a replica published if and only if one was published, no removal got to its state file, and the header was bad, the replica of no use or its marking failed; it is then the old state |
| StoreRuns.PublishedFromAPut | internal/kvshare/store.go:209-316 | over every run, a published replica is the one the last put that took effect left: the state as written, no file changed since, and every later operation a read, one that changed nothing, or one that left the old state in place; without the last it is that replica whole |
| StoreRuns.PutTotals | internal/kvshare/store.go:209-316 | an accepted put's items never pass the declared size, and reach it if as many came as declared |
| StoreRuns.PublishedDigest | internal/kvshare/store.go:401-479 | over every run, a published file is of the size and digest declared by the last put that took effect exactly if that put's items reach the size, and otherwise is checked as padded by the read buffer |
| StoreRuns.ShortFilePublished | internal/kvshare/delta.go:74-88 | an empty file is published under the digest of a one-byte file, of whatever byte the read buffer held |
| StoreRuns.SealedChunks | internal/kvshare/store.go:484-540 | however damaged the replica, an engine save is published only if the recorded chunk hashes of every section are those of its bytes in the published file, with the hash of its payload and the end mark behind them |
| ChunkRuns.EngineHashed | internal/kvshare/enginedelta.go:213-434 | from a replica whose recorded chunk hashes are its files', an accepted engine delta leaves one exactly if it keeps no chunk whose file is gone under a hash that is not that of zeros |
| ChunkRuns.ChunksCoherent | internal/kvshare/enginedelta.go:340-434 | over every run, recorded chunk hashes are always the files' if and only if no engine delta that took effect kept such a chunk |
| ChunkRuns.ChunksWhole | internal/kvshare/store.go:209-367 | over every run in which no operation left an old state in place, recorded chunk hashes are the files' and every section's file is there |
| LostFiles.FilesUnchecked | internal/kvshare/enginedelta.go:197-276 | an engine delta taken against one replica is taken against every replica of the same state, whatever its files hold, with the same state left and a section's file different only in what was kept |
| LostFiles.LostChunkKept | internal/kvshare/enginedelta.go:213-434 | from every replica a chunk-keeping delta is good for, a removal stopped after the section's file leads to one where it is still taken, and records a wrong hash |
| LostFiles.DebrisPublished | internal/kvshare/store.go:214-246 | a run from an empty directory: a put, then a refused put whose removal stops after the section's file; the rest is still published, with no manifest and no file to serve |
| LostFiles.LostChunkRun | internal/kvshare/enginedelta.go:340-434 | a run from an empty directory: a put, a stopped removal, an engine delta that is taken; zeros are recorded under the lost chunk's hash |
| AliasMerge.CompareSwaps | meshapi/aliases.go:101-118 | comparing two entries the other way round gives the opposite, and a tie exactly for equal version, time and node |
| AliasMerge.CompareIs | meshapi/aliases.go:98-111 | the higher version wins, of one version the later time, of one time the larger name |
| TextOrder.LessIs | meshapi/aliases.go:107-108 | names are compared at their first difference, and a prefix is smaller |
| AliasMerge.CompareTransitive | meshapi/aliases.go:101-111 | the order of writes is transitive |
| AliasMerge.MergedIsMax | internal/alias/merge.go:107-166 | a merge keeps the remote write exactly if its version is higher, or of one version its time later, or of one time its name larger, and reports a change exactly if what it holds differs |
| AliasMerge.RemoteRefused | internal/alias/merge.go:87-105 | a live entry without a target, or a version past 2^53, is not taken |
| AliasMerge.MergedHistory | internal/alias/merge.go:107-187 | whose history the winner keeps: its own, or, sent without one, the local entry and its history; the loser of a conflict first; of one write both united |
| AliasMerge.ConflictReported | internal/alias/merge.go:119-187 | a conflict is reported exactly for one version from different writes, with the greater as winner and a live loser in its history |
| AliasMerge.WriteBeats | internal/alias/store.go:143-242 | a local write is one version past what it replaces and beats it whatever the clock says |
| AliasMerge.WriteHolds | internal/alias/store.go:143-242 | what a local write puts in place: the target asked for, none, or the newest of the history, with the live entry it replaced at the head of its history |
| AliasMerge.SetRefused | internal/alias/store.go:143-161 | a set is refused exactly for a bad name, if it would make the aliases more than they are and more than 256, or for an exhausted version |
| AliasMerge.RevertTwice | internal/alias/store.go:184-203 | a second revert undoes the first, history included but for the head's stamp |
| AliasMerge.RevertUndoesSet | internal/alias/store.go:143-203 | a write keeps the live entry it replaced at the head of its history, and a revert brings that entry back |
| AliasMerge.RevertUndeletes | internal/alias/store.go:164-203 | reverting a tombstone brings back target, fallbacks and, below the limit, the history |
| AliasHistory.UnionTop | internal/alias/merge.go:191-211 | the union of two histories is the ten newest of both, newest first |
| AliasHistory.UnionNewest | internal/alias/merge.go:189-211 | for all histories, the union is at most ten versions of both, the latest time first and of one time the larger name, and what it leaves out is older |
| AliasHistory.TopUnique | internal/alias/merge.go:191-211 | there is only one such list |
| AliasHistory.UnionCommutes | internal/alias/merge.go:191-211 | uniting histories commutes where no two versions share a node and millisecond |
| AliasHistory.UnionAssociates | internal/alias/merge.go:191-211 | uniting histories associates, though each step cuts to ten |
| AliasHistory.UnionIdempotent | internal/alias/merge.go:191-211 | a history united with itself is itself exactly if it is sorted and within the limit |
| AliasHistory.UnionAbsorbs | internal/alias/merge.go:191-211 | a union takes in nothing more from what made it |
| AliasHistory.UnionHolds | internal/alias/merge.go:189-211 | for all histories, a union holds exactly the first version of each of the ten newest stamps of both |
| AliasHistory.UnionCommutesExactly | internal/alias/merge.go:189-211 | for all histories, the two sides of an exchange unite to the same history if and only if both meet the same version first under each of the ten newest stamps |
| AliasHistory.ExchangedFixed | internal/alias/merge.go:189-211 | after one exchange both histories stay as they are, equal or not |
| AliasHistory.SameMillisecond | internal/alias/merge.go:189-203 | two versions of one node and millisecond unite to the first, and so commute exactly if they are equal |
| AliasExchange.TwoExchangesSettle | internal/alias/merge.go:107-166 | two push/pull exchanges with no write in between make two tables equal, histories included |
| AliasExchange.OneWriteSettles | internal/alias/merge.go:153-165 | two entries of one write are equal after an exchange if and only if their histories agree so, and no later exchange changes them |
| AliasExchange.TwoExchangesExactly | internal/alias/merge.go:107-166 | any two entries are equal after two exchanges if and only if they are different writes or their histories meet the same version first under each of the ten newest stamps, and no later exchange changes them |
| AliasExchange.TablesSettleExactly | internal/alias/merge.go:50-166 | two exchanges make any two tables equal, histories included, if and only if every name both have is of different writes or has histories that agree so |
| AliasExchange.NeverSettles | internal/alias/merge.go:153-165 | histories with different versions under one stamp stay different however often they are exchanged |
| AliasTies.TiesNeverSettle | internal/alias/service.go:137-161 | a run of three nodes: two writes in one millisecond, each lost to another peer, and a third that reaches both, whose histories then differ for ever |
| AliasStore.Store.MergeLocked | internal/alias/merge.go:107-166 | the table in memory takes the merged entry, and the step says how to undo it |
| AliasStore.Store.Persist | internal/alias/store.go:264-273 | the file is replaced whole or not at all, and a failure can come after it was replaced |
| AliasStore.Store.Restore | internal/alias/store.go:256-262 | one entry is as it was, or gone if it was not there |
| AliasStore.Store.MergeEntries | internal/alias/merge.go:64-74 | every valid name merged in memory, with what changed, the conflicts, and the steps that undo it |
| AliasStore.Store.RollBack | internal/alias/merge.go:78-83 | undoing the steps last first gives the table they began with |
| AliasStore.Store.Merge | internal/alias/merge.go:30-45 | a merge that is not saved leaves the table exactly as it was |
| AliasStore.Store.MergeTable | internal/alias/merge.go:50-85 | a table is merged name by name under one save; a failed save undoes every change |
| AliasStore.Store.Commit | internal/alias/store.go:246-262 | a write is in the table and the file, or the table is exactly as it was |
| AliasStore.Store.Set | internal/alias/store.go:143-161 | the new entry, or the refusal for a bad name, a full table or an exhausted version |
| AliasStore.Store.Delete | internal/alias/store.go:164-179 | a tombstone for a live alias, or the refusal |
| AliasStore.Store.Revert | internal/alias/store.go:184-203 | the previous version made current, or the refusal |
| AliasService.Service.Submit | internal/alias/service.go:74-112 | a local write is gossiped exactly if it was saved |
| AliasService.Service.Republish | internal/alias/service.go:195-204 | a merged change is gossiped only if the version, time or node of the current entry changed |
| AliasService.NewsExactly | internal/alias/service.go:195-204 | what is gossiped again after a merge is exactly each write that came and beat the one held, or was the first of its name |
| AliasService.Service.NotifyMsg | internal/alias/service.go:137-161 | a broadcast is merged, saved, and gossiped again exactly if the current version changed |
| AliasService.Service.MergeRemoteState | internal/alias/service.go:174-204 | so is a pushed table, each changed name once |
| AliasMesh.NextOk | internal/alias/service.go:137-241 | every step of the mesh, with lost, repeated and reordered messages, failed saves and restarts, keeps the invariant |
| AliasMesh.SubmittedOk | internal/alias/store.go:143-242 | a local write is past every earlier write of its node, and every other node accepts it |
| AliasMesh.RestartsOk | internal/alias/store.go:57-98 | a node that takes up its file after a failed save brings back a write that clashes with no other |
| AliasMesh.EveryRun | internal/alias/service.go:137-241 | the invariant holds in every state any run reaches |
| AliasMesh.OneWrite | internal/alias/store.go:230-254 | with different node names, one alias, version and node is one write, failed and recovered saves included |
| AliasMesh.CurrentIsMax | internal/alias/merge.go:107-166 | a node's current entry has the highest version of all it has written or accepted, among those the latest time, among those the largest name |
| AliasMesh.Converges | internal/alias/merge.go:30-166 | nodes that have seen the same writes of an alias hold the same entry, in every state with the invariant |
| AliasMesh.RunConverges | internal/alias/merge.go:30-166 | over every run, nodes that have seen the same writes of an alias hold the same entry |
| AliasMesh.RunExchangesSettle | internal/alias/service.go:164-193 | over every run with no two writes of a node and alias in one millisecond, two exchanges leave two nodes with one table |
| AliasMesh.NewsRaises | internal/alias/service.go:195-204 | a broadcast caused by a merge strictly raises the node's version of that alias, and is of a write it never sent before |
| AliasMesh.GossipEnds | internal/alias/service.go:137-204 | each node gossips a write again at most once |
| AliasMesh.RunGossipEnds | internal/alias/service.go:137-204 | over every run of N nodes with W writes, merges cause at most N times W broadcasts |
| SlotTime.OverlapGrows | internal/clientuse/ledger.go:199-213 | what an open request held of a minute only grows, and not after the minute |
| SlotTime.MinutesAddUp | internal/clientuse/ledger.go:119-125 | a request's minutes add up to the time it held its slot |
| SlotTime.ChargedIsHeld | internal/clientuse/ledger.go:106-181 | of a minute not yet taken, what was charged and what is open make up exactly what was held |
| SlotTime.HeldAddsUp | internal/clientuse/ledger.go:106-181 | minutes that cover all requests add up to their slot time: none lost, none counted twice |
| SlotTime.TokensAddUp | internal/clientuse/ledger.go:126-129 | the tokens of minutes are those of the ended requests, each once and in its last minute |
| Ledger.Ledger.Begin | internal/clientuse/ledger.go:79-98 | a request is counted from now, or not at all on an idle ledger without a label |
| Ledger.Ledger.End | internal/clientuse/ledger.go:106-134 | the request is charged for its minutes not yet taken, its tokens go to its last minute, and old minutes are dropped |
| Ledger.Ledger.ChargeMinutes | internal/clientuse/ledger.go:119-125 | each minute from the first to the last gets the request's overlap with it |
| Ledger.Ledger.SumUp | internal/clientuse/ledger.go:150-160 | a minute's book and the open requests' parts of it |
| Ledger.Ledger.Take | internal/clientuse/ledger.go:139-181 | for every interleaving with a clock that does not go back, a minute is handed out at most once; what is handed out for a client and model is never more than their requests held slots in its sixty seconds, and exactly that if it was not dropped; as a list by client and model |
| Ledger.MinuteIs | internal/clientuse/ledger.go:139-145 | a whole number of seconds is in the minute its nanoseconds are in |
| Ledger.LinesOf | internal/clientuse/ledger.go:166-180 | the list has every client and model of the minute once, in the order of client and then model |
| Ledger.RunGoesOn | internal/clientuse/ledger.go:79-181 | over every run of calls, requests go on from an earlier log: same key and start, ended ones unchanged, new ones from then on |
| Ledger.HandedIsFinal | internal/clientuse/ledger.go:136-181 | over every run of calls, what was handed out after a minute ended is what every request, open then or begun later, ever held of it |
| Rings.ModApart | energy/ring.go:251-259 | two buckets less than a lap apart share a slot only if they are one, for negative numbers too |
| Rings.WindowIsScan | energy/ring.go:195-237 | a window read gives exactly the records scanning the whole ring gives, each once and in the same order, wherever it wraps |
| Rings.CellAfter | energy/ring.go:155-168 | over any run of puts, a lane of a slot holds its last put |
| Rings.ReadsLastPuts | energy/ring.go:155-237 | over any run of puts, a record is read exactly if it was put and no put to its lane since went to a congruent bucket |
| RingFile.Ring.Put | energy/ring.go:157-168 | one record in the slot of its bucket, or nothing |
| RingFile.Ring.PutSlot | energy/ring.go:173-181 | a whole slot replaced, or nothing |
| RingFile.Ring.All | energy/ring.go:185-193 | every slot in order |
| RingFile.Ring.Span | energy/ring.go:200-224 | the slots of consecutive buckets, in two reads at the wrap, or the whole ring |
| RingFile.Ring.Window | energy/ring.go:227-237 | the slots that can hold a timestamp of the window, none for an empty one, all without a period |
| RingFile.Ring.Read | energy/store.go:411-450 | the records of a time span, oldest first, or none if the ring cannot be read |
| Tiers.HourReads | energy/store.go:286-298 | in time order, reading the hour just written gives the last record put for each of its minutes and nothing else |
| HourTier.HourRecord | energy/store.go:269-318 | over every time-ordered run, writes and reads that failed anywhere included, an hour record is the aggregate of records that add up to the last one each of its minutes had when it was computed, and has now if no write of the hour failed since; of none if they could not be read |
| HourTier.RepeatedWrite | energy/store.go:265-298 | writing the latest minute again changes nothing |
| EnergyTiers.MeanKeeps | energy/store.go:323-382 | a weighted mean over the seconds kept gives the watt-seconds back exactly if the seconds fit 16 bits |
| EnergyTiers.NodeHour | energy/store.go:269-336 | each node hour held after a run, failed writes included, has the seconds and watt-seconds of its minutes' last records as of its last roll-up, or nothing if that could not read them, and as of now from the next completed write of the hour on; at most 3600 s, unsaturated |
| EnergyTiers.GpuHour | energy/store.go:269-370 | so has each card's hour, in attributed and in raw watts, and an hour that could not be read stays as it was |
| EnergyTiers.GpuLabel | energy/store.go:338-370 | an hour record is of its own card, and its model held the card as long as any in the last records of the hour's minutes, the smallest of those |
| EnergyTiers.BestIsBest | energy/store.go:347-368 | the model label goes to a model that held the card, and none held it longer |
| EnergyStore.SumNode | energy/store.go:323-336 | the node aggregate by one pass |
| EnergyStore.PickModel | energy/store.go:363-368 | the label is the same in whatever order the map is gone through |
| EnergyStore.SumGpu | energy/store.go:338-370 | the card aggregate by one pass |
| EnergyStore.GroupByGpu | energy/store.go:304-307 | each card's records, in order |
| EnergyStore.Store.PutGpus | energy/store.go:274-282 | each known card's record in its lane, or those before the one that failed |
| EnergyStore.Store.RollUpNode | energy/store.go:286-303 | the node's hour recomputed from its minutes, from none if they cannot be read, or as it was |
| EnergyStore.Store.RollUpGpus | energy/store.go:300-318 | the hour of every card with records read recomputed, up to a failure, and no other lane changed |
| EnergyStore.LaneStep | energy/store.go:269-318 | a write of a minute, completed or failed, is one more step of the run the theorems are about |
| EnergyStore.Store.WriteMinute | energy/store.go:269-318 | the minute is in its rings and the hour of the node and of every card with records is recomputed; after an error a part of the records is, and each hour is recomputed or as it was |
| Attribution.Attribute | energy/attribute.go:36-89 | the shares of the work above the floor by marginal draw, and the rest as baseline |
| Attribution.Reconciles | energy/attribute.go:24-89 | baseline and shares are never negative and add up to node power exactly if node power is not negative |
| Attribution.ChargesAllWork | energy/attribute.go:51-76 | with every card read once: if one is above its idle floor, the baseline is the lower of the one given and what the cards do not explain, at least 0, and the rest is charged in proportion to the watts above the floors; if none is, all is baseline |
| ClientSplit.SplitClients | energy/client.go:96-165 | the shares of each model add up to its energy; each client and model is one share, with its busy time and tokens, in proportion; what nobody was busy with is one share of nobody's; an unknown model is an error |
| ClientSplit.SumEnergy | energy/client.go:111-121 | each model's energy over its cards, models listed once |
| ClientSplit.ModelHours | energy/client.go:111-121 | a model's energy is its cards' attributed watts by the seconds covered, 3600 to the watt-hour |
| ClientSplit.MergeUses | energy/client.go:123-148 | each client and model merged once, with its busy time and tokens, and each model's busy time; an unknown model is an error |
| ClientSplit.SharesAddUp | energy/client.go:96-165 | a model's shares add up to its energy whether clients used it or nobody did |
| MinuteEnergy.MinuteAddsUp | energy/recorder.go:204-273 | a minute's node energy is baseline, cards without a model, the clients' shares, and what was given to cards whose model has no index; without the last it adds up exactly if those were given nothing, or no second was covered |
| MinuteEnergy.Finalise | energy/recorder.go:204-273 | finalising a minute gives a baseline, a record of each card with its number, model, charged watts, drawn watts and seconds, and shares that add up so; there are shares exactly if the minute was written, use is kept, somebody was ever named, and every used model has an index |
| ClientFold.Fold | energy/client.go:279-303 | the largest pieces keep a lane and the rest share the last |
| ClientFold.FoldKeeps | energy/client.go:279-303 | folding uses at most the lanes, keeps all energy, and keeps busy time and tokens exactly if the shared lane's fields can hold them |
| ClientFold.FoldKeepsLargest | energy/client.go:287-302 | the pieces that keep a lane are the largest, and with the others they are all there were; the others share the lane of the client other, with no model |
| ClientFold.RollUpHour | energy/client.go:316-347 | an hour: each pair's sum, stored and folded |
| ClientFold.PairSumsExact | energy/client.go:318-341 | each client and model is one piece of the hour, with exactly the sums of its own minutes |
| ClientFold.HourKeeps | energy/client.go:314-347 | an hour uses at most the lanes, keeps its minutes' energy, and their busy time and tokens exactly if no field passes its ceiling |
| ClientFold.HourHolds | energy/client.go:279-347 | each client and model of an hour has at most one lane, with its sums; with more of them than lanes the last is other's and those without one are no larger |
| ClientFold.HourTotals | energy/client.go:279-347 | the busy time and tokens of an hour are its minutes' exactly if no pair's sum passes 32 bits, nor what is left for the shared lane |
| ClientHours.HourReadsLog | energy/client.go:316-325 | what is read for an hour just after one of its minutes was written is its minutes' records, in order, each once |
| ClientHours.ClientHour | energy/client.go:316-347 | after any run of minutes, with hours recomputed or not, a slot of the hour ring is the fold of exactly the minutes its hour had at its last roll-up, with all their energy, or empty if they could not be read; they are all it has now exactly if no minute with records came to it since |
| HourRecords.ClientHourRecords | energy/client.go:306-347 | after any run, read back: slot k has one record for each client and model that kept a lane, at the hour's time, with the sums of their records in the hour's minutes up to 32 bits, the shared lane last, and all energy, busy time and tokens, the last two exactly if no field passes its ceiling; nothing if the minutes could not be read |
| HourRecords.RecomputedHolds | energy/client.go:316-347 | an hour recomputed from the ring holds, in the same sense, what the records read for it come to |
| ClientHours.HourStep | energy/client.go:256-273 | a write of a minute, its hour recomputed or not, is one more step of the minute ring and of the hour ring |
| ClientHours.HourRingAt | energy/client.go:306-347 | after any run, slot k of the hour ring is the one encoded from its last recomputed hour, or as it was |
| ClientTotals.RoundGrows | energy/clienttotals.go:137-156 | adding energy never lowers a counter, though it is rounded each time |
| ClientTotals.RoundSame | energy/clienttotals.go:137-139 | a counter at the file's precision keeps its value |
| ClientTotals.CountersHold | energy/clienttotals.go:130-156 | a client's counters are the busy time and tokens of its own usable records exactly, and their energy to half a thousandth a record |
| ClientTotals.PendingIsDue | energy/clienttotals.go:106-119 | the ring gives back exactly the minutes not yet counted, each with its records, if none was lapped |
| CounterRuns.LoadedOk | energy/clienttotals.go:80-128 | a reload counts every minute that is due and no other; if the ring cannot be read it counts none, and is blind exactly if one was due |
| CounterRuns.CountedOk | energy/clienttotals.go:141-165 | a minute past the mark is added once and moves the mark, past minutes not read exactly if the process is blind; one before it changes nothing |
| CounterRuns.NextOk | energy/clienttotals.go:80-165 | every step keeps the counters in the file and in memory those of minutes of the log, each once, with those missed exactly known |
| CounterRuns.AtMostOnce | energy/clienttotals.go:80-165 | over every run of writes in order, failed saves, failed reads, crashes between any two writes and reloads before a lap, the counters are those of minutes that reached the ring, none twice, and of all of them if and only if the process is not blind and no blind one counted before the totals it goes on from were saved |
| CounterRuns.ExactlyOnce | energy/clienttotals.go:80-165 | over every such run whose reloads could read the minutes due, each minute that reached the ring is counted once |
| CounterRuns.LostForGood | energy/client.go:360-367 | after a reload that could not read a minute due, and a later minute counted and saved, the counters never again have every minute, whatever comes |
| CounterRuns.CountersGrow | energy/clienttotals.go:43-46 | over every run whose reloads could read the minutes due, no counter falls while since stays the same |
| CounterRuns.SavedIsMemory | energy/clienttotals.go:119-165 | after a reload or a count that is saved, the file is the totals in memory |
| ClientStore.Counters.Add | energy/clienttotals.go:141-156 | the records of a minute added one by one, unusable energy skipped |
| ClientStore.Counters.Count | energy/clienttotals.go:159-165 | a minute is added once, and then saved or not |
| ClientStore.Counters.RollUpHour | energy/client.go:316-347 | the hour is what the minutes in the ring now give, record by record and folded into the lanes, nothing if they cannot be read, or as it was |
| ClientStore.Counters.ReadAll | energy/client.go:360-379 | every written record of the ring, oldest first, or none if it cannot be read |
| ClientStore.Counters.ReadPast | energy/clienttotals.go:106-116 | the minutes past the mark that the ring has, each with its records, or none if it cannot be read |
| ClientStore.Counters.WriteMinute | energy/client.go:256-273 | one minute's write, ring, counters, totals file and hour in that order, is a step of the run of counters and of the run of hours, wherever it stops |
| ClientStore.Counters.LoadTotals | energy/clienttotals.go:80-128 | so is the reload, whether or not the ring can be read and the save succeeds |
| TotalsText.SaveReads | energy/clienttotals.go:168-253 | saving the totals and reading them back is the identity exactly if no counted client's name holds a space of any kind |
| TotalsText.FileText | energy/clienttotals.go:187-191 | the text of a totals file, at an example |
| TotalsText.NodeNamesRead | internal/clientuse/names.go:24-38 | so it is the identity for the names a node accepts |
| TotalsText.TabbedNameLost | energy/client.go:230-235 | the format allows a name with a vertical tab, and totals with it do not read back |
| NameTable.OpensExactly | energy/models.go:31-56 | a file of newline-free names opens with those names exactly if none ends in a carriage return or is too long to read |
| NameTable.CarriageReturnLost | energy/models.go:49-54 | a run of newline-free names in which one index is handed out for two of them |
| NameTable.Stable | energy/models.go:58-144 | over every run of newline-free names, with failed writes and crashes that leave any part of a line, in an open table an index handed out stands for its name if and only if the name does not end in a carriage return or the table was not opened again since |
| NameTable.OpensAgain | energy/models.go:31-56 | after every such run a closed table opens if and only if no call wrote the whole line of a name longer than the reader takes |
| NameTable.StableReopened | energy/models.go:31-144 | opening a closed table gives an index its name back if and only if the name does not end in a carriage return and no name written was too long |
| NameTable.LongNameLost | energy/models.go:48-56 | every name too long for the reader is given an index by a run after which the table does not open |
| NameTable.IndexGiven | energy/models.go:61-98 | a new name whose line is written gets the next index, exactly while there are fewer than 65535 |
| NameTable.NoSharing | energy/models.go:58-144 | over every such run, two calls that return one index asked for one name under the same condition |
| NameTable.PlainStable | energy/models.go:58-144 | over every run of names that neither end so nor are too long, an index handed out is its name ever after, in memory and in the file, and the name finds it |
| NameTable.PlainNoSharing | energy/models.go:58-144 | over every such run, one index is one name and one name one index |
| NameTable.Names.OpenFile | energy/models.go:31-56 | the table is read and a torn last line cut off |
| NameTable.Names.Append | energy/models.go:124-144 | a line is in the file whole, or cut back off, or a stop leaves any part of it |
| NameTable.Names.IndexOf | energy/models.go:61-144 | an index for a name, known or added, with every way adding it can fail |
| CounterFiles.FilesRefine | energy/clienttotals.go:80-253 | a run of the totals as text and the names in their table, however many names are added, is a run of the counters: what was saved is read back as it was |
| CounterFiles.FilesCountOnce | energy/client.go:238-273 | over every run through the two files whose reloads could read the minutes due, each minute that reached the ring is counted exactly once |

## Left out

- HTTP, TCP and compression transports, JSON encoding, file modes and syncing: a file write is atomic, fails, or is cut short.
- SHA-256, the session hash and the parallel hashing loop: hashes are parameters, and hashing is a sequential loop with the same result.
- `ResumeIDs`, `Info`, `Clean` and the order of eviction over keys: one key is modelled, and an eviction may come at any time.
- Removing section files that the new replica no longer has is taken to succeed; the source ignores its failure.
- The section files an engine put was writing when the process stopped are modelled as any files; the state is then not complete.
- Last-use times, save identifiers' meaning and the byte counts a put reports.
- Store.ReplicaStore.Put: the source's put is one step under the key's lock; two puts of one key at a time are not modelled.
- StoreRuns.RunAtomic: for puts that write another state than the one there, as the source's always do; the time a state carries is not modelled.
- Tombstone purge, in the alias runs and on opening: the convergence results are for runs without it.
- AliasStore.Store.MergeTable: the order in which changed names and conflicts are listed is not modelled, only which they are.
- AliasService.Service.NotifyMsg: reading, merging and reading again is one step; another write in between is not modelled. The size limit of a broadcast is a lost message, and activity events and their once-only filter are left out.
- The alias resolver and HTTP API; a local write needs a target, and no other check of the resolver is modelled.
- The day tier: its bucket is local midnight, and its seconds saturate.
- Times before 1970: the ledger and the hour tier take times from 1970 on. The ring results hold for all times.
- ClientHours.ClientHour: a record whose energy is not a number counts as none.
- RingFile.Ring.Read: records of one timestamp stay in lane order; the source then orders cards by number.
- CounterFiles.FilesCountOnce: for the client names a node accepts, and counters below 2^64.
- EnergyStore.Store.WriteMinute: the records of a minute carry its own timestamp, as the recorder writes them.
- Floating point: energy and watts are reals. The rounding of counters to thousandths is exact.
- The recorder's sampling, averages and idle floors, and the direct attribution: easy members, or inputs of what is modelled.
- The published view of the counters (24 hours, 30 days, the 32 largest), which only reads.
- ClientStore.Counters.LoadTotals: a totals file that cannot be read counts as none; that it is set aside, or kept and never written over, is not modelled.
- CounterRuns.ExactlyOnce: minutes come in increasing order; a minute written twice is out of scope.
- TotalsText.SaveReads: the reader is modelled on decimal numbers as the writer prints them; other notations the source's number parsers accept are not.
- NameTable.Names.Append: a failed write whose clean-up also fails is not modelled; the source calls that clean-up best effort.
- Ring headers, file geometry and record encoding: a slot is a sequence of records.
