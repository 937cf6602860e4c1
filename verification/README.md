# A verified model of the acceleration service

The acceleration service converts container images into accelerated formats and pushes the result
back to the registry. This project models the parts of it that keep state, and proves what they
promise over every input, every run and every interleaving:

- **Garbage collector.** Blobs are held by leases, leases are counted and dated by labels, and an
  in-memory index says which lease to give up next (least frequently, then least recently used).
  `Lfru` is the order itself, `LeaseIndex` and `LeaseCaches` the buckets, the sorted array of counts
  and the size counter that implement it, `LeaseRestart` what a restart makes of it. `ContentStore`
  is the store and one collection, `Sums` its arithmetic. `GcProtocol` interleaves any number of
  conversions and collections at every step that touches a lock, the database or the index;
  `GcSafety` states what holds in all runs, `GcIndex` that the index itself, buckets and array and
  counter, goes along with every run, `GcRestart` from which stores a run may start after a restart,
  and `GcSequential` that a method of the store does what its thread does uninterrupted.
- **Resumable reader.** `RemoteBlob` opens a blob at an offset (with `Decimal` for the digits of a
  Content-Range), `RemoteReader` keeps reading over connections that drop, `RemoteRuns` compares
  whole runs with a plain byte sequence.
- **Remote cache.** `CacheLayers` merges layer lists under a capacity, `CacheRecords` keeps the
  source-to-target records, `CacheUpdate` merges a conversion into the stored manifests,
  `CacheConservation` and `CacheRoundTrip` say what that keeps and what can be read back.
- **Empty layer.** `Oci` holds the descriptors and manifests that this part shares with the cache,
  `ChainIds` is the OCI definition of a layer's ChainID, `EmptyLayer` the rewriting that keeps a
  runtime from sharing layers with stock images.
- **Tasks and rules.** `Tasks` and `TaskRuns` are the persistent task table and its runs.
  `References`, with `Text`, `Digest` and `Decimal`, reads and writes image references, and `Rules`
  shows when the conversion's own pushes do not start conversions.

Objects that the program updates in place are classes here, with its fields; their methods are proved
against functions on values, about which the theorems are stated. Everything the network, the library
sort, map iteration and other threads may decide is left open, by nondeterministic choice or by
quantification.

`dafny verify dfyconfig.toml` checks the project.

## Where the code and its documentation differ

The model follows the code.

- Within one use count the index rebuilt by a restart gives up the newest lease first, against
  docs/garbage-collection.md lines 13-17 (`LeaseRestart.RestartKeepsOrder`).
- `lc.Add` counts a key twice unless the key is new or comes from the count just below; the callers
  respect that (`LeaseIndex.AddRefines`, `GcSafety.AdditionsAreLegal`).
- Start-up fails if some lease has no use count yet, as after a crash between its creation and its
  first label (`ContentStore.Content.NewContent`).
- If a crash leaves more unleased bytes than the limit, every later collection gives all leases up
  and then fails before it removes any blob (`ContentStore.Content.GC`).
- "Too many retries for this offset" counts drops since the last byte of progress at any offset: a
  seek does not reset the counter. Between two bytes there can be maxRetry reconnects besides the
  one made by the read that brought the first byte (`RemoteReader.HttpReadSeeker.ReadFull`).
- `appendLayers` never moves layers to the front and does not deduplicate within the new layers
  (`CacheLayers.AppendLayers`). A brand-new cache manifest is not cut to the capacity
  (`CacheUpdate.Update`).
- Updating a record by its target puts the annotations of the source on both descriptors, which
  makes the record unreadable after a push (`CacheRecords.RelabelledLinks`,
  `CacheRoundTrip.CutLinkIsLost`).
- Such a layer, once pushed, is never repaired. Later conversions of the source give the same target,
  and the merge compares target digests only and keeps the cached layer, which names no source: the
  source is converted anew every time (`CacheRoundTrip.CutLayerStays`). In general a recorded source
  comes back from a merged list that is not full if and only if its target was not cached or a cached
  layer names the source (`CacheRoundTrip.LinkedMergedRoundTrip`).
- A single-manifest cache is thrown away when not exactly one manifest was converted, which for an
  image index also happens with one platform if the driver merges original and converted manifests
  (`CacheConservation.OldLayerSurvives`). Of several converted manifests for one platform only one is
  merged into a cached manifest (`CacheUpdate.Place`), which loses nothing, because their layers are
  the same ones (`CacheUpdate.TargetsAreConsistent`); where none is cached, each gets a manifest.
- The empty-layer entry is the only history of an image that had none
  (`EmptyLayer.AlignmentKept`).
- A push that the registry reports by digest is converted again, with the suffix doubled if the
  report names the tag as well (`Rules.DigestIsConvertedAgain`,
  `Rules.TargetWithDigestIsConvertedAgain`), until the tag gets longer than 128 characters
  (`Rules.FeedbackLength`).
- A configured cache tag is not checked. With one that is no valid tag, such as "c@sha256:...", the
  cache reference can pass the guards again (`Rules.FeedbackStops`).

## Model

| member | source | states |
|---|---|---|
| Decimal.DigitsRoundTrip | pkg/content/content.go:247-258 | the digits printed for a number read back as that number |
| Decimal.AtoiItoa | pkg/content/content.go:247-258 | a use count that was written reads back as the same integer, negative ones included |
| Decimal.ItoaInjective | pkg/content/lease.go:99-113 | different counts have different bucket names |
| Decimal.NumberTexts | pkg/content/content.go:247-258 | a text is a number if and only if it is at least one digit after at most one sign; the empty text is none |
| Decimal.NumberValues | pkg/content/content.go:247-258 | the sign decides that of the number and each digit counts ten times what the next one does |
| Decimal.WrittenPlainly | pkg/content/content.go:247-258 | a number is written with digits alone, no superfluous zero, and a minus just if it is negative |
| Decimal.LeadingDigitsStop | pkg/remote/ported.go:394-400 | digits followed by a non-digit are found again as the leading digits |
| Lfru.BucketsDetermineQueue | pkg/content/lease.go:30-34 | an order by use count is determined by its buckets |
| Lfru.KeysAtInsert | pkg/content/lease.go:63-83 | inserting touches one bucket only, at its back |
| Lfru.KeysAtDelete | pkg/content/lease.go:107-119 | deleting a key takes it out of every bucket and changes nothing else |
| Lfru.DeleteKeepsOrder | pkg/content/lease.go:107-119 | deleting keeps keys distinct and removes one entry exactly if the key was there |
| Lfru.InsertSplits | pkg/content/lease.go:63-95 | an entry goes behind all that are used no more often and before all that are used more often |
| Lfru.TouchTracks | pkg/content/lease.go:63-95 | using a key keeps the queue in the order of (use count, last use), with exactly the used keys |
| Lfru.DeleteTracks | pkg/content/lease.go:98-119 | taking a key out keeps that order for the other keys |
| Lfru.PrefixTracks | pkg/content/lease.go:98-105 | giving up any number of keys from the front leaves only keys that come later in (use count, last use) |
| Lfru.TracksUnique | pkg/content/lease.go:29-34 | the recorded uses determine the order completely |
| Lfru.TouchLists | pkg/content/lease.go:63-95 | using a key keeps the queue listing exactly the counted keys, each under its count, whatever the order within a count |
| Lfru.PopLists | pkg/content/lease.go:98-119 | so does giving up the head |
| LeaseIndex.SortIntsSorted | pkg/content/lease.go:81-82 | sorting distinct counts gives them in strictly ascending order, none lost or added |
| LeaseIndex.FilterIndexSorted | pkg/content/lease.go:111-117 | the filter loop removes exactly the dead count and keeps the order |
| LeaseIndex.ShapedQueue | pkg/content/lease.go:29-34 | the queue of an index is ordered by count and has the index's buckets |
| LeaseIndex.DroppedShaped | pkg/content/lease.go:107-119 | after a removal no bucket is empty and the array of counts is sorted and lists just the live buckets |
| LeaseIndex.AddedShaped | pkg/content/lease.go:63-95 | what Add does to each bucket and to the size counter, for any index and key |
| LeaseIndex.AddedQueue | pkg/content/lease.go:63-95 | for a key absent, one below or at the count, Add moves it behind all keys used no more often |
| LeaseIndex.AddRefines | pkg/content/lease.go:63-95 | Add keeps the index well formed (one bucket a key, size the number of keys) if and only if the key is new or was at count - 1, and then refines the abstract order |
| LeaseIndex.AddedTwice | pkg/content/lease.go:84-93 | adding a key that sits at another count breaks the index |
| LeaseIndex.PopRefines | pkg/content/lease.go:98-119 | the size is 0 just when there is no count; otherwise Remove succeeds, returns the head of the order and leaves a well-formed index with the rest |
| LeaseCaches.SortByUsedAt | pkg/content/lease.go:51-53 | a permutation, newest first, ties in any order |
| LeaseCaches.LeaseCache.Add | pkg/content/lease.go:63-95 | fails, changing nothing, only on a count that is no number; keeps the index valid just under the condition of AddRefines, and then moves the key to the back of its new count |
| LeaseCaches.LeaseCache.Remove | pkg/content/lease.go:98-105 | on a valid index returns the head of the order and leaves the rest, valid |
| LeaseCaches.LeaseCache.RemoveFrom | pkg/content/lease.go:107-119 | the loop and the map deletion do what the value function says |
| LeaseCaches.LeaseCache.Len | pkg/content/lease.go:122-124 | the counter is the number of keys of a valid index |
| LeaseCaches.LeaseCache.Init | pkg/content/lease.go:46-60 | succeeds just when every label is a number, and then has added the leases newest first |
| LeaseRestart.AddFresh | pkg/content/lease.go:54-58 | a lease not listed yet goes behind the others of its count |
| LeaseRestart.RebuiltQueue | pkg/content/lease.go:46-60 | the rebuilt index has every lease under its count and the right size; draining it gives counts ascending and insertion order within a count |
| LeaseRestart.OldestFirstRestores | pkg/content/lease.go:51-58 | adding oldest first would restore the order before the restart |
| LeaseRestart.RestartKeepsOrder | pkg/content/lease.go:46-60 | with distinct times, the order survives a restart if and only if no two leases share a use count |
| LeaseRestart.SharedCount | pkg/content/lease.go:51-58 | two leases of one count leave in another order after the restart |
| LeaseRestart.RestartReversesTies | pkg/content/lease.go:51-58 | an instance: of two leases used once the older left first before and leaves last after |
| Sums.TotalSplit | pkg/content/content.go:105-127 | the size of a store is the size of any part and of the rest |
| Sums.BytesAreTotal | pkg/content/content.go:178-198 | the bytes counted for distinct victims are the size of the blobs stored under them |
| Sums.FreedBytes | pkg/content/content.go:169-211 | dropping the blobs of distinct victims frees exactly the bytes counted |
| ContentStore.LimitIsFourFifths | pkg/content/content.go:137-147 | the limit is 80 percent of the threshold if and only if the 64-bit product does not overflow |
| ContentStore.UseIsNext | pkg/content/content.go:243-255 | a lease is indexed under the count in its label, so the next use meets the condition of Add |
| ContentStore.UseKeepsAgreement | pkg/content/content.go:232-261 | adding a use to the index and writing its labels keeps every lease in the index under the count of its label, and nothing else in it, after a restart too |
| ContentStore.UseKeepsOrder | pkg/content/content.go:232-261 | it also keeps the keys of a count in the order of the times in their labels |
| ContentStore.DropKeepsAgreement | pkg/content/content.go:174-208 | the next victim has a lease, and taking both away keeps index and labels in agreement |
| ContentStore.VictimsComeFirst | pkg/content/content.go:169-211 | where the index is in the order of the times, every victim precedes every survivor by (use count, last use) |
| ContentStore.RebuiltAgrees | pkg/content/lease.go:46-60 | an index rebuilt from all leases, in any order, agrees with their labels |
| ContentStore.BucketsNewest | pkg/content/lease.go:51-58 | an index with the buckets of a newest-first list gives up, of two leases of one count, the one with the later stored time first |
| ContentStore.Content.NewContent | pkg/content/content.go:69-102 | starting on any store fails just when some lease has no count or one that is no number; else the index is built from the leases in descending order of their stored times and agrees with the labels, and of two leases of one count it gives up first the one with the later time |
| ContentStore.Content.Size | pkg/content/content.go:105-127 | the loop returns the total size of the stored blobs |
| ContentStore.Content.EnsureLease | pkg/content/content.go:216-231 | the digest is leased afterwards; existing leases keep their labels, a new one has none, and no other lease changes |
| ContentStore.Content.CountUse | pkg/content/content.go:232-261 | the transaction raises the count by one, to 1 for a lease without one, in the index and in the labels |
| ContentStore.Content.UpdateLease | pkg/content/content.go:214-262 | one use: count 1 for a digest without a lease, else one more than the label said; the label, the index and the clock after it; agreement is kept, and the order of the times if it held |
| ContentStore.Content.Commit | pkg/content/content.go:352-356 | a blob is leased before it is stored, so that all blobs stay leased if they were; an existing blob is not replaced |
| ContentStore.Content.GiveUpNext | pkg/content/content.go:174-208 | in agreement with the labels, the look-up of the victim and of its lease cannot fail |
| ContentStore.Content.CleanLeases | pkg/content/content.go:169-211 | victims are a shortest prefix of the order that covers the bytes, also after a restart and with unleased blobs; it fails if and only if all leased blobs together are smaller; it ends by the length of the index |
| ContentStore.VictimBlobs | pkg/content/content.go:156-166 | the database's collection then removes the victims' blobs and those that had no lease, which brings the size to the limit |
| ContentStore.LeasedBytes | pkg/content/content.go:169-211 | the store is the bytes the index covers and the unleased blobs; where all are leased the index covers everything |
| ContentStore.Content.GC | pkg/content/content.go:130-166 | on any store whose index agrees with its labels: idle if and only if within the limit; successful if and only if the unleased blobs are within it, and then the size is; exact leases, blobs and order after it, and after a failure |
| GcProtocol.StepMoves | pkg/adapter/adapter.go:128-140 | every step moves at most the stepping thread's locks and takes none that is held |
| GcProtocol.ConversionKeeps | pkg/content/content.go:214-262 | a step of a conversion keeps the whole invariant |
| GcProtocol.CollectionKeeps | pkg/content/content.go:130-211 | a step of a collection keeps the whole invariant |
| GcProtocol.StepKeeps | pkg/adapter/adapter.go:104-142 | every step of every thread keeps the invariant |
| GcProtocol.RunKeeps | pkg/adapter/adapter.go:104-142 | the invariant holds in every state of every run |
| GcProtocol.AllFinished | pkg/content/content.go:139-147 | under the write lock every lease protects its blob and is labelled |
| GcSafety.IndexIsNeverShared | pkg/content/lease.go:29-34 | no two threads are in the index at once, although it has no lock of its own |
| GcSafety.CollectionsRunAlone | pkg/content/content.go:138-151 | collection bodies overlap neither each other nor a conversion |
| GcSafety.ConversionKeepsItsBlobs | pkg/adapter/adapter.go:128-130 | while a conversion holds the read lock no lease and no blob is deleted |
| GcSafety.SweepIsCovered | pkg/content/content.go:169-173 | in every run the bytes still to free are at most those of the keys still indexed, so the index is never found empty too early |
| GcSafety.CollectionReachesLimit | pkg/content/content.go:136-152 | in every run each collection that ends has succeeded, with the store within its limit |
| GcSafety.WriterProceeds | pkg/content/content.go:138-151 | in the body of a collection a thread never waits, and each of its steps brings it nearer to the end |
| GcSafety.OthersDoNotDelay | pkg/content/content.go:138-151 | no step of another thread takes it further from the end |
| GcSafety.CollectionFinishes | pkg/content/content.go:169-211 | every collection that got the lock ends, after at most three steps for each indexed key and four more |
| GcSafety.IndexAgreesWithLabels | pkg/content/content.go:168-262 | outside transactions and collections a lease labelled c is at c in the queue and nowhere else, no key is without a lease and no blob is |
| GcSafety.NoLeaseLeftUnfinished | pkg/content/content.go:220-231 | with no conversion under way every lease has its blob attached and its labels written |
| GcSafety.UsesAreCounted | pkg/content/content.go:243-260 | in every run the first use of a lease has count 1, each later one is counted one up and dated by the clock, and no other step changes a label |
| GcSafety.AdditionsAreLegal | pkg/content/content.go:243-255 | in every run each call of Add meets the condition under which it is right |
| GcIndex.StepPerforms | pkg/content/lease.go:63-119 | each step of a run is one Add, one Remove that succeeds and returns the key dropped, or no change of the concrete index, which stays well formed |
| GcIndex.IndexFollows | pkg/content/lease.go:30-119 | along every run the concrete index is well formed (sorted live counts, no empty bucket, each key once, size exact) and stands for the queue |
| GcIndex.BucketsAgreeWithLabels | pkg/content/content.go:168-262 | outside transactions and collections a lease labelled c is in bucket c of the index and in no other, and every key in a bucket is leased |
| GcRestart.RestartStarts | pkg/content/lease.go:46-60 | whatever labelled leases are stored, and in whatever order the sort leaves ties, the restarted process is in a state from which runs start if and only if every lease protects its blob and every blob is leased, with the rebuilt index standing for its queue |
| GcSequential.UseIsUninterrupted | pkg/content/content.go:214-262 | a thread of the protocol that uses or commits a blob uninterrupted changes queue, leases, labels, blobs and clock as UpdateLease and Commit do |
| GcSequential.SweepIsUninterrupted | pkg/content/content.go:169-211 | its sweep gives up the shortest prefix that CleanLeases gives up, or everything |
| GcSequential.CollectionIsUninterrupted | pkg/content/content.go:130-166 | a whole collection, uninterrupted, ends in each of its three outcomes with the queue, leases and blobs of GC |
| RemoteBlob.AcceptsFirstPosition | pkg/remote/ported.go:394-400 | any Content-Range is accepted if and only if its first position, by the grammar of section 14.4 of RFC 9110, is the offset, printed canonically |
| RemoteBlob.Discard | pkg/remote/ported.go:406-411 | drops the offset or the whole of a shorter body, and fails if that ended with an error and just then, except that an error with the last byte to drop may fail too |
| RemoteBlob.Open | pkg/remote/ported.go:355-420 | the result in every case: the body whole without an offset, by the range test where a range is named, else after the offset or with the error that the body met, left open only where an error comes right at the offset; from an honest server it is the blob from the offset on |
| RemoteReader.HoldsConcat | pkg/remote/ported.go:219-224 | consecutive pieces of the blob join to a piece |
| RemoteReader.HttpReadSeeker.constructor | pkg/remote/ported.go:212-217 | a new reader is open, at 0 and has not dialled |
| RemoteReader.HttpReadSeeker.Reader | pkg/remote/ported.go:317-351 | with no connection, dials once unless the offset is past a known end, and then is at a live body or has counted a failure; with one, does nothing |
| RemoteReader.HttpReadSeeker.ReadConnection | pkg/remote/ported.go:230-243 | what a connection brings is the next piece of the blob, and is progress; one that has dropped brings nothing more |
| RemoteReader.HttpReadSeeker.Retry | pkg/remote/ported.go:244-262 | after a drop there is a new connection, or a failed dial, or the retries are used up |
| RemoteReader.HttpReadSeeker.Read | pkg/remote/ported.go:230-264 | the bytes returned are the blob's at the offset, nothing else in the buffer changes, the offset moves by as many; a drop is answered by a new connection, so that no success leaves a dropped one, and is hidden unless the redial fails or the retries without progress are used up |
| RemoteReader.HttpReadSeeker.ReadFull | pkg/remote/ported.go:219-224 | terminates under any drops; full buffer if and only if no error; while nothing fails for good it stops short only at the end, unless maxRetry connections in a row have dropped without a byte; at most (maxRetry + 1)(bytes + 1) dials |
| RemoteReader.HttpReadSeeker.ReadAt | pkg/remote/ported.go:219-224 | drops cost no byte as long as fewer than maxRetry connections in a row bring nothing: the minimum of the room and what the blob holds past the offset is returned |
| RemoteReader.HttpReadSeeker.Seek | pkg/remote/ported.go:278-315 | the target of each whence, every error case, 64-bit wrap-around only ever refused; the connection is kept just if the position is |
| RemoteReader.HttpReadSeeker.Close | pkg/remote/ported.go:266-276 | closes once and leaves no connection open |
| Int64.WrappedSum | pkg/remote/ported.go:283-300 | an overflowing seek becomes negative, so that it is refused |
| RemoteRuns.Perform | pkg/remote/ported.go:219-315 | each operation replies as a byte sequence with a position may |
| RemoteRuns.Play | pkg/remote/ported.go:219-351 | any sequence of operations is explained by a byte sequence with a position, whatever the network does |
| RemoteRuns.ReadsAreContiguous | pkg/remote/ported.go:230-264 | reads that follow each other deliver the blob without gap or repetition |
| RemoteRuns.ReadToTheEnd | pkg/remote/ported.go:230-264 | reading until the end is reported delivers all the rest of the blob |
| CacheLayers.AppendLayers | pkg/cache/cache.go:518-536 | the loop equals the first size elements of the old layers and then the new ones with unknown digests; panics if and only if size is negative |
| CacheLayers.MergeConserves | pkg/cache/cache.go:516-536 | old layers stay as a prefix, the capacity holds, and no digest is lost unless the list is full |
| CacheLayers.MergeKeepsDistinct | pkg/cache/cache.go:518-536 | distinct digests stay distinct |
| CacheLayers.MergeIdempotent | pkg/cache/cache.go:518-536 | merging the same layers again changes nothing |
| CacheLayers.CapOnce | pkg/cache/cache.go:330-336 | over any number of conversions, cutting every time equals cutting once at the end |
| CacheLayers.RunsExtend | pkg/cache/cache.go:330-336 | every conversion extends the list of any earlier one, also when the first list was not cut, and a full list never changes |
| CacheRecords.RemoteCache.Get | pkg/cache/cache.go:90-115 | a source is found before a target, and nothing is found just when neither is recorded |
| CacheRecords.RemoteCache.Put | pkg/cache/cache.go:117-129 | one record with both back-links, on any records; panics, recording nothing, if and only if the target has no annotations |
| CacheRecords.RemoteCache.Set | pkg/cache/cache.go:164-172 | counts a source exactly if no record named it as source or target; after a panic the count is one ahead |
| CacheRecords.RemoteCache.UpdateItem | pkg/cache/cache.go:131-154 | which record changes and how, maps shared by source and target included; a link that was there survives if and only if the labels are harmless |
| CacheRecords.RelabelledLinks | pkg/cache/cache.go:131-141 | the exact condition under which new labels keep a record linked; an update by target does not meet it unless something names the source |
| CacheRecords.RelabelledSays | pkg/cache/cache.go:131-154 | labels win over the annotations of the source, which otherwise stay, and nothing but annotations changes |
| CacheRecords.RemoteCache.GetTargetLayers | pkg/cache/cache.go:498-514 | the loop collects the recorded targets in the order of the sources |
| CacheRecords.TargetLayersInOrder | pkg/cache/cache.go:498-514 | the target of each recorded source stands at the number of recorded sources before it, and there are no other layers |
| CacheRecords.RemoteCache.ImportManifestRecords | pkg/cache/cache.go:279-309 | another version leaves the records unchanged; invalid source digests are passed over; the records up to the first missing source, or all of them |
| CacheRecords.HitsCover | pkg/cache/cache.go:538-567 | pigeonhole: distinct recorded digests that some layers have are no more than the places of recorded layers |
| CacheRecords.RemoteCache.HitCount | pkg/cache/cache.go:538-567 | the number of places whose layer is recorded as source or target, less the newly recorded, unsigned, and the number of places; it cannot wrap and is at most the total when every newly recorded source is a counted layer, cut links or not |
| CacheUpdate.TargetLayersByPlatform | pkg/cache/cache.go:331-381 | each converted manifest gets the target layers of the first original manifest whose platform matches, or none |
| CacheUpdate.TargetsAreConsistent | pkg/cache/cache.go:357-380 | converted manifests for matching platforms get the same layers |
| CacheUpdate.Place | pkg/cache/cache.go:428-452 | one manifest takes the layers of one open platform that matches, in whatever order the map is visited, and all that match are no longer open |
| CacheUpdate.MergeIndex | pkg/cache/cache.go:423-452 | every manifest of an index keeps its place, and what is open after each one |
| CacheUpdate.ReplacedKeeps | pkg/cache/cache.go:428-452 | a manifest merged into keeps its media type, config and other annotations, and has the current version |
| CacheUpdate.NewManifests | pkg/cache/cache.go:458-480 | one uncut manifest of the current version for each converted manifest left, each once |
| CacheUpdate.Update | pkg/cache/cache.go:383-495 | all cases: no cache, a single manifest, an index, another media type; a negative capacity panics if and only if a cached manifest is merged into |
| CacheConservation.ManifestsStay | pkg/cache/cache.go:423-452 | cached manifests keep position, platform, media type, config and, up to the capacity, layers, and change only for a matching platform |
| CacheConservation.ConversionIsWritten | pkg/cache/cache.go:400-494 | every converted manifest is written for its own platform and the current version, whole in a new manifest, or merged behind the layers of a cached one that keeps all else |
| CacheConservation.ConversionIsStored | pkg/cache/cache.go:400-494 | the manifest for its platform has all converted layers or is full, merged indexes included |
| CacheConservation.OldLayerSurvives | pkg/cache/cache.go:400-494 | a cached layer within the capacity survives an update if and only if the cache is not a single manifest met by more or fewer converted manifests than one |
| CacheRoundTrip.ImportGivesRecords | pkg/cache/cache.go:279-309 | exactly one record for each distinct valid source digest, that of the last layer naming it; all other records stay |
| CacheRoundTrip.StoredLast | pkg/cache/cache.go:498-514 | the layer stored last for a source digest is the target recorded for the last layer of the image whose target names it |
| CacheRoundTrip.StoredFrom | pkg/cache/cache.go:498-514 | the stored layers are exactly the targets recorded for layers of the image |
| CacheRoundTrip.RoundTrip | pkg/cache/cache.go:279-309 | of the layers stored for an image, links cut or not, exactly the valid digests that some recorded target names come back, with that target and both links |
| CacheRoundTrip.LinkedRoundTrip | pkg/cache/cache.go:279-309 | while all links hold, exactly the recorded layers of the image with valid digests come back, each with its own target |
| CacheRoundTrip.PushedIsFetched | pkg/cache/cache.go:312-328 | whatever manifest an update wrote for an image, merged and cut or not, is of the version read and gives back exactly the valid digests its layers name |
| CacheRoundTrip.MergedRoundTrip | pkg/cache/cache.go:518-536 | of a merged list that is not full come back exactly the valid digests that a cached layer names or a recorded target of the image whose digest is not cached, links cut or not |
| CacheRoundTrip.LinkedMergedRoundTrip | pkg/cache/cache.go:518-536 | a linked record of the image comes back if and only if its target is not cached or a cached layer names it, and with its target if and only if the last such layer is that target |
| CacheRoundTrip.CutLayerStays | pkg/cache/cache.go:523-525 | a pushed layer whose link was cut is neither read nor replaced, though its source is converted again |
| CacheRoundTrip.CutLinkIsLost | pkg/cache/cache.go:136-138 | a record updated through its target is read back if and only if the merged annotations name its source or another record of the image does, which no linked one does |
| ChainIds.SplitAtSpace | pkg/driver/nydus/nydus.go:482-486 | a line of two words is read in one way only |
| ChainIds.ChainIdInjective | pkg/driver/nydus/nydus.go:482-486 | with collision-free digests a ChainID determines the whole stack of layers below it |
| ChainIds.SharingNeedsSameBase | pkg/driver/nydus/nydus.go:482-486 | two images share a layer if and only if their lowest layers are the same |
| EmptyLayer.Store.Write | pkg/driver/nydus/nydus.go:577-596 | the blob is stored under its digest and nothing else changes |
| EmptyLayer.PrependEmptyLayer | pkg/driver/nydus/nydus.go:486-599 | each error case, with nothing written; else the stored manifest and config with one entry before the old layers, DiffIDs and history, media types, platform and annotations as specified, every descriptor with the size of the blob it leads to, old blobs kept |
| EmptyLayer.AlignmentKept | pkg/driver/nydus/nydus.go:532-545 | layers, DiffIDs and history stay index-aligned if and only if the history was not left out of an image with layers |
| EmptyLayer.NoLayerReuse | pkg/driver/nydus/nydus.go:482-545 | no ChainID of the rewritten image is one of any image, unless that image starts with the empty layer itself |
| EmptyLayer.MakeManifestIndex | pkg/driver/nydus/nydus.go:371-437 | the stored index and its descriptor, sizes included: annotations, every OCI manifest rewritten in its position and spoilt by no later write, then the nydus manifests, marked and with a platform |
| Tasks.Manager.Init | pkg/task/manager.go:83-102 | loads exactly the stored tasks that have ended and deletes the others |
| Tasks.Manager.Create | pkg/task/manager.go:133-154 | one new task in memory and in the database, no other changed |
| Tasks.Manager.Finish | pkg/task/manager.go:157-190 | panics if and only if the id is unknown; else the outcome is recorded and just the expired tasks are gone, in memory and in the database |
| Tasks.Manager.Evict | pkg/task/manager.go:180-188 | the loop keeps exactly the tasks that are not expired, in memory and in the database |
| TaskRuns.RunKeeps | pkg/task/manager.go:64-190 | in every run a task is being processed exactly while its conversion runs, and the call that ends it finds it |
| TaskRuns.TerminalStaysTerminal | pkg/task/manager.go:64-70 | an ended task never changes again, and goes away only once expired, for good |
| TaskRuns.RequestIsRemembered | pkg/task/manager.go:133-154 | as long as there is a task for a request, it says when the request came and for which image |
| TaskRuns.EndingDecides | pkg/adapter/adapter.go:144-174 | the end of a conversion takes its task from processing to completed or failed, by its error, with its time, reason and sizes, and changes nothing else of it |
| TaskRuns.RestartKeepsTerminal | pkg/task/manager.go:83-102 | a restart keeps exactly the ended tasks, unchanged |
| TaskRuns.Handle | pkg/adapter/adapter.go:144-174 | each event of a run is one call of the manager, with the same result |
| TaskRuns.Play | pkg/task/manager.go:83-190 | after any run, restarts included, memory, database and the abstract state agree |
| References.NameRoundTrip | pkg/adapter/rule.go:36-79 | a name is read as domain and path exactly when they are well formed and written so |
| References.ReferenceRoundTrip | pkg/adapter/rule.go:36-79 | a text is read as a reference if and only if the reference is well formed and is written as that text |
| References.ParsedIsCanonical | pkg/adapter/rule.go:37-40 | whatever is accepted is in normal form |
| References.NormalizedRoundTrip | pkg/adapter/rule.go:52-53 | a normal form, written out, is read back unchanged |
| References.TaggedIsReadable | pkg/adapter/rule.go:52-53 | a canonical name with a text of tag characters can be read if and only if the text is a valid tag |
| Rules.Retagged | pkg/adapter/rule.go:59-79 | an accepted reference with another valid tag and no digest reads back as just that |
| Rules.PushesJustWhen | pkg/adapter/adapter.go:111-127 | exactly when a request passes the guards, and the target and cache reference it then has |
| Rules.StopsJustWhen | pkg/adapter/adapter.go:111-127 | exactly when a request is skipped as converted or as cache, and when it fails for want of a rule or a readable reference |
| Rules.FirstRuleCounts | pkg/adapter/rule.go:87-112 | each option is that of the first rule that sets it, and empty only if no rule does |
| Rules.ConvertsJustWhen | pkg/converter/converter.go:93-104 | behind the guards the converter goes on, with the same target, if and only if the tag with the suffix is at most 128 characters long, for a suffix of tag characters |
| Rules.TargetIsRetagged | pkg/adapter/rule.go:36-54 | the target is a tag of the same repository if and only if the tag with the suffix is a valid tag |
| Rules.FeedbackStops | pkg/adapter/rule.go:87-112 | the target of a conversion, fed back by tag, is recognised and not converted, and so is the cache reference if the cache tag is valid; if not, it passes the guards if and only if it can be read and lacks the suffix |
| Rules.DigestIsConvertedAgain | pkg/adapter/rule.go:87-112 | fed back with a digest, tagged or not, a reference is converted again unless the digest ends with the suffix or the tag is the cache tag |
| Rules.TargetWithDigestIsConvertedAgain | pkg/adapter/rule.go:92-97 | a target fed back as tag and digest is pushed once more with the suffix doubled |
| Rules.FeedbackLength | pkg/converter/converter.go:93-104 | the feedback by tag and digest goes on exactly as long as tag and suffixes fit into 128 characters |

## Left out

Assumptions:

- Database transactions are exclusive and commit. A commit that fails after `lc.Add` leaves the index one use ahead of the labels.
- The database's own collection deletes exactly the blobs without an attached lease; labels that would keep more are stripped (pkg/content/content.go:279-283) or dropped (pkg/content/content.go:352-355).
- Blob sizes are non-negative and their sum does not overflow 64 bits; use counts do not either. Labels are written by the program itself.
- The time label is an integer. Its text, compared as text, has the order of the times.
- A body brings its bytes in order, reports its end only after them and from then on nothing else, and reads nothing into a non-empty buffer only for a reason. An honest server sends the blob from its beginning, or from the first position of the Content-Range it names, and cuts it short only by an error.
- The registry, the content store and JSON give back what was written; digests are collision-free.

Not modelled:

- GcProtocol.RunKeeps: a crash in the middle of a collection can leave unleased blobs, and one between two threads that use a new lease can leave a labelled lease that protects nothing; runs do not start from these. ContentStore.Content.NewContent and ContentStore.Content.GC say what a restart and a collection do in the first case; the second counts as unleased.
- CacheRecords.RemoteCache.UpdateItem: annotation maps shared between descriptors handed in by callers are values here; only the sharing that the update itself creates is kept.
- CacheUpdate.Update: manifests are read and written by value instead of through descriptors; a descriptor in an index is taken to name its platform, and the same as its config, since a missing one makes the match panic.
- CacheRecords.RemoteCache.Set: the check and the write are one step, where concurrent callers could interleave between them.
- EmptyLayer.PrependEmptyLayer: fields of a config that the image type does not know are dropped by the program; the model has no such fields. The annotation map of the descriptor passed in is not shared with the result.
- Tasks.Manager.Init: the database library does not define deleting while it walks a bucket; the walk is taken to visit every task once.
- Tasks.Manager.Finish: the clock is read once for the whole eviction; the tasks that listing hands out are not shared with the table.
- EmptyLayer.MakeManifestIndex: the labels that keep the database from collecting what the index refers to.
- References.ReferenceRoundTrip: the library's grammar, which is not part of the repository, is modelled for ASCII text; it accepts no other.
- The retry without cache after a conversion error, which returns the first error even if it succeeds.
- Alternative URLs, several registry hosts, authorisation and the repeated requests on status 401, 405, 408 and 429 before a response is taken.
- `Fetch` over plain HTTP, the worker pool, `Content.Delete`, metrics, configuration, the layer converters and the content of layers.
