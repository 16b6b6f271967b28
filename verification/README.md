# Verification of the rhythmo server's core

rhythmo stores people's music. When an owner edits a track's metadata, a
background writer rewrites the tags inside the stored file, uploads the result
under a new key and swaps it in, while a collector deletes what was replaced.
This project models that protocol, the tag codecs it relies on, and the shared
state and time-bounded caches around it, and proves what they are for.

## Parts

- **Codecs.** `ByteOrder`, `TagText`, `UnicodeText`, `VorbisComments`, `Flac`,
  `OggCrc`, `OggPages`, `OggPagination`, `OggStreams`, `OggMeaning`, `Id3Text`,
  `Id3`, `Mp3`, and `Tags`, which puts the formats behind one interface;
  `TagLimits` builds files at their size limits. Each loop of the program is a
  method proved equal to a specification function; the round trips, the
  preservation of the audio and the composition of rewrites are proved about
  those functions. What the functions mean for files of other writers is proved
  without them: `OggAcceptance` and `Id3Reading` say which files are read and
  what is found in them, `Filtering` what it is to keep some items in order.
  Formats follow RFC 3533 (Ogg), RFC 7845 (Opus in Ogg), RFC 9639 (FLAC),
  ID3v2.3 and ID3v2.4.0.
- **Tag-rewrite protocol.** `TrackTable` holds the rows, `TagStore` the
  database operations as a class whose methods state the whole new state, and
  `RewriteProtocol` the state machine over rows, objects, garbage, workers, the
  collector and the clock. `RewriteSafety` proves an invariant for every step
  and the guarantees for every run; `RewriteChecked` proves them again from one
  comparison in the swap and nothing about time; `RewriteFindings` gives the
  runs that break without either. `RewriteProgress` says when each step lets the
  next claim happen, so that no pending edit is forgotten. A finished rewrite is
  tied to the codecs: the worker's file is what `Tags.Rewrite` yields and
  `Tags.Verified` accepts.
- **Shared state.** `Quota`, `Playlists`, `Transcriptions`.
- **Time.** `Sessions`, `RateLimiter`, `IntervalLimiter`.
- **Matching.** `Fingerprint`.

`Options`, `Finite` and `Int64` hold the few general definitions the others
share.

## Findings

Where the code does not do what its documentation promises, the model follows
the code, and the exact condition under which the promise holds is proved.

1. **A release can take another worker's lease.** When an edit makes a swap
   conflict, the swap transaction already clears the lease
   (`server/internal/store/tagjobs.go:150`), so a second worker may claim; the
   first one then calls `ReleaseTagRewrite`, which clears the column whoever
   set it. A third worker can then queue the second one's upload, and the
   collector can remove it before the second swaps it in
   (`RewriteFindings.ForeignReleaseLosesAnObject`). Every worker is within its
   lease in that run. The guarantees of `RewriteSafety` therefore ask for two
   things: a worker's store steps precede the end of its lease, and a release
   does not happen while another live worker is at work on the track. A worker
   that looks at the row's lease before it releases meets the second, unless
   two claims were made at one instant (`RewriteFindings.ReleaseIsHarmlessIff`,
   `RewriteFindings.GuardedRunIsRun`).
2. **A late swap loses an object**, since the swap runs without the job's
   deadline and compares neither attempts nor the recorded key
   (`RewriteFindings.LateSwapLosesAnObject`). In both runs the last swap
   installs a key the row no longer records. Were the swap to compare it,
   nothing would be lost however late workers act and whosever lease they clear
   (`RewriteChecked.NothingIsLostWhenChecked`), and nobody in time would be
   refused (`RewriteChecked.RunIsChecked`).
3. **A rewritten file may be unreadable.** Each format prints tags larger than
   it accepts; `TagLimits` gives an upload of each format whose rewrite is
   refused as malformed. The composition and preservation theorems are stated
   with that size limit as an exact condition. The writer's verification
   refuses such files.
4. **MP3 rewrites drop a second trailing ID3v1 block**
   (`Mp3.SecondBlockIsLost`); again verification refuses the result.
5. **64-bit sums in quota checks can wrap.** Under a quota of 2^62 or more two
   stored tracks suffice (`Quota.CopiesCanOverflow`); below 2^63 divided by the
   number of owners in a shared playlist no save can (`Quota.CopiesAreBounded`,
   `Quota.NeverOverQuota`). A swapped-in rewrite keeps the quota exactly while
   the total is below 2^63 (`Quota.ResizeKeepsQuotaIff`).
6. **Equal claim timestamps defeat the transcription fence.** A stale result is
   taken exactly when the latest claim's timestamp was given before
   (`Transcriptions.StaleIsTakenIff`). That cannot happen while lease cut-offs
   and timestamps come from one clock (`Transcriptions.ResultsAreLatest`); the
   cut-off comes from the program's clock and the timestamp from the
   database's, and it does happen when the former is ahead by more than the
   lease (`Transcriptions.EqualStampsConfuse`).
7. **`Forget` is not always immediate.** A lookup that was under way when an
   account was revoked stores the old epoch afterwards
   (`Sessions.LateStoreOutlivesForget`); this is the only way, and
   `Sessions.ForgottenIsStillAcceptedIff` says exactly when. The time to live
   still bounds it.
8. **A first Ogg page with two packets can pass for one.** The program means to
   refuse it (`server/internal/tags/ogg.go:114-116`) but only counts segments,
   which tells the two apart exactly at the lengths that
   `OggAcceptance.SegmentCountIsExactIff` gives. Real identification packets,
   far below 255 bytes, are told apart.

## Reading the model

- A database transaction is one step. A step may commit and its answer be lost,
  which is how lost outcomes are modelled; a crash can follow any step.
- The rows of the tag queue that a collection batch has locked block whoever
  queues one of their keys until the batch ends, as row locks do.
- An upload that reports failure has either landed by then or never does.
- Clocks, database answers, the choice among waiting rows and storage failures
  are parameters of methods or free choices of steps.
- Audio is compared as bytes where the program compares SHA-256 and length.
- Unicode upper case, lower case and trimming are parameters that must agree
  with ASCII (`TagText.Unicode.Agrees`).
- Edits satisfy what the HTTP layer validates first: the extension stays
  (`server/internal/audio/filename.go:39-69`), texts have no control characters
  and numbers lie in range (`server/internal/httpapi/tracks.go:459-506`).

## Model

| member | source | states |
|---|---|---|
| RewriteSafety.StepKeeps | server/internal/store/tagjobs.go:36-309 | every step of the tag-rewrite protocol — edits, claims, rewrites, uploads, swaps whose outcome is lost, failures, releases, crashes, collection — keeps the protocol's invariant, given that a worker's store steps precede the end of its lease and a release does not hit another worker's lease |
| RewriteSafety.NothingIsLost | server/internal/store/tagjobs.go:113-309 | in every such run the object a ready track's storage key names is in storage, with the recorded size |
| RewriteSafety.NothingIsOrphaned | server/internal/store/tagjobs.go:36-309 | in every such run each stored object is some track's current or recorded key, or queued for deletion |
| RewriteSafety.WrittenIsTrue | server/internal/tagwriter/tagwriter.go:336-359 | status "written" implies tag_version = metadata_version, and the current object is, byte for byte, the upload rewritten once with exactly the current metadata: it reads back as that metadata and the upload's audio |
| RewriteSafety.AudioIsTheUploads | server/internal/tagwriter/tagwriter.go:255-306 | after any number of edits, retries and swaps the current object is the upload or has the upload's audio payload |
| RewriteSafety.ClaimsRise | server/internal/store/tagjobs.go:55-75 | from claim to claim of a track (version, attempts) rises strictly in lexicographic order, attempts stay within the maximum |
| RewriteSafety.ClaimKeyIsFresh | server/internal/tagwriter/tagwriter.go:229-232 | the revision key of the next claim was never issued, and is neither stored, queued nor recorded |
| RewriteSafety.SourceIsFaithful | server/internal/tagwriter/tagwriter.go:234-306 | rewriting whatever object a claim names, upload or earlier rewrite, gives the upload rewritten once |
| RewriteSafety.SwappedKeeps | server/internal/store/tagjobs.go:180-185 | swapping in keeps the invariant: the object taken away is queued, the one installed is not |
| RewriteSafety.ConflictKeeps | server/internal/store/tagjobs.go:144-153 | a conflicting swap keeps the invariant, although it gives the lease up |
| RewriteSafety.OverQuotaKeeps | server/internal/store/tagjobs.go:155-174 | a swap refused for the quota keeps the invariant |
| RewriteSafety.FailureKeeps | server/internal/store/tagjobs.go:209-231 | recording a failure keeps the invariant, also after a swap that committed unheard, whose key is then current and queued at once |
| RewriteSafety.ReleaseKeeps | server/internal/store/tagjobs.go:99-103 | a release keeps the invariant unless another live worker is at work on the track |
| RewriteSafety.RemoveKeeps | server/internal/store/tagjobs.go:294-306 | removing an object that no track used when the batch was read is safe however much happened since |
| RewriteSafety.CommitKeeps | server/internal/store/tagjobs.go:300-303 | forgetting a collected batch orphans nothing |
| RewriteSafety.InUseIsLocal | server/internal/store/tagjobs.go:268-272 | the batch query's EXISTS over all tracks only ever finds the key's own track |
| RewriteFindings.ForeignReleaseLosesAnObject | server/internal/store/tagjobs.go:99-103 | a step-by-step run in which every worker keeps within its lease and a track still loses its object: the unguarded release takes another worker's lease away, and the last swap finds a row that no longer names its key; the row's lease column betrays this except when both claims were made at one instant |
| RewriteFindings.LateSwapLosesAnObject | server/internal/tagwriter/tagwriter.go:294-306 | a step-by-step run in which a swap after the end of its lease, of a key the row no longer names, loses a track's object |
| RewriteChecked.CheckedStepIsSafe | server/internal/store/tagjobs.go:36-309 | whatever the clock says and whosever lease a release clears, every step keeps a second invariant, given only that a swap that succeeds finds its own key recorded in the row |
| RewriteChecked.NothingIsLostWhenChecked | server/internal/store/tagjobs.go:113-191 | in every run of any speed whose successful swaps find their own key in pending_storage_key, the object a ready track names is in storage with the recorded size |
| RewriteChecked.WrittenIsTrueWhenChecked | server/internal/tagwriter/tagwriter.go:336-359 | in such runs "written" is still true of the object, byte for byte |
| RewriteChecked.RunIsChecked | server/internal/store/tagjobs.go:113-191 | every run that meets the two conditions on time and releases is one of them: the check would refuse nobody who is in time |
| RewriteFindings.BothConditionsSuffice | server/internal/tagwriter/tagwriter.go:160-187 | no run that meets both conditions reaches such a state |
| RewriteFindings.SomeRunWrites | server/internal/store/tagjobs.go:180-185 | runs that meet both conditions exist and bring a track to "written" |
| RewriteFindings.ReleaseIsHarmlessIff | server/internal/store/tagjobs.go:99-103 | a release leaves every other live worker its lease if and only if the row's lease is no other live worker's; when the row shows no lease or the releaser's own deadline, if and only if no other live worker has the same deadline |
| RewriteFindings.GuardedRunIsRun | server/internal/store/tagjobs.go:99-103 | runs in which workers keep within their leases and look at the row before they release meet both conditions, so every guarantee holds of them |
| RewriteFindings.EarlyReleaseIsOwn | server/internal/tagwriter/tagwriter.go:279-281 | a worker superseded before its upload releases a lease that is its own |
| RewriteProtocol.DoomedAreUnused | server/internal/store/tagjobs.go:294-306 | the protocol's collector removes exactly the keys the store's collection loop removes |
| TagStore.Store.ClaimTagRewrite | server/internal/store/tagjobs.go:36-78 | leases some waiting track, queueing the object a crashed attempt left, or marks it failed when its attempts are used up; nothing changes exactly when no track waits |
| TagStore.Store.RecordPendingObject | server/internal/store/tagjobs.go:83-95 | records the key exactly when version and status still match |
| TagStore.Store.ReleaseTagRewrite | server/internal/store/tagjobs.go:99-103 | clears the lease column of one row, whoever set it |
| TagStore.Store.CompleteTagRewrite | server/internal/store/tagjobs.go:113-191 | the four outcomes of the swap transaction and the whole new state of each |
| TagStore.Store.FailTagRewrite | server/internal/store/tagjobs.go:209-231 | queues the uploaded key always, updates the row only while version and status match, and then to what RewriteProgress.FailureIsRetriedIff says |
| TagStore.Store.QueueGarbage | server/internal/store/tagjobs.go:242-249 | queues a key, keeping the earlier deletion time |
| TagStore.Store.CollectGarbage | server/internal/store/tagjobs.go:255-309 | deletes exactly the unused keys of a batch and forgets the batch; on a storage error the queue keeps every key |
| TagStore.Store.UpdateMetadata | server/internal/store/tracks.go:323-365 | a matching edit bumps the version and resets the attempts but leaves lease and recorded key; every refusal changes nothing |
| RewriteProgress.FailureIsRetriedIff | server/internal/store/tagjobs.go:209-231 | after a failure of a still wanted claim the track can be claimed at time t if and only if the failure is to be retried, is not for lack of a tag writer, and t is at least the delay away; without a writer it ends as such, otherwise as failed; a newer edit is left alone and the uploaded object is queued in every case |
| RewriteProgress.StoreTroubleIsRetried | server/internal/tagwriter/tagwriter.go:175-198 | every failure of a store or of storage waits attempt by attempt longer, is final on the last attempt only, and names what may have been uploaded |
| RewriteFindings.FailureIsRetriedAndWritten | server/internal/tagwriter/tagwriter.go:284-306 | step by step: an upload fails, the track cannot be claimed before the delay and can after it, and the second attempt ends in "written" |
| RewriteProgress.PendingIsNeverStuck | server/internal/store/tagjobs.go:55-75 | a ready track with a pending edit can be claimed at all times from some time on; no other track ever can |
| RewriteProgress.ClaimTakesTurn | server/internal/store/tagjobs.go:36-78 | a claim keeps the track from others exactly until the lease is over and counts one attempt; one claim too many ends it instead, with the error of the last attempt |
| RewriteProgress.SwapEnds | server/internal/store/tagjobs.go:113-191 | the four ends of a swap, field by field: the track is gone, was edited or swapped meanwhile, would outgrow its owner's quota, or has the new object and the old one queued for after the grace period |
| RewriteProgress.EditStartsOver | server/internal/store/tracks.go:323-365 | an edit goes through exactly for the owner of a ready track who has seen its current version, so of two edits of one version one is refused; then the attempts start over and only a lease that is out delays the next claim |
| RewriteProgress.QueueKeepsEarlier | server/internal/store/tagjobs.go:242-249 | queueing keeps the earlier of two times and every other key's |
| Tags.VerificationPasses | server/internal/tagwriter/tagwriter.go:336-359 | for every file a rewrite accepts and every embeddable metadata, the writer's checks pass if and only if the new tag stays within the size limit and, for MP3, the written frames and the audio are long enough and no second ID3v1 block hides behind the first |
| TagLimits.Mp3Outgrows | server/internal/tags/id3.go:53-143 | any readable tag and any edit that takes it past 16 MiB: the upload is accepted, the rewrite succeeds and its result is refused as malformed |
| TagLimits.SomeMp3Outgrows | server/internal/tags/id3.go:53-143 | such an MP3 for any audio, passing the upload check |
| TagLimits.FlacOutgrows | server/internal/tags/flac.go:38-107 | the same for any FLAC metadata |
| TagLimits.SomeFlacOutgrows | server/internal/tags/flac.go:38-107 | a FLAC file that every edit outgrows, passing the upload check |
| TagLimits.OggOutgrows | server/internal/tags/ogg.go:58-173 | the same for any Ogg headers |
| TagLimits.SomeOggOutgrows | server/internal/tags/ogg.go:58-173 | such an Opus file, and such a Vorbis file, passing the upload check |
| Tags.ChainIsOneRewrite | server/internal/tags/tags.go:101-109 | any chain of verified rewrites gives byte for byte one rewrite of the first file with the last metadata, with the first file's audio |
| Tags.FindExtension | server/internal/tags/tags.go:92-98 | the extension is what follows the last dot of the last path element |
| Tags.ExtensionIs | server/internal/tags/tags.go:69-72 | the extension begins at the last dot of the last path element, and is empty when a slash comes after it |
| Tags.FormatIs | server/internal/tags/tags.go:59-72 | the format goes by the extension alone, in any case of its letters |
| Tags.LooksRightIff | server/internal/audio/audio.go:45-49 | the literal first bytes by which each format's files are recognised |
| OggCrc.Crc | server/internal/tags/ogg.go:310-316 | the table-driven loop computes the remainder of the message, shifted by 32, divided bit by bit by the polynomial 0x04C11DB7, for every byte string |
| OggCrc.BuildTable | server/internal/tags/ogg.go:292-306 | table entry i is i in the top byte after eight division steps |
| OggCrc.LookupFeeds | server/internal/tags/ogg.go:310-316 | one table look-up does the work of eight bits fed in |
| OggCrc.FeedingDivides | server/internal/tags/ogg.go:308-316 | feeding bits in at the top equals long division of the message followed by 32 zeros |
| OggPages.PrintPage | server/internal/tags/ogg.go:274-290 | printing a page, checksum included |
| OggPages.ReadOggPage | server/internal/tags/ogg.go:239-272 | reading a page, with every refusal; only an empty input is the end |
| OggPages.ReadPrinted | server/internal/tags/ogg.go:239-290 | every well-formed page is read back from its bytes, with what follows left unread |
| OggPages.ReadIsPrinted | server/internal/tags/ogg.go:239-290 | whatever is accepted is a well-formed page and the bytes read are that page printed |
| OggPages.PageIsSpelled | server/internal/tags/ogg.go:274-290 | the bytes of a page, field by field as section 6 of RFC 3533 lays them out |
| OggCrc.BitsAreHighFirst | server/internal/tags/ogg.go:308-316 | the message's bits, most significant first |
| OggPagination.Paginate | server/internal/tags/ogg.go:203-237 | the page-filling loop lays out exactly the packets' segments, 255 to a page |
| OggPagination.PaginationReassembles | server/internal/tags/ogg.go:203-237 | the pages' data split at lacing values below 255 is the packets again; pages have at most 255 segments, consecutive numbers, the continued flag exactly where a packet spills over, and no granule position exactly where no packet ends |
| OggPagination.ReassembleLaced | server/internal/tags/ogg.go:121-151 | splitting at lacing values below 255 inverts lacing, for any packets |
| OggStreams.ReadOggHeaders | server/internal/tags/ogg.go:93-173 | the header-reading loops; what they accept and refuse is stated by OggAcceptance.AcceptedIff and the refusals beside it |
| OggAcceptance.AcceptedIff | server/internal/tags/ogg.go:45-173 | exactly these files are accepted, and exactly these can be rewritten: a first page that starts its stream and has the segments of one packet, and begins with the literal bytes of OpusHead or, for Vorbis, 1 and vorbis; a comment packet and, for Vorbis, a setup packet, at most 16 MiB, on any ordinary pages of the same stream and alone on the last of them; then well-formed pages to the end. What is found is that comment and the audio pages |
| OggAcceptance.StreamIsRead | server/internal/tags/ogg.go:93-173 | every such stream, whatever pages its header packets are cut into, is read as its codec, comment, trailing bytes and setup packet, with the audio left unread |
| OggAcceptance.SegmentCountIsExactIff | server/internal/tags/ogg.go:114-116 | the count of segments tells one packet on a first page from several if and only if the page's data is shorter than 255 bytes, or one byte short of a multiple of 255, or longer than any page's |
| OggAcceptance.FirstPageRefusals | server/internal/tags/ogg.go:94-116 | what a first page is refused for, and with which of the two errors |
| OggAcceptance.UnfinishedRefusals | server/internal/tags/ogg.go:121-131 | while header packets are missing, the end of the input is malformed and a page of another stream unsupported |
| OggAcceptance.HeaderPageRefusals | server/internal/tags/ogg.go:134-151 | headers over 16 MiB are malformed, and headers that end inside a page are unsupported |
| OggAcceptance.PacketRefusals | server/internal/tags/ogg.go:153-172 | the answer for any complete header packets: malformed unless the literal bytes of the comment and setup packets are there and the comment parses |
| OggAcceptance.PayloadIs | server/internal/tags/ogg.go:175-199 | what is fingerprinted is each page's segment table and data, in order |
| OggStreams.CopyOggAudio | server/internal/tags/ogg.go:175-199 | the copy loop moves only sequence numbers of the stream's own pages, modulo 2^32, and fingerprints segment tables and data |
| OggStreams.RewriteOgg | server/internal/tags/ogg.go:58-91 | the rewrite: identification page kept, comment replaced, headers paged again, audio copied |
| OggMeaning.ReadPaginated | server/internal/tags/ogg.go:118-151 | packets that were paginated and printed are gathered again, if and only if they fit the limit |
| OggMeaning.RewrittenReads | server/internal/tags/ogg.go:58-173 | a rewritten stream is accepted again with the same identification page, setup packet and trailing bytes, if and only if its headers stay within the limit; its audio pages differ in sequence number only |
| OggMeaning.ShiftKeeps | server/internal/tags/ogg.go:175-199 | moving sequence numbers keeps, page by page, flags, granule positions, serial numbers, segment tables and data, and every page of another stream whole |
| OggMeaning.RewriteKeepsAudio | server/internal/tags/ogg.go:45-91 | inspecting the rewritten stream gives exactly the new metadata and the old audio, if and only if the headers stay within the limit |
| OggMeaning.ShiftsAdd | server/internal/tags/ogg.go:186-188 | sequence shifts add up modulo 2^32 |
| OggMeaning.RewritesCompose | server/internal/tags/ogg.go:58-91 | rewriting twice equals the second rewrite alone byte for byte, if and only if the intermediate headers can be read back |
| OggMeaning.RewriteKeepsNumbering | server/internal/tags/ogg.go:79-87 | a stream numbered 0, 1, 2, ... stays so, whatever the number of header pages becomes |
| VorbisComments.ParseComment | server/internal/tags/vorbis.go:23-54 | the parsing loop, with its refusals |
| VorbisComments.PrintComment | server/internal/tags/vorbis.go:56-65 | the printing loop |
| VorbisComments.ParsePrinted | server/internal/tags/vorbis.go:23-65 | a printed comment parses to itself with what follows left unread |
| VorbisComments.ParsedIsPrinted | server/internal/tags/vorbis.go:23-65 | whatever parses is the printed comment followed by the unread rest |
| VorbisComments.ReplaceFields | server/internal/tags/vorbis.go:72-95 | the loops that add the written fields and keep the unmanaged ones in order |
| VorbisComments.ReadMetadata | server/internal/tags/vorbis.go:97-126 | the first value of every key, aliases second |
| VorbisComments.WrittenIsRead | server/internal/tags/vorbis.go:72-126 | metadata written into any comment is read back, for numbers 0..9999 |
| VorbisComments.WithTwice | server/internal/tags/vorbis.go:72-95 | only the last replacement counts and no unmanaged field is lost by the first |
| VorbisComments.MetadataIs | server/internal/tags/vorbis.go:97-126 | every field of any writer's comment, given the first value under each name: which names are read, which three have a second one, and how numbers are taken from texts such as "7/12" |
| VorbisComments.RewriteKeepsFields | server/internal/tags/vorbis.go:72-95 | a rewritten comment has the vendor as it was, the written fields, then every field under another name, unchanged and in order |
| VorbisComments.WrittenNames | server/internal/tags/vorbis.go:72-95 | the ten written fields by name |
| Flac.ReadFlacMetadata | server/internal/tags/flac.go:75-107 | the block-reading loop with its refusals |
| Flac.PlanBlocks | server/internal/tags/flac.go:49-54 | the planning loop; which blocks it keeps, and in which order, is stated by Flac.RewriteKeepsBlocks |
| Flac.RewriteFlac | server/internal/tags/flac.go:38-73 | the whole rewrite, in the order of its checks; what it accepts and keeps is stated by Flac.AcceptedIff and Flac.RewriteKeepsBlocks |
| Flac.AcceptedIff | server/internal/tags/flac.go:25-107 | exactly these files are accepted: the marker, a STREAMINFO of 34 bytes first, blocks of at most 16 MiB of which only the last says so, then frames; they can be rewritten if and only if the new comment fits a block |
| Flac.RewriteKeepsBlocks | server/internal/tags/flac.go:38-73 | in the bytes written, and in what a reader finds in them, block 0 is the upload's, block 1 the only comment, and the rest are exactly the upload's other blocks but padding and comments, unchanged and in order |
| Flac.ReadIsPrinted | server/internal/tags/flac.go:55-107 | whatever is read is those blocks printed, followed by the frames |
| Flac.CommentIsFirst | server/internal/tags/flac.go:109-119 | what is found is the first comment block that parses |
| Flac.RewrittenReads | server/internal/tags/flac.go:38-107 | a rewritten file re-reads as the planned blocks and identical frames, if and only if its metadata stays within the limit |
| Flac.RewriteKeepsAudio | server/internal/tags/flac.go:25-73 | inspecting it gives the new metadata and the same audio, if and only if within the limit |
| Flac.RewritesCompose | server/internal/tags/flac.go:38-73 | rewriting twice equals the second rewrite alone byte for byte, if and only if the intermediate file is within the limit |
| TagText.LeadingNumber | server/internal/tags/tags.go:136-144 | the digits at the start of the trimmed text, at most maxDigits of them |
| TagText.NumberReadBack | server/internal/tags/tags.go:136-158 | printed numbers and years 0..9999 are read back |
| TagText.LeadingDigits | server/internal/tags/tags.go:136-144 | what is read from a text is the number its leading digits spell and nothing of what follows |
| TagText.WrittenNumbers | server/internal/tags/tags.go:146-158 | a written year has four digits, any other number none too many, and 0 writes nothing |
| ByteOrder.Syncsafe | server/internal/tags/id3.go:428-437 | the loop decodes seven bits a byte and refuses a set top bit |
| ByteOrder.GetPutSyncsafe | server/internal/tags/id3.go:428-441 | decoding inverts encoding below 128^k |
| ByteOrder.WordsAreSpelled | server/internal/tags/id3.go:272-280 | the words of the formats, byte for byte |
| Id3Text.RemoveUnsyncLoop | server/internal/tags/id3.go:444-453 | the skipping loop removes the zero after every 0xFF |
| Id3Text.RemoveUnsyncUndoes | server/internal/tags/id3.go:443-453 | removing undoes what the standard's unsynchronisation adds, for any data |
| UnicodeText.EncodeDecoded | server/internal/tags/id3.go:379-385 | a valid UTF-8 string is the encoding of its code points |
| UnicodeText.Utf16RoundTrip | server/internal/tags/id3.go:379-418 | code points survive UTF-16 with surrogates |
| UnicodeText.RunesOfEncoded | server/internal/tags/id3.go:379-385 | any code points are read back from their UTF-8 encoding, which is valid |
| UnicodeText.ToValidIsValid | server/internal/tags/id3.go:399-426 | replacing invalid bytes gives valid UTF-8 and leaves valid UTF-8 alone |
| UnicodeText.RunIsReplacedOnce | server/internal/tags/id3.go:399-426 | a run of stray bytes becomes one replacement character |
| Id3Text.Latin1Decodes | server/internal/tags/id3.go:399-426 | ISO-8859-1 text of any writer: each byte before the trailing zeros is the code point of that number |
| Id3Text.Utf16InAnyOrder | server/internal/tags/id3.go:399-426 | UTF-16 of any writer, with surrogates: in the byte order of its mark, and with the higher byte first without one |
| Id3Text.DecodedIsValid | server/internal/tags/id3.go:399-426 | whatever bytes in whatever encoding, what is read is valid UTF-8; and is the text itself where that was valid UTF-8 and says so |
| Id3Text.TerminatorIs | server/internal/tags/id3.go:350-361 | the first string of a frame ends at its first zero code unit |
| Id3Text.WrittenEncodings | server/internal/tags/id3.go:363-385 | what is written is UTF-16 after a little-endian mark in version 3 and UTF-8 in version 4; comments have the language "und" and an empty description |
| Id3Text.TextRoundTrip | server/internal/tags/id3.go:363-426 | an encoded text frame decodes to its NUL-free valid text, in UTF-8 and UTF-16 |
| Id3Text.CommentRoundTrip | server/internal/tags/id3.go:336-378 | an encoded comment splits into an empty description and its text, in both versions |
| Id3.ReadTagFrames | server/internal/tags/id3.go:128-142 | the frame-reading loop with its refusals |
| Id3.ReadTagIsWellFormed | server/internal/tags/id3.go:76-143 | whatever is read is a version 3 or 4 tag of complete frames |
| Id3.PrintTag | server/internal/tags/id3.go:212-227 | the size loop and the printing loop |
| Id3.ReadPrinted | server/internal/tags/id3.go:76-143 | a printed tag is read back with the audio unread, if and only if it is at most 16 MiB |
| Id3.ReplaceFrames | server/internal/tags/id3.go:174-210 | written frames first, then every unmanaged frame in order |
| Id3.ReadMetadata | server/internal/tags/id3.go:229-270 | the loop over frames; what it finds in a tag of any writer is stated by Id3Reading.MetadataIs |
| Id3Reading.MetadataIs | server/internal/tags/id3.go:229-270 | every field of any writer's tag, by the literal frame names: each text is the first that is not empty, each number that of the last frame, the comment the first without a description |
| Id3Reading.FrameBodyIs | server/internal/tags/id3.go:282-303 | what a frame says under every combination of its format flags, in both versions |
| Id3Reading.TagsAreReadIff | server/internal/tags/id3.go:76-143 | exactly these beginnings are read: no tag, or a tag laid out as the standard has it with its extended header, unsynchronisation, padding and footer, within the limit; of other versions only the length is taken |
| Id3Reading.RewriteKeepsFrames | server/internal/tags/id3.go:174-210 | a rewritten tag is the written frames, then exactly the upload's frames of other kinds, unchanged and in order |
| Id3Reading.WrittenTexts | server/internal/tags/id3.go:174-210 | the nine written text frames by name and value, in both versions |
| Id3.WrittenIsRead | server/internal/tags/id3.go:174-270 | metadata with NUL-free valid texts and numbers 0..9999 written into any parsed tag is read back, in both versions |
| Id3.WithTwice | server/internal/tags/id3.go:174-210 | only the last replacement counts; no unmanaged frame is lost, changed or moved by the first |
| Id3.KeptIsUnmanaged | server/internal/tags/id3.go:201-208 | every kept frame was in the tag and is not one a rewrite replaces |
| Id3.UnmanagedHasNoEffect | server/internal/tags/id3.go:229-270 | a frame that a rewrite keeps never contributes metadata |
| Mp3.CopyAudio | server/internal/tags/id3.go:145-172 | however the input is split into reads, the held-back copy writes it all, less its last 128 bytes if they start with "TAG" |
| Mp3.RewriteMp3 | server/internal/tags/id3.go:53-72 | the whole streaming rewrite |
| Mp3.RewriteKeepsAudio | server/internal/tags/id3.go:40-72 | inspecting a rewritten file gives the new metadata; its payload is the source's if and only if the stripped audio does not end in another ID3v1 block |
| Mp3.RewritesCompose | server/internal/tags/id3.go:53-72 | rewriting twice equals the second rewrite alone byte for byte if the intermediate tag is readable and no second ID3v1 block was there, and only if, when the second rewrite succeeds |
| Mp3.SecondBlockIsLost | server/internal/tags/id3.go:145-172 | an MP3 that passes the upload check and whose payload a rewrite changes |
| TrackTable.SumSizes | server/internal/store/tracks.go:264-272 | an owner's sum of sizes, in any order of visiting the rows |
| TrackTable.UsedIsTheSum | server/internal/store/tracks.go:208-213 | an owner is charged for all of their tracks, ready or not, each once at its size, and for nobody else's |
| Quota.Library.ReservePending | server/internal/store/tracks.go:192-227 | reserves only below the pending limit and within the quota; otherwise nothing changes |
| Quota.ReservedIff | server/internal/store/tracks.go:192-227 | a reservation is made if and only if the owner has fewer than the allowed uploads incomplete and is within the quota with it, which the check decides without adding the sizes |
| Quota.Library.ReserveCopies | server/internal/store/playlists.go:432-463 | adds the sizes up in 64 bits, then reserves every copy or none |
| Quota.CopiesReservedIff | server/internal/store/playlists.go:426-460 | copies are reserved if and only if the playlist is somebody else's and all of them fit the quota, while their sizes add up to less than 2^63 |
| Quota.Library.SaveShared | server/internal/store/playlists.go:419-508 | all copies become ready, or the library is as before |
| Quota.SavedCopiesAre | server/internal/store/playlists.go:448-508 | a saved playlist adds one ready track of the saver's for every copy, with its size and metadata and an object of its own, and changes no other track |
| Quota.Library.SaveTrackCopy | server/internal/store/fingerprints.go:174-229 | one copy becomes ready, or the library is as before |
| Quota.Library.CleanupStalePending | server/internal/store/tracks.go:386-444 | all stale reservations go, or on a storage error none |
| Quota.CopiesKeepQuotaIff | server/internal/store/playlists.go:443-450 | an accepted shared save keeps the quota if and only if the sizes add up to less than 2^63 |
| Quota.CopiesAreBounded | server/internal/store/playlists.go:419-450 | what a shared playlist shows adds up to at most the quota for each distinct owner of its tracks |
| Quota.CopiesCanOverflow | server/internal/store/playlists.go:443-450 | under any quota of at least 2^62, step by step from an empty library: two owners' stored tracks are saved from one playlist by a third, whose library is then over the quota |
| Quota.GrowthCheckExactIff | server/internal/store/tagjobs.go:155-174 | the check of a grown rewrite decides exactly whether the new total is over the quota, if and only if that total is below 2^63 |
| Quota.NeverOverQuota | server/internal/store/tracks.go:189-227 | in every run of reservations, copies, finished and discarded uploads, rewrites, deletions and cleanups no owner exceeds the quota, if shared saves have fewer than 2^63 / quota distinct owners and the quota plus a rewritten file's size stays below 2^63 |
| Quota.ResizeKeepsQuotaIff | server/internal/store/tagjobs.go:155-174 | a rewrite the wrapped check lets through keeps its owner within the quota if and only if the new total is below 2^63 |
| Quota.SwapIsResize | server/internal/store/tagjobs.go:155-185 | a successful swap is one of those rewrites, and keeps the quota if and only if the new total is below 2^63 |
| Playlists.Store.ReplaceTracks | server/internal/store/playlists.go:228-299 | the delete-and-insert loop with rollback |
| Playlists.Store.SetCollabToken | server/internal/store/playlists.go:674-687 | only the owner sets the link, and no two playlists share one |
| Playlists.Store.Join | server/internal/store/playlists.go:692-715 | adds the user to the playlist with that link; joining again or one's own changes nothing |
| Playlists.Store.RemoveMember | server/internal/store/playlists.go:721-756 | takes the member and the member's tracks out, or nothing |
| Playlists.JoinLetsEdit | server/internal/store/playlists.go:692-715 | joining gives the one who joins, and nobody else, the right to edit |
| Playlists.RemovalEndsEditing | server/internal/store/playlists.go:721-756 | a removal is done if and only if the actor is the owner or the member leaving; then the member can no longer edit, exactly the member's tracks are gone, and everybody else's rights are as before |
| Playlists.OldLinkStopsWorking | server/internal/store/playlists.go:671-687 | the old collaboration link leads nowhere once the owner sets another or none, and those who joined stay |
| Playlists.ReplaceIsExact | server/internal/store/playlists.go:223-299 | a replacement succeeds if and only if the caller may edit, the list is duplicate-free, every track is the caller's own ready one or already there, and a mere member drops nobody else's; then the list is exactly the requested one, otherwise nothing changes |
| Playlists.WithoutKeepsOthers | server/internal/store/playlists.go:747-752 | removing a member's tracks keeps exactly everybody else's |
| Playlists.PlaylistsStayProper | server/internal/store/playlists.go:69-81 | in every reachable state each track of a playlist is ready, there once, and its owner's or a current member's; links are unique |
| Playlists.TracksLeaveRightfully | server/internal/store/playlists.go:223-299 | a track leaves a playlist only by its deletion, by its owner or the playlist's, or with its owner's membership |
| Transcriptions.Store.Queue | server/internal/store/transcriptions.go:26-49 | inserts a job or restarts a failed one unless the owner has two others active |
| Transcriptions.Store.Claim | server/internal/store/transcriptions.go:50-61 | leases a queued or expired job that waited longest, stamped with the time |
| Transcriptions.Store.Finish | server/internal/store/transcriptions.go:62-66 | stores a result only for the lease the row still carries |
| Transcriptions.QueuedIff | server/internal/store/transcriptions.go:26-49 | a job is queued if and only if the track is the caller's own ready one, fewer than two of the caller's other tracks are under way, and there is no job yet or the last one failed |
| Transcriptions.CrashedJobsAreTakenOver | server/internal/store/transcriptions.go:50-66 | a crashed worker's job goes to the next claim exactly when its lease is over; a report in time is stored as it is and ends the job |
| Transcriptions.RunsAreSound | server/internal/store/transcriptions.go:26-66 | in every run, whatever the clocks do, a job being processed carries its latest claim's timestamp, a stored result came from a claim with that timestamp, and no owner has more than two active jobs |
| Transcriptions.FinishTakesEffectIff | server/internal/store/transcriptions.go:62-66 | in every run a result is taken if and only if the job is being processed and the worker's claim has the latest claim's timestamp |
| Transcriptions.StaleIsTakenIff | server/internal/store/transcriptions.go:50-66 | in every run some stale claim would be taken if and only if the job is being processed and its latest timestamp was given to an earlier claim too |
| Transcriptions.ResultsAreLatest | server/internal/store/transcriptions.go:26-66 | in every run whose timestamps and lease cut-offs come from one clock, with stale and crashed workers, results are only ever stored by the latest claim |
| Transcriptions.LateAndDone | server/internal/store/transcriptions.go:62-66 | in every run a result with another timestamp than the latest changes nothing, and "done" is never left while the track exists |
| Transcriptions.EqualStampsConfuse | server/internal/store/transcriptions.go:50-66 | step by step from nothing: with the program's clock ahead of the database's by more than the lease a job is claimed twice at one instant, and the first worker's result is stored as the second's |
| Sessions.Sessions.Check | server/internal/auth/sessions.go:52-79 | one check against the cache and the lookup, and the new cache |
| Sessions.Sessions.Forget | server/internal/auth/sessions.go:46-50 | drops the user's entry |
| Sessions.UndisturbedCheck | server/internal/auth/sessions.go:52-79 | with nobody in between a check is answered from an unexpired entry, otherwise by the database, whose answer is kept for the time to live; without an answer nothing is accepted |
| Sessions.StoreKeepsOthers | server/internal/auth/sessions.go:70-74 | a store keeps everybody else's entries if and only if there is room |
| Sessions.AcceptedWasCurrent | server/internal/auth/sessions.go:52-79 | with read, lookup and store racing with Forget and revocations, an accepted epoch was current at some instant later than the request's start less the time to live |
| Sessions.RevokedIsRefused | server/internal/auth/sessions.go:20-24 | a token revoked at least the time to live before a request starts is refused |
| Sessions.CacheStaysBounded | server/internal/auth/sessions.go:70-74 | the cache never holds more than max(1, maxEntries) |
| Sessions.StillAcceptedIff | server/internal/auth/sessions.go:44-79 | after a revocation an old token can still be accepted if and only if its epoch is cached in an entry that a check can still read, or is the answer of a lookup under way whose check carries it or will leave such an entry |
| Sessions.ForgottenIsStillAcceptedIff | server/internal/auth/sessions.go:44-50 | right after Forget, if and only if such a lookup is under way |
| Sessions.LateStoreOutlivesForget | server/internal/auth/sessions.go:58-74 | step by step from nothing: a lookup under way at the revocation and Forget stores the old epoch afterwards, and a request that begins later is accepted with a token no longer current |
| RateLimiter.RateLimiter.Allow | server/internal/httpapi/rate_limit.go:53-85 | the verdict and the new table of one call, open or closed |
| RateLimiter.FullIff | server/internal/httpapi/rate_limit.go:58-75 | there is no room for a new key if and only if as many other keys as fit have buckets still running |
| RateLimiter.RefusedHadEnough | server/internal/httpapi/rate_limit.go:53-85 | in every run, who is refused by the closed limiter passed as often as allowed within the window that ends now or met a full table, and is told to come back within a window |
| RateLimiter.TableStaysBounded | server/internal/httpapi/rate_limit.go:53-85 | the table never exceeds its size in any run |
| RateLimiter.WindowHoldsFew | server/internal/httpapi/rate_limit.go:53-85 | the closed limiter lets at most 2*max(1, Requests) calls of a key through in any half-open window |
| RateLimiter.PassesAreFarApart | server/internal/httpapi/rate_limit.go:53-85 | the call that many passes later comes more than a window later |
| RateLimiter.RefusedThenAccepted | server/internal/httpapi/rate_limit.go:76-80 | a tracked key that was refused is refused again, with the delay that is left, however often it retries too early; once the delay has passed it is accepted if and only if the limiter is open, still tracks it, or has room for it |
| IntervalLimiter.Limiter.Wait | server/internal/lyrics/lrclib.go:221-246 | the delay handed out and the next free slot |
| IntervalLimiter.NextCaller | server/internal/lyrics/lrclib.go:221-246 | after any callers the next one gets the first moment an interval after the last slot, or at once when that is past, and is turned away if and only if that moment is more than maxWait ahead |
| IntervalLimiter.SlotsAreSpaced | server/internal/lyrics/lrclib.go:213-246 | slots lie at least an interval apart in the order of the requests, each at most maxWait ahead |
| IntervalLimiter.FewWaitAtOnce | server/internal/lyrics/lrclib.go:213-246 | at most floor(maxWait / interval) + 1 callers wait at once |
| Fingerprint.Pack | server/internal/fingerprint/fingerprint.go:101-108 | the packing loop |
| Fingerprint.DecodeEncoded | server/internal/fingerprint/fingerprint.go:101-117 | unpacking inverts packing, ignoring left-over bytes |
| Fingerprint.EncodeDecoded | server/internal/fingerprint/fingerprint.go:101-117 | packing inverts unpacking on whole items |
| Fingerprint.LoopVisitsFits | server/internal/fingerprint/fingerprint.go:154-158 | the loop's bounds are exactly the alignments with enough overlap, so the inner continue is unreachable |
| Fingerprint.Compare | server/internal/fingerprint/fingerprint.go:136-171 | the search returns max(0, 1 - 2r) for the least bit-error rate r over all alignments, and the first alignment that has it when r < 1; the errors are counted as Fingerprint.WhatFits says |
| Fingerprint.CountsBits | server/internal/fingerprint/fingerprint.go:161-163 | the errors between two items are the number of bit positions at which they differ |
| Fingerprint.FlippedBitCountsOne | server/internal/fingerprint/fingerprint.go:161-163 | flipping one bit of an item changes its errors by exactly one |
| Fingerprint.CountsPairs | server/internal/fingerprint/fingerprint.go:159-163 | the errors of an alignment are the number of (item, bit) pairs that differ |
| Fingerprint.WhatFits | server/internal/fingerprint/fingerprint.go:136-163 | an alignment is tried if and only if three quarters of the snippet's items, at least one, fall inside the track; its errors are the differing bits of those items |
| Fingerprint.FewErrorsScoreWell | server/internal/fingerprint/fingerprint.go:124-171 | if some fitting alignment differs in at most d bits, the confidence is at least 1 - 2d / (32 * overlap) |
| Fingerprint.OneBitAnItem | server/internal/fingerprint/fingerprint.go:124-171 | one flipped bit in every item still scores 0.9375 |
| Fingerprint.BestIsUnique | server/internal/fingerprint/fingerprint.go:136-171 | that result is determined by the inputs |
| Fingerprint.FullConfidenceIff | server/internal/fingerprint/fingerprint.go:124-130 | confidence lies in [0, 1] and is 1 if and only if no bit differs at some alignment |
| Fingerprint.NoErrorsSameItems | server/internal/fingerprint/fingerprint.go:161-163 | no differing bit means the same items |
| Fingerprint.Identify | server/internal/fingerprint/match.go:29-58 | the margin rule picks exactly the first greatest confidence plus 0.03 for own tracks among matches of at least MinConfidence |
| Fingerprint.OwnTrackIsPreferred | server/internal/fingerprint/match.go:21-58 | between a stranger's track and one's own, one's own is found if and only if it matches and scores less than 0.03 lower, whichever is visited first; nothing below 0.35 matches |
| Fingerprint.OrderOnlyBreaksTies | server/internal/fingerprint/match.go:18-21 | visiting the same candidates in another order changes the winner only among ties |

## Left out

- HTTP deletion of a track during a rewrite (server/internal/httpapi/tracks.go:685-706): it removes objects before the row, from an earlier read; the storage guarantees are stated without it.
- SQL isolation, planning and locking beyond atomic transactions and the row locks of a collection batch.
- Object storage, fpcalc, the transcription service, mail and HTTP: their answers are parameters.
- SHA-256, HMAC, JWT and bcrypt: payloads are compared as bytes, tokens only by their epoch.
- Fingerprint.Compare: float64 rounding; rates and confidences are exact reals.
- Fingerprint.Identify: float64 rounding of the margin, and a cancelled context, which ends the walk with an error.
- Mp3.CopyAudio: the read buffer and the aliasing of the held slice; the chunks are values.
- TagStore.Store.ClaimTagRewrite: the order among waiting tracks (oldest edit first) and rows skipped because locked; any waiting track may be picked, which allows more runs.
- TagStore.Store.CompleteTagRewrite: the advisory lock, since transactions are atomic.
- RewriteProtocol: the text of keys beyond track, version and attempt; partial uploads (a put lands whole or not at all); uploads in progress (a track enters when it is ready).
- Sessions: the HMAC and expiry of the token itself.
- RewriteChecked: the comparison of the recorded key is not in the program; runs in which it would hold are.
- Playlists: names, sharing, likes and reviews; positions are the order of the list.
- Transcriptions: the worker's HTTP exchange; a report is a transcription or a failure.
- Tags: loudness fields, and the formats with no tag writer.
- Routing, JSON, templates, CORS, public pages, bots, link and e-mail codes, likes, history and title normalisation: mostly one-branch facts.
