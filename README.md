# streamlist in Dafny

A model of the core of streamlist, a self-hosted service that archives
YouTube videos as audio files and serves them as playlists. The model is
written in Dafny and proved.

The centre of the model is the archiver's job scheduler (`archive.dfy`). It
has a FIFO queue of jobs, a map of active jobs, a map of failures and a
concurrency limit. Its operations are enqueue, cancel, one manager tick, and
the completion that runs when an archive job ends. The per-job pipeline
(`pipeline.dfy`) runs metadata, thumbnail, download URL, video download and
transcode, in that order. It uses temporary files that are renamed into
place only on success. The network, ffprobe, ffmpeg and local I/O failures
are oracle inputs (`Pipeline.Tools`). The filesystem is a path-to-content map
(`Pipeline.FileSystem`).

Around the scheduler, the model covers:
- the playlist operations and file naming of `soundscape.go`, together with its older copy `streamlist.go` (`playlist.dfy`);
- the HTTP handlers' library filter, pager, import filter, M3U text and status endpoint (`handlers.dfy`);
- the template helpers and the access decision of the web layer (`web.dfy`);
- the disk figures and random-number decoding of `utils.go` (`disk.dfy`);
- the log tail (`logtail.dfy`);
- the YouTube search result extraction (`youtube_search.dfy`);
- the video id, file naming and stream assembly of the YouTube client (`youtube_video.dfy`).

`lengthtext.dfy` proves that the length printed by the web layer is read
back by the search parser.

Shared pieces:
- `wrappers.dfy`: `Option` and `Result`.
- `goint.dfy`: int64/uint64 wrap-around and Go's truncating division.
- `text.dfy`: the `strings`/`strconv`/`filepath` functions the code calls.
- `seqs.dfy`: order-preserving filtering and small sequence identities.
- `sorting.dfy`: `sort.Strings` as an insertion sort proved to sort and permute.

Go maps iterate in an unspecified order. Loops over them pick keys with
`:|`, so each proof covers every order.

## Model

| member | source | states |
|---|---|---|
| Archive.Job.constructor | internal/archiver/archiver.go:175-186 | a new job has the given id and source, is not cancelled, and has image, video and audio paths `datadir/id.jpg`, `.mp4`, `.m4a` |
| Archive.Job.Cancel | internal/archiver/archiver.go:123-125 | firing a job's cancel function marks it cancelled |
| Archive.JobPathsDistinct | internal/archiver/archiver.go:182-184 | the three job paths and their `.downloading`/`.transcoding` temporaries are six distinct paths |
| Archive.Archiver.constructor | internal/archiver/archiver.go:39-49 | a new archiver has an empty queue, no active or failed jobs, the given limit, and satisfies the scheduler invariant |
| Archive.Archiver.SetConcurrency | internal/archiver/archiver.go:63-67 | only the limit changes; no active job is evicted and the invariant holds |
| Archive.Archiver.GetConcurrency | internal/archiver/archiver.go:69-73 | returns the current limit |
| Archive.Archiver.Queued | internal/archiver/archiver.go:188-195 | true iff some queued job has the id |
| Archive.Archiver.QueuedJobs | internal/archiver/archiver.go:76-86 | exactly the queued ids (as a multiset), sorted ascending |
| Archive.Archiver.ActiveJobs | internal/archiver/archiver.go:88-98 | exactly the active keys, sorted ascending |
| Archive.Archiver.InProgress | internal/archiver/archiver.go:100-112 | true iff the id is queued or active |
| Archive.Archiver.Add | internal/archiver/archiver.go:133-145 | no-op when the id is active or queued; otherwise exactly one fresh, uncancelled job with that id and source, and with the image, video and audio paths of that id under datadir, is appended at the back; active, failed and the limit are unchanged; queue ids stay distinct and disjoint from active |
| Archive.Archiver.Remove | internal/archiver/archiver.go:115-130 | no-op unless the id is active (a queued id stays queued); otherwise that job is cancelled and only its key leaves `active` |
| Archive.Archiver.Tick | internal/archiver/archiver.go:205-213 | when the queue is non-empty and `len(active) < concurrency`, the head alone moves to `active[head.id]`; otherwise nothing changes; a tick never takes `active` above the limit; the invariant holds |
| Archive.Archiver.Complete | internal/archiver/archiver.go:224-232 | deletes `active[job.id]` by id and records `failed[job.id]` exactly when the run returned an error |
| Archive.Archiver.Archive | internal/archiver/archiver.go:220-270 | runs the pipeline with the job's cancellation state, then completes: the outcome and files are those of the pipeline, `failed` gains the id exactly on a step failure, and `active` loses it |
| Archive.FifoScenario | internal/archiver/archiver.go:133-145 | with limit 1, adding "a", "b", "a" promotes "a", blocks while it runs, and promotes "b" after "a" completes |
| Archive.RemoveReAddScenario | internal/archiver/archiver.go:224-232 | a job removed and re-added before the old run completes loses its active entry to the old run's completion, which deletes by id |
| Pipeline.Download | internal/archiver/archiver.go:272-308 | succeeds iff not cancelled, the response has status 200 and no local I/O step fails; the directory becomes AfterDownload |
| Pipeline.DownloadIsAtomic | internal/archiver/archiver.go:286-307 | the target gets the response body only on success and is otherwise untouched; the `.downloading` file never survives; no other path changes |
| Pipeline.AudioCodec | internal/archiver/archiver.go:348-359 | `"copy"` iff some probed stream is audio/aac, otherwise `"aac"` |
| Pipeline.CodecRule | internal/archiver/archiver.go:354-358 | the codec rule as an existential over the probed streams, with an mp3-only and an aac-with-video example |
| Pipeline.RunTranscode | internal/archiver/archiver.go:335-379 | succeeds iff ffmpeg and ffprobe are found, the probe, the ffmpeg run and the rename succeed, and the run was not cancelled; the directory becomes AfterTranscode |
| Pipeline.TranscodeIsAtomic | internal/archiver/archiver.go:361-377 | the audio file gets ffmpeg's output only on success and is otherwise untouched; the `.transcoding` file never survives; no other path changes |
| Pipeline.RunPipeline | internal/archiver/archiver.go:234-269 | the outcome is the first failing step in the order metadata, thumbnail, download URL, video, transcode (an empty format list panics), and the directory is AfterPipeline |
| Pipeline.PipelineAudioAtomic | internal/archiver/archiver.go:260-269 | the audio file is written, with the transcoder's output, iff the run succeeds; otherwise it is as before |
| Pipeline.PipelineRemovesVideo | internal/archiver/archiver.go:252-262 | once the download URL is obtained the raw video is gone on every exit; before that it is untouched |
| Pipeline.PipelineLeavesNoTemporaries | internal/archiver/archiver.go:292 | no `.downloading` or `.transcoding` file is left by a run |
| Pipeline.PipelineThumbnailFallback | internal/archiver/archiver.go:240-250 | the image is the maxres body, else the hq body; only when both fail is the image untouched and the run failed at the thumbnail step |
| Playlist.MediaFile | soundscape.go:32-37 | fails (the panic) exactly on an empty id, else `datadir/id.media` |
| Playlist.ListFile | soundscape.go:227-232 | fails (the panic) exactly on an empty id, else `datadir/id.playlist` |
| Playlist.MediaFilesAreJobFiles | soundscape.go:187-197 | a media's image, video and audio files are the paths the archiver's job for that id writes |
| Playlist.RecordFilesDistinct | streamlist.go:92-97 | distinct ids get distinct record files, and no media record path is a list record path |
| Playlist.NewListIdIsValid | soundscape.go:234-246 | the decimal id of a new list never makes listFile panic |
| Playlist.List.HasMedia | soundscape.go:261-268 | true iff some listed media has the id |
| Playlist.List.TotalLength | soundscape.go:270-275 | the int64 sum of lengths, equal to the exact sum when it fits |
| Playlist.AddMediaTotal | streamlist.go:355-358 | adding a media adds its length to the total |
| Playlist.List.Save | soundscape.go:227-258 | panics with "invalid list id" on an empty id and writes nothing; otherwise records the list exactly when the write succeeds |
| Playlist.List.AddMedia | soundscape.go:287-290 | appends the media at the end with no duplicate check, then saves (with Save's panic and write failure) |
| Playlist.List.RemoveMedia | soundscape.go:292-305 | no-op without a save when the id is absent; otherwise the list becomes RemoveId(old), then saves (with Save's panic and write failure) |
| Playlist.RemoveIdMembers | streamlist.go:360-373 | RemoveId keeps exactly the entries with another id, and leaves none with that id |
| Playlist.RemoveIdAbsent | streamlist.go:360-373 | removing an absent id changes nothing |
| Playlist.List.ShuffleMedia | soundscape.go:277-285 | the new list is the old one read through the permutation, so it has the same multiset of medias; then it saves (with Save's panic and write failure) |
| Playlist.PermutedMultiset | streamlist.go:345-353 | reading a sequence through a permutation of its indices keeps its multiset |
| Playlist.SumAppend | streamlist.go:338-343 | the total of a concatenation is the sum of the totals |
| Playlist.WrapInt64Add | soundscape.go:272-273 | accumulating in int64 equals wrapping the exact sum once |
| Playlist.IndexOfId | soundscape.go:126-131 | the index of the first media with the id, or -1 iff none has it |
| Playlist.FindMedia | soundscape.go:121-132 | a listing error is returned; otherwise the first media with the id, else ErrMediaNotFound |
| Playlist.LoadedEmpty | soundscape.go:52-76 | the loaded list is empty iff no job id's record loads, and has one media per id when all load |
| Playlist.LoadMedias | soundscape.go:52-63 | the loop yields Loaded: the records of the ids that load, in id order |
| Handlers.StringInSlice | handlers.go:58-65 | true iff the string is in the list |
| Handlers.FilterLibrary | handlers.go:170-184 | the loop yields KeepMatching: all medias for an empty query, else the matching ones |
| Handlers.KeepMatchingMembers | handlers.go:170-184 | a media is kept iff it is listed and the query is empty or its lowercased title, description, author and source contain the lowercased query |
| Handlers.KeepMatchingOrder | handlers.go:170-184 | filtering distributes over concatenation, so the library order is kept |
| Handlers.EmptyQueryKeepsAll | handlers.go:171 | skipping the filter for an empty query is the same as filtering, since every media matches "" |
| Handlers.MatchesIgnoresCase | handlers.go:177 | the query's case does not matter |
| Handlers.ParsePage | handlers.go:188 | the page parameter is the parsed int64, 0 on a syntax error, and the saturated bound on overflow |
| Handlers.ParsePageReadBack | handlers.go:188 | every int64 printed in decimal is read back as the same page number |
| Handlers.ParsePageOverflow | handlers.go:188-209 | digits worth more than 2^64-1 give MaxInt64 (MinInt64 after '-') whatever text follows them, so the last page is shown |
| Text.ParseIntOverflow | handlers.go:188 | `strconv.ParseInt` reports a range error saturated to the sign's bound as soon as its digits pass 2^64-1, before it reads the rest of the text |
| Handlers.PageLimit | handlers.go:193-201 | the page size is 20 above 100 medias, else 10: the 500 and 1000 cases are never reached |
| Handlers.ClampPage | handlers.go:189-191 | the page is raised to 1 and lowered to the last page; a page already in range is kept |
| Handlers.Paginate | handlers.go:186-216 | limit, last page `total/limit + 1`, pages `1..lastpage`, the clamped page, and a window with `0 <= begin <= end <= total` |
| Handlers.WindowInRange | handlers.go:212-216 | every page from 1 to the last has its window inside the media list, so `medias[begin:end]` is in range |
| Handlers.WindowsTile | handlers.go:202-216 | each page but the last ends where the next begins and is non-empty |
| Handlers.WindowsCover | handlers.go:202-216 | every media index is shown on page `index/limit + 1` |
| Handlers.LastPageEmpty | handlers.go:203 | the last listed page is empty exactly when the total is a multiple of the page size |
| Handlers.FilterImports | handlers.go:130-152 | the loop yields ImportResults: search results, none when the query is blank after TrimSpace or the search failed, without the known ones, in order |
| Handlers.ImportBlankQuery | handlers.go:132 | a query of nothing but white space lists no results |
| Text.TrimLeft | handlers.go:132 | strings.TrimSpace, front half: the result is a suffix, everything cut is white space, and it does not start with white space |
| Text.TrimRight | handlers.go:132 | strings.TrimSpace, back half: the result is a prefix, everything cut is white space, and it does not end with white space |
| Handlers.ImportResultsMembers | handlers.go:141-151 | for a query not blank after TrimSpace, a result is dropped iff its media record loads and it has audio or is in progress |
| Handlers.WriteM3U | handlers.go:411-422 | the output loop writes M3U: the header line, then two lines per media |
| Handlers.M3UReadBack | handlers.go:411-422 | split at newlines, the text is `#EXTM3U`, then for each media in order its `#EXTINF:<length>,<title>` line and its `<proto>://<host><prefix>/stream/<list>/<media>.m4a` URL, then the empty tail |
| Handlers.SplitRender | handlers.go:414-421 | lines each ended by a newline split back into the same lines plus an empty tail |
| Handlers.Proto | handlers.go:417-420 | the scheme is never empty: the forwarded protocol or `https` |
| Handlers.V1StatusJobs | handlers.go:550-562 | non-loopback clients get 404; a loopback client gets "busy" iff some queued or active job's media record loads, else "idle" |
| Web.Add | web.go:36-38 | int64 addition: exact when it fits, wrapped otherwise |
| Web.Sub | web.go:33-35 | int64 subtraction: exact when it fits, wrapped otherwise |
| Web.SubAdd | web.go:33-38 | subtracting what was added gives the operand back, even across wrap-around |
| Web.Nums | web.go:39-44 | `[0, 1, ..., max-1]`, empty when max is not positive |
| Web.DurationFields | web.go:56-62 | for a non-negative input, hours, minutes and seconds recompose it, with minutes and seconds in `0..59` |
| Web.DurationNegative | web.go:56-66 | negative inputs keep the sign in every field (truncating division): -61 prints `-1:-1` |
| Web.Pad2Digits | web.go:63-66 | a two-digit `%02d` field reads back as its number |
| Web.PrefixTrim | web.go:95-97 | the prefixed path starts with the prefix, and removing it gives the path back |
| Web.UserList | web.go:134-139 | the admin entries, followed by the read-only ones only for the "readonly" role |
| Web.Authorize | web.go:120-184 | the entry-by-entry loop reaches the decision Auth |
| Web.EntryFields | web.go:141-143 | an entry has the two fields read iff it contains ':' |
| Web.CheckListWellFormed | web.go:140-152 | over well-formed entries, the credentials are admitted iff some entry matches them, else 401 |
| Web.CheckListPanics | web.go:141-143 | a panic needs an entry without ':' |
| Web.AdminAccepted | web.go:131-148 | admin credentials open every protected role |
| Web.ReadOnlyOnlyForReadOnlyRole | web.go:134-152 | read-only credentials open the "readonly" role and get 401 on every other protected role |
| Web.PasswordStopsAtColon | web.go:140-144 | for an entry `u:p:q` the password compared is `p`; `p:q` is refused |
| Web.ProxyMode | web.go:155-183 | in proxy mode a protected handler runs iff the client is the proxy and the header is non-empty, with that user; otherwise redirect to the backlink if set, else 404 |
| Disk.Total | utils.go:18 | free + used in int64: exact when it fits, congruent modulo 2^64 otherwise |
| Disk.UnitsNonNegative | utils.go:19-28 | for non-negative bytes, MB is `x / 2^20`, GB is `x / 2^30`, and GB <= MB <= bytes |
| Disk.UnitsNegative | utils.go:19-28 | negative counts convert toward zero: the unit of -x is minus the unit of x |
| Disk.NewDiskInfoExact | utils.go:39-42 | when the counters fit, free is `Bavail*Bsize`, used is `(Blocks-Bavail)*Bsize`, and the total is `Blocks*Bsize` |
| Disk.NewDiskInfoError | utils.go:36-38 | a failed statfs is reported with its error |
| Disk.LittleEndianUint32 | utils.go:50 | the decoded number is in `[0, 2^32)` |
| Disk.LittleEndianRoundTrip | utils.go:50 | little-endian decode and encode are inverse |
| Disk.RandomNumber | utils.go:45-51 | succeeds iff the read does, with a number in `[0, 2^32)` whose little-endian bytes are the bytes read |
| LogTail.LinesNoNewline | internal/logtailer/logtailer.go:31-36 | without a newline the buffer is the single line |
| LogTail.LinesDropFirst | internal/logtailer/logtailer.go:32-36 | otherwise the text up to and including the first newline is dropped, the lines join back to the rest exactly, and no line holds a newline |
| LogTail.LinesCount | internal/logtailer/logtailer.go:36 | one line per newline of the shown text, plus one |
| LogTail.LinesTrailingNewline | internal/logtailer/logtailer.go:36 | a buffer ending in a newline shows a final empty line |
| LogTail.Sync | internal/logtailer/logtailer.go:48-50 | flushing never fails |
| YoutubeSearch.ParseLength | internal/youtube/search.go:98-114 | a parsed length lies within ±9223372036 seconds, the most an int64 count of nanoseconds holds |
| YoutubeSearch.ParseLengthNonNegative | internal/youtube/search.go:98-114 | a length text without a leading '-' never reads as negative |
| YoutubeSearch.ParseLengthMinutes | internal/youtube/search.go:101-112 | `M:S` reads as `M*60+S` seconds, and fails with "time: invalid duration" when that overflows the int64 nanoseconds |
| YoutubeSearch.ParseLengthHours | internal/youtube/search.go:101-112 | `H:M:S` reads as `H*3600+M*60+S` seconds, and fails with "time: invalid duration" when that overflows the int64 nanoseconds |
| YoutubeSearch.ParseLengthSigned | internal/youtube/search.go:102-112 | a leading '+' or '-' is the sign of the whole length: `-M:S` reads as `-(M*60+S)` |
| YoutubeSearch.ParseLengthMillis | internal/youtube/search.go:102-112 | an empty seconds field leaves `Mms`, read as M milliseconds and truncated to `M/1000` seconds |
| YoutubeSearch.ParseLengthFieldCount | internal/youtube/search.go:106-107 | any other number of fields is "invalid length text in ytdata" |
| YoutubeSearch.ExtractWellFormed | internal/youtube/search.go:80-132 | every extracted video has an id, a title, the hq thumbnail URL of its id and a length within the int64 nanoseconds bound |
| YoutubeSearch.ExtractNonNegative | internal/youtube/search.go:80-132 | when no length text starts with '-', every extracted length is non-negative |
| YoutubeSearch.ExtractAppend | internal/youtube/search.go:80-132 | extraction goes renderer by renderer, in input order, and a failure is final |
| YoutubeSearch.EmptyTitleFails | internal/youtube/search.go:91-95 | a renderer with an id but no title anywhere fails the whole search |
| YoutubeSearch.Search | internal/youtube/search.go:73-134 | an upstream error is passed on; an empty section list is an error; otherwise only the first section is extracted |
| LengthText.DurationReadBack | web.go:56-67 | every length from 0 to 9223372036 seconds printed by `duration` parses back, with the search length parser of internal/youtube/search.go:98-114, to the same seconds |
| YoutubeVideo.VideoFilesDistinct | internal/youtube/video.go:42-54 | `dir/ID.mp4`, `.jpg` and `.json` are distinct, and the first two are the archiver's video and image paths |
| YoutubeVideo.DownloadGuard | internal/youtube/video.go:81-83 | Download fails with "no streams" exactly when there are no streams |
| YoutubeVideo.VideoId | internal/youtube/video.go:151-171 | a successful id is never empty |
| YoutubeVideo.VideoIdCases | internal/youtube/video.go:152-171 | a non-URL is used verbatim; youtube.com takes `v`, else the path without `/v/`; youtu.be takes the path verbatim; other hosts keep the raw string; an empty id fails with the raw text quoted as `%q` |
| YoutubeVideo.VideoIdQuoted | internal/youtube/video.go:169-171 | the invalid-id message escapes a double quote in the raw text, as `%q` does |
| Text.QuoteBodyReadBack | internal/youtube/video.go:170 | the escapes `strconv.Quote` writes decode back to the original text, so quoting loses nothing |
| Text.QuoteReadBack | internal/youtube/video.go:170 | what `strconv.Quote` writes between its double quotes decodes back to the quoted text |
| Text.QuotePlain | internal/youtube/video.go:170 | a text without quotes, backslashes or control characters is quoted by putting it between double quotes |
| YoutubeVideo.Atoi | internal/youtube/video.go:267-269 | Atoi succeeds exactly on a base-10 int64, with its value; otherwise the error is strconv's `parsing <quoted input>: invalid syntax` or `value out of range`, after "parsing itag failed: " |
| YoutubeVideo.AtoiSyntaxError | internal/youtube/video.go:267-269 | a plain non-numeric itag is reported as `parsing itag failed: strconv.Atoi: parsing "<itag>": invalid syntax` |
| YoutubeVideo.FourXIsSyntaxError | internal/youtube/video.go:267 | "4x" is a syntax error: the digit run "4" is in range and the 'x' ends the parse |
| YoutubeVideo.AtoiOutOfRange | internal/youtube/video.go:267-269 | an itag whose digits pass 2^64-1 is reported as out of range, whatever follows them |
| YoutubeVideo.ParseEachValues | internal/youtube/video.go:259-271 | parsing the values in order succeeds iff every value parses, with one result per value in order |
| YoutubeVideo.ParseItagsValues | internal/youtube/video.go:266-271 | itags parse iff every value does, with the values in order |
| YoutubeVideo.ParseItagsPrefixFails | internal/youtube/video.go:268-270 | the first bad itag ends the parse with its error |
| YoutubeVideo.BuildStreamsValues | internal/youtube/video.go:282-289 | streams build iff every pair does, stream i from itag i and url i |
| YoutubeVideo.BuildStreamsPrefixFails | internal/youtube/video.go:284-287 | the first failing pair's error is returned |
| YoutubeVideo.ReadUrls | internal/youtube/video.go:259-265 | inserting each fixed-up url value at its own index yields the fixed-up values in order |
| YoutubeVideo.ReadItags | internal/youtube/video.go:259-271 | inserting each parsed itag at its own index yields ParseItags of the fixed-up values, including its first error |
| YoutubeVideo.PairStreams | internal/youtube/video.go:282-289 | the final loop yields BuildStreams over the first `count` itag/url pairs |
| YoutubeVideo.AssembleStreams | internal/youtube/video.go:258-289 | in any key order, the loop (each insert at index i, the current length) yields StreamsOf |
| YoutubeVideo.StreamCount | internal/youtube/video.go:277-289 | with all values valid, the stream count is `min(len(urls), len(itags))` and stream i pairs itag i with url i |
| Sorting.SortStrings | internal/archiver/archiver.go:84 | sort.Strings: the result is sorted in byte order and is a permutation of the input |

## Left out

- Goroutines, locks and the two-second polling of the manager. A tick, a completion and a cancel are sequential method calls. A job's cancellation is read once, when its run starts.
- The network, ytdl, ffprobe and ffmpeg, and each local I/O call. They are oracle inputs (`Pipeline.Tools`). The filesystem is a path-to-content map.
- The panic on an empty format list ends the process. The model stops at the deferred clean-up and records no failure.
- Pipeline.RunPipeline: the failure reasons are modelled only for the thumbnail step and the panic. Other steps pass on the oracle's error text.
- YoutubeSearch.ParseLength: `time.ParseDuration` also reads fractional fields ("1.5:00") and fields that carry their own unit letters ("1:5m"). The model reads whole decimal fields, a leading sign and an empty last field, and rejects the rest with the generic "time: invalid duration" error (Go quotes the text in it).
- `url.Parse` is an input: a URL is pre-split into host, path and the `v` query value. The `fixurlRegexp` clean-up is an input function.
- Text.Quote: characters outside ASCII are written as they are. `strconv.Quote` writes those that `unicode.IsPrint` rejects as `\u` or `\U` escapes, and it writes invalid UTF-8 bytes as `\x` escapes. Strings here are sequences of Unicode characters.
- `strings.ToLower` folds only ASCII letters here, not all of Unicode.
- `filepath.Join` is modelled without its path cleaning.
- HTML templates, humanize, image resizing, podcast RSS, JSON encoding, the subsonic shim, main.go's flags and server wiring, the database, `Config` with its float volume, and `DiskInfo.UsedPercent` (floating point).
- `Overwrite` in utils.go is a save that can fail. Playlist.List.Save records each saved list and takes the failure as an input. A panic is an outcome of the method here; net/http's recovery of it is not modelled.
- Web.Authorize: how `net.SplitHostPort` and `r.BasicAuth` decode the request is an input (`Web.Request`). Writing the 401, redirect and 404 responses is not modelled.
- `Logtailer.Write` and the `circbuf` ring buffer. Lines takes the buffer's contents as a string.
- `ShuffleMedia` draws its permutation from `rand.Perm`. Playlist.List.ShuffleMedia takes it as a parameter.
- `RandomNumber` reads from `crypto/rand`. Disk.RandomNumber takes the bytes read, or the read error, as input.
- `QueuedMedias` and `ActiveMedias` log a warning for records that do not load. Only the skip is modelled.
