# Stacks download core — a Dafny model

Stacks downloads documents from Anna's Archive. A user gives a content hash or a catalogue
URL. The downloader then:

- resolves it to an MD5 hash;
- reads the catalogue page for a title and mirror links;
- tries the paid fast-download API;
- falls back to the mirrors; on each mirror page it looks for a download link and
  streams the file into `<incomplete>/<name>.part`, with resume support, before renaming
  it into the output directory.

A web API lets the user change the configuration, read it back with its secrets masked,
and test a fast-download key.

This project models that core in Dafny and proves properties of the model:

| module | file | models |
|---|---|---|
| `Md5` | md5.dfy | `extract_md5` |
| `Naming` | naming.dfy | pathlib's name/stem/suffix, `get_unique_filename`, and the extension and file-name derivation of `download_direct` |
| `FastApi` | fastapi.dfy | the `fast_download_info` record and the rules of `try_fast_download` and `refresh_fast_download_info` |
| `Transfer` | transfer.dfy | the resumable transfer of `download_direct`: the attempt loop, the chunk loop, the HTML sniff and the rename |
| `Mirrors` | mirrors.dfy | `get_download_links`, the link heuristics and retry policy of `download_from_libgen`, and the mirror order of the legacy `download` |
| `Downloader` | downloader.dfy | the class `AnnaDownloader`; its methods run the source's loops and are proved equal to the specification functions above |
| `Orchestrator` | orchestrator.dfy | `orchestrate_download`, with the downloader as a collaborator whose answers are given |
| `ConfigApi` | config.dfy | `POST /api/config`, `GET /api/config` and `POST /api/config/test_key` |
| `Utf8` | utf8.dfy | `bytes.decode('utf-8', errors='ignore')` and `str.encode('utf-8')`, used by the HTML sniff |
| `Text`, `Wrappers` | text.dfy, wrappers.dfy | the Python string operations the code relies on, and `Option` |

The environment is modelled as follows:

- **Network:** every answer is an input value:
  - an API reply: a transport failure, or a status with a decoded body;
  - HEAD and GET replies: headers, and the chunks of the stream, with a flag for a stream that breaks;
  - parsed pages, reduced to their title texts and their `<a href>` anchors in page order.
- **Directories:** the output directory and the incomplete directory are maps from file name to bytes.
- **Time:** the clock is a parameter `now`, an integer number of seconds, and each `time.sleep` is recorded as a wait, in seconds.
- **Trace:** each operation also returns the requests it sends, so the model can state what is asked of the network.

Every imperative method of the source is a `method` with its loops. Its postcondition ties
its outputs and the object's new fields to a pure specification function. The properties
are proved as lemmas about those functions.

## Behaviour as written

The model follows the code. Some of its behaviour is surprising, and a lemma states each case:

- resume and download behaviour (`stacks_downloader.py`):
  - A resume request answered with 200 appends the whole body to the partial file, exactly as a 206 does. A broken stream without resume support is retried without a Range header and is also appended (`Transfer.AttemptResumeAppends`, `Transfer.RetryWithoutResumeAppends`).
  - A hash followed by a newline is accepted and returned with its newline (`Md5.ExtractMd5KeepsNewline`).
  - A 404 on a mirror page is retried like a 500 (`Mirrors.LibgenRetries404`).
  - A link's text is `get_text(strip=True)`, which strips each text node and joins them with no separator, so `Get ` + `it` becomes `Getit` (`Mirrors.StrippedTextJoinsNodes`).
  - Once cleared, the `available` flag is never read again (`FastApi.TryFastIgnoresAvailable`).
  - An account block that is `null` makes `try_fast_download` report "Unexpected error".
- `orchestrate_download`: a title such as `Vol. 1` has the suffix `. 1` and is refused by the extension gate (`Orchestrator.GateRefusesVolume`).
- config API (`src/stacks/api/config.py`):
  - The masked answers show `fast_download.key`. Only `api.key` and `login.password` are masked (`ConfigApi.FastKeyShown`).
  - An update that fails part-way keeps its earlier writes in memory, unsaved (`ConfigApi.UpdateFailureKeepsEarlierWrites`).
  - After a 200 with no account block, `test_key` forgets the known quota, where a refresh keeps it (`ConfigApi.TestKeyWithoutAccount`).

`orchestrate_download` calls `d.download_direct(..., md5=md5)` and `d.download_from_mirror(url, type, md5, ...)` and reads `link['type']`. The `AnnaDownloader` of `stacks_downloader.py` has none of these, so the orchestrator is modelled against an abstract collaborator.

## Model

| member | source | states |
|---|---|---|
| Md5.ExtractMd5 | stacks_downloader.py:18-29 | a hash in any case (with Python's `$` allowing one final newline) comes back lower-cased; otherwise the result exists iff some `/md5/<32 hex>` occurs case-sensitively, and it is the hash after the leftmost such occurrence |
| Md5.Md5PathFrom | stacks_downloader.py:25 | the search finds the leftmost `/md5/<hash>` position at or after the start, or proves there is none |
| Md5.ExtractMd5Shape | stacks_downloader.py:18-29 | every result is a 32-character lower-case hex hash, possibly followed by one newline |
| Md5.ExtractMd5OfHash | stacks_downloader.py:21-22 | a 32-hex-digit input in any letter case is returned lower-cased, and a lower-case hash unchanged |
| Md5.ExtractMd5KeepsNewline | stacks_downloader.py:21-22 | a hash followed by one newline is returned with its newline |
| Md5.ExtractMd5OfCatalogUrl | stacks_downloader.py:24-27 | the catalogue URL of a hash, followed by anything, gives back exactly that hash |
| Naming.LastDot | stacks_downloader.py:86-87 | the index of the last dot of a name, or no dot at all |
| Naming.StemSuffix | stacks_downloader.py:86-92 | stem and suffix put back together give the name; a suffix is empty or a dot followed by at least one character |
| Naming.CandidateInjective | stacks_downloader.py:90-97 | different counters give different `stem (n)suffix` names |
| Naming.CandidateLonger | stacks_downloader.py:92 | a counter name is never the base name |
| Naming.CandidatesShape | stacks_downloader.py:90-97 | the names tried for counters 1..n-1 exclude the base name and are n-1 distinct names |
| Naming.FreeFrom | stacks_downloader.py:90-97 | the counter search ends at the first free counter, which is at most the number of existing names |
| Naming.UniqueName | stacks_downloader.py:77-97 | the base name when free; otherwise `stem (n)suffix` for the smallest free n >= 1, with n bounded by the number of existing names; never an existing name |
| Naming.GetUniqueFilename | stacks_downloader.py:77-97 | the `while True` counter loop returns `UniqueName`, a name not in the directory |
| Naming.FirstContained | stacks_downloader.py:243-248 | the first listed extension that occurs in the URL path, or none occurs |
| Naming.FirstEnding | stacks_downloader.py:256-259 | the first listed extension the Content-Disposition name ends with, or it ends with none |
| Naming.FilenameFieldFrom | stacks_downloader.py:253 | the leftmost `filename=` followed by a character on its line, or there is none |
| Naming.FileExtension | stacks_downloader.py:230-263 | the chosen extension is one of the listed ones or `.bin` |
| Naming.NoDotLastDot | stacks_downloader.py:86-87 | a name without a dot has no last dot |
| Naming.FileExtensionPriority | stacks_downloader.py:230-263 | content type beats URL path beats Content-Disposition: with no content-type match, the first listed extension (in list order) occurring in the lower-cased URL path is chosen; with none there, the Content-Disposition name (URL-unquoted before the comparison) decides; `.bin` exactly when none of the three yields an extension |
| Naming.Sanitize | stacks_downloader.py:268 | each of `<>:"/\|?*` becomes `_` and every other character is kept |
| Naming.WithExtensionEnds | stacks_downloader.py:272-273 | after the append-unless-present step the name ends with the extension, ignoring case |
| Naming.TitleNameSafe | stacks_downloader.py:266-273 | a title-based name is non-empty and holds no character the sanitiser replaces |
| Naming.SegmentNameNonEmpty | stacks_downloader.py:276-297 | the URL-segment name is never empty (`download<ext>` for an empty or dot-less segment) |
| Naming.DeriveFilenameSafe | stacks_downloader.py:265-300 | whatever the title and URL, the saved name is non-empty and a single safe path component |
| Naming.TitleNameHasExtension | stacks_downloader.py:266-273 | a usable title gives the sanitised, whitespace-collapsed title ending with the extension |
| Naming.HashPartFrom | stacks_downloader.py:289-290 | the first piece (from a given index) that is a hash after stripping, or none is |
| Naming.BrandSuffixStripped | stacks_downloader.py:282-297 | `title -- <md5> -- Anna's Archive.ext` is named after its stripped title plus the extension |
| Naming.LeadingHashKept | stacks_downloader.py:289-297 | a hash in the first piece does not trigger the strip (the rule needs an index above 0) |
| Text.CollapseSpacesCollapsed | stacks_downloader.py:270 | `' '.join(s.split())` leaves only single spaces strictly between non-space characters |
| Text.CollapseSpacesFrom | stacks_downloader.py:270 | collapsing whitespace introduces no character but a plain space |
| Text.JoinSplit | stacks_downloader.py:285-293 | joining the pieces of a split with the same separator gives back the string |
| Text.SplitPiecesFree | stacks_downloader.py:285 | no piece of a split holds the separator |
| Text.StripEnds | stacks_downloader.py:426 | a stripped text is empty or starts and ends with a non-space character |
| Text.NatToStringInjective | stacks_downloader.py:92 | different counters render as different decimal strings |
| FastApi.Merge | stacks_downloader.py:137-146 | merging an account block sets `available`, stamps `now`, copies the quota fields and defaults the md5 list to `[]` |
| FastApi.TryFast | stacks_downloader.py:99-205 | a request (with the configured URL, key, indexes and a 30 s timeout) is sent exactly when configured and not exhausted; success carries a non-empty URL |
| FastApi.Refresh | stacks_downloader.py:621-676 | a request is sent only when configured, for the probe hash with a 10 s timeout |
| FastApi.TryFastNotConfigured | stacks_downloader.py:104-105 | disabled or keyless: "Fast download not configured", no request, record unchanged |
| FastApi.TryFastExhausted | stacks_downloader.py:107-111 | a known `downloads_left <= 0`: "No fast downloads remaining", no request, record unchanged |
| FastApi.TryFastSuccess | stacks_downloader.py:150-154 | success iff the call is made and the API answers 200 with a non-empty URL and a non-null account block; the message is that URL |
| FastApi.TryFastUnparseable | stacks_downloader.py:131-135 | an unparseable body gives "Invalid API response" and leaves the record as it was |
| FastApi.TryFastRequestFailed | stacks_downloader.py:200-202 | a transport failure is reported with its text and leaves the record as it was |
| FastApi.TryFastMergesAccount | stacks_downloader.py:137-192 | an account block is merged before the status dispatch; afterwards `available` is false iff 401/403, and `downloads_left` is 0 on 429 |
| FastApi.TryFastRevokes | stacks_downloader.py:172-184 | 401 and 403 fail and clear `available` |
| FastApi.TryFastKeepsInfo | stacks_downloader.py:149-198 | without an account block and outside 401/403/429 the record is kept |
| FastApi.TryFastQuotaBlocksNext | stacks_downloader.py:186-192 | after a 429 every later call stops before sending anything |
| FastApi.TryFastUnknownStatus | stacks_downloader.py:194-198 | an unhandled status without an error field reports `HTTP <status>` |
| FastApi.TryFastIgnoresAvailable | stacks_downloader.py:104-111 | a cleared `available` flag does not stop a configured call with quota left |
| FastApi.RefreshNotConfigured | stacks_downloader.py:626-627 | unconfigured: False, no request, record unchanged |
| FastApi.RefreshCooldownCached | stacks_downloader.py:629-634 | unforced and within the hour: True, no request, record unchanged |
| FastApi.RefreshProbe | stacks_downloader.py:636-676 | otherwise the probe is sent, and the result is True iff the answer carries an account block, which is merged; on False the record is unchanged |
| FastApi.RefreshIgnoresStatus | stacks_downloader.py:653-672 | the status code plays no part in a refresh |
| FastApi.MergeStartsCooldown | stacks_downloader.py:137-146 | a download call that merged an account makes every unforced refresh in the next hour a cache hit |
| FastApi.RefreshThenCached | stacks_downloader.py:660-670 | a successful refresh likewise starts the hour of cache hits |
| Utf8.SequenceLength | stacks_downloader.py:355 | the length of the well-formed UTF-8 sequence at the start of the bytes (table 3-7 of the Unicode Standard), at most 4; an ASCII byte is a sequence of one |
| Utf8.DecodeIgnore | stacks_downloader.py:355 | `decode('utf-8', errors='ignore')` yields at most one character per byte |
| Utf8.EncodeCharDecodes | stacks_downloader.py:355 | the UTF-8 encoding of any character is one well-formed sequence, whatever follows it, and decodes back to the character |
| Utf8.DecodeEncode | stacks_downloader.py:355 | decoding the encoding of any text gives the text back: valid UTF-8 loses nothing |
| Utf8.DecodeAscii | stacks_downloader.py:355 | ASCII bytes decode one character each, to themselves |
| Utf8.DecodeAsciiPrefix | stacks_downloader.py:355 | an ASCII prefix decodes on its own, whatever follows it |
| Utf8.DecodeDropsInvalid | stacks_downloader.py:355 | a byte that starts no well-formed sequence is dropped and decoding goes on with the next byte |
| Transfer.SniffSkipsInvalidBytes | stacks_downloader.py:353-359 | the bytes `<ht\x80ml>` count as HTML, because the invalid byte is dropped before the markers are searched |
| Transfer.StreamAppends | stacks_downloader.py:346-376 | unless sniffed, the chunk loop appends every chunk and grows the offset by their total length |
| Transfer.StreamNoSniffWhenResuming | stacks_downloader.py:353 | with a positive offset the HTML sniff never fires |
| Transfer.StreamNeverSniffs | stacks_downloader.py:350-363 | a stream with no HTML-looking chunk is written to the end |
| Transfer.Attempt | stacks_downloader.py:316-332 | one attempt sends one or two GETs, extending the request trace, and a finished attempt leaves the temp file in place |
| Transfer.Receive | stacks_downloader.py:334-376 | the body phase sends nothing, and when it finishes the temp file exists |
| Transfer.DirectHeadRejects | stacks_downloader.py:216-228 | a failed HEAD, a bad length or an HTML content type returns None before any file or request |
| Transfer.AttemptsTouchOnlyTemp | stacks_downloader.py:315-387 | the attempt loop changes only the temp file; on success it renames it to the final name and removes it |
| Transfer.DirectChangesOnlyTarget | stacks_downloader.py:302-387 | `download_direct` adds at most one file, under a name not there before; the incomplete directory changes only by the removed temp file |
| Transfer.DirectKeepsLastBody | stacks_downloader.py:346-375 | a saved file ends with the whole body of the last GET answer |
| Transfer.AttemptRangesSound | stacks_downloader.py:318-330 | one attempt keeps Range headers sound; its first GET carries `Range: bytes=<offset>-` iff the offset is positive and resume is supported; a second GET, sent iff a resume got a status other than 200/206, has no Range |
| Transfer.AttemptsRangesSound | stacks_downloader.py:315-383 | the same over the loop, with at most two requests per attempt; when the offset matches the part file, the loop's next GET resumes from the part file's size exactly when it is non-empty and resume is supported |
| Transfer.AttemptsExtendSent | stacks_downloader.py:315-383 | the loop's requests extend the ones sent before it |
| Transfer.RetryKeepsOffset | stacks_downloader.py:378-383 | after a caught exception the offset is again the part file's size, so each retry resumes from it |
| Transfer.DirectRanges | stacks_downloader.py:309-330 | every Range header carries a positive offset and needs `accept-ranges: bytes`; at most `2 * resume_attempts` GETs; the first GET asks for `bytes=<size>-` iff resume is supported and a non-empty part file exists, with its size |
| Transfer.AttemptSaves | stacks_downloader.py:326-375 | a finished attempt leaves in the temp file the whole body of its last answer, after the part data it resumed from when that answer was to a Range request |
| Transfer.AttemptsSaveLastBody | stacks_downloader.py:315-383 | a file the loop saves ends with the whole body of the last GET answer |
| Transfer.ReceiveStreamsWhole | stacks_downloader.py:334-375 | an accepted reply read to the end fills the temp file with the part data (when resuming) followed by the body |
| Transfer.AttemptStreamsWhole | stacks_downloader.py:316-375 | an accepted first answer read to the end: one request, and the temp file holds the resumed part data followed by the body |
| Transfer.AttemptsSaveFirst | stacks_downloader.py:315-375 | a loop whose first answer streams to the end saves that file under the final name after one request and removes the temp file |
| Transfer.DirectSaves | stacks_downloader.py:207-375 | when the first GET streams to the end, `download_direct` saves the old part data (when it resumed) followed by the body, removes the temp file and sends one request, with the Range header iff it resumed |
| Transfer.AttemptsWaits | stacks_downloader.py:378-385 | a 2 s sleep before each retry, none after the last attempt |
| Transfer.AttemptSniffs | stacks_downloader.py:353-359 | a fresh start whose first non-empty chunk looks like HTML deletes the temp file and aborts |
| Transfer.AttemptRefusedResume | stacks_downloader.py:326-330 | a refused resume deletes the temp file, re-asks without Range and writes from scratch |
| Transfer.AttemptResumeAppends | stacks_downloader.py:326-347 | a resume answered with 206, and as written with 200 too, appends the whole body to the partial file |
| Transfer.RetryWithoutResumeAppends | stacks_downloader.py:378-383 | without resume support, a retry after a broken stream appends the whole file to the partial data |
| Mirrors.GetTextStripped | stacks_downloader.py:426 | `get_text(strip=True)`: each text node is stripped before joining, so the result is empty or has no space at either end |
| Mirrors.StrippedTextJoinsNodes | stacks_downloader.py:426 | the nodes `"Get "` and `"it"` give `Getit`, where stripping the whole text would give `Get it` |
| Mirrors.FilterLinks | stacks_downloader.py:424-441 | the filter yields no more links than there are anchors, and every link text is stripped: empty, or no space at either end |
| Mirrors.GetDownloadLinks | stacks_downloader.py:393-443 | the anchor loop returns the title and exactly the filtered links |
| Mirrors.FilterLinksExactly | stacks_downloader.py:424-441 | a link is returned iff it comes from an anchor whose href names a known mirror domain |
| Mirrors.FilterLinksAppend | stacks_downloader.py:424-441 | page order is kept: the filter distributes over concatenation |
| Mirrors.DownloadLinksFailure | stacks_downloader.py:398-403 | a failed page fetch gives `(None, [])`, not "Unknown" |
| Mirrors.DownloadLinksTitle | stacks_downloader.py:407-418 | a loaded page always has a title, and it is "Unknown" exactly when neither a main title nor an `h1` is present, or the one that is used reads "Unknown" |
| Mirrors.FirstMatch | stacks_downloader.py:473-480 | the first anchor in page order that a heuristic accepts, or none does |
| Mirrors.FirstMatching | stacks_downloader.py:473-480 | the `for ... break` loop finds that first anchor |
| Mirrors.FirstMatchIsFirst | stacks_downloader.py:473-480 | the least accepted index is the one found |
| Mirrors.PickLink | stacks_downloader.py:469-505 | a chosen link is never empty |
| Mirrors.FindDownloadLink | stacks_downloader.py:469-505 | the three matcher loops return the first non-empty result of methods 1, 2, 3 |
| Mirrors.PickPrefersGetPhp | stacks_downloader.py:472-480 | the first `get.php`/`main.php` anchor wins whatever methods 2 and 3 would find |
| Mirrors.PickFallsBackToText | stacks_downloader.py:482-493 | without such an anchor, the first "download" anchor whose href lacks `file.php` wins |
| Mirrors.PickNone | stacks_downloader.py:506-513 | when no matcher accepts any anchor there is no link |
| Mirrors.LibgenFromBounds | stacks_downloader.py:449-463 | from attempt a, fetches stay within the budget, the i-th wait is `2^i`, and there is one wait fewer than fetches |
| Mirrors.LibgenBounds | stacks_downloader.py:449-463 | at most `retry_on_500` fetches, at least one, waits 1, 2, 4, ... |
| Mirrors.LibgenFirstLoaded | stacks_downloader.py:465-516 | the first page that loads decides, with no further fetch: its link, or None when no matcher finds one |
| Mirrors.LibgenAllFail | stacks_downloader.py:518-526 | when every fetch is retryable, no link after exactly `retry_on_500` fetches |
| Mirrors.LibgenRetries404 | stacks_downloader.py:465 | a 404 mirror page is retried after a 1 s wait |
| Mirrors.Preferred | stacks_downloader.py:588-591 | the preferred links are exactly the links whose domain holds the preference, ignoring case |
| Mirrors.AddMissingShape | stacks_downloader.py:592-595 | the append-if-missing loop keeps the prefix, adds every link, and adds no duplicate or already-present link |
| Mirrors.LegacyOrderShape | stacks_downloader.py:584-598 | with a preference: the preferred links first in list order, then the others once each, nothing else |
| Mirrors.LegacyOrderDropsDuplicate | stacks_downloader.py:593-595 | a non-preferred link listed twice is tried once |
| Downloader.MirrorsToTry | stacks_downloader.py:584-598 | the two append loops build the legacy mirror order |
| Downloader.LibgenViaAddsAtMostTarget | stacks_downloader.py:445-531 | one mirror download adds at most one new file and overwrites nothing |
| Downloader.MirrorLoopAddsAtMostTarget | stacks_downloader.py:600-615 | the mirror loop adds at most one new file and overwrites nothing |
| Downloader.AddsAtMostTargetKeeps | stacks_downloader.py:302-304 | every file already in the output directory survives with its contents |
| Downloader.LegacyNeverOverwrites | stacks_downloader.py:533-615 | `download` succeeds iff it saved a file, and that file has a new name; nothing else in the output directory changes |
| Downloader.LegacyFinishAddsAtMostTarget | stacks_downloader.py:557-615 | the fallback after the fast path keeps the same guarantee |
| Downloader.LegacyFastPath | stacks_downloader.py:557-573 | the record changes only through `try_fast_download`, called only when configured; `used_fast_download` is reported exactly when the fast URL was obtained and `download_direct` on it saved a file, and the result then carries that file's path |
| Downloader.LegacyNoHash | stacks_downloader.py:539-543 | without a hash, `(False, False)`, nothing fetched and nothing changed |
| Downloader.MirrorLoopStopsAtSuccess | stacks_downloader.py:600-607 | a mirror that yields a file ends the loop |
| Downloader.AnnaDownloader.constructor | stacks_downloader.py:33-71 | the record starts available iff fast download is enabled with a non-empty key, with an empty md5 list and no refresh yet |
| Downloader.AnnaDownloader.TryFastDownload | stacks_downloader.py:99-205 | its result, the request sent and the new record are those of `TryFast`; the directories are untouched |
| Downloader.AnnaDownloader.RefreshFastDownloadInfo | stacks_downloader.py:621-676 | its result, the request sent and the new record are those of `Refresh` |
| Downloader.AnnaDownloader.AttemptDownload | stacks_downloader.py:316-332 | one pass of the attempt loop yields the outcome and state of `Attempt` |
| Downloader.AnnaDownloader.ReceiveBody | stacks_downloader.py:334-376 | the length, the open mode and the chunk loop yield the outcome and state of `Receive` |
| Downloader.AnnaDownloader.WriteChunks | stacks_downloader.py:346-371 | the chunk loop on the open temp file: either sniffed and deleted, or the temp file holds the streamed data and the offset is its count |
| Downloader.AnnaDownloader.DownloadDirect | stacks_downloader.py:207-391 | the returned path, the two directories, the requests and the waits are those of `Direct` |
| Downloader.AnnaDownloader.DownloadFromLibgen | stacks_downloader.py:445-531 | the fetches and backoff waits are those of `Libgen`; with no link nothing changes, otherwise the link is downloaded as by `Direct` |
| Downloader.AnnaDownloader.Download | stacks_downloader.py:533-615 | `(success, used_fast_download)`, the record and the directories are those of `Legacy` |
| Downloader.AnnaDownloader.TryMirrors | stacks_downloader.py:600-615 | the mirror loop returns the first file saved and leaves the directories of `MirrorLoop` |
| Orchestrator.OrchestrateDownload | src/stacks/downloader/orchestrator.py:5-108 | the early returns and the mirror loop give the result and call trace of `Orchestrate`; a returned path counts only when it is truthy (non-empty) |
| Orchestrator.TryMirrors | src/stacks/downloader/orchestrator.py:80-108 | the mirror loop never reports the fast path; it succeeds iff it returns a path, and that path is non-empty, since `if filepath:` tests truthiness |
| Orchestrator.PreferredLinks | src/stacks/downloader/orchestrator.py:72 | every preferred link matches the preference |
| Orchestrator.OtherLinks | src/stacks/downloader/orchestrator.py:73 | no other link matches the preference |
| Orchestrator.NoHashNoCalls | src/stacks/downloader/orchestrator.py:18-21 | without a hash: `(False, False, None)`, with `extract_md5` the only call |
| Orchestrator.TryMirrorsExtends | src/stacks/downloader/orchestrator.py:80-105 | the mirror loop only appends status and mirror calls |
| Orchestrator.AfterMetadataExtends | src/stacks/downloader/orchestrator.py:31-108 | after the metadata step only status, fast-path and mirror calls are made |
| Orchestrator.MetadataFetchedIff | src/stacks/downloader/orchestrator.py:18-27 | `get_download_links` is called, once and second, iff the file name or the links were not passed in |
| Orchestrator.GateStopsEverything | src/stacks/downloader/orchestrator.py:31-39 | a refused suffix returns `(False, False, None)` before any status, fast-path or mirror call |
| Orchestrator.GateRefusesVolume | src/stacks/downloader/orchestrator.py:33-37 | `Vol. 1` has the suffix `. 1` and is refused |
| Orchestrator.GateRefusesPdf | src/stacks/downloader/orchestrator.py:33-37 | `book.pdf` is refused |
| Orchestrator.GateAcceptsUpperCase | src/stacks/downloader/orchestrator.py:34-37 | the suffix is compared lower-cased: `Book.EPUB` passes |
| Orchestrator.GateAcceptsUnknown | src/stacks/downloader/orchestrator.py:31-37 | no name, an empty name and "Unknown" pass |
| Orchestrator.GateAcceptsNoSuffix | src/stacks/downloader/orchestrator.py:33-37 | every name without a dot or a `/` has no suffix and passes |
| Orchestrator.SplitNoSeparator | src/stacks/downloader/orchestrator.py:34 | a name without `/` is its own last path component |
| Orchestrator.TryMirrorsAddsOnly | src/stacks/downloader/orchestrator.py:80-105 | the mirror loop keeps the earlier calls and adds only status and mirror calls |
| Orchestrator.FastTriedIff | src/stacks/downloader/orchestrator.py:31-48 | `try_fast_download` is called iff there is a hash, the fast path is enabled with a key, and the name passed the gate; it is then called with the hash |
| Orchestrator.NoLinksFails | src/stacks/downloader/orchestrator.py:42-65 | if the fast path did not give a truthy path and there are no links, the result is `(False, False, None)` right after the fast-path calls, with no mirror call |
| Orchestrator.EmptyFastPathFallsThrough | src/stacks/downloader/orchestrator.py:50-65 | an empty path from `download_direct` on the fast URL is a failed fast download: with no links the result is `(False, False, None)` |
| Orchestrator.UsedFastOnlyViaFastPath | src/stacks/downloader/orchestrator.py:42-60 | `used_fast` iff a hash, a configured fast path, a URL, a non-empty saved path and a passed gate; then the path is the fast file; success iff a path |
| Orchestrator.PartitionPermutes | src/stacks/downloader/orchestrator.py:71-74 | preferred ++ others is a permutation of the links |
| Orchestrator.PartitionKeepsOrder | src/stacks/downloader/orchestrator.py:72-73 | both halves keep list order, distributing over concatenation |
| Orchestrator.PreferredConcat | src/stacks/downloader/orchestrator.py:72 | the preferred filter distributes over concatenation |
| Orchestrator.OtherConcat | src/stacks/downloader/orchestrator.py:73 | the others filter distributes over concatenation |
| Orchestrator.MirrorOrderPermutes | src/stacks/downloader/orchestrator.py:71-77 | with or without a preference, the mirrors tried are a permutation of the links found |
| Orchestrator.PreferredFirst | src/stacks/downloader/orchestrator.py:71-74 | with a preference, no other mirror comes before a preferred one |
| Orchestrator.FirstSuccessWins | src/stacks/downloader/orchestrator.py:80-99 | the first mirror that yields a non-empty path gives the returned path; the `Mirror` calls the loop adds are exactly those for the links from the start up to and including that mirror, in list order, so no later mirror is asked |
| Orchestrator.AllMirrorsFail | src/stacks/downloader/orchestrator.py:80-108 | when no mirror yields a non-empty path: `(False, False, None)`, after asking every remaining mirror once, in list order |
| Orchestrator.SilentWithoutCallback | src/stacks/downloader/orchestrator.py:84-105 | without a callback, the mirror loop makes no status call |
| Orchestrator.OrchestrateSilent | src/stacks/downloader/orchestrator.py:43-105 | without a callback the whole run makes no status call |
| Orchestrator.MirrorMessages | src/stacks/downloader/orchestrator.py:84-105 | "Verifying download..." follows a successful mirror call at once; "Mirror failed, trying next mirror..." never follows the last mirror |
| ConfigApi.ParseSignedOfIntToString | src/stacks/api/config.py:156 | a signed decimal rendering reads back as its integer |
| ConfigApi.ParseIntOfIntToString | src/stacks/api/config.py:156 | `int(str(n)) == n` for every integer |
| ConfigApi.StripUnpadded | src/stacks/api/config.py:156 | `int()` ignores surrounding whitespace: stripping text that has none leaves it unchanged |
| ConfigApi.Set | src/stacks/api/config.py:156 | `config.set` writes exactly one field and leaves every other field as it was |
| ConfigApi.Apply | src/stacks/api/config.py:152-242 | the handler completes (and saves) iff no step raises |
| ConfigApi.ApplyConcat | src/stacks/api/config.py:152-212 | running two blocks of steps is running the first, then the second if the first completed |
| ConfigApi.ApplyFrom | src/stacks/api/config.py:152-212 | every field afterwards is as before or was written by one of the steps |
| ConfigApi.IntField | src/stacks/api/config.py:155-160 | a submitted integer field gives one step on that field; an absent one gives none |
| ConfigApi.EnabledField | src/stacks/api/config.py:163-173 | an `enabled` flag writes only that section's `enabled` |
| ConfigApi.KeyField | src/stacks/api/config.py:165-170 | a submitted key gives one write, to `fast_download.key` only: `null` iff the key was `''` or `null`, else the submitted value; an absent key gives none |
| ConfigApi.UrlField | src/stacks/api/config.py:174-179 | a submitted URL gives one write, to `flaresolverr.url` only: the value if truthy, else `http://localhost:8191`, so always a truthy value; an absent URL gives none |
| ConfigApi.ClampBounds | src/stacks/api/config.py:180-187 | the clamp lies in 10..300, keeps values inside, and equals `min(300, max(10, t))` |
| ConfigApi.TimeoutField | src/stacks/api/config.py:180-187 | the timeout step writes only `flaresolverr.timeout` |
| ConfigApi.LevelField | src/stacks/api/config.py:192-196 | the level step writes only `logging.level` |
| ConfigApi.UsernameField | src/stacks/api/config.py:202-205 | the username step writes only `login.username` |
| ConfigApi.PasswordField | src/stacks/api/config.py:207-211 | a new password is written only to `login.password` |
| ConfigApi.DownloadsAllowed | src/stacks/api/config.py:154-160 | the `downloads` block writes only the `int()` of a submitted field |
| ConfigApi.FlareSolverrAllowed | src/stacks/api/config.py:171-187 | the `flaresolverr` block writes only the normalised submitted values |
| ConfigApi.LoginAllowed | src/stacks/api/config.py:201-212 | the `login` block writes only for a session that is logged in |
| ConfigApi.StepsAllowed | src/stacks/api/config.py:152-212 | every write of an update is an allowed write |
| ConfigApi.UpdateWrites | src/stacks/api/config.py:152-212 | a field changes only when submitted, known and allowed, and then to the submitted value after its normalisation |
| ConfigApi.UpdateKeepsUnrequested | src/stacks/api/config.py:152-212 | fields not submitted, and every login field without a session, keep their values |
| ConfigApi.UpdateTimeoutInRange | src/stacks/api/config.py:180-187 | a timeout an update stores is an integer in 10..300 |
| ConfigApi.UpdateIgnoresUnknownLevel | src/stacks/api/config.py:192-196 | a level that upper-cases to none of DEBUG/INFO/WARNING/ERROR leaves `logging.level` unchanged |
| ConfigApi.UpdateCredentials | src/stacks/api/config.py:201-211 | an empty username changes nothing; a password changes only in a session, to the hash of the submitted one |
| ConfigApi.UpdateStoresTimeout | src/stacks/api/config.py:180-187 | after a successful update the submitted timeout is stored as `min(300, max(10, int(v)))` |
| ConfigApi.ApplyStores | src/stacks/api/config.py:152-212 | in an update that goes through, a write that no later step overwrites is what the field ends up holding |
| ConfigApi.LaterStepsSkipFastDownload | src/stacks/api/config.py:171-212 | the steps after the fast-download block never write to `fast_download` |
| ConfigApi.StepsAroundKey | src/stacks/api/config.py:152-212 | the handler's steps are the ones before the key, the key step, then the rest |
| ConfigApi.StepsAroundUrl | src/stacks/api/config.py:152-212 | the handler's steps are the ones before the URL, the URL step, then the rest |
| ConfigApi.LaterStepsSkipUrl | src/stacks/api/config.py:180-212 | no step after the URL step writes `flaresolverr.url` |
| ConfigApi.UpdateStoresKey | src/stacks/api/config.py:165-170 | after a successful update a submitted key is stored as it came, except that `''` and `null` are both stored as `null` |
| ConfigApi.UpdateStoresUrl | src/stacks/api/config.py:174-179 | after a successful update a submitted URL is stored if truthy; a falsy one stores `http://localhost:8191` |
| ConfigApi.UpdateFailureKeepsEarlierWrites | src/stacks/api/config.py:154-158 | a good delay followed by a bad retry count: the delay is in memory and the update fails |
| ConfigApi.MaskedCopy | src/stacks/api/config.py:223-229 | the copy with its two masking assignments is `Mask` of the configuration |
| ConfigApi.MaskShows | src/stacks/api/config.py:248-255 | masking keeps every section and key, replaces exactly `api.key` and `login.password`, and shows everything else |
| ConfigApi.FastKeyShown | src/stacks/api/config.py:226-229 | `fast_download.key` is shown unmasked |
| ConfigApi.MaskIdempotent | src/stacks/api/config.py:248-255 | masking a masked copy changes nothing |
| ConfigApi.ConfigStore.Get | src/stacks/api/config.py:244-256 | answers the masked configuration and leaves the store unchanged |
| ConfigApi.ConfigStore.UpdateDownloads | src/stacks/api/config.py:154-160 | the three guarded `int()` writes do what the `downloads` steps do |
| ConfigApi.ConfigStore.UpdateFastDownload | src/stacks/api/config.py:162-170 | the flag and the key (`''`/`null` clear it) never raise |
| ConfigApi.ConfigStore.UpdateFlareSolverr | src/stacks/api/config.py:171-187 | the flag, the URL with its default, and the clamped timeout |
| ConfigApi.ConfigStore.UpdateTimeout | src/stacks/api/config.py:180-187 | `int()` then the lower and the upper bound |
| ConfigApi.ConfigStore.UpdateQueue | src/stacks/api/config.py:188-190 | the `queue.max_history` conversion |
| ConfigApi.ConfigStore.UpdateLogging | src/stacks/api/config.py:192-198 | the level allow-list |
| ConfigApi.ConfigStore.UpdateLogin | src/stacks/api/config.py:201-212 | the session-gated credential writes never raise |
| ConfigApi.ConfigStore.Update | src/stacks/api/config.py:144-242 | the store ends as `UpdateSpec` says; 200 iff every write went through, then saved and answered masked; otherwise 400, unsaved, no config in the answer |
| ConfigApi.KeyAccepted | src/stacks/api/config.py:95-116 | a valid key answers 200 with the account's quota counts |
| ConfigApi.TestKey | src/stacks/api/config.py:67-142 | a probe (to the default API URL, for the probe hash, 10 s) is sent iff a non-empty key was submitted |
| ConfigApi.TestFastKey | src/stacks/api/config.py:67-142 | status, answer, probe and the downloader's new record are those of `TestKey`; its directories are untouched |
| ConfigApi.TestKeyGuard | src/stacks/api/config.py:95-109 | the record changes only after a 200 with a download URL, for the downloader's own key, and is then marked available and stamped `now` |
| ConfigApi.TestKeyRefreshes | src/stacks/api/config.py:95-109 | conversely such an answer for the downloader's own key always merges the account block |
| ConfigApi.TestKeyStatus | src/stacks/api/config.py:95-136 | 200 iff a `KeyValid` answer iff a key, a 200 reply, a download URL and a non-null account; 401 and 403 are passed on |
| ConfigApi.TestKeyAgreesWithRefresh | src/stacks/api/config.py:95-109 | with an account block, `test_key` for the own key leaves the record a forced refresh would |
| ConfigApi.TestKeyWithoutAccount | src/stacks/api/config.py:98-109 | without an account block `test_key` clears the known quota, while a refresh keeps the record |

## Left out

- Network and HTML:
  - `requests` sessions, headers, timeouts and exception kinds are replaced by reply values.
  - BeautifulSoup is replaced by the page's title texts and `<a href>` anchors.
  - The answer for a URL is fixed: the same URL always gets the same answers.
- The `urljoin`, `urlparse(...).netloc`, `urlparse(...).path` and `unquote` functions are uninterpreted parameters (`Mirrors.UrlOps`). The same `unquote` decodes the URL path and the Content-Disposition name.
- Time:
  - `time.time()` is the parameter `now`, an integer number of seconds. The fraction of a second that `time.time()` carries is lost, so the one-hour cooldown comparison is made on whole seconds.
  - `time.sleep` is recorded as waits and never performed.
- `random.shuffle` is an arbitrary permutation, given as a function.
- The shuffle's aliasing is not modelled. `random.shuffle(links)` reorders the caller's own `links` list in place. The model returns a new order and leaves the caller's list as it was.
- Progress callbacks, their percentages and all logging are not modelled.
- Concurrency is left out. The downloader's record is shared by the web handler and the worker; a single writer is assumed.
- Python's string model:
  - case mapping is ASCII-only;
  - in `int()`, underscores and non-ASCII digits are not modelled.
- Path edge cases:
  - `.` and `..` file names are not modelled;
  - the output and incomplete directories are flat maps;
  - `mkdir` is not modelled;
  - I/O errors and rename failures are not modelled.
- A mirror link lacking `url` or `domain` (a `KeyError`) is not modelled, nor is a mirror link without a `domain` in the orchestrator (its name would be "Unknown").
- The legacy `download` result does not expose the requests and waits of the downloads it starts.
- `AnnaDownloader.extract_md5` delegates unchanged and is not modelled separately.
- `get_fast_download_info`, `main()` and the argument parser are not modelled.
- Config API, JSON values:
  - Request bodies and sections that are not JSON objects are not modelled; only a body that is absent is.
  - Floats, lists and objects as field values are not modelled.
- Config API, Flask:
  - Routing, `require_auth`, `jsonify` and the session are left out. The session is a `loggedIn` flag.
  - `hash_password` is an uninterpreted function, and its failures are not modelled.
  - The `Config` class (`set`, `save`, `get_all`) is not part of this model. The configuration is a map and `save` a copy.
- Config API, failures:
  - `setup_logging` and `worker.update_config()` are not modelled, so exceptions they would raise after the save are not modelled either.
  - The text `str(e)` of a failed update is not modelled.
- `api_config_test_flaresolverr` is a connectivity probe and is left out.
- FastApi.TryFast, FastApi.Refresh: an API answer is always modelled as a decoded JSON object whose fields have the expected types (`ApiBody`, `AccountInfo`). Two failure paths are therefore not modelled:
  - a body that decodes to a list or a number, where `'account_fast_download_info' in data` or `data.get` fails inside the `try` and the answer is `(False, "Unexpected error: …")`;
  - a stored `downloads_left` that is not a number, where the `<= 0` test raises a `TypeError` before the `try`, so the exception escapes `try_fast_download`.
- ConfigApi.TestKey: the submitted key is a string or missing, and the text of a JSON decoding error is not modelled (`ConnectionFailed(None)`).
