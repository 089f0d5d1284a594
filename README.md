# Kelle KickClient — recording core in Dafny

Kelle KickClient is an Electron desktop client for kick.com. It records
live streams and downloads VODs to the user's downloads folder with ffmpeg.
This project models the parts of the client that decide:

- which quality variants are offered for a stream (`fetchQualityOptions`,
  which reads an HLS master playlist, and its helpers `detectLiveStream` and
  `getStreamName`);
- how output files are named (`generateFilename`);
- how the main process tracks running ffmpeg jobs in its `activeRecordings`
  map through the `start-recording`, `stop-recording`,
  `get-active-recordings`, `download-vod` and `window-all-closed` handlers;
- the per-recording reconnect counter, which retries transient errors.

Layout:

- `wrappers.dfy` — `Option`.
- `strings.dfy` — the JavaScript string operations used: `startsWith`,
  `includes`, `trim`, `split`, `lastIndexOf`, digit runs and `parseInt`,
  number printing.
- `ordered_map.dfy` — a JavaScript `Map` with insertion-ordered keys.
- `playlist.dfy` — `fetchQualityOptions`. Pure functions specify the scan,
  the two regular expressions, the URL resolution and the stable sort. A
  method with a loop follows the source's `for` loop and is proved equal
  to that specification.
- `page.dfy` — `detectLiveStream` and `getStreamName`. The DOM queries are
  parameters.
- `recorder.dfy` — `generateFilename`, the reconnect counter as a function
  of ffmpeg's events, and the main process as a class. The class holds the
  registry, the jobs sent SIGINT and the messages sent to the window, and
  its handler methods update them in place. Each `start-recording` call's
  shared variables (`reconnectAttempts`, pending relaunch timers) are a
  class of their own.

Behaviour of the code worth knowing, which the model keeps:

- A tag line without a resolution is labelled `Unknown`.
- The bandwidth is rounded half up with `Math.round`; it is not truncated.
- `start-recording` does not check whether the stream is already being
  recorded. A second start replaces the registry entry, and the first job
  is never signalled.
- `stop-recording` does not cancel a pending reconnect timer, so the timer
  puts the stream back into the registry.
- A VOD download's own `end` and `error` handlers never remove its entry
  (main.js:191-200); only `stop-recording` or `window-all-closed` does.
- Every character outside `[a-zA-Z0-9]` of a name becomes `_`.
- Every ffmpeg `start` event resets the reconnect counter. A stream whose
  connection keeps dropping and coming back is therefore retried without
  limit.

## Model

The rows below are the lemmas and contracts proved about the specification
functions that model the source directly: `Playlist.QualityOptions`
(`fetchQualityOptions`), `Playlist.Variant` (one menu entry),
`Playlist.Resolution` and `Playlist.BandwidthKbps` (the two attribute
expressions), `Recorder.Sanitize` and `Recorder.FileTimestamp` (the two
`replace` calls of `generateFilename`), and `Recorder.Replay` (the reconnect
counter over a sequence of ffmpeg events).

| member | source | states |
|---|---|---|
| Playlist.FetchQualityOptions | renderer.js:268-327 | the loop over the playlist lines, the sort and the fallback give exactly the specified quality menu for every fetch outcome |
| Playlist.QualityOptionsFallback | renderer.js:276-325 | the menu is the single `Source Quality` entry exactly when the fetch failed, the last line carries `#EXT-X-STREAM-INF` (reading the missing URI line throws), or no line carries it |
| Playlist.QualityOptionsFromTags | renderer.js:274-305 | otherwise the menu is the stable descending sort of one entry per tag line, in line order |
| Playlist.VariantEntries | renderer.js:278-300 | entry `k` of that list is built from the `k`-th tag line and the line after it |
| Playlist.QualityOptionsWellFormed | renderer.js:282-314 | every menu entry is the fallback or is labelled `<resolution> (<kbps> kbps)` by its own resolution and bandwidth, the resolution being `Unknown` or `<digits>x<digits>` |
| Playlist.VariantIsNotSource | renderer.js:285 | a parsed entry never has the fallback's `Auto` resolution |
| Playlist.Menu | renderer.js:305-315 | the menu is never empty and is sorted by bandwidth, highest first |
| Playlist.MenuOfEntries | renderer.js:305-317 | with entries found, the menu is their sort and is headed by one of them |
| Playlist.MenuFallback | renderer.js:276-315 | for any entry builder that never builds the fallback entry, the fallback menu appears exactly when the scan fails or finds no tag line |
| Playlist.MenuFromTags | renderer.js:276-305 | for any entry builder, when some line carries the tag and the last line does not, the menu is the sort of the per-tag-line entries |
| Playlist.MenuWellFormed | renderer.js:295-315 | entries the builder makes well formed stay well formed through the scan and the sort |
| Playlist.SortKeepsWellFormed | renderer.js:305 | when every entry is well formed, every entry of the sorted list is well formed too |
| Playlist.TagIndicesSpec | renderer.js:276-277 | the tag indices are exactly the lines that start with `#EXT-X-STREAM-INF`, in increasing order |
| Playlist.ParseFromFails | renderer.js:276-325 | the scan fails exactly when the last line carries the tag |
| Playlist.ParseFromEntries | renderer.js:276-302 | a successful scan yields one entry per tag line, in line order, built from that line and the next |
| Playlist.ParseFromStep | renderer.js:276-302 | one loop iteration moves the scan forward by one line |
| Playlist.TagEntries | renderer.js:295-300 | one entry per listed tag line |
| Playlist.TagEntriesCons | renderer.js:295 | listing one more tag line in front adds its entry in front |
| Playlist.ResolutionAt | renderer.js:282 | `/RESOLUTION=(\d+x\d+)/` matches at a position exactly when digits, `x`, digits follow `RESOLUTION=` there; the capture has that shape and is not followed by another digit |
| Playlist.ResolutionTextAt | renderer.js:282 | a match at a position fixes the first digit run and is covered by the second |
| Playlist.ResolutionTextFound | renderer.js:282 | the two greedy digit runs around an `x` make a match |
| Playlist.ResolutionCaptureSpec | renderer.js:282-285 | the greedy reading is a match of the right shape |
| Playlist.ResolutionNoMatch | renderer.js:282-285 | when the greedy reading fails there is no match at that position |
| Playlist.ShapeOf | renderer.js:282 | digits, `x`, digits is a resolution |
| Playlist.BandwidthAt | renderer.js:283 | `/BANDWIDTH=(\d+)/` matches at a position exactly when digits follow `BANDWIDTH=`; the capture is the whole digit run |
| Playlist.BandwidthTextAt | renderer.js:283 | a match is covered by the digit run after the key |
| Playlist.BandwidthWholeRun | renderer.js:283 | a match not followed by another digit is what is captured |
| Playlist.FirstMatch | renderer.js:282-283 | `String.prototype.match` finds nothing exactly when no position matches, and otherwise the leftmost match |
| Playlist.FirstMatchAt | renderer.js:282-283 | the first position that matches determines the result |
| Playlist.LeftmostBandwidth | renderer.js:283-286 | the bandwidth is the rounded value of the leftmost `BANDWIDTH=` digits, including one inside `AVERAGE-BANDWIDTH=` |
| Playlist.BandwidthNone | renderer.js:283-286 | without any `BANDWIDTH=<digits>` in the tag line the bandwidth is 0 |
| Playlist.LeftmostResolution | renderer.js:282-285 | the resolution is the leftmost `RESOLUTION=<digits>x<digits>` |
| Playlist.Resolution | renderer.js:282-285 | the resolution is `Unknown` or has the shape `<digits>x<digits>` |
| Playlist.ResolutionUnknown | renderer.js:282-285 | the resolution is `Unknown` exactly when no position of the tag line holds `RESOLUTION=<digits>x<digits>` |
| Playlist.RoundKbps | renderer.js:286 | `Math.round(v / 1000)`: the nearest whole number, with halves rounded up |
| Playlist.BaseUrl | renderer.js:291 | the master URL up to and including its last `/`, empty without one |
| Playlist.AbsoluteUrl | renderer.js:289-293 | the trimmed URI line, kept as is when it starts with `http` and otherwise appended to the base URL |
| Playlist.SortByBandwidth | renderer.js:305 | the sort gives a descending, permuted list in which equal bandwidths keep their order |
| Playlist.StableSortUnique | renderer.js:305 | a stable descending order of given entries is unique, so the sort's result is the only one a stable sort can give |
| Playlist.Insert | renderer.js:305 | inserting into a sorted list keeps it sorted and adds exactly the element |
| Playlist.InsertStep | renderer.js:305 | the step where the head's bandwidth is strictly higher: the head stays in front and the entry goes into the tail, keeping order, contents and the order of equal bandwidths |
| Playlist.InsertStepSorted | renderer.js:305 | that step keeps the order |
| Playlist.WithBandwidthEmpty | renderer.js:305 | no entry with a bandwidth means an empty sublist |
| Playlist.WithBandwidthMember | renderer.js:305 | an entry's bandwidth has a non-empty sublist |
| Playlist.SortedMember | renderer.js:305 | every entry of the sorted list comes from the input |
| Playlist.MenuFallbackParsed | renderer.js:307-315 | after a successful scan, the fallback appears exactly when no line carries the tag |
| Page.DetectLiveStream | renderer.js:200-212 | never live on an address containing `/video/` or `/videos/`; otherwise live exactly when a live indicator exists or the path is a bare channel path |
| Page.MatchesChannelPathIsChannelPage | renderer.js:211 | the test for `/^\/[^/]+$/` holds exactly for `/` followed by a non-empty name without `/` |
| Page.FirstSegment | renderer.js:263-264 | `/^\/([^/]+)/` matches exactly when the path starts with `/` and a character other than `/`; the capture runs to the next `/` or the end |
| Page.SegmentRun | renderer.js:263 | the greedy `[^/]+` stops at the first `/` |
| Page.FirstSegmentOfChannelPage | renderer.js:263 | on a bare channel path, and only there, the first segment is the whole rest of the path |
| Page.GetStreamName | renderer.js:252-265 | with a title element, its trimmed text cut to 50 characters; otherwise the first path segment; otherwise `stream` |
| Page.StreamNameOfChannelPage | renderer.js:263-264 | without a title element a channel page is named after its channel |
| Recorder.GenerateFilename | main.js:17-21 | `KickClient_`, the name with every non-alphanumeric character turned into `_`, `_`, the time with `:` and `.` turned into `-`, `.mp4`, position by position |
| Recorder.MapChars | main.js:18-19 | a global one-character replacement maps each position |
| Recorder.SanitizeSafe | main.js:19 | the sanitized name keeps letters and digits in place, has `_` elsewhere, and sanitizing again changes nothing |
| Recorder.SanitizeCollides | main.js:19 | two names give the same file name part exactly when they have the same length and agree wherever either has a letter or digit |
| Recorder.FilenameCharacters | main.js:17-21 | a file name has no `:`, no `.` before its extension, and no `/` when the time has none |
| Recorder.NameOrDefault | main.js:68 | an absent or empty name is replaced by the fallback |
| Recorder.IsTransient | main.js:111-113 | an error is transient exactly when its message contains `Connection`, `timeout` or `end of file` |
| Recorder.ErrorDecision | main.js:110-120 | an error is retried exactly when fewer than 5 reconnects happened since the last start and it is transient |
| Recorder.AttemptsAfter | main.js:95-116 | `start` resets the counter, a retried error adds one, other events leave it |
| Recorder.ReplayBounded | main.js:75-114 | the counter never exceeds 5 |
| Recorder.ReplayCountsFailures | main.js:97-114 | the counter grows only by errors |
| Recorder.FiveRetriesThenGiveUp | main.js:110-120 | from a start, five transient errors are retried and the sixth is not |
| Recorder.FlappingNeverGivesUp | main.js:95-116 | a connection that keeps dropping and coming back is retried without end |
| Recorder.ShutdownSignalsSpec | main.js:260-266 | shutdown signals the job of every registered URL whose kill does not throw, and nothing else |
| Recorder.MainProcess.constructor | main.js:9 | the registry starts empty |
| Recorder.MainProcess.Launch | main.js:131-132 | a launch files the new job under its input URL and replaces any job there |
| Recorder.MainProcess.StartRecording | main.js:65-147 | the file name and path derived from the name or `stream`, a fresh counter at 0, the launched job filed under the stream URL, and the reply carrying the file name and path |
| Recorder.MainProcess.OnStart | main.js:95-98 | ffmpeg's `start` resets the counter |
| Recorder.MainProcess.OnError | main.js:106-121 | a retried error counts one more reconnect, sets a 3000 ms relaunch and leaves the registry; any other error deletes the stream and reports the message |
| Recorder.MainProcess.OnEnd | main.js:122-129 | the stream leaves the registry and completion is reported with path and file name |
| Recorder.MainProcess.RelaunchTimerFired | main.js:116-132 | a relaunch files a new job under the stream URL, even after a stop |
| Recorder.MainProcess.StopRecording | main.js:150-162 | a registered job is sent SIGINT and leaves the registry; a throwing kill reports its error and changes nothing; an unknown URL gives `No active recording found` |
| Recorder.MainProcess.GetActiveRecordings | main.js:165-167 | the registered URLs, each once, in insertion order |
| Recorder.MainProcess.DownloadVod | main.js:170-210 | the file name and path derived from the name or `vod`, the launched job filed under the VOD URL, and a reply with the file name but no path |
| Recorder.MainProcess.OnDownloadError | main.js:191-194 | the error is reported and the URL stays registered |
| Recorder.MainProcess.OnDownloadEnd | main.js:195-200 | completion is reported and the URL stays registered |
| Recorder.MainProcess.WindowAllClosed | main.js:258-267 | every job whose kill does not throw is sent SIGINT in insertion order, errors are swallowed, and the registry ends empty |
| Recorder.LiveRecording.constructor | main.js:68-77 | each recording starts with its counter at 0 |
| Recorder.StopDuringReconnect | main.js:116-162 | stopping a stream while it waits to reconnect leaves it registered after the relaunch |
| Recorder.StartTwice | main.js:65-147 | starting a stream twice leaves one entry holding the second job, and only that job is signalled at shutdown |
| Recorder.FinishedDownloadStaysListed | main.js:165-203 | a finished VOD download is still listed as active |
| OrderedMaps.OrderedMap.Get | main.js:151 | `Map.get` finds exactly the registered keys |
| OrderedMaps.OrderedMap.Set | main.js:132 | `Map.set` maps the key to the value, keeps other entries, and appends a new key but keeps an existing key's position |
| OrderedMaps.OrderedMap.Delete | main.js:155 | `Map.delete` removes the key from the entries and from the key order, keeping the rest |
| OrderedMaps.OrderedMap.Empty | main.js:9 | an empty map |
| OrderedMaps.Remove | main.js:155 | removal from the key order drops exactly the key |
| OrderedMaps.RemoveDistinct | main.js:166 | removal keeps keys distinct |
| OrderedMaps.RemoveAt | main.js:155 | removing a key from distinct keys drops its one position |
| OrderedMaps.DistinctTail | main.js:166 | distinct keys stay distinct without their first element |
| OrderedMaps.SizeAgrees | main.js:166 | the key order lists as many keys as the map holds |
| OrderedMaps.DistinctCard | main.js:166 | distinct keys are as many as the set of them |
| JsStrings.Includes | renderer.js:208-209 | `includes` is true exactly when the text occurs somewhere |
| JsStrings.StartsWithConcat | renderer.js:282-283 | starting with `a + b` is starting with `a` followed by `b` |
| JsStrings.Trim | renderer.js:289 | `trim` keeps the infix between whitespace at both ends, which neither starts nor ends with whitespace |
| JsStrings.LeadingWhitespace | renderer.js:289 | the number of leading whitespace characters |
| JsStrings.TrailingWhitespace | renderer.js:289 | the number of trailing whitespace characters |
| JsStrings.TrimKeepsTrimmed | renderer.js:289 | a string without whitespace at its ends is its own trim |
| JsStrings.TrimIdempotent | renderer.js:289 | trimming twice is trimming once |
| JsStrings.Split | renderer.js:274 | `split` gives at least one piece and no piece holds the separator |
| JsStrings.JoinSplit | renderer.js:274 | joining the pieces of a split gives back the text |
| JsStrings.SplitJoin | renderer.js:274 | splitting a join of separator-free pieces gives back the pieces |
| JsStrings.LastIndexOf | renderer.js:291 | `lastIndexOf` gives -1 exactly when the character is absent, otherwise its last position |
| JsStrings.DigitRun | renderer.js:282-283 | the greedy `\d+`: the longest digit prefix |
| JsStrings.DigitRunIs | renderer.js:282-283 | a digit prefix followed by a non-digit is the whole run |
| JsStrings.DigitRunCovers | renderer.js:282-283 | the run covers every digit prefix |
| JsStrings.NatToString | renderer.js:296 | a number prints as digits without a leading zero |
| JsStrings.NatToStringValue | renderer.js:296 | reading back a printed number gives the number |

## Left out

- The network fetch of the master playlist: it is an input, either the response text or `None` for a failed fetch.
- The ffmpeg processes, their command-line options and their `progress` events are not modelled. A launch is a `Job` value, and ffmpeg's `start`, `error` and `end` events are method calls made in any order the caller chooses.
- Timers: the 3000 ms relaunch timer is a counter of pending relaunches plus the returned delay. `RelaunchTimerFired` is the timer firing.
- The clock: the ISO time a file name embeds is a parameter.
- The downloads folder is a parameter. `path.join` is modelled as plain concatenation with `/`, without normalisation.
- `command.kill` throwing is a parameter: the error message in `stop-recording`, and the set of failing URLs in `window-all-closed`.
- Throws inside the `start-recording` and `download-vod` promise bodies (the `reject` paths) are not modelled; the model assumes those bodies do not throw.
- The error object ffmpeg passes is modelled as its message string.
- `app.quit()` on platforms other than macOS, the console logging, and the unused `quality` argument of `start-recording` are not modelled.
- The DOM queries are not modelled. `detectLiveStream` takes whether a live indicator exists. `getStreamName` takes the title element's text, or `None` when there is none.
- `detectLiveStream` returns a match array or `null` in JavaScript, used as a truth value. It is modelled as a `bool`.
- Strings are sequences of UTF-16 code units as single characters. Characters outside the Basic Multilingual Plane and lone surrogates are not modelled, so neither is `substring(0, 50)` cutting a surrogate pair.
- Playlist.BandwidthKbps: it does not model floating point. `parseInt` of more than 15 or so digits loses precision in JavaScript; the model uses exact integers.
- Playlist.SortByBandwidth: it does not model the in-place array sort. The sort is specified as a function on sequences, since `Array.prototype.sort` is a library call.
- Everything else in the renderer and the main process is not part of this model: the recording UI and overlay, `getStreamUrl`, the watermark settings, the save dialog, window creation, CSS and script injection, and certificate handling. `preload.js` is not part of this model either.
