# Shazam Vinylstreamer: a verified model of the recognition loop

The service watches an Icecast stream. While someone is listening, it records
a short clip, has the Shazam service identify it, downloads the cover art, and
pushes "artist - title" plus the cover URL into the stream's metadata through
Icecast-KH's `admin/metadata?mode=updinfo` request. This project models the
deterministic decisions inside that glue, in six modules:

- `Wrappers`: `Option`, used for JSON keys that may be absent and for a track
  that may be unset.
- `Listeners`: the listener probe (`get_listener_count`). The stats document
  is modelled after JSON parsing. The `source` field is one object or a list
  of objects, and each may lack `listeners`. Any element that is not an
  object, and any fetch or parse failure, gives 0.
- `Metadata`: the `song` string and the ordered query parameters of the
  metadata update.
- `Recognition`: extraction of `{title, artist, album, cover}` from the
  Shazam response. It covers the "Unknown" defaults, the album scan (a
  nested loop with `break`, kept as a method with loops) and the cover
  fallback from `coverarthq` to `coverart`.
- `Publishing`: `download_cover`'s early exit and `handle_track`'s decision
  about which cover URL to publish. Side effects are `Effect` values:
  `Publish`, `ClearCover`, `Download`, `Capture` and `Sleep`.
- `Orchestrator`: the main loop. Its state is the loop's two variables,
  `lastTrack` and `prevListeners`. One pass of `while True` is a step. The
  specification step `StepOutcome` takes what the pass observed: the
  listener count, and for each of the two capture blocks whether the capture
  succeeded, the recognised track or no match, and whether the cover
  download succeeded. It returns the new state and the ordered effects. The
  imperative methods `Poll`, `Pass` and `Serve` work on the raw replies
  instead (the stats document and the Shazam responses). They run them
  through `ListenerCount` and `Recognize`, and each is proved equal to the
  specification (`PollOutcome`, `StepOutcome`, `Run`) of what it observed.
  The lemmas prove the placeholder rules, deduplication and the no-match
  reset about `Run` and its step.

Two behaviours of the code are easy to misread, and the model keeps both:

- Album: the `break` at shazam_vinylstreamer.py:185 leaves only the inner
  loop over a section's metadata, so a later section with an album entry
  overwrites an earlier one. `AlbumOf` and `ScanAlbum` take the first album
  entry of the last section that has one.
- Song: only the title is tested (shazam_vinylstreamer.py:89), so an empty
  artist with a title gives " - title". `Metadata.Song` follows the code.

## Model

| member | source | states |
|---|---|---|
| Listeners.SumListeners | shazam_vinylstreamer.py:76-77 | summing a source list succeeds exactly when every element is an object; with no negative counts the sum is non-negative |
| Listeners.ListenerCount | shazam_vinylstreamer.py:72-81 | the probe gives 0 when the fetch or parse fails, when `icestats` is missing or not an object, and when `source` is missing or is neither an object nor a list; it is non-negative when no present count is negative |
| Listeners.SumIsTotalOfPresent | shazam_vinylstreamer.py:77 | for a list of objects, the sum with absent counts read as 0 equals the total of the counts actually present |
| Listeners.ListOfSourcesTotal | shazam_vinylstreamer.py:75-79 | a list of sources totals its present counts; a list with a non-object element gives 0 |
| Listeners.SingleAgreesWithList | shazam_vinylstreamer.py:76-78 | a single source object counts its `listeners` or 0, and the same as a one-element list holding it |
| Metadata.Song | shazam_vinylstreamer.py:89 | the song starts with the artist; it equals the artist exactly when the title is empty, and otherwise continues with " - " and the title |
| Metadata.SongDeterminesTitle | shazam_vinylstreamer.py:89 | for a fixed artist, equal song strings mean equal titles |
| Metadata.UpdateParams | shazam_vinylstreamer.py:90-96 | the parameter names are `mount`, `mode`, `song` in that order, then `url` only when the cover URL is non-empty; a `url` parameter always carries that non-empty URL |
| Metadata.UpdateParamsContent | shazam_vinylstreamer.py:90-96 | the parameters are `mount`, `mode`, `song` and then `url` only when the cover URL is non-empty; the mount and `updinfo` are fixed, the song and URL are looked up as given |
| Recognition.AlbumLabelIgnoresCase | shazam_vinylstreamer.py:183 | a metadata entry matches exactly when its label spells "album" in any mix of case |
| Recognition.FirstAlbumIndex | shazam_vinylstreamer.py:182-185 | finds the first entry of a section with an album label, and only when one exists |
| Recognition.AlbumOf | shazam_vinylstreamer.py:180-185 | the album is "Unknown" or the text of some metadata entry labelled "album" |
| Recognition.ScanAlbum | shazam_vinylstreamer.py:180-185 | the nested scan with `break` ends with `AlbumOf` of the sections |
| Recognition.AlbumUnknownWithoutLabel | shazam_vinylstreamer.py:180-185 | with no album entry in any section, the album is "Unknown" |
| Recognition.AlbumFromLastLabelledSection | shazam_vinylstreamer.py:180-185 | otherwise the album is the text of the first album entry of the last section that has one, or "Unknown" if that entry has no text |
| Recognition.CoverOf | shazam_vinylstreamer.py:188-189 | a non-empty `coverarthq` wins; without one, `coverart` is used, or "" when it is absent |
| Recognition.CoverFallback | shazam_vinylstreamer.py:188-189 | the cover is empty exactly when both image URLs are absent or empty, and otherwise it is one of them |
| Recognition.Extract | shazam_vinylstreamer.py:175-196 | a provider error or an absent, null or empty `track` gives the empty result; otherwise title and artist come from `title` and `subtitle`, defaulting to "Unknown" only when absent, with the scanned album and the fallback cover |
| Recognition.Recognize | shazam_vinylstreamer.py:175-196 | running the scan loop yields exactly the extracted record |
| Publishing.DownloadCover | shazam_vinylstreamer.py:116-134 | an empty URL returns false and attempts nothing; otherwise one download is attempted and its success is returned |
| Publishing.HandleTrack | shazam_vinylstreamer.py:218-223 | a track with a cover gives a download of that cover then a publish; without one, only a publish; the publish carries the track's artist and title |
| Publishing.HandleTrackPublishesOnce | shazam_vinylstreamer.py:218-223 | handling a track publishes once, last, with artist and title unchanged; the public cover URL is used exactly when the cover is non-empty and its download succeeded, else ""; a download of that cover happens exactly when it is non-empty |
| Orchestrator.PollOutcome | shazam_vinylstreamer.py:254-264 | a capture-and-recognise block (here the immediate one; the regular one at lines 277-294 decides the same way) always starts with the capture; the last track stays as it was or, after a successful capture, becomes the recognised track, or unset on no match |
| Orchestrator.PollRules | shazam_vinylstreamer.py:275-294 | a pass captures once, first; a failed capture changes nothing; a new track becomes the last track and is handled once; an equal track changes nothing; no match forgets the last track, clears the cover and publishes "Unknown" |
| Orchestrator.Poll | shazam_vinylstreamer.py:253-264 | the capture-and-recognise block run on the raw Shazam reply ends exactly as `PollOutcome` of the extracted result, so `PollRules` holds of it |
| Orchestrator.StepOutcome | shazam_vinylstreamer.py:237-300 | after a pass the listener memory is 0 without listeners and the count otherwise; a pass without listeners keeps the last track; every pass ends with a wait, 15 seconds idle and 30 active |
| Orchestrator.IdleOutcome | shazam_vinylstreamer.py:238-244 | a pass without listeners keeps the last track, sets the memory to 0, ends with the 15-second wait, and publishes "Paused" exactly when there were listeners before |
| Orchestrator.ActiveOutcome | shazam_vinylstreamer.py:246-300 | a pass with listeners sets the memory to the count, ends with the poll wait, and opens with "Detecting..." exactly when there were no listeners before |
| Orchestrator.Run | shazam_vinylstreamer.py:229-300 | before any pass the state is the start state with no effects; every pass leaves at least one effect, and a trace of at least one pass ends with a wait |
| Orchestrator.IdleStep | shazam_vinylstreamer.py:237-244 | with no listeners, "Paused" is published only if there were listeners before; the last track is kept, the listener memory becomes 0, nothing is captured, and the pass ends with a 15-second wait |
| Orchestrator.ActivationStep | shazam_vinylstreamer.py:246-300 | on activation the trace is exactly "Detecting...", the 5-second wait, the immediate poll's effects, the regular poll's effects (starting from the track the immediate poll left) and the poll wait, so `PollRules` holds of both polls; two captures happen, the first after the wait; the listener memory becomes the count |
| Orchestrator.SteadyStep | shazam_vinylstreamer.py:269-300 | with listeners before and now, the pass is one regular poll then the 30-second wait, with one capture |
| Orchestrator.IdleRunPausesAtMostOnce | shazam_vinylstreamer.py:238-244 | over consecutive passes without listeners, "Paused" is published at most once, nothing is captured and the last track is kept |
| Orchestrator.ListenerMemory | shazam_vinylstreamer.py:233-269 | from process start, the listener memory is 0 after a pass without listeners (or before any pass) and that pass's count after one with listeners |
| Orchestrator.PausedOnlyOnActiveToIdleEdge | shazam_vinylstreamer.py:240-241 | a pass without listeners publishes exactly when the previous pass had listeners |
| Orchestrator.DetectingOnlyOnIdleToActiveEdge | shazam_vinylstreamer.py:247-249 | a pass with listeners opens with "Detecting..." exactly when it is the first pass or follows a pass without listeners |
| Orchestrator.SameTrackNotRepublished | shazam_vinylstreamer.py:283-289 | the same track recognised in two consecutive active passes is published at most once: the second pass publishes nothing |
| Orchestrator.NoMatchForgetsLastTrack | shazam_vinylstreamer.py:290-294 | after a no-match pass the last track is unset, so a following match is published even if it equals the track before the gap |
| Orchestrator.PlaceholdersCarryNoCover | shazam_vinylstreamer.py:241-264 | the "Paused", "Detecting..." and "Unknown" placeholders send their word as the song and no `url` |
| Orchestrator.EchoesExample | shazam_vinylstreamer.py:277-287 | a recognised "Echoes" by Pink Floyd with a downloadable cover gives capture, download, then a publish of "Pink Floyd - Echoes" with the public cover URL, then the poll wait |
| Orchestrator.Pass | shazam_vinylstreamer.py:237-300 | one pass of the loop body, run on the raw stats and Shazam replies, ends in the state and with the effects that `StepOutcome` gives for the observed count and results, so the step lemmas hold of it |
| Orchestrator.Serve | shazam_vinylstreamer.py:229-300 | the imperative main loop over a finite sequence of raw passes ends in the state and with the trace that `Run` gives for what those passes observed |

## Left out

- HTTP I/O: the stats fetch, the metadata push and the cover download. Their outcomes are inputs: `StatsReply`, whether the download succeeded, and nothing at all for the metadata push, whose failure the source swallows.
- JSON decoding and Python's dynamic typing. Responses are modelled after parsing. A wrong-typed value is one of the explicit "not an object" variants, or a provider error. Values of an unexpected type (a boolean or float count, a null label) are not modelled beyond that.
- The ffmpeg capture (`capture_audio`) and its timeout. Its result is the `captured` flag.
- The `shazamio` call itself. Its result, or any exception it raises, is a `ShazamReply`.
- Percent-encoding by `urllib.parse.urlencode`, the request URL and the base64 basic-auth header. The parameters stay an ordered key/value list.
- Files: temp-file creation and deletion, `fsync`, the atomic `os.replace`, and the removal done by `clear_cover`. They appear only as the `Download` and `ClearCover` effects. The guarantee that readers never see a partial cover is not modelled.
- Time and concurrency: `asyncio.sleep` becomes a `Sleep` effect. The endless `while True` becomes `Serve` and `Run` over any finite sequence of passes. An exception escaping the loop, which ends the process, is not modelled.
- Logging and configuration loading. The constants (mount, public cover URL, the 30/15/5-second waits) are fixed values.
- Recognition.AlbumLabelIgnoresCase: lower-casing is ASCII only. Python's `str.lower` also lower-cases non-ASCII letters.
