# Instagram downloader API: a verified model of its core

The server (`witout-gemini/app.py`) is a Flask application. It resolves an Instagram
post to direct media URLs, either through yt-dlp or by scraping the page. It also
converts videos to MP3 files that can be downloaded and transcribed for an hour, and
it accepts an uploaded Netscape cookie file for yt-dlp.

This project models the logic of that core, leaving out its I/O:

- `text.dfy` (module `Text`) holds the Python string operations the server relies on:
  - `strip()` on ASCII whitespace;
  - `replace()`;
  - `find` of one character;
  - `str(n)`.
- `cookies.dfy` (module `Cookies`) covers three things:
  - the `browser[:profile]` setting (`parse_cookies_from_browser`);
  - the yt-dlp option map built from the environment (`build_ydl_opts`, a method building the map step by step);
  - the check and normalisation of an uploaded cookie file (`update_cookies_file`).
- `urls.dfy` (module `InstagramUrls`) covers `extract_shortcode` and `validate_instagram_url`.
  - The regular expressions are matched by hand.
  - Each matcher is proved equal to a declarative reading of its pattern: `re.search` takes the leftmost match, the group is a greedy run, and `re.match` anchors at the start.
- `media.dfy` (module `Media`) covers media-list selection in `fetch_instagram_media` and `fetch_instagram_media_fallback`:
  - the choice of the best format with audio and video (Python's `max` keeps the first maximum);
  - the direct-URL and thumbnail entries;
  - the fallback's loop that cleans, de-duplicates and truncates the scraped URLs. It is a method with nested loops, proved against the function `FallbackResult`.
- `registry.dfy` (module `Registry`) covers the artifact registry:
  - `mp3_files`, the `transcriptions` cache and the files of the temporary directory, as the class `Server`;
  - one method per operation (conversion, the half-hourly sweep of files older than an hour, scheduled eviction, download, transcription), each proved equal to a function on the `Store` value;
  - lemmas about those functions: strict one-hour cut-off, idempotent and commuting evictions, the cache consulted only after the existence checks, only successful transcriptions cached, and an invariant kept by every event.

Clocks, `uuid4`, downloads, ffmpeg and the speech recogniser are parameters:
- a time `now`;
- the new `id`;
- a `ConvertRun` record of what the outside steps did;
- a total function standing for `transcribe_audio`.

The directory listing is a map from file name to modification time.

Evicting an MP3 does not drop its cached transcription: neither the sweep nor the
scheduled eviction touches `transcriptions`. `EvictedIdNotFound` shows the cache entry
outlives the file but can no longer be reached, because the registry check comes first.

An entry can also outlive its MP3. The sweep compares the MP3's own modification
time, which is earlier than the entry's `created` time by the duration of the probes
run between ffmpeg and the registration. A sweep in that window deletes the file and
keeps the entry (`SweepCanOrphanEntry`); the next download answers "file not found"
and drops it. A step that raises after the registration (removing the video, starting
the eviction timer) has the same effect: the error handler deletes the MP3 but not the
entry (`FailedConvertLeavesNoFiles`).

## Model

| member | source | states |
|---|---|---|
| Text.Strip | witout-gemini/app.py:45 | `strip()` gives a slice of the input with only whitespace before and after it, no whitespace at either of its ends, and the empty string exactly when the input is all whitespace |
| Text.StripDropsTrailingSpace | witout-gemini/app.py:722 | stripping a stripped text followed by one whitespace character gives the text back |
| Text.ReplaceAllRemoves | witout-gemini/app.py:722 | replacing a character by a text free of it leaves no copy of it |
| Text.ReplaceAllAbsent | witout-gemini/app.py:722 | a text in which the pattern cannot start is left unchanged by `replace` |
| Text.IndexOf | witout-gemini/app.py:45 | the position where `split(':', 1)` cuts: the first colon, or none exactly when there is no colon |
| Text.IndexOfFirst | witout-gemini/app.py:45 | a colon with no colon before it is where the split cuts |
| Text.NatToString | witout-gemini/app.py:486 | `str(int(...))` of a non-negative time is a non-empty string of decimal digits that denotes exactly that number, with no leading zero unless it is `0` |
| Cookies.ParseCookiesFromBrowser | witout-gemini/app.py:40-52 | a missing or empty setting gives nothing; otherwise nothing exactly when the part before the first colon is blank; the browser is that part stripped; a profile is present exactly when there is a colon and the part after it is not blank, and is that part stripped |
| Cookies.WholeSettingIsBrowser | witout-gemini/app.py:45-52 | a setting without a colon that is not blank gives `(strip value,)` |
| Cookies.SplitsAtFirstColon | witout-gemini/app.py:45-52 | for `b:p` with no colon in `b`, the result is `(strip b, strip p)`, `(strip b,)` when `p` is blank, nothing when `b` is blank; later colons stay in the profile |
| Cookies.Or | witout-gemini/app.py:56-63 | Python's `a or b`: `a` when `a` is truthy, `b` otherwise; so truthy exactly when either is |
| Cookies.BuildYdlOpts | witout-gemini/app.py:54-86 | the four fixed options; `cookiefile` exactly when the configured file (else `cookies.txt`) exists; `cookiesfrombrowser` exactly when there is no cookie file and the configured setting parses |
| Cookies.NormalizeWith | witout-gemini/app.py:716-731 | missing or empty content is rejected as missing; other content is rejected, for format, exactly when its line-unified, stripped text does not start with the header; accepted content becomes that text plus one line feed |
| Cookies.NormalizeCookieContent | witout-gemini/app.py:716-731 | the same for the Netscape header `# Netscape HTTP Cookie File`, and the accepted text is in normal form |
| Cookies.StrippedEndsWithoutLineFeed | witout-gemini/app.py:730-731 | a stripped text never ends in a line feed, so the `endswith` test always leads to the append |
| Cookies.AcceptedIsNormalized | witout-gemini/app.py:722-731 | what is accepted starts with the header, holds no carriage return and ends in exactly one line feed with no whitespace before it |
| Cookies.AcceptedAs | witout-gemini/app.py:722-731 | content whose unified, stripped text starts with the header is accepted as that text plus a line feed |
| Cookies.UnifiedHasNoCarriageReturn | witout-gemini/app.py:722 | after the two replacements no carriage return is left |
| Cookies.AcceptedShape | witout-gemini/app.py:722-731 | a stripped text never ends in a line feed, so the final `\n` is always appended; the result starts with the header and ends in exactly one line feed |
| Cookies.NormalFormBody | witout-gemini/app.py:722 | unifying and stripping a text in normal form removes exactly its final line feed |
| Cookies.NormalizeWithKeepsNormalized | witout-gemini/app.py:722-731 | content already in normal form is accepted unchanged |
| Cookies.NormalizeIdempotent | witout-gemini/app.py:722-731 | normalising an accepted cookie file again gives the same file |
| InstagramUrls.RunLength | witout-gemini/app.py:90-95 | what a greedy `[...]+` consumes: every character of the run is in the class, and the next one is not or the text ends |
| InstagramUrls.FindMatch | witout-gemini/app.py:97-98 | the first index from the start point where the pattern matches, and none exactly when it matches nowhere after it |
| InstagramUrls.SearchShortcode | witout-gemini/app.py:97-100 | `re.search` of one pattern: nothing exactly when it occurs nowhere; otherwise the greedy group at its leftmost match |
| InstagramUrls.CodeAfterIsShortcode | witout-gemini/app.py:90-95 | the captured group is a non-empty run of `[a-zA-Z0-9_-]` |
| InstagramUrls.ExtractFrom | witout-gemini/app.py:97-102 | the patterns are tried in order and the first that occurs gives the code |
| InstagramUrls.ExtractShortcode | witout-gemini/app.py:88-102 | nothing exactly when none of the four patterns occurs; otherwise the group of the first pattern (p, reel, tv, share/reel) that occurs, at its leftmost match |
| InstagramUrls.SearchFindsFirst | witout-gemini/app.py:97-100 | when the pattern's first letter does not occur before it, the search returns the code that follows it |
| InstagramUrls.PostUrlShortcode | witout-gemini/app.py:88-102 | `<lead>instagram.com/p/<code><rest>`, with no letter `i` in `<lead>` (as in `https://www.`) and `<rest>` not continuing the code, yields exactly `<code>` |
| InstagramUrls.ValidateInstagramUrl | witout-gemini/app.py:104-114 | accepted exactly when the value is present and the post pattern or the story pattern matches at its start |
| InstagramUrls.MatcherAgreesWithPatterns | witout-gemini/app.py:109-114 | the hand matcher accepts exactly the URLs one of the two anchored patterns matches |
| InstagramUrls.MatcherSound | witout-gemini/app.py:109-114 | every URL the matcher accepts matches one of the patterns |
| InstagramUrls.PostPatternMatched | witout-gemini/app.py:110 | every URL matching the post pattern is accepted |
| InstagramUrls.StoryPatternMatched | witout-gemini/app.py:111 | every URL matching the story pattern is accepted; the greedy name run stops at the `/` |
| InstagramUrls.HostDetermined | witout-gemini/app.py:110-111 | the scheme and the optional `www.` alternatives are decided by the URL alone |
| InstagramUrls.KindDetermined | witout-gemini/app.py:110 | the `(p\|reel\|tv\|share)/` alternative is decided by the path alone |
| InstagramUrls.TrailingTextAllowed | witout-gemini/app.py:114 | the patterns are not anchored at the end: text appended to an accepted URL keeps it accepted |
| Media.PlayableFormats | witout-gemini/app.py:246-247 | keeps exactly the formats whose video and audio codecs are not `none` |
| Media.PlayableFormatsKeepOrder | witout-gemini/app.py:246-247 | the comprehension keeps the formats' order: the `k`-th kept format sits at an index `i` of the list, and the ones kept before it are exactly those kept from the first `i` formats |
| Media.BestIndex | witout-gemini/app.py:251 | `max` by height (a missing height counts 0): no format is higher, and every earlier one is strictly lower, so the first of the highest wins |
| Media.ChosenFormat | witout-gemini/app.py:244-251 | nothing exactly when no format has audio and video; otherwise such a format of greatest height, and the first of those in the list |
| Media.BestPlayableIsFirst | witout-gemini/app.py:246-251 | a kept format higher than every kept format before it is higher than every earlier format with audio and video in the whole list |
| Media.SelectMedia | witout-gemini/app.py:237-274 | no info is an error; a video entry exactly when `formats` is present and non-empty, taken from the chosen format, else from `info['url']` as `HD` (an error when there is none); without formats it succeeds, with the thumbnail entry alone when there is one; the thumbnail is the last entry exactly when it is set; the list holds exactly one video entry when formats are present plus one photo entry when the thumbnail is set, and nothing else |
| Media.CleanUrl | witout-gemini/app.py:349 | after removing `&` escapes and backslashes, no backslash is left |
| Media.PatternEntries | witout-gemini/app.py:347-349 | one cleaned entry of the pattern's kind per match, in match order |
| Media.CollectFallbackMedia | witout-gemini/app.py:337-373 | the loop's result equals the dedup-and-truncate specification; one to five entries, non-empty backslash-free URLs, no URL twice; an error exactly when every cleaned URL is empty |
| Media.AdmitStep | witout-gemini/app.py:350-355 | one turn of the inner loop appends the entry exactly when its URL is non-empty and not yet listed |
| Media.FallbackResultShape | witout-gemini/app.py:346-373 | the fallback's list has one to five entries with distinct, non-empty, backslash-free URLs, or is an error exactly when no candidate URL is non-empty |
| Media.CandidatesClean | witout-gemini/app.py:346-349 | no candidate URL holds a backslash |
| Media.KeptEntriesWellFormed | witout-gemini/app.py:350-355 | every listed entry is a candidate with a non-empty URL |
| Media.KeptEntriesDistinct | witout-gemini/app.py:350 | no URL is listed twice |
| Media.KeepsEveryUrl | witout-gemini/app.py:346-355 | every non-empty candidate URL is listed |
| Media.KeepsFirstOccurrence | witout-gemini/app.py:339-355 | each listed entry is the first candidate with its URL, so pattern order then match order decides its kind |
| Media.KeptInCandidateOrder | witout-gemini/app.py:339-355 | listed entries come in the order of the candidates they were taken from: pattern order, then match order; each is taken from the first candidate carrying its URL |
| Media.AdmittedIsFirst | witout-gemini/app.py:349-355 | a candidate the loop appends has a URL no earlier candidate carries |
| Media.ResolveMedia | witout-gemini/app.py:232-298 | the yt-dlp result when it succeeds; otherwise, when the page was fetched, success exactly when the fallback succeeds, with the fallback's list; every failure carries the yt-dlp error, as the re-raised exception does |
| Registry.StatusCode | witout-gemini/app.py:572-616 | 200 exactly for a conversion, a file sent or a transcription (failed ones included); 404 exactly for an unknown id or a vanished file |
| Registry.PathsDistinct | witout-gemini/app.py:463-464 | a video and an MP3 never share a name, and distinct ids never share an MP3 |
| Registry.NormalizeQuality | witout-gemini/app.py:447-459 | one of 128, 192, 320: the requested one when it is offered, 192 otherwise |
| Registry.Server.constructor | witout-gemini/app.py:33-38 | the server starts with both dictionaries empty and the temporary directory holding the files it already had (`exist_ok=True` keeps them); that state satisfies the registry invariant |
| Registry.CreatedAt | witout-gemini/app.py:477-490 | the registration time is not before the time ffmpeg wrote the MP3 |
| Registry.Server.Convert | witout-gemini/app.py:439-537 | the new state and reply are those of `ConvertSpec`: 400 without a video URL; a failure before the registration deletes both temporary files and leaves the dictionaries; otherwise as `Register` |
| Registry.Server.Register | witout-gemini/app.py:484-537 | the new state and reply are those of `RegisterSpec`: the entry is registered with the registration time; then the video is removed, or, when a later step raises, both files are removed and the entry stays |
| Registry.Server.DiscardFiles | witout-gemini/app.py:526-532 | the error handler's loop deletes exactly the listed files that exist, and nothing else changes |
| Registry.Server.Sweep | witout-gemini/app.py:380-404 | the new state is `SweepSpec`: files and entries more than one hour old are gone, the rest and the cache are kept |
| Registry.Server.ScheduledEvict | witout-gemini/app.py:500-508 | the new state is `EvictSpec`: the MP3 and its entry are gone if they were there |
| Registry.Server.Check | witout-gemini/app.py:543-556 | the registry check, then the file check that drops a vanished entry |
| Registry.Server.DownloadMp3 | witout-gemini/app.py:539-570 | the new state and reply are those of `DownloadSpec` |
| Registry.Server.Transcribe | witout-gemini/app.py:572-616 | the new state and reply are those of `TranscribeSpec` |
| Registry.SweepCutoffIsStrict | witout-gemini/app.py:383-401 | the cut-off is strict and applies separately to each entry (by its creation time) and each file (by its modification time): exactly one hour old survives the sweep, one second older is removed |
| Registry.SweepIdempotent | witout-gemini/app.py:380-404 | a second sweep at the same time changes nothing |
| Registry.SweepSubsumesEarlier | witout-gemini/app.py:380-404 | an earlier sweep followed by a later one is the later one alone |
| Registry.SweepKeepsEntryOfSurvivingFile | witout-gemini/app.py:380-404 | in a consistent store an MP3 the sweep keeps still has its entry |
| Registry.SweepCanOrphanEntry | witout-gemini/app.py:477-497 | a sweep more than an hour after ffmpeg wrote the MP3, but not after its registration, deletes the file and keeps the entry, and the download then answers "file not found" |
| Registry.EvictIdempotent | witout-gemini/app.py:500-508 | evicting twice is evicting once |
| Registry.EvictCommutesWithSweep | witout-gemini/app.py:500-508 | the scheduled eviction and the sweep give the same state in either order |
| Registry.EvictedIdNotFound | witout-gemini/app.py:577-581 | after eviction the cache is untouched, yet download and transcription both answer "not found or expired" and change nothing |
| Registry.VanishedFileDropped | witout-gemini/app.py:585-590 | a registered id whose file is gone is answered 404 by both endpoints and dropped from the registry, nothing else changing |
| Registry.CacheHitIgnoresRecogniser | witout-gemini/app.py:593-597 | a cached id is answered with the cached result, whatever recogniser or language, and nothing changes |
| Registry.LanguageOrDefault | witout-gemini/app.py:601 | "pt" when the field is absent, no language for a JSON `null`, the given string otherwise |
| Registry.CacheMissAsksRecogniser | witout-gemini/app.py:599-609 | on a miss the recogniser gets the registered path and the requested language; only a successful result is stored |
| Registry.ConvertThenDownload | witout-gemini/app.py:482-497 | after a successful conversion the video is gone and the download sends `audio_<id>.mp3` as `instagram_audio_<registration time>.mp3` |
| Registry.FailedConvertLeavesNoFiles | witout-gemini/app.py:493-537 | after a failed conversion the status is 500, the cache is unchanged and neither temporary file is left; before the registration the registry is unchanged too; after it the entry stays and the next download answers "file not found" and drops it |
| Registry.ConvertKeepsInvariant | witout-gemini/app.py:462-497 | a conversion keeps every entry pointing at its own MP3, with an MP3 on disk no younger than its entry, and the cache holding only successes |
| Registry.StepKeepsInvariant | witout-gemini/app.py:36-38 | every event (conversion, sweep, eviction, download, transcription) keeps both invariants |
| Registry.RunKeepsInvariant | witout-gemini/app.py:36-38 | any sequence of events keeps both invariants |

## Left out

- HTTP, Flask, CORS and rate limiting are not modelled: request bodies are arguments and replies are values. So are the health check, the proxy and the index routes.
- The network is not modelled (yt-dlp's extraction, the page requests, `download_file`). Their outcomes are inputs: an optional `VideoInfo`, the `re.findall` results per fallback pattern, and `ConvertRun.downloadOk`.
- ffmpeg and ffprobe (`convert_to_mp3`, `get_video_duration`) are inputs: `ConvertRun.ffmpegOk`, and `ConvertRun.afterEncode` for the seconds between ffmpeg writing the MP3 and the registration. The size and duration fields of a registry entry and of the reply are left out.
- The Whisper recogniser inside `transcribe_audio` is replaced by an arbitrary total function from a path and an optional language to a result.
- Threads and sleeps are not modelled: `periodic_cleanup` and the thread started by `schedule_cleanup`. Their bodies are the operations `Sweep` and `ScheduledEvict`, which may run at any point of an event sequence.
- Floating-point time: times are whole seconds. The `time.time()` calls of lines 486 and 490 are one registration time, used for both `created` and the file name; the MP3's modification time is the earlier time `now`, and the video's is taken to be the same (it is deleted on every path).
- Floating-point size: `get_file_size_mb` is the already rounded value in hundredths of a megabyte.
- Writing the cookie file, its backup and its atomic replacement are not modelled (`update_cookies_file` after line 731). Only the content check and normalisation are.
- Registry.Server.Convert: the `title` metadata passed to ffmpeg is not modelled, nor an exception of the size probe of line 480 (the duration probe catches its own); that step is taken to succeed.
- Registry.Server.Register: the failures after the registration (the removal of the video at line 497, the timer start at line 510) are one flag; when the removal itself raised, the handler's second removal is taken to succeed.
- Text.Strip: only ASCII whitespace is stripped; Python also strips Unicode spaces.
- Media.SelectMedia: a `height` key present with the value `None` is not modelled (the model's `None` is an absent key). With two or more playable formats Python's `max` would raise on it and the request would go to the fallback; with a single one `max` does not compare, and the quality becomes the text `Nonep`.
- Media.SelectMedia: a format without a `url` key (a `KeyError` in Python) is not modelled.
- Media.SelectMedia: the `metadata` dictionary (title, uploader, description, duration) is not modelled.
- Media.CollectFallbackMedia: the title and description scraped for the fallback's metadata are not modelled.
- Media.CollectFallbackMedia: the regular expressions of the four page patterns are not modelled. Their matches are inputs.
- Python's dynamic typing is not modelled: a setting, URL or cookie content is a string or `None`. A falsy non-string value (`false`, `0`, an empty list) stands for `None`, as `if not ...` treats it.
- Registry.Server.Convert: a truthy non-string `video_url` (a number, `true`) passes the check of line 450 and makes `requests.get` raise in `download_file`, which the handler answers with 500; in the model it stands for `Some(text)` with `run.downloadOk == false`, answered `ConversionFailed(DownloadFailed)`, not for `None` (which is the 400 of `MissingVideoUrl`).
- Exceptions raised by `os.remove`, `os.path.getmtime` or `os.listdir` inside the clean-up routines are not modelled, and their effects differ: in `cleanup_old_files` one such failure reaches the single `except` of line 403, which ends the whole sweep and skips the registry pass of lines 394-401; in the conversion handler's clean-up (lines 527-532) a failing removal is swallowed by `except: pass` and nothing is printed.
