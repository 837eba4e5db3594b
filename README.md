# Instagram reel scraper, audio extractor and screenshot analyser — a Dafny model

This project models the sequential logic of three of the repository's Python scripts:

- `instagram_scraper.py` drives a browser. It:
  - finds the reel identifier in the post URL;
  - takes numbered screenshots while the video plays;
  - collects the caption texts;
  - returns a four-key result, or an `error` dictionary.
- `audio_transcriber.py` runs a four-stage pipeline:
  - a dependency check (`yt-dlp`, `pip`, `ffmpeg`);
  - a download to `videos/<id>.mp4`;
  - an audio extraction to `audio/<id>.mp3`;
  - a placeholder transcript saved as `transcripts/<id>_transcript.json`.

  Each stage returns early on failure.
- `analyze_images.py` lists the `*.png` files of a screenshot directory in order and builds a placeholder result. It names that result file `<dir>_analysis.json`, beside the directory.

The browser, the wall clock, the timestamp, the subprocess runs and the filesystem are not modelled as effects. Each of them becomes an oracle input:

- a `Session` holds the clock readings, the screenshot outcomes and the "is the video playing?" probe answers;
- an `Exit` per subprocess run;
- `set<Path>` snapshots of the files that exist.

The model is organised as follows:

- `ReelId` defines `extract_reel_id` once, as a function. It includes a hand-written matcher for the regular expression `/(reel|reels|p)/([^/]+)`.
- `AudioTranscriber.ExtractReelId` is the second, loop-shaped copy of `extract_reel_id`. It is proved to agree with the first copy on every path.
- `Paths` models the part of `pathlib.PurePosixPath` the scripts use.
- `Strings` and `Ordering` model `split`, `join`, `strip` and Python string order.
- `Ordering.SortStrings` models `sorted`.
- `Decimal` models `{n:03d}`.

The screenshot loop is an imperative `while` loop, proved against `FramePaths`:

- after `n` screenshots the list is exactly the first `n` frame paths;
- the loop stops exactly as `StopsAfter` describes;
- a failing screenshot raises its exception.

Several properties link the scripts to each other:

- the regular-expression fallback of `extract_reel_id` can never be the branch that returns;
- frame names are distinct;
- below 1000 frames, frame names sort in capture order, and the bound is tight;
- `analyze_images` on a capture directory gives back exactly the list `take_screenshots` returned. This holds when the run took at most 1000 screenshots and the directory's `*.png` entries are exactly that run's frames. An earlier, longer run into the same directory leaves extra frames behind, because the directory is reused (`mkdir(exist_ok=True)`).

What the program does, and so what the model does:

- frames are named `screenshot_000.png`, `screenshot_001.png`, and so on;
- the screenshot loop stops on a wall-clock test against `max_duration` and on a probe that reports the video is not playing;
- a probe that raises is ignored, and the loop goes on;
- the interval only feeds `asyncio.sleep` and is never checked;
- a screenshot exception ends `take_screenshots`, and `scrape_reel` turns it into `{"error": …}`;
- the download runs once, with no retry;
- the stages of `process` run one after another.

## Model

| member | source | states |
|---|---|---|
| ReelId.IsMarker | instagram_scraper/instagram_scraper.py:88 | `part == 'reel' or part == 'reels' or part == 'p'`; `ReelId.SearchFrom` and `ReelId.ExtractReelId` are stated in its terms |
| ReelId.Segments | instagram_scraper/instagram_scraper.py:84 | `path.strip("/").split("/")` has at least one piece, and no piece contains `/` |
| ReelId.SearchFrom | instagram_scraper/instagram_scraper.py:87-90 | the result is the successor of the first marker segment (`reel`, `reels`, `p`) at or after `i`; it is `None` exactly when no such segment has a successor; any result is one of the segments |
| ReelId.RunLength | instagram_scraper/instagram_scraper.py:93 | `[^/]+` is greedy: the run stops at the end of the string or at a `/` |
| ReelId.Group | instagram_scraper/instagram_scraper.py:93-95 | group 2 of a match is non-empty and contains no `/` |
| ReelId.MarkerAt | instagram_scraper/instagram_scraper.py:93 | `/m/` followed by a non-`/` character matches at one position; `ReelId.StripAroundMatch` starts from it |
| ReelId.MatchesAt | instagram_scraper/instagram_scraper.py:93 | some alternative of the pattern matches at one position; `ReelId.RegexSearch` and `ReelId.FallbackUnreachable` use it |
| ReelId.MatchAt | instagram_scraper/instagram_scraper.py:93 | the alternation `reel`, `reels`, `p` tried in order at one position; `ReelId.RegexSearchFrom` and `ReelId.MatchGivesSegment` characterise it |
| ReelId.RegexSearchFrom | instagram_scraper/instagram_scraper.py:93-95 | a result of `re.search` from position `j` is non-empty, has no `/`, and comes from a match at or after `j` |
| ReelId.RegexSearch | instagram_scraper/instagram_scraper.py:93-95 | a result is non-empty, has no `/`, and some position of the path matches the pattern |
| ReelId.StripBounds | instagram_scraper/instagram_scraper.py:84 | `strip("/")` keeps everything from the marker to the identifier's first character |
| ReelId.StripAroundMatch | instagram_scraper/instagram_scraper.py:84 | after stripping, the matched marker is still delimited by `/`, or by the start of the string, and a character follows it |
| ReelId.MarkerInSlice | instagram_scraper/instagram_scraper.py:84 | a delimited marker inside the kept slice appears there, shifted by the slice start |
| ReelId.SegmentWithSuccessor | instagram_scraper/instagram_scraper.py:84 | a separator-free piece that is delimited and followed by more text is a split segment that has a successor |
| ReelId.MatchGivesSegment | instagram_scraper/instagram_scraper.py:84-95 | wherever the regular expression matches, the split path has a marker segment with a successor |
| ReelId.FallbackUnreachable | instagram_scraper/instagram_scraper.py:87-97 | when the segment loop finds nothing, the regular expression finds nothing either |
| ReelId.ExtractReelId | instagram_scraper/instagram_scraper.py:73-97 | `None` exactly when no marker segment has a successor; otherwise the segment after the first marker segment; never contains `/`; always one of the segments |
| ReelId.FileId | instagram_scraper/instagram_scraper.py:110 | `extract_reel_id(url) or fallback`: a non-empty identifier is kept; `None` or `""` gives the fallback |
| ReelId.FileIdOfPath | instagram_scraper/instagram_scraper.py:110 | the file key, stated in terms of the path segments: the fallback when there is no marker; otherwise the marker's successor, or the fallback when that successor is empty (`/reel//x`); it is slash-free and non-empty when the fallback is |
| AudioTranscriber.ExtractReelId | instagram_scraper/audio_transcriber.py:31-55 | the second copy, written as a loop with an early return, equals `ReelId.ExtractReelId` on every path |
| Strings.FirstSlash | instagram_scraper/instagram_scraper.py:84 | the index of the first `/`, or the length when there is none |
| Strings.Split | instagram_scraper/instagram_scraper.py:84 | `str.split("/")` always yields at least one piece |
| Strings.SplitNoSlash | instagram_scraper/instagram_scraper.py:84 | no piece of a split contains `/` |
| Strings.SplitStep | instagram_scraper/instagram_scraper.py:84 | a split is the piece before the first `/` followed by the split of the rest |
| Strings.SplitConcat | instagram_scraper/instagram_scraper.py:84 | splitting `x + "/" + y` splits `x` and `y` independently |
| Strings.SplitPlain | instagram_scraper/instagram_scraper.py:84 | a string without `/` splits into itself |
| Strings.JoinSplit | instagram_scraper/instagram_scraper.py:84 | `"/".join(s.split("/")) == s` |
| Strings.SplitJoin | instagram_scraper/instagram_scraper.py:84 | splitting the join of separator-free pieces gives back the pieces |
| Strings.JoinSlashSnoc | instagram_scraper/instagram_scraper.py:122-124 | joining one more piece appends `/` and that piece |
| Strings.StripStart | instagram_scraper/instagram_scraper.py:84 | `lstrip` drops exactly the leading run of stripped characters |
| Strings.StripEnd | instagram_scraper/instagram_scraper.py:84 | `rstrip` drops exactly the trailing run of stripped characters |
| Strings.HasSuffix | instagram_scraper/analyze_images.py:35 | `name.endswith(".png")`, the match of `*.png`; `AnalyzeImages.PngEntries` filters with it |
| Strings.IsSpace | instagram_scraper/instagram_scraper.py:202 | the characters `str.strip()` removes without an argument; `Strings.Strip` states what stripping keeps |
| Strings.IsSlash | instagram_scraper/instagram_scraper.py:84 | the one character `strip("/")` removes; `ReelId.Segments` strips with it |
| Strings.Strip | instagram_scraper/instagram_scraper.py:202-203 | `strip` is empty exactly when every character is stripped; otherwise it neither starts nor ends with a stripped character, and it is the slice between the two runs |
| Ordering.LexLe | instagram_scraper/analyze_images.py:35 | Python's `str` `<=`, which `sorted` uses: code point by code point, a proper prefix first; `Ordering.LexLeRefl`, `LexLeTotal`, `LexLeTrans` and `LexLeAntisym` make it a total order |
| Ordering.LexLt | instagram_scraper/analyze_images.py:35 | Python's `str` `<`; `Ordering.LexLtExtend` and `InstagramScraper.FrameNamesAscending` use it |
| Ordering.LexLeRefl | instagram_scraper/analyze_images.py:35 | string `<=` is reflexive |
| Ordering.LexLeTotal | instagram_scraper/analyze_images.py:35 | string `<=` is total |
| Ordering.LexLeTrans | instagram_scraper/analyze_images.py:35 | string `<=` is transitive |
| Ordering.LexLeAntisym | instagram_scraper/analyze_images.py:35 | string `<=` is antisymmetric |
| Ordering.LexLePrefix | instagram_scraper/analyze_images.py:35 | a common prefix does not change the order |
| Ordering.LexLtExtend | instagram_scraper/instagram_scraper.py:122 | equal-length strings keep their strict order after any suffixes |
| Ordering.Insert | instagram_scraper/analyze_images.py:35 | inserting into an ascending list keeps it ascending and adds exactly that element |
| Ordering.InsertHead | instagram_scraper/analyze_images.py:35 | the head of an ascending list stays in front when a larger element is inserted behind it |
| Ordering.SortStrings | instagram_scraper/analyze_images.py:35 | `sorted(s)` is ascending and a permutation of `s` |
| Ordering.SortedHead | instagram_scraper/analyze_images.py:35 | the head of an ascending list is below each of its elements |
| Ordering.SortedTail | instagram_scraper/analyze_images.py:35 | the tail of an ascending list is ascending |
| Ordering.MultisetTail | instagram_scraper/analyze_images.py:35 | the tail of a list holds its elements minus the head |
| Ordering.SortedHeadsAgree | instagram_scraper/analyze_images.py:35 | two ascending lists with the same elements have the same head |
| Ordering.SortedUnique | instagram_scraper/analyze_images.py:35 | two ascending lists with the same elements are equal, so the sorted listing does not depend on the directory's order |
| Ordering.SortOfSorted | instagram_scraper/analyze_images.py:35 | sorting an ascending list leaves it unchanged |
| Decimal.Digits | instagram_scraper/instagram_scraper.py:122 | `str(n)` is a non-empty string of digits |
| Decimal.Pad3 | instagram_scraper/instagram_scraper.py:122 | `{n:03d}` consists of digits only |
| Decimal.ValueDigits | instagram_scraper/instagram_scraper.py:122 | reading `str(n)` back gives `n` |
| Decimal.ValueLeadingZero | instagram_scraper/instagram_scraper.py:122 | zero padding does not change the value |
| Decimal.Pad3Value | instagram_scraper/instagram_scraper.py:122 | reading `{n:03d}` back gives `n` |
| Decimal.Pad3Injective | instagram_scraper/instagram_scraper.py:122 | distinct counters give distinct padded numbers |
| Decimal.Pad3Small | instagram_scraper/instagram_scraper.py:122 | below 1000, `{n:03d}` is exactly the hundreds, tens and units digits |
| Paths.Components | instagram_scraper/analyze_images.py:28 | parsing drops pieces and never adds any |
| Paths.ComponentsValid | instagram_scraper/analyze_images.py:28 | every piece `PurePosixPath` keeps is a proper component (non-empty, not `.`, no `/`) |
| Paths.ComponentsConcat | instagram_scraper/analyze_images.py:28 | dropping empty and `.` pieces distributes over concatenation |
| Paths.ComponentsOfComponents | instagram_scraper/analyze_images.py:28 | proper components are all kept |
| Paths.Parse | instagram_scraper/audio_transcriber.py:132 | `Path(s)` has only proper components, and it is absolute exactly when `s` starts with `/` |
| Paths.JoinSlashHead | instagram_scraper/audio_transcriber.py:132 | a relative path prints starting with its first component |
| Paths.Str | instagram_scraper/instagram_scraper.py:124 | `str(path)`; `Paths.ParseStr`, `Paths.StrJoin` and `Paths.JoinName` characterise it |
| Paths.ParseStr | instagram_scraper/audio_transcriber.py:132 | `Path(str(p)) == p` |
| Paths.Join | instagram_scraper/instagram_scraper.py:114 | `p / s` of a valid path is valid |
| Paths.JoinComponent | instagram_scraper/instagram_scraper.py:114 | `p / name` for a single component appends exactly that component |
| Paths.StrJoin | instagram_scraper/instagram_scraper.py:122-124 | `str(p / name)` is `str(p) + "/" + name` below a non-empty relative path |
| Paths.JoinName | instagram_scraper/analyze_images.py:48 | `str(dir / name)` is a directory prefix followed by `name` |
| Paths.ComponentWithSuffix | instagram_scraper/audio_transcriber.py:97 | `f"{id}.mp4"` and the like are single components |
| Paths.Name | instagram_scraper/analyze_images.py:59 | `.name` of a non-empty valid path is a proper component |
| Paths.Parent | instagram_scraper/analyze_images.py:59 | `.parent` keeps the root and validity, and `parent / name` is the path again |
| Paths.LastDot | instagram_scraper/audio_transcriber.py:133 | `rfind(".")`: the last dot, or -1 |
| Paths.Stem | instagram_scraper/audio_transcriber.py:133 | `.stem`; `Paths.StemOfExtension` and `AudioTranscriber.StemOfSuffixed` characterise it |
| Paths.StemOfExtension | instagram_scraper/audio_transcriber.py:133 | the stem of the name `f"{base}.{ext}"` is `base` |
| InstagramScraper.CaptureDir | instagram_scraper/instagram_scraper.py:110-114 | `reel_dir`; `InstagramScraper.CaptureDirValid` and `InstagramScraper.CaptureDirParts` characterise it |
| InstagramScraper.FrameName | instagram_scraper/instagram_scraper.py:122 | `f"screenshot_{count:03d}.png"`; `InstagramScraper.FrameNameIsComponent`, `FrameNameInjective` and `FrameNamesAscending` characterise it |
| InstagramScraper.FramePath | instagram_scraper/instagram_scraper.py:122-124 | `str(reel_dir / name)`; `InstagramScraper.FramePathIsJoin` and `CaptureFramePath` characterise it |
| InstagramScraper.CaptureDirValid | instagram_scraper/instagram_scraper.py:114 | `reel_dir` is a valid path |
| InstagramScraper.FramePaths | instagram_scraper/instagram_scraper.py:119-127 | the first `n` frame paths, the k-th being `str(reel_dir / f"screenshot_{k:03d}.png")` |
| InstagramScraper.FrameNames | instagram_scraper/instagram_scraper.py:122 | the first `n` frame names, in capture order |
| InstagramScraper.FrameNameIsComponent | instagram_scraper/instagram_scraper.py:122 | a frame name is one path component |
| InstagramScraper.FramePathIsJoin | instagram_scraper/instagram_scraper.py:122 | the frame path is exactly `reel_dir / name` |
| InstagramScraper.FramePathsUnder | instagram_scraper/instagram_scraper.py:122-124 | the frame paths are the frame names placed in `reel_dir` |
| InstagramScraper.FrameNameInjective | instagram_scraper/instagram_scraper.py:122 | distinct counts name distinct frames |
| InstagramScraper.ThreeDigitOrder | instagram_scraper/instagram_scraper.py:122 | below 1000, numeric order is digit-by-digit order |
| InstagramScraper.LexLtOfThree | instagram_scraper/instagram_scraper.py:122 | three-character strings compare on their first differing character |
| InstagramScraper.FrameNameOrder | instagram_scraper/instagram_scraper.py:122 | a smaller padded number of the same width gives a smaller name |
| InstagramScraper.FrameNamesAscending | instagram_scraper/instagram_scraper.py:122 | below 1000 frames, string order of the names is capture order |
| InstagramScraper.FrameOrderBreaksAtThousand | instagram_scraper/instagram_scraper.py:122 | the bound is tight: `screenshot_1000.png` sorts before `screenshot_999.png` |
| InstagramScraper.CaptureDirParts | instagram_scraper/instagram_scraper.py:110-114 | `reel_dir` is `screenshots/<id>`, or `screenshots` itself when the identifier is `.` |
| InstagramScraper.CaptureFile | instagram_scraper/instagram_scraper.py:114-124 | a file in that directory prints as `screenshots/<id>/<name>` (or `screenshots/<name>`) |
| InstagramScraper.CaptureFramePath | instagram_scraper/instagram_scraper.py:110-124 | the k-th frame of a run is `screenshots/<id>/screenshot_NNN.png`, with the identifier or the timestamp as `<id>` |
| InstagramScraper.ClockCovers | instagram_scraper/instagram_scraper.py:118-121 | the clock readings run until a time test fails, with a screenshot and a probe answer for every iteration before; `InstagramScraper.CaptureLoop` requires it |
| InstagramScraper.InTime | instagram_scraper/instagram_scraper.py:121 | the k-th test `time.time() - start_time < max_duration` passes; `InstagramScraper.StopRules` uses it |
| InstagramScraper.Continues | instagram_scraper/instagram_scraper.py:121-148 | iteration k passes its time test, its screenshot returns and its probe does not report not playing (a raising probe continues); `InstagramScraper.ContinuesBefore` uses it |
| InstagramScraper.Reaches | instagram_scraper/instagram_scraper.py:121-148 | every iteration before the n-th ran to its end; `InstagramScraper.CaptureLoop` keeps it as an invariant |
| InstagramScraper.RaisesAt | instagram_scraper/instagram_scraper.py:123 | the loop reaches iteration j, its time test passes and its screenshot raises; `InstagramScraper.CaptureLoop` and `ScrapeReel` state the raised message in its terms |
| InstagramScraper.StopsAfter | instagram_scraper/instagram_scraper.py:121-148 | the stopping rule for `n` screenshots: the n-th time test fails, or the probe after the n-th screenshot reports not playing; `InstagramScraper.StopRules` and `CaptureOutcomeUnique` characterise it |
| InstagramScraper.ContinuesBefore | instagram_scraper/instagram_scraper.py:121-148 | every iteration before the n-th loop test ran to its end |
| InstagramScraper.FirstHalt | instagram_scraper/instagram_scraper.py:121-148 | at most one iteration is the first that does not run to its end |
| InstagramScraper.CaptureOutcomeUnique | instagram_scraper/instagram_scraper.py:121-148 | the loop has one outcome: one stopping count, or one raising screenshot, never both |
| InstagramScraper.StopRules | instagram_scraper/instagram_scraper.py:121-148 | no screenshot follows a probe saying the video is not playing (paused, ended or absent); a stop not caused by the probe is a failed time test; every screenshot follows a time test that passed |
| InstagramScraper.FramePathsSnoc | instagram_scraper/instagram_scraper.py:122-124 | one more screenshot appends its own path |
| InstagramScraper.CaptureLoop | instagram_scraper/instagram_scraper.py:118-150 | the loop returns exactly the first `n` frame paths, with `n` the count at which it stops; or it raises the first failing screenshot's exception |
| InstagramScraper.TakeScreenshots | instagram_scraper/instagram_scraper.py:99-150 | as `CaptureLoop`, writing into `screenshots/<reel_id or timestamp>` |
| InstagramScraper.CaptionRecord | instagram_scraper/instagram_scraper.py:202-233 | a `caption` or `closed_captions` key is present exactly when its query answered non-blank text, and holds that text stripped; `InstagramScraper.ExtractTranscript` ensures it |
| InstagramScraper.ExtractTranscript | instagram_scraper/instagram_scraper.py:152-244 | a failing load wait raises; otherwise the keys are a subset of `caption` and `closed_captions`, each present exactly when its query answered non-blank text, stored stripped; saved to `transcripts/<id>_transcript.json` |
| InstagramScraper.ScrapeRecord | instagram_scraper/instagram_scraper.py:340-345 | the success result has exactly the keys `reel_id`, `url`, `transcript` and `screenshots`, holding the given values |
| InstagramScraper.ScrapeReel | instagram_scraper/instagram_scraper.py:284-349 | exactly the four result keys or exactly `error`; `error` holds the message of the first exception: setup, then load wait, then the first raising screenshot; on success, the reel id, the caption dictionary and the capture list as above |
| AudioTranscriber.NotFoundMessage | instagram_scraper/audio_transcriber.py:68 | `str(e)` of the `FileNotFoundError` for a missing executable; `AudioTranscriber.CheckDependencies`, `DownloadVideo` and `ExtractAudio` raise it |
| AudioTranscriber.CheckDependencies | instagram_scraper/audio_transcriber.py:57-85 | `True` exactly when `yt-dlp` works, or `pip` installed it, and `ffmpeg` works; a missing `pip` executable escapes as `FileNotFoundError` |
| AudioTranscriber.DependencyRunsConsulted | instagram_scraper/audio_transcriber.py:59-72 | `pip` matters only when `yt-dlp` failed, and `ffmpeg` only when `yt-dlp` is available |
| AudioTranscriber.DownloadTarget | instagram_scraper/audio_transcriber.py:96-97 | `output_path`; `AudioTranscriber.DownloadTargetName` characterises it |
| AudioTranscriber.VideoTargetOf | instagram_scraper/audio_transcriber.py:97 | `video_dir / f"{id}.mp4"` is `videos/<id>.mp4` |
| AudioTranscriber.DownloadTargetName | instagram_scraper/audio_transcriber.py:96-97 | the download target is `videos/<id>.mp4`, with the reel id or `instagram_video` as `<id>` |
| AudioTranscriber.DownloadVideo | instagram_scraper/audio_transcriber.py:87-117 | the target path only when `yt-dlp` succeeded and the file exists; `None` otherwise; a missing `yt-dlp` escapes |
| AudioTranscriber.AudioTarget | instagram_scraper/audio_transcriber.py:132-133 | `audio_path`; `AudioTranscriber.AudioTargetOfStr` and `AudioOfVideo` characterise it |
| AudioTranscriber.FilePresent | instagram_scraper/audio_transcriber.py:128 | `x and os.path.exists(x)`: a non-empty path naming a present file; `AudioTranscriber.ExtractAudio` and `TranscribeAudio` state their results in its terms |
| AudioTranscriber.ExtractAudio | instagram_scraper/audio_transcriber.py:119-155 | `None` for a falsy or missing video; otherwise the `audio/<stem>.mp3` path when `ffmpeg` succeeded and the file exists, else `None`; a missing `ffmpeg` escapes |
| AudioTranscriber.ExtractAudioSkipsFfmpeg | instagram_scraper/audio_transcriber.py:128-130 | without a video, `ffmpeg` is never consulted |
| AudioTranscriber.AudioTargetOfStr | instagram_scraper/audio_transcriber.py:132-133 | the audio target of a printed path depends only on its stem |
| AudioTranscriber.AudioTargetOfStem | instagram_scraper/audio_transcriber.py:133 | `audio_dir / f"{stem}.mp3"` is `audio/<stem>.mp3` |
| AudioTranscriber.StemOfSuffixed | instagram_scraper/audio_transcriber.py:133 | the stem of `<id>.mp4` or `<id>.mp3` is `<id>` |
| AudioTranscriber.AudioOfVideo | instagram_scraper/audio_transcriber.py:132-133 | a video named `<id>.mp4` gets the audio `audio/<id>.mp3` |
| AudioTranscriber.AudioOfDownloadName | instagram_scraper/audio_transcriber.py:96-133 | `videos/<id>.mp4` maps to `audio/<id>.mp3` |
| AudioTranscriber.AudioOfDownload | instagram_scraper/audio_transcriber.py:96-133 | the audio of a download is `audio/<id>.mp3` for the download's own `<id>` |
| AudioTranscriber.ReadyRecord | instagram_scraper/audio_transcriber.py:185-189 | the placeholder has the keys `status`, `audio_path` and `message`, with status `ready_for_transcription` and the printed audio path |
| AudioTranscriber.TranscribeAudio | instagram_scraper/audio_transcriber.py:157-196 | a falsy or missing audio file gives `{"error": "Audio file not found"}` and no file; otherwise the placeholder, saved to `transcripts/<stem>_transcript.json` |
| AudioTranscriber.TranscribeOfStr | instagram_scraper/audio_transcriber.py:174-189 | for a present file given by its printed path, the placeholder is saved under that path's stem |
| AudioTranscriber.AudioStr | instagram_scraper/audio_transcriber.py:149 | `audio/<id>.mp3` prints as such |
| AudioTranscriber.TranscriptFileOf | instagram_scraper/audio_transcriber.py:175 | `transcript_dir / f"{id}_transcript.json"` prints as `transcripts/<id>_transcript.json` |
| AudioTranscriber.TranscriptTarget | instagram_scraper/audio_transcriber.py:174-175 | the transcript file for `audio/<id>.mp3` is `transcripts/<id>_transcript.json` |
| AudioTranscriber.TranscriptOfAudio | instagram_scraper/audio_transcriber.py:170-196 | a present `audio/<id>.mp3` gives the ready placeholder, saved to `transcripts/<id>_transcript.json` |
| AudioTranscriber.Truthy | instagram_scraper/audio_transcriber.py:212 | `if not x` lets a stage output through only when it is a non-empty string; `AudioTranscriber.Process` is stated in its terms |
| AudioTranscriber.DependencyCheck | instagram_scraper/audio_transcriber.py:207 | `self.check_dependencies()`; `AudioTranscriber.Process` is stated in its terms |
| AudioTranscriber.Downloaded | instagram_scraper/audio_transcriber.py:211 | `self.download_video(url)`; `AudioTranscriber.Process` is stated in its terms |
| AudioTranscriber.Extracted | instagram_scraper/audio_transcriber.py:216 | `self.extract_audio(video_path)` on the downloaded path; `AudioTranscriber.Process` is stated in its terms |
| AudioTranscriber.ProcessRecord | instagram_scraper/audio_transcriber.py:223-229 | the success result has exactly the keys `reel_id`, `url`, `video_path`, `audio_path` and `transcript`, holding the given values |
| AudioTranscriber.Process | instagram_scraper/audio_transcriber.py:198-229 | its results are: `Missing dependencies` with no download; `Failed to download video` with no extraction; `Failed to extract audio` with no transcription; escaping exceptions end the run at their stage; on success, the stage outputs, with `transcribe_audio` run on exactly the extracted path |
| AudioTranscriber.StageOutputs | instagram_scraper/audio_transcriber.py:211-221 | when both stages deliver, the video is `videos/<id>.mp4`, the audio is `audio/<id>.mp3`, and the audio file is present |
| AudioTranscriber.ProcessFileNames | instagram_scraper/audio_transcriber.py:198-229 | a complete run reports `videos/<id>.mp4` and `audio/<id>.mp3`, and saves a ready placeholder to `transcripts/<id>_transcript.json` |
| AnalyzeImages.PngEntries | instagram_scraper/analyze_images.py:35 | `glob("*.png")` keeps each `.png` entry as often as it is listed, and nothing else |
| AnalyzeImages.PathsOf | instagram_scraper/analyze_images.py:48 | `[str(dir / name) …]` keeps the length, and the k-th path is the k-th name placed in the directory |
| AnalyzeImages.ScreenshotPaths | instagram_scraper/analyze_images.py:35 | there is one path per `.png` entry |
| AnalyzeImages.PlaceholderAnalysis | instagram_scraper/analyze_images.py:49-55 | the fixed `analysis` object; `AnalyzeImages.Results` places it under `analysis` |
| AnalyzeImages.Results | instagram_scraper/analyze_images.py:46-56 | the result has exactly `screenshot_count`, `screenshot_paths` and `analysis`, with the count equal to the number of paths |
| AnalyzeImages.AnalyzeImages | instagram_scraper/analyze_images.py:15-64 | a missing directory gives `Directory not found`; no `.png` entries gives `No screenshots found`; otherwise the results, saved to `parent/<name>_analysis.json` |
| AnalyzeImages.PathOrderIsNameOrder | instagram_scraper/analyze_images.py:35 | below one directory, path order is name order |
| AnalyzeImages.SortedListing | instagram_scraper/analyze_images.py:35 | the sorted `.png` entries of a listing are still single names |
| AnalyzeImages.ScreenshotListing | instagram_scraper/analyze_images.py:35 | the listed paths are ascending and a permutation of the paths of the `.png` entries |
| AnalyzeImages.FrameNamesSorted | instagram_scraper/analyze_images.py:35 | at most 1000 frame names are already ascending |
| AnalyzeImages.ListingFollowsCaptureOrder | instagram_scraper/analyze_images.py:35 | a directory holding exactly frames `0..n-1` (at most 1000), listed in any order, gives the frame paths in capture order |
| AnalyzeImages.ListingOfDir | instagram_scraper/analyze_images.py:35 | the same, for a directory given by its printed path |
| AnalyzeImages.AnalysisOfCapture | instagram_scraper/analyze_images.py:35 | when at most 1000 frames were taken and the directory's `*.png` entries are exactly this run's frames (in any order), analysing the capture directory gives back the list that `take_screenshots` returned |
| AnalyzeImages.AnalysisFile | instagram_scraper/analyze_images.py:59 | `output_file`; `AnalyzeImages.AnalysisFileName` characterises it |
| AnalyzeImages.AnalysisFileName | instagram_scraper/analyze_images.py:59 | the results file is `<parent>/<name>_analysis.json` |
| Common.OptionJson | instagram_scraper/audio_transcriber.py:224 | `None` becomes `null`; a string stays a string |
| Common.ErrorDict | instagram_scraper/audio_transcriber.py:208 | `{"error": message}` has that single key |
| Common.StringArray | instagram_scraper/analyze_images.py:48 | a list of strings becomes a JSON array of the same length and items |
| Common.Map | instagram_scraper/analyze_images.py:48 | a list comprehension keeps the length and maps each item |
| Common.MapPermutation | instagram_scraper/analyze_images.py:48 | mapping two reorderings of one list gives two reorderings of one list |

## Left out

- Browser work is not modelled. This covers Playwright setup and `close`, `handle_dialogs`, `goto`, the waits, the initial screenshot, the video-selector search and the in-page JavaScript. Only their outcomes remain: the `setup` and `networkIdle` calls, the caption query answers (`Eval`) and the probe answers (`Probe`). Dialog handling and the selector search catch their own exceptions, so they cannot change the result.
- Time is not modelled. `time.time()` is an integer clock reading, and `asyncio.sleep` shows only in the next reading. `datetime.now().strftime(...)` is a timestamp parameter.
- InstagramScraper.TakeScreenshots requires a clock oracle whose last reading is at or past the deadline. A finite oracle has to cover the whole run. The source loops forever only when the clock never reaches `max_duration`, no probe reports the video not playing and no screenshot raises; the model does not cover that run.
- Subprocess runs of `yt-dlp`, `pip` and `ffmpeg` are `Exit` values: success, a non-zero exit, or a missing executable. Their output is left out.
- File existence is a `set<Path>` snapshot taken before and after each stage. `os.path.exists(s)` is modelled as membership of `Path(s)`, so pathlib's normalisation stands in for the operating system's lookup. Symbolic links and `..` resolution are not modelled.
- `urlparse` is not modelled. The scripts' URL-path string is an input.
- `re` is not modelled in general. Only the one pattern `/(reel|reels|p)/([^/]+)` is written out, as a matcher.
- Paths.Parse treats a leading `//` like a single `/`. POSIX `pathlib` keeps exactly two leading slashes as a distinct root, so a directory argument such as `//x` to `analyze_images` prints differently in the model.
- Paths.Stem follows the `.suffix` rule of Python 3.12 and earlier, where a trailing dot gives no suffix.
- Creating directories (`mkdir`), writing the JSON files (`json.dump`) and failures opening those files are left out. The model only records the path each file is written to.
- `print`, the `argparse` `main` functions and the forced `headless = False` are left out.
- `transcribe_audio.py` is not part of this model. It is a thin wrapper over the Whisper library.
- AnalyzeImages.AnalyzeImages takes the directory's entry names in the order the oracle gives; the filesystem's listing order is not modelled. Everything proved about the result holds for every order.
- Ordering.SortStrings is an insertion sort, not Timsort. Ordering.SortedUnique shows that every ascending permutation is the same list, so the result is the same.
- Python lists and dictionaries are values. The scripts never share a list or dictionary in a way that would make aliasing observable.
