/** The download → audio → transcript pipeline of the audio extractor:
    its own copy of the identifier search, the dependency check, the
    derived file names and the short-circuiting `process`. Subprocess
    runs and file existence are oracle inputs. */
module AudioTranscriber {
  import opened Common
  import opened Paths
  import ReelId

  /** `self.audio_dir`, `self.video_dir` and `self.transcript_dir`. */
  const AudioDir: Path := Path(false, ["audio"])
  const VideoDir: Path := Path(false, ["videos"])
  const TranscriptDir: Path := Path(false, ["transcripts"])

  // ---- The second copy of `extract_reel_id`

  /** The loop over `enumerate(path_parts)` with its early return, then the
      regular-expression fallback; it computes the same identifier as the
      scraper's copy on every path. */
  method ExtractReelId(path: string) returns (r: Option<string>)
    ensures r == ReelId.ExtractReelId(path)
  {
    var pathParts := ReelId.Segments(path);
    var i := 0;
    while i < |pathParts|
      invariant 0 <= i <= |pathParts|
      invariant ReelId.SearchFrom(pathParts, i) == ReelId.SearchFrom(pathParts, 0)
    {
      var part := pathParts[i];
      if part == "reel" || part == "reels" || part == "p" {
        if i + 1 < |pathParts| {
          return Some(pathParts[i + 1]);
        }
      }
      i := i + 1;
    }
    r := ReelId.RegexSearch(path);
  }

  // ---- Subprocess outcomes

  /** How a `subprocess.run(..., check=True)` ends: exit status 0, a
      non-zero status (`CalledProcessError`), or no such executable
      (`FileNotFoundError`, which is not a `SubprocessError`). */
  datatype Exit = Success | Failure | NotFound

  /** `str(e)` of the `FileNotFoundError` for a missing executable. */
  function NotFoundMessage(command: string): string
  {
    "[Errno 2] No such file or directory: '" + command + "'"
  }

  /** `check_dependencies()`. `pip` only runs when `yt-dlp --version`
      failed; a missing `pip` executable escapes the handler. */
  function CheckDependencies(ytDlp: Exit, pip: Exit, ffmpeg: Exit): (r: Outcome<bool>)
    ensures r == Return(true) <==> (ytDlp == Success || pip == Success) && ffmpeg == Success
    ensures r.Raise? <==> ytDlp != Success && pip == NotFound
    ensures r.Raise? ==> r.message == NotFoundMessage("pip")
  {
    if ytDlp != Success && pip != Success then
      if pip == NotFound then Raise(NotFoundMessage("pip")) else Return(false)
    else if ffmpeg != Success then Return(false)
    else Return(true)
  }

  /** The `pip install` outcome only matters when `yt-dlp` is missing, and
      the `ffmpeg` outcome only once `yt-dlp` is available. */
  lemma DependencyRunsConsulted(ytDlp: Exit, pip: Exit, pip': Exit, ffmpeg: Exit, ffmpeg': Exit)
    ensures ytDlp == Success ==>
              CheckDependencies(ytDlp, pip, ffmpeg) == CheckDependencies(ytDlp, pip', ffmpeg)
    ensures ytDlp != Success && pip != Success ==>
              CheckDependencies(ytDlp, pip, ffmpeg) == CheckDependencies(ytDlp, pip, ffmpeg')
  {
  }

  // ---- `download_video`

  /** `self.video_dir / f"{reel_id}.mp4"` with `"instagram_video"` as the
      fallback identifier. */
  function DownloadTarget(path: string): Path
  {
    Join(VideoDir, ReelId.FileId(ReelId.ExtractReelId(path), "instagram_video") + ".mp4")
  }

  /** The video of a run keyed `id` goes to `videos/<id>.mp4`. */
  lemma VideoTargetOf(id: string)
    requires '/' !in id
    ensures Join(VideoDir, id + ".mp4") == Path(false, ["videos", id + ".mp4"])
    ensures Str(Join(VideoDir, id + ".mp4")) == "videos/" + id + ".mp4"
  {
    ComponentWithSuffix(id, ".mp4");
    JoinComponent(VideoDir, id + ".mp4");
    StrJoin(VideoDir, id + ".mp4");
  }

  /** The download target is `videos/<id>.mp4` for every URL path. */
  lemma DownloadTargetName(path: string)
    ensures var id := ReelId.FileId(ReelId.ExtractReelId(path), "instagram_video");
      && id != "" && '/' !in id
      && DownloadTarget(path) == Path(false, ["videos", id + ".mp4"])
      && Str(DownloadTarget(path)) == "videos/" + id + ".mp4"
  {
    var id := ReelId.FileId(ReelId.ExtractReelId(path), "instagram_video");
    ReelId.FileIdOfPath(path, "instagram_video");
    VideoTargetOf(id);
  }

  /** `download_video(url)` after `yt-dlp` ran with outcome `run` and left
      the files `fs` behind. */
  function DownloadVideo(path: string, run: Exit, fs: set<Path>): (r: Outcome<Option<string>>)
    ensures r.Raise? <==> run == NotFound
    ensures r.Raise? ==> r.message == NotFoundMessage("yt-dlp")
    ensures r.Return? && r.value.Some? <==> run == Success && DownloadTarget(path) in fs
    ensures r.Return? && r.value.Some? ==> r.value.value == Str(DownloadTarget(path))
  {
    var outputPath := DownloadTarget(path);
    match run
    case NotFound => Raise(NotFoundMessage("yt-dlp"))
    case Failure => Return(None)
    case Success => if outputPath in fs then Return(Some(Str(outputPath))) else Return(None)
  }

  // ---- `extract_audio`

  /** `self.audio_dir / f"{Path(video_path).stem}.mp3"`. */
  function AudioTarget(videoPath: string): Path
  {
    Join(AudioDir, Stem(Name(Parse(videoPath))) + ".mp3")
  }

  /** `x and os.path.exists(x)`: a non-empty path naming a file in `fs`. */
  predicate FilePresent(videoPath: Option<string>, fs: set<Path>)
  {
    videoPath.Some? && videoPath.value != "" && Parse(videoPath.value) in fs
  }

  /** `extract_audio(video_path)`: `before` are the files present when it
      starts, `after` those present once `ffmpeg` ran with outcome `run`. */
  function ExtractAudio(videoPath: Option<string>, run: Exit, before: set<Path>, after: set<Path>)
    : (r: Outcome<Option<string>>)
    ensures !FilePresent(videoPath, before) ==> r == Return(None)
    ensures r.Raise? <==> FilePresent(videoPath, before) && run == NotFound
    ensures r.Raise? ==> r.message == NotFoundMessage("ffmpeg")
    ensures r.Return? && r.value.Some? <==>
              FilePresent(videoPath, before) && run == Success && AudioTarget(videoPath.value) in after
    ensures r.Return? && r.value.Some? ==> r.value.value == Str(AudioTarget(videoPath.value))
  {
    if !FilePresent(videoPath, before) then Return(None)
    else
      var audioPath := AudioTarget(videoPath.value);
      match run
      case NotFound => Raise(NotFoundMessage("ffmpeg"))
      case Failure => Return(None)
      case Success => if audioPath in after then Return(Some(Str(audioPath))) else Return(None)
  }

  /** Without a video `ffmpeg` is never run: its outcome and the files it
      would leave make no difference. */
  lemma ExtractAudioSkipsFfmpeg(videoPath: Option<string>, run: Exit, run': Exit,
                                before: set<Path>, after: set<Path>, after': set<Path>)
    requires !FilePresent(videoPath, before)
    ensures ExtractAudio(videoPath, run, before, after) == ExtractAudio(videoPath, run', before, after')
  {
  }

  /** The audio target of a printed path depends only on its last
      component. */
  lemma AudioTargetOfStr(p: Path)
    requires Valid(p)
    ensures AudioTarget(Str(p)) == Join(AudioDir, Stem(Name(p)) + ".mp3")
  {
    ParseStr(p);
  }

  /** `AUDIO_DIR / f"{id}.mp3"` for a stem without separators. */
  lemma AudioTargetOfStem(id: string)
    requires '/' !in id
    ensures Join(AudioDir, id + ".mp3") == Path(false, ["audio", id + ".mp3"])
  {
    ComponentWithSuffix(id, ".mp3");
    JoinComponent(AudioDir, id + ".mp3");
  }

  /** The stem of `<id>.mp4` or `<id>.mp3` is `<id>`. */
  lemma StemOfSuffixed(id: string, suffix: string)
    requires id != "" && |suffix| >= 2 && suffix[0] == '.' && '.' !in suffix[1..]
    ensures Stem(id + suffix) == id
  {
    StemOfExtension(id, suffix[1..]);
    assert id + suffix == id + "." + suffix[1..];
  }

  /** The audio of a video named `<id>.mp4` goes to `audio/<id>.mp3`. */
  lemma AudioOfVideo(video: Path, id: string)
    requires Valid(video) && id != "" && '/' !in id && Name(video) == id + ".mp4"
    ensures AudioTarget(Str(video)) == Path(false, ["audio", id + ".mp3"])
  {
    AudioTargetOfStr(video);
    StemOfSuffixed(id, ".mp4");
    AudioTargetOfStem(id);
  }

  /** The audio of `videos/<id>.mp4` goes to `audio/<id>.mp3`. */
  lemma AudioOfDownloadName(id: string)
    requires id != "" && '/' !in id
    ensures AudioTarget(Str(Path(false, ["videos", id + ".mp4"]))) == Path(false, ["audio", id + ".mp3"])
  {
    ComponentWithSuffix(id, ".mp4");
    AudioOfVideo(Path(false, ["videos", id + ".mp4"]), id);
  }

  /** The audio of a download goes to `audio/<id>.mp3`. */
  lemma AudioOfDownload(path: string)
    ensures var id := ReelId.FileId(ReelId.ExtractReelId(path), "instagram_video");
      && AudioTarget(Str(DownloadTarget(path))) == Path(false, ["audio", id + ".mp3"])
      && Str(AudioTarget(Str(DownloadTarget(path)))) == "audio/" + id + ".mp3"
  {
    var id := ReelId.FileId(ReelId.ExtractReelId(path), "instagram_video");
    DownloadTargetName(path);
    AudioOfDownloadName(id);
    AudioStr(id);
  }


  // ---- `transcribe_audio`

  /** The dictionary `transcribe_audio` returns and, unless it reports an
      error, the file it writes it to. */
  datatype Transcribed = Transcribed(result: Dict, savedTo: Option<string>)

  /** The placeholder result for an audio file. */
  function ReadyRecord(audioPath: string): (d: Dict)
    ensures d.Keys == {"status", "audio_path", "message"}
    ensures d["status"] == JString("ready_for_transcription")
    ensures d["audio_path"] == JString(Str(Parse(audioPath)))
  {
    map["status" := JString("ready_for_transcription"),
        "audio_path" := JString(Str(Parse(audioPath))),
        "message" := JString("Audio extraction successful. Use a transcription service to convert to text.")]
  }

  /** `transcribe_audio(audio_path)` with the files `fs` present. */
  function TranscribeAudio(audioPath: Option<string>, fs: set<Path>): (t: Transcribed)
    ensures !FilePresent(audioPath, fs) ==>
              t == Transcribed(ErrorDict("Audio file not found"), None)
    ensures FilePresent(audioPath, fs) ==>
              && t.result == ReadyRecord(audioPath.value)
              && t.savedTo ==
                   Some(Str(Join(TranscriptDir, Stem(Name(Parse(audioPath.value))) + "_transcript.json")))
  {
    if !FilePresent(audioPath, fs) then Transcribed(ErrorDict("Audio file not found"), None)
    else
      var audio := Parse(audioPath.value);
      var transcriptPath := Join(TranscriptDir, Stem(Name(audio)) + "_transcript.json");
      Transcribed(ReadyRecord(audioPath.value), Some(Str(transcriptPath)))
  }

  // ---- `process`

  /** The stages `process` enters, in order. */
  datatype Stage = Dependencies | Download | Extraction | Transcription

  /** The oracle outcomes of the five subprocess runs and the files present
      after the download and after the extraction. */
  datatype Tools = Tools(ytDlpVersion: Exit, pipInstall: Exit, ffmpegVersion: Exit,
                         download: Exit, ffmpeg: Exit,
                         afterDownload: set<Path>, afterExtract: set<Path>)

  /** The stages entered and how `process` ends. */
  datatype Run = Run(stages: seq<Stage>, outcome: Outcome<Dict>)

  /** A stage output that `if not x` lets through. */
  predicate Truthy(o: Outcome<Option<string>>)
  {
    o.Return? && o.value.Some? && o.value.value != ""
  }

  function DependencyCheck(t: Tools): Outcome<bool>
  {
    CheckDependencies(t.ytDlpVersion, t.pipInstall, t.ffmpegVersion)
  }

  function Downloaded(path: string, t: Tools): Outcome<Option<string>>
  {
    DownloadVideo(path, t.download, t.afterDownload)
  }

  function Extracted(path: string, t: Tools): Outcome<Option<string>>
    requires Truthy(Downloaded(path, t))
  {
    ExtractAudio(Downloaded(path, t).value, t.ffmpeg, t.afterDownload, t.afterExtract)
  }

  /** The success dictionary of `process` for the stage outputs. */
  function ProcessRecord(url: string, path: string, video: string, audio: string, transcript: Dict)
    : (d: Dict)
    ensures d.Keys == {"reel_id", "url", "video_path", "audio_path", "transcript"}
    ensures d["reel_id"] == OptionJson(ReelId.ExtractReelId(path)) && d["url"] == JString(url)
    ensures d["video_path"] == JString(video) && d["audio_path"] == JString(audio)
    ensures d["transcript"] == JObject(transcript)
  {
    map["reel_id" := OptionJson(ReelId.ExtractReelId(path)),
        "url" := JString(url),
        "video_path" := JString(video),
        "audio_path" := JString(audio),
        "transcript" := JObject(transcript)]
  }

  /** `process(url)` on `urlparse(url).path`. */
  function Process(url: string, path: string, t: Tools): (run: Run)
    ensures DependencyCheck(t).Raise? ==> run == Run([Dependencies], Raise(DependencyCheck(t).message))
    ensures DependencyCheck(t) == Return(false) ==>
              run == Run([Dependencies], Return(ErrorDict("Missing dependencies")))
    ensures Download in run.stages <==> DependencyCheck(t) == Return(true)
    ensures DependencyCheck(t) == Return(true) && !Truthy(Downloaded(path, t)) ==>
              run.stages == [Dependencies, Download]
              && (run.outcome.Return? <==> Downloaded(path, t).Return?)
              && (run.outcome.Return? ==> run.outcome.value == ErrorDict("Failed to download video"))
              && (run.outcome.Raise? ==> run.outcome == Raise(Downloaded(path, t).message))
    ensures Extraction in run.stages <==> DependencyCheck(t) == Return(true) && Truthy(Downloaded(path, t))
    ensures Extraction in run.stages && !Truthy(Extracted(path, t)) ==>
              run.stages == [Dependencies, Download, Extraction]
              && (run.outcome.Return? <==> Extracted(path, t).Return?)
              && (run.outcome.Return? ==> run.outcome.value == ErrorDict("Failed to extract audio"))
              && (run.outcome.Raise? ==> run.outcome == Raise(Extracted(path, t).message))
    ensures Transcription in run.stages <==>
              DependencyCheck(t) == Return(true) && Truthy(Downloaded(path, t)) && Truthy(Extracted(path, t))
    ensures Transcription in run.stages ==>
              && run.stages == [Dependencies, Download, Extraction, Transcription]
              && run.outcome == Return(ProcessRecord(url, path, Downloaded(path, t).value.value,
                                                     Extracted(path, t).value.value,
                                                     TranscribeAudio(Extracted(path, t).value, t.afterExtract).result))
  {
    var deps := DependencyCheck(t);
    if deps.Raise? then Run([Dependencies], Raise(deps.message))
    else if !deps.value then Run([Dependencies], Return(ErrorDict("Missing dependencies")))
    else
      var videoPath := Downloaded(path, t);
      if videoPath.Raise? then Run([Dependencies, Download], Raise(videoPath.message))
      else if !Truthy(videoPath) then
        Run([Dependencies, Download], Return(ErrorDict("Failed to download video")))
      else
        var audioPath := Extracted(path, t);
        if audioPath.Raise? then Run([Dependencies, Download, Extraction], Raise(audioPath.message))
        else if !Truthy(audioPath) then
          Run([Dependencies, Download, Extraction], Return(ErrorDict("Failed to extract audio")))
        else
          var transcript := TranscribeAudio(audioPath.value, t.afterExtract);
          Run([Dependencies, Download, Extraction, Transcription],
              Return(ProcessRecord(url, path, videoPath.value.value, audioPath.value.value, transcript.result)))
  }

  /** The placeholder for a present audio file names its printed path
      and is saved beside the other transcripts under its stem. */
  lemma TranscribeOfStr(p: Path, fs: set<Path>)
    requires Valid(p) && p in fs && Str(p) != ""
    ensures TranscribeAudio(Some(Str(p)), fs)
              == Transcribed(ReadyRecord(Str(p)),
                             Some(Str(Join(TranscriptDir, Stem(Name(p)) + "_transcript.json"))))
  {
    ParseStr(p);
  }

  /** `audio/<id>.mp3` printed. */
  lemma AudioStr(id: string)
    requires '/' !in id
    ensures Str(Path(false, ["audio", id + ".mp3"])) == "audio/" + id + ".mp3"
  {
    ComponentWithSuffix(id, ".mp3");
    JoinComponent(AudioDir, id + ".mp3");
    StrJoin(AudioDir, id + ".mp3");
  }

  /** `TRANSCRIPT_DIR / f"{id}_transcript.json"` printed. */
  lemma TranscriptFileOf(id: string)
    requires '/' !in id
    ensures Str(Join(TranscriptDir, id + "_transcript.json")) == "transcripts/" + id + "_transcript.json"
  {
    ComponentWithSuffix(id, "_transcript.json");
    JoinComponent(TranscriptDir, id + "_transcript.json");
    StrJoin(TranscriptDir, id + "_transcript.json");
  }

  /** The transcript file for `audio/<id>.mp3`. */
  lemma TranscriptTarget(id: string)
    requires id != "" && '/' !in id
    ensures Str(Join(TranscriptDir, Stem(Name(Path(false, ["audio", id + ".mp3"]))) + "_transcript.json"))
              == "transcripts/" + id + "_transcript.json"
  {
    assert Name(Path(false, ["audio", id + ".mp3"])) == id + ".mp3";
    StemOfSuffixed(id, ".mp3");
    TranscriptFileOf(id);
  }

  /** The placeholder for `audio/<id>.mp3` is saved to
      `transcripts/<id>_transcript.json`. */
  lemma TranscriptOfAudio(id: string, fs: set<Path>)
    requires id != "" && '/' !in id
    requires Path(false, ["audio", id + ".mp3"]) in fs
    ensures TranscribeAudio(Some("audio/" + id + ".mp3"), fs)
              == Transcribed(ReadyRecord("audio/" + id + ".mp3"),
                             Some("transcripts/" + id + "_transcript.json"))
  {
    var audio := Path(false, ["audio", id + ".mp3"]);
    AudioStr(id);
    assert Valid(audio) by { ComponentWithSuffix(id, ".mp3"); }
    TranscribeOfStr(audio, fs);
    TranscriptTarget(id);
  }

  /** When both stages deliver, the video is `videos/<id>.mp4` and the
      audio `audio/<id>.mp3`, and the audio file is present afterwards. */
  lemma StageOutputs(path: string, t: Tools)
    requires Truthy(Downloaded(path, t)) && Truthy(Extracted(path, t))
    ensures var id := ReelId.FileId(ReelId.ExtractReelId(path), "instagram_video");
      && id != "" && '/' !in id
      && Downloaded(path, t).value.value == "videos/" + id + ".mp4"
      && Extracted(path, t).value == Some("audio/" + id + ".mp3")
      && Path(false, ["audio", id + ".mp3"]) in t.afterExtract
  {
    DownloadTargetName(path);
    AudioOfDownload(path);
  }

  /** A complete run names its files after the reel: `videos/<id>.mp4`,
      `audio/<id>.mp3`, and a ready placeholder saved to
      `transcripts/<id>_transcript.json`. */
  lemma ProcessFileNames(url: string, path: string, t: Tools)
    requires Transcription in Process(url, path, t).stages
    ensures var id := ReelId.FileId(ReelId.ExtractReelId(path), "instagram_video");
      var d := Process(url, path, t).outcome.value;
      && d["video_path"] == JString("videos/" + id + ".mp4")
      && d["audio_path"] == JString("audio/" + id + ".mp3")
      && TranscribeAudio(Some("audio/" + id + ".mp3"), t.afterExtract)
           == Transcribed(ReadyRecord("audio/" + id + ".mp3"),
                          Some("transcripts/" + id + "_transcript.json"))
      && d["transcript"] == JObject(ReadyRecord("audio/" + id + ".mp3"))
  {
    var id := ReelId.FileId(ReelId.ExtractReelId(path), "instagram_video");
    DownloadTargetName(path);
    StageOutputs(path, t);
    TranscriptOfAudio(id, t.afterExtract);
  }

}
