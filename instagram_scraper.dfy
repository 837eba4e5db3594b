/** The browser-driven scraper: where a reel's files go, the screenshot
    loop, the caption dictionary and the result of `scrape_reel`. The
    browser, the wall clock and the timestamp are oracle inputs. */
module InstagramScraper {
  import opened Common
  import opened Strings
  import opened Ordering
  import opened Decimal
  import opened Paths
  import opened ReelId

  /** `self.screenshot_dir` and `self.transcript_dir`. */
  const ScreenshotDir: Path := Path(false, ["screenshots"])
  const TranscriptDir: Path := Path(false, ["transcripts"])

  // ---- File names

  /** `reel_dir = self.screenshot_dir / reel_id`. */
  function CaptureDir(path: string, stamp: string): Path
  {
    Join(ScreenshotDir, FileId(ExtractReelId(path), stamp))
  }

  lemma CaptureDirValid(path: string, stamp: string)
    ensures Valid(CaptureDir(path, stamp))
  {
    assert Valid(ScreenshotDir) by { assert ScreenshotDir.parts[0] == "screenshots"; }
  }

  /** `f"screenshot_{count:03d}.png"`. */
  function FrameName(k: nat): string
  {
    "screenshot_" + Pad3(k) + ".png"
  }

  /** `str(reel_dir / FrameName(k))`; the frame name is a single
      component, which `/` appends (`FramePathIsJoin`). */
  function FramePath(dir: Path, k: nat): string
  {
    Str(Path(dir.rooted, dir.parts + [FrameName(k)]))
  }

  /** The first `n` frame paths, in capture order. */
  function FramePaths(dir: Path, n: nat): (r: seq<string>)
    ensures |r| == n && forall k :: 0 <= k < n ==> r[k] == FramePath(dir, k)
  {
    seq(n, k requires 0 <= k < n => FramePath(dir, k))
  }

  /** The first `n` frame names, in capture order. */
  function FrameNames(n: nat): (r: seq<string>)
    ensures |r| == n && forall k :: 0 <= k < n ==> r[k] == FrameName(k)
  {
    seq(n, k requires 0 <= k < n => FrameName(k))
  }

  lemma FrameNameIsComponent(k: nat)
    ensures IsComponent(FrameName(k))
  {
    var d := Pad3(k);
    forall i | 0 <= i < |d| ensures d[i] != '/' { assert IsDigit(d[i]); }
    assert FrameName(k)[0] == 's';
    forall i | 0 <= i < |FrameName(k)| ensures FrameName(k)[i] != '/' {
      if 11 <= i < 11 + |d| { assert FrameName(k)[i] == d[i - 11]; }
    }
  }

  /** The frame path is `reel_dir / name` as pathlib forms it. */
  lemma FramePathIsJoin(dir: Path, k: nat)
    ensures FramePath(dir, k) == Str(Join(dir, FrameName(k)))
  {
    FrameNameIsComponent(k);
    JoinComponent(dir, FrameName(k));
  }

  /** The frame paths are the frame names placed in the directory. */
  lemma FramePathsUnder(dir: Path, n: nat)
    ensures FramePaths(dir, n) == Map(PathUnder(dir), FrameNames(n))
  {
    var a, b := FramePaths(dir, n), Map(PathUnder(dir), FrameNames(n));
    forall k | 0 <= k < n ensures a[k] == b[k] {
      FramePathIsJoin(dir, k);
    }
  }

  /** Distinct counters name distinct frames. */
  lemma FrameNameInjective(a: nat, b: nat)
    requires a != b
    ensures FrameName(a) != FrameName(b)
  {
    Pad3Injective(a, b);
    if |Pad3(a)| == |Pad3(b)| {
      assert FrameName(a)[11..11 + |Pad3(a)|] == Pad3(a);
      assert FrameName(b)[11..11 + |Pad3(b)|] == Pad3(b);
    }
  }

  /** Below 1000, a smaller number has a smaller hundreds digit, or the
      same one and a smaller tens digit, or both the same and a smaller
      units digit. */
  lemma ThreeDigitOrder(a: nat, b: nat)
    requires a < b < 1000
    ensures || a / 100 < b / 100
            || (a / 100 == b / 100 && a / 10 % 10 < b / 10 % 10)
            || (a / 100 == b / 100 && a / 10 % 10 == b / 10 % 10 && a % 10 < b % 10)
  {
    assert a == 100 * (a / 100) + 10 * (a / 10 % 10) + a % 10;
    assert b == 100 * (b / 100) + 10 * (b / 10 % 10) + b % 10;
  }

  /** Three-character strings compare on their first differing character. */
  lemma LexLtOfThree(x: string, y: string)
    requires |x| == 3 && |y| == 3
    requires || x[0] < y[0]
             || (x[0] == y[0] && x[1] < y[1])
             || (x[0] == y[0] && x[1] == y[1] && x[2] < y[2])
    ensures LexLt(x, y)
  {
    if x[0] == y[0] {
      assert x[1..][0] == x[1] && y[1..][0] == y[1];
      if x[1] == y[1] {
        assert x[1..][1..] == [x[2]] && y[1..][1..] == [y[2]];
        assert x[2] != y[2];
      } else {
        assert x[1] != y[1];
      }
    } else {
      assert x[0] != y[0];
    }
  }

  /** A name whose number sorts first sorts first. */
  lemma FrameNameOrder(a: nat, b: nat)
    requires |Pad3(a)| == |Pad3(b)| && LexLt(Pad3(a), Pad3(b))
    ensures LexLt(FrameName(a), FrameName(b))
  {
    var x, y := Pad3(a), Pad3(b);
    LexLtExtend(x, y, ".png", ".png");
    LexLePrefix("screenshot_", x + ".png", y + ".png");
    assert FrameName(a) == "screenshot_" + (x + ".png");
    assert FrameName(b) == "screenshot_" + (y + ".png");
    FrameNameInjective(a, b);
  }

  /** Below 1000 frames, string order of the names is capture order. */
  lemma FrameNamesAscending(a: nat, b: nat)
    requires a < b < 1000
    ensures LexLt(FrameName(a), FrameName(b))
  {
    Pad3Small(a);
    Pad3Small(b);
    ThreeDigitOrder(a, b);
    LexLtOfThree(Pad3(a), Pad3(b));
    FrameNameOrder(a, b);
  }

  /** The bound is tight: the thousandth frame sorts before the 999th. */
  lemma FrameOrderBreaksAtThousand()
    ensures LexLt(FrameName(1000), FrameName(999))
  {
    assert Digits(1) == "1";
    assert Digits(10) == "10";
    assert Digits(100) == "100";
    assert Pad3(1000) == "1000";
    assert Digits(9) == "9";
    assert Digits(99) == "99";
    assert Pad3(999) == "999";
    LexLePrefix("screenshot_", "1000.png", "999.png");
    assert FrameName(1000) == "screenshot_" + "1000.png";
    assert FrameName(999) == "screenshot_" + "999.png";
  }

  /** The capture directory is `screenshots/<id>`, or `screenshots` itself
      when the identifier is `.`. */
  lemma CaptureDirParts(path: string, stamp: string)
    requires '/' !in stamp && stamp != ""
    ensures var id := FileId(ExtractReelId(path), stamp);
      CaptureDir(path, stamp) == Path(false, if id == "." then ["screenshots"] else ["screenshots", id])
  {
    var id := FileId(ExtractReelId(path), stamp);
    FileIdOfPath(path, stamp);
    if id == "." {
      SplitPlain(".");
      assert Components(["."]) == [] by { assert ["."][1..] == []; }
    } else {
      JoinComponent(ScreenshotDir, id);
    }
  }

  /** A file named `name` in the capture directory of identifier `id`. */
  lemma CaptureFile(id: string, name: string)
    ensures Str(Path(false, (if id == "." then ["screenshots"] else ["screenshots", id]) + [name]))
              == (if id == "." then "screenshots/" else "screenshots/" + id + "/") + name
  {
    assert "screenshots" + "/" == "screenshots/";
    if id == "." {
      assert ["screenshots"] + [name] == ["screenshots", name];
      assert ["screenshots", name][1..] == [name];
      assert JoinSlash(["screenshots", name]) == "screenshots" + "/" + name;
    } else {
      JoinSlashSnoc(["screenshots", id], name);
      assert ["screenshots", id][1..] == [id];
    }
  }

  /** The frames of a run are `screenshots/<id>/screenshot_NNN.png`, or lie
      directly in `screenshots/` when the identifier is `.`. */
  lemma CaptureFramePath(path: string, stamp: string, k: nat)
    requires '/' !in stamp && stamp != ""
    ensures var id := FileId(ExtractReelId(path), stamp);
      FramePath(CaptureDir(path, stamp), k) ==
        (if id == "." then "screenshots/" else "screenshots/" + id + "/") + FrameName(k)
  {
    CaptureDirParts(path, stamp);
    CaptureFile(FileId(ExtractReelId(path), stamp), FrameName(k));
  }

  // ---- The screenshot loop of `take_screenshots`

  /** What `page.evaluate` answers to "is the video playing?": `NotPlaying`
      covers a paused or ended video and a page without a `<video>`. */
  datatype Probe = Playing | NotPlaying | ProbeRaised

  /** The oracle answers one capture session receives: `clock[0]` is
      `start_time`, `clock[k + 1]` the `time.time()` of the k-th loop test;
      `shots[k]` and `probes[k]` are the k-th screenshot and probe. */
  datatype Session = Session(clock: seq<int>, shots: seq<Call>, probes: seq<Probe>)

  /** The clock runs until a loop test fails, and there is a screenshot
      and a probe answer for every iteration before that. */
  predicate ClockCovers(s: Session, maxDuration: int)
  {
    && |s.clock| >= 2
    && s.clock[|s.clock| - 1] - s.clock[0] >= maxDuration
    && |s.shots| >= |s.clock| - 2
    && |s.probes| >= |s.clock| - 2
  }

  /** The k-th test `time.time() - start_time < max_duration` passes. */
  predicate InTime(s: Session, maxDuration: int, k: nat)
  {
    k + 1 < |s.clock| && s.clock[k + 1] - s.clock[0] < maxDuration
  }

  /** Iteration k runs to its end and the loop goes on. */
  predicate Continues(s: Session, maxDuration: int, k: nat)
  {
    InTime(s, maxDuration, k) && k < |s.shots| && s.shots[k].Returned?
    && k < |s.probes| && s.probes[k] != NotPlaying
  }

  /** The loop reaches its n-th test. */
  predicate Reaches(s: Session, maxDuration: int, n: nat)
  {
    forall k :: 0 <= k < n ==> Continues(s, maxDuration, k)
  }

  /** The loop returns with exactly n screenshots: the n-th test fails, or
      the probe after the n-th screenshot says the video is not playing. */
  predicate StopsAfter(s: Session, maxDuration: int, n: nat)
  {
    || (Reaches(s, maxDuration, n) && !InTime(s, maxDuration, n))
    || (n > 0 && Reaches(s, maxDuration, n - 1) && InTime(s, maxDuration, n - 1)
        && n - 1 < |s.shots| && s.shots[n - 1].Returned?
        && n - 1 < |s.probes| && s.probes[n - 1] == NotPlaying)
  }

  /** The screenshot of iteration j raises, which ends `take_screenshots`
      with that exception. */
  predicate RaisesAt(s: Session, maxDuration: int, j: nat)
  {
    Reaches(s, maxDuration, j) && InTime(s, maxDuration, j) && j < |s.shots| && s.shots[j].Raised?
  }

  /** Iteration k of a loop that reaches its n-th test ran to its end. */
  lemma ContinuesBefore(s: Session, maxDuration: int, n: nat, k: nat)
    ensures Reaches(s, maxDuration, n) && k < n ==> Continues(s, maxDuration, k)
  {
  }

  /** At most one iteration can be the first that does not run to its end. */
  lemma FirstHalt(s: Session, maxDuration: int, a: nat, b: nat)
    ensures (Reaches(s, maxDuration, a) && !Continues(s, maxDuration, a)
             && Reaches(s, maxDuration, b) && !Continues(s, maxDuration, b)) ==> a == b
  {
    ContinuesBefore(s, maxDuration, a, b);
    ContinuesBefore(s, maxDuration, b, a);
  }

  /** The loop has one outcome: a single stopping count, and no raising
      screenshot beside it. */
  lemma CaptureOutcomeUnique(s: Session, maxDuration: int, n: nat, m: nat, j: nat)
    ensures StopsAfter(s, maxDuration, n) && StopsAfter(s, maxDuration, m) ==> n == m
    ensures StopsAfter(s, maxDuration, n) ==> !RaisesAt(s, maxDuration, j)
    ensures RaisesAt(s, maxDuration, n) && RaisesAt(s, maxDuration, m) ==> n == m
  {
    var n1, m1 := if n > 0 then n - 1 else 0, if m > 0 then m - 1 else 0;
    FirstHalt(s, maxDuration, n, m);
    FirstHalt(s, maxDuration, n, m1);
    FirstHalt(s, maxDuration, n1, m);
    FirstHalt(s, maxDuration, n1, m1);
    FirstHalt(s, maxDuration, n, j);
    FirstHalt(s, maxDuration, n1, j);
  }

  /** What the stopping rule means for a run of n screenshots: a probe
      saying the video is not playing stops the loop right after that screenshot; a
      probe that raised does not stop it; and every screenshot was taken
      after a test that found time left. */
  lemma StopRules(s: Session, maxDuration: int, n: nat)
    requires StopsAfter(s, maxDuration, n)
    ensures forall j :: 0 <= j < |s.probes| && s.probes[j] == NotPlaying ==> n <= j + 1
    ensures n > 0 && n - 1 < |s.probes| && s.probes[n - 1] != NotPlaying ==> !InTime(s, maxDuration, n)
    ensures forall k :: 0 <= k < n ==> InTime(s, maxDuration, k)
  {
    var n1 := if n > 0 then n - 1 else 0;
    forall j | 0 <= j < |s.probes| && s.probes[j] == NotPlaying ensures n <= j + 1 {
      ContinuesBefore(s, maxDuration, n1, j);
    }
    forall k | 0 <= k < n ensures InTime(s, maxDuration, k) {
      ContinuesBefore(s, maxDuration, n, k);
      ContinuesBefore(s, maxDuration, n1, k);
    }
  }

  /** One more screenshot appends its path. */
  lemma FramePathsSnoc(dir: Path, n: nat)
    ensures FramePaths(dir, n + 1) == FramePaths(dir, n) + [FramePath(dir, n)]
  {
    var a, b := FramePaths(dir, n + 1), FramePaths(dir, n) + [FramePath(dir, n)];
    assert forall k :: 0 <= k < n + 1 ==> a[k] == b[k];
  }

  /** The capture loop of `take_screenshots` writing into `reelDir`: a
      screenshot every interval until the video ends or `max_duration`
      seconds have passed, the first failing screenshot ending the call. */
  method CaptureLoop(reelDir: Path, maxDuration: int, s: Session) returns (r: Outcome<seq<string>>)
    requires ClockCovers(s, maxDuration)
    ensures r.Return? ==> r.value == FramePaths(reelDir, |r.value|)
    ensures r.Return? ==> StopsAfter(s, maxDuration, |r.value|)
    ensures r.Raise? ==> exists j: nat :: RaisesAt(s, maxDuration, j) && r.message == s.shots[j].message
  {
    var screenshotPaths: seq<string> := [];
    var screenshotCount: nat := 0;
    while s.clock[screenshotCount + 1] - s.clock[0] < maxDuration
      invariant screenshotCount + 1 <= |s.clock| - 1
      invariant screenshotPaths == FramePaths(reelDir, screenshotCount)
      invariant Reaches(s, maxDuration, screenshotCount)
      decreases |s.clock| - screenshotCount
    {
      var screenshotPath := FramePath(reelDir, screenshotCount);
      if s.shots[screenshotCount].Raised? {
        return Raise(s.shots[screenshotCount].message);
      }
      FramePathsSnoc(reelDir, screenshotCount);
      screenshotPaths := screenshotPaths + [screenshotPath];
      screenshotCount := screenshotCount + 1;
      // `asyncio.sleep(interval)` passes; the next clock reading reflects it.
      if s.probes[screenshotCount - 1] == NotPlaying {
        break;
      }
      // `ProbeRaised` is printed and the loop goes on.
    }
    return Return(screenshotPaths);
  }

  /** `take_screenshots(url, interval, max_duration)` on `urlparse(url).path`
      and the `strftime` timestamp used when the URL has no identifier. */
  method TakeScreenshots(path: string, stamp: string, maxDuration: int, s: Session)
    returns (r: Outcome<seq<string>>)
    requires ClockCovers(s, maxDuration)
    ensures r.Return? ==> r.value == FramePaths(CaptureDir(path, stamp), |r.value|)
    ensures r.Return? ==> StopsAfter(s, maxDuration, |r.value|)
    ensures r.Raise? ==> exists j: nat :: RaisesAt(s, maxDuration, j) && r.message == s.shots[j].message
  {
    var reelId := FileId(ExtractReelId(path), stamp);
    var reelDir := Join(ScreenshotDir, reelId);
    assert reelDir == CaptureDir(path, stamp);
    r := CaptureLoop(reelDir, maxDuration, s);
  }

  // ---- The caption dictionary of `extract_transcript`

  /** What one in-page caption query answers. */
  datatype Eval = Evaluated(text: string) | EvalRaised

  /** The transcript dictionary for the two caption queries: a key only for
      a query that answered non-blank text, holding that text stripped. */
  predicate CaptionRecord(fields: Dict, caption: Eval, closedCaptions: Eval)
  {
    && fields.Keys <= {"caption", "closed_captions"}
    && ("caption" in fields <==> caption.Evaluated? && Strip(caption.text, IsSpace) != "")
    && ("caption" in fields ==>
          (caption.Evaluated? && fields["caption"] == JString(Strip(caption.text, IsSpace))))
    && ("closed_captions" in fields <==>
          closedCaptions.Evaluated? && Strip(closedCaptions.text, IsSpace) != "")
    && ("closed_captions" in fields ==>
          (closedCaptions.Evaluated?
           && fields["closed_captions"] == JString(Strip(closedCaptions.text, IsSpace))))
  }

  /** The dictionary `extract_transcript` returns and the file it is saved to. */
  datatype Transcript = Transcript(fields: Dict, savedTo: string)

  /** `extract_transcript(url)`: `wait_for_load_state` may raise; each
      caption query's own exception is caught. */
  method ExtractTranscript(path: string, stamp: string, networkIdle: Call,
                           caption: Eval, closedCaptions: Eval)
    returns (r: Outcome<Transcript>)
    ensures networkIdle.Raised? ==> r == Raise(networkIdle.message)
    ensures networkIdle.Returned? ==> r.Return?
    ensures r.Return? ==> CaptionRecord(r.value.fields, caption, closedCaptions)
    ensures r.Return? ==>
              r.value.savedTo == Str(Join(TranscriptDir, FileId(ExtractReelId(path), stamp) + "_transcript.json"))
  {
    var reelId := FileId(ExtractReelId(path), stamp);
    if networkIdle.Raised? {
      return Raise(networkIdle.message);
    }
    var transcript: Dict := map[];
    if caption.Evaluated? {
      var captionText := caption.text;
      if captionText != "" && Strip(captionText, IsSpace) != "" {
        transcript := transcript["caption" := JString(Strip(captionText, IsSpace))];
      }
    }
    if closedCaptions.Evaluated? {
      var ccText := closedCaptions.text;
      if ccText != "" && Strip(ccText, IsSpace) != "" {
        transcript := transcript["closed_captions" := JString(Strip(ccText, IsSpace))];
      }
    }
    var transcriptPath := Join(TranscriptDir, reelId + "_transcript.json");
    return Return(Transcript(transcript, Str(transcriptPath)));
  }

  // ---- `scrape_reel`

  /** The oracle answers of one browser session: `setup` covers launching,
      `goto`, the waits and the initial screenshot (dialog handling and
      the video selectors catch their own exceptions). */
  datatype Browser = Browser(setup: Call, networkIdle: Call, caption: Eval,
                             closedCaptions: Eval, capture: Session)

  /** The result dictionary of a `scrape_reel` call that did not fail. */
  function ScrapeRecord(reelId: Option<string>, url: string, transcript: Dict, screenshots: seq<string>)
    : (d: Dict)
    ensures d.Keys == {"reel_id", "url", "transcript", "screenshots"} && "error" !in d
    ensures d["reel_id"] == OptionJson(reelId) && d["url"] == JString(url)
    ensures d["transcript"] == JObject(transcript) && d["screenshots"] == StringArray(screenshots)
  {
    map["reel_id" := OptionJson(reelId), "url" := JString(url),
        "transcript" := JObject(transcript), "screenshots" := StringArray(screenshots)]
  }

  /** `scrape_reel(url, screenshot_interval, max_duration)`: either the four
      result keys or only `error`, holding the message of the first
      exception. */
  method ScrapeReel(url: string, path: string, browser: Browser, transcriptStamp: string,
                    captureStamp: string, maxDuration: int)
    returns (r: Dict)
    requires ClockCovers(browser.capture, maxDuration)
    ensures r.Keys == {"reel_id", "url", "transcript", "screenshots"} || r.Keys == {"error"}
    ensures browser.setup.Raised? ==> r == ErrorDict(browser.setup.message)
    ensures browser.setup.Returned? && browser.networkIdle.Raised? ==>
              r == ErrorDict(browser.networkIdle.message)
    ensures browser.setup.Returned? && browser.networkIdle.Returned? ==>
              ("error" in r <==> exists j: nat :: RaisesAt(browser.capture, maxDuration, j))
    ensures browser.setup.Returned? && browser.networkIdle.Returned? && "error" in r ==>
              exists j: nat :: && RaisesAt(browser.capture, maxDuration, j)
                               && (forall k: nat :: k < j ==> !RaisesAt(browser.capture, maxDuration, k))
                               && r == ErrorDict(browser.capture.shots[j].message)
    ensures "error" !in r ==>
              && r["reel_id"] == OptionJson(ExtractReelId(path))
              && r["url"] == JString(url)
              && r["transcript"].JObject?
              && CaptionRecord(r["transcript"].fields, browser.caption, browser.closedCaptions)
              && r["screenshots"].JArray?
              && var n := |r["screenshots"].items|;
                 r["screenshots"] == StringArray(FramePaths(CaptureDir(path, captureStamp), n))
                 && StopsAfter(browser.capture, maxDuration, n)
  {
    if browser.setup.Raised? {
      return ErrorDict(browser.setup.message);
    }
    var reelId := ExtractReelId(path);
    var transcript := ExtractTranscript(path, transcriptStamp, browser.networkIdle,
                                        browser.caption, browser.closedCaptions);
    if transcript.Raise? {
      return ErrorDict(transcript.message);
    }
    var screenshots := TakeScreenshots(path, captureStamp, maxDuration, browser.capture);
    if screenshots.Raise? {
      ghost var j: nat :| RaisesAt(browser.capture, maxDuration, j)
                    && screenshots.message == browser.capture.shots[j].message;
      forall k: nat | k < j ensures !RaisesAt(browser.capture, maxDuration, k) {
        CaptureOutcomeUnique(browser.capture, maxDuration, j, k, 0);
      }
      return ErrorDict(screenshots.message);
    }
    forall j ensures !RaisesAt(browser.capture, maxDuration, j) {
      CaptureOutcomeUnique(browser.capture, maxDuration, |screenshots.value|, 0, j);
    }
    r := ScrapeRecord(reelId, url, transcript.value.fields, screenshots.value);
  }
}
