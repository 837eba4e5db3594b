/** `analyze_images(screenshot_dir)`: the error cases, the `*.png` listing
    in ascending order, the placeholder result and the name of the file it
    is saved to. Whether the directory exists and the names it holds are
    oracle inputs. */
module AnalyzeImages {
  import opened Common
  import opened Strings
  import opened Ordering
  import opened Paths
  import InstagramScraper

  /** The directory entries `glob("*.png")` yields: those whose name ends
      in `.png`, each as often as it is listed. */
  function PngEntries(entries: seq<string>): (r: seq<string>)
    ensures forall x :: multiset(r)[x] == if HasSuffix(x, ".png") then multiset(entries)[x] else 0
  {
    if entries == [] then []
    else
      assert entries == [entries[0]] + entries[1..];
      (if HasSuffix(entries[0], ".png") then [entries[0]] else []) + PngEntries(entries[1..])
  }

  /** `[str(dir / name) for name in names]`. */
  function PathsOf(dir: Path, names: seq<string>): (r: seq<string>)
    ensures |r| == |names|
    ensures forall k :: 0 <= k < |names| ==> r[k] == Str(Join(dir, names[k]))
  {
    Map(PathUnder(dir), names)
  }

  /** The screenshot paths of the result: `sorted` compares paths component
      by component, and the entries of one directory share every component
      but the last, so they come in the order of their names. */
  function ScreenshotPaths(screenshotDir: string, entries: seq<string>): (r: seq<string>)
    ensures |r| == |PngEntries(entries)|
  {
    PathsOf(Parse(screenshotDir), SortStrings(PngEntries(entries)))
  }

  /** `screenshot_dir.parent / f"{screenshot_dir.name}_analysis.json"`. */
  function AnalysisFile(dir: Path): Path
  {
    Join(Parent(dir), Name(dir) + "_analysis.json")
  }

  /** The placeholder `analysis` object. */
  const PlaceholderAnalysis: Json :=
    JObject(map["placeholder" := JString("This will be replaced with actual AI analysis results"),
                "detected_objects" := JArray([]),
                "scene_description" := JString(""),
                "text_detected" := JString(""),
                "actions_detected" := JArray([])])

  /** The result dictionary for a non-empty listing. */
  function Results(screenshots: seq<string>): (d: Dict)
    ensures d.Keys == {"screenshot_count", "screenshot_paths", "analysis"}
    ensures d["screenshot_count"] == JInt(|screenshots|)
    ensures d["screenshot_paths"] == StringArray(screenshots)
    ensures d["analysis"] == PlaceholderAnalysis
  {
    map["screenshot_count" := JInt(|screenshots|),
        "screenshot_paths" := StringArray(screenshots),
        "analysis" := PlaceholderAnalysis]
  }

  /** The dictionary `analyze_images` returns and, unless it reports an
      error, the file it is saved to. */
  datatype Report = Report(result: Dict, savedTo: Option<string>)

  /** `analyze_images(screenshot_dir)` where `present` is
      `screenshot_dir.exists()` and `entries` the names in the directory. */
  function AnalyzeImages(screenshotDir: string, present: bool, entries: seq<string>): (r: Report)
    ensures !present ==> r == Report(ErrorDict("Directory not found"), None)
    ensures present && PngEntries(entries) == [] ==>
              r == Report(ErrorDict("No screenshots found"), None)
    ensures present && PngEntries(entries) != [] ==>
              && r.result == Results(ScreenshotPaths(screenshotDir, entries))
              && r.savedTo == Some(Str(AnalysisFile(Parse(screenshotDir))))
  {
    var dir := Parse(screenshotDir);
    if !present then Report(ErrorDict("Directory not found"), None)
    else
      var screenshots := ScreenshotPaths(screenshotDir, entries);
      if screenshots == [] then Report(ErrorDict("No screenshots found"), None)
      else
        Report(Results(screenshots), Some(Str(AnalysisFile(dir))))
  }

  // ---- The listing is a sorted permutation of the `.png` entries

  /** Below one directory, path order is name order. */
  lemma PathOrderIsNameOrder(dir: Path, x: string, y: string)
    requires Valid(dir) && IsComponent(x) && IsComponent(y)
    ensures LexLe(Str(Join(dir, x)), Str(Join(dir, y))) == LexLe(x, y)
  {
    JoinName(dir, x);
    JoinName(dir, y);
    LexLePrefix(DirPrefix(dir), x, y);
  }

  /** Every name a directory lists is a single path component. */
  predicate Listing(entries: seq<string>)
  {
    forall k :: 0 <= k < |entries| ==> IsComponent(entries[k])
  }

  /** Sorting the `.png` entries of a listing keeps them single names. */
  lemma SortedListing(entries: seq<string>)
    requires Listing(entries)
    ensures Listing(SortStrings(PngEntries(entries)))
  {
    var names := SortStrings(PngEntries(entries));
    forall k | 0 <= k < |names| ensures IsComponent(names[k]) {
      assert names[k] in multiset(PngEntries(entries));
      assert names[k] in multiset(entries);
    }
  }

  /** The result lists every `.png` entry of the directory once per
      occurrence, in ascending string order, as `screenshot_count` says. */
  lemma ScreenshotListing(screenshotDir: string, entries: seq<string>)
    requires Listing(entries)
    ensures IsSorted(ScreenshotPaths(screenshotDir, entries))
    ensures multiset(ScreenshotPaths(screenshotDir, entries))
              == multiset(PathsOf(Parse(screenshotDir), PngEntries(entries)))
  {
    var dir := Parse(screenshotDir);
    var pngs := PngEntries(entries);
    var names := SortStrings(pngs);
    var ps := ScreenshotPaths(screenshotDir, entries);
    SortedListing(entries);
    forall i, j | 0 <= i < j < |ps| ensures LexLe(ps[i], ps[j]) {
      PathOrderIsNameOrder(dir, names[i], names[j]);
    }
    MapPermutation(PathUnder(dir), names, pngs);
  }

  /** The frame names of a capture are in ascending order while there are
      at most 1000 of them. */
  lemma FrameNamesSorted(n: nat)
    requires n <= 1000
    ensures IsSorted(InstagramScraper.FrameNames(n))
  {
    var names := InstagramScraper.FrameNames(n);
    forall i, j | 0 <= i < j < n ensures LexLe(names[i], names[j]) {
      InstagramScraper.FrameNamesAscending(i, j);
    }
  }

  /** A directory holding exactly the first n frames, n at most 1000, is
      listed in capture order, whatever order the directory lists them in. */
  lemma ListingFollowsCaptureOrder(screenshotDir: string, entries: seq<string>, n: nat)
    requires n <= 1000
    requires multiset(PngEntries(entries)) == multiset(InstagramScraper.FrameNames(n))
    ensures ScreenshotPaths(screenshotDir, entries)
              == InstagramScraper.FramePaths(Parse(screenshotDir), n)
  {
    FrameNamesSorted(n);
    SortedUnique(SortStrings(PngEntries(entries)), InstagramScraper.FrameNames(n));
    InstagramScraper.FramePathsUnder(Parse(screenshotDir), n);
  }

  /** Listing a directory given by its printed path. */
  lemma ListingOfDir(dir: Path, entries: seq<string>, n: nat)
    requires Valid(dir) && n <= 1000
    requires multiset(PngEntries(entries)) == multiset(InstagramScraper.FrameNames(n))
    ensures ScreenshotPaths(Str(dir), entries) == InstagramScraper.FramePaths(dir, n)
  {
    ParseStr(dir);
    ListingFollowsCaptureOrder(Str(dir), entries, n);
  }

  /** Analysing the directory a capture run wrote gives back the list that
      `take_screenshots` returned. */
  lemma AnalysisOfCapture(path: string, stamp: string, entries: seq<string>, n: nat)
    requires n <= 1000
    requires multiset(PngEntries(entries)) == multiset(InstagramScraper.FrameNames(n))
    ensures var dir := InstagramScraper.CaptureDir(path, stamp);
      ScreenshotPaths(Str(dir), entries) == InstagramScraper.FramePaths(dir, n)
  {
    InstagramScraper.CaptureDirValid(path, stamp);
    ListingOfDir(InstagramScraper.CaptureDir(path, stamp), entries, n);
  }

  /** The results file sits beside the directory, named after it. */
  lemma AnalysisFileName(dir: Path)
    requires Valid(dir)
    ensures Str(AnalysisFile(dir)) == DirPrefix(Parent(dir)) + Name(dir) + "_analysis.json"
  {
    ComponentWithSuffix(Name(dir), "_analysis.json");
    JoinName(Parent(dir), Name(dir) + "_analysis.json");
  }
}
