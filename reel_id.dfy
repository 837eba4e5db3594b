/** Finding the reel identifier in the path of a post URL
    (`extract_reel_id`, present twice in the scripts), and the regular
    expression `/(reel|reels|p)/([^/]+)` it falls back on. */
module ReelId {
  import opened Common
  import opened Strings

  /** The path segments that announce an identifier. */
  predicate IsMarker(seg: string) { seg == "reel" || seg == "reels" || seg == "p" }

  /** `path.strip("/").split("/")`. */
  function Segments(path: string): (parts: seq<string>)
    ensures |parts| >= 1
    ensures forall i :: 0 <= i < |parts| ==> '/' !in parts[i]
  {
    SplitNoSlash(Strip(path, IsSlash));
    Split(Strip(path, IsSlash))
  }

  /** `i` is the first marker segment, and it has a successor. (Every
      marker before a marker with a successor has one too, so "first
      marker" and "first marker with a successor" coincide.) */
  predicate FirstMarker(parts: seq<string>, i: int)
  {
    0 <= i && i + 1 < |parts| && IsMarker(parts[i])
    && forall j :: 0 <= j < i ==> !IsMarker(parts[j])
  }

  /** The segment loop from index `i` on: the successor of the first
      marker at or after `i` that has one. */
  function SearchFrom(parts: seq<string>, i: nat): (r: Option<string>)
    decreases |parts| - i
    ensures r.Some? ==> r.value in parts
    ensures r.None? <==> forall j :: i <= j < |parts| - 1 ==> !IsMarker(parts[j])
    ensures forall j :: i <= j < |parts| - 1 && IsMarker(parts[j])
                   && (forall k :: i <= k < j ==> !IsMarker(parts[k]))
                   ==> r == Some(parts[j + 1])
  {
    if i >= |parts| then None
    else if IsMarker(parts[i]) && i + 1 < |parts| then Some(parts[i + 1])
    else SearchFrom(parts, i + 1)
  }

  // ---- The regular expression `/(reel|reels|p)/([^/]+)` under `re.search`.

  /** Length of the run of non-`/` characters starting at `k`. */
  function RunLength(s: string, k: nat): (n: nat)
    requires k <= |s|
    decreases |s| - k
    ensures k + n <= |s|
    ensures forall i :: k <= i < k + n ==> s[i] != '/'
    ensures k + n < |s| ==> s[k + n] == '/'
  {
    if k == |s| || s[k] == '/' then 0 else 1 + RunLength(s, k + 1)
  }

  /** `/m/` followed by at least one non-`/` character matches at `j`. */
  predicate MarkerAt(s: string, j: nat, m: string)
  {
    j + |m| + 2 < |s| && s[j] == '/' && s[j + 1..j + 1 + |m|] == m
    && s[j + 1 + |m|] == '/' && s[j + 2 + |m|] != '/'
  }

  /** Group 2 of a match at `j` with marker `m`: the greedy `[^/]+`. */
  function Group(s: string, j: nat, m: string): (g: string)
    requires MarkerAt(s, j, m)
    ensures g != [] && '/' !in g
  {
    var k := j + |m| + 2;
    s[k..k + RunLength(s, k)]
  }

  /** The match attempt at position `j`, alternatives tried in order. */
  function MatchAt(s: string, j: nat): Option<string>
  {
    if MarkerAt(s, j, "reel") then Some(Group(s, j, "reel"))
    else if MarkerAt(s, j, "reels") then Some(Group(s, j, "reels"))
    else if MarkerAt(s, j, "p") then Some(Group(s, j, "p"))
    else None
  }

  predicate MatchesAt(s: string, j: nat)
  {
    MarkerAt(s, j, "reel") || MarkerAt(s, j, "reels") || MarkerAt(s, j, "p")
  }

  /** `re.search` from position `j`: the leftmost match at or after `j`. */
  function RegexSearchFrom(s: string, j: nat): (r: Option<string>)
    decreases |s| - j
    ensures r.Some? ==> r.value != [] && '/' !in r.value
    ensures r.Some? ==> exists k :: j <= k < |s| && MatchesAt(s, k)
  {
    if j >= |s| then None
    else if MatchAt(s, j).Some? then
      assert MatchesAt(s, j);
      MatchAt(s, j)
    else RegexSearchFrom(s, j + 1)
  }

  /** `re.search(r'/(reel|reels|p)/([^/]+)', path)`, group 2. */
  function RegexSearch(s: string): (r: Option<string>)
    ensures r.Some? ==> r.value != [] && '/' !in r.value
    ensures r.Some? ==> exists k :: 0 <= k < |s| && MatchesAt(s, k)
  {
    RegexSearchFrom(s, 0)
  }

  /** Stripping the slashes around a match keeps the marker, the `/`
      after it, a character after that, and a `/` before it unless the
      marker now starts the string. */
  lemma StripAroundMatch(s: string, j: nat, m: string) returns (k: nat)
    requires IsMarker(m) && MarkerAt(s, j, m)
    ensures var t := Strip(s, IsSlash);
      && k + |m| + 1 < |t| && t[k..k + |m|] == m && t[k + |m|] == '/'
      && (k > 0 ==> t[k - 1] == '/')
  {
    var lo, hi := StripBounds(s, j, m);
    assert Strip(s, IsSlash) == s[lo..hi];
    k := j + 1 - lo;
    MarkerInSlice(s, lo, hi, j, m);
  }

  /** A marker that lies inside `s[lo..hi]` sits `lo` places earlier there. */
  lemma MarkerInSlice(s: string, lo: nat, hi: nat, j: nat, m: string)
    requires lo <= j + 1 && j + 2 + |m| < hi <= |s|
    requires s[j] == '/' && s[j + 1..j + 1 + |m|] == m && s[j + 1 + |m|] == '/'
    ensures var t, k := s[lo..hi], j + 1 - lo;
      && k + |m| + 1 < |t| && t[k..k + |m|] == m && t[k + |m|] == '/'
      && (k > 0 ==> t[k - 1] == '/')
  {
    SliceOfSlice(s, lo, hi, j + 1, j + 1 + |m|);
  }

  /** The stripped part of `s` starts at or before the marker and ends
      after the character that follows it. */
  lemma StripBounds(s: string, j: nat, m: string) returns (lo: nat, hi: nat)
    requires IsMarker(m) && MarkerAt(s, j, m)
    ensures lo == StripStart(s, IsSlash) && hi == StripEnd(s, IsSlash)
    ensures lo <= j + 1 && j + 2 + |m| < hi
  {
    lo, hi := StripStart(s, IsSlash), StripEnd(s, IsSlash);
    assert s[j + 1] != '/' by { assert s[j + 1] == m[0]; }
    assert !IsSlash(s[j + 1]) && !IsSlash(s[j + 2 + |m|]);
  }

  /** A separator-free piece that sits between separators (or at the
      start) and is followed by more text is a segment with a successor. */
  lemma SegmentWithSuccessor(t: string, k: nat, m: string)
    requires '/' !in m
    requires k + |m| < |t| && t[k..k + |m|] == m && t[k + |m|] == '/'
    requires k > 0 ==> t[k - 1] == '/'
    ensures exists i :: 0 <= i < |Split(t)| - 1 && Split(t)[i] == m
  {
    var tail := t[k..];
    var rest := tail[|m| + 1..];
    assert tail[..|m|] == m;
    CutAt(tail, |m|);
    SplitPlain(m);
    SplitConcat(m, rest);
    assert Split(tail) == [m] + Split(rest);
    if k == 0 {
      assert t == tail;
      assert Split(t)[0] == m;
    } else {
      var pre := t[..k - 1];
      CutAt(t, k - 1);
      assert t[k - 1 + 1..] == tail;
      SplitConcat(pre, tail);
      assert Split(t)[|Split(pre)|] == m;
    }
  }

  /** Where the regular expression matches, the stripped and split path
      has the marker as a segment with a successor. */
  lemma MatchGivesSegment(s: string, j: nat, m: string)
    requires IsMarker(m) && MarkerAt(s, j, m)
    ensures exists i :: 0 <= i < |Segments(s)| - 1 && IsMarker(Segments(s)[i])
  {
    var k := StripAroundMatch(s, j, m);
    SegmentWithSuccessor(Strip(s, IsSlash), k, m);
    var i :| 0 <= i < |Split(Strip(s, IsSlash))| - 1 && Split(Strip(s, IsSlash))[i] == m;
    assert IsMarker(Segments(s)[i]);
  }

  /** The regular-expression fallback only matches where the segment loop
      has already returned. */
  lemma FallbackUnreachable(path: string)
    ensures SearchFrom(Segments(path), 0).None? ==> RegexSearch(path).None?
  {
    if RegexSearch(path).Some? {
      var k :| 0 <= k < |path| && MatchesAt(path, k);
      if MarkerAt(path, k, "reel") {
        MatchGivesSegment(path, k, "reel");
      } else if MarkerAt(path, k, "reels") {
        MatchGivesSegment(path, k, "reels");
      } else {
        MatchGivesSegment(path, k, "p");
      }
    }
  }

  /** `extract_reel_id(url)` on `urlparse(url).path`: the segment after the
      first marker segment that has a successor, else the regular
      expression's group 2, else `None`. */
  function ExtractReelId(path: string): (r: Option<string>)
    ensures r.None? <==>
              forall i :: 0 <= i < |Segments(path)| - 1 ==> !IsMarker(Segments(path)[i])
    ensures forall i :: FirstMarker(Segments(path), i) ==> r == Some(Segments(path)[i + 1])
    ensures r.Some? ==> '/' !in r.value && r.value in Segments(path)
  {
    var parts := Segments(path);
    var found := SearchFrom(parts, 0);
    FallbackUnreachable(path);
    if found.Some? then found else RegexSearch(path)
  }

  /** `extract_reel_id(url) or fallback`: a missing or empty identifier
      gives way to the fallback. */
  function FileId(id: Option<string>, fallback: string): (r: string)
    ensures id.Some? && id.value != "" ==> r == id.value
    ensures id.None? || id.value == "" ==> r == fallback
  {
    if id.Some? && id.value != "" then id.value else fallback
  }

  /** The key of a run's files, in terms of the URL path: the successor of
      the first marker segment unless there is none or it is empty. */
  lemma FileIdOfPath(path: string, fallback: string)
    ensures (forall i :: 0 <= i < |Segments(path)| - 1 ==> !IsMarker(Segments(path)[i]))
            ==> FileId(ExtractReelId(path), fallback) == fallback
    ensures forall i :: FirstMarker(Segments(path), i) ==>
              FileId(ExtractReelId(path), fallback) ==
                (if Segments(path)[i + 1] == "" then fallback else Segments(path)[i + 1])
    ensures '/' !in fallback ==> '/' !in FileId(ExtractReelId(path), fallback)
    ensures fallback != "" ==> FileId(ExtractReelId(path), fallback) != ""
  {
  }
}
