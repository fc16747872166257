/**
 How each provider's `reviewCode` recovers the diff and the file list from an
 already-rendered prompt, using the two JavaScript regular expressions

   /DIFF:\s*\n([\s\S]*?)(?:\n\nPlease provide:|$)/
   /FILES MODIFIED:\s*\n([\s\S]*?)\n\nDIFF:/

 A match is described by where it starts and where its group begins and ends.
 JavaScript picks the leftmost start; at that start the greedy `\s*` gives back
 characters one at a time, so the group begins as late as possible; the lazy
 group then ends as early as possible. `DiffMatch`/`FilesMatch` say which spans
 the pattern admits, `PreferredDiff`/`PreferredFiles` say which one JavaScript
 returns, and the scanners below compute it.
 */
module Extraction {
  import opened Results
  import opened Strings

  const DiffLabel := "DIFF:"
  const DiffEnd := "\n\nPlease provide:"
  const FilesLabel := "FILES MODIFIED:"
  const FilesEnd := "\n\nDIFF:"
  const NoFileInformation := "No file information provided"

  /** Start of the match, and start and end of its group. */
  datatype Capture = Capture(start: nat, from: nat, to: nat)

  /** `label\s*\n` matched at `i`, leaving the group to begin at `c`. */
  ghost predicate LabelThenBreak(s: string, head: string, i: int, c: int) {
    OccursAt(s, head, i) && i + |head| < c <= |s| && s[c - 1] == '\n'
    && forall k :: i + |head| <= k < c - 1 ==> IsSpace(s[k])
  }

  /** The diff pattern can match at `i` with its group spanning `[c, e)`. */
  ghost predicate DiffMatch(s: string, i: int, c: int, e: int) {
    LabelThenBreak(s, DiffLabel, i, c) && c <= e <= |s| && (OccursAt(s, DiffEnd, e) || e == |s|)
  }

  /** The files pattern can match at `i` with its group spanning `[c, e)`. */
  ghost predicate FilesMatch(s: string, i: int, c: int, e: int) {
    LabelThenBreak(s, FilesLabel, i, c) && c <= e && OccursAt(s, FilesEnd, e)
  }

  /** The diff match JavaScript reports: leftmost, then latest group start, then earliest group end. */
  ghost predicate PreferredDiff(s: string, i: int, c: int, e: int) {
    && DiffMatch(s, i, c, e)
    && (forall j, c', e' :: 0 <= j < i ==> !DiffMatch(s, j, c', e'))
    && (forall c', e' :: DiffMatch(s, i, c', e') ==> c' <= c)
    && (forall e' :: DiffMatch(s, i, c, e') ==> e <= e')
  }

  /** The files match JavaScript reports: leftmost, then latest group start, then earliest group end. */
  ghost predicate PreferredFiles(s: string, i: int, c: int, e: int) {
    && FilesMatch(s, i, c, e)
    && (forall j, c', e' :: 0 <= j < i ==> !FilesMatch(s, j, c', e'))
    && (forall c', e' :: FilesMatch(s, i, c', e') ==> c' <= c)
    && (forall e' :: FilesMatch(s, i, c, e') ==> e <= e')
  }

  // ---------------------------------------------------------------------------
  // Scanners
  // ---------------------------------------------------------------------------

  /** End of the whitespace run that starts at `i`. */
  function SpaceRunEnd(s: string, i: nat): (e: nat)
    requires i <= |s|
    decreases |s| - i
    ensures i <= e <= |s|
    ensures forall k :: i <= k < e ==> IsSpace(s[k])
    ensures e == |s| || !IsSpace(s[e])
  {
    if i < |s| && IsSpace(s[i]) then SpaceRunEnd(s, i + 1) else i
  }

  /** The last line feed in `s[lo..hi]`. */
  function LastBreak(s: string, lo: nat, hi: nat): (r: Option<nat>)
    requires lo <= hi <= |s|
    decreases hi - lo
    ensures r.Some? ==> lo <= r.value < hi && s[r.value] == '\n'
    ensures forall k :: lo <= k < hi && (r.None? || r.value < k) ==> s[k] != '\n'
  {
    if hi == lo then None
    else if s[hi - 1] == '\n' then Some(hi - 1)
    else LastBreak(s, lo, hi - 1)
  }

  /** Any `label\s*\n` at `i` leaves its group inside the whitespace run after the label. */
  lemma BreakWithinRun(s: string, head: string, i: nat, c: int)
    requires LabelThenBreak(s, head, i, c)
    ensures c <= SpaceRunEnd(s, i + |head|)
  {
    var e := SpaceRunEnd(s, i + |head|);
    if e < c {
      assert IsSpace(s[e]);
    }
  }

  /** The diff pattern tried at `i` alone. */
  function DiffCaptureAt(s: string, i: nat): (r: Option<Capture>)
    ensures r.Some? ==> r.value.start == i && DiffMatch(s, i, r.value.from, r.value.to)
    ensures r.Some? ==> forall c, e :: DiffMatch(s, i, c, e) ==> c <= r.value.from
    ensures r.Some? ==> forall e :: DiffMatch(s, i, r.value.from, e) ==> r.value.to <= e
    ensures r.None? ==> forall c, e :: !DiffMatch(s, i, c, e)
  {
    if !OccursAt(s, DiffLabel, i) then None
    else
      var w := i + |DiffLabel|;
      var run := SpaceRunEnd(s, w);
      match LastBreak(s, w, run)
      case None =>
        assert forall c, e :: DiffMatch(s, i, c, e) ==> false by {
          forall c, e | DiffMatch(s, i, c, e) ensures false {
            BreakWithinRun(s, DiffLabel, i, c);
          }
        }
        None
      case Some(k) =>
        var e := match FindFrom(s, DiffEnd, k + 1) case Some(j) => j case None => |s|;
        assert forall c, e' :: DiffMatch(s, i, c, e') ==> c <= k + 1 by {
          forall c, e' | DiffMatch(s, i, c, e') ensures c <= k + 1 {
            BreakWithinRun(s, DiffLabel, i, c);
          }
        }
        Some(Capture(i, k + 1, e))
  }

  /** The diff pattern tried at `i`, `i + 1`, ... in turn. */
  function DiffCaptureFrom(s: string, i: nat): (r: Option<Capture>)
    decreases |s| + 1 - i
    ensures r.Some? ==> i <= r.value.start && DiffMatch(s, r.value.start, r.value.from, r.value.to)
    ensures r.Some? ==> forall c, e :: DiffMatch(s, r.value.start, c, e) ==> c <= r.value.from
    ensures r.Some? ==> forall e :: DiffMatch(s, r.value.start, r.value.from, e) ==> r.value.to <= e
    ensures forall j, c, e :: i <= j && (r.None? || j < r.value.start) ==> !DiffMatch(s, j, c, e)
  {
    if i > |s| then None
    else
      match DiffCaptureAt(s, i)
      case Some(m) => Some(m)
      case None => DiffCaptureFrom(s, i + 1)
  }

  /**
   The group starts the files pattern can use at `i`, tried from the line feed that
   ends at `hi` backward, as the greedy `\s*` gives characters back.
   */
  function FilesCaptureBack(s: string, i: nat, hi: nat): (r: Option<Capture>)
    requires OccursAt(s, FilesLabel, i) && i + |FilesLabel| <= hi <= |s|
    requires forall k :: i + |FilesLabel| <= k < hi ==> IsSpace(s[k])
    decreases hi
    ensures r.Some? ==> r.value.start == i && FilesMatch(s, i, r.value.from, r.value.to) && r.value.from <= hi
    ensures r.Some? ==> forall c, e :: FilesMatch(s, i, c, e) && c <= hi ==> c <= r.value.from
    ensures r.Some? ==> forall e :: FilesMatch(s, i, r.value.from, e) ==> r.value.to <= e
    ensures r.None? ==> forall c, e :: c <= hi ==> !FilesMatch(s, i, c, e)
  {
    if hi == i + |FilesLabel| then None
    else if s[hi - 1] == '\n' && FindFrom(s, FilesEnd, hi).Some? then
      Some(Capture(i, hi, FindFrom(s, FilesEnd, hi).value))
    else
      var r := FilesCaptureBack(s, i, hi - 1);
      assert forall e :: !FilesMatch(s, i, hi, e);
      r
  }

  /** The files pattern tried at `i` alone. */
  function FilesCaptureAt(s: string, i: nat): (r: Option<Capture>)
    ensures r.Some? ==> r.value.start == i && FilesMatch(s, i, r.value.from, r.value.to)
    ensures r.Some? ==> forall c, e :: FilesMatch(s, i, c, e) ==> c <= r.value.from
    ensures r.Some? ==> forall e :: FilesMatch(s, i, r.value.from, e) ==> r.value.to <= e
    ensures r.None? ==> forall c, e :: !FilesMatch(s, i, c, e)
  {
    if !OccursAt(s, FilesLabel, i) then None
    else
      var run := SpaceRunEnd(s, i + |FilesLabel|);
      assert forall c, e :: FilesMatch(s, i, c, e) ==> c <= run by {
        forall c, e | FilesMatch(s, i, c, e) ensures c <= run {
          BreakWithinRun(s, FilesLabel, i, c);
        }
      }
      FilesCaptureBack(s, i, run)
  }

  /** The files pattern tried at `i`, `i + 1`, ... in turn. */
  function FilesCaptureFrom(s: string, i: nat): (r: Option<Capture>)
    decreases |s| + 1 - i
    ensures r.Some? ==> i <= r.value.start && FilesMatch(s, r.value.start, r.value.from, r.value.to)
    ensures r.Some? ==> forall c, e :: FilesMatch(s, r.value.start, c, e) ==> c <= r.value.from
    ensures r.Some? ==> forall e :: FilesMatch(s, r.value.start, r.value.from, e) ==> r.value.to <= e
    ensures forall j, c, e :: i <= j && (r.None? || j < r.value.start) ==> !FilesMatch(s, j, c, e)
  {
    if i > |s| then None
    else
      match FilesCaptureAt(s, i)
      case Some(m) => Some(m)
      case None => FilesCaptureFrom(s, i + 1)
  }

  // ---------------------------------------------------------------------------
  // What `reviewCode` hands to the generator
  // ---------------------------------------------------------------------------

  /**
   `diffMatch ? diffMatch[1].trim() : prompt`: the trimmed group of the match
   JavaScript reports, or the whole prompt, untrimmed, when the pattern does not match.
   */
  function ExtractDiff(prompt: string): (d: string)
    ensures (forall i, c, e :: !DiffMatch(prompt, i, c, e)) ==> d == prompt
    ensures forall i, c, e :: PreferredDiff(prompt, i, c, e) ==> d == Trim(prompt[c..e])
  {
    match DiffCaptureFrom(prompt, 0)
    case None => prompt
    case Some(m) =>
      assert PreferredDiff(prompt, m.start, m.from, m.to);
      PreferredDiffUnique(prompt, m.start, m.from, m.to);
      Trim(prompt[m.from..m.to])
  }

  /**
   `filesMatch ? filesMatch[1].trim() : "No file information provided"`.
   */
  function ExtractFiles(prompt: string): (f: string)
    ensures (forall i, c, e :: !FilesMatch(prompt, i, c, e)) ==> f == NoFileInformation
    ensures forall i, c, e :: PreferredFiles(prompt, i, c, e) ==> f == Trim(prompt[c..e])
  {
    match FilesCaptureFrom(prompt, 0)
    case None => NoFileInformation
    case Some(m) =>
      assert PreferredFiles(prompt, m.start, m.from, m.to);
      PreferredFilesUnique(prompt, m.start, m.from, m.to);
      Trim(prompt[m.from..m.to])
  }

  /** At most one diff span is the preferred one. */
  lemma PreferredDiffUnique(s: string, i: int, c: int, e: int)
    requires PreferredDiff(s, i, c, e)
    ensures forall i', c', e' :: PreferredDiff(s, i', c', e') ==> i' == i && c' == c && e' == e
  {
  }

  /** At most one files span is the preferred one. */
  lemma PreferredFilesUnique(s: string, i: int, c: int, e: int)
    requires PreferredFiles(s, i, c, e)
    ensures forall i', c', e' :: PreferredFiles(s, i', c', e') ==> i' == i && c' == c && e' == e
  {
  }
}
