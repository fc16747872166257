/**
 What a provider recovers from a prompt that `buildReviewPrompt` rendered: the
 extraction patterns find the diff and the file list the prompt was built from,
 under conditions on their contents.

 The first half works on any text laid out as `X + label + "\n" + body + end + Y`;
 the second half shows that a rendered prompt has that layout twice over.
 */
module PromptRoundTrip {
  import opened Results
  import opened Strings
  import opened Prompt
  import opened Extraction
  import opened ReviewFormat
  import opened Providers

  // ---------------------------------------------------------------------------
  // The diff pattern on a laid-out text
  // ---------------------------------------------------------------------------

  /** A string with a non-space character keeps one after its leading whitespace. */
  lemma LeadingSpace(s: string) returns (w: nat)
    requires HasNonSpace(s)
    ensures w < |s| && !IsSpace(s[w]) && forall k :: 0 <= k < w ==> IsSpace(s[k])
  {
    w := |s| - |TrimStart(s)|;
    forall k | 0 <= k < w ensures IsSpace(s[k]) {
      assert s[..w][k] == s[k];
    }
    var k :| 0 <= k < |s| && !IsSpace(s[k]);
    assert TrimStart(s) == s[w..];
    assert w <= k;
    assert TrimStart(s)[0] == s[w];
  }

  /** The whitespace run after `i` ends at the first non-space character. */
  lemma RunEndsAt(s: string, i: nat, r: nat)
    requires i <= r < |s| && !IsSpace(s[r])
    requires forall k :: i <= k < r ==> IsSpace(s[k])
    ensures SpaceRunEnd(s, i) == r
  {
  }

  /** The pieces of `X + DIFF: + "\n" + body + end + Y`, located. */
  lemma DiffLayoutPieces(x: string, body: string, y: string)
    ensures var p := x + DiffLabel + "\n" + body + DiffEnd + y;
      var b := |x| + |DiffLabel|;
      && OccursAt(p, DiffLabel, |x|) && p[b] == '\n'
      && p[b + 1..b + 1 + |body|] == body
      && OccursAt(p, DiffEnd, b + 1 + |body|)
  {
    var p := x + DiffLabel + "\n" + body + DiffEnd + y;
    var b := |x| + |DiffLabel|;
    assert p[|x|..b] == DiffLabel;
    assert p[b + 1..b + 1 + |body|] == body;
    assert p[b + 1 + |body|..b + 1 + |body| + |DiffEnd|] == DiffEnd;
  }

  /**
   The whitespace run after `DIFF:` at `l` covers the line feed and the body's
   leading whitespace, and stops at the body's first non-space character.
   */
  lemma DiffRun(p: string, i: nat, body: string) returns (r: nat)
    requires i + 1 + |body| <= |p| && p[i] == '\n' && p[i + 1..i + 1 + |body|] == body
    requires HasNonSpace(body)
    ensures i + 1 <= r < i + 1 + |body| && SpaceRunEnd(p, i) == r
    ensures forall k :: 0 <= k < r - (i + 1) ==> IsSpace(body[k])
  {
    var w := LeadingSpace(body);
    r := i + 1 + w;
    forall k | i <= k < r ensures IsSpace(p[k]) {
      if k > i {
        BodyChar(p, i + 1, body, k - (i + 1));
      }
    }
    BodyChar(p, i + 1, body, w);
    RunEndsAt(p, i, r);
  }

  /** A character of a piece found in a text. */
  lemma BodyChar(p: string, at: nat, body: string, k: nat)
    requires at + |body| <= |p| && p[at..at + |body|] == body && k < |body|
    ensures p[at + k] == body[k]
  {
    assert p[at + k] == p[at..at + |body|][k];
  }

  /**
   After `DIFF:` at `l`, a line feed and then a body with a non-space character, the
   greedy `\s*\n` leaves the group at `c`: past the last line feed before the body's
   first non-space character. Only whitespace of the body is skipped.
   */
  lemma DiffGroupStart(p: string, l: nat, body: string) returns (c: nat)
    requires OccursAt(p, DiffLabel, l) && l + |DiffLabel| < |p| && p[l + |DiffLabel|] == '\n'
    requires l + |DiffLabel| + 1 + |body| <= |p| && p[l + |DiffLabel| + 1..l + |DiffLabel| + 1 + |body|] == body
    requires HasNonSpace(body)
    ensures var d0 := l + |DiffLabel| + 1;
      && d0 <= c <= d0 + |body| && LabelThenBreak(p, DiffLabel, l, c)
      && (forall k :: 0 <= k < c - d0 ==> IsSpace(body[k]))
      && forall c', e' :: DiffMatch(p, l, c', e') ==> c' <= c
  {
    var b := l + |DiffLabel|;
    var r := DiffRun(p, b, body);
    var q := LastBreak(p, b, r).value;
    c := q + 1;
    forall c', e' | DiffMatch(p, l, c', e') ensures c' <= c {
      BreakWithinRun(p, DiffLabel, l, c');
    }
  }

  /** The lazy group that starts inside the body ends where the body does. */
  lemma DiffGroupEnd(p: string, l: nat, c: nat, body: string, e: nat)
    requires c <= e <= |p| && e - c <= |body| && p[c..e] == body[|body| - (e - c)..]
    requires OccursAt(p, DiffEnd, e) && !Contains(body, DiffEnd)
    ensures forall e' :: DiffMatch(p, l, c, e') ==> e <= e'
  {
    ParagraphHeading("Please provide:");
    assert DiffEnd == "\n\n" + "Please provide:";
    ContainsSlice(body, DiffEnd, |body| - (e - c), |body|);
    assert body[|body| - (e - c)..|body|] == body[|body| - (e - c)..];
    FindNext(p, DiffEnd, c, e);
  }

  /**
   With no `DIFF:` before the label, a body holding a non-space character and no
   `\n\nPlease provide:`, the diff pattern yields the trimmed body.
   */
  lemma DiffFromLayout(x: string, body: string, y: string)
    requires var p := x + DiffLabel + "\n" + body + DiffEnd + y;
      forall j :: 0 <= j < |x| ==> !OccursAt(p, DiffLabel, j)
    requires HasNonSpace(body) && !Contains(body, DiffEnd)
    ensures ExtractDiff(x + DiffLabel + "\n" + body + DiffEnd + y) == Trim(body)
  {
    var p := x + DiffLabel + "\n" + body + DiffEnd + y;
    var l := |x|;
    var d0 := l + |DiffLabel| + 1;
    var e := d0 + |body|;
    DiffLayoutPieces(x, body, y);
    var c := DiffGroupStart(p, l, body);
    assert p[c..e] == body[c - d0..] by {
      assert p[c..e] == p[d0..e][c - d0..];
    }
    DiffGroupEnd(p, l, c, body, e);
    assert PreferredDiff(p, l, c, e);
    assert body == body[..c - d0] + body[c - d0..];
    var lead := body[..c - d0];
    assert AllSpace(lead) by {
      forall k | 0 <= k < |lead| ensures IsSpace(lead[k]) {
        assert lead[k] == body[k];
      }
    }
    TrimSkipsSpace(body[..c - d0], body[c - d0..]);
  }

  // ---------------------------------------------------------------------------
  // The files pattern on a laid-out text
  // ---------------------------------------------------------------------------

  /** The pieces of `X + FILES MODIFIED: + "\n" + list + end + Y`, located. */
  lemma FilesLayoutPieces(x: string, fl: string, y: string)
    ensures var p := x + FilesLabel + "\n" + fl + FilesEnd + y;
      var c := |x| + |FilesLabel| + 1;
      && OccursAt(p, FilesLabel, |x|) && p[c - 1] == '\n'
      && c + |fl| <= |p| && p[c..c + |fl|] == fl
      && OccursAt(p, FilesEnd, c + |fl|)
  {
    var p := x + FilesLabel + "\n" + fl + FilesEnd + y;
    var c := |x| + |FilesLabel| + 1;
    assert p[|x|..c - 1] == FilesLabel;
    assert p[c..c + |fl|] == fl;
    assert p[c + |fl|..c + |fl| + |FilesEnd|] == FilesEnd;
  }

  /**
   With no `FILES MODIFIED:` before the label and a list that starts with a non-space
   character and holds no `\n\nDIFF:`, the files pattern yields the trimmed list. An
   empty list is read back too, provided no later `\n\nDIFF:` lets the greedy `\s*`
   keep the line feeds that follow the label.
   */
  lemma FilesFromLayout(x: string, fl: string, y: string)
    requires var p := x + FilesLabel + "\n" + fl + FilesEnd + y;
      forall j :: 0 <= j < |x| ==> !OccursAt(p, FilesLabel, j)
    requires !Contains(fl, FilesEnd)
    requires fl != [] ==> !IsSpace(fl[0])
    requires var p := x + FilesLabel + "\n" + fl + FilesEnd + y;
      fl == [] ==> forall j :: |x| + |FilesLabel| + 1 < j ==> !OccursAt(p, FilesEnd, j)
    ensures ExtractFiles(x + FilesLabel + "\n" + fl + FilesEnd + y) == Trim(fl)
  {
    var p := x + FilesLabel + "\n" + fl + FilesEnd + y;
    var l := |x|;
    var c := l + |FilesLabel| + 1;
    var e := c + |fl|;
    FilesLayoutPieces(x, fl, y);
    assert FilesMatch(p, l, c, e);
    forall c', e' | FilesMatch(p, l, c', e') ensures c' <= c {
      if fl == [] {
        assert OccursAt(p, FilesEnd, e') && c' <= e';
      } else {
        BodyChar(p, c, fl, 0);
        RunEndsAt(p, c - 1, c);
        BreakWithinRun(p, FilesLabel, l, c');
      }
    }
    ParagraphHeading("DIFF:");
    assert FilesEnd == "\n\n" + "DIFF:";
    FindNext(p, FilesEnd, c, e);
    assert PreferredFiles(p, l, c, e);
  }

  // ---------------------------------------------------------------------------
  // The rendered prompt
  // ---------------------------------------------------------------------------

  const IntroText := "Please review the following code changes:"
  const RequestText := "Please provide:"

  /** How the prompt's fixed pieces line up with the extraction patterns' markers. */
  lemma PromptPieces()
    ensures Intro == IntroText + "\n\n" && FilesHeading == FilesLabel + "\n"
    ensures DiffHeading == FilesEnd + "\n" && FilesEnd == "\n\n" + DiffLabel
    ensures Request == DiffEnd && DiffEnd == "\n\n" + RequestText
  {
  }

  /** The prompt as the files pattern sees it. */
  lemma FilesLayout(diff: string, files: seq<FileRecord>)
    ensures BuildReviewPrompt(diff, files)
         == Intro + FilesLabel + "\n" + FileList(files) + FilesEnd + ("\n" + diff + Request + Items)
  {
    PromptPieces();
    Regroup(Intro, FilesLabel, FileList(files), FilesEnd, diff, Request, Items);
  }

  /** The prompt as the diff pattern sees it. */
  lemma DiffLayout(diff: string, files: seq<FileRecord>)
    ensures BuildReviewPrompt(diff, files)
         == (Intro + FilesLabel + "\n" + FileList(files) + "\n\n") + DiffLabel + "\n" + diff + DiffEnd + Items
  {
    HeadingPieces();
    RegroupDiff(Intro, FilesLabel, FileList(files), DiffLabel, diff, DiffEnd, Items);
  }

  lemma HeadingPieces()
    ensures FilesHeading == FilesLabel + "\n" && DiffHeading == "\n\n" + DiffLabel + "\n" && Request == DiffEnd
  {
  }

  lemma RegroupDiff(a: string, b: string, c: string, d: string, e: string, f: string, g: string)
    ensures a + (b + "\n") + c + ("\n\n" + d + "\n") + e + f + g == (a + b + "\n" + c + "\n\n") + d + "\n" + e + f + g
  {
  }

  lemma Regroup(a: string, b: string, c: string, d: string, e: string, f: string, g: string)
    ensures a + (b + "\n") + c + (d + "\n") + e + f + g == a + b + "\n" + c + d + ("\n" + e + f + g)
  {
  }

  /** Which marker characters the fixed text of the prompt holds. */
  lemma IntroFacts()
    ensures FilesLabel[0] !in IntroText && DiffLabel[0] !in IntroText
  {
  }

  lemma BreakFacts()
    ensures Avoids("\n\n", FilesLabel) && Avoids("\n\n", DiffLabel) && Avoids("\n", DiffLabel)
  {
  }

  lemma LabelFacts()
    ensures !Contains(FilesLabel, DiffLabel)
    ensures DiffLabel[0] !in DiffLabel[1..]
    ensures OffLayout(DiffLabel)
  {
    forall i | 0 <= i <= |FilesLabel| ensures !OccursAt(FilesLabel, DiffLabel, i) {
      if i + |DiffLabel| <= |FilesLabel| {
        var u := FilesLabel[i..i + |DiffLabel|];
        assert u[0] == FilesLabel[i];
        if i == 8 {
          assert u[3] == FilesLabel[11];
        }
      }
    }
  }

  lemma RequestFacts()
    ensures DiffLabel[0] !in RequestText + Items
    ensures ':' !in Items
  {
    assert 'D' !in RequestText;
    Item1Facts();
    Item2Facts();
    Item3Facts();
    Item4Facts();
    Item5Facts();
    Item6Facts();
    ChoicesFacts();
  }

  lemma Item1Facts() ensures 'D' !in Item1 && ':' !in Item1 {}
  lemma Item2Facts() ensures 'D' !in Item2 && ':' !in Item2 {}
  lemma Item3Facts() ensures 'D' !in Item3 && ':' !in Item3 {}
  lemma Item4Facts() ensures 'D' !in Item4 && ':' !in Item4 {}
  lemma Item5Facts() ensures 'D' !in Item5 && ':' !in Item5 {}
  lemma Item6Facts() ensures 'D' !in Item6 && ':' !in Item6 {}
  lemma ChoicesFacts() ensures 'D' !in Item6Choices && ':' !in Item6Choices {}

  /** Every `\n\nDIFF:` holds a `DIFF:` two characters on. */
  lemma FilesEndHoldsLabel(s: string, i: int)
    ensures OccursAt(s, FilesEnd, i) ==> OccursAt(s, DiffLabel, i + 2)
  {
    if OccursAt(s, FilesEnd, i) {
      assert FilesEnd == "\n\n" + DiffLabel;
      OccursSuffix(s, "\n\n", DiffLabel, i);
    }
  }

  lemma FilesEndAbsent(s: string)
    requires !Contains(s, DiffLabel)
    ensures !Contains(s, FilesEnd)
  {
    forall i | 0 <= i <= |s| ensures !OccursAt(s, FilesEnd, i) {
      FilesEndHoldsLabel(s, i);
    }
  }

  /** The tail of the prompt after the `DIFF:` header holds no `DIFF:` unless the diff does. */
  lemma TailWithoutLabel(diff: string)
    requires !Contains(diff, DiffLabel)
    ensures !Contains("\n" + diff + DiffEnd + Items, DiffLabel)
  {
    BreakFacts();
    RequestFacts();
    NotContainsAround("", "\n", diff, DiffLabel);
    assert "" + "\n" + diff == "\n" + diff;
    MissingFirstChar(RequestText + Items, DiffLabel);
    NotContainsAround("\n" + diff, "\n\n", RequestText + Items, DiffLabel);
    PromptPieces();
    assert "\n" + diff + DiffEnd + Items == "\n" + diff + "\n\n" + (RequestText + Items);
  }

  /**
   With no files, no `\n\nDIFF:` follows the files header's own one, as long as the
   diff holds no `DIFF:`.
   */
  lemma EmptyListTail(diff: string)
    requires !Contains(diff, DiffLabel)
    ensures var p := Intro + FilesLabel + "\n" + "" + FilesEnd + ("\n" + diff + Request + Items);
      forall j :: |Intro| + |FilesLabel| + 1 < j ==> !OccursAt(p, FilesEnd, j)
  {
    var p := Intro + FilesLabel + "\n" + "" + FilesEnd + ("\n" + diff + Request + Items);
    var a := Intro + FilesLabel + "\n" + "" + "\n\n";
    var t := "\n" + diff + DiffEnd + Items;
    PromptPieces();
    LabelFacts();
    TailWithoutLabel(diff);
    NoneAfter(a, DiffLabel, t);
    assert p == a + DiffLabel + t;
    forall j | |Intro| + |FilesLabel| + 1 < j ensures !OccursAt(p, FilesEnd, j) {
      FilesEndHoldsLabel(p, j);
    }
  }

  /** The prompt's own text before the files section and before the diff holds no marker. */
  lemma HeadWithoutLabels(files: seq<FileRecord>)
    requires forall n :: 0 <= n < |files| ==> !Contains(files[n].filename, DiffLabel)
    ensures !Contains(Intro + FilesLabel + "\n" + FileList(files), DiffLabel)
    ensures !Contains(FileList(files), FilesEnd)
  {
    IntroFacts();
    BreakFacts();
    LabelFacts();
    PromptPieces();
    MissingFirstChar(IntroText, DiffLabel);
    NotContainsAround(IntroText, "\n\n", FilesLabel, DiffLabel);
    FileListAvoids(files, DiffLabel);
    NotContainsAround(Intro + FilesLabel, "\n", FileList(files), DiffLabel);
    FilesEndAbsent(FileList(files));
  }

  /** The files section of a rendered prompt reads back whole. */
  lemma FilesRoundTrip(diff: string, files: seq<FileRecord>)
    requires forall n :: 0 <= n < |files| ==> !Contains(files[n].filename, DiffLabel)
    requires files == [] ==> !Contains(diff, DiffLabel)
    ensures ExtractFiles(BuildReviewPrompt(diff, files)) == FileList(files)
  {
    var fl := FileList(files);
    var y := "\n" + diff + Request + Items;
    var rest := FilesLabel + "\n" + fl + FilesEnd + y;
    IntroFacts();
    BreakFacts();
    PromptPieces();
    HeadWithoutLabels(files);
    FileListEnds(files);
    FilesLayout(diff, files);
    MissingFirstChar(IntroText, FilesLabel);
    NoneBefore(IntroText, "\n\n", rest, FilesLabel);
    SplitFirst(Intro, IntroText, "\n\n", FilesLabel, "\n", fl, FilesEnd, y);
    if files == [] {
      EmptyListTail(diff);
    }
    FilesFromLayout(Intro, fl, y);
    TrimKeeps(fl);
  }

  /** The diff of a rendered prompt reads back trimmed. */
  lemma DiffRoundTrip(diff: string, files: seq<FileRecord>)
    requires forall n :: 0 <= n < |files| ==> !Contains(files[n].filename, DiffLabel)
    requires !Contains(diff, DiffEnd) && HasNonSpace(diff)
    ensures ExtractDiff(BuildReviewPrompt(diff, files)) == Trim(diff)
  {
    var head := Intro + FilesLabel + "\n" + FileList(files);
    var rest := DiffLabel + "\n" + diff + DiffEnd + Items;
    BreakFacts();
    HeadWithoutLabels(files);
    DiffLayout(diff, files);
    NoneBefore(head, "\n\n", rest, DiffLabel);
    GroupLast(head, "\n\n", DiffLabel, "\n", diff, DiffEnd, Items);
    DiffFromLayout(head + "\n\n", diff, Items);
  }

  /**
   The prompt round trip: a provider given `buildReviewPrompt(diff, files)` recovers
   the trimmed diff and the file list, provided no file name contains `DIFF:`, the diff
   holds no `\n\nPlease provide:` and some non-space character, and, when there are no
   files, the diff holds no `DIFF:`.
   */
  lemma BuildThenExtract(diff: string, files: seq<FileRecord>)
    requires forall n :: 0 <= n < |files| ==> !Contains(files[n].filename, DiffLabel)
    requires !Contains(diff, DiffEnd) && HasNonSpace(diff)
    requires files == [] ==> !Contains(diff, DiffLabel)
    ensures ExtractDiff(BuildReviewPrompt(diff, files)) == Trim(diff)
    ensures ExtractFiles(BuildReviewPrompt(diff, files)) == FileList(files)
  {
    DiffRoundTrip(diff, files);
    FilesRoundTrip(diff, files);
  }

  lemma SplitFirst(a: string, a1: string, a2: string, b: string, c: string, d: string, e: string, f: string)
    requires a == a1 + a2
    ensures a + b + c + d + e + f == a1 + a2 + (b + c + d + e + f)
  {
  }

  lemma GroupLast(a: string, b: string, c: string, d: string, e: string, f: string, g: string)
    ensures a + b + c + d + e + f + g == a + b + (c + d + e + f + g)
  {
  }

  // ---------------------------------------------------------------------------
  // A diff without content
  // ---------------------------------------------------------------------------

  /** The instruction text holds no `\n\nPlease provide:`: its only colon ends `Please provide:`. */
  lemma InstructionsWithoutEnd()
    ensures !Contains(RequestText + Items, DiffEnd)
  {
    RequestFacts();
    assert DiffEnd[16] == ':' && |RequestText| <= 16;
    MissingLateChar(RequestText, Items, DiffEnd, 16);
  }

  /** The label, its line feed and what follows, located. */
  lemma LabelPieces(x: string, body: string)
    ensures var p := x + DiffLabel + "\n" + body;
      var b := |x| + |DiffLabel|;
      && OccursAt(p, DiffLabel, |x|) && p[b] == '\n' && p[b + 1..] == body
  {
    var p := x + DiffLabel + "\n" + body;
    assert p[|x|..|x| + |DiffLabel|] == DiffLabel;
  }

  /**
   After `DIFF:`, a line feed and a blank line, a text that starts with a non-space
   character and holds no `\n\nPlease provide:` is read to the end of the input.
   */
  lemma DiffOverBlankLine(x: string, tail: string)
    requires var p := x + DiffLabel + "\n" + ("\n\n" + tail);
      forall j :: 0 <= j < |x| ==> !OccursAt(p, DiffLabel, j)
    requires |tail| > 0 && !IsSpace(tail[0]) && !Contains(tail, DiffEnd)
    ensures ExtractDiff(x + DiffLabel + "\n" + ("\n\n" + tail)) == Trim(tail)
  {
    var body := "\n\n" + tail;
    var p := x + DiffLabel + "\n" + body;
    var l := |x|;
    var d0 := l + |DiffLabel| + 1;
    LabelPieces(x, body);
    assert body[2] == tail[0];
    assert HasNonSpace(body);
    BodyChar(p, d0, body, 0);
    BodyChar(p, d0, body, 1);
    var c := DiffGroupStart(p, l, body);
    assert DiffMatch(p, l, d0 + 2, |p|);
    assert c == d0 + 2;
    assert p == (x + DiffLabel + "\n" + "\n\n") + tail;
    forall e' | c <= e' ensures !OccursAt(p, DiffEnd, e') {
      OccursInRight(x + DiffLabel + "\n" + "\n\n", tail, DiffEnd, e');
    }
    assert PreferredDiff(p, l, c, |p|);
    assert p[c..|p|] == tail;
  }

  /**
   An empty diff is not read back as empty: the greedy `\s*\n` after `DIFF:` runs
   over the blank line, the group starts at `Please provide:`, finds no terminator
   after it, and the provider is handed the instruction list instead.
   */
  lemma EmptyDiffReadsInstructions(files: seq<FileRecord>)
    requires forall n :: 0 <= n < |files| ==> !Contains(files[n].filename, DiffLabel)
    ensures ExtractDiff(BuildReviewPrompt("", files)) == RequestText + Items
  {
    var head := Intro + FilesLabel + "\n" + FileList(files);
    var tail := RequestText + Items;
    var rest := DiffLabel + "\n" + ("\n\n" + tail);
    DiffLayout("", files);
    PromptPieces();
    EmptyDiffLayout(head + "\n\n", DiffLabel, RequestText, Items);
    BreakFacts();
    HeadWithoutLabels(files);
    NoneBefore(head, "\n\n", rest, DiffLabel);
    GroupTail(head, "\n\n", DiffLabel, "\n", "\n\n" + tail);
    InstructionsWithoutEnd();
    assert tail[0] == 'P';
    DiffOverBlankLine(head + "\n\n", tail);
    InstructionsTrimmed();
  }

  lemma EmptyDiffLayout(x: string, mark: string, r: string, t: string)
    ensures x + mark + "\n" + "" + ("\n\n" + r) + t == x + mark + "\n" + ("\n\n" + (r + t))
  {
  }

  lemma GroupTail(a: string, b: string, c: string, d: string, e: string)
    ensures a + b + c + d + e == a + b + (c + d + e)
  {
  }

  lemma InstructionsTrimmed()
    ensures Trim(RequestText + Items) == RequestText + Items
  {
    var s := RequestText + Items;
    assert s[|s| - 1] == Item6Choices[|Item6Choices| - 1] == ')';
    TrimKeeps(s);
  }

  // ---------------------------------------------------------------------------
  // A provider handed a rendered prompt
  // ---------------------------------------------------------------------------

  /**
   Under the round-trip conditions a provider's model is asked about exactly the
   trimmed diff and the file list the prompt was built from.
   */
  lemma ProviderReadsPrompt(k: ProviderKind, generate: (string, string) -> Generation, diff: string, files: seq<FileRecord>)
    requires forall n :: 0 <= n < |files| ==> !Contains(files[n].filename, DiffLabel)
    requires !Contains(diff, DiffEnd) && HasNonSpace(diff)
    requires files == [] ==> !Contains(diff, DiffLabel)
    ensures var g := generate(Trim(diff), FileList(files));
      var reply := ReviewCode(k, generate, BuildReviewPrompt(diff, files));
      && (g.Generated? ==> reply == Returned(FormatResponse(g.fields)))
      && (g.GenerationFailed? ==> reply == Threw(ProviderError(k, g.message)))
  {
    BuildThenExtract(diff, files);
  }
}
