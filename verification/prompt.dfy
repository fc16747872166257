/**
 The review prompt that `AICodeReviewer.buildReviewPrompt` renders from the pull
 request's changed files and its unified diff.
 */
module Prompt {
  import opened Strings

  /** A changed file as the pull-request files endpoint reports it. */
  datatype FileRecord = FileRecord(filename: string, additions: nat, deletions: nat, status: string)

  /** One line of the files section: `- {filename} (+{additions}, -{deletions})`. */
  function RenderFile(f: FileRecord): string {
    "- " + f.filename + RenderCounts(f)
  }

  function RenderCounts(f: FileRecord): string {
    " (+" + NatToString(f.additions) + ", -" + NatToString(f.deletions) + ")"
  }

  function RenderAll(files: seq<FileRecord>): (lines: seq<string>)
    ensures |lines| == |files|
    ensures forall i :: 0 <= i < |files| ==> lines[i] == RenderFile(files[i])
  {
    seq(|files|, i requires 0 <= i < |files| => RenderFile(files[i]))
  }

  /** The files section: the rendered lines joined by line feeds, in input order. */
  function FileList(files: seq<FileRecord>): string {
    Join(RenderAll(files), "\n")
  }

  const Intro := "Please review the following code changes:\n\n"
  const FilesHeading := "FILES MODIFIED:\n"
  const DiffHeading := "\n\nDIFF:\n"
  const Request := "\n\nPlease provide:"
  const Item1 := "\n1. Summary of changes"
  const Item2 := "\n2. Potential bugs or issues"
  const Item3 := "\n3. Security concerns"
  const Item4 := "\n4. Performance considerations"
  const Item5 := "\n5. Code quality suggestions"
  const Item6 := "\n6. Overall recommendation"
  const Item6Choices := " (APPROVE/REQUEST_CHANGES/COMMENT)"
  const Items := Item1 + Item2 + Item3 + Item4 + Item5 + Item6 + Item6Choices

  /** The prompt every provider receives for one pull request. */
  function BuildReviewPrompt(diff: string, files: seq<FileRecord>): string {
    Intro + FilesHeading + FileList(files) + DiffHeading + diff + Request + Items
  }

  // ---------------------------------------------------------------------------
  // Properties of the files section
  // ---------------------------------------------------------------------------

  /** The characters the line layout adds around a file name. */
  const LayoutChars := " (+,-)\n"

  /** A pattern built from none of the layout characters or digits. */
  predicate OffLayout(pat: string) {
    forall k :: 0 <= k < |pat| ==> pat[k] !in LayoutChars && !IsDigit(pat[k])
  }

  /** The counts part of a line holds only digits and the characters ` (+,-)`. */
  lemma CountsAlphabet(f: FileRecord)
    ensures forall k :: 0 <= k < |RenderCounts(f)| ==>
      RenderCounts(f)[k] in " (+,-)" || IsDigit(RenderCounts(f)[k])
  {
    var a := NatToString(f.additions);
    var d := NatToString(f.deletions);
    var r := RenderCounts(f);
    forall k | 0 <= k < |r|
      ensures r[k] in " (+,-)" || IsDigit(r[k])
    {
      assert r == " (+" + a + ", -" + d + ")";
      if k < 3 {
      } else if k < 3 + |a| {
        assert r[k] == a[k - 3];
      } else if k < 3 + |a| + 3 {
      } else if k < 3 + |a| + 3 + |d| {
        assert r[k] == d[k - 6 - |a|];
      }
    }
  }

  lemma CountsAvoid(f: FileRecord, pat: string)
    requires OffLayout(pat)
    ensures Avoids(RenderCounts(f), pat)
  {
    CountsAlphabet(f);
    var r := RenderCounts(f);
    forall k | 0 <= k < |r|
      ensures r[k] in LayoutChars || IsDigit(r[k])
    {
    }
  }

  /** A pattern that avoids the layout occurs in a rendered line only inside the file name. */
  lemma RenderFileOccurrence(f: FileRecord, pat: string, i: int)
    requires OffLayout(pat) && |pat| > 0 && OccursAt(RenderFile(f), pat, i)
    ensures Contains(f.filename, pat)
  {
    CountsAvoid(f, pat);
    assert Avoids("- ", pat) by {
      assert "- "[0] in LayoutChars && "- "[1] in LayoutChars;
    }
    assert RenderFile(f) == "" + "- " + (f.filename + RenderCounts(f));
    AvoidedMiddle("", "- ", f.filename + RenderCounts(f), pat, i);
    assert f.filename + RenderCounts(f) == f.filename + RenderCounts(f) + "";
    AvoidedMiddle(f.filename, RenderCounts(f), "", pat, i - 2);
  }

  /**
   A pattern free of layout characters and digits can only appear in the files section
   when some file name contains it.
   */
  lemma {:induction false} FileListOccurrence(files: seq<FileRecord>, pat: string, i: int)
    requires OffLayout(pat) && |pat| > 0
    ensures OccursAt(FileList(files), pat, i) ==> exists n :: 0 <= n < |files| && Contains(files[n].filename, pat)
    decreases |files|
  {
    if OccursAt(FileList(files), pat, i) {
      var lines := RenderAll(files);
      if |files| == 1 {
        RenderFileOccurrence(files[0], pat, i);
      } else if |files| > 1 {
        assert RenderAll(files[1..]) == lines[1..];
        assert FileList(files) == lines[0] + "\n" + FileList(files[1..]);
        assert Avoids("\n", pat) by {
          assert "\n"[0] in LayoutChars;
        }
        AvoidedMiddle(lines[0], "\n", FileList(files[1..]), pat, i);
        if i + |pat| <= |lines[0]| {
          RenderFileOccurrence(files[0], pat, i);
        } else {
          FileListOccurrence(files[1..], pat, i - |lines[0]| - 1);
          var n :| 0 <= n < |files[1..]| && Contains(files[1..][n].filename, pat);
          assert files[1..][n] == files[n + 1];
        }
      }
    }
  }

  /** A pattern free of layout characters and digits that no file name contains is absent from the files section. */
  lemma FileListAvoids(files: seq<FileRecord>, pat: string)
    requires OffLayout(pat) && |pat| > 0
    requires forall n :: 0 <= n < |files| ==> !Contains(files[n].filename, pat)
    ensures !Contains(FileList(files), pat)
  {
    forall i | 0 <= i <= |FileList(files)| ensures !OccursAt(FileList(files), pat, i) {
      FileListOccurrence(files, pat, i);
    }
  }

  /** The files section is empty exactly for an empty list, and otherwise runs from `-` to `)`. */
  lemma {:induction false} FileListEnds(files: seq<FileRecord>)
    ensures files == [] <==> FileList(files) == ""
    ensures files != [] ==> FileList(files)[0] == '-' && FileList(files)[|FileList(files)| - 1] == ')'
    decreases |files|
  {
    var lines := RenderAll(files);
    if |files| > 1 {
      assert RenderAll(files[1..]) == lines[1..];
      FileListEnds(files[1..]);
      assert FileList(files) == lines[0] + "\n" + FileList(files[1..]);
    }
  }

  /**
   Read back line by line, a non-empty files section yields one rendered line per file,
   in input order, as long as no file name holds a line feed.
   */
  lemma FileListLines(files: seq<FileRecord>)
    requires |files| > 0
    requires forall n :: 0 <= n < |files| ==> '\n' !in files[n].filename
    ensures Split(FileList(files), '\n') == RenderAll(files)
  {
    var lines := RenderAll(files);
    forall n | 0 <= n < |lines|
      ensures '\n' !in lines[n]
    {
      CountsAlphabet(files[n]);
      var r := lines[n];
      assert r == "- " + files[n].filename + RenderCounts(files[n]);
      forall k | 0 <= k < |r|
        ensures r[k] != '\n'
      {
        if k >= 2 + |files[n].filename| {
          assert r[k] == RenderCounts(files[n])[k - 2 - |files[n].filename|];
        } else if k >= 2 {
          assert r[k] == files[n].filename[k - 2];
        }
      }
    }
    SplitJoin(lines, '\n');
  }
}
