/**
 The text `formatResponse` renders from the four structured fields a provider's
 model returns, and the reading that recovers those fields from it.

 The rendering is a sequence of sections, each a heading followed by its field.
 The reading takes the first heading at the very start and every later heading at
 its first occurrence after the previous one.
 */
module ReviewFormat {
  import opened Results
  import opened Strings

  /** The values the output schema allows for `assessment`. */
  datatype Assessment = Approve | RequestChanges | Comment

  function AssessmentName(a: Assessment): string {
    match a
    case Approve => "APPROVE"
    case RequestChanges => "REQUEST_CHANGES"
    case Comment => "COMMENT"
  }

  function ParseAssessment(s: string): (r: Option<Assessment>)
    ensures r.Some? ==> AssessmentName(r.value) == s
    ensures (exists a :: AssessmentName(a) == s) ==> r.Some?
  {
    if s == "APPROVE" then Some(Approve)
    else if s == "REQUEST_CHANGES" then Some(RequestChanges)
    else if s == "COMMENT" then Some(Comment)
    else None
  }

  /** The four output fields of the code-review signature. */
  datatype ReviewFields = ReviewFields(summary: string, issues: string, security: string, assessment: Assessment)

  // ---------------------------------------------------------------------------
  // Sections
  // ---------------------------------------------------------------------------

  /** Each heading followed by its field, in order. */
  function Sections(heads: seq<string>, fields: seq<string>): string
    requires |heads| == |fields|
    decreases |heads|
  {
    if heads == [] then "" else heads[0] + fields[0] + Sections(heads[1..], fields[1..])
  }

  /**
   Reads `t` as sections under `heads`: the first heading must open the text, each
   field runs up to the first occurrence of the next heading, and the last field
   runs to the end.
   */
  function ReadSections(t: string, heads: seq<string>): Option<seq<string>>
    requires |heads| > 0
    decreases |heads|
  {
    if !OccursAt(t, heads[0], 0) then None
    else if |heads| == 1 then Some([t[|heads[0]|..]])
    else
      var i := FindFrom(t, heads[1], |heads[0]|);
      if i.None? then None
      else
        var rest := ReadSections(t[i.value..], heads[1..]);
        if rest.None? then None
        else Some([t[|heads[0]|..i.value]] + rest.value)
  }

  /** A reading keeps one field per heading, and the fields rendered again give back the text. */
  lemma {:induction false} ReadSectionsSound(t: string, heads: seq<string>)
    requires |heads| > 0
    ensures var r := ReadSections(t, heads);
      r.Some? ==> |r.value| == |heads| && Sections(heads, r.value) == t
    decreases |heads|
  {
    var r := ReadSections(t, heads);
    if r.Some? {
      var a := |heads[0]|;
      assert t[..a] == heads[0];
      if |heads| == 1 {
        assert t == heads[0] + t[a..] + "";
      } else {
        var i := FindFrom(t, heads[1], a).value;
        var rest := ReadSections(t[i..], heads[1..]);
        ReadSectionsSound(t[i..], heads[1..]);
        var fs := r.value;
        assert fs == [t[a..i]] + rest.value;
        SectionsCons(t, heads, fs, a, i);
      }
    }
  }

  /** Sections rejoin when the first field runs from the end of the first heading to where the rest begins. */
  lemma SectionsCons(t: string, heads: seq<string>, fs: seq<string>, a: nat, i: nat)
    requires |heads| == |fs| > 1 && a == |heads[0]| && a <= i <= |t|
    requires t[..a] == heads[0] && fs[0] == t[a..i] && Sections(heads[1..], fs[1..]) == t[i..]
    ensures Sections(heads, fs) == t
  {
    assert t == t[..a] + t[a..i] + t[i..];
  }

  /** The later headings cannot overlap themselves, and no field holds the heading after it. */
  predicate Separable(heads: seq<string>, fields: seq<string>)
    requires |heads| == |fields|
  {
    forall n :: 0 < n < |heads| ==> NoBorder(heads[n]) && !Contains(fields[n - 1], heads[n])
  }

  lemma SeparableTail(heads: seq<string>, fields: seq<string>)
    requires |heads| == |fields| > 0 && Separable(heads, fields)
    ensures Separable(heads[1..], fields[1..])
  {
    forall n | 0 < n < |heads[1..]| ensures NoBorder(heads[1..][n]) && !Contains(fields[1..][n - 1], heads[1..][n]) {
      assert heads[1..][n] == heads[n + 1] && fields[1..][n - 1] == fields[n];
    }
  }

  /** `ReadSections` when the next heading is first found at `i`. */
  lemma ReadSectionsStep(t: string, heads: seq<string>, i: nat, rest: seq<string>)
    requires |heads| > 1 && OccursAt(t, heads[0], 0)
    requires FindFrom(t, heads[1], |heads[0]|) == Some(i)
    requires ReadSections(t[i..], heads[1..]) == Some(rest)
    ensures ReadSections(t, heads) == Some([t[|heads[0]|..i]] + rest)
  {
  }

  /** The text of the sections splits at the end of the first field. */
  lemma SectionsSplit(heads: seq<string>, fields: seq<string>)
    requires |heads| == |fields| > 1
    ensures var t := Sections(heads, fields);
      var a := |heads[0]|;
      var i := a + |fields[0]|;
      && OccursAt(t, heads[0], 0) && i <= |t| && t[a..i] == fields[0]
      && t[i..] == Sections(heads[1..], fields[1..]) && OccursAt(t, heads[1], i)
  {
    var t := Sections(heads, fields);
    var rest := Sections(heads[1..], fields[1..]);
    assert t == heads[0] + fields[0] + rest;
    assert rest == heads[1] + fields[1] + Sections(heads[2..], fields[2..]);
  }

  /** Rendered sections read back to the same fields when they are separable. */
  lemma {:induction false} SectionsRead(heads: seq<string>, fields: seq<string>)
    requires |heads| == |fields| > 0 && Separable(heads, fields)
    ensures ReadSections(Sections(heads, fields), heads) == Some(fields)
    decreases |heads|
  {
    var t := Sections(heads, fields);
    var a := |heads[0]|;
    if |heads| == 1 {
      assert heads[1..] == [] && Sections(heads[1..], fields[1..]) == "";
      assert t == heads[0] + fields[0] + "";
      assert t[a..] == fields[0];
      assert [fields[0]] == fields;
    } else {
      var i := a + |fields[0]|;
      SectionsSplit(heads, fields);
      SeparableTail(heads, fields);
      SectionsRead(heads[1..], fields[1..]);
      FindNext(t, heads[1], a, i);
      ReadSectionsStep(t, heads, i, fields[1..]);
      assert fields == [fields[0]] + fields[1..];
    }
  }

  // ---------------------------------------------------------------------------
  // formatResponse
  // ---------------------------------------------------------------------------

  const SummaryTag := "**Summary:** "
  const IssuesName := "**Issues Found:** "
  const SecurityName := "**Security Concerns:** "
  const AssessmentHeading := "**Assessment:** "
  /** The headings after the first, each on its own paragraph. */
  const IssuesTag := "\n\n" + IssuesName
  const SecurityTag := "\n\n" + SecurityName
  const AssessmentTag := "\n\n" + AssessmentHeading
  const ReviewHeadings := [SummaryTag, IssuesTag, SecurityTag, AssessmentTag]

  function FieldTexts(f: ReviewFields): seq<string> {
    [f.summary, f.issues, f.security, AssessmentName(f.assessment)]
  }

  lemma FourSections(h0: string, h1: string, h2: string, h3: string, x0: string, x1: string, x2: string, x3: string)
    ensures Sections([h0, h1, h2, h3], [x0, x1, x2, x3]) == h0 + x0 + h1 + x1 + h2 + x2 + h3 + x3
  {
    var h, x := [h0, h1, h2, h3], [x0, x1, x2, x3];
    assert Sections(h[3..], x[3..]) == h3 + x3 + Sections([], []);
    assert Sections(h[2..], x[2..]) == h2 + x2 + Sections(h[3..], x[3..]);
    assert Sections(h[1..], x[1..]) == h1 + x1 + Sections(h[2..], x[2..]);
  }

  /** `formatResponse`: the four fields under their headings, separated by blank lines. */
  function FormatResponse(f: ReviewFields): (t: string)
    ensures t == SummaryTag + f.summary + IssuesTag + f.issues + SecurityTag + f.security
                 + AssessmentTag + AssessmentName(f.assessment)
  {
    FourSections(SummaryTag, IssuesTag, SecurityTag, AssessmentTag,
                 f.summary, f.issues, f.security, AssessmentName(f.assessment));
    Sections(ReviewHeadings, FieldTexts(f))
  }

  /** Reads a `formatResponse` text back into its fields. */
  function ParseResponse(t: string): Option<ReviewFields> {
    var fs := ReadSections(t, ReviewHeadings);
    if fs.None? || |fs.value| != 4 then None
    else
      var v := ParseAssessment(fs.value[3]);
      if v.None? then None else Some(ReviewFields(fs.value[0], fs.value[1], fs.value[2], v.value))
  }

  /** Whatever `ParseResponse` accepts is exactly the rendering of the fields it returns. */
  lemma ParseFormat(t: string)
    ensures ParseResponse(t).Some? ==> FormatResponse(ParseResponse(t).value) == t
  {
    ReadSectionsSound(t, ReviewHeadings);
    var fs := ReadSections(t, ReviewHeadings);
    if ParseResponse(t).Some? {
      assert FieldTexts(ParseResponse(t).value) == fs.value;
    }
  }

  lemma HeadingsNoBorder()
    ensures NoBorder(IssuesTag) && NoBorder(SecurityTag) && NoBorder(AssessmentTag)
  {
    ParagraphHeading(IssuesName);
    ParagraphHeading(SecurityName);
    ParagraphHeading(AssessmentHeading);
  }

  lemma ReviewSeparable(f: ReviewFields)
    requires !Contains(f.summary, IssuesTag)
    requires !Contains(f.issues, SecurityTag)
    requires !Contains(f.security, AssessmentTag)
    ensures Separable(ReviewHeadings, FieldTexts(f))
  {
    HeadingsNoBorder();
  }

  /**
   A formatted review reads back to the same fields whenever no field holds the
   heading that follows it.
   */
  lemma FormatParse(f: ReviewFields)
    requires !Contains(f.summary, IssuesTag)
    requires !Contains(f.issues, SecurityTag)
    requires !Contains(f.security, AssessmentTag)
    ensures ParseResponse(FormatResponse(f)) == Some(f)
  {
    ReviewSeparable(f);
    SectionsRead(ReviewHeadings, FieldTexts(f));
    ParseAssessmentName(f.assessment);
  }

  lemma ParseAssessmentName(a: Assessment)
    ensures ParseAssessment(AssessmentName(a)) == Some(a)
  {
  }
}
