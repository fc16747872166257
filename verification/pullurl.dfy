/**
 The pull-request URL recogniser of `review-url` and `review-batch`: the unanchored
 JavaScript regular expression

   /github\.com\/([^\/]+)\/([^\/]+)\/pull\/(\d+)/

 From a given start the match is forced: each `[^\/]+` must stop at the next slash,
 and the greedy `\d+` takes the whole digit run. JavaScript reports the match at the
 leftmost start that works.
 */
module PullUrl {
  import opened Results
  import opened Strings

  const Host := "github.com/"
  const PullPart := "/pull/"

  /** The three groups: owner, repository and the pull-request number as written. */
  datatype PrRef = PrRef(owner: string, repo: string, number: string)

  /** Where the groups of a match at `i` end: owner before `o`, repo before `r`, digits before `n`. */
  datatype UrlSpan = UrlSpan(start: nat, ownerEnd: nat, repoEnd: nat, numberEnd: nat)

  predicate SlashFree(s: string) {
    forall k :: 0 <= k < |s| ==> s[k] != '/'
  }

  /**
   The pattern can match at `i` with the groups `s[i + 11..o]`, `s[o + 1..r]` and
   `s[r + 6..n]`, without yet saying that the digit run is the longest.
   */
  ghost predicate Recognised(s: string, i: int, o: int, r: int, n: int) {
    && 0 <= i && i + |Host| < o && o + 1 < r && r + |PullPart| < n <= |s|
    && OccursAt(s, Host, i)
    && SlashFree(s[i + |Host|..o]) && s[o] == '/'
    && SlashFree(s[o + 1..r])
    && OccursAt(s, PullPart, r)
    && AllDigits(s[r + |PullPart|..n])
  }

  /** The match JavaScript builds at `i`: the greedy `\d+` keeps every digit. */
  ghost predicate UrlMatch(s: string, i: int, o: int, r: int, n: int) {
    Recognised(s, i, o, r, n) && (n == |s| || !IsDigit(s[n]))
  }

  /** The match JavaScript reports: the one at the leftmost start. */
  ghost predicate PreferredUrl(s: string, i: int, o: int, r: int, n: int) {
    UrlMatch(s, i, o, r, n) && forall j, o', r', n' :: 0 <= j < i ==> !UrlMatch(s, j, o', r', n')
  }

  function Groups(s: string, m: UrlSpan): PrRef
    requires m.start + |Host| <= m.ownerEnd < m.repoEnd <= m.numberEnd <= |s| && m.repoEnd + |PullPart| <= m.numberEnd
  {
    PrRef(s[m.start + |Host|..m.ownerEnd], s[m.ownerEnd + 1..m.repoEnd], s[m.repoEnd + |PullPart|..m.numberEnd])
  }

  // ---------------------------------------------------------------------------
  // Scanners
  // ---------------------------------------------------------------------------

  /** The first slash at or after `from`, or the end of the text. */
  function NextSlash(s: string, from: nat): (r: nat)
    requires from <= |s|
    decreases |s| - from
    ensures from <= r <= |s| && SlashFree(s[from..r])
    ensures r == |s| || s[r] == '/'
  {
    if from == |s| || s[from] == '/' then from
    else
      var r := NextSlash(s, from + 1);
      assert s[from..r] == [s[from]] + s[from + 1..r];
      r
  }

  /** The end of the digit run that starts at `from`. */
  function DigitRunEnd(s: string, from: nat): (r: nat)
    requires from <= |s|
    decreases |s| - from
    ensures from <= r <= |s| && AllDigits(s[from..r])
    ensures r == |s| || !IsDigit(s[r])
  {
    if from == |s| || !IsDigit(s[from]) then from
    else
      var r := DigitRunEnd(s, from + 1);
      assert s[from..r] == [s[from]] + s[from + 1..r];
      r
  }

  /** A slash-free stretch after `from` ends no later than the next slash. */
  lemma SlashFreeBound(s: string, from: nat, e: nat)
    requires from <= e < |s| && SlashFree(s[from..e]) && s[e] == '/'
    ensures NextSlash(s, from) == e
  {
  }

  /** A digit run that stops at a non-digit is the whole run. */
  lemma DigitRunBound(s: string, from: nat, e: nat)
    requires from <= e <= |s| && AllDigits(s[from..e]) && (e == |s| || !IsDigit(s[e]))
    ensures DigitRunEnd(s, from) == e
  {
  }

  /** A recognised match at `i` is the one the scanners find: each group stops where they stop. */
  lemma RecognisedForced(s: string, i: nat, o: int, r: int, n: int)
    requires Recognised(s, i, o, r, n)
    ensures NextSlash(s, i + |Host|) == o && NextSlash(s, o + 1) == r
    ensures IsDigit(s[r + |PullPart|])
  {
    SlashFreeBound(s, i + |Host|, o);
    StartChar(s, PullPart, r);
    SlashFreeBound(s, o + 1, r);
    assert s[r + |PullPart|..n][0] == s[r + |PullPart|];
  }

  /** The pattern tried at `i` alone. */
  function UrlAt(s: string, i: nat): (m: Option<UrlSpan>)
    ensures m.Some? ==> m.value.start == i && UrlMatch(s, i, m.value.ownerEnd, m.value.repoEnd, m.value.numberEnd)
    ensures m.None? ==> forall o, r, n :: !Recognised(s, i, o, r, n)
  {
    if !OccursAt(s, Host, i) then None
    else
      var a := i + |Host|;
      var o := NextSlash(s, a);
      var r := if o == a || o == |s| then o else NextSlash(s, o + 1);
      var d := r + |PullPart|;
      if o == a || o == |s| || r == o + 1 || !OccursAt(s, PullPart, r) || d == |s| || !IsDigit(s[d]) then
        assert forall o', r', n' :: !Recognised(s, i, o', r', n') by {
          forall o', r', n' | Recognised(s, i, o', r', n') ensures false {
            RecognisedForced(s, i, o', r', n');
          }
        }
        None
      else
        var n := DigitRunEnd(s, d);
        Some(UrlSpan(i, o, r, n))
  }

  /** The pattern tried at `i`, `i + 1`, ... in turn. */
  function UrlFrom(s: string, i: nat): (m: Option<UrlSpan>)
    decreases |s| + 1 - i
    ensures m.Some? ==> i <= m.value.start && UrlMatch(s, m.value.start, m.value.ownerEnd, m.value.repoEnd, m.value.numberEnd)
    ensures forall j, o, r, n :: i <= j && (m.None? || j < m.value.start) ==> !Recognised(s, j, o, r, n)
  {
    if i > |s| then None
    else
      var m := UrlAt(s, i);
      if m.Some? then m else UrlFrom(s, i + 1)
  }

  /** At one start there is at most one match. */
  lemma UrlMatchUnique(s: string, i: nat, o: int, r: int, n: int, o': int, r': int, n': int)
    requires UrlMatch(s, i, o, r, n) && UrlMatch(s, i, o', r', n')
    ensures o == o' && r == r' && n == n'
  {
    RecognisedForced(s, i, o, r, n);
    RecognisedForced(s, i, o', r', n');
    DigitRunBound(s, r + |PullPart|, n);
    DigitRunBound(s, r' + |PullPart|, n');
  }

  /**
   `url.match(...)`: the owner, repository and number groups of the leftmost match,
   or nothing when the URL is not a pull-request URL.
   */
  function ParsePullUrl(url: string): (ref: Option<PrRef>)
    ensures ref.None? <==> forall i, o, r, n :: !Recognised(url, i, o, r, n)
    ensures ref.Some? ==> WellFormed(ref.value)
    ensures forall i, o, r, n :: PreferredUrl(url, i, o, r, n) ==>
      ref == Some(PrRef(url[i + |Host|..o], url[o + 1..r], url[r + |PullPart|..n]))
  {
    var m := UrlFrom(url, 0);
    ScanAnswers(url, m);
    if m.None? then None
    else Some(Groups(url, m.value))
  }

  /** What the scan from the first position tells: whether anything is recognised, and which match JavaScript reports. */
  lemma ScanAnswers(url: string, m: Option<UrlSpan>)
    requires m == UrlFrom(url, 0)
    ensures m.None? <==> forall i, o, r, n :: !Recognised(url, i, o, r, n)
    ensures m.Some? ==> && m.value.start + |Host| <= m.value.ownerEnd < m.value.repoEnd <= m.value.numberEnd <= |url|
                        && m.value.repoEnd + |PullPart| <= m.value.numberEnd
                        && WellFormed(Groups(url, m.value))
    ensures m.Some? ==> forall i, o, r, n :: PreferredUrl(url, i, o, r, n) ==>
      i == m.value.start && o == m.value.ownerEnd && r == m.value.repoEnd && n == m.value.numberEnd
  {
    if m.Some? {
      var w := m.value;
      assert Recognised(url, w.start, w.ownerEnd, w.repoEnd, w.numberEnd);
      ScanIsPreferred(url, w);
      MatchWellFormed(url, w);
    }
  }

  /** The groups of a match are non-empty, slash-free names and a digit string. */
  lemma MatchWellFormed(s: string, m: UrlSpan)
    requires UrlMatch(s, m.start, m.ownerEnd, m.repoEnd, m.numberEnd)
    ensures m.start + |Host| <= m.ownerEnd < m.repoEnd <= m.numberEnd <= |s| && m.repoEnd + |PullPart| <= m.numberEnd
    ensures WellFormed(Groups(s, m))
  {
  }

  /** The span the scan finds is the only one JavaScript can report. */
  lemma ScanIsPreferred(url: string, w: UrlSpan)
    requires UrlFrom(url, 0) == Some(w)
    ensures forall i, o, r, n :: PreferredUrl(url, i, o, r, n) ==>
      i == w.start && o == w.ownerEnd && r == w.repoEnd && n == w.numberEnd
  {
    forall i, o, r, n | PreferredUrl(url, i, o, r, n)
      ensures i == w.start && o == w.ownerEnd && r == w.repoEnd && n == w.numberEnd
    {
      assert !(i < w.start && Recognised(url, i, o, r, n));
      assert !(w.start < i && UrlMatch(url, w.start, w.ownerEnd, w.repoEnd, w.numberEnd));
      UrlMatchUnique(url, i, o, r, n, w.ownerEnd, w.repoEnd, w.numberEnd);
    }
  }

  // ---------------------------------------------------------------------------
  // The URL of a pull request
  // ---------------------------------------------------------------------------

  const Scheme := "https://"

  /** A reference the pattern can produce: non-empty slash-free names and a non-empty digit string. */
  predicate WellFormed(ref: PrRef) {
    |ref.owner| > 0 && SlashFree(ref.owner) && |ref.repo| > 0 && SlashFree(ref.repo)
    && |ref.number| > 0 && AllDigits(ref.number)
  }

  /** `https://github.com/{owner}/{repo}/pull/{number}` followed by `rest`. */
  function PullRequestUrl(ref: PrRef, rest: string): string {
    Scheme + Host + ref.owner + "/" + ref.repo + PullPart + ref.number + rest
  }

  lemma UrlPieces(ref: PrRef, rest: string)
    ensures var u := PullRequestUrl(ref, rest);
      var a := |Scheme| + |Host|;
      var o := a + |ref.owner|;
      var r := o + 1 + |ref.repo|;
      var n := r + |PullPart| + |ref.number|;
      && OccursAt(u, Host, |Scheme|) && u[a..o] == ref.owner && u[o] == '/'
      && u[o + 1..r] == ref.repo && OccursAt(u, PullPart, r)
      && u[r + |PullPart|..n] == ref.number && u[n..] == rest
  {
    var u := PullRequestUrl(ref, rest);
    var a := |Scheme| + |Host|;
    var o := a + |ref.owner|;
    var r := o + 1 + |ref.repo|;
    var n := r + |PullPart| + |ref.number|;
    assert u == Scheme + Host + ref.owner + "/" + ref.repo + PullPart + ref.number + rest;
    assert u[|Scheme|..a] == Host;
    assert u[a..o] == ref.owner;
    assert u[o + 1..r] == ref.repo;
    assert u[r..r + |PullPart|] == PullPart;
    assert u[r + |PullPart|..n] == ref.number;
  }

  /**
   A pull-request URL reads back to its owner, repository and number, whatever text
   follows the number as long as it does not start with a digit.
   */
  lemma ParseRendered(ref: PrRef, rest: string)
    requires WellFormed(ref) && (rest == [] || !IsDigit(rest[0]))
    ensures ParsePullUrl(PullRequestUrl(ref, rest)) == Some(ref)
  {
    var u := PullRequestUrl(ref, rest);
    var i := |Scheme|;
    var o := i + |Host| + |ref.owner|;
    var r := o + 1 + |ref.repo|;
    var n := r + |PullPart| + |ref.number|;
    RenderedPreferred(ref, rest);
    UrlPieces(ref, rest);
  }

  /** The rendered URL is matched at the host, with the groups ending where the pieces end. */
  lemma RenderedPreferred(ref: PrRef, rest: string)
    requires WellFormed(ref) && (rest == [] || !IsDigit(rest[0]))
    ensures var o := |Scheme| + |Host| + |ref.owner|;
      var r := o + 1 + |ref.repo|;
      PreferredUrl(PullRequestUrl(ref, rest), |Scheme|, o, r, r + |PullPart| + |ref.number|)
  {
    var u := PullRequestUrl(ref, rest);
    var i := |Scheme|;
    var o := i + |Host| + |ref.owner|;
    var r := o + 1 + |ref.repo|;
    var n := r + |PullPart| + |ref.number|;
    UrlPieces(ref, rest);
    if n < |u| {
      assert u[n] == u[n..][0];
    }
    assert UrlMatch(u, i, o, r, n);
    HostNotInScheme(ref, rest);
  }

  /** The scheme holds no `g`, so no `github.com/` starts inside it. */
  lemma HostNotInScheme(ref: PrRef, rest: string)
    ensures forall j, o, r, n :: 0 <= j < |Scheme| ==> !UrlMatch(PullRequestUrl(ref, rest), j, o, r, n)
  {
    var u := PullRequestUrl(ref, rest);
    forall j | 0 <= j < |Scheme| && j + |Host| <= |u| ensures !OccursAt(u, Host, j) {
      assert u[j..j + |Host|][0] == u[j] == Scheme[j];
    }
  }

  /** `parseInt` of the number group: the decimal value of its digits. */
  function PrNumber(ref: PrRef): nat
    requires AllDigits(ref.number)
  {
    DecimalValue(ref.number)
  }

  /** The URL of pull request `k` carries the number `k`. */
  lemma NumberRoundTrip(owner: string, repo: string, k: nat, rest: string)
    requires |owner| > 0 && SlashFree(owner) && |repo| > 0 && SlashFree(repo)
    requires rest == [] || !IsDigit(rest[0])
    ensures var ref := ParsePullUrl(PullRequestUrl(PrRef(owner, repo, NatToString(k)), rest));
      ref.Some? && AllDigits(ref.value.number) && PrNumber(ref.value) == k
  {
    ParseRendered(PrRef(owner, repo, NatToString(k)), rest);
    DecimalRoundTrip(k);
  }
}
