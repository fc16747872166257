/**
 The command-line layer around `AICodeReviewer`: the `--providers` option, the
 top-level `reviewPR` that turns any error into `Deno.exit(1)`, the `review-url`
 command and the `review-batch` loop. The two GitHub requests are parameters.
 */
module Cli {
  import opened Results
  import opened Strings
  import opened Prompt
  import opened PullUrl
  import opened Reviewer

  // ---------------------------------------------------------------------------
  // --providers
  // ---------------------------------------------------------------------------

  /**
   `options.providers ? options.providers.split(",") : []`: an absent or empty option
   selects nothing, anything else is cut at every comma with no trimming.
   */
  function SplitProviders(option: Option<string>): (selected: seq<string>)
    ensures option.None? || option.value == "" ==> selected == []
    ensures option.Some? && option.value != "" ==>
      && |selected| > 0
      && Join(selected, ",") == option.value
      && forall i :: 0 <= i < |selected| ==> ',' !in selected[i]
  {
    if option.None? || option.value == "" then [] else Split(option.value, ',')
  }

  /** A comma-joined list of comma-free names splits back into the same names. */
  lemma SplitJoinedProviders(names: seq<string>)
    requires |names| > 0 && forall i :: 0 <= i < |names| ==> ',' !in names[i]
    requires Join(names, ",") != ""
    ensures SplitProviders(Some(Join(names, ","))) == names
  {
    var parts := Split(Join(names, ","), ',');
    JoinInjective(parts, names, ',');
  }

  // ---------------------------------------------------------------------------
  // reviewPR
  // ---------------------------------------------------------------------------

  /** The two GitHub requests: the changed files and the diff of a pull request; either can fail. */
  datatype GitHub = GitHub(
    files: (string, string, nat) -> Result<seq<FileRecord>>,
    diff: (string, string, nat) -> Result<string>)

  /** How a command ends: the events it printed, or `Deno.exit(1)` after printing a message. */
  datatype Outcome = Completed(events: seq<Event>) | Exited(message: string)

  /**
   The top-level `reviewPR`: fetch the files, then the diff, then review; an error
   from either request is printed and ends the process.
   */
  function ReviewPullRequest(reg: Registry, gh: GitHub, owner: string, repo: string, number: nat,
                             providers: Option<string>): (o: Outcome)
    ensures gh.files(owner, repo, number).Err? ==> o == Exited(gh.files(owner, repo, number).message)
    ensures gh.files(owner, repo, number).Ok? && gh.diff(owner, repo, number).Err? ==>
      o == Exited(gh.diff(owner, repo, number).message)
    ensures o.Completed? <==> gh.files(owner, repo, number).Ok? && gh.diff(owner, repo, number).Ok?
    ensures o.Completed? ==>
      o.events == ReviewPR(reg, SplitProviders(providers), gh.diff(owner, repo, number).value,
                           gh.files(owner, repo, number).value)
  {
    var files := gh.files(owner, repo, number);
    if files.Err? then Exited(files.message)
    else
      var diff := gh.diff(owner, repo, number);
      if diff.Err? then Exited(diff.message)
      else Completed(ReviewPR(reg, SplitProviders(providers), diff.value, files.value))
  }

  /**
   For a valid registry and a selection naming no inherited property, the provider loop
   as written gives the same events, so the command completes as the source's loop does.
   */
  lemma ReviewPullRequestAsWritten(reg: Registry, gh: GitHub, owner: string, repo: string, number: nat,
                                   providers: Option<string>)
    requires Valid(reg)
    requires forall k :: 0 <= k < |SplitProviders(providers)| ==> SplitProviders(providers)[k] !in InheritedNames
    ensures var o := ReviewPullRequest(reg, gh, owner, repo, number, providers);
      o.Completed? ==>
        o.events == ReviewPRAsWritten(reg, SplitProviders(providers), gh.diff(owner, repo, number).value,
                                      gh.files(owner, repo, number).value)
  {
    if gh.files(owner, repo, number).Ok? && gh.diff(owner, repo, number).Ok? {
      AsWrittenAgrees(reg, SplitProviders(providers), gh.diff(owner, repo, number).value,
                      gh.files(owner, repo, number).value);
    }
  }

  /** `reviewPR` on the groups of a matched URL, the number read by `parseInt`. */
  function ReviewRef(reg: Registry, gh: GitHub, ref: PrRef, providers: Option<string>): Outcome
    requires AllDigits(ref.number)
  {
    ReviewPullRequest(reg, gh, ref.owner, ref.repo, PrNumber(ref), providers)
  }

  // ---------------------------------------------------------------------------
  // review-url
  // ---------------------------------------------------------------------------

  const InvalidUrl := "Invalid GitHub PR URL"

  /** `review-url`: a URL with no pull-request reference ends the process; otherwise its reference is reviewed. */
  function ReviewUrl(reg: Registry, gh: GitHub, url: string, providers: Option<string>): Outcome {
    var ref := ParsePullUrl(url);
    if ref.None? then Exited(InvalidUrl) else ReviewRef(reg, gh, ref.value, providers)
  }

  /**
   A URL the pattern does not recognise ends the process with the invalid-URL message;
   otherwise the groups of the leftmost match are reviewed.
   */
  lemma ReviewUrlGroups(reg: Registry, gh: GitHub, url: string, providers: Option<string>)
    ensures (forall i, o, r, n :: !Recognised(url, i, o, r, n)) ==> ReviewUrl(reg, gh, url, providers) == Exited(InvalidUrl)
    ensures forall i, o, r, n :: PreferredUrl(url, i, o, r, n) ==>
      var ref := PrRef(url[i + |Host|..o], url[o + 1..r], url[r + |PullPart|..n]);
      AllDigits(ref.number) && ReviewUrl(reg, gh, url, providers) == ReviewRef(reg, gh, ref, providers)
  {
  }

  /** The URL of a pull request reviews that pull request, with the number its digits spell. */
  lemma ReviewUrlOfPullRequest(reg: Registry, gh: GitHub, ref: PrRef, rest: string, providers: Option<string>)
    requires WellFormed(ref) && (rest == [] || !IsDigit(rest[0]))
    ensures ReviewUrl(reg, gh, PullRequestUrl(ref, rest), providers)
         == ReviewPullRequest(reg, gh, ref.owner, ref.repo, DecimalValue(ref.number), providers)
  {
    ParseRendered(ref, rest);
  }

  // ---------------------------------------------------------------------------
  // review-batch
  // ---------------------------------------------------------------------------

  datatype Status = Success | Failure(error: string)

  /** One element of `results`: `{ url, status: "success" }` or `{ url, status: "failed", error }`. */
  datatype BatchEntry = BatchEntry(url: string, status: Status)

  /**
   How a batch ends: every URL was visited, with the entries and whether they were
   printed as JSON; or the process exited part-way, the entries never printed.
   */
  datatype BatchOutcome = Finished(results: seq<BatchEntry>, printed: bool) | Aborted(results: seq<BatchEntry>, message: string)

  /**
   The entry for one URL when a failed review reaches the batch's `catch`: none for a
   URL without a pull-request reference, otherwise the result of reviewing it.
   */
  function EntryFor(reg: Registry, gh: GitHub, providers: Option<string>, url: string): Option<BatchEntry> {
    var ref := ParsePullUrl(url);
    if ref.None? then None
    else
      match ReviewRef(reg, gh, ref.value, providers)
      case Completed(_) => Some(BatchEntry(url, Success))
      case Exited(m) => Some(BatchEntry(url, Failure(m)))
  }

  /**
   A URL gets an entry exactly when the pattern recognises it; the entry names the URL
   and records success exactly when `review-url` on it would complete, and otherwise
   the message `review-url` would exit with.
   */
  lemma EntryForMeaning(reg: Registry, gh: GitHub, providers: Option<string>, url: string)
    ensures var e := EntryFor(reg, gh, providers, url);
      && (e.None? <==> forall i, o, r, n :: !Recognised(url, i, o, r, n))
      && (e.Some? ==> e.value.url == url)
      && (e.Some? ==> (e.value.status.Success? <==> ReviewUrl(reg, gh, url, providers).Completed?))
      && (e.Some? && e.value.status.Failure? ==> ReviewUrl(reg, gh, url, providers) == Exited(e.value.status.error))
  {
  }

  /** The URL's entry as a function of the URL alone. */
  function EntryOf(reg: Registry, gh: GitHub, providers: Option<string>): string -> Option<BatchEntry> {
    u => EntryFor(reg, gh, providers, u)
  }

  function Entries(e: Option<BatchEntry>): seq<BatchEntry> {
    if e.Some? then [e.value] else []
  }

  /** The entries `entry` gives the URLs, in order, skipping the URLs it gives none. */
  function Collect(entry: string -> Option<BatchEntry>, urls: seq<string>): seq<BatchEntry>
    decreases |urls|
  {
    if urls == [] then [] else Entries(entry(urls[0])) + Collect(entry, urls[1..])
  }

  /** Each URL is treated on its own: collecting over `a + b` is collecting over `a`, then over `b`. */
  lemma {:induction false} CollectAppend(entry: string -> Option<BatchEntry>, a: seq<string>, b: seq<string>)
    ensures Collect(entry, a + b) == Collect(entry, a) + Collect(entry, b)
    decreases |a|
  {
    if a == [] {
      assert a + b == b;
    } else {
      assert (a + b)[1..] == a[1..] + b;
      CollectAppend(entry, a[1..], b);
    }
  }

  /** There is at most one entry per URL, and every entry is one the URL itself gave. */
  lemma {:induction false} CollectBound(entry: string -> Option<BatchEntry>, urls: seq<string>)
    ensures var es := Collect(entry, urls);
      |es| <= |urls| && forall k :: 0 <= k < |es| ==> exists j :: 0 <= j < |urls| && entry(urls[j]) == Some(es[k])
    decreases |urls|
  {
    if urls != [] {
      var tail := urls[1..];
      CollectBound(entry, tail);
      var es := Collect(entry, urls);
      var rest := Collect(entry, tail);
      var head := Entries(entry(urls[0]));
      assert es == head + rest;
      forall k | 0 <= k < |es| ensures exists j :: 0 <= j < |urls| && entry(urls[j]) == Some(es[k]) {
        if k < |head| {
          assert entry(urls[0]) == Some(es[k]);
        } else {
          assert es[k] == rest[k - |head|];
          var j :| 0 <= j < |tail| && entry(tail[j]) == Some(rest[k - |head|]);
          assert entry(urls[j + 1]) == Some(es[k]);
        }
      }
    }
  }

  /** The entries of the batch when every failed review is caught. */
  function BatchEntries(reg: Registry, gh: GitHub, providers: Option<string>, urls: seq<string>): seq<BatchEntry> {
    Collect(EntryOf(reg, gh, providers), urls)
  }

  /** The batch loop over the URLs: each URL's entry, if any, appended in turn. */
  method CollectEntries(entry: string -> Option<BatchEntry>, urls: seq<string>) returns (results: seq<BatchEntry>)
    ensures results == Collect(entry, urls)
  {
    results := [];
    var i := 0;
    while i < |urls|
      invariant 0 <= i <= |urls|
      invariant results == Collect(entry, urls[..i])
    {
      var e := entry(urls[i]);
      if e.Some? {
        results := results + [e.value];
      }
      CollectAppend(entry, urls[..i], [urls[i]]);
      assert urls[..i + 1] == urls[..i] + [urls[i]];
      i := i + 1;
    }
    assert urls[..i] == urls;
  }

  /**
   The `review-batch` command with failures caught per URL: every well-formed URL gets
   an entry, in order, and the entries are printed exactly when the output is `json`.
   */
  method RunBatch(reg: Registry, gh: GitHub, urls: seq<string>, providers: Option<string>, output: Option<string>)
    returns (results: seq<BatchEntry>, printed: bool)
    ensures results == BatchEntries(reg, gh, providers, urls)
    ensures printed <==> output == Some("json")
  {
    results := CollectEntries(EntryOf(reg, gh, providers), urls);
    printed := output == Some("json");
  }

  /**
   The batch loop when a failed review ends the process: the entries so far are lost
   and nothing is printed.
   */
  function Halting(entry: string -> Option<BatchEntry>, output: Option<string>, urls: seq<string>,
                   done: seq<BatchEntry>): BatchOutcome
    decreases |urls|
  {
    if urls == [] then Finished(done, output == Some("json"))
    else
      var e := entry(urls[0]);
      if e.None? then Halting(entry, output, urls[1..], done)
      else if e.value.status.Failure? then Aborted(done, e.value.status.error)
      else Halting(entry, output, urls[1..], done + [e.value])
  }

  /**
   `review-batch` as written: the top-level `reviewPR` already catches every error and
   calls `Deno.exit(1)`, so the batch's own `catch` never runs and the first failed
   review ends the whole batch.
   */
  function BatchAsWritten(reg: Registry, gh: GitHub, providers: Option<string>, output: Option<string>,
                          urls: seq<string>): BatchOutcome {
    Halting(EntryOf(reg, gh, providers), output, urls, [])
  }

  /** The URL's review failed: with the failure caught it would be recorded as failed. */
  predicate FailedEntry(e: Option<BatchEntry>) {
    e.Some? && e.value.status.Failure?
  }

  /** No URL's review fails. */
  predicate NoFailure(entry: string -> Option<BatchEntry>, urls: seq<string>) {
    forall k :: 0 <= k < |urls| ==> !FailedEntry(entry(urls[k]))
  }

  /** With no failure, halting on a failure changes nothing: the entries are collected and printed as usual. */
  lemma {:induction false} HaltingAgrees(entry: string -> Option<BatchEntry>, output: Option<string>,
                                          urls: seq<string>, done: seq<BatchEntry>)
    requires NoFailure(entry, urls)
    ensures Halting(entry, output, urls, done) == Finished(done + Collect(entry, urls), output == Some("json"))
    decreases |urls|
  {
    if urls == [] {
      assert done + [] == done;
    } else {
      var e := entry(urls[0]);
      var tail := urls[1..];
      assert !FailedEntry(e);
      assert NoFailure(entry, tail) by {
        forall k | 0 <= k < |tail| ensures !FailedEntry(entry(tail[k])) {
          assert tail[k] == urls[k + 1];
        }
      }
      var done' := done + Entries(e);
      if e.None? {
        assert done' == done;
      } else {
        assert e.value.status.Success?;
        assert done' == done + [e.value];
      }
      assert Halting(entry, output, urls, done) == Halting(entry, output, tail, done');
      HaltingAgrees(entry, output, tail, done');
      assert Collect(entry, urls) == Entries(e) + Collect(entry, tail);
      assert done' + Collect(entry, tail) == done + Collect(entry, urls);
    }
  }

  predicate AllSucceeded(entries: seq<BatchEntry>) {
    forall k :: 0 <= k < |entries| ==> entries[k].status == Success
  }

  /** Halting on a failure keeps no failed entry. */
  lemma {:induction false} HaltingOnlySucceeds(entry: string -> Option<BatchEntry>, output: Option<string>,
                                                urls: seq<string>, done: seq<BatchEntry>)
    requires AllSucceeded(done)
    ensures AllSucceeded(Halting(entry, output, urls, done).results)
    decreases |urls|
  {
    if urls != [] {
      var e := entry(urls[0]);
      if e.None? {
        HaltingOnlySucceeds(entry, output, urls[1..], done);
      } else if e.value.status == Success {
        var done' := done + [e.value];
        assert AllSucceeded(done');
        HaltingOnlySucceeds(entry, output, urls[1..], done');
      }
    }
  }

  /** When no review of the batch fails, the batch as written records the same entries as the intended one. */
  lemma BatchAsWrittenAgrees(reg: Registry, gh: GitHub, providers: Option<string>, output: Option<string>, urls: seq<string>)
    requires NoFailure(EntryOf(reg, gh, providers), urls)
    ensures BatchAsWritten(reg, gh, providers, output, urls) == Finished(BatchEntries(reg, gh, providers, urls), output == Some("json"))
  {
    HaltingAgrees(EntryOf(reg, gh, providers), output, urls, []);
    assert [] + BatchEntries(reg, gh, providers, urls) == BatchEntries(reg, gh, providers, urls);
  }

  /** The batch as written never records a failed review. */
  lemma AsWrittenOnlySucceeds(reg: Registry, gh: GitHub, providers: Option<string>, output: Option<string>, urls: seq<string>)
    ensures AllSucceeded(BatchAsWritten(reg, gh, providers, output, urls).results)
  {
    HaltingOnlySucceeds(EntryOf(reg, gh, providers), output, urls, []);
  }

  /**
   As written, a batch whose first pull request cannot be fetched ends at once with
   nothing recorded; with the failure caught, that URL gets a failed entry and the
   rest of the batch still runs.
   */
  lemma FetchFailureEndsBatch(reg: Registry, gh: GitHub, providers: Option<string>, output: Option<string>,
                              ref: PrRef, more: seq<string>)
    requires WellFormed(ref)
    requires gh.files(ref.owner, ref.repo, DecimalValue(ref.number)).Err?
    ensures var url := PullRequestUrl(ref, "");
      var m := gh.files(ref.owner, ref.repo, DecimalValue(ref.number)).message;
      && BatchAsWritten(reg, gh, providers, output, [url] + more) == Aborted([], m)
      && BatchEntries(reg, gh, providers, [url] + more)
         == [BatchEntry(url, Failure(m))] + BatchEntries(reg, gh, providers, more)
  {
    var url := PullRequestUrl(ref, "");
    ParseRendered(ref, "");
    assert EntryFor(reg, gh, providers, url)
        == Some(BatchEntry(url, Failure(gh.files(ref.owner, ref.repo, DecimalValue(ref.number)).message)));
    assert ([url] + more)[0] == url && ([url] + more)[1..] == more;
  }
}
