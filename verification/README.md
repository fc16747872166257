# AI code review bot and student register, modelled in Dafny

This project models the logic of the AI code review bot, a command-line tool. The tool takes a GitHub pull request and does five things:

- it fetches the pull request's changed files and unified diff;
- it renders them into one review prompt (`buildReviewPrompt`);
- it sends the prompt to every selected model provider, one after another;
- it reports each provider's review, or a failure;
- for `review-batch`, it repeats this over a list of pull-request URLs.

Each provider (step 4) reads the diff and the file list back out of the prompt with two regular expressions. It asks its model for four fields and renders them with `formatResponse`. If the model call fails, the provider rethrows the error under its own prefix.

The project also models the student register of the C++ demonstration program. That program keeps names, grades and a counter, and offers a menu of four operations.

Modules and files:

| file | module | models |
|---|---|---|
| `results.dfy` | `Results` | `Option` and `Result` |
| `strings.dfy` | `Strings` | the ASCII part of JavaScript `\s`; `trim`; substring search; `split`/`join` on one character; decimal numerals |
| `prompt.dfy` | `Prompt` | `buildReviewPrompt` and the file list |
| `extraction.dfy` | `Extraction` | the diff and files regexes, with their fallbacks |
| `format.dfy` | `ReviewFormat` | `formatResponse` and a reader for its output |
| `providers.dfy` | `Providers` | `reviewCode` of the three provider classes, including error wrapping |
| `roundtrip.dfy` | `PromptRoundTrip` | the prompt builder followed by a provider's extraction |
| `pullurl.dfy` | `PullUrl` | the pattern `github\.com\/([^\/]+)\/([^\/]+)\/pull\/(\d+)` |
| `reviewer.dfy` | `Reviewer` | provider selection, skipping and outcomes in `AICodeReviewer.reviewPR` |
| `cli.dfy` | `Cli` | the `--providers` split, the top-level `reviewPR`, `review-url` and `review-batch` |
| `students.dfy` | `Students` | `do_stuff_with_student_data`, `is_valid_grade` and the menu in `main` |

Everything outside the model enters as a parameter:

- The two GitHub requests are the functions in `Cli.GitHub`. Each returns a `Result`.
- A provider's model call (`AxGen.forward`) is a function. It returns the four fields or a failure message.
- Each configured provider is a function from the prompt to a reply (`Returned` or `Threw`).
- The provider registry is a `Reviewer.Registry`: the record's own keys, in `Object.keys` order, and the adapter behind each key.
- `Deno.exit(1)` becomes an `Exited` outcome that carries the printed message.

Each regex is modelled twice:

- a declarative predicate that states what JavaScript reports: the leftmost match, then the latest start for the group (after greedy `\s*\n`), then the earliest end (the lazy group);
- a scanner, proved to return exactly that match.

The model follows what the code does at these points:

- Providers are awaited one at a time (step2/index.ts:148-166), so the provider loop is a sequential function.
- An unconfigured provider gets a console line and no result (step2/index.ts:149-152). This is `Reviewer.Event.Skipped`, not a failure.
- A batch URL the pattern does not match is passed over with `continue` and gets no entry (step2/index.ts:240-243).
- A fetch failure inside the batch ends the process through the top-level `reviewPR` (step2/index.ts:178-184). No `failed` entry is recorded; see the second finding.

## Model

| member | source | states |
|---|---|---|
| `Prompt.FileListLines` | step2/index.ts:109-111 | A non-empty file list, split at line feeds, gives back one rendered line per file, in input order, as long as no filename holds a line feed. An empty list is the empty string (`Prompt.FileListEnds`) |
| `Prompt.FileListEnds` | step2/index.ts:109-111 | The file list is empty exactly when there are no files; otherwise it starts with `-` and ends with `)` |
| `Prompt.FileListAvoids` | step2/index.ts:109-111 | A non-empty pattern with no layout characters or digits appears in the file list only if some filename contains it |
| `PromptRoundTrip.PromptPieces` | step2/index.ts:113-127 | The fixed text of the prompt is made of the markers the providers look for: `FILES MODIFIED:` then a line feed, a blank line then `DIFF:` then a line feed, and a blank line before `Please provide:` |
| `Extraction.ExtractDiff` | step4/llm-providers.ts:33-36 | With no `DIFF:` header followed by blanks and a line feed, the whole prompt is the diff; otherwise the result is the trimmed group of the match JavaScript reports (leftmost, latest group start, earliest end at `\n\nPlease provide:` or end of input) |
| `Extraction.ExtractFiles` | step4/llm-providers.ts:34-37 | With no match, the result is `No file information provided`; otherwise it is the trimmed group up to the first `\n\nDIFF:` of the reported match |
| `PromptRoundTrip.BuildThenExtract` | step4/llm-providers.ts:33-37 | On a built prompt, extraction returns the trimmed diff and exactly the file list. Conditions: no filename holds `DIFF:`; the diff holds no `\n\nPlease provide:` and has a non-space character; with no files, the diff holds no `DIFF:` |
| `PromptRoundTrip.EmptyDiffReadsInstructions` | step4/llm-providers.ts:33-36 | With an empty diff, the extracted diff is the instruction list `Please provide:\n1. Summary of changes…` |
| `PromptRoundTrip.ProviderReadsPrompt` | step4/llm-providers.ts:31-50 | Under the round-trip conditions, the model gets the trimmed diff and the file list the prompt was built from. On success the reply is `formatResponse` of its fields; on failure the reply is the provider-prefixed error |
| `ReviewFormat.FormatParse` | step4/llm-providers.ts:52-59 | A formatted review reads back to the same four fields when no field contains the heading that follows it |
| `ReviewFormat.ParseFormat` | step4/llm-providers.ts:52-59 | Whatever the reader accepts is exactly the `formatResponse` rendering of the fields it returns |
| `ReviewFormat.ParseAssessment` | step4/llm-providers.ts:11 | Exactly the three schema values APPROVE, REQUEST_CHANGES and COMMENT are accepted, each as its own name |
| `Providers.ProviderErrorInjective` | step4/llm-providers.ts:47-49 | The rethrown message `<Vendor> provider error: <message>` determines both the provider and the original message |
| `Providers.ProvidersAgree` | step4/llm-providers.ts:31-50 | For the same model behaviour, the three provider classes succeed or fail together and succeed with the same text; their failures differ only in the vendor prefix |
| `Providers.ReviewCodeOutcome` | step4/llm-providers.ts:39-49 | A successful reply reads back to the generated fields when they are clean; a failed model call is rethrown as the provider error carrying its message |
| `PullUrl.ParsePullUrl` | step2/index.ts:213-218 | The URL is refused exactly when no position holds the pattern. Otherwise the owner, repository and number are the groups of the leftmost match, and the number is the maximal digit run. Every accepted reference is well formed |
| `PullUrl.ParseRendered` | step2/index.ts:213 | `https://github.com/{owner}/{repo}/pull/{number}` followed by any text that does not start with a digit parses back to the same reference |
| `PullUrl.NumberRoundTrip` | step2/index.ts:217-218 | The number read from the URL of pull request `k` is `k` |
| `Reviewer.ReviewWithProvider` | step2/index.ts:97-106 | A review comes back exactly when the provider returns. A thrown error, including the `TypeError` from a lookup that is not a provider, becomes `null` |
| `Reviewer.Report` | step2/index.ts:159-163 | A name is reported as reviewed exactly when the review is a non-empty string; `null` and `""` are failures |
| `Reviewer.ReviewPR` | step2/index.ts:143-163 | Own keys only (intended behaviour, see Findings): one event per effective name, in order. Names that are not own keys of the record are skipped. A configured name is reviewed exactly when its provider returns non-empty text for the built prompt, and that text is the review |
| `Reviewer.ReviewPRAsWritten` | step2/index.ts:143-163 | As written, one event per effective name, in order. A name is skipped only when it is neither a key of the record nor a property every object inherits. A key is reviewed exactly when its provider returns non-empty text, and that text is the review. An inherited property that is not a key is always reported as failed |
| `Reviewer.SelectionKept` | step2/index.ts:143-146 | A non-empty selection is used as given, in order, with duplicates |
| `Reviewer.DefaultSelectsAll` | step2/index.ts:143-146 | An empty selection dispatches every registered provider once, in `Object.keys` order, and skips none |
| `Reviewer.RunAppend` | step2/index.ts:148-166 | The provider loop treats each name on its own: the events for `a + b` are those for `a`, then those for `b` |
| `Reviewer.SkipIsolated` | step2/index.ts:148-152 | An unconfigured name adds one skip event and changes nothing for the names before or after it |
| `Reviewer.AsWrittenAgrees` | step2/index.ts:148-152 | For a selection with no inherited property names, the loop as written and the own-key reading give the same events |
| `Reviewer.InheritedNameDispatched` | step2/index.ts:148-152 | As written, selecting `constructor` reports a failed review; read as own keys, it is skipped |
| `Reviewer.ProtoNameSkipped` | step2/index.ts:148-152 | As written, `__proto__` is skipped when it is not a key: the program runs under Deno, which removes the inherited `__proto__` accessor |
| `Cli.SplitProviders` | step2/index.ts:177 | An absent or empty option selects nothing. Any other option is cut at every comma with no trimming: the pieces hold no comma and join back to the option |
| `Cli.SplitJoinedProviders` | step2/index.ts:177 | A comma-joined list of comma-free names splits back into the same names |
| `Cli.ReviewPullRequest` | step2/index.ts:170-185 | The files are fetched first. A failed fetch ends the process with that request's message. Otherwise the events are those of the provider loop, read with own keys only (intended behaviour, see Findings), on the fetched diff and files |
| `Cli.ReviewPullRequestAsWritten` | step2/index.ts:170-185 | For a valid registry and a selection that names no inherited property, the command completes with exactly the events of the provider loop as written |
| `Cli.ReviewUrlGroups` | step2/index.ts:212-219 | An unrecognised URL ends the process with `Invalid GitHub PR URL`; otherwise the groups of the leftmost match are reviewed |
| `Cli.ReviewUrlOfPullRequest` | step2/index.ts:213-218 | The URL of a pull request reviews that pull request, with the number its digits spell |
| `Cli.EntryForMeaning` | step2/index.ts:238-256 | A URL gets an entry exactly when the pattern recognises it. The entry names the URL and records success exactly when reviewing it completes; otherwise it records the message of the failure |
| `Cli.CollectAppend` | step2/index.ts:238-257 | The batch treats each URL on its own: the entries for `a + b` are those for `a`, then those for `b` |
| `Cli.CollectBound` | step2/index.ts:238-257 | There is at most one entry per URL, and each entry is the one its URL gives |
| `Cli.CollectEntries` | step2/index.ts:238-257 | The loop over the URLs yields, in input order, one entry for every URL that gets one |
| `Cli.RunBatch` | step2/index.ts:233-261 | With each failed review caught (intended behaviour, see Findings): the loop's results are the entries of the URLs in input order. They are printed as JSON exactly when the output option is `json` |
| `Cli.BatchAsWrittenAgrees` | step2/index.ts:250-256 | When no review in the batch fails, the batch as written records the same entries as the intended loop, and prints under the same condition |
| `Cli.AsWrittenOnlySucceeds` | step2/index.ts:250-256 | As written, the batch never records a `failed` entry |
| `Cli.FetchFailureEndsBatch` | step2/index.ts:181-184 | As written, a batch whose first pull request cannot be fetched ends at once with nothing recorded. In the intended loop that URL gets a failed entry and the rest of the batch runs |
| `Students.DoStuffConsistent` | cpp-src/horrible.cpp:14-55 | Every operation code keeps the counter equal to the number of names, and the map's keys equal to the listed names |
| `Students.AddStudent` | cpp-src/horrible.cpp:15-19 | Adding a student appends the name even when it is already listed, resets its grades to empty and counts one more. Other students' grades are unchanged |
| `Students.AddGrade` | cpp-src/horrible.cpp:20-27 | A grade of any value is appended to a known student's list, and nothing else changes. For an unknown name the state is unchanged and the name is reported not found |
| `Students.ListFromKeys` | cpp-src/horrible.cpp:30-37 | When every listed name is a key, `operator[]` inserts nothing. The listing shows each name with its own grades, in order |
| `Students.PrintUnchanged` | cpp-src/horrible.cpp:28-38 | On a consistent register, the listing leaves the state unchanged and shows every student in order with their grades. The total is the number of names |
| `Students.LookupUnchanged` | cpp-src/horrible.cpp:39-51 | Looking a name up changes nothing and reports whether the name is listed |
| `Students.FindStudent` | cpp-src/horrible.cpp:40-46 | The scan with early exit finds the name exactly when it is in the list |
| `Students.InvalidCodeUnchanged` | cpp-src/horrible.cpp:52-54 | Any code other than 1 to 4 changes nothing and is reported as invalid |
| `Students.MenuRejectsGrade` | cpp-src/horrible.cpp:103-109 | A grade outside 0 to 100 is refused at the menu and changes nothing |
| `Students.MenuStepKeeps` | cpp-src/horrible.cpp:92-126 | Every menu choice keeps the register consistent and keeps every stored grade between 0 and 100 |
| `Students.SessionKeeps` | cpp-src/horrible.cpp:76-127 | Over any sequence of menu entries up to the first 0, the register stays consistent and holds only grades from 0 to 100 |
| `Students.SessionGrades` | cpp-src/horrible.cpp:58-60 | Starting from the empty register, every grade stored through the menu satisfies `is_valid_grade` |

## Left out

- Network I/O. This covers `GitHubAPI` (fetch, headers, status checks) and the model library's `forward`. Both are function parameters; their error messages are abstract strings.
- Error coercion. Turning a thrown value into a message (`error instanceof Error ? error.message : String(error)`) is folded into those abstract messages.
- The constructor (step2/index.ts:79-95). It reads API keys from the environment. The registry is a parameter instead.
- Console text. This covers the banners, emoji and `provider.toUpperCase()` headings. Only the events (skipped, reviewed with its text, failed) and the exit messages are modelled.
- Non-JSON batch output. The JSON rendering itself and the `console`/`markdown` modes are out; the model records only whether the results are printed.
- Concurrency and `async`. The code awaits each provider and each URL in turn, so sequential functions model it exactly.
- The `review` command's raw `<pr-number>` argument. `parseInt` of arbitrary text can give `NaN` or a partial number. Only numbers that come from a matched URL are modelled; these are digit strings.
- `PullUrl.PrNumber`: the value is an exact natural number; `parseInt` loses precision above 2^53.
- `Strings.IsSpace`: only the ASCII members of JavaScript's `\s` and `trim` whitespace are treated as space; Unicode spaces are not.
- `Students.SessionKeeps`: non-integer input at the menu (horrible.cpp:82-87) and failed grade reads are not modelled. Stream failure states and the `ignore` calls are part of the interactive loop.
- `Students.DoStuff`: the C++ `int` width is not modelled. `g_student_count` and grades are unbounded integers, so overflow after 2^31 - 1 additions is not represented.
- `Cli.ReviewPullRequest`: the provider loop is the own-key reading of step2/index.ts:148-152 (`Reviewer.ReviewPR`), not the loop as written. A selected name such as `constructor` is therefore skipped rather than reported as failed. `Cli.ReviewPullRequestAsWritten` states where the two agree; the same holds for `Cli.ReviewRef`, `Cli.ReviewUrl` and the batch built on them. Batch entries do not depend on the events.
- `Reviewer.Valid`: the registry's keys are assumed not to shadow `Object.prototype` properties. In the source only `gemini` is ever registered.

## Findings

| source | as written | input that shows it | evidently intended | confidence | as-written member | corrected member |
|---|---|---|---|---|---|---|
| step2/index.ts:148-152 | `!this.providers[provider]` also finds the properties every object inherits. A selected name such as `constructor` or `toString` counts as configured, its missing `reviewCode` throws a `TypeError`, and the name is reported as a failed review | `--providers constructor` | Only the record's own keys count as configured; any other name is skipped as not configured | high; not executed | `Reviewer.ReviewPRAsWritten`, shown by `Reviewer.InheritedNameDispatched` | `Reviewer.ReviewPR`, with `Reviewer.SkipIsolated` and `Reviewer.DefaultSelectsAll` |
| step2/index.ts:250-256 | The batch's `catch` never runs: the top-level `reviewPR` (lines 181-184) already catches every error and calls `Deno.exit(1)`. The first pull request that cannot be fetched ends the whole batch, and no JSON is printed | A batch whose first URL names a pull request the GitHub API answers with 404 | A failed review is recorded as a `failed` entry with its message, and the rest of the batch runs | high; not executed | `Cli.BatchAsWritten`, shown by `Cli.FetchFailureEndsBatch` and `Cli.AsWrittenOnlySucceeds` | `Cli.RunBatch` over `Cli.BatchEntries`, with `Cli.EntryForMeaning` |
