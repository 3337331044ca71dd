# github-contributions: the contribution-aggregation pipeline in Dafny

`get_user_contributions` (analyse.py) produces a report of one user's activity on a
GitHub or GitHub Enterprise instance. It works in these steps:

1. It checks its inputs.
2. It picks the API root.
3. It searches for the issues and pull requests that involve the user.
4. It tallies the search hits by repository full name, in first-seen order.
5. It walks every tallied repository's pull requests through a date filter:
   - the user's own pull requests add their commits' line counts;
   - every pull request that passes the filter adds the user's reviews and comments to two more counters.
6. It returns the four counters, their line total, the top three repositories, and the date arguments.

This project models that pipeline as it is written. Every HTTP request becomes an
input value: a `Fetch` that is either `Failed` or the parsed payload.

The loops are imperative methods with `continue` kept as in the source. Each method is
proved equal to a fold function that says what its level of the walk adds. The
properties are then proved about the fold functions.

Modules, one file each:

- `Fetching` (fetching.dfy): `Option` and the fetch outcome `Fetch`.
- `Payloads` (payloads.dfy): the JSON objects read: search hits, pull requests, commits, commit details, reviews and comments.
- `Tally` (tally.dfy):
  - repository names from repository URLs (`str.replace` of the `<api>/repos/` prefix, with Python's left-to-right, non-overlapping semantics);
  - the insertion-ordered `defaultdict(int)` tally `BuildTally`;
  - `Tallies`, an independent description of what the tally holds.
- `Ranking` (ranking.dfy): Python's stable `sorted(..., key=count, reverse=True)[:3]`, as an insertion sort with its properties.
- `Walk` (walk.dfy):
  - the counters;
  - the date filter and the valid-comment rule;
  - the five nested loops and their fold functions;
  - what each counter means;
  - the failure scopes.
- `Analyse` (analyse.dfy):
  - the input checks, the API root and the date bounds;
  - `GetUserContributions` and its specification `Contributions`;
  - the report-level properties and a worked example.

## Model

| member | source | states |
|---|---|---|
| `Analyse.Contributions` | analyse.py:35-156 | The result is None exactly when the username or the token is missing, when enterprise mode has no URL, or when the search fails. Otherwise `linesModified == linesAdded + linesDeleted`, at most three repositories are listed, no counter is negative, and the date arguments are echoed back. |
| `Analyse.GetUserContributions` | analyse.py:35-156 | The step-by-step run returns exactly what `Contributions` describes: None exactly in the rejected and failed-search cases. |
| `Analyse.ReportTopRepositories` | analyse.py:145 | Every listed repository is a non-empty searched name, carrying exactly its number of search hits (at least one). They are ordered by descending count, and equal counts keep the order of the first hit. At most three are listed, and fewer only when every repository is. No unlisted repository has more hits than a listed one. At the cut-off, of the repositories with equal counts, the ones first hit earliest are listed. |
| `Analyse.SearchedNamesOfRepositoryUrls` | analyse.py:70-71 | Search hits whose repository URLs are `<api root>/repos/<name>` yield exactly those names, in order, for the public and the enterprise API root alike, provided no name contains the prefix. |
| `Analyse.DayBounds` | analyse.py:57-58 | The date bounds are midnights. The whole start day passes the filter. On the end day, only a pull request created exactly at midnight can pass. |
| `Analyse.ExampleReport` | analyse.py:70-156 | Worked example: one repository with a single search hit, holding two pull requests. The user's own pull request has one commit of +10/-2. Another author's pull request was reviewed by the user with an 8-character body. The report is reviewed 1, valid comments 0, +10, -2, modified 12, top `[("octo/widgets", 1)]`. |
| `Tally.RemoveAll` | analyse.py:71 | `str.replace(pat, "")`: occurrences are removed scanning from the left, without overlap. An empty pattern changes nothing. The result is never longer than the input. |
| `Tally.RepoNames` | analyse.py:70-71 | One derived name per search hit, in order: the hit's repository URL with the API prefix removed. |
| `Tally.RemoveAllAbsent` | analyse.py:71 | `str.replace` leaves a string without the pattern unchanged. |
| `Tally.RepoNameOfRepositoryUrl` | analyse.py:71 | The derived name of `<base>/repos/<name>` is `<name>` whenever `<name>` does not itself contain the prefix. |
| `Tally.Bump` | analyse.py:73 | `repo_contributions[name] += 1` on the insertion-ordered dictionary with default 0 adds at most one key and drops none. |
| `Tally.BumpPresent` | analyse.py:73 | Incrementing an existing key adds one to its count in place and keeps the dictionary's order. |
| `Tally.BumpAbsent` | analyse.py:73 | Incrementing a missing key appends it with count 1, as `defaultdict(int)` does. |
| `Tally.TallyOfCorrect` | analyse.py:70-73 | Keys are distinct and are exactly the non-empty derived names. Each key's count is its number of occurrences. Keys are in the order of first occurrence, which is also the order the walk visits them, analyse.py:76. |
| `Tally.BuildTally` | analyse.py:70-73 | The search loop's mutated dictionary equals the tally of the derived names. It skips empty names. |
| `Ranking.Insert` | analyse.py:145 | One step of the stable sort: the entry goes after every entry with at least its count, and the result is one longer. |
| `Ranking.SortByCount` | analyse.py:145 | `sorted(..., key=count, reverse=True)` as an insertion sort of the items in dictionary order; it keeps the length. |
| `Ranking.TopRepositories` | analyse.py:145 | The `[:3]` slice of the sorted items, with `min(3, len(tally))` entries. |
| `Ranking.WithCountConcat` | analyse.py:145 | Selecting the entries with a given count distributes over concatenation. |
| `Ranking.InsertPermutes` | analyse.py:145 | One insertion step of the sort adds exactly the inserted entry. |
| `Ranking.SortByCountPermutes` | analyse.py:145 | The sort is a permutation of the tally's items. |
| `Ranking.InsertDescending` | analyse.py:145 | Inserting into a descending sequence keeps it descending. |
| `Ranking.InsertAfterEqual` | analyse.py:145 | An inserted entry goes after every entry with an equal count. |
| `Ranking.SortByCountStable` | analyse.py:145 | The sort is descending by count, and for every count the entries with that count keep their original order. This is Python's stability under `reverse=True`. |
| `Ranking.PrefixOfDescending` | analyse.py:145 | The `[:3]` slice of the sorted items stays descending, is drawn from them, and is at least as large as every entry left out. |
| `Ranking.TopRepositoriesCorrect` | analyse.py:145 | The top list:<br>• has `min(3, len(tally))` entries, taken from the tally;<br>• is descending;<br>• for each count, holds a prefix of the tally's entries with that count;<br>• holds no entry smaller than one it leaves out. |
| `Ranking.InsertStablyDescending` | analyse.py:145 | Inserting an entry first seen later than all others keeps the order "higher count first, then earlier first hit". |
| `Ranking.SortByCountKeepsFirstSeenOrder` | analyse.py:145 | Sorting items in first-seen order gives descending counts with ties in first-seen order. |
| `Ranking.TopRepositoriesKeepFirstSeenOrder` | analyse.py:145 | The same holds for the top three. |
| `Ranking.TallyEntryOf` | analyse.py:70-73 | Every non-empty searched name has a tally entry holding its number of occurrences. |
| `Ranking.TopEntriesCounted` | analyse.py:145 | Every listed entry is a non-empty name with its number of occurrences, which is positive. |
| `Ranking.ShortTopListsAll` | analyse.py:145 | A top list shorter than three names every repository. |
| `Ranking.UnlistedNoMore` | analyse.py:145 | No unlisted repository occurs more often than a listed one. |
| `Ranking.UnlistedTiesSeenLater` | analyse.py:145 | An unlisted repository with as many hits as a listed one was first hit later. |
| `Walk.FeedbackDelta` | analyse.py:116-143 | What a pull request's reviews and then its comments add; no counter goes negative. Its failure cases are stated by `FeedbackDeltaCases`. |
| `Walk.PullDelta` | analyse.py:87-143 | What one pull request adds:<br>• nothing when it is skipped;<br>• for the user's own pull request, nothing when its commit list failed, otherwise its commits' lines and then its reviews and comments;<br>• for any other pull request, its reviews and comments.<br>No counter ever goes negative. |
| `Walk.SumCommits` | analyse.py:103-114 | The commit loop adds exactly `CommitsDelta`. A failed detail fetch skips that commit only. No counter decreases. |
| `Walk.CountReviews` | analyse.py:125-129 | The review loop adds exactly `ReviewsDelta`, and no counter decreases. |
| `Walk.CountComments` | analyse.py:140-143 | The comment loop adds exactly `CommentsDelta`, and no counter decreases. |
| `Walk.CountPull` | analyse.py:87-143 | One iteration of the pull-request loop adds exactly `PullDelta`, across all four of its `continue`s. |
| `Walk.WalkPulls` | analyse.py:86-143 | The pull-request loop adds exactly `PullsDelta`, and no counter decreases. |
| `Walk.WalkRepositories` | analyse.py:76-143 | The repository loop adds exactly `ReposDelta` over the tally's keys in order; a failed listing skips that repository. No counter decreases. |
| `Walk.FeedbackDeltaCases` | analyse.py:116-143 | A failed reviews fetch adds nothing and skips the comments. A failed comments fetch keeps the reviews' contribution. Otherwise reviews and comments both count. |
| `Walk.ValidBodyThreshold` | analyse.py:128 | For every body: one of at most 10 characters (the empty one included) is never a valid comment, one longer than 10 always is, and a missing body never is. |
| `Walk.ReviewsCounted` | analyse.py:125-129 | A review list adds:<br>• one reviewed pull request per review the user wrote;<br>• one valid comment per such review with a body longer than 10;<br>• no lines. |
| `Walk.CommentsCounted` | analyse.py:140-143 | A comment list adds one valid comment per long enough comment by the user. It never adds reviewed pull requests or lines. |
| `Walk.CommitsOnlyLines` | analyse.py:103-114 | Commits add lines and nothing else. |
| `Walk.FeedbackAddsNoLines` | analyse.py:116-143 | Reviews and comments never add lines. |
| `Walk.LinesOnlyFromOwnPulls` | analyse.py:93-114 | A pull request adds lines only if it passes the date filter, was opened by the user, and its commit list was fetched. It then adds exactly its commits' lines; in every other case it adds none. |
| `Walk.ReviewedOnlyFromReviews` | analyse.py:116-129 | A pull request's reviewed count is the number of reviews the user wrote on it, when the walk reaches its reviews, and zero otherwise. |
| `Walk.MissingStatsAddZero` | analyse.py:113-114 | A commit detail without `stats` adds nothing. |
| `Walk.UnboundedPassesAll` | analyse.py:90-91 | Without a start or an end date, every pull request passes the filter. |
| `Walk.DateFilterIsSelection` | analyse.py:86-91 | Walking a listing under a date window is the same as walking, without bounds, exactly the pull requests that pass the window. A pull request is skipped iff it is before a given start or after a given end. |
| `Walk.CommitsDeltaConcat` | analyse.py:103-114 | What a commit list adds is the sum over its parts. |
| `Walk.FailedCommitSkipped` | analyse.py:109-111 | A failed commit-detail fetch counts as if that commit were absent. |
| `Walk.FailedCommitListSkipsPull` | analyse.py:99-101 | A failed commit-list fetch on the user's own pull request skips the whole pull request, reviews and comments included. |
| `Walk.ReposDeltaConcat` | analyse.py:76-84 | What a list of repositories adds is the sum over its parts. |
| `Walk.FailedRepoSkipped` | analyse.py:82-84 | A failed pull-request listing counts as if that repository were absent; the others are unaffected. |

Behaviour of analyse.py worth noting:

- The tally counts search hits per repository. It is not incremented for the user's own pull requests.
- A failed commit-list fetch skips the rest of that pull request, its reviews and comments included (`continue` at analyse.py:101).
- Repositories come from one involvement search. There is no paginated listing of all repositories and no display-name lookup.
- Both date bounds are midnight of their day. A pull request created after 00:00:00 on the end day is therefore excluded.
- `pull_requests_reviewed` counts the user's reviews, not distinct pull requests.

## Left out

- HTTP, headers, tokens on the wire, TLS verification and `verify_ssl`, and the `urllib3` warning suppression:
  - each request is an input `Fetch`;
  - `Failed` also covers a response whose body is not JSON.
- The environment-variable fallback (analyse.py:27-33): `Config` holds the resolved values.
- Missing and empty values are merged:
  - a missing or empty username, token or enterprise URL is the empty string;
  - a missing or empty date is `None`;
  - the report echoes an empty date argument as `None`, where Python would return the empty string.
- `datetime.strptime` (analyse.py:57-58, 87):
  - a date is given pre-parsed as its text and day number, and its bound is midnight;
  - `created_at` is a timestamp in seconds;
  - malformed dates, which raise in Python, are not modelled.
- URLs for the pull-request listing, commits, commit details, reviews and comments:
  - the listing is looked up by repository full name;
  - every other response is attached to the record whose URL it answers;
  - the `"comments"` to `"reviews"` substitution on `review_comments_url` (analyse.py:116) is therefore not modelled.
- `Option` in the payloads means a field is absent, read with `.get(key, default)`.
- Payloads of an unexpected shape, on which Python raises instead of skipping. None of these is modelled:
  - a missing `repository_url` (analyse.py:71) or `created_at` (analyse.py:87);
  - a missing `review_comments_url`, whose `None.replace` raises at analyse.py:116;
  - `items: null`, which makes the `for` at analyse.py:70 raise, while the model reads it as absent and finds no hits;
  - `stats: null`, which makes `.get` at analyse.py:113-114 raise, while the model reads it as absent and adds no lines;
  - a `null` user;
  - a JSON `null` for a count;
  - a response that is not a list.
- A missing `commits_url`, commit `url` or `comments_url` is not a crash: `requests.get(None)` raises a `RequestException`, which the source catches and skips. The `Failed` outcome already covers it.
- Line counts are non-negative integers.
- The console messages and the module-level example report (analyse.py:36, 45, 67, 83, 100, 110, 122, 137, 159-172).
