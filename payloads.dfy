/** The JSON payloads of the hosting platform's REST API that the pipeline reads.
    Each response is attached to the record whose URL it answers, so a payload
    carries the outcome of the requests the pipeline would issue for it. */
module Payloads {
  import opened Fetching

  /** One hit of the `search/issues?q=involves:<user>` query. */
  datatype SearchItem = SearchItem(repositoryUrl: string)

  /** The search response; `items` may be missing. */
  datatype SearchResponse = SearchResponse(items: Option<seq<SearchItem>>)

  /** `repos_data.get('items', [])` */
  function ItemsOf(r: SearchResponse): seq<SearchItem> {
    r.items.GetOr([])
  }

  /** The `stats` object of a commit detail; either count may be missing. */
  datatype Stats = Stats(additions: Option<nat>, deletions: Option<nat>)

  /** A commit detail object; `stats` may be missing. */
  datatype CommitDetail = CommitDetail(stats: Option<Stats>)

  /** `commit_details.get('stats', {}).get('additions', 0)` */
  function Additions(d: CommitDetail): nat {
    match d.stats
    case None => 0
    case Some(s) => s.additions.GetOr(0)
  }

  /** `commit_details.get('stats', {}).get('deletions', 0)` */
  function Deletions(d: CommitDetail): nat {
    match d.stats
    case None => 0
    case Some(s) => s.deletions.GetOr(0)
  }

  /** An entry of a pull request's commit list, with the response to a GET of its `url`. */
  datatype Commit = Commit(detail: Fetch<CommitDetail>)

  /** A review or an issue comment: its author's login and its body, either possibly missing. */
  datatype Remark = Remark(login: Option<string>, body: Option<string>)

  /** A pull request of a repository's `pulls?state=all` listing. `createdAt` is the
      parsed `created_at` timestamp in seconds; `login` is `user.login`. The three
      `Fetch` fields are the responses to its commits URL, its reviews URL (the
      review-comments URL with "comments" replaced by "reviews") and its comments URL. */
  datatype PullRequest = PullRequest(
    createdAt: int,
    login: Option<string>,
    commits: Fetch<seq<Commit>>,
    reviews: Fetch<seq<Remark>>,
    comments: Fetch<seq<Remark>>)
}
