/** `get_user_contributions`: the checks on its inputs, the choice of API root, the
    involvement search and its tally, the contribution walk, and the report. */
module Analyse {
  import opened Fetching
  import opened Payloads
  import opened Tally
  import opened Ranking
  import opened Walk

  const SecondsPerDay := 86400

  /** A `YYYY-MM-DD` argument: its text and its day number, counted from the epoch
      of the pull-request timestamps. */
  datatype Date = Date(text: string, day: int)

  /** The parsed date, which is midnight at the start of that day. */
  function Midnight(d: Date): int {
    d.day * SecondsPerDay
  }

  /** The arguments once the environment fallback has been applied; an empty string
      stands for a missing or empty argument. */
  datatype Config = Config(
    username: string,
    token: string,
    enterpriseUrl: string,
    isEnterprise: bool,
    startDate: Option<Date>,
    endDate: Option<Date>)

  /** The platform's answers: the involvement search, and the pull-request listing of
      each repository by full name. */
  datatype Host = Host(search: Fetch<SearchResponse>, pulls: string -> Fetch<seq<PullRequest>>)

  /** The returned dictionary. */
  datatype Report = Report(
    pullRequestsReviewed: int,
    validComments: int,
    linesAdded: int,
    linesDeleted: int,
    linesModified: int,
    topRepositories: seq<Entry>,
    startDate: Option<string>,
    endDate: Option<string>)

  const PublicApiUrl := "https://api.github.com"

  /** A run stops before any request without a username or token, or in enterprise
      mode without an enterprise URL. */
  predicate Rejected(cfg: Config) {
    cfg.username == "" || cfg.token == "" || (cfg.isEnterprise && cfg.enterpriseUrl == "")
  }

  function BaseApiUrl(cfg: Config): string {
    if cfg.isEnterprise then cfg.enterpriseUrl + "/api/v3" else PublicApiUrl
  }

  function Bound(d: Option<Date>): Option<int> {
    match d
    case None => None
    case Some(date) => Some(Midnight(date))
  }

  function WindowOf(cfg: Config): Window {
    Window(Bound(cfg.startDate), Bound(cfg.endDate))
  }

  function TextOf(d: Option<Date>): Option<string> {
    match d
    case None => None
    case Some(date) => Some(date.text)
  }

  /** The repository names derived from the search hits, one per hit. */
  function SearchedNames(cfg: Config, response: SearchResponse): seq<string> {
    RepoNames(ItemsOf(response), BaseApiUrl(cfg))
  }

  /** What a run returns: nothing when the inputs are rejected or the search fails;
      otherwise the walk's counters over the tallied repositories, in first-seen
      order, and the top of the tally. */
  function Contributions(cfg: Config, host: Host): (r: Option<Report>)
    ensures r.None? <==> Rejected(cfg) || host.search.Failed?
    ensures r.Some? ==> r.value.linesModified == r.value.linesAdded + r.value.linesDeleted
    ensures r.Some? ==> |r.value.topRepositories| <= TopCount
    ensures r.Some? ==> r.value.pullRequestsReviewed >= 0 && r.value.validComments >= 0
                        && r.value.linesAdded >= 0 && r.value.linesDeleted >= 0
    ensures r.Some? ==> r.value.startDate == TextOf(cfg.startDate) && r.value.endDate == TextOf(cfg.endDate)
  {
    if Rejected(cfg) || host.search.Failed? then None
    else
      var tally := TallyOf(SearchedNames(cfg, host.search.value));
      var c := ReposDelta(Keys(tally), host.pulls, cfg.username, WindowOf(cfg));
      Some(Report(c.reviewed, c.validComments, c.added, c.deleted, c.added + c.deleted,
                  TopRepositories(tally), TextOf(cfg.startDate), TextOf(cfg.endDate)))
  }

  /** The run itself, step by step; it returns what Contributions describes. */
  method GetUserContributions(cfg: Config, host: Host) returns (r: Option<Report>)
    ensures r == Contributions(cfg, host)
    ensures r.None? <==> Rejected(cfg) || host.search.Failed?
  {
    if cfg.username == "" || cfg.token == "" {
      return None;
    }
    if cfg.isEnterprise && cfg.enterpriseUrl == "" {
      return None;
    }
    var base := BaseApiUrl(cfg);
    var counters := Zero;
    var w := WindowOf(cfg);
    if host.search.Failed? {
      return None;
    }
    var tally := BuildTally(ItemsOf(host.search.value), base);
    assert tally == TallyOf(SearchedNames(cfg, host.search.value));
    counters := WalkRepositories(Keys(tally), host.pulls, cfg.username, w, counters);
    PlusZero(ReposDelta(Keys(tally), host.pulls, cfg.username, w));
    assert counters == ReposDelta(Keys(tally), host.pulls, cfg.username, w);
    var top := TopRepositories(tally);
    r := Some(Report(counters.reviewed, counters.validComments, counters.added, counters.deleted,
                     counters.added + counters.deleted, top, TextOf(cfg.startDate), TextOf(cfg.endDate)));
  }

  /** The listed repositories: at most three tallied names, each with its number of
      search hits, by descending count and, on equal counts, by first hit. Fewer than
      three are listed only when every repository is, and no unlisted repository has
      more hits than a listed one, nor as many hits and an earlier first hit. */
  lemma ReportTopRepositories(cfg: Config, host: Host)
    requires !Rejected(cfg) && host.search.Fetched?
    ensures var names := SearchedNames(cfg, host.search.value);
            var top := Contributions(cfg, host).value.topRepositories;
            && |top| <= TopCount
            && (forall e :: e in top ==> e.0 != "" && e.1 == multiset(names)[e.0] && e.1 > 0)
            && StablyDescending(top, names)
            && (|top| < TopCount ==> forall n :: n in names && n != "" ==> n in Keys(top))
            && (forall n, e :: n in names && n != "" && n !in Keys(top) && e in top ==> e.1 >= multiset(names)[n])
            && (forall n, e :: (n in names && n != "" && n !in Keys(top) && e in top && e.1 == multiset(names)[n])
                               ==> FirstIndex(names, e.0) < FirstIndex(names, n))
  {
    var names := SearchedNames(cfg, host.search.value);
    var tally := TallyOf(names);
    assert Contributions(cfg, host).value.topRepositories == TopRepositories(tally);
    TallyOfCorrect(names);
    TopRepositoriesKeepFirstSeenOrder(tally, names);
    TopEntriesCounted(names);
    ShortTopListsAll(names);
    UnlistedNoMore(names);
    UnlistedTiesSeenLater(names);
  }

  /** Search hits whose repository URLs are `<api root>/repos/<name>` yield those
      names, in order, under the public and the enterprise API root alike. */
  lemma SearchedNamesOfRepositoryUrls(cfg: Config, response: SearchResponse, names: seq<string>)
    requires |ItemsOf(response)| == |names|
    requires forall i :: 0 <= i < |names| ==> ItemsOf(response)[i].repositoryUrl == BaseApiUrl(cfg) + "/repos/" + names[i]
    requires forall i, j :: 0 <= i < |names| ==> !OccursAt(names[i], BaseApiUrl(cfg) + "/repos/", j)
    ensures SearchedNames(cfg, response) == names
  {
    var got := SearchedNames(cfg, response);
    forall i | 0 <= i < |names| ensures got[i] == names[i] {
      RepoNameOfRepositoryUrl(BaseApiUrl(cfg), names[i]);
    }
  }

  /** The bounds are midnights: the whole start day passes, and on the end day only a
      pull request created at midnight exactly does. */
  lemma DayBounds(cfg: Config, d: Date, s: int)
    requires 0 <= s < SecondsPerDay
    ensures cfg.startDate == Some(d) && cfg.endDate.None? ==> !Skipped(Midnight(d) + s, WindowOf(cfg))
    ensures cfg.endDate == Some(d) ==> (Skipped(Midnight(d) + s, WindowOf(cfg)) <==> s > 0 || Skipped(Midnight(d), WindowOf(cfg)))
  {}

  /** Contributions in terms of the tally and the walk's counters. */
  lemma ReportOf(cfg: Config, host: Host, tally: seq<Entry>, c: Counters)
    requires !Rejected(cfg) && host.search.Fetched?
    requires TallyOf(SearchedNames(cfg, host.search.value)) == tally
    requires ReposDelta(Keys(tally), host.pulls, cfg.username, WindowOf(cfg)) == c
    ensures Contributions(cfg, host)
            == Some(Report(c.reviewed, c.validComments, c.added, c.deleted, c.added + c.deleted,
                           TopRepositories(tally), TextOf(cfg.startDate), TextOf(cfg.endDate)))
  {
    var r := Contributions(cfg, host);
    assert r.Some?;
    assert r.value.topRepositories == TopRepositories(tally);
    assert r.value.pullRequestsReviewed == c.reviewed && r.value.validComments == c.validComments;
    assert r.value.linesAdded == c.added && r.value.linesDeleted == c.deleted;
  }

  // A worked example: one repository with two pull requests, the user's own with
  // one commit of +10/-2, and another author's, reviewed by the user with an
  // 8-character body.

  const ExampleRepo := "octo/widgets"

  const ExampleOwnPull := PullRequest(5, Some("alice"), Fetched([Commit(Fetched(CommitDetail(Some(Stats(Some(10), Some(2))))))]),
                                      Fetched([]), Fetched([]))

  const ExampleReviewedPull := PullRequest(7, Some("bob"), Fetched([]),
                                           Fetched([Remark(Some("alice"), Some("nice fix"))]), Fetched([]))

  const ExampleHost := Host(Fetched(SearchResponse(Some([SearchItem(PublicApiUrl + "/repos/" + ExampleRepo)]))),
                            n => if n == ExampleRepo then Fetched([ExampleOwnPull, ExampleReviewedPull]) else Failed)

  const ExampleConfig := Config("alice", "t0ken", "", false, None, None)

  lemma ExampleTally()
    ensures TallyOf(SearchedNames(ExampleConfig, ExampleHost.search.value)) == [(ExampleRepo, 1)]
  {
    RepoNameOfRepositoryUrl(PublicApiUrl, ExampleRepo);
    var names := SearchedNames(ExampleConfig, ExampleHost.search.value);
    assert names == [ExampleRepo];
    assert names[..0] == [];
  }

  lemma SingleCommit(c: Commit, added: nat, deleted: nat)
    requires c.detail == Fetched(CommitDetail(Some(Stats(Some(added), Some(deleted)))))
    ensures CommitsDelta([c]) == Counters(0, 0, added, deleted)
  {
    assert [c][..0] == [];
  }

  lemma SingleShortReview(r: Remark, username: string)
    requires r.login == Some(username) && r.body.Some? && |r.body.value| <= ValidCommentThreshold
    ensures ReviewsDelta([r], username) == Counters(1, 0, 0, 0)
  {
    assert [r][..0] == [];
  }

  lemma ExampleOwnPullDelta()
    ensures PullDelta(ExampleOwnPull, "alice", Unbounded) == Counters(0, 0, 10, 2)
  {
    var pr := ExampleOwnPull;
    assert pr.login == Some("alice") && pr.reviews == Fetched([]) && pr.comments == Fetched([]);
    SingleCommit(pr.commits.value[0], 10, 2);
    assert pr.commits.value == [pr.commits.value[0]];
    PullDeltaOwnThenFeedback(pr, "alice", Unbounded);
    FeedbackDeltaCases(pr, "alice");
    PlusZero(Zero);
    PlusZero(Counters(0, 0, 10, 2));
  }

  lemma ShortReviewOnForeignPull(pr: PullRequest, r: Remark, username: string, w: Window)
    requires !Skipped(pr.createdAt, w) && pr.login != Some(username)
    requires pr.reviews == Fetched([r]) && pr.comments == Fetched([])
    requires r.login == Some(username) && r.body.Some? && |r.body.value| <= ValidCommentThreshold
    ensures PullDelta(pr, username, w) == Counters(1, 0, 0, 0)
  {
    SingleShortReview(r, username);
    FeedbackDeltaCases(pr, username);
    assert CommentsDelta([], username) == Zero;
    PlusZero(Counters(1, 0, 0, 0));
    assert FeedbackDelta(pr, username) == Counters(1, 0, 0, 0);
    PullDeltaOwnThenFeedback(pr, username, w);
    assert OwnDelta(pr, username) == Zero;
  }

  lemma ExampleReviewedPullDelta()
    ensures PullDelta(ExampleReviewedPull, "alice", Unbounded) == Counters(1, 0, 0, 0)
  {
    var r := Remark(Some("alice"), Some("nice fix"));
    assert ExampleReviewedPull.reviews == Fetched([r]) && ExampleReviewedPull.login == Some("bob");
    ShortReviewOnForeignPull(ExampleReviewedPull, r, "alice", Unbounded);
  }

  lemma TwoPulls(a: PullRequest, b: PullRequest, username: string, w: Window)
    ensures PullsDelta([a, b], username, w) == Zero.Plus(PullDelta(a, username, w)).Plus(PullDelta(b, username, w))
  {
    assert [a, b][..1] == [a] && [a, b][1] == b;
    assert [a][..0] == [];
    assert PullsDelta([a], username, w) == Zero.Plus(PullDelta(a, username, w));
  }

  lemma OneRepository(repo: string, pulls: string -> Fetch<seq<PullRequest>>, username: string, w: Window, prs: seq<PullRequest>)
    requires pulls(repo) == Fetched(prs)
    ensures ReposDelta([repo], pulls, username, w) == Zero.Plus(PullsDelta(prs, username, w))
  {
    assert [repo][..0] == [];
  }

  lemma ExampleListing()
    ensures ExampleHost.pulls(ExampleRepo) == Fetched([ExampleOwnPull, ExampleReviewedPull])
  {}

  lemma ExamplePulls()
    ensures PullsDelta([ExampleOwnPull, ExampleReviewedPull], "alice", Unbounded) == Counters(1, 0, 10, 2)
  {
    ExampleOwnPullDelta();
    ExampleReviewedPullDelta();
    TwoPulls(ExampleOwnPull, ExampleReviewedPull, "alice", Unbounded);
    PlusZero(Counters(0, 0, 10, 2));
  }

  lemma ExampleCounters()
    ensures ReposDelta([ExampleRepo], ExampleHost.pulls, "alice", Unbounded) == Counters(1, 0, 10, 2)
  {
    ExampleListing();
    ExamplePulls();
    OneRepository(ExampleRepo, ExampleHost.pulls, "alice", Unbounded, [ExampleOwnPull, ExampleReviewedPull]);
    PlusZero(Counters(1, 0, 10, 2));
  }

  /** Lines come from the own pull request only, the review counts and its short body
      does not, and the repository is listed with its one search hit. */
  lemma ExampleReport()
    ensures Contributions(ExampleConfig, ExampleHost) == Some(Report(1, 0, 10, 2, 12, [(ExampleRepo, 1)], None, None))
  {
    var tally := [(ExampleRepo, 1)];
    ExampleTally();
    assert Keys(tally) == [ExampleRepo];
    assert WindowOf(ExampleConfig) == Unbounded;
    ExampleCounters();
    assert TopRepositories(tally) == tally;
    ReportOf(ExampleConfig, ExampleHost, tally, Counters(1, 0, 10, 2));
  }

}
