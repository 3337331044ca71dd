/** The contribution walk: repositories, then their pull requests, then each pull
    request's commits, reviews and comments, feeding four counters. Each level is a
    loop method proved against a fold function that says what the level adds. */
module Walk {
  import opened Fetching
  import opened Payloads

  /** A review or comment body counts as a valid comment when it is longer than this. */
  const ValidCommentThreshold := 10

  /** `pull_requests_reviewed`, `valid_comments`, `lines_added`, `lines_deleted`
      (Python integers, so unbounded). */
  datatype Counters = Counters(reviewed: int, validComments: int, added: int, deleted: int) {

    /** No counter is negative. */
    predicate NonNegative() {
      reviewed >= 0 && validComments >= 0 && added >= 0 && deleted >= 0
    }

    /** Adds what `d` counted to these counters. */
    function Plus(d: Counters): Counters {
      Counters(reviewed + d.reviewed, validComments + d.validComments, added + d.added, deleted + d.deleted)
    }

    /** No counter is below its value in `before`. */
    predicate NoLess(before: Counters) {
      reviewed >= before.reviewed && validComments >= before.validComments
      && added >= before.added && deleted >= before.deleted
    }
  }

  const Zero := Counters(0, 0, 0, 0)

  /** The start and end bounds as timestamps, each optional. */
  datatype Window = Window(start: Option<int>, end: Option<int>)

  const Unbounded := Window(None, None)

  /** The date filter's skip condition: before a given start, or after a given end. */
  predicate Skipped(createdAt: int, w: Window) {
    (w.start.Some? && createdAt < w.start.value) || (w.end.Some? && createdAt > w.end.value)
  }

  /** `body and len(body) > 10` */
  predicate ValidBody(body: Option<string>) {
    body.Some? && body.value != "" && |body.value| > ValidCommentThreshold
  }

  // What each element adds to the counters.

  function CommitDelta(c: Commit): (d: Counters)
    ensures d.NonNegative()
  {
    match c.detail
    case Failed => Zero
    case Fetched(d) => Counters(0, 0, Additions(d), Deletions(d))
  }

  function ReviewDelta(r: Remark, username: string): (d: Counters)
    ensures d.NonNegative()
  {
    if r.login == Some(username) then Counters(1, if ValidBody(r.body) then 1 else 0, 0, 0) else Zero
  }

  function CommentDelta(c: Remark, username: string): (d: Counters)
    ensures d.NonNegative()
  {
    if c.login == Some(username) && ValidBody(c.body) then Counters(0, 1, 0, 0) else Zero
  }

  // What each list adds: the sum over its elements, in order.

  function CommitsDelta(cs: seq<Commit>): (d: Counters)
    ensures d.NonNegative()
  {
    if cs == [] then Zero else CommitsDelta(cs[..|cs| - 1]).Plus(CommitDelta(cs[|cs| - 1]))
  }

  function ReviewsDelta(rs: seq<Remark>, username: string): (d: Counters)
    ensures d.NonNegative()
  {
    if rs == [] then Zero else ReviewsDelta(rs[..|rs| - 1], username).Plus(ReviewDelta(rs[|rs| - 1], username))
  }

  function CommentsDelta(cs: seq<Remark>, username: string): (d: Counters)
    ensures d.NonNegative()
  {
    if cs == [] then Zero else CommentsDelta(cs[..|cs| - 1], username).Plus(CommentDelta(cs[|cs| - 1], username))
  }

  /** Reviews, then comments; a failed reviews fetch skips the comments too. */
  function FeedbackDelta(pr: PullRequest, username: string): (d: Counters)
    ensures d.NonNegative()
  {
    match pr.reviews
    case Failed => Zero
    case Fetched(rs) =>
      ReviewsDelta(rs, username).Plus(
        match pr.comments
        case Failed => Zero
        case Fetched(cs) => CommentsDelta(cs, username))
  }

  /** One pull request: nothing when the date filter skips it; for the user's own
      pull request its commits, unless the commit list failed, which skips the rest;
      then its reviews and comments. */
  function PullDelta(pr: PullRequest, username: string, w: Window): (d: Counters)
    ensures d.NonNegative()
  {
    if Skipped(pr.createdAt, w) then Zero
    else if pr.login == Some(username) then
      match pr.commits
      case Failed => Zero
      case Fetched(cs) => CommitsDelta(cs).Plus(FeedbackDelta(pr, username))
    else FeedbackDelta(pr, username)
  }

  function PullsDelta(prs: seq<PullRequest>, username: string, w: Window): (d: Counters)
    ensures d.NonNegative()
  {
    if prs == [] then Zero else PullsDelta(prs[..|prs| - 1], username, w).Plus(PullDelta(prs[|prs| - 1], username, w))
  }

  /** One repository: nothing when its pull-request listing failed. */
  function RepoDelta(response: Fetch<seq<PullRequest>>, username: string, w: Window): (d: Counters)
    ensures d.NonNegative()
  {
    match response
    case Failed => Zero
    case Fetched(prs) => PullsDelta(prs, username, w)
  }

  function ReposDelta(names: seq<string>, pulls: string -> Fetch<seq<PullRequest>>, username: string, w: Window): (d: Counters)
    ensures d.NonNegative()
  {
    if names == [] then Zero
    else ReposDelta(names[..|names| - 1], pulls, username, w).Plus(RepoDelta(pulls(names[|names| - 1]), username, w))
  }

  lemma PlusAssociates(a: Counters, b: Counters, c: Counters)
    ensures a.Plus(b).Plus(c) == a.Plus(b.Plus(c))
  {}

  lemma PlusZero(a: Counters)
    ensures a.Plus(Zero) == a && Zero.Plus(a) == a
  {}

  /** The user's own lines on a pull request that reaches its commits. */
  function OwnDelta(pr: PullRequest, username: string): (d: Counters)
    ensures d.NonNegative()
  {
    if pr.login == Some(username) && pr.commits.Fetched? then CommitsDelta(pr.commits.value) else Zero
  }

  /** Past the date filter and the commit list, a pull request adds the user's own
      lines and then its reviews and comments. */
  lemma PullDeltaOwnThenFeedback(pr: PullRequest, username: string, w: Window)
    requires !Skipped(pr.createdAt, w) && (pr.login == Some(username) ==> pr.commits.Fetched?)
    ensures PullDelta(pr, username, w) == OwnDelta(pr, username).Plus(FeedbackDelta(pr, username))
  {
    if pr.login != Some(username) {
      PlusZero(FeedbackDelta(pr, username));
    }
  }

  /** FeedbackDelta split along the pull-request loop's exits past the commits. */
  lemma FeedbackDeltaCases(pr: PullRequest, username: string)
    ensures pr.reviews.Failed? ==> FeedbackDelta(pr, username) == Zero
    ensures pr.reviews.Fetched? && pr.comments.Failed? ==>
              FeedbackDelta(pr, username) == ReviewsDelta(pr.reviews.value, username)
    ensures pr.reviews.Fetched? && pr.comments.Fetched? ==>
              FeedbackDelta(pr, username) == ReviewsDelta(pr.reviews.value, username).Plus(CommentsDelta(pr.comments.value, username))
  {
    if pr.reviews.Fetched? && pr.comments.Failed? {
      PlusZero(ReviewsDelta(pr.reviews.value, username));
    }
  }

  lemma PlusNeverDecreases(a: Counters, d: Counters)
    requires d.NonNegative()
    ensures a.Plus(d).NoLess(a)
  {}

  // One loop iteration each: adding the element's delta to the counters reached
  // so far gives the counters for the prefix one longer.

  lemma CommitsStep(acc: Counters, cs: seq<Commit>, i: nat, before: Counters, after: Counters)
    requires i < |cs| && before == acc.Plus(CommitsDelta(cs[..i])) && after == before.Plus(CommitDelta(cs[i]))
    ensures after == acc.Plus(CommitsDelta(cs[..i + 1]))
  {
    assert cs[..i + 1][..i] == cs[..i];
  }

  lemma ReviewsStep(acc: Counters, rs: seq<Remark>, username: string, i: nat, before: Counters, after: Counters)
    requires i < |rs| && before == acc.Plus(ReviewsDelta(rs[..i], username)) && after == before.Plus(ReviewDelta(rs[i], username))
    ensures after == acc.Plus(ReviewsDelta(rs[..i + 1], username))
  {
    assert rs[..i + 1][..i] == rs[..i];
  }

  lemma CommentsStep(acc: Counters, cs: seq<Remark>, username: string, i: nat, before: Counters, after: Counters)
    requires i < |cs| && before == acc.Plus(CommentsDelta(cs[..i], username)) && after == before.Plus(CommentDelta(cs[i], username))
    ensures after == acc.Plus(CommentsDelta(cs[..i + 1], username))
  {
    assert cs[..i + 1][..i] == cs[..i];
  }

  lemma PullsStep(acc: Counters, prs: seq<PullRequest>, username: string, w: Window, i: nat, before: Counters, after: Counters)
    requires i < |prs| && before == acc.Plus(PullsDelta(prs[..i], username, w))
    requires after == before.Plus(PullDelta(prs[i], username, w))
    ensures after == acc.Plus(PullsDelta(prs[..i + 1], username, w))
  {
    assert prs[..i + 1][..i] == prs[..i];
  }

  lemma ReposStep(acc: Counters, names: seq<string>, pulls: string -> Fetch<seq<PullRequest>>, username: string, w: Window,
                  i: nat, before: Counters, after: Counters)
    requires i < |names| && before == acc.Plus(ReposDelta(names[..i], pulls, username, w))
    requires after == before.Plus(RepoDelta(pulls(names[i]), username, w))
    ensures after == acc.Plus(ReposDelta(names[..i + 1], pulls, username, w))
  {
    assert names[..i + 1][..i] == names[..i];
  }

  // The loops.

  /** `for commit in commits`: a failed detail fetch skips that commit only. */
  method SumCommits(commits: seq<Commit>, acc: Counters) returns (acc': Counters)
    ensures acc' == acc.Plus(CommitsDelta(commits))
    ensures acc'.NoLess(acc)
  {
    acc' := acc;
    for i := 0 to |commits|
      invariant acc' == acc.Plus(CommitsDelta(commits[..i]))
    {
      ghost var before := acc';
      var detail := commits[i].detail;
      if detail.Failed? {
        CommitsStep(acc, commits, i, before, acc');
        continue;
      }
      acc' := acc'.(added := acc'.added + Additions(detail.value), deleted := acc'.deleted + Deletions(detail.value));
      CommitsStep(acc, commits, i, before, acc');
    }
    assert commits[..|commits|] == commits;
    PlusNeverDecreases(acc, CommitsDelta(commits));
  }

  /** `for review in reviews`: each review by the user is one reviewed pull request,
      and also a valid comment when its body is long enough. */
  method CountReviews(reviews: seq<Remark>, username: string, acc: Counters) returns (acc': Counters)
    ensures acc' == acc.Plus(ReviewsDelta(reviews, username))
    ensures acc'.NoLess(acc)
  {
    acc' := acc;
    for i := 0 to |reviews|
      invariant acc' == acc.Plus(ReviewsDelta(reviews[..i], username))
    {
      ghost var before := acc';
      var review := reviews[i];
      if review.login == Some(username) {
        acc' := acc'.(reviewed := acc'.reviewed + 1);
        if ValidBody(review.body) {
          acc' := acc'.(validComments := acc'.validComments + 1);
        }
      }
      ReviewsStep(acc, reviews, username, i, before, acc');
    }
    assert reviews[..|reviews|] == reviews;
    PlusNeverDecreases(acc, ReviewsDelta(reviews, username));
  }

  /** `for comment in comments`: each long enough comment by the user is a valid comment. */
  method CountComments(comments: seq<Remark>, username: string, acc: Counters) returns (acc': Counters)
    ensures acc' == acc.Plus(CommentsDelta(comments, username))
    ensures acc'.NoLess(acc)
  {
    acc' := acc;
    for i := 0 to |comments|
      invariant acc' == acc.Plus(CommentsDelta(comments[..i], username))
    {
      ghost var before := acc';
      var comment := comments[i];
      if comment.login == Some(username) {
        if ValidBody(comment.body) {
          acc' := acc'.(validComments := acc'.validComments + 1);
        }
      }
      CommentsStep(acc, comments, username, i, before, acc');
    }
    assert comments[..|comments|] == comments;
    PlusNeverDecreases(acc, CommentsDelta(comments, username));
  }

  /** The body of `for pr in pull_requests`; each `return` is one of its `continue`s. */
  method CountPull(pr: PullRequest, username: string, w: Window, acc: Counters) returns (acc': Counters)
    ensures acc' == acc.Plus(PullDelta(pr, username, w))
  {
    acc' := acc;
    if Skipped(pr.createdAt, w) {
      PlusZero(acc);
      return;
    }
    if pr.login == Some(username) {
      if pr.commits.Failed? {
        PlusZero(acc);
        return;
      }
      acc' := SumCommits(pr.commits.value, acc');
    }
    ghost var own := OwnDelta(pr, username);
    assert acc' == acc.Plus(own) by {
      if pr.login != Some(username) { PlusZero(acc); }
    }
    PullDeltaOwnThenFeedback(pr, username, w);
    FeedbackDeltaCases(pr, username);
    if pr.reviews.Failed? {
      PlusZero(own);
      return;
    }
    ghost var reviews := ReviewsDelta(pr.reviews.value, username);
    acc' := CountReviews(pr.reviews.value, username, acc');
    PlusAssociates(acc, own, reviews);
    if pr.comments.Failed? {
      return;
    }
    ghost var comments := CommentsDelta(pr.comments.value, username);
    acc' := CountComments(pr.comments.value, username, acc');
    PlusAssociates(acc, own.Plus(reviews), comments);
    PlusAssociates(own, reviews, comments);
  }

  /** `for pr in pull_requests`. */
  method WalkPulls(prs: seq<PullRequest>, username: string, w: Window, acc: Counters) returns (acc': Counters)
    ensures acc' == acc.Plus(PullsDelta(prs, username, w))
    ensures acc'.NoLess(acc)
  {
    acc' := acc;
    for i := 0 to |prs|
      invariant acc' == acc.Plus(PullsDelta(prs[..i], username, w))
    {
      ghost var before := acc';
      acc' := CountPull(prs[i], username, w, acc');
      PullsStep(acc, prs, username, w, i, before, acc');
    }
    assert prs[..|prs|] == prs;
    PlusNeverDecreases(acc, PullsDelta(prs, username, w));
  }

  /** `for repo_full_name in repo_contributions.keys()`: a failed pull-request
      listing skips that repository only. */
  method WalkRepositories(names: seq<string>, pulls: string -> Fetch<seq<PullRequest>>, username: string, w: Window, acc: Counters)
    returns (acc': Counters)
    ensures acc' == acc.Plus(ReposDelta(names, pulls, username, w))
    ensures acc'.NoLess(acc)
  {
    acc' := acc;
    for i := 0 to |names|
      invariant acc' == acc.Plus(ReposDelta(names[..i], pulls, username, w))
    {
      ghost var before := acc';
      var response := pulls(names[i]);
      if response.Failed? {
        ReposStep(acc, names, pulls, username, w, i, before, acc');
        continue;
      }
      acc' := WalkPulls(response.value, username, w, acc');
      ReposStep(acc, names, pulls, username, w, i, before, acc');
    }
    assert names[..|names|] == names;
    PlusNeverDecreases(acc, ReposDelta(names, pulls, username, w));
  }

  // What the counters mean.

  /** The remarks written by `username`, in order. */
  function Authored(rs: seq<Remark>, username: string): seq<Remark> {
    if rs == [] then []
    else Authored(rs[..|rs| - 1], username) + (if rs[|rs| - 1].login == Some(username) then [rs[|rs| - 1]] else [])
  }

  /** The remarks whose body is long enough to be a valid comment, in order. */
  function LongBodied(rs: seq<Remark>): seq<Remark> {
    if rs == [] then [] else LongBodied(rs[..|rs| - 1]) + (if ValidBody(rs[|rs| - 1].body) then [rs[|rs| - 1]] else [])
  }

  lemma {:induction false} LongBodiedAppend(rs: seq<Remark>, r: Remark)
    ensures LongBodied(rs + [r]) == LongBodied(rs) + LongBodied([r])
  {
    assert (rs + [r])[..|rs + [r]| - 1] == rs;
    assert [r][..0] == [];
  }

  /** A body of at most 10 characters is never a valid comment, a longer one always is,
      and a missing body never is. */
  lemma ValidBodyThreshold(body: string)
    ensures |body| <= ValidCommentThreshold ==> !ValidBody(Some(body))
    ensures |body| > ValidCommentThreshold ==> ValidBody(Some(body))
    ensures !ValidBody(None)
  {}

  /** Over a review list: one reviewed pull request per review by the user, one valid
      comment per such review with a long enough body, and no lines. */
  lemma {:induction false} ReviewsCounted(rs: seq<Remark>, username: string)
    ensures ReviewsDelta(rs, username)
            == Counters(|Authored(rs, username)|, |LongBodied(Authored(rs, username))|, 0, 0)
  {
    if rs != [] {
      var p, r := rs[..|rs| - 1], rs[|rs| - 1];
      ReviewsCounted(p, username);
      var a := Authored(p, username);
      if r.login == Some(username) {
        assert Authored(rs, username) == a + [r];
        LongBodiedAppend(a, r);
        assert LongBodied([r]) == (if ValidBody(r.body) then [r] else []) by {
          assert [r][..0] == [];
        }
      } else {
        assert Authored(rs, username) == a + [] == a;
      }
    }
  }

  /** Over a comment list: one valid comment per long enough comment by the user, and
      nothing else; comments never count as reviewed pull requests. */
  lemma {:induction false} CommentsCounted(cs: seq<Remark>, username: string)
    ensures CommentsDelta(cs, username) == Counters(0, |LongBodied(Authored(cs, username))|, 0, 0)
  {
    if cs != [] {
      var p, c := cs[..|cs| - 1], cs[|cs| - 1];
      CommentsCounted(p, username);
      var a := Authored(p, username);
      if c.login == Some(username) {
        assert Authored(cs, username) == a + [c];
        LongBodiedAppend(a, c);
        assert LongBodied([c]) == (if ValidBody(c.body) then [c] else []) by {
          assert [c][..0] == [];
        }
      } else {
        assert Authored(cs, username) == a + [] == a;
      }
    }
  }

  /** Commits add lines and nothing else. */
  lemma {:induction false} CommitsOnlyLines(cs: seq<Commit>)
    ensures CommitsDelta(cs).reviewed == 0 && CommitsDelta(cs).validComments == 0
  {
    if cs != [] {
      CommitsOnlyLines(cs[..|cs| - 1]);
    }
  }

  /** Reviews and comments add no lines. */
  lemma FeedbackAddsNoLines(pr: PullRequest, username: string)
    ensures FeedbackDelta(pr, username).added == 0 && FeedbackDelta(pr, username).deleted == 0
  {
    if pr.reviews.Fetched? {
      ReviewsCounted(pr.reviews.value, username);
      if pr.comments.Fetched? {
        CommentsCounted(pr.comments.value, username);
      }
    }
  }

  /** A pull request adds lines exactly when it passes the date filter, was opened by
      the user and its commit list was fetched; then it adds its commits' lines. */
  lemma LinesOnlyFromOwnPulls(pr: PullRequest, username: string, w: Window)
    ensures !Skipped(pr.createdAt, w) && pr.login == Some(username) && pr.commits.Fetched? ==>
              PullDelta(pr, username, w).added == CommitsDelta(pr.commits.value).added
              && PullDelta(pr, username, w).deleted == CommitsDelta(pr.commits.value).deleted
    ensures Skipped(pr.createdAt, w) || pr.login != Some(username) || pr.commits.Failed? ==>
              PullDelta(pr, username, w).added == 0 && PullDelta(pr, username, w).deleted == 0
  {
    FeedbackAddsNoLines(pr, username);
  }

  /** A pull request's reviewed count is the number of the user's reviews on it when
      the walk reaches them, and zero otherwise; commits and comments never add to it. */
  lemma ReviewedOnlyFromReviews(pr: PullRequest, username: string, w: Window)
    ensures !Skipped(pr.createdAt, w) && (pr.login == Some(username) ==> pr.commits.Fetched?) && pr.reviews.Fetched? ==>
              PullDelta(pr, username, w).reviewed == |Authored(pr.reviews.value, username)|
    ensures Skipped(pr.createdAt, w) || (pr.login == Some(username) && pr.commits.Failed?) || pr.reviews.Failed? ==>
              PullDelta(pr, username, w).reviewed == 0
  {
    if pr.reviews.Fetched? {
      ReviewsCounted(pr.reviews.value, username);
      if pr.comments.Fetched? {
        CommentsCounted(pr.comments.value, username);
      }
    }
    if pr.commits.Fetched? {
      CommitsOnlyLines(pr.commits.value);
    }
  }

  /** A commit detail without `stats` adds no lines. */
  lemma MissingStatsAddZero(d: CommitDetail)
    requires d.stats.None?
    ensures CommitDelta(Commit(Fetched(d))) == Zero
  {}

  // The date filter.

  /** The pull requests that pass the date filter, in order. */
  function Passing(prs: seq<PullRequest>, w: Window): seq<PullRequest> {
    if prs == [] then []
    else Passing(prs[..|prs| - 1], w) + (if Skipped(prs[|prs| - 1].createdAt, w) then [] else [prs[|prs| - 1]])
  }

  /** Without bounds nothing is skipped. */
  lemma {:induction false} UnboundedPassesAll(prs: seq<PullRequest>)
    ensures Passing(prs, Unbounded) == prs
  {
    if prs != [] {
      UnboundedPassesAll(prs[..|prs| - 1]);
    }
  }

  /** The date filter only selects pull requests: walking a listing under a window is
      walking, without bounds, the pull requests that pass it. */
  lemma {:induction false} DateFilterIsSelection(prs: seq<PullRequest>, username: string, w: Window)
    ensures PullsDelta(prs, username, w) == PullsDelta(Passing(prs, w), username, Unbounded)
  {
    if prs != [] {
      var p, pr := prs[..|prs| - 1], prs[|prs| - 1];
      DateFilterIsSelection(p, username, w);
      if Skipped(pr.createdAt, w) {
        assert Passing(prs, w) == Passing(p, w) + [] == Passing(p, w);
        PlusZero(PullsDelta(p, username, w));
      } else {
        var q := Passing(p, w) + [pr];
        assert Passing(prs, w) == q;
        assert q[..|q| - 1] == Passing(p, w);
        assert PullDelta(pr, username, w) == PullDelta(pr, username, Unbounded);
      }
    }
  }

  // Failure scopes.

  lemma {:induction false} CommitsDeltaConcat(a: seq<Commit>, b: seq<Commit>)
    ensures CommitsDelta(a + b) == CommitsDelta(a).Plus(CommitsDelta(b))
  {
    if b == [] {
      assert a + b == a;
      PlusZero(CommitsDelta(a));
    } else {
      var p := b[..|b| - 1];
      assert (a + b)[..|a + b| - 1] == a + p;
      CommitsDeltaConcat(a, p);
      PlusAssociates(CommitsDelta(a), CommitsDelta(p), CommitDelta(b[|b| - 1]));
    }
  }

  /** A failed commit-detail fetch skips that commit only. */
  lemma FailedCommitSkipped(cs: seq<Commit>, i: nat)
    requires i < |cs| && cs[i].detail.Failed?
    ensures CommitsDelta(cs) == CommitsDelta(cs[..i] + cs[i + 1..])
  {
    assert cs == cs[..i] + [cs[i]] + cs[i + 1..];
    CommitsDeltaConcat(cs[..i] + [cs[i]], cs[i + 1..]);
    CommitsDeltaConcat(cs[..i], [cs[i]]);
    CommitsDeltaConcat(cs[..i], cs[i + 1..]);
    assert CommitsDelta([cs[i]]) == Zero.Plus(Zero) by {
      assert [cs[i]][..0] == [];
    }
    PlusZero(CommitsDelta(cs[..i]));
  }

  /** A failed commit-list fetch on the user's own pull request skips the whole pull
      request, its reviews and comments included. */
  lemma FailedCommitListSkipsPull(pr: PullRequest, username: string, w: Window)
    requires pr.login == Some(username) && pr.commits.Failed?
    ensures PullDelta(pr, username, w) == Zero
  {}

  lemma {:induction false} ReposDeltaConcat(a: seq<string>, b: seq<string>, pulls: string -> Fetch<seq<PullRequest>>,
                                            username: string, w: Window)
    ensures ReposDelta(a + b, pulls, username, w) == ReposDelta(a, pulls, username, w).Plus(ReposDelta(b, pulls, username, w))
  {
    if b == [] {
      assert a + b == a;
      PlusZero(ReposDelta(a, pulls, username, w));
    } else {
      var p := b[..|b| - 1];
      assert (a + b)[..|a + b| - 1] == a + p;
      ReposDeltaConcat(a, p, pulls, username, w);
      PlusAssociates(ReposDelta(a, pulls, username, w), ReposDelta(p, pulls, username, w),
                     RepoDelta(pulls(b[|b| - 1]), username, w));
    }
  }

  /** A failed pull-request listing skips that repository only. */
  lemma FailedRepoSkipped(names: seq<string>, pulls: string -> Fetch<seq<PullRequest>>, username: string, w: Window, i: nat)
    requires i < |names| && pulls(names[i]).Failed?
    ensures ReposDelta(names, pulls, username, w) == ReposDelta(names[..i] + names[i + 1..], pulls, username, w)
  {
    var front, back := names[..i], names[i + 1..];
    var one := [names[i]];
    assert names == front + one + back;
    ReposDeltaConcat(front + one, back, pulls, username, w);
    ReposDeltaConcat(front, one, pulls, username, w);
    ReposDeltaConcat(front, back, pulls, username, w);
    var f := ReposDelta(front, pulls, username, w);
    assert ReposDelta(one, pulls, username, w) == Zero by {
      assert one[..0] == [];
      assert ReposDelta(one, pulls, username, w) == ReposDelta([], pulls, username, w).Plus(RepoDelta(pulls(names[i]), username, w));
    }
    PlusZero(f);
  }

}
