/**
  The repository statistics shown on the landing page.

  `getRepoActivity` fetches the pull requests and the issues of the repository
  and counts them. The two fetches, their status and their JSON bodies are an
  input here (`Fetch`); the clock that stamps `lastUpdate` is the parameter
  `now`. Every failure path yields all-zero counts.
 */
module RepoActivity {
  import opened Wrappers
  import Seqs

  /** A pull-request record as the pulls endpoint returns it. `mergedAt` is
      `None` for a JSON `null` (or a missing field). */
  datatype PullRecord = PullRecord(state: string, mergedAt: Option<string>)

  /** An issue record as the issues endpoint returns it; that endpoint lists
      pull requests too, and marks them with a `pull_request` object. */
  datatype IssueRecord = IssueRecord(state: string, hasPullRequest: bool)

  /** A response body: a JSON array of records, or anything on which parsing
      or the later `.filter` call throws. */
  datatype Payload<T> = Parsed(records: seq<T>) | Malformed

  /** The outcome of one `fetch`: it threw, or it produced a response with its
      `ok` flag and body. */
  datatype Fetch<T> = Threw | Responded(ok: bool, body: Payload<T>)

  /** The four counters shown on the page, and the time stamp. */
  datatype RepoStats = RepoStats(
    openPRs: nat, mergedPRs: nat, openIssues: nat, closedIssues: nat, lastUpdate: string)

  /** JavaScript truthiness of the `merged_at` field: present and non-empty. */
  predicate MergedAtTruthy(mergedAt: Option<string>) {
    mergedAt.Some? && mergedAt.value != ""
  }

  predicate IsOpenPR(pr: PullRecord) {
    pr.state == "open"
  }

  predicate IsMergedPR(pr: PullRecord) {
    pr.state == "closed" && MergedAtTruthy(pr.mergedAt)
  }

  predicate IsOpenIssue(issue: IssueRecord) {
    issue.state == "open" && !issue.hasPullRequest
  }

  predicate IsClosedIssue(issue: IssueRecord) {
    issue.state == "closed" && !issue.hasPullRequest
  }

  predicate IsPlainIssue(issue: IssueRecord) {
    !issue.hasPullRequest
  }

  /** The statistics every failure path returns. */
  function ZeroStats(now: string): RepoStats {
    RepoStats(0, 0, 0, 0, now)
  }

  predicate AllZero(s: RepoStats) {
    s.openPRs == 0 && s.mergedPRs == 0 && s.openIssues == 0 && s.closedIssues == 0
  }

  /** Both fetches returned, both were `ok`, and both bodies parsed. */
  predicate Succeeded(prs: Fetch<PullRecord>, issues: Fetch<IssueRecord>) {
    && prs.Responded? && issues.Responded?
    && prs.ok && issues.ok
    && prs.body.Parsed? && issues.body.Parsed?
  }

  /** `getRepoActivity`, in the order the source takes its decisions: a thrown
      fetch, then a response that is not `ok`, then a body that fails to parse,
      and finally the four counts. */
  function GetRepoActivity(prs: Fetch<PullRecord>, issues: Fetch<IssueRecord>, now: string): (r: RepoStats)
    ensures r.lastUpdate == now
    ensures !Succeeded(prs, issues) ==> AllZero(r)
    ensures Succeeded(prs, issues) ==>
      && r.openPRs == |Seqs.IndicesWhere(prs.body.records, IsOpenPR)|
      && r.mergedPRs == |Seqs.IndicesWhere(prs.body.records, IsMergedPR)|
      && r.openIssues == |Seqs.IndicesWhere(issues.body.records, IsOpenIssue)|
      && r.closedIssues == |Seqs.IndicesWhere(issues.body.records, IsClosedIssue)|
    ensures Succeeded(prs, issues) ==>
      && r.openPRs + r.mergedPRs <= |prs.body.records|
      && r.openIssues + r.closedIssues <= |issues.body.records|
    ensures Succeeded(prs, issues) ==>
      && (r.openPRs == 0 <==> forall i :: 0 <= i < |prs.body.records| ==> !IsOpenPR(prs.body.records[i]))
      && (r.mergedPRs == 0 <==> forall i :: 0 <= i < |prs.body.records| ==> !IsMergedPR(prs.body.records[i]))
      && (r.openIssues == 0 <==> forall i :: 0 <= i < |issues.body.records| ==> !IsOpenIssue(issues.body.records[i]))
      && (r.closedIssues == 0 <==> forall i :: 0 <= i < |issues.body.records| ==> !IsClosedIssue(issues.body.records[i]))
  {
    if prs.Threw? || issues.Threw? then ZeroStats(now)
    else if !prs.ok || !issues.ok then ZeroStats(now)
    else if prs.body.Malformed? || issues.body.Malformed? then ZeroStats(now)
    else
      var p := prs.body.records;
      var q := issues.body.records;
      PrCountsBounded(p);
      IssueCountsBounded(q);
      Seqs.FilterLast(p, IsOpenPR);
      Seqs.FilterLast(p, IsMergedPR);
      Seqs.FilterLast(q, IsOpenIssue);
      Seqs.FilterLast(q, IsClosedIssue);
      Seqs.FilterCount(p, IsOpenPR);
      Seqs.FilterCount(p, IsMergedPR);
      Seqs.FilterCount(q, IsOpenIssue);
      Seqs.FilterCount(q, IsClosedIssue);
      RepoStats(
        |Seqs.Filter(p, IsOpenPR)|,
        |Seqs.Filter(p, IsMergedPR)|,
        |Seqs.Filter(q, IsOpenIssue)|,
        |Seqs.Filter(q, IsClosedIssue)|,
        now)
  }

  /** A pull request is never both open and merged, so the two counts together
      never exceed the number of records; closed, unmerged ones are in neither. */
  lemma {:induction false} PrCountsBounded(prs: seq<PullRecord>)
    ensures |Seqs.Filter(prs, IsOpenPR)| + |Seqs.Filter(prs, IsMergedPR)| <= |prs|
  {
    Seqs.FilterDisjoint(prs, IsOpenPR, IsMergedPR);
  }

  /** An issue is never both open and closed. */
  lemma {:induction false} IssueCountsBounded(issues: seq<IssueRecord>)
    ensures |Seqs.Filter(issues, IsOpenIssue)| + |Seqs.Filter(issues, IsClosedIssue)| <= |issues|
  {
    Seqs.FilterDisjoint(issues, IsOpenIssue, IsClosedIssue);
  }

  /** Appending a closed pull request that was never merged changes no count. */
  lemma ClosedUnmergedIgnored(prs: seq<PullRecord>, issues: Fetch<IssueRecord>, now: string, mergedAt: Option<string>)
    requires !MergedAtTruthy(mergedAt)
    ensures
      var extra := prs + [PullRecord("closed", mergedAt)];
      GetRepoActivity(Responded(true, Parsed(extra)), issues, now)
        == GetRepoActivity(Responded(true, Parsed(prs)), issues, now)
  {
    var x := PullRecord("closed", mergedAt);
    Seqs.FilterAppend(prs, [x], IsOpenPR);
    Seqs.FilterAppend(prs, [x], IsMergedPR);
    assert Seqs.Filter([x], IsOpenPR) == [] by {
      assert [x][1..] == [];
    }
    assert Seqs.Filter([x], IsMergedPR) == [] by {
      assert [x][1..] == [];
    }
  }

  /** A record of the issues endpoint that carries `pull_request` changes no
      count, whatever its state. */
  lemma PullRequestsNotCountedAsIssues(prs: Fetch<PullRecord>, issues: seq<IssueRecord>, now: string, state: string)
    ensures
      var extra := issues + [IssueRecord(state, true)];
      GetRepoActivity(prs, Responded(true, Parsed(extra)), now)
        == GetRepoActivity(prs, Responded(true, Parsed(issues)), now)
  {
    var x := IssueRecord(state, true);
    Seqs.FilterAppend(issues, [x], IsOpenIssue);
    Seqs.FilterAppend(issues, [x], IsClosedIssue);
    assert Seqs.Filter([x], IsOpenIssue) == [] by {
      assert [x][1..] == [];
    }
    assert Seqs.Filter([x], IsClosedIssue) == [] by {
      assert [x][1..] == [];
    }
  }

  /** Removing every record that carries `pull_request` from the issue list
      leaves both issue filters unchanged. */
  lemma PlainIssuesSuffice(issues: seq<IssueRecord>)
    ensures Seqs.Filter(Seqs.Filter(issues, IsPlainIssue), IsOpenIssue) == Seqs.Filter(issues, IsOpenIssue)
    ensures Seqs.Filter(Seqs.Filter(issues, IsPlainIssue), IsClosedIssue) == Seqs.Filter(issues, IsClosedIssue)
  {
    Seqs.FilterFilter(issues, IsOpenIssue, IsPlainIssue);
    Seqs.FilterFilter(issues, IsClosedIssue, IsPlainIssue);
  }

  /** The statistics the `Suspense` fallback renders while the data loads. */
  function FallbackStats(now: string): RepoStats {
    RepoStats(0, 0, 0, 0, now)
  }

  /** The loading fallback shows the same numbers as a failed fetch. */
  lemma FallbackMatchesFailure(now: string, prs: Fetch<PullRecord>, issues: Fetch<IssueRecord>)
    requires !Succeeded(prs, issues)
    ensures AllZero(FallbackStats(now))
    ensures FallbackStats(now) == GetRepoActivity(prs, issues, now)
  {
  }
}
