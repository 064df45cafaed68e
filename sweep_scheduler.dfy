/**
 * One sweep of the Status Sweeper, `runOnce`: load the accounts of the
 * window, check each of them, tally the statuses and report. A flag
 * `running` keeps two sweeps from overlapping.
 *
 * The accounts the two SQL queries select (created in the window, not
 * banned, newest first) are an input, `eligible`, or None when opening the
 * database or running the queries throws. What each account's collaborators
 * answer is `scriptAt(i)` for the i-th loaded account.
 */
module SweepScheduler {
  import opened Wrappers
  import opened MinMax
  import opened SweeperConfig
  import opened StatusResolver

  // ---------------------------------------------------------------------
  // loadAccountsForStatusCheck
  // ---------------------------------------------------------------------

  /** `truncated` and `skipped` for `loaded` accounts out of `totalEligible`. */
  function Truncation(totalEligible: int, loaded: nat): (r: (bool, nat))
    ensures r.0 <==> totalEligible > loaded
    ensures r.0 ==> r.1 == totalEligible - loaded && r.1 > 0
    ensures !r.0 ==> r.1 == 0
  {
    var truncated := totalEligible > loaded;
    (truncated, if truncated then Max(0, totalEligible - loaded) else 0)
  }

  datatype Batch = Batch(totalEligible: int, accounts: seq<Account>, truncated: bool, skipped: nat)

  /** loadAccountsForStatusCheck: the first `limit` eligible accounts, with the count of all of them. */
  function LoadAccounts(eligible: seq<Account>, limit: nat): (b: Batch)
    ensures b.totalEligible == |eligible|
    ensures |b.accounts| == Min(limit, |eligible|) && b.accounts == eligible[..|b.accounts|]
    // truncated exactly when more accounts are eligible than the limit lets through
    ensures b.truncated <==> |eligible| > limit
    // every eligible account is either loaded or counted as skipped
    ensures |b.accounts| + b.skipped == |eligible|
  {
    var accounts := eligible[..Min(limit, |eligible|)];
    var (truncated, skipped) := Truncation(|eligible|, |accounts|);
    Batch(|eligible|, accounts, truncated, skipped)
  }

  // ---------------------------------------------------------------------
  // The summary of a sweep
  // ---------------------------------------------------------------------

  /** `{ normal, expired, banned, failed }`. */
  datatype Summary = Summary(normal: nat, expired: nat, banned: nat, failed: nat)

  function Total(m: Summary): nat {
    m.normal + m.expired + m.banned + m.failed
  }

  /** `summary[item.status] += 1`: every status is one of the four keys. */
  function Bump(m: Summary, status: Status): (r: Summary)
    ensures Total(r) == Total(m) + 1
    ensures status == Normal ==> r == m.(normal := m.normal + 1)
    ensures status == Expired ==> r == m.(expired := m.expired + 1)
    ensures status == Banned ==> r == m.(banned := m.banned + 1)
    ensures status == Failed ==> r == m.(failed := m.failed + 1)
  {
    match status
    case Normal => m.(normal := m.normal + 1)
    case Expired => m.(expired := m.expired + 1)
    case Banned => m.(banned := m.banned + 1)
    case Failed => m.(failed := m.failed + 1)
  }

  /** The summary of the first `n` check results: the four counts add up to `n`. */
  function TallyFirst(results: seq<CheckResult>, n: nat): (r: Summary)
    requires n <= |results|
    ensures Total(r) == n
  {
    if n == 0 then Summary(0, 0, 0, 0)
    else Bump(TallyFirst(results, n - 1), results[n - 1].status)
  }

  /** The summary of a list of check results: the four counts add up to the number of results. */
  function Tally(results: seq<CheckResult>): (r: Summary)
    ensures Total(r) == |results|
  {
    TallyFirst(results, |results|)
  }

  /** How many of the first `n` results were refreshed: never more than `n`. */
  function RefreshedFirst(results: seq<CheckResult>, n: nat): (r: nat)
    requires n <= |results|
    ensures r <= n
  {
    if n == 0 then 0
    else RefreshedFirst(results, n - 1) + (if results[n - 1].refreshed then 1 else 0)
  }

  /** How many results were refreshed: never more than there are. */
  function RefreshedCount(results: seq<CheckResult>): (r: nat)
    ensures r <= |results|
  {
    RefreshedFirst(results, |results|)
  }

  // ---------------------------------------------------------------------
  // runOnce
  // ---------------------------------------------------------------------

  /** What the "run completed" log line reports. */
  datatype Report = Report(
    rangeDays: nat, totalEligible: int, checkedTotal: nat,
    summary: Summary, refreshedCount: nat, truncated: bool, skipped: nat)

  datatype RunOutcome =
    | Skipped             // a sweep was already running: nothing is done
    | Completed(report: Report)
    | RunFailed           // loading threw; the "run failed" log line

  /** The result of checking each account, in list order. */
  function ResultsOf(accounts: seq<Account>, nowMs: int, scriptAt: nat -> Script): (rs: seq<CheckResult>)
    ensures |rs| == |accounts|
  {
    if accounts == [] then []
    else ResultsOf(accounts[..|accounts| - 1], nowMs, scriptAt) + [CheckOf(accounts, |accounts| - 1, nowMs, scriptAt)]
  }

  /** checkSingleAccountStatus of the i-th account. */
  function CheckOf(accounts: seq<Account>, i: nat, nowMs: int, scriptAt: nat -> Script): CheckResult
    requires i < |accounts|
  {
    Resolve(accounts[i], nowMs, scriptAt(i)).result
  }

  /** One more account checked: its result follows the earlier ones. */
  lemma ResultsOfNext(accounts: seq<Account>, i: nat, nowMs: int, scriptAt: nat -> Script)
    requires i < |accounts|
    ensures ResultsOf(accounts[..i + 1], nowMs, scriptAt) == ResultsOf(accounts[..i], nowMs, scriptAt) + [CheckOf(accounts, i, nowMs, scriptAt)]
  {
    assert accounts[..i + 1][..i] == accounts[..i];
  }

  /** The i-th result is the check of the i-th account. */
  lemma {:induction false} ResultsOfAt(accounts: seq<Account>, i: nat, nowMs: int, scriptAt: nat -> Script)
    requires i < |accounts|
    ensures ResultsOf(accounts, nowMs, scriptAt)[i] == Resolve(accounts[i], nowMs, scriptAt(i)).result
  {
    if i < |accounts| - 1 {
      var init := accounts[..|accounts| - 1];
      ResultsOfAt(init, i, nowMs, scriptAt);
      assert init[i] == accounts[i];
    }
  }

  /**
   * A sweep that was not skipped, as a function of its inputs: it fails
   * exactly when loading failed, and a completed sweep reports a range of 7,
   * 15 or 30 days, at most the limit of accounts checked, counts that sum to
   * the accounts checked, no more refreshed than checked, and the
   * truncation of the load.
   */
  function Sweep(env: Env, eligible: Option<seq<Account>>, nowMs: int, scriptAt: nat -> Script): (r: RunOutcome)
    ensures eligible.None? <==> r == RunFailed
    ensures r.Completed? ==>
              && r.report.rangeDays in AllowedRangeDays
              && r.report.checkedTotal <= MaxCheckAccounts(env)
              && Total(r.report.summary) == r.report.checkedTotal
              && r.report.refreshedCount <= r.report.checkedTotal
              && (r.report.truncated <==> r.report.totalEligible > r.report.checkedTotal)
              && r.report.checkedTotal + r.report.skipped == r.report.totalEligible
  {
    match eligible
    case None => RunFailed
    case Some(rows) =>
      var batch := LoadAccounts(rows, MaxCheckAccounts(env));
      var results := ResultsOf(batch.accounts, nowMs, scriptAt);
      Completed(Report(RangeDays(env), batch.totalEligible, |batch.accounts|,
                       Tally(results), RefreshedCount(results), batch.truncated, batch.skipped))
  }

  /**
   * What the callback runOnce hands to eachWithConcurrency does with each
   * check result, in turn: count its status in the summary and, if it was
   * refreshed, in `refreshedCount`.
   */
  method TallyChecks(results: seq<CheckResult>) returns (summary: Summary, refreshedCount: nat)
    ensures summary == Tally(results)
    ensures refreshedCount == RefreshedCount(results)
  {
    // the counts of no results yet: all four are zero
    summary, refreshedCount := TallyFirst(results, 0), 0;
    var i := 0;
    while i < |results|
      invariant 0 <= i <= |results|
      invariant summary == TallyFirst(results, i)
      invariant refreshedCount == RefreshedFirst(results, i)
    {
      summary := Bump(summary, results[i].status);
      if results[i].refreshed {
        refreshedCount := refreshedCount + 1;
      }
      i := i + 1;
    }
  }

  /** The sweeper started by startTeamStatusSweeper: the state its timers share. */
  class Sweeper {
    var running: bool

    constructor ()
      ensures !running
    {
      running := false;
    }

    /**
     * runOnce. While a sweep is running another trigger does nothing; a
     * sweep that starts always clears `running` again, whether it completes
     * or fails.
     */
    method RunOnce(env: Env, eligible: Option<seq<Account>>, nowMs: int, scriptAt: nat -> Script)
      returns (outcome: RunOutcome)
      modifies this
      ensures old(running) ==> outcome == Skipped && running
      ensures !old(running) ==> outcome == Sweep(env, eligible, nowMs, scriptAt) && !running
    {
      if running {
        return Skipped;
      }
      running := true;
      if eligible.None? {
        outcome := RunFailed;
      } else {
        var batch := LoadAccounts(eligible.value, MaxCheckAccounts(env));
        var accounts := batch.accounts;
        var results := ResultsOf(accounts, nowMs, scriptAt);
        var summary, refreshedCount := TallyChecks(results);
        outcome := Completed(Report(RangeDays(env), batch.totalEligible, |accounts|,
                                    summary, refreshedCount, batch.truncated, batch.skipped));
      }
      running := false;
    }
  }
}
