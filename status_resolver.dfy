/**
 * The Account Status Resolver, `checkSingleAccountStatus`: a first-match
 * cascade over one account (ban flag, date expiry, probe, one refresh, one
 * re-probe) that ends in exactly one status.
 *
 * The remote probe, the token endpoint and the faults of the store are
 * inputs (`Script`): what each of them would answer if called. `Resolve`
 * is the cascade as a function — its result and the calls it makes, in
 * order; `Writes` is what those calls leave in the store — and the method
 * `CheckSingleAccountStatus` runs it against a `Store`.
 */
module StatusResolver {
  import opened Wrappers
  import opened Text
  import ExpiryParser
  import opened AccountStore
  import opened RefreshClient

  datatype Status = Normal | Expired | Banned | Failed

  /** An account as loaded for the check. */
  datatype Account = Account(
    id: int,
    email: string,
    token: string,
    refreshToken: Option<string>,
    chatgptAccountId: string,
    oaiDeviceId: string,
    expireAt: Option<string>,
    isBanned: bool,
    createdAt: string)

  datatype CheckResult = CheckResult(
    id: int, email: string, createdAt: string, expireAt: Option<string>,
    status: Status, refreshed: bool, reason: Option<string>)

  /** How a probe of the remote service ends: success, or an error with its message and HTTP status (0 if none). */
  datatype ProbeOutcome = ProbeOk | ProbeErr(message: string, status: int)

  /**
   * What each collaborator answers if it is called during one check. How a
   * ban mark fares is not part of it: its failure is only logged, so it
   * cannot change the result, and it is given to the method alone.
   */
  datatype Script = Script(
    firstProbe: ProbeOutcome,
    refreshReply: TokenReply,
    persistFault: WriteFault,
    reprobe: ProbeOutcome)

  /** The calls the resolver makes to its collaborators. */
  datatype Call =
    | Probe(token: string, storedRefresh: Option<string>)
    | Refresh(refreshToken: string)
    | UpdateTokens(id: int, tokens: Tokens)
    | MarkBan(id: int)

  /** The part of a result the cascade decides. */
  datatype Verdict = Verdict(status: Status, refreshed: bool, reason: Option<string>)

  /** A verdict with the calls made to reach it. */
  datatype Outcome = Outcome(verdict: Verdict, calls: seq<Call>)

  datatype Resolution = Resolution(result: CheckResult, calls: seq<Call>)

  const ExpiredByDateReason: string := "expireAt 已过期"
  const NoRefreshTokenReason: string := "Token 已过期或无效（未配置 refresh token）"
  const RefreshFailedReason: string := "Token 已过期，refresh token 刷新失败"
  const RefreshedReason: string := "Token 已过期，已使用 refresh token 自动刷新"
  const StillInvalidReason: string := "Token 已过期，已尝试刷新但仍无效"
  const RecheckFailedReason: string := "Token 已过期，已刷新但校验失败"
  const CheckFailedReason: string := "检查失败"
  const DeactivatedMarker: string := "account_deactivated"
  const AutoBannedMarker: string := "已自动标记为封号"

  /** The upstream signal that the account was deactivated. */
  predicate IsDeactivation(message: string) {
    Contains(message, DeactivatedMarker) || Contains(message, AutoBannedMarker)
  }

  /** `message || null`. */
  function OrNull(message: string): Option<string> {
    if message != [] then Some(message) else None
  }

  function RefreshFailure(message: string): string {
    if message != [] then RefreshFailedReason + "：" + message else RefreshFailedReason
  }

  datatype Kind = ProbeCall | RefreshCall | UpdateCall | BanCall

  function KindOf(c: Call): Kind {
    match c
    case Probe(_, _) => ProbeCall
    case Refresh(_) => RefreshCall
    case UpdateTokens(_, _) => UpdateCall
    case MarkBan(_) => BanCall
  }

  /** How many of `calls` are of kind `k`. */
  function Count(calls: seq<Call>, k: Kind): nat {
    if calls == [] then 0
    else Count(calls[..|calls| - 1], k) + (if KindOf(calls[|calls| - 1]) == k then 1 else 0)
  }

  /** A call that writes is about account `id`. */
  predicate Concerns(c: Call, id: int) {
    (c.UpdateTokens? || c.MarkBan?) ==> c.id == id
  }

  /** Every call that writes is about account `id`. */
  predicate CallsFor(calls: seq<Call>, id: int) {
    forall j :: 0 <= j < |calls| ==> Concerns(calls[j], id)
  }

  /** `calls` followed by `c`, with the counts that appending one call changes. */
  function Then(calls: seq<Call>, c: Call): (r: seq<Call>)
    ensures r == calls + [c]
    ensures forall k :: Count(r, k) == Count(calls, k) + (if KindOf(c) == k then 1 else 0)
    ensures forall id :: CallsFor(r, id) <==> CallsFor(calls, id) && Concerns(c, id)
  {
    var r := calls + [c];
    assert r[..|r| - 1] == calls;
    forall id ensures CallsFor(r, id) <==> CallsFor(calls, id) && Concerns(c, id) {
      assert forall j :: 0 <= j < |calls| ==> r[j] == calls[j];
      assert r[|calls|] == c;
    }
    r
  }

  /** What one call leaves in the store: persistAccountTokens writes only with an access token; a ban mark always tries. */
  function CallEffect(c: Call, persistFault: WriteFault, banFault: WriteFault): (ws: seq<Write>)
    ensures |ws| <= 1
    ensures ws != [] ==> (c.UpdateTokens? || c.MarkBan?) && ws[0].id == c.id
  {
    match c
    case Probe(_, _) => []
    case Refresh(_) => []
    case UpdateTokens(id, tokens) =>
      if tokens.accessToken == [] then []
      else Effect(TokenWrite(id, tokens.accessToken, NextRefreshToken(tokens)), persistFault)
    case MarkBan(id) => Effect(BanWrite(id), banFault)
  }

  /** The writes that `calls` leave in the store, in order. */
  function Writes(calls: seq<Call>, persistFault: WriteFault, banFault: WriteFault): seq<Write> {
    if calls == [] then []
    else Writes(calls[..|calls| - 1], persistFault, banFault) + CallEffect(calls[|calls| - 1], persistFault, banFault)
  }

  lemma WritesThen(calls: seq<Call>, c: Call, persistFault: WriteFault, banFault: WriteFault)
    ensures Writes(calls + [c], persistFault, banFault) == Writes(calls, persistFault, banFault) + CallEffect(c, persistFault, banFault)
  {
    assert (calls + [c])[..|calls|] == calls;
  }

  /** Calls about one account write only that account's row. */
  lemma {:induction false} WritesFor(calls: seq<Call>, id: int, persistFault: WriteFault, banFault: WriteFault)
    requires CallsFor(calls, id)
    ensures forall j :: 0 <= j < |Writes(calls, persistFault, banFault)| ==> Writes(calls, persistFault, banFault)[j].id == id
    decreases |calls|
  {
    if calls != [] {
      var init := calls[..|calls| - 1];
      assert CallsFor(init, id) by {
        forall j | 0 <= j < |init| ensures Concerns(init[j], id) {
          assert init[j] == calls[j];
        }
      }
      WritesFor(init, id, persistFault, banFault);
      var last := calls[|calls| - 1];
      assert CallEffect(last, persistFault, banFault) != [] ==> last.UpdateTokens? || last.MarkBan?;
    }
  }

  /**
   * The bounds every outcome keeps: at most two probes, one refresh, one
   * token write and one ban mark; `refreshed` exactly when there was a
   * re-probe, which only follows a refresh and a token write; a ban mark
   * exactly when the verdict is a ban.
   */
  ghost predicate CallBounds(o: Outcome) {
    && Count(o.calls, ProbeCall) <= 2 && Count(o.calls, RefreshCall) <= 1
    && Count(o.calls, UpdateCall) <= 1 && Count(o.calls, BanCall) <= 1
    && (o.verdict.refreshed <==> Count(o.calls, ProbeCall) == 2)
    && (Count(o.calls, ProbeCall) == 2 ==> Count(o.calls, RefreshCall) == 1 && Count(o.calls, UpdateCall) == 1)
    && (Count(o.calls, BanCall) == 1 <==> o.verdict.status == Banned)
  }

  /** Every expired or failed verdict carries a reason. */
  predicate Explained(v: Verdict) {
    v.status == Expired || v.status == Failed ==> v.reason.Some?
  }

  /** The credentials of the re-probe: the persisted ones where present, else the account's own. */
  function NextCredentials(token: string, refreshToken: Option<string>, persisted: StoredTokens): (p: (string, Option<string>))
    ensures p.0 == (if persisted.accessToken != [] then persisted.accessToken else token)
    ensures p.1 == (if persisted.refreshToken.Some? && persisted.refreshToken.value != [] then persisted.refreshToken else refreshToken)
  {
    (if persisted.accessToken != [] then persisted.accessToken else token,
     if persisted.refreshToken.Some? && persisted.refreshToken.value != [] then persisted.refreshToken else refreshToken)
  }

  /** The re-probe after a refresh, with the account's new credentials, and its classification: there is no second refresh. */
  function Recheck(id: int, reprobe: ProbeOutcome, creds: (string, Option<string>), before: seq<Call>): (o: Outcome)
    requires CallsFor(before, id)
    ensures |o.calls| > |before| && o.calls[..|before|] == before && o.calls[|before|] == Probe(creds.0, creds.1)
    ensures o.verdict.refreshed && Explained(o.verdict) && CallsFor(o.calls, id)
    ensures Count(o.calls, ProbeCall) == Count(before, ProbeCall) + 1
    ensures Count(o.calls, RefreshCall) == Count(before, RefreshCall)
    ensures Count(o.calls, UpdateCall) == Count(before, UpdateCall)
    ensures Count(o.calls, BanCall) == Count(before, BanCall) + (if o.verdict.status == Banned then 1 else 0)
    // the re-probe succeeds: normal again, with the refresh as the reason
    ensures reprobe.ProbeOk? ==> o.verdict == Verdict(Normal, true, Some(RefreshedReason))
    // a deactivation, recognised before the status code: banned, and the ban mark is the last call
    ensures reprobe.ProbeErr? && IsDeactivation(reprobe.message) ==>
              o.verdict == Verdict(Banned, true, OrNull(reprobe.message))
              && o.calls == before + [Probe(creds.0, creds.1), MarkBan(id)]
    ensures !(reprobe.ProbeErr? && IsDeactivation(reprobe.message)) ==> o.calls == before + [Probe(creds.0, creds.1)]
    // still unauthorised: expired, with the error's message or the fallback
    ensures reprobe.ProbeErr? && !IsDeactivation(reprobe.message) && reprobe.status == 401 ==>
              o.verdict == Verdict(Expired, true, Some(OrElse(reprobe.message, StillInvalidReason)))
    // any other error: failed, with the error's message or the fallback
    ensures reprobe.ProbeErr? && !IsDeactivation(reprobe.message) && reprobe.status != 401 ==>
              o.verdict == Verdict(Failed, true, Some(OrElse(reprobe.message, RecheckFailedReason)))
  {
    var calls := Then(before, Probe(creds.0, creds.1));
    assert calls + [MarkBan(id)] == before + [Probe(creds.0, creds.1), MarkBan(id)];
    match reprobe
    case ProbeOk =>
      Outcome(Verdict(Normal, true, Some(RefreshedReason)), calls)
    case ProbeErr(msg, status) =>
      if IsDeactivation(msg) then
        Outcome(Verdict(Banned, true, OrNull(msg)), Then(calls, MarkBan(id)))
      else if status == 401 then
        Outcome(Verdict(Expired, true, Some(OrElse(msg, StillInvalidReason))), calls)
      else
        Outcome(Verdict(Failed, true, Some(OrElse(msg, RecheckFailedReason))), calls)
  }

  /**
   * The credentials of the re-probe once `tokens` are persisted:
   * persistAccountTokens returns null when it had nothing to write, and
   * then the account's own are used.
   */
  function PersistedCredentials(token: string, refreshToken: Option<string>, tokens: Tokens): (string, Option<string>) {
    if tokens.accessToken == [] then (token, refreshToken)
    else NextCredentials(token, refreshToken, StoredTokens(tokens.accessToken, NextRefreshToken(tokens)))
  }

  /** Tokens came back from the exchange: persist them, then re-probe unless persisting reported an error. */
  function Persist(id: int, token: string, refreshToken: Option<string>, s: Script, tokens: Tokens,
                   calls: seq<Call>): (o: Outcome)
    requires |calls| == 2 && calls[0] == Probe(token, refreshToken) && CallsFor(calls, id)
    requires Count(calls, ProbeCall) == 1 && Count(calls, RefreshCall) == 1
    requires Count(calls, UpdateCall) == 0 && Count(calls, BanCall) == 0
    ensures o.calls != [] && o.calls[0] == Probe(token, refreshToken)
    ensures CallBounds(o) && Explained(o.verdict) && CallsFor(o.calls, id)
    // the token write reports an error: expired and not refreshed, with the error, and no re-probe
    ensures tokens.accessToken != [] && FaultError(s.persistFault).Some? ==>
              o == Outcome(Verdict(Expired, false, Some(RefreshFailure(s.persistFault.message))),
                           calls + [UpdateTokens(id, tokens)])
  {
    var calls' := Then(calls, UpdateTokens(id, tokens));
    if tokens.accessToken != [] && FaultError(s.persistFault).Some? then
      Outcome(Verdict(Expired, false, Some(RefreshFailure(s.persistFault.message))), calls')
    else
      var o := Recheck(id, s.reprobe, PersistedCredentials(token, refreshToken, tokens), calls');
      assert o.calls[0] == o.calls[..|calls'|][0];
      o
  }

  /** What follows the token exchange: on failure the check ends as expired, otherwise the tokens are persisted. */
  function AfterExchange(id: int, token: string, refreshToken: Option<string>, s: Script, exchanged: RefreshOutcome,
                         calls: seq<Call>): (o: Outcome)
    requires |calls| == 2 && calls[0] == Probe(token, refreshToken) && CallsFor(calls, id)
    requires Count(calls, ProbeCall) == 1 && Count(calls, RefreshCall) == 1
    requires Count(calls, UpdateCall) == 0 && Count(calls, BanCall) == 0
    ensures o.calls != [] && o.calls[0] == Probe(token, refreshToken)
    ensures CallBounds(o) && Explained(o.verdict) && CallsFor(o.calls, id)
    // a failed exchange: expired and not refreshed, with the refresh error, and no further call
    ensures exchanged.RefreshFailed? ==>
              o == Outcome(Verdict(Expired, false, Some(RefreshFailure(exchanged.message))), calls)
  {
    match exchanged
    case RefreshFailed(m, _) => Outcome(Verdict(Expired, false, Some(RefreshFailure(m))), calls)
    case Refreshed(tokens) => Persist(id, token, refreshToken, s, tokens, calls)
  }

  /**
   * The first probe answered 401: refresh once with the trimmed stored
   * refresh token, persist, re-probe once. The refresh client trims the
   * token again, which changes nothing (`ExchangeTrimmed`), so the request
   * is made with `stored` as it is.
   */
  function Unauthorized(id: int, token: string, refreshToken: Option<string>, stored: string, s: Script, msg: string): (o: Outcome)
    ensures o.calls != [] && o.calls[0] == Probe(token, refreshToken)
    ensures CallBounds(o) && Explained(o.verdict) && CallsFor(o.calls, id)
  {
    var probe := Then([], Probe(token, refreshToken));
    if stored == [] then
      Outcome(Verdict(Expired, false, Some(OrElse(msg, NoRefreshTokenReason))), probe)
    else
      AfterExchange(id, token, refreshToken, s, Request(stored, s.refreshReply), Then(probe, Refresh(stored)))
  }

  /**
   * Everything from the first probe on; it depends on the account only
   * through its id and credentials. `stored` is the account's refresh token
   * trimmed, empty when there is none (`StoredRefreshToken`).
   */
  function Cascade(id: int, token: string, refreshToken: Option<string>, stored: string, s: Script): (o: Outcome)
    ensures s.firstProbe.ProbeOk? ==> o == Outcome(Verdict(Normal, false, None), [Probe(token, refreshToken)])
    // a deactivation is recognised before the status code is looked at
    ensures s.firstProbe.ProbeErr? && IsDeactivation(s.firstProbe.message) ==>
              o == Outcome(Verdict(Banned, false, Some(s.firstProbe.message)), [Probe(token, refreshToken), MarkBan(id)])
    // a 401 goes on to the refresh
    ensures s.firstProbe.ProbeErr? && !IsDeactivation(s.firstProbe.message) && s.firstProbe.status == 401 ==>
              o == Unauthorized(id, token, refreshToken, stored, s, s.firstProbe.message)
    // any other error fails the check, with the error's message or the fallback
    ensures s.firstProbe.ProbeErr? && !IsDeactivation(s.firstProbe.message) && s.firstProbe.status != 401 ==>
              o == Outcome(Verdict(Failed, false, Some(OrElse(s.firstProbe.message, CheckFailedReason))),
                           [Probe(token, refreshToken)])
  {
    var probe := Then([], Probe(token, refreshToken));
    match s.firstProbe
    case ProbeOk => Outcome(Verdict(Normal, false, None), probe)
    case ProbeErr(msg, status) =>
      if IsDeactivation(msg) then
        Outcome(Verdict(Banned, false, OrNull(msg)), Then(probe, MarkBan(id)))
      else if status == 401 then Unauthorized(id, token, refreshToken, stored, s, msg)
      else Outcome(Verdict(Failed, false, Some(OrElse(msg, CheckFailedReason))), probe)
  }

  /** Every cascade opens with the first probe, keeps the call bounds, explains its verdict and writes only its own account. */
  lemma CascadeBounds(id: int, token: string, refreshToken: Option<string>, stored: string, s: Script)
    ensures var o := Cascade(id, token, refreshToken, stored, s);
            && o.calls != [] && o.calls[0] == Probe(token, refreshToken)
            && CallBounds(o) && Explained(o.verdict) && CallsFor(o.calls, id)
  {
    var o := Cascade(id, token, refreshToken, stored, s);
    assert CallsFor([], id);
    var probe := Then([], Probe(token, refreshToken));
    if s.firstProbe.ProbeErr? && !IsDeactivation(s.firstProbe.message) && s.firstProbe.status == 401 {
      assert o == Unauthorized(id, token, refreshToken, stored, s, s.firstProbe.message);
    } else if s.firstProbe.ProbeErr? && IsDeactivation(s.firstProbe.message) {
      assert o.calls == Then(probe, MarkBan(id)) && CallsFor(probe, id);
    } else {
      assert o.calls == probe && CallsFor(probe, id);
    }
  }

  function ResultOf(a: Account, v: Verdict): (r: CheckResult)
    ensures r.id == a.id && r.email == a.email && r.createdAt == a.createdAt
    ensures r.expireAt == (if a.expireAt == Some([]) then None else a.expireAt)
    ensures r.status == v.status && r.refreshed == v.refreshed && r.reason == v.reason
  {
    CheckResult(a.id, a.email, a.createdAt, if a.expireAt == Some([]) then None else a.expireAt,
                v.status, v.refreshed, v.reason)
  }

  /** `String(account.refresh_token || '').trim()`. */
  function StoredRefreshToken(a: Account): string {
    Trim(a.refreshToken.GetOr(""))
  }

  /** The account gets as far as the first probe: it is not flagged and its expiry has not passed. */
  predicate Probed(a: Account, nowMs: int) {
    && !a.isBanned
    && (ExpiryParser.ParseExpireAt(a.expireAt).None? || ExpiryParser.ParseExpireAt(a.expireAt).value >= nowMs)
  }

  /** checkSingleAccountStatus as a function of the account, the time and the collaborators' answers. */
  function Resolve(a: Account, nowMs: int, s: Script): (r: Resolution)
    // the ban flag: banned, no reason, no call at all
    ensures a.isBanned ==> r == Resolution(ResultOf(a, Verdict(Banned, false, None)), [])
    // a parsable expiry strictly in the past: expired, no call at all
    ensures !a.isBanned && !Probed(a, nowMs) ==>
              r == Resolution(ResultOf(a, Verdict(Expired, false, Some(ExpiredByDateReason))), [])
    // otherwise the cascade, run on the account's stored credentials
    ensures Probed(a, nowMs) ==>
              var o := Cascade(a.id, a.token, a.refreshToken, StoredRefreshToken(a), s);
              r == Resolution(ResultOf(a, o.verdict), o.calls)
  {
    if a.isBanned then Resolution(ResultOf(a, Verdict(Banned, false, None)), [])
    else
      var expireAtMs := ExpiryParser.ParseExpireAt(a.expireAt);
      if expireAtMs.Some? && expireAtMs.value < nowMs then
        Resolution(ResultOf(a, Verdict(Expired, false, Some(ExpiredByDateReason))), [])
      else
        var o := Cascade(a.id, a.token, a.refreshToken, StoredRefreshToken(a), s);
        Resolution(ResultOf(a, o.verdict), o.calls)
  }

  /** The bounds of a whole check, including the two early exits. */
  lemma ResolveBounds(a: Account, nowMs: int, s: Script, banFault: WriteFault)
    ensures var r := Resolve(a, nowMs, s);
            && Count(r.calls, ProbeCall) <= 2 && Count(r.calls, RefreshCall) <= 1
            && Count(r.calls, UpdateCall) <= 1 && Count(r.calls, BanCall) <= 1
            && (r.result.refreshed <==> Count(r.calls, ProbeCall) == 2)
            && (r.result.status == Banned && !a.isBanned <==> Count(r.calls, BanCall) == 1)
            && (r.calls == [] <==> !Probed(a, nowMs))
            && (r.calls != [] ==> r.calls[0] == Probe(a.token, a.refreshToken))
            && (r.result.status == Expired || r.result.status == Failed ==> r.result.reason.Some?)
            && forall j :: 0 <= j < |Writes(r.calls, s.persistFault, banFault)| ==>
                 Writes(r.calls, s.persistFault, banFault)[j].id == a.id
  {
    var r := Resolve(a, nowMs, s);
    if Probed(a, nowMs) {
      CascadeBounds(a.id, a.token, a.refreshToken, StoredRefreshToken(a), s);
    }
    WritesFor(r.calls, a.id, s.persistFault, banFault);
  }

  /** An expiry that does not parse, or has not passed yet, changes nothing but the echoed field. */
  lemma ExpiryIgnoredUnlessPast(a: Account, nowMs: int, s: Script)
    requires Probed(a, nowMs)
    ensures var r, u := Resolve(a, nowMs, s), Resolve(a.(expireAt := None), nowMs, s);
            r.calls == u.calls && r.result.(expireAt := None) == u.result
  {
    assert Probed(a.(expireAt := None), nowMs) by {
      assert ExpiryParser.ParseExpireAt(None).None?;
    }
  }

  /** The first probe failed with HTTP 401 and no deactivation message. */
  predicate PlainUnauthorized(s: Script) {
    s.firstProbe.ProbeErr? && s.firstProbe.status == 401 && !IsDeactivation(s.firstProbe.message)
  }

  /** A 401 without a refresh token to send ends as expired, with the probe's message or the fallback. */
  lemma UnauthorizedWithoutRefreshToken(id: int, token: string, refreshToken: Option<string>, s: Script, msg: string)
    ensures Unauthorized(id, token, refreshToken, [], s, msg)
            == Outcome(Verdict(Expired, false, Some(OrElse(msg, NoRefreshTokenReason))), [Probe(token, refreshToken)])
  {
  }

  /** A failed token exchange ends the check as expired, not refreshed, with the refresh error in the reason. */
  lemma ExchangeFailureExpires(id: int, token: string, refreshToken: Option<string>, stored: string, s: Script, msg: string)
    requires stored != [] && Request(stored, s.refreshReply).RefreshFailed?
    ensures Unauthorized(id, token, refreshToken, stored, s, msg)
            == Outcome(Verdict(Expired, false, Some(RefreshFailure(Request(stored, s.refreshReply).message))),
                       [Probe(token, refreshToken), Refresh(stored)])
  {
  }

  /** New tokens that cannot be persisted end the check as expired, not refreshed, with the store's error in the reason. */
  lemma PersistFailureExpires(id: int, token: string, refreshToken: Option<string>, stored: string, s: Script, msg: string)
    requires stored != [] && Request(stored, s.refreshReply).Refreshed? && !s.persistFault.Durable?
    ensures var t := Request(stored, s.refreshReply).tokens;
            Unauthorized(id, token, refreshToken, stored, s, msg)
            == Outcome(Verdict(Expired, false, Some(RefreshFailure(s.persistFault.message))),
                       [Probe(token, refreshToken), Refresh(stored), UpdateTokens(id, t)])
  {
  }

  /** A 401 that the refresh repairs: the rotated tokens are persisted, the re-probe uses them, and the account is normal again. */
  lemma RefreshRecovers(id: int, token: string, refreshToken: Option<string>, stored: string, s: Script, msg: string)
    requires stored != [] && Request(stored, s.refreshReply).Refreshed?
    requires s.persistFault.Durable? && s.reprobe.ProbeOk?
    ensures var t := Request(stored, s.refreshReply).tokens;
            Unauthorized(id, token, refreshToken, stored, s, msg)
            == Outcome(Verdict(Normal, true, Some(RefreshedReason)),
                       [Probe(token, refreshToken), Refresh(stored), UpdateTokens(id, t),
                        Probe(t.accessToken, if NextRefreshToken(t).Some? then NextRefreshToken(t) else refreshToken)])
  {
  }

  // ---------------------------------------------------------------------
  // checkSingleAccountStatus against the account table
  // ---------------------------------------------------------------------

  /** The writes of `calls + [c]` are those of `calls`, then those of `c`. */
  lemma ApplyThen(rows: map<int, Row>, calls: seq<Call>, c: Call, persistFault: WriteFault, banFault: WriteFault, stamp: string)
    ensures ApplyWrites(rows, Writes(calls + [c], persistFault, banFault), stamp)
         == ApplyWrites(ApplyWrites(rows, Writes(calls, persistFault, banFault), stamp), CallEffect(c, persistFault, banFault), stamp)
  {
    WritesThen(calls, c, persistFault, banFault);
    ApplyWritesAppend(rows, Writes(calls, persistFault, banFault), CallEffect(c, persistFault, banFault), stamp);
  }

  /** The re-probe with the new credentials; a deactivation is marked in the table, and a failure to mark is only logged. */
  method Reprobe(store: Store, id: int, creds: (string, Option<string>), reprobe: ProbeOutcome,
                 persistFault: WriteFault, banFault: WriteFault, stamp: string, before: seq<Call>, ghost rows0: map<int, Row>)
    returns (verdict: Verdict, calls: seq<Call>)
    modifies store
    requires CallsFor(before, id)
    requires store.rows == ApplyWrites(rows0, Writes(before, persistFault, banFault), stamp)
    ensures Outcome(verdict, calls) == Recheck(id, reprobe, creds, before)
    ensures store.rows == ApplyWrites(rows0, Writes(calls, persistFault, banFault), stamp)
  {
    var o := Recheck(id, reprobe, creds, before);
    var probed := before + [Probe(creds.0, creds.1)];
    ApplyThen(rows0, before, Probe(creds.0, creds.1), persistFault, banFault, stamp);
    if reprobe.ProbeErr? && IsDeactivation(reprobe.message) {
      var markError := store.MarkBanned(id, stamp, banFault);
      ApplyThen(rows0, probed, MarkBan(id), persistFault, banFault, stamp);
    }
    verdict, calls := o.verdict, o.calls;
  }

  /** persistAccountTokens, then the re-probe unless persisting reported an error. */
  method PersistAndRecheck(store: Store, id: int, token: string, refreshToken: Option<string>, s: Script, tokens: Tokens,
                           banFault: WriteFault, stamp: string, before: seq<Call>, ghost rows0: map<int, Row>)
    returns (verdict: Verdict, calls: seq<Call>)
    modifies store
    requires |before| == 2 && before[0] == Probe(token, refreshToken) && CallsFor(before, id)
    requires Count(before, ProbeCall) == 1 && Count(before, RefreshCall) == 1
    requires Count(before, UpdateCall) == 0 && Count(before, BanCall) == 0
    requires store.rows == ApplyWrites(rows0, Writes(before, s.persistFault, banFault), stamp)
    ensures Outcome(verdict, calls) == Persist(id, token, refreshToken, s, tokens, before)
    ensures store.rows == ApplyWrites(rows0, Writes(calls, s.persistFault, banFault), stamp)
  {
    var persisted, persistError := store.PersistTokens(id, tokens, stamp, s.persistFault);
    ApplyThen(rows0, before, UpdateTokens(id, tokens), s.persistFault, banFault, stamp);
    calls := before + [UpdateTokens(id, tokens)];
    if persistError.Some? {
      verdict := Verdict(Expired, false, Some(RefreshFailure(persistError.value)));
      return;
    }
    // persistAccountTokens returns null when it had nothing to write
    var creds := if persisted.None? then (token, refreshToken) else NextCredentials(token, refreshToken, persisted.value);
    assert creds == PersistedCredentials(token, refreshToken, tokens);
    assert Persist(id, token, refreshToken, s, tokens, before) == Recheck(id, s.reprobe, creds, calls);
    verdict, calls := Reprobe(store, id, creds, s.reprobe, s.persistFault, banFault, stamp, calls, rows0);
  }

  /**
   * After a 401: refresh with the stored refresh token, persist the new
   * tokens, re-probe. `stored` is already trimmed, so the refresh client's
   * own trim leaves it as it is (`ExchangeTrimmed`) and the request is made
   * with it directly.
   */
  method RefreshAfterUnauthorized(store: Store, id: int, token: string, refreshToken: Option<string>, stored: string,
                                  s: Script, msg: string, banFault: WriteFault, stamp: string)
    returns (verdict: Verdict, calls: seq<Call>)
    modifies store
    ensures Outcome(verdict, calls) == Unauthorized(id, token, refreshToken, stored, s, msg)
    ensures store.rows == ApplyWrites(old(store.rows), Writes(calls, s.persistFault, banFault), stamp)
  {
    ghost var rows0 := store.rows;
    var probe := Probe(token, refreshToken);
    calls := Then([], probe);
    if stored == [] {
      verdict := Verdict(Expired, false, Some(OrElse(msg, NoRefreshTokenReason)));
      return;
    }
    ApplyThen(rows0, calls, Refresh(stored), s.persistFault, banFault, stamp);
    calls := Then(calls, Refresh(stored));
    var exchanged := Request(stored, s.refreshReply);
    verdict, calls := AfterRefresh(store, id, token, refreshToken, s, exchanged, banFault, stamp, calls, rows0);
  }

  /** The refresh client has answered: a failure ends the check, new tokens are persisted. */
  method AfterRefresh(store: Store, id: int, token: string, refreshToken: Option<string>, s: Script, exchanged: RefreshOutcome,
                      banFault: WriteFault, stamp: string, before: seq<Call>, ghost rows0: map<int, Row>)
    returns (verdict: Verdict, calls: seq<Call>)
    modifies store
    requires |before| == 2 && before[0] == Probe(token, refreshToken) && CallsFor(before, id)
    requires Count(before, ProbeCall) == 1 && Count(before, RefreshCall) == 1
    requires Count(before, UpdateCall) == 0 && Count(before, BanCall) == 0
    requires store.rows == ApplyWrites(rows0, Writes(before, s.persistFault, banFault), stamp)
    ensures Outcome(verdict, calls) == AfterExchange(id, token, refreshToken, s, exchanged, before)
    ensures store.rows == ApplyWrites(rows0, Writes(calls, s.persistFault, banFault), stamp)
  {
    match exchanged
    case RefreshFailed(m, _) =>
      verdict, calls := Verdict(Expired, false, Some(RefreshFailure(m))), before;
    case Refreshed(tokens) =>
      verdict, calls := PersistAndRecheck(store, id, token, refreshToken, s, tokens, banFault, stamp, before, rows0);
  }

  /** The first probe and what follows it. */
  method ProbeAndClassify(store: Store, id: int, token: string, refreshToken: Option<string>, stored: string,
                          s: Script, banFault: WriteFault, stamp: string)
    returns (verdict: Verdict, calls: seq<Call>)
    modifies store
    ensures Outcome(verdict, calls) == Cascade(id, token, refreshToken, stored, s)
    ensures store.rows == ApplyWrites(old(store.rows), Writes(calls, s.persistFault, banFault), stamp)
  {
    var probe := Probe(token, refreshToken);
    calls := Then([], probe);
    match s.firstProbe
    case ProbeOk =>
      verdict := Verdict(Normal, false, None);
    case ProbeErr(msg, status) =>
      if IsDeactivation(msg) {
        ghost var rows0 := store.rows;
        var markError := store.MarkBanned(id, stamp, banFault);
        ApplyThen(rows0, calls, MarkBan(id), s.persistFault, banFault, stamp);
        calls := Then(calls, MarkBan(id));
        verdict := Verdict(Banned, false, OrNull(msg));
      } else if status == 401 {
        verdict, calls := RefreshAfterUnauthorized(store, id, token, refreshToken, stored, s, msg, banFault, stamp);
      } else {
        verdict := Verdict(Failed, false, Some(OrElse(msg, CheckFailedReason)));
      }
  }

  /** checkSingleAccountStatus: the result and the calls of `Resolve`; the table holds what those calls wrote. */
  method CheckSingleAccountStatus(store: Store, a: Account, nowMs: int, s: Script, banFault: WriteFault, stamp: string)
    returns (result: CheckResult, calls: seq<Call>)
    modifies store
    ensures Resolution(result, calls) == Resolve(a, nowMs, s)
    ensures store.rows == ApplyWrites(old(store.rows), Writes(calls, s.persistFault, banFault), stamp)
  {
    calls := [];
    if a.isBanned {
      result := ResultOf(a, Verdict(Banned, false, None));
      return;
    }
    var expireAtMs := ExpiryParser.ParseExpireAt(a.expireAt);
    if expireAtMs.Some? && expireAtMs.value < nowMs {
      result := ResultOf(a, Verdict(Expired, false, Some(ExpiredByDateReason)));
      return;
    }
    assert Probed(a, nowMs);
    var stored := StoredRefreshToken(a);
    var verdict;
    verdict, calls := ProbeAndClassify(store, a.id, a.token, a.refreshToken, stored, s, banFault, stamp);
    result := ResultOf(a, verdict);
  }
}
