# A verified model of the team-account status sweeper, the translation lookup and the mail-verification rule

This project models three pieces of the account-management service in Dafny and proves properties of them.

- **Status sweeper** (`team-status-sweeper.js`). This background job walks recently created accounts. It checks each one against the remote service and reports a status: normal, expired, banned or failed.
  - When the token is rejected, it refreshes it once with the account's refresh token and re-checks once.
  - It marks deactivated accounts as banned in the account table.
  - It runs at most a configured number of checks at a time.
- **Translation lookup** (`useI18n.ts`). The front end looks up a dot-separated key in the message tree of the current locale, fills in `{name}` placeholders, and falls back to the key itself.
- **Mail-verification rule** (`register-email-verification.js`). Registration asks for an e-mail code only when a real SMTP host with a user and a password is configured. The shipped placeholder host `smtp.example.com` never counts.

Modules, one per component:

| module | file | what it is |
|---|---|---|
| `Wrappers`, `MinMax`, `Text` | text.dfy | `Option`; `Math.max`/`Math.min`; the JavaScript string operations used (`trim`, `toLowerCase`, `includes`, `\d`, `\w`, `String(n)`) |
| `SweeperConfig` | sweeper_config.dfy | `toInt` and the clamped settings getters |
| `ExpiryParser` | expiry_parser.dfy | `parseExpireAtToMs`: the pattern, the range checks, the instant at UTC+8 |
| `BoundedExecutor` | bounded_executor.dfy | `eachWithConcurrency` as workers sharing one cursor, over every interleaving |
| `AccountStore` | account_store.dfy | the account table as `map<int, Row>` and the class `Store` with `markAccountBanned` and `persistAccountTokens` |
| `RefreshClient` | refresh_client.dfy | `refreshAccessTokenWithRefreshToken` over an abstract HTTP reply |
| `StatusResolver` | status_resolver.dfy | `checkSingleAccountStatus`: the function `Resolve` and the method `CheckSingleAccountStatus` that runs it against a `Store` |
| `SweepScheduler` | sweep_scheduler.dfy | `loadAccountsForStatusCheck`'s truncation, the summary tally and `runOnce` with its `running` guard |
| `I18n` | i18n.dfy | `getNestedValue`, `interpolate`, `t` and locale resolution |
| `EmailVerification` | email_verification.dfy | `normalizeHost`, `isPlaceholderSmtpHost`, `isRegisterEmailVerificationRequired` |

The collaborators are inputs:
- The remote probe, the token endpoint and the outcome of each store write are a `Script` of answers.
- `Date.now()` is the parameter `nowMs`.
- The SQL selection of accounts is a sequence of eligible rows.
- Which worker's callback finishes first is a `schedule`.
- The SMTP settings are a value of `Option<SmtpSettings>`.

The resolver is stated twice, as a function and as a method.
- `Resolve` is a function: the result of a check and the calls it makes, in order.
- `CheckSingleAccountStatus` is a method that performs those calls on a `Store`. It is proved to return `Resolve`'s result and to leave exactly the writes of those calls in the table.

In three places the code does something other than its design describes. The model follows the code:
- A token answer that is not status 200, or that lacks an access token, is thrown inside the request's `try`. It is caught there again and re-thrown as a transport error with status 503, keeping its message. It is not reported as an upstream rejection with status 502.
- `refreshed` is true exactly when the re-probe ran. A rotation that succeeded at the endpoint but whose token write threw ends as expired and not refreshed, because that error lands in the refresh's `catch`.
- A token write that throws stops the check before the re-probe.

## Model

| member | source | states |
|---|---|---|
| Text.Trim | backend/src/services/team-status-sweeper.js:33-33 | the result is no longer than the input, has no white space at either end, and is the input with only white space removed before and after it |
| Text.ToLower | backend/src/utils/register-email-verification.js:5-5 | same length; each character lowered on its own |
| Text.ContainsIff | backend/src/services/team-status-sweeper.js:225-225 | `includes` holds exactly when the part occurs at some position |
| SweeperConfig.ToInt | backend/src/services/team-status-sweeper.js:10-13 | the parsed integer when there is one, the fallback otherwise |
| SweeperConfig.IntervalSeconds | backend/src/services/team-status-sweeper.js:20 | always at least 60; the default 1800 when unset; a configured value of 60 or more is kept, a smaller one becomes 60 |
| SweeperConfig.InitialDelayMs | backend/src/services/team-status-sweeper.js:21 | always at least 1000; default 20000; values below 1000 become 1000 |
| SweeperConfig.MaxCheckAccounts | backend/src/services/team-status-sweeper.js:22 | always at least 10; default 300; values below 10 become 10 |
| SweeperConfig.CheckConcurrency | backend/src/services/team-status-sweeper.js:23 | always in [1, 10]; default 3; values in range are kept, values below become 1 and values above become 10 |
| SweeperConfig.RangeDays | backend/src/services/team-status-sweeper.js:25-28 | always one of 7, 15, 30; a configured allowed value is kept, anything else gives 30 |
| SweeperConfig.IsEnabled | backend/src/services/team-status-sweeper.js:15-18 | a variable that is set but blank is not an off word, so it enables the sweeper |
| SweeperConfig.DisabledByDefault | backend/src/services/team-status-sweeper.js:15-18 | with the variable unset the sweeper is disabled |
| SweeperConfig.OffWordsDisable | backend/src/services/team-status-sweeper.js:15-18 | "0", "false" and "off" in any ASCII case, with any surrounding white space, disable the sweeper |
| ExpiryParser.Match | backend/src/services/team-status-sweeper.js:31-36 | every match is a string of the pattern's language, and the captures render back to exactly the input |
| ExpiryParser.MatchRender | backend/src/services/team-status-sweeper.js:31-36 | every string of the pattern's language is matched, with exactly its own captures |
| ExpiryParser.UtcReading | backend/src/services/team-status-sweeper.js:52-53 | the UTC reading of a UTC+8 wall clock, eight hours earlier, is again a calendar-valid reading with the same minute and second |
| ExpiryParser.InstantIsUtcReading | backend/src/services/team-status-sweeper.js:52-53 | the instant of a UTC+8 reading is the instant of its UTC reading, across midnight, the start of a month and New Year |
| ExpiryParser.ParseTrimmed | backend/src/services/team-status-sweeper.js:35-54 | an instant comes only from a string of the pattern's language whose fields are all in range, and it is that reading at UTC+8 |
| ExpiryParser.ParseExpireAt | backend/src/services/team-status-sweeper.js:32-54 | the same for the untrimmed input: the trimmed string is in the language, in range, and the result is its instant |
| ExpiryParser.TrimmedOfRender | backend/src/services/team-status-sweeper.js:35-54 | a string of the language gives an instant exactly when month, day, hour, minute and second are all in range |
| ExpiryParser.ParseOfRender | backend/src/services/team-status-sweeper.js:32-54 | the same with any white space around it: null on an out-of-range field, otherwise the instant at UTC+8 |
| ExpiryParser.ParseOfRendered | backend/src/services/team-status-sweeper.js:32-54 | the same for the bare string |
| ExpiryParser.BlankIsNone | backend/src/services/team-status-sweeper.js:33-34 | missing, empty or blank input gives null |
| ExpiryParser.MissingSecondsIsZero | backend/src/services/team-status-sweeper.js:43 | a reading without seconds gives the same result as one with ":00" |
| ExpiryParser.InstantMonotonic | backend/src/services/team-status-sweeper.js:52-53 | on real calendar dates a later wall-clock reading is a later instant |
| ExpiryParser.NewYear2024 | backend/src/services/team-status-sweeper.js:52-53 | "2024-01-01 00:00" is 1704038400000 ms |
| ExpiryParser.Epoch | backend/src/services/team-status-sweeper.js:52-53 | "1970/1/1T8:00:00" is 0 ms |
| ExpiryParser.DayOverflowRollsOver | backend/src/services/team-status-sweeper.js:47-53 | day 31 passes the range check in February, and is then read as the 3rd of March |
| BoundedExecutor.WorkerCount | backend/src/services/team-status-sweeper.js:59-63 | no workers for an empty list; otherwise between 1 and n, at most max(1, c); exactly c when 1 <= c <= n, exactly n when c >= n, and 1 when c <= 1 |
| BoundedExecutor.StartWorkers | backend/src/services/team-status-sweeper.js:62-68 | before any callback completes, worker w has started on index w, for every worker |
| BoundedExecutor.StepKeepsRunning | backend/src/services/team-status-sweeper.js:65-69 | one completion followed by `cursor++` keeps the invariant: indices handed out in order, in-flight counts matching the busy workers |
| BoundedExecutor.Drain | backend/src/services/team-status-sweeper.js:65-69 | the workers' loops keep that invariant until no worker is busy |
| BoundedExecutor.RunningDone | backend/src/services/team-status-sweeper.js:65-72 | when no worker is busy, every index has been started and every callback has completed |
| BoundedExecutor.EachWithConcurrency | backend/src/services/team-status-sweeper.js:57-73 | for every interleaving: each index 0..n-1 goes to the callback exactly once, in increasing order; nothing for an empty list; at most one callback per worker and at most WorkerCount in flight; all done at the end |
| RefreshClient.Request | backend/src/services/team-status-sweeper.js:77-118 | success exactly on a 200 answer with an access token, keeping the rotated refresh token or the one sent; every failure has a message; an empty token gives the 400 error; a non-200 answer or one without an access token gives the no-credential message with status 503; a rejection gives status 502 with the first non-empty of `error_message`, `error_description`, `error` or the fallback; an unreachable endpoint gives status 503 with its message or the fallback |
| RefreshClient.Exchange | backend/src/services/team-status-sweeper.js:75-119 | the same, stated for the untrimmed token: a blank token is refused before any request; otherwise the same 503, 502 and 503 failures |
| RefreshClient.ExchangeTrimmed | backend/src/services/team-status-sweeper.js:76-76 | on an already trimmed token, the client's own trim changes nothing |
| AccountStore.NextRefreshToken | backend/src/services/team-status-sweeper.js:123-127 | the stored refresh token is the trimmed token, or null exactly when trimming leaves nothing |
| AccountStore.BannedRow | backend/src/services/team-status-sweeper.js:137-147 | the row is banned and closed, `ban_processed` is cleared and the time stamp is set; the other columns are unchanged |
| AccountStore.TokenRow | backend/src/services/team-status-sweeper.js:125-128 | both token columns and the time stamp are set; the other columns are unchanged |
| AccountStore.ApplyWrite | backend/src/services/team-status-sweeper.js:125-147 | an UPDATE ... WHERE id = ? changes that row only, and only if the row exists |
| AccountStore.ApplyWrites | backend/src/services/team-status-sweeper.js:125-147 | a batch of UPDATEs never adds or removes an account: the table's ids stay the same |
| AccountStore.ApplyWritesAppend | backend/src/services/team-status-sweeper.js:125-147 | applying two batches of writes in turn is applying their concatenation |
| AccountStore.MarkBannedIdempotent | backend/src/services/team-status-sweeper.js:136-149 | marking an account banned twice is the same as marking it once |
| AccountStore.WritesToDistinctIdsCommute | backend/src/services/team-status-sweeper.js:125-147 | writes to different accounts can be applied in either order |
| AccountStore.Store.MarkBanned | backend/src/services/team-status-sweeper.js:136-149 | the table gets the ban write unless the UPDATE throws; an error is returned exactly when a step throws |
| AccountStore.Store.PersistTokens | backend/src/services/team-status-sweeper.js:121-134 | nothing is written and null is returned without an access token; otherwise the token write, the write's error, and on success the stored pair |
| StatusResolver.CallEffect | backend/src/services/team-status-sweeper.js:121-149 | a call writes at most one row: the row of its own account, and only for a token update or a ban mark |
| StatusResolver.WritesFor | backend/src/services/team-status-sweeper.js:227-271 | calls about one account leave writes to that account's row only |
| StatusResolver.NextCredentials | backend/src/services/team-status-sweeper.js:248-252 | the re-probe uses the persisted token and refresh token where present, else the account's own |
| StatusResolver.Recheck | backend/src/services/team-status-sweeper.js:254-284 | exactly one re-probe with the new credentials and no further refresh; always refreshed and explained; a good re-probe gives normal with the refreshed reason; a deactivation gives banned with the error's message, and a ban mark follows the re-probe as the last call; otherwise the re-probe is the only call, a 401 gives expired and any other error gives failed, each with the error's message or its fallback |
| StatusResolver.Persist | backend/src/services/team-status-sweeper.js:246-284 | a failed token write ends as expired, not refreshed, with the store's error in the reason, after the write; otherwise the re-probe follows; the call bounds hold |
| StatusResolver.AfterExchange | backend/src/services/team-status-sweeper.js:244-291 | a failed exchange ends as expired, not refreshed, with the refresh error in the reason and no further call; otherwise persist and re-probe; the call bounds hold |
| StatusResolver.Unauthorized | backend/src/services/team-status-sweeper.js:237-292 | the 401 path opens with the probe and keeps the call bounds: at most two probes, one refresh, one token write, one ban mark; refreshed exactly when re-probed |
| StatusResolver.Cascade | backend/src/services/team-status-sweeper.js:215-295 | success gives normal; deactivation is checked before 401 and gives banned plus one ban mark; 401 goes to the refresh; any other error gives failed with its message or "检查失败" |
| StatusResolver.CascadeBounds | backend/src/services/team-status-sweeper.js:215-295 | every cascade starts with the probe, keeps the call bounds, gives a reason for every expired or failed verdict and writes only its own account |
| StatusResolver.ResultOf | backend/src/services/team-status-sweeper.js:198-204 | the result repeats id, email, creation time and expiry (an empty expiry as null) and carries the verdict |
| StatusResolver.Resolve | backend/src/services/team-status-sweeper.js:197-296 | the ban flag gives banned with a null reason and no call; a parsable expiry in the past gives expired and no call; otherwise the cascade on the stored credentials |
| StatusResolver.ResolveBounds | backend/src/services/team-status-sweeper.js:197-296 | a whole check makes at most two probes, one refresh, one token write and one ban mark; no call exactly on the early exits; refreshed exactly when re-probed; writes only its own row |
| StatusResolver.ExpiryIgnoredUnlessPast | backend/src/services/team-status-sweeper.js:210-213 | an expiry that does not parse or has not passed changes only the echoed field |
| StatusResolver.UnauthorizedWithoutRefreshToken | backend/src/services/team-status-sweeper.js:238-242 | a 401 with a blank stored refresh token gives expired, not refreshed, with the probe's message or the fallback, after the probe alone |
| StatusResolver.ExchangeFailureExpires | backend/src/services/team-status-sweeper.js:285-291 | a failed exchange gives expired, not refreshed, with the reason prefixed by the refresh-failed text |
| StatusResolver.PersistFailureExpires | backend/src/services/team-status-sweeper.js:244-291 | a token write that throws lands in the same catch: expired, not refreshed, with the store's error in the reason |
| StatusResolver.RefreshRecovers | backend/src/services/team-status-sweeper.js:244-264 | a successful refresh, a durable write and a good re-probe give normal and refreshed, and the re-probe uses the rotated tokens |
| StatusResolver.Reprobe | backend/src/services/team-status-sweeper.js:254-284 | performs `Recheck` against the store: same verdict and calls, and the table gets exactly their writes |
| StatusResolver.PersistAndRecheck | backend/src/services/team-status-sweeper.js:246-284 | performs `Persist` against the store |
| StatusResolver.AfterRefresh | backend/src/services/team-status-sweeper.js:244-291 | performs `AfterExchange` against the store |
| StatusResolver.RefreshAfterUnauthorized | backend/src/services/team-status-sweeper.js:237-292 | performs `Unauthorized` against the store |
| StatusResolver.ProbeAndClassify | backend/src/services/team-status-sweeper.js:215-295 | performs `Cascade` against the store |
| StatusResolver.CheckSingleAccountStatus | backend/src/services/team-status-sweeper.js:197-296 | returns `Resolve`'s result and calls; the account table afterwards is the old table with exactly those calls' writes applied |
| SweepScheduler.Truncation | backend/src/services/team-status-sweeper.js:191-192 | `truncated` exactly when more are eligible than loaded; `skipped` is the difference when truncated, else 0 |
| SweepScheduler.LoadAccounts | backend/src/services/team-status-sweeper.js:151-195 | the first `limit` eligible accounts; truncated exactly when more than `limit` are eligible; loaded plus skipped is the eligible total |
| SweepScheduler.Bump | backend/src/services/team-status-sweeper.js:324-326 | each status raises its own count by one and the total by one |
| SweepScheduler.TallyFirst | backend/src/services/team-status-sweeper.js:318-326 | the four counts of the first n results sum to n |
| SweepScheduler.Tally | backend/src/services/team-status-sweeper.js:318-328 | the four counts sum to the number of accounts checked |
| SweepScheduler.RefreshedFirst | backend/src/services/team-status-sweeper.js:319-327 | at most n of the first n results are refreshed |
| SweepScheduler.RefreshedCount | backend/src/services/team-status-sweeper.js:319-327 | no more accounts are refreshed than are checked |
| SweepScheduler.TallyChecks | backend/src/services/team-status-sweeper.js:318-328 | the callback's updates, result by result, end with the summary `Tally` and the count `RefreshedCount` |
| SweepScheduler.ResultsOfNext | backend/src/services/team-status-sweeper.js:322-323 | checking one more account appends its result |
| SweepScheduler.ResultsOfAt | backend/src/services/team-status-sweeper.js:322-323 | the i-th result is the check of the i-th loaded account |
| SweepScheduler.Sweep | backend/src/services/team-status-sweeper.js:309-338 | a failed load, and only that, fails the run; otherwise the report's range is 7, 15 or 30 days; checked accounts number at most the limit; counts sum to checked; refreshed at most checked; truncated and skipped as loaded |
| SweepScheduler.Sweeper.RunOnce | backend/src/services/team-status-sweeper.js:305-343 | a trigger while running does nothing; otherwise the sweep's outcome, with `running` false again after completion and after failure |
| SweepScheduler.Sweeper.constructor | backend/src/services/team-status-sweeper.js:304-304 | a new sweeper is not running |
| I18n.Split | frontend/src/composables/useI18n.ts:8-8 | at least one part, and no part contains the separator |
| I18n.JoinSplit | frontend/src/composables/useI18n.ts:8-8 | joining the parts with dots gives back the path |
| I18n.SplitFirst | frontend/src/composables/useI18n.ts:8-8 | a first key without a dot splits off as the first part |
| I18n.Index | frontend/src/composables/useI18n.ts:12-12 | an object yields exactly its own fields; a string leaf yields the one-character string at an index; nothing else has properties |
| I18n.Walk | frontend/src/composables/useI18n.ts:10-13 | once the walk reaches undefined it stays undefined |
| I18n.NestedSingleKey | frontend/src/composables/useI18n.ts:7-15 | a key without a dot gives the string it maps to, and undefined for a missing key or a non-string |
| I18n.NestedDot | frontend/src/composables/useI18n.ts:7-15 | `a.rest` is `rest` looked up under `a`; a missing `a` gives undefined |
| I18n.StringLeafIndex | frontend/src/composables/useI18n.ts:12-14 | indexing a string leaf with "0" gives its first character, not undefined |
| I18n.NestedValue | frontend/src/composables/useI18n.ts:7-15 | nothing is found under a value that is neither a string nor an object, nor under a string leaf for a key without a dot that is not an index |
| I18n.GetNestedValue | frontend/src/composables/useI18n.ts:7-15 | the loop returns the string at the end of the path, or undefined |
| I18n.WordPrefix | frontend/src/composables/useI18n.ts:18-18 | the longest prefix of `\w` characters |
| I18n.PlaceholderAt | frontend/src/composables/useI18n.ts:18-18 | a match is `{`, a non-empty key of `\w` characters only, `}` at the start of the text |
| I18n.NoPlaceholderAt | frontend/src/composables/useI18n.ts:18-18 | when no placeholder is matched at the start, the text does not start with `{word}` for any word |
| I18n.PlaceholderOf | frontend/src/composables/useI18n.ts:18-18 | `{word}` is always a placeholder |
| I18n.InterpolatePlaceholder | frontend/src/composables/useI18n.ts:18-21 | `{key}` becomes String(value) for a present key or stays `{key}`, and the rest is interpolated on its own |
| I18n.Interpolate | frontend/src/composables/useI18n.ts:17-22 | a template without `{` comes back unchanged |
| I18n.InterpolateUnknownKeys | frontend/src/composables/useI18n.ts:17-22 | when no placeholder names a present key, the template comes back unchanged |
| I18n.InterpolateNoParams | frontend/src/composables/useI18n.ts:17-22 | empty parameters change nothing |
| I18n.SinglePass | frontend/src/composables/useI18n.ts:18-21 | for every present key with a string value, `{key}` followed by any text becomes the value followed by the text's own interpolation: a substituted value is not scanned again |
| I18n.EmptyBracesKept | frontend/src/composables/useI18n.ts:18-18 | "{}" is left as it is |
| I18n.NonWordBracesKept | frontend/src/composables/useI18n.ts:18-18 | "{a-b}" is left as it is |
| I18n.T | frontend/src/composables/useI18n.ts:34-41 | a missing key gives the key; without params, the looked-up string; with params, its interpolation |
| I18n.TEmptyParams | frontend/src/composables/useI18n.ts:40-40 | an empty parameter object gives the same text as none |
| I18n.ResolveLocaleAsWritten | frontend/src/composables/useI18n.ts:27-30 | a table locale is kept and an empty one gives `en-US` |
| I18n.InheritedNameEscapes | frontend/src/composables/useI18n.ts:29-29 | the stored name "toString" passes the `in` check although it is no locale |
| I18n.InheritedNameShowsKeys | frontend/src/composables/useI18n.ts:29-32 | with that locale every translation falls back to its key |
| I18n.ResolveLocale | frontend/src/composables/useI18n.ts:27-30 | the locale is always a key of the table: the stored one when it is a key, otherwise `en-US` |
| I18n.CurrentMessages | frontend/src/composables/useI18n.ts:32-32 | a locale of the table selects the English or the Chinese messages; an inherited name selects a value that is no table |
| I18n.ResolvedLocaleHasTable | frontend/src/composables/useI18n.ts:32-32 | the resolved locale always selects one of the two message tables |
| I18n.ResolveLocaleAgrees | frontend/src/composables/useI18n.ts:27-30 | with names that are not inherited properties, the code as written and the corrected rule agree |
| EmailVerification.NormalizeHost | backend/src/utils/register-email-verification.js:5-5 | no white space at either end and no upper-case ASCII letter; a missing host is the empty string |
| EmailVerification.IsPlaceholderSmtpHost | backend/src/utils/register-email-verification.js:7-7 | a missing or blank host is never the placeholder |
| EmailVerification.IsRegisterEmailVerificationRequired | backend/src/utils/register-email-verification.js:9-19 | verification is required only when host, user and password are all present |
| EmailVerification.NormalizeTrimmed | backend/src/utils/register-email-verification.js:5-16 | normalising a host that was trimmed already gives the same result |
| EmailVerification.PlaceholderIgnoresCase | backend/src/utils/register-email-verification.js:5-7 | recognising the placeholder does not depend on letter case |
| EmailVerification.PlaceholderIgnoresSpace | backend/src/utils/register-email-verification.js:5-7 | recognising the placeholder does not depend on surrounding white space |
| EmailVerification.PlaceholderRecognised | backend/src/utils/register-email-verification.js:3-7 | `smtp.example.com` itself is the placeholder |
| EmailVerification.PlaceholderInAnyForm | backend/src/utils/register-email-verification.js:3-16 | the placeholder host in any case and padding turns verification off, whatever the credentials |
| EmailVerification.RequiredIff | backend/src/utils/register-email-verification.js:9-19 | verification is required exactly when the trimmed host is non-empty and not the placeholder, and the trimmed user and password are both non-empty |
| EmailVerification.NoHostNoVerification | backend/src/utils/register-email-verification.js:11-16 | a blank host or the placeholder host means no verification, whatever the user and password |
| EmailVerification.BlankIsMissing | backend/src/utils/register-email-verification.js:12-18 | a user or password that is only white space counts as missing |

## Left out

- Network: the HTTP POST to the token endpoint and the account probe `fetchAccountUsersList` are foreign I/O. Their answers are inputs (`TokenReply`, `ProbeOutcome`).
- SQL and persistence: the queries, `DATETIME('now', ...)` window arithmetic, `ORDER BY`, and the decoding of rows into accounts are not modelled.
  - The eligible accounts are an input sequence, and `LIMIT` is "the first `limit` of them".
  - `saveDatabase` is one of the write faults.
  - The `updated_at` value is a `stamp` parameter.
- `getSmtpSettings` is not part of this model. Its result is the input `Option<SmtpSettings>`, and a non-string field value is not modelled.
- BoundedExecutor.EachWithConcurrency: a callback that rejects is not modelled. `Promise.all` would reject at once while the other workers go on taking indices; the model's callbacks always complete.
- Timers and the interleaving of asynchronous code: `setTimeout`, `setInterval`, `Promise.all`, `await`. The executor's interleaving is a `schedule` parameter, and `runOnce` runs its checks in list order.
- SweepScheduler.Sweeper.RunOnce: the store writes of the checks are not carried through the run, because each check's writes touch only its own account (`WritesFor`, `WritesToDistinctIdsCommute`). A check's effect on the store is proved per account by `CheckSingleAccountStatus`.
- `Date.now()` is the parameter `nowMs`. Floating-point numbers are not modelled.
  - `Number.parseInt` is given as its result (`Option<int>`).
  - `String(number)` is written out for integers only, in plain digits. JavaScript switches to exponent form at an absolute value of 10^21 and more, and the model does not.
- ExpiryParser.ParseExpireAt: the result of `Date.parse` for a day past the end of its month (day 31 of February) follows the day count of ECMAScript's MakeDay and rolls over into the next month. Engines may instead return NaN, and the model does not cover that.
- Logging (`console.*`) is left out; a caught error that is only logged is dropped.
- Text.ToLower: only ASCII letters are lowered. Every string compared after lower-casing (`smtp.example.com`, `false`, `off`, `0`) is ASCII, so the comparisons are exact for every input.
- Strings are sequences of code points, not UTF-16 code units. The character index into a string leaf and `.length` therefore differ for characters outside the Basic Multilingual Plane.
- I18n.Index: properties inherited from `Object.prototype` and `String.prototype` other than the character index and `length` are not modelled. The same goes for a function's own properties such as `name`.
- I18n.Interpolate: a parameter key named like an inherited property (`toString`) is treated as absent. In JavaScript it would yield the inherited function.
- `setLocale`, Vue's `computed` and the Pinia store are plumbing; the stored locale is a parameter.
- The message tables (`en.ts`, `zh.ts`) are data; `CurrentMessages` takes them as parameters.
- StatusResolver.Unauthorized: the refresh request is made with the trimmed token through `Request`. `Exchange`, which trims again, would give the same answer, as `ExchangeTrimmed` shows.
- StatusResolver.CheckSingleAccountStatus: whether a ban mark's write succeeds (`banFault`) is given to the method only. Its failure is only logged, so it cannot change the result.

## Findings

| source | as written | input that shows it | evidently intended | confidence | as-written member | corrected member |
|---|---|---|---|---|---|---|
| frontend/src/composables/useI18n.ts:29 | `current in messages` also accepts names inherited from `Object.prototype` | a stored locale of "toString": it is kept as the locale, `messages["toString"]` is a function, and every `t(key)` returns `key` | only keys of the message table are accepted, so the locale always selects a table (an own-property check) | low; not executed | I18n.InheritedNameShowsKeys | I18n.ResolvedLocaleHasTable |
