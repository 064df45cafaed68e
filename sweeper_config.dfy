/**
 * The configuration surface of the sweeper: `toInt` and the getters that
 * clamp each environment setting to its floor, its range or its allow-list.
 * An environment variable is given as the integer `Number.parseInt` read
 * from it, or None when there was nothing readable.
 */
module SweeperConfig {
  import opened Wrappers
  import opened Text
  import opened MinMax

  /** The settings as read from the environment. */
  datatype Env = Env(
    enabled: Option<string>,
    intervalSeconds: Option<int>,
    initialDelayMs: Option<int>,
    maxAccounts: Option<int>,
    concurrency: Option<int>,
    rangeDays: Option<int>)

  const DefaultIntervalSeconds: int := 1800
  const DefaultInitialDelayMs: int := 20000
  const DefaultMaxAccounts: int := 300
  const DefaultConcurrency: int := 3
  const DefaultRangeDays: int := 30
  const AllowedRangeDays: set<int> := {7, 15, 30}

  /** toInt: the parsed value when there is one, else the fallback. */
  function ToInt(parsed: Option<int>, fallback: int): (r: int)
    ensures parsed.Some? ==> r == parsed.value
    ensures parsed.None? ==> r == fallback
  {
    match parsed
    case Some(v) => v
    case None => fallback
  }

  /** isEnabled: anything but "0", "false" and "off" (after trim and lower-casing) enables; unset means "false". */
  predicate IsEnabled(raw: Option<string>)
    // a variable that is set but trims to nothing is not an off word: it enables the sweeper
    ensures raw.Some? && Trim(raw.value) == [] ==> IsEnabled(raw)
  {
    var v := ToLower(Trim(raw.GetOr("false")));
    v != "0" && v != "false" && v != "off"
  }

  /** The interval is at least 60 s; a configured value of 60 or more is taken as it is. */
  function IntervalSeconds(env: Env): (r: int)
    ensures r >= 60
    ensures env.intervalSeconds.None? ==> r == DefaultIntervalSeconds
    ensures env.intervalSeconds.Some? && env.intervalSeconds.value >= 60 ==> r == env.intervalSeconds.value
    ensures env.intervalSeconds.Some? && env.intervalSeconds.value < 60 ==> r == 60
  {
    Max(60, ToInt(env.intervalSeconds, DefaultIntervalSeconds))
  }

  /** The initial delay is at least 1000 ms. */
  function InitialDelayMs(env: Env): (r: int)
    ensures r >= 1000
    ensures env.initialDelayMs.None? ==> r == DefaultInitialDelayMs
    ensures env.initialDelayMs.Some? && env.initialDelayMs.value >= 1000 ==> r == env.initialDelayMs.value
    ensures env.initialDelayMs.Some? && env.initialDelayMs.value < 1000 ==> r == 1000
  {
    Max(1000, ToInt(env.initialDelayMs, DefaultInitialDelayMs))
  }

  /** At least 10 accounts are checked per run. */
  function MaxCheckAccounts(env: Env): (r: nat)
    ensures r >= 10
    ensures env.maxAccounts.None? ==> r == DefaultMaxAccounts
    ensures env.maxAccounts.Some? && env.maxAccounts.value >= 10 ==> r == env.maxAccounts.value
    ensures env.maxAccounts.Some? && env.maxAccounts.value < 10 ==> r == 10
  {
    Max(10, ToInt(env.maxAccounts, DefaultMaxAccounts))
  }

  /** The concurrency lies in [1, 10]; a configured value inside that range is taken as it is. */
  function CheckConcurrency(env: Env): (r: nat)
    ensures 1 <= r <= 10
    ensures env.concurrency.None? ==> r == DefaultConcurrency
    ensures env.concurrency.Some? && 1 <= env.concurrency.value <= 10 ==> r == env.concurrency.value
    ensures env.concurrency.Some? && env.concurrency.value < 1 ==> r == 1
    ensures env.concurrency.Some? && env.concurrency.value > 10 ==> r == 10
  {
    Max(1, Min(10, ToInt(env.concurrency, DefaultConcurrency)))
  }

  /** The window is always 7, 15 or 30 days: an allowed configured value, else 30. */
  function RangeDays(env: Env): (r: nat)
    ensures r in AllowedRangeDays
    ensures env.rangeDays.Some? && env.rangeDays.value in AllowedRangeDays ==> r == env.rangeDays.value
    ensures env.rangeDays.None? || env.rangeDays.value !in AllowedRangeDays ==> r == DefaultRangeDays
  {
    var value := ToInt(env.rangeDays, DefaultRangeDays);
    if value in AllowedRangeDays then value else DefaultRangeDays
  }

  /** The sweeper is disabled unless the variable is set to something other than an off word. */
  lemma DisabledByDefault(env: Env)
    requires env.enabled.None?
    ensures !IsEnabled(env.enabled)
  {
    assert Trim("false") == "false" by { TrimNoop("false"); }
    assert ToLower("false") == "false";
  }

  /** The off words are recognised in any ASCII case and with surrounding white space. */
  lemma OffWordsDisable(before: string, word: string, after: string)
    requires ToLower(word) in {"0", "false", "off"}
    requires forall i :: 0 <= i < |before| ==> IsSpace(before[i])
    requires forall i :: 0 <= i < |after| ==> IsSpace(after[i])
    ensures !IsEnabled(Some(before + word + after))
  {
    assert word != [] && !IsSpace(word[0]) && !IsSpace(word[|word| - 1]) by {
      var w := ToLower(word);
      assert |w| == |word| && w[0] == LowerChar(word[0]) && w[|w| - 1] == LowerChar(word[|word| - 1]);
      LowerKeepsSpace(word[0]);
      LowerKeepsSpace(word[|word| - 1]);
    }
    TrimSurrounded(before, word, after);
  }
}
