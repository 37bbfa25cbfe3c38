/**
 * The unblock-attempt limiter of the main window (`CanAttemptUnblock`) as a
 * function on its ledger. The ledger maps an hour bucket (the clock time
 * truncated to the hour, here a number of hours since the clock's origin) to the
 * number of unblock attempts made in that hour.
 */
module RateLimit {
  import opened Schedule

  /** `maxAttemptsPerHour` */
  const MaxAttemptsPerHour: int := 2

  /**
   * `DateTime.Now.Date.AddHours(DateTime.Now.Hour)` for the moment `day`
   * days and `now` seconds after the clock's origin: the hour that contains it.
   */
  function HourBucket(day: int, now: TimeOfDay): (h: int)
    ensures h * 3600 <= day * SecondsPerDay + now < (h + 1) * 3600
  {
    day * 24 + now / 3600
  }

  /** Number of attempts recorded for `hour`; a missing bucket counts zero. */
  function CountAt(ledger: map<int, int>, hour: int): (count: int) {
    if hour in ledger then ledger[hour] else 0
  }

  /** Result of one `CanAttemptUnblock` call: the verdict and the ledger afterwards. */
  datatype Decision = Decision(allowed: bool, ledger: map<int, int>)

  /**
   * `CanAttemptUnblock`: drop every bucket older than `currentHour`, create the
   * current bucket at zero if missing, deny when its count has reached the
   * maximum, and otherwise count this attempt.
   */
  function TryConsume(ledger: map<int, int>, currentHour: int, maxAttempts: int): (d: Decision)
    ensures d.ledger.Keys == (set k | k in ledger && k >= currentHour) + {currentHour}
    ensures forall k :: k in d.ledger && k != currentHour ==> d.ledger[k] == ledger[k]
    ensures d.allowed <==> CountAt(ledger, currentHour) < maxAttempts
    ensures d.ledger[currentHour] == CountAt(ledger, currentHour) + (if d.allowed then 1 else 0)
  {
    var purged := map k | k in ledger && k >= currentHour :: ledger[k];
    var withBucket := if currentHour in purged then purged else purged[currentHour := 0];
    if withBucket[currentHour] >= maxAttempts then Decision(false, withBucket)
    else Decision(true, withBucket[currentHour := withBucket[currentHour] + 1])
  }

  /** After any call no bucket earlier than the current hour remains. */
  lemma NoStaleBuckets(ledger: map<int, int>, currentHour: int, maxAttempts: int)
    ensures forall k :: k in TryConsume(ledger, currentHour, maxAttempts).ledger ==> k >= currentHour
  {
  }

  /** With the default maximum, three calls in an hour with no attempts yet give true, true, false. */
  lemma ThreeAttemptsInOneHour(ledger: map<int, int>, hour: int)
    requires CountAt(ledger, hour) == 0
    ensures var d1 := TryConsume(ledger, hour, MaxAttemptsPerHour);
      var d2 := TryConsume(d1.ledger, hour, MaxAttemptsPerHour);
      var d3 := TryConsume(d2.ledger, hour, MaxAttemptsPerHour);
      d1.allowed && d2.allowed && !d3.allowed && d3.ledger == d2.ledger
  {
    var d1 := TryConsume(ledger, hour, MaxAttemptsPerHour);
    var d2 := TryConsume(d1.ledger, hour, MaxAttemptsPerHour);
    var d3 := TryConsume(d2.ledger, hour, MaxAttemptsPerHour);
    assert CountAt(d1.ledger, hour) == 1;
    assert CountAt(d2.ledger, hour) == 2;
    assert d3.ledger.Keys == d2.ledger.Keys;
  }

  /** The first call in an hour later than every recorded bucket is allowed, whatever came before. */
  lemma FirstAttemptInLaterHour(ledger: map<int, int>, hour: int, maxAttempts: int)
    requires maxAttempts >= 1
    requires forall k :: k in ledger ==> k < hour
    ensures TryConsume(ledger, hour, maxAttempts).allowed
    ensures TryConsume(ledger, hour, maxAttempts).ledger == map[hour := 1]
  {
    assert CountAt(ledger, hour) == 0;
  }

  /** Counts never rise above the maximum: the limiter keeps every bucket within it. */
  lemma CountsStayBounded(ledger: map<int, int>, currentHour: int, maxAttempts: int)
    requires maxAttempts >= 0
    requires forall k :: k in ledger ==> 0 <= ledger[k] <= maxAttempts
    ensures var d := TryConsume(ledger, currentHour, maxAttempts);
      forall k :: k in d.ledger ==> 0 <= d.ledger[k] <= maxAttempts
  {
  }

  /** Number of the `n` consecutive calls in one hour that are allowed. */
  function AllowedInHour(ledger: map<int, int>, hour: int, n: nat, maxAttempts: int): (allowed: nat)
    decreases n
  {
    if n == 0 then 0
    else
      var d := TryConsume(ledger, hour, maxAttempts);
      (if d.allowed then 1 else 0) + AllowedInHour(d.ledger, hour, n - 1, maxAttempts)
  }

  function Min(a: int, b: int): (m: int) { if a <= b then a else b }
  function Max(a: int, b: int): (m: int) { if a >= b then a else b }

  /**
   * Within one hour exactly `maxAttempts - c` of any run of calls are allowed
   * (all of them if the run is shorter), where `c` is the count already recorded.
   */
  lemma {:induction false} AllowedInHourExact(ledger: map<int, int>, hour: int, n: nat, maxAttempts: int)
    ensures AllowedInHour(ledger, hour, n, maxAttempts) == Min(n, Max(0, maxAttempts - CountAt(ledger, hour)))
    decreases n
  {
    if n > 0 {
      var d := TryConsume(ledger, hour, maxAttempts);
      AllowedInHourExact(d.ledger, hour, n - 1, maxAttempts);
    }
  }
}
