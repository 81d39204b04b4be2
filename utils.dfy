/**
 * The scraper's bookkeeping helpers: first-occurrence de-duplication,
 * bucketing by key, the retry loop and the run counters.
 */
module Utils {
  import opened Wrappers

  // ---------------------------------------------------------------------
  // uniqueBy: keep the first item for each key value
  // ---------------------------------------------------------------------

  /** The key values of the items. */
  function KeysOf<T, K(==)>(xs: seq<T>, key: T -> K): set<K> {
    set i | 0 <= i < |xs| :: key(xs[i])
  }

  lemma KeysOfSnoc<T, K>(xs: seq<T>, x: T, key: T -> K)
    ensures KeysOf(xs + [x], key) == KeysOf(xs, key) + {key(x)}
  {
    var ys := xs + [x];
    forall k | k in KeysOf(ys, key)
      ensures k in KeysOf(xs, key) + {key(x)}
    {
      var i :| 0 <= i < |ys| && key(ys[i]) == k;
      if i < |xs| {
        assert ys[i] == xs[i];
      }
    }
    forall k | k in KeysOf(xs, key)
      ensures k in KeysOf(ys, key)
    {
      var i :| 0 <= i < |xs| && key(xs[i]) == k;
      assert ys[i] == xs[i];
    }
    assert ys[|xs|] == x;
  }

  /**
   * The items whose key has not been seen earlier in the sequence, in their
   * original order: what a filter with a `seen` set keeps.
   */
  function KeepFirst<T, K(==)>(xs: seq<T>, key: T -> K): (r: seq<T>)
    ensures |r| <= |xs|
    ensures forall k | 0 <= k < |r| :: r[k] in xs
    decreases |xs|
  {
    if xs == [] then []
    else
      var init := xs[..|xs| - 1];
      var x := xs[|xs| - 1];
      assert forall j | 0 <= j < |init| :: init[j] == xs[j];
      if key(x) in KeysOf(init, key) then KeepFirst(init, key) else KeepFirst(init, key) + [x]
  }

  /** De-duplication loses no key: the kept items carry every key of the input. */
  lemma {:induction false} KeepFirstKeys<T, K>(xs: seq<T>, key: T -> K)
    ensures KeysOf(KeepFirst(xs, key), key) == KeysOf(xs, key)
    decreases |xs|
  {
    if xs != [] {
      var init := xs[..|xs| - 1];
      var x := xs[|xs| - 1];
      assert xs == init + [x];
      KeepFirstKeys(init, key);
      KeysOfSnoc(init, x, key);
      if key(x) !in KeysOf(init, key) {
        KeysOfSnoc(KeepFirst(init, key), x, key);
      }
    }
  }

  /** The kept items have pairwise distinct keys. */
  lemma {:induction false} KeepFirstDistinct<T, K>(xs: seq<T>, key: T -> K)
    ensures forall a, b | 0 <= a < b < |KeepFirst(xs, key)| ::
      key(KeepFirst(xs, key)[a]) != key(KeepFirst(xs, key)[b])
    decreases |xs|
  {
    if xs != [] {
      var init := xs[..|xs| - 1];
      var x := xs[|xs| - 1];
      var r0 := KeepFirst(init, key);
      KeepFirstDistinct(init, key);
      if key(x) !in KeysOf(init, key) {
        KeepFirstKeys(init, key);
        var r := r0 + [x];
        forall a, b | 0 <= a < b < |r|
          ensures key(r[a]) != key(r[b])
        {
          if b == |r0| {
            assert key(r0[a]) in KeysOf(r0, key);
          } else {
            assert r[a] == r0[a] && r[b] == r0[b];
          }
        }
      }
    }
  }

  /**
   * The kept items form an order-preserving subsequence of the input, and
   * each is the first item of the input that carries its key.
   */
  lemma {:induction false} KeepFirstOrigins<T, K>(xs: seq<T>, key: T -> K) returns (origin: seq<nat>)
    ensures |origin| == |KeepFirst(xs, key)|
    ensures forall k | 0 <= k < |origin| :: origin[k] < |xs| && xs[origin[k]] == KeepFirst(xs, key)[k]
    ensures forall k, l | 0 <= k < l < |origin| :: origin[k] < origin[l]
    ensures forall k, j | 0 <= k < |origin| && 0 <= j < origin[k] :: key(xs[j]) != key(xs[origin[k]])
    decreases |xs|
  {
    if xs == [] {
      origin := [];
    } else {
      var n := |xs| - 1;
      var init := xs[..n];
      var x := xs[n];
      var r0 := KeepFirst(init, key);
      var before := KeepFirstOrigins(init, key);
      if key(x) in KeysOf(init, key) {
        origin := before;
      } else {
        origin := before + [n];
        forall j | 0 <= j < n
          ensures key(xs[j]) != key(x)
        {
          assert key(init[j]) in KeysOf(init, key);
        }
        forall k | 0 <= k < |before|
          ensures origin[k] == before[k] && (r0 + [x])[k] == r0[k]
        {
        }
      }
    }
  }

  /** `uniqueBy(array, key)`: a filter that remembers the keys it has let through. */
  method UniqueBy<T, K(==)>(xs: seq<T>, key: T -> K) returns (r: seq<T>)
    ensures r == KeepFirst(xs, key)
  {
    var seen: set<K> := {};
    r := [];
    var i := 0;
    while i < |xs|
      invariant 0 <= i <= |xs|
      invariant seen == KeysOf(xs[..i], key)
      invariant r == KeepFirst(xs[..i], key)
    {
      var k := key(xs[i]);
      assert xs[..i + 1][..i] == xs[..i];
      KeysOfSnoc(xs[..i], xs[i], key);
      assert xs[..i + 1] == xs[..i] + [xs[i]];
      if k !in seen {
        seen := seen + {k};
        r := r + [xs[i]];
      }
      i := i + 1;
    }
    assert xs[..|xs|] == xs;
  }

  // ---------------------------------------------------------------------
  // groupBy: one bucket per key value
  // ---------------------------------------------------------------------

  /** The items whose key is `k`, in input order. */
  function Bucket<T, K(==)>(xs: seq<T>, key: T -> K, k: K): (r: seq<T>)
    ensures |r| <= |xs|
    ensures forall i | 0 <= i < |r| :: key(r[i]) == k
    decreases |xs|
  {
    if xs == [] then []
    else
      var init := Bucket(xs[..|xs| - 1], key, k);
      if key(xs[|xs| - 1]) == k then init + [xs[|xs| - 1]] else init
  }

  lemma BucketSnoc<T, K>(xs: seq<T>, x: T, key: T -> K, k: K)
    ensures Bucket(xs + [x], key, k) == if key(x) == k then Bucket(xs, key, k) + [x] else Bucket(xs, key, k)
  {
    assert (xs + [x])[..|xs|] == xs;
  }

  /** A key that no item carries has an empty bucket. */
  lemma {:induction false} BucketOfAbsentKey<T, K>(xs: seq<T>, key: T -> K, k: K)
    requires k !in KeysOf(xs, key)
    ensures Bucket(xs, key, k) == []
    decreases |xs|
  {
    if xs != [] {
      var init := xs[..|xs| - 1];
      assert xs == init + [xs[|xs| - 1]];
      KeysOfSnoc(init, xs[|xs| - 1], key);
      BucketOfAbsentKey(init, key, k);
    }
  }

  /**
   * The members every plain object inherits from `Object.prototype`. The
   * accumulator of `groupBy` is such an object, so under one of these names
   * `result[groupKey] || []` finds the inherited value instead of a bucket.
   */
  const ObjectPrototypeMembers: set<string> := {
    "constructor", "hasOwnProperty", "isPrototypeOf", "propertyIsEnumerable",
    "toString", "toLocaleString", "valueOf", "__proto__",
    "__defineGetter__", "__defineSetter__", "__lookupGetter__", "__lookupSetter__"}

  /**
   * `groupBy(array, key)`: the reduce that appends each item to the array
   * stored under its key, creating the array on first use. `inherited` tells
   * which keys, as property names, are in `ObjectPrototypeMembers`: for the
   * first item with such a key, `.push` is called on a value that has none
   * and the reduce throws a `TypeError`.
   */
  method GroupBy<T, K(==)>(xs: seq<T>, key: T -> K, inherited: K -> bool)
    returns (r: Result<map<K, seq<T>>, string>)
    ensures r.Failure? <==> exists i | 0 <= i < |xs| :: inherited(key(xs[i]))
    ensures r.Failure? ==> r.error == "TypeError: push is not a function"
    ensures r.Success? ==> r.value.Keys == KeysOf(xs, key)
    ensures r.Success? ==> forall k | k in r.value :: r.value[k] == Bucket(xs, key, k)
  {
    var buckets: map<K, seq<T>> := map[];
    var i := 0;
    while i < |xs|
      invariant 0 <= i <= |xs|
      invariant forall j | 0 <= j < i :: !inherited(key(xs[j]))
      invariant buckets.Keys == KeysOf(xs[..i], key)
      invariant forall k | k in buckets :: buckets[k] == Bucket(xs[..i], key, k)
    {
      var item := xs[i];
      var groupKey := key(item);
      if inherited(groupKey) {
        return Failure("TypeError: push is not a function");
      }
      var bucket := if groupKey in buckets then buckets[groupKey] else [];
      GroupByStep(xs[..i], item, key, buckets);
      assert xs[..i + 1] == xs[..i] + [item];
      buckets := buckets[groupKey := bucket + [item]];
      i := i + 1;
    }
    assert xs[..|xs|] == xs;
    return Success(buckets);
  }

  /** Appending an item to the bucket of its key keeps the buckets those of the longer list. */
  lemma GroupByStep<T, K>(xs: seq<T>, x: T, key: T -> K, buckets: map<K, seq<T>>)
    requires buckets.Keys == KeysOf(xs, key)
    requires forall k | k in buckets :: buckets[k] == Bucket(xs, key, k)
    ensures var after := buckets[key(x) := (if key(x) in buckets then buckets[key(x)] else []) + [x]];
      && after.Keys == KeysOf(xs + [x], key)
      && forall k | k in after :: after[k] == Bucket(xs + [x], key, k)
  {
    KeysOfSnoc(xs, x, key);
    if key(x) !in buckets {
      BucketOfAbsentKey(xs, key, key(x));
    }
    var after := buckets[key(x) := (if key(x) in buckets then buckets[key(x)] else []) + [x]];
    forall k | k in after
      ensures after[k] == Bucket(xs + [x], key, k)
    {
      BucketSnoc(xs, x, key, k);
    }
  }

  /** Total size of the buckets of the listed keys. */
  function BucketSizes<T, K(==)>(xs: seq<T>, key: T -> K, ks: seq<K>): nat {
    if ks == [] then 0 else |Bucket(xs, key, ks[0])| + BucketSizes(xs, key, ks[1..])
  }

  lemma {:induction false} BucketSizesSnoc<T, K>(xs: seq<T>, x: T, key: T -> K, ks: seq<K>)
    requires forall a, b | 0 <= a < b < |ks| :: ks[a] != ks[b]
    ensures BucketSizes(xs + [x], key, ks) == BucketSizes(xs, key, ks) + (if key(x) in ks then 1 else 0)
  {
    if ks != [] {
      BucketSnoc(xs, x, key, ks[0]);
      BucketSizesSnoc(xs, x, key, ks[1..]);
      if key(x) == ks[0] {
        assert key(x) !in ks[1..] by {
          forall j | 0 <= j < |ks[1..]|
            ensures ks[1..][j] != ks[0]
          {
            assert ks[1..][j] == ks[j + 1];
          }
        }
      } else {
        assert key(x) in ks[1..] <==> key(x) in ks by {
          if key(x) in ks {
            var j :| 0 <= j < |ks| && ks[j] == key(x);
            assert ks[1..][j - 1] == key(x);
          }
        }
      }
    }
  }

  /**
   * Every item lands in exactly one bucket: over any list of distinct keys
   * that includes every key, the bucket sizes add up to the number of items.
   */
  lemma {:induction false} BucketSizesSum<T, K>(xs: seq<T>, key: T -> K, ks: seq<K>)
    requires forall a, b | 0 <= a < b < |ks| :: ks[a] != ks[b]
    requires forall i | 0 <= i < |xs| :: key(xs[i]) in ks
    ensures BucketSizes(xs, key, ks) == |xs|
    decreases |xs|
  {
    if xs == [] {
      BucketSizesEmpty(key, ks);
    } else {
      var init := xs[..|xs| - 1];
      var x := xs[|xs| - 1];
      assert xs == init + [x];
      BucketSizesSum(init, key, ks);
      BucketSizesSnoc(init, x, key, ks);
    }
  }

  lemma {:induction false} BucketSizesEmpty<T, K>(key: T -> K, ks: seq<K>)
    ensures BucketSizes([], key, ks) == 0
  {
    if ks != [] {
      BucketSizesEmpty(key, ks[1..]);
    }
  }

  // ---------------------------------------------------------------------
  // retry: up to maxRetries calls, the first success wins
  // ---------------------------------------------------------------------

  /**
   * `retry(fn, maxRetries)`, with the awaited call's outcome on the `k`-th
   * attempt (counted from 0) given by `outcome(k)`. Returns the result and the
   * number of calls made; when every call fails the error is the last one,
   * or `None` (`undefined`) when no call was made.
   */
  method Retry<T, E>(outcome: nat -> Result<T, E>, maxRetries: int) returns (r: Result<T, Option<E>>, calls: nat)
    ensures calls <= if maxRetries < 0 then 0 else maxRetries
    ensures forall k | 0 <= k < calls - 1 :: outcome(k).Failure?
    ensures r.Success? ==> calls >= 1 && outcome(calls - 1) == Success(r.value)
    ensures r.Failure? ==> calls == (if maxRetries < 0 then 0 else maxRetries)
    ensures r.Failure? && calls > 0 ==> outcome(calls - 1).Failure? && r.error == Some(outcome(calls - 1).error)
    ensures r.Failure? && calls == 0 ==> r.error == None
  {
    var lastError: Option<E> := None;
    var attempt := 1;
    calls := 0;
    while attempt <= maxRetries
      invariant 1 <= attempt && calls == attempt - 1
      invariant maxRetries >= 0 ==> attempt <= maxRetries + 1
      invariant maxRetries < 0 ==> attempt == 1
      invariant forall k | 0 <= k < calls :: outcome(k).Failure?
      invariant calls == 0 ==> lastError == None
      invariant calls > 0 ==> lastError == Some(outcome(calls - 1).error)
      decreases maxRetries - attempt
    {
      var o := outcome(attempt - 1);
      calls := attempt;
      if o.Success? {
        return Success(o.value), calls;
      }
      lastError := Some(o.error);
      attempt := attempt + 1;
    }
    return Failure(lastError), calls;
  }

  // ---------------------------------------------------------------------
  // ScraperStats: run counters
  // ---------------------------------------------------------------------

  /** The per-tournament entry: how often it was scraped and its latest match count. */
  datatype TournamentTally = TournamentTally(scrapes: nat, matches: int)

  /** `successRate`: `'0%'` before the first scrape, otherwise the ratio it formats. */
  datatype SuccessRate = NoScrapes | Ratio(successful: nat, total: nat)

  /** The uptime split into whole hours, minutes and seconds. */
  datatype Uptime = Uptime(hours: int, minutes: int, seconds: int)

  /** What `getStats` reports. */
  datatype StatsReport = StatsReport(
    uptime: Uptime,
    totalScrapes: nat,
    successfulScrapes: nat,
    failedScrapes: nat,
    successRate: SuccessRate,
    totalMatchesFound: int,
    activeTournaments: nat)

  /** JavaScript's `%`: the remainder takes the sign of the dividend. */
  function JsRem(a: int, b: int): (r: int)
    requires b > 0
    ensures a >= 0 ==> 0 <= r < b && a == (a / b) * b + r
    ensures a < 0 ==> -b < r <= 0
  {
    if a >= 0 then a % b else -((-a) % b)
  }

  /** `Math.floor(x / y)` for a positive divisor: Dafny's division already floors. */
  function FloorDiv(a: int, b: int): int
    requires b > 0
  {
    a / b
  }

  /** The hours, minutes and seconds `getStats` reads off an uptime in milliseconds. */
  function UptimeOf(ms: int): (r: Uptime)
    ensures ms >= 0 ==> r.hours >= 0 && r.minutes >= 0 && r.seconds >= 0
    ensures ms < 0 ==> r.hours < 0 && r.minutes <= 0 && r.seconds <= 0
  {
    Uptime(FloorDiv(ms, 3600000), FloorDiv(JsRem(ms, 3600000), 60000), FloorDiv(JsRem(ms, 60000), 1000))
  }

  /**
   * For a non-negative uptime the three parts are a proper clock reading:
   * minutes and seconds below 60, and together they account for the uptime
   * up to its final partial second.
   */
  lemma UptimeSplits(ms: int)
    requires ms >= 0
    ensures 0 <= UptimeOf(ms).minutes < 60 && 0 <= UptimeOf(ms).seconds < 60
    ensures 0 <= ms - (UptimeOf(ms).hours * 3600000 + UptimeOf(ms).minutes * 60000 + UptimeOf(ms).seconds * 1000) < 1000
  {
    var h, rh := ms / 3600000, ms % 3600000;
    var m, rm := rh / 60000, rh % 60000;
    var s, rs := rm / 1000, rm % 1000;
    assert UptimeOf(ms) == Uptime(h, m, s) by {
      DivModOf(ms, 60000, h * 60 + m, rm);
    }
    assert m < 60 by {
      DivModOf(rh, 60000, rh / 60000, rh % 60000);
    }
    assert s < 60;
    assert ms == h * 3600000 + m * 60000 + s * 1000 + rs;
  }

  /** Division by a positive constant is determined by a quotient and a remainder in range. */
  lemma DivModOf(a: int, b: int, q: int, r: int)
    requires b > 0 && a == q * b + r && 0 <= r < b
    ensures a / b == q && a % b == r
  {
    if a / b < q {
      assert a / b <= q - 1;
      MulMonotone(a / b, q - 1, b);
    } else if a / b > q {
      MulMonotone(q + 1, a / b, b);
    }
  }

  lemma MulMonotone(x: int, y: int, b: int)
    requires x <= y && b > 0
    ensures x * b <= y * b
  {
  }

  /** The scraper's run counters. */
  class ScraperStats {
    var startTime: int
    var totalScrapes: nat
    var successfulScrapes: nat
    var failedScrapes: nat
    var totalMatchesFound: int
    var tournaments: map<string, TournamentTally>

    /** Every scrape is either a success or a failure, and a listed tournament was scraped. */
    predicate Valid()
      reads this
    {
      && totalScrapes == successfulScrapes + failedScrapes
      && forall t | t in tournaments :: tournaments[t].scrapes >= 1
    }

    /** `new ScraperStats()`: the constructor runs `reset`, with the clock read as `now`. */
    constructor (now: int)
      ensures Valid()
      ensures startTime == now && totalScrapes == 0 && successfulScrapes == 0 && failedScrapes == 0
      ensures totalMatchesFound == 0 && tournaments == map[]
    {
      startTime := now;
      totalScrapes := 0;
      successfulScrapes := 0;
      failedScrapes := 0;
      totalMatchesFound := 0;
      tournaments := map[];
    }

    /** `reset()`: restart the clock at `now` and zero every counter. */
    method Reset(now: int)
      modifies this
      ensures Valid()
      ensures startTime == now && totalScrapes == 0 && successfulScrapes == 0 && failedScrapes == 0
      ensures totalMatchesFound == 0 && tournaments == map[]
    {
      startTime := now;
      totalScrapes := 0;
      successfulScrapes := 0;
      failedScrapes := 0;
      totalMatchesFound := 0;
      tournaments := map[];
    }

    /**
     * `recordScrape(tournamentId, success, matchCount)`: one more scrape,
     * counted as a success or a failure; only a success adds its matches to
     * the total; the tournament's entry counts the scrape and keeps the
     * latest match count.
     */
    method RecordScrape(tournamentId: string, success: bool, matchCount: int)
      requires Valid()
      modifies this
      ensures Valid()
      ensures totalScrapes == old(totalScrapes) + 1
      ensures success ==> successfulScrapes == old(successfulScrapes) + 1 && failedScrapes == old(failedScrapes)
      ensures !success ==> failedScrapes == old(failedScrapes) + 1 && successfulScrapes == old(successfulScrapes)
      ensures totalMatchesFound == old(totalMatchesFound) + (if success then matchCount else 0)
      ensures tournaments.Keys == old(tournaments).Keys + {tournamentId}
      ensures tournaments[tournamentId] ==
        TournamentTally((if tournamentId in old(tournaments) then old(tournaments)[tournamentId].scrapes else 0) + 1, matchCount)
      ensures forall t | t in old(tournaments) && t != tournamentId :: tournaments[t] == old(tournaments)[t]
      ensures startTime == old(startTime)
    {
      totalScrapes := totalScrapes + 1;
      if success {
        successfulScrapes := successfulScrapes + 1;
        totalMatchesFound := totalMatchesFound + matchCount;
      } else {
        failedScrapes := failedScrapes + 1;
      }
      var tally := if tournamentId in tournaments then tournaments[tournamentId] else TournamentTally(0, 0);
      tally := TournamentTally(tally.scrapes + 1, matchCount);
      tournaments := tournaments[tournamentId := tally];
    }

    /** `getStats()`, with the clock read as `now`. */
    function GetStats(now: int): (r: StatsReport)
      reads this
      ensures r.successRate == NoScrapes <==> totalScrapes == 0
      ensures r.successRate.Ratio? ==> r.successRate == Ratio(successfulScrapes, totalScrapes)
      ensures r.activeTournaments == |tournaments.Keys|
      ensures r.totalScrapes == totalScrapes && r.successfulScrapes == successfulScrapes
      ensures r.failedScrapes == failedScrapes && r.totalMatchesFound == totalMatchesFound
      ensures r.uptime == UptimeOf(now - startTime)
    {
      StatsReport(
        UptimeOf(now - startTime),
        totalScrapes, successfulScrapes, failedScrapes,
        if totalScrapes > 0 then Ratio(successfulScrapes, totalScrapes) else NoScrapes,
        totalMatchesFound,
        |tournaments.Keys|)
    }
  }

  /**
   * The reported success ratio never exceeds one: successes are at most the
   * scrapes recorded.
   */
  lemma SuccessRateAtMostOne(s: ScraperStats, now: int)
    requires s.Valid()
    ensures s.GetStats(now).successRate.Ratio? ==>
      s.GetStats(now).successRate.successful <= s.GetStats(now).successRate.total
  {
  }
}
