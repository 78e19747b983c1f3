/**
  The per-key, per-minute request counter of the server (`checkRateLimit` and
  the global `RateLimit` map).  A counter is addressed by the string
  "<key>:<minute index>"; a call is admitted, and bumps the counter, exactly
  when the counter is below the limit; a refused call changes nothing; no
  counter is ever evicted.  The minute index (`Math.floor(Date.now() / 60000)`)
  is an input.
*/
module RateLimit {

  /** Limit applied when the caller passes none. */
  const DefaultLimit: int := 10

  function DigitChar(d: nat): (c: char)
    requires d < 10
    ensures '0' <= c <= '9'
  {
    ('0' as int + d) as char
  }

  /** The decimal text of a non-negative integer, as a template literal prints it. */
  function Decimal(n: nat): (s: string)
    ensures 1 <= |s|
    ensures n < 10 <==> |s| == 1
    ensures forall i :: 0 <= i < |s| ==> '0' <= s[i] <= '9'
  {
    if n < 10 then [DigitChar(n)] else Decimal(n / 10) + [DigitChar(n % 10)]
  }

  /** Two minute indices print alike only when they are equal. */
  lemma {:induction false} DecimalInjective(m: nat, n: nat)
    requires Decimal(m) == Decimal(n)
    ensures m == n
  {
    if m >= 10 && n >= 10 {
      var dm, dn := Decimal(m), Decimal(n);
      assert dm[|dm| - 1] == DigitChar(m % 10);
      assert dn[|dn| - 1] == DigitChar(n % 10);
      assert m % 10 == n % 10;
      assert Decimal(m / 10) == dm[..|dm| - 1] == dn[..|dn| - 1] == Decimal(n / 10);
      DecimalInjective(m / 10, n / 10);
    } else {
      assert Decimal(m)[0] == Decimal(n)[0];
    }
  }

  /** The map key of the counter for `key` in minute `minute`: `${key}:${minute}`. */
  function CounterKey(key: string, minute: nat): (k: string)
    ensures k == key + ":" + Decimal(minute)
    ensures |k| > |key| && k[|key|] == ':'
  {
    key + ":" + Decimal(minute)
  }

  /** Distinct (key, minute) pairs never share a counter, even when a key contains ':'
      (the minute's digits hold no ':', so the last ':' marks the boundary). */
  lemma CounterKeyInjective(key1: string, minute1: nat, key2: string, minute2: nat)
    requires CounterKey(key1, minute1) == CounterKey(key2, minute2)
    ensures key1 == key2 && minute1 == minute2
  {
    var s := CounterKey(key1, minute1);
    var d1, d2 := Decimal(minute1), Decimal(minute2);
    assert |d1| == |d2|;
    assert d1 == s[|s| - |d1|..] == d2;
    assert key1 == s[..|key1|] == key2;
    DecimalInjective(minute1, minute2);
  }

  /** `RateLimit.get(key) || 0`: a counter that was never bumped reads as zero. */
  function Count(counts: map<string, nat>, k: string): (c: nat)
    ensures k !in counts ==> c == 0
    ensures k in counts ==> c == counts[k]
  {
    if k in counts then counts[k] else 0
  }

  /** Every counter of `before` is still there in `after`, and none went down. */
  ghost predicate Grows(before: map<string, nat>, after: map<string, nat>)
  {
    forall k :: k in before ==> k in after && before[k] <= after[k]
  }

  /**
    One call of `checkRateLimit` on the counter `k`: the verdict and the new map.
  */
  function Admit(counts: map<string, nat>, k: string, limit: int): (r: (bool, map<string, nat>))
    ensures r.0 <==> Count(counts, k) < limit
    ensures !r.0 ==> r.1 == counts
    ensures r.0 ==> Count(r.1, k) == Count(counts, k) + 1 <= limit
    ensures forall k' :: k' != k ==> Count(r.1, k') == Count(counts, k')
    ensures r.1.Keys == if r.0 then counts.Keys + {k} else counts.Keys
    ensures Grows(counts, r.1)
  {
    var count := Count(counts, k);
    if count >= limit then (false, counts) else (true, counts[k := count + 1])
  }

  /** A call on one (key, minute) leaves the counter of every other (key, minute) as it was:
      counters are independent across keys and across minutes. */
  lemma OtherCountersUntouched(counts: map<string, nat>, key: string, minute: nat, limit: int,
                               otherKey: string, otherMinute: nat)
    requires key != otherKey || minute != otherMinute
    ensures Count(Admit(counts, CounterKey(key, minute), limit).1, CounterKey(otherKey, otherMinute))
         == Count(counts, CounterKey(otherKey, otherMinute))
  {
    if CounterKey(key, minute) == CounterKey(otherKey, otherMinute) {
      CounterKeyInjective(key, minute, otherKey, otherMinute);
    }
  }

  /** `n` successive calls on the same counter: their verdicts, in order, and the final map. */
  function Repeat(counts: map<string, nat>, k: string, limit: int, n: nat): (r: (seq<bool>, map<string, nat>))
    ensures |r.0| == n
    decreases n
  {
    if n == 0 then ([], counts)
    else
      var (first, next) := Admit(counts, k, limit);
      var (rest, final) := Repeat(next, k, limit, n - 1);
      ([first] + rest, final)
  }

  /** Starting from count c, the i-th of n successive calls is admitted exactly when
      c + i < limit; so a fresh counter admits `limit` calls, then refuses every
      later one, and its final value is never pushed past the limit. */
  lemma {:induction false} RepeatedCalls(counts: map<string, nat>, k: string, limit: int, n: nat)
    ensures forall i :: 0 <= i < n ==> Repeat(counts, k, limit, n).0[i] == (Count(counts, k) + i < limit)
    ensures Count(Repeat(counts, k, limit, n).1, k)
         == if Count(counts, k) >= limit then Count(counts, k)
            else if Count(counts, k) + n <= limit then Count(counts, k) + n
            else limit
    ensures Grows(counts, Repeat(counts, k, limit, n).1)
    decreases n
  {
    if n > 0 {
      var (first, next) := Admit(counts, k, limit);
      RepeatedCalls(next, k, limit, n - 1);
      var rest := Repeat(next, k, limit, n - 1).0;
      assert Repeat(counts, k, limit, n).0 == [first] + rest;
      forall i | 0 <= i < n
        ensures Repeat(counts, k, limit, n).0[i] == (Count(counts, k) + i < limit)
      {
        if i > 0 {
          assert Repeat(counts, k, limit, n).0[i] == rest[i - 1];
        }
      }
    }
  }

  /** With limit 3, five calls in one minute give true, true, true, false, false;
      the first call of the next minute is admitted again. */
  lemma ThreePerMinute(counts: map<string, nat>, key: string, minute: nat)
    requires CounterKey(key, minute) !in counts && CounterKey(key, minute + 1) !in counts
    ensures Repeat(counts, CounterKey(key, minute), 3, 5).0 == [true, true, true, false, false]
    ensures Admit(Repeat(counts, CounterKey(key, minute), 3, 5).1, CounterKey(key, minute + 1), 3).0
  {
    var k := CounterKey(key, minute);
    RepeatedCalls(counts, k, 3, 5);
    var (verdicts, final) := Repeat(counts, k, 3, 5);
    assert verdicts == [true, true, true, false, false];
    RepeatedStaysOnOneCounter(counts, key, minute, 3, 5, key, minute + 1);
  }

  /** Calls on one counter never move another (key, minute)'s counter. */
  lemma {:induction false} RepeatedStaysOnOneCounter(counts: map<string, nat>, key: string, minute: nat,
                                                      limit: int, n: nat, otherKey: string, otherMinute: nat)
    requires key != otherKey || minute != otherMinute
    ensures Count(Repeat(counts, CounterKey(key, minute), limit, n).1, CounterKey(otherKey, otherMinute))
         == Count(counts, CounterKey(otherKey, otherMinute))
    decreases n
  {
    if n > 0 {
      var next := Admit(counts, CounterKey(key, minute), limit).1;
      OtherCountersUntouched(counts, key, minute, limit, otherKey, otherMinute);
      RepeatedStaysOnOneCounter(next, key, minute, limit, n - 1, otherKey, otherMinute);
    }
  }

  /** The global counter map, updated in place by each call. */
  class RateLimiter {
    var counts: map<string, nat>

    constructor ()
      ensures counts == map[]
    {
      counts := map[];
    }

    /** `checkRateLimit(key, limit)` during minute `minute`. */
    method CheckRateLimit(key: string, minute: nat, limit: int) returns (allowed: bool)
      modifies this
      ensures (allowed, counts) == Admit(old(counts), CounterKey(key, minute), limit)
    {
      var k := key + ":" + Decimal(minute);
      var count := if k in counts then counts[k] else 0;
      if count >= limit {
        return false;
      }
      counts := counts[k := count + 1];
      return true;
    }
  }
}
