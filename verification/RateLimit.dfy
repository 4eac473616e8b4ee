/**
 * The fixed-window rate limiter (apps/relay/src/do/rate-limit.ts). Times, limits and window
 * lengths are integers; the time of a call is a parameter.
 */
module RateLimit {
  import opened Common

  datatype Counter = Counter(count: int, resetAt: int)

  datatype Answer = Answer(allowed: bool, remaining: int, resetAt: int)

  /** The window has run out, or there is none. */
  predicate Resets(stored: Option<Counter>, windowMs: int, now: int) {
    (if stored.Some? then stored.value.resetAt else now + windowMs) <= now
  }

  function Counted(stored: Option<Counter>, windowMs: int, now: int): Counter {
    var state := if stored.Some? then stored.value else Counter(0, now + windowMs);
    var current := if state.resetAt <= now then Counter(0, now + windowMs) else state;
    current.(count := current.count + 1)
  }

  function AnswerFor(current: Counter, limit: int): Answer {
    Answer(current.count <= limit, Max(0, limit - current.count), current.resetAt)
  }

  class RateLimitDO {
    var storage: map<string, Counter>

    constructor ()
      ensures storage == map[]
    {
      storage := map[];
    }

    ghost function Stored(key: string): Option<Counter>
      reads this
    {
      if key in storage then Some(storage[key]) else None
    }

    method Check(key: string, limit: int, windowMs: int, now: int) returns (answer: Answer)
      modifies this
      ensures var current := Counted(old(Stored(key)), windowMs, now);
        answer == AnswerFor(current, limit) && storage == old(storage)[key := current]
    {
      var current := Counter(0, now + windowMs);
      if key in storage {
        current := storage[key];
      }
      if current.resetAt <= now {
        current := Counter(0, now + windowMs);
      }
      current := current.(count := current.count + 1);
      storage := storage[key := current];
      answer := Answer(current.count <= limit, Max(0, limit - current.count), current.resetAt);
    }
  }

  // ---- the calls for one key, with one limit and one window length ----

  /** The counter stored after calls at these times. */
  function After(times: seq<int>, windowMs: int): Option<Counter> {
    if times == [] then None
    else Some(Counted(After(times[..|times| - 1], windowMs), windowMs, times[|times| - 1]))
  }

  predicate AllowedAt(times: seq<int>, k: nat, limit: int, windowMs: int)
    requires k < |times|
  {
    AnswerFor(Counted(After(times[..k], windowMs), windowMs, times[k]), limit).allowed
  }

  /** The call that opened the counter window of call k. */
  function Opener(times: seq<int>, k: nat, windowMs: int): (r: nat)
    requires k < |times|
    ensures r <= k
  {
    if k == 0 || Resets(After(times[..k], windowMs), windowMs, times[k]) then k
    else Opener(times, k - 1, windowMs)
  }

  /** How many of the calls lo..hi are allowed. */
  function AllowedAmong(times: seq<int>, lo: nat, hi: nat, limit: int, windowMs: int): nat
    requires lo <= hi <= |times|
    decreases hi - lo
  {
    if lo == hi then 0
    else AllowedAmong(times, lo, hi - 1, limit, windowMs) + if AllowedAt(times, hi - 1, limit, windowMs) then 1 else 0
  }

  /** How many calls at a time in [from, to) are allowed. */
  function AllowedWithin(times: seq<int>, n: nat, from: int, to: int, limit: int, windowMs: int): nat
    requires n <= |times|
  {
    if n == 0 then 0
    else
      var counts := from <= times[n - 1] < to && AllowedAt(times, n - 1, limit, windowMs);
      AllowedWithin(times, n - 1, from, to, limit, windowMs) + if counts then 1 else 0
  }

  ghost predicate NonDecreasing(times: seq<int>) {
    forall i, j :: 0 <= i < j < |times| ==> times[i] <= times[j]
  }

  /** The counter counts the calls since its window opened, and resets one window length after that. */
  lemma {:induction false} CounterOfWindow(times: seq<int>, k: nat, windowMs: int)
    requires k < |times|
    ensures var o := Opener(times, k, windowMs);
      Counted(After(times[..k], windowMs), windowMs, times[k]) == Counter(k - o + 1, times[o] + windowMs)
  {
    if k > 0 {
      CounterOfWindow(times, k - 1, windowMs);
      assert times[..k][..k - 1] == times[..k - 1];
    }
  }

  /** A call opens a window exactly if the last one opened at least one window length ago. */
  lemma OpenerStep(times: seq<int>, k: nat, windowMs: int)
    requires 0 < k < |times|
    ensures var o := Opener(times, k - 1, windowMs);
      Opener(times, k, windowMs) == if times[o] + windowMs <= times[k] then k else o
  {
    CounterOfWindow(times, k - 1, windowMs);
    assert times[..k][..k - 1] == times[..k - 1];
    assert After(times[..k], windowMs) == Some(Counted(After(times[..k - 1], windowMs), windowMs, times[k - 1]));
  }

  /** A call is allowed exactly if it is among the first `limit` of its window. */
  lemma AllowedInWindow(times: seq<int>, k: nat, limit: int, windowMs: int)
    requires k < |times|
    ensures AllowedAt(times, k, limit, windowMs) <==> k - Opener(times, k, windowMs) < limit
  {
    CounterOfWindow(times, k, windowMs);
  }

  /** Calls between an opener and a call of its window are of that window. */
  lemma {:induction false} SameWindow(times: seq<int>, i: nat, k: nat, windowMs: int)
    requires k < |times| && Opener(times, k, windowMs) <= i <= k
    ensures Opener(times, i, windowMs) == Opener(times, k, windowMs)
  {
    if i < k {
      SameWindow(times, i, k - 1, windowMs);
    }
  }

  /** The next window opens at least one window length after the last. */
  lemma OpensLater(times: seq<int>, k: nat, windowMs: int)
    requires 0 < k < |times| && Opener(times, k, windowMs) == k
    ensures times[k] >= times[Opener(times, k - 1, windowMs)] + windowMs
  {
    OpenerStep(times, k, windowMs);
  }

  // ---- one window ----

  /** Of consecutive calls of one window, those allowed are the ones among its first `limit`. */
  lemma {:induction false} PartOfWindow(times: seq<int>, o: nat, lo: nat, hi: nat, limit: int, windowMs: int)
    requires o <= lo < hi <= |times| && Opener(times, hi - 1, windowMs) == o
    ensures AllowedAmong(times, lo, hi, limit, windowMs) == Max(0, Min(hi - lo, limit - (lo - o)))
  {
    AllowedInWindow(times, hi - 1, limit, windowMs);
    if lo < hi - 1 {
      SameWindow(times, hi - 2, hi - 1, windowMs);
      PartOfWindow(times, o, lo, hi - 1, limit, windowMs);
    }
  }

  /** From its opener on, a window allows exactly min(limit, calls). */
  lemma WindowAllowsLimit(times: seq<int>, o: nat, hi: nat, limit: int, windowMs: int)
    requires o < hi <= |times| && Opener(times, hi - 1, windowMs) == o
    ensures AllowedAmong(times, o, hi, limit, windowMs) == Min(Max(0, limit), hi - o)
  {
    PartOfWindow(times, o, o, hi, limit, windowMs);
  }

  // ---- any interval of one window length ----

  lemma {:induction false} AmongSplits(times: seq<int>, lo: nat, mid: nat, hi: nat, limit: int, windowMs: int)
    requires lo <= mid <= hi <= |times|
    ensures AllowedAmong(times, lo, hi, limit, windowMs)
         == AllowedAmong(times, lo, mid, limit, windowMs) + AllowedAmong(times, mid, hi, limit, windowMs)
    decreases hi
  {
    if mid < hi {
      AmongSplits(times, lo, mid, hi - 1, limit, windowMs);
    }
  }

  /** Calls within one window length touch at most two windows, and the earlier one opened before them. */
  lemma TwoWindows(times: seq<int>, lo: nat, hi: nat, from: int, limit: int, windowMs: int)
    requires NonDecreasing(times) && lo < hi <= |times|
    requires forall k :: lo <= k < hi ==> from <= times[k] < from + windowMs
    ensures AllowedAmong(times, lo, hi, limit, windowMs) <= Max(0, 2 * limit - 1)
  {
    var o := Opener(times, hi - 1, windowMs);
    if o <= lo {
      PartOfWindow(times, o, lo, hi, limit, windowMs);
    } else {
      SameWindow(times, o, hi - 1, windowMs);
      OpensLater(times, o, windowMs);
      var o1 := Opener(times, o - 1, windowMs);
      assert times[o1] < from;
      assert o1 < lo;
      AmongSplits(times, lo, o, hi, limit, windowMs);
      PartOfWindow(times, o1, lo, o, limit, windowMs);
      PartOfWindow(times, o, o, hi, limit, windowMs);
    }
  }

  /** The first call at or after a time. */
  function FirstFrom(times: seq<int>, t: int): (r: nat)
    ensures r <= |times|
    ensures forall k :: 0 <= k < r ==> times[k] < t
    ensures r < |times| ==> times[r] >= t
  {
    if times == [] || times[0] >= t then 0
    else
      var r := FirstFrom(times[1..], t);
      assert forall k :: 1 <= k < r + 1 ==> times[k] == times[1..][k - 1];
      r + 1
  }

  lemma {:induction false} WithinIsAmong(times: seq<int>, n: nat, lo: nat, hi: nat, from: int, to: int,
                                         limit: int, windowMs: int)
    requires n <= |times| && lo <= hi <= |times|
    requires forall k :: 0 <= k < |times| ==> (from <= times[k] < to <==> lo <= k < hi)
    ensures AllowedWithin(times, n, from, to, limit, windowMs)
         == if n <= lo then 0 else AllowedAmong(times, lo, if n < hi then n else hi, limit, windowMs)
  {
    if n > 0 {
      WithinIsAmong(times, n - 1, lo, hi, from, to, limit, windowMs);
    }
  }

  /**
   * Under a clock that does not go back, any half-open interval of one window length holds at most
   * 2 * limit - 1 allowed calls (none for a limit of 0 or less).
   */
  lemma SlidingBound(times: seq<int>, from: int, limit: int, windowMs: int)
    requires NonDecreasing(times)
    ensures AllowedWithin(times, |times|, from, from + windowMs, limit, windowMs) <= Max(0, 2 * limit - 1)
  {
    var to := from + windowMs;
    if windowMs > 0 {
      var lo, hi := FirstFrom(times, from), FirstFrom(times, to);
      forall k | 0 <= k < |times| ensures from <= times[k] < to <==> lo <= k < hi {
        if k >= lo {
          assert times[lo] <= times[k];
        }
        if k >= hi {
          assert times[hi] <= times[k];
        }
      }
      assert lo <= hi;
      WithinIsAmong(times, |times|, lo, hi, from, to, limit, windowMs);
      if lo < hi {
        TwoWindows(times, lo, hi, from, limit, windowMs);
      }
    } else {
      WithinNone(times, |times|, from, to, limit, windowMs);
    }
  }

  lemma {:induction false} WithinNone(times: seq<int>, n: nat, from: int, to: int, limit: int, windowMs: int)
    requires n <= |times| && to <= from
    ensures AllowedWithin(times, n, from, to, limit, windowMs) == 0
  {
    if n > 0 {
      WithinNone(times, n - 1, from, to, limit, windowMs);
    }
  }

  /** What the answer to call k says is left. */
  function RemainingAt(times: seq<int>, k: nat, limit: int, windowMs: int): int
    requires k < |times|
  {
    AnswerFor(Counted(After(times[..k], windowMs), windowMs, times[k]), limit).remaining
  }

  /**
   * The number of calls said to remain is the number that the window still allows: of the further calls in the
   * window of call k as many are allowed as remain, or all of them if they are fewer.
   */
  lemma RemainingIsExact(times: seq<int>, k: nat, hi: nat, limit: int, windowMs: int)
    requires k < hi <= |times| && Opener(times, hi - 1, windowMs) <= k
    ensures RemainingAt(times, k, limit, windowMs) >= 0
    ensures AllowedAmong(times, k + 1, hi, limit, windowMs) == Min(RemainingAt(times, k, limit, windowMs), hi - (k + 1))
  {
    var o := Opener(times, hi - 1, windowMs);
    SameWindow(times, k, hi - 1, windowMs);
    CounterOfWindow(times, k, windowMs);
    if k + 1 < hi {
      PartOfWindow(times, o, k + 1, hi, limit, windowMs);
    }
  }

  /** The reset time said with call k is when its window is over: the next call opens a new one exactly from then on. */
  lemma ResetIsExact(times: seq<int>, k: nat, limit: int, windowMs: int)
    requires k + 1 < |times|
    ensures var answer := AnswerFor(Counted(After(times[..k], windowMs), windowMs, times[k]), limit);
      Opener(times, k + 1, windowMs) == k + 1 <==> times[k + 1] >= answer.resetAt
  {
    OpenerStep(times, k + 1, windowMs);
    CounterOfWindow(times, k, windowMs);
  }

  // ---- the bound is reached ----

  /** One call opens a window; the rest of its share comes at its end, the next window's share right after. */
  function Burst(limit: nat, windowMs: int): seq<int>
    requires limit > 0
  {
    [0] + seq(limit - 1, _ => windowMs - 1) + seq(limit, _ => windowMs)
  }

  lemma BurstTimes(limit: nat, windowMs: int)
    requires limit > 0 && windowMs >= 2
    ensures var times := Burst(limit, windowMs);
      && |times| == 2 * limit && NonDecreasing(times) && times[0] == 0
      && (forall k :: 1 <= k < limit ==> times[k] == windowMs - 1)
      && (forall k :: limit <= k < 2 * limit ==> times[k] == windowMs)
  {
  }

  lemma {:induction false} BurstOpeners(limit: nat, windowMs: int, k: nat)
    requires limit > 0 && windowMs >= 2 && k < 2 * limit
    ensures |Burst(limit, windowMs)| == 2 * limit
    ensures Opener(Burst(limit, windowMs), k, windowMs) == if k < limit then 0 else limit
  {
    BurstTimes(limit, windowMs);
    if k > 0 {
      var times := Burst(limit, windowMs);
      hide *;
      BurstOpeners(limit, windowMs, k - 1);
      OpenerStep(times, k, windowMs);
    }
  }

  /** For every positive limit some calls reach the bound, so it cannot be lowered. */
  lemma BoundIsReached(limit: nat, windowMs: int)
    requires limit > 0 && windowMs >= 2
    ensures var times := Burst(limit, windowMs);
      NonDecreasing(times)
      && AllowedWithin(times, |times|, windowMs - 1, 2 * windowMs - 1, limit, windowMs) == 2 * limit - 1
  {
    var times := Burst(limit, windowMs);
    BurstTimes(limit, windowMs);
    hide Burst;
    BurstOpeners(limit, windowMs, limit - 1);
    BurstOpeners(limit, windowMs, 2 * limit - 1);
    WindowAllowsLimit(times, 0, limit, limit, windowMs);
    WindowAllowsLimit(times, limit, 2 * limit, limit, windowMs);
    BurstOpeners(limit, windowMs, 0);
    WindowAllowsLimit(times, 0, 1, limit, windowMs);
    AmongSplits(times, 0, 1, limit, limit, windowMs);
    AmongSplits(times, 1, limit, 2 * limit, limit, windowMs);
    WithinIsAmong(times, 2 * limit, 1, 2 * limit, windowMs - 1, 2 * windowMs - 1, limit, windowMs);
  }
}
