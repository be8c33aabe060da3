/**
  The sliding log of `redisCheck` in src/lib/rate-limit.ts: a sorted set of call times,
  trimmed, extended and counted as one atomic step. The set's expiry time is renewed by
  every call; once it has passed, the set may vanish at any moment.
 */
module SlidingLogs {
  import opened Wrappers
  import opened FixedWindows

  datatype Log = Log(scores: seq<nat>, expireAt: int)

  datatype LogEvent = Logged(now: nat) | Vanish(now: nat)

  /** `zremrangebyscore k 0 upTo`. */
  function Trim(scores: seq<nat>, upTo: int): seq<nat> {
    if scores == [] then []
    else (if 0 <= scores[0] <= upTo then [] else [scores[0]]) + Trim(scores[1..], upTo)
  }

  function RedisCheck(log: Log, max: int, windowMs: nat, now: nat): (Log, Decision) {
    var scores := Trim(log.scores, now - windowMs) + [now];
    var count := |scores|;
    (Log(scores, now + windowMs),
     if count > max then Decision(false, 0, now + windowMs, Some(RetrySeconds(windowMs)))
     else Decision(true, if max - count < 0 then 0 else max - count, now + windowMs, None))
  }

  /** The log under a key; a missing set is empty. */
  function LogOf(logs: map<string, Log>, key: string): Log {
    if key in logs then logs[key] else Log([], 0)
  }

  /** The stored sets behind `redisCheck`, one per key. */
  class LogLimiter {
    var logs: map<string, Log>

    /** The four commands of the pipeline in order, then the decision on the cardinality. */
    method Check(key: string, max: int, windowMs: nat, now: nat) returns (d: Decision)
      modifies this
      ensures var (log, decision) := RedisCheck(LogOf(old(logs), key), max, windowMs, now);
              d == decision && logs == old(logs)[key := log]
    {
      var log := LogOf(logs, key);
      log := log.(scores := Trim(log.scores, now - windowMs));
      log := log.(scores := log.scores + [now]);
      var count := |log.scores|;
      log := log.(expireAt := now + windowMs);
      logs := logs[key := log];
      if count > max {
        return Decision(false, 0, now + windowMs, Some(RetrySeconds(windowMs)));
      }
      d := Decision(true, if max - count < 0 then 0 else max - count, now + windowMs, None);
    }
  }

  ghost predicate Monotone(events: seq<LogEvent>) {
    forall i, j :: 0 <= i < j < |events| ==> events[i].now <= events[j].now
  }

  function LogAfter(events: seq<LogEvent>, max: int, windowMs: nat): Log {
    if events == [] then Log([], 0)
    else
      var log := LogAfter(Front(events), max, windowMs);
      match Final(events)
      case Logged(now) => RedisCheck(log, max, windowMs, now).0
      case Vanish(_) => log.(scores := [])
  }

  /** The set only vanishes after its expiry time. */
  predicate Expiring(events: seq<LogEvent>, max: int, windowMs: nat) {
    events == []
    || (Expiring(Front(events), max, windowMs)
        && (Final(events).Vanish? ==> Final(events).now >= LogAfter(Front(events), max, windowMs).expireAt))
  }

  /** Calls, allowed or not, later than `lo`. */
  function CallsAfter(events: seq<LogEvent>, lo: int): nat {
    if events == [] then 0
    else CallsAfter(Front(events), lo) + if Final(events).Logged? && Final(events).now > lo then 1 else 0
  }

  function Above(scores: seq<nat>, lo: int): nat {
    if scores == [] then 0 else (if scores[0] > lo then 1 else 0) + Above(scores[1..], lo)
  }

  lemma {:induction false} AboveTrim(scores: seq<nat>, upTo: int, lo: int)
    requires upTo <= lo
    ensures Above(Trim(scores, upTo), lo) == Above(scores, lo)
  {
    if scores != [] {
      AboveTrim(scores[1..], upTo, lo);
      var rest := Trim(scores[1..], upTo);
      assert ([scores[0]] + rest)[1..] == rest && [] + rest == rest;
    }
  }

  lemma {:induction false} AboveAppend(a: seq<nat>, b: seq<nat>, lo: int)
    ensures Above(a + b, lo) == Above(a, lo) + Above(b, lo)
  {
    if a == [] {
      assert a + b == b;
    } else {
      assert (a + b)[1..] == a[1..] + b;
      AboveAppend(a[1..], b, lo);
    }
  }

  lemma {:induction false} TrimLength(scores: seq<nat>, upTo: int)
    ensures |Trim(scores, upTo)| == Above(scores, upTo)
  {
    if scores != [] {
      TrimLength(scores[1..], upTo);
    }
  }

  lemma {:induction false} NoCallsAfterExpiry(events: seq<LogEvent>, max: int, windowMs: nat, lo: int)
    requires Monotone(events)
    requires lo >= LogAfter(events, max, windowMs).expireAt - windowMs
    ensures CallsAfter(events, lo) == 0
    ensures Above(LogAfter(events, max, windowMs).scores, lo) == 0
    decreases |events|
  {
    if events != [] {
      var before := Front(events);
      if Final(events).Vanish? {
        NoCallsAfterExpiry(before, max, windowMs, lo);
      } else {
        ExpiryFromLastCall(before, max, windowMs);
        NoCallsAfterExpiry(before, max, windowMs, lo);
        var now := Final(events).now;
        var log := LogAfter(before, max, windowMs);
        AboveTrim(log.scores, now - windowMs, lo);
        AboveAppend(Trim(log.scores, now - windowMs), [now], lo);
      }
    }
  }

  lemma {:induction false} ExpiryFromLastCall(events: seq<LogEvent>, max: int, windowMs: nat)
    requires Monotone(events)
    ensures LogAfter(events, max, windowMs).expireAt <= if events == [] then 0 else Final(events).now + windowMs
    decreases |events|
  {
    if events != [] {
      ExpiryFromLastCall(Front(events), max, windowMs);
    }
  }

  /** Above any time that has not left the window, the log knows every call, vanished or not. */
  lemma {:induction false} LogKnowsCalls(events: seq<LogEvent>, max: int, windowMs: nat, lo: int)
    requires Monotone(events) && Expiring(events, max, windowMs)
    requires events != [] ==> lo >= Final(events).now - windowMs
    ensures Above(LogAfter(events, max, windowMs).scores, lo) == CallsAfter(events, lo)
    decreases |events|
  {
    if events != [] {
      var before := Front(events);
      var log := LogAfter(before, max, windowMs);
      assert before != [] ==> Final(before).now <= Final(events).now;
      match Final(events)
      case Vanish(now) =>
        NoCallsAfterExpiry(before, max, windowMs, lo);
      case Logged(now) =>
        LogKnowsCalls(before, max, windowMs, lo);
        AboveTrim(log.scores, now - windowMs, lo);
        AboveAppend(Trim(log.scores, now - windowMs), [now], lo);
        assert Above([now], lo) == if now > lo then 1 else 0;
    }
  }

  lemma TrimmedAreCalls(events: seq<LogEvent>, max: int, windowMs: nat, now: nat)
    requires Monotone(events) && Expiring(events, max, windowMs)
    requires events != [] ==> Final(events).now <= now
    ensures |Trim(LogAfter(events, max, windowMs).scores, now - windowMs)| == CallsAfter(events, now - windowMs)
  {
    LogKnowsCalls(events, max, windowMs, now - windowMs);
    TrimLength(LogAfter(events, max, windowMs).scores, now - windowMs);
  }

  /**
    A call is allowed exactly when it and the earlier calls of the last `windowMs` are at most
    `max`; so whether and when the set vanished does not matter.
   */
  lemma DecisionFromCalls(events: seq<LogEvent>, max: int, windowMs: nat, now: nat)
    requires Monotone(events) && Expiring(events, max, windowMs)
    requires events != [] ==> Final(events).now <= now
    ensures var d := RedisCheck(LogAfter(events, max, windowMs), max, windowMs, now).1;
            && (d.allowed <==> CallsAfter(events, now - windowMs) + 1 <= max)
            && (d.allowed ==> d.remaining == max - (CallsAfter(events, now - windowMs) + 1) && d.retryAfter.None?)
            && (!d.allowed ==> d.remaining == 0 && d.retryAfter == Some(RetrySeconds(windowMs)))
            && d.resetAt == now + windowMs
  {
    TrimmedAreCalls(events, max, windowMs, now);
  }

  function OnlyCalls(events: seq<LogEvent>): seq<LogEvent> {
    if events == [] then []
    else OnlyCalls(Front(events)) + if Final(events).Logged? then [Final(events)] else []
  }

  lemma {:induction false} OnlyCallsFacts(events: seq<LogEvent>, max: int, windowMs: nat, lo: int)
    requires Monotone(events)
    ensures CallsAfter(OnlyCalls(events), lo) == CallsAfter(events, lo)
    ensures Monotone(OnlyCalls(events)) && Expiring(OnlyCalls(events), max, windowMs)
    ensures OnlyCalls(events) != [] ==> Final(OnlyCalls(events)).now <= Final(events).now
    decreases |events|
  {
    if events != [] {
      OnlyCallsFacts(Front(events), max, windowMs, lo);
      if Final(events).Logged? {
        assert Front(OnlyCalls(events)) == OnlyCalls(Front(events));
        assert Front(events) != [] ==> Final(Front(events)).now <= Final(events).now;
      } else {
        assert OnlyCalls(events) == OnlyCalls(Front(events));
      }
    }
  }

  /** The expiry of the key changes no decision. */
  lemma ExpiryInvisible(events: seq<LogEvent>, max: int, windowMs: nat, now: nat)
    requires Monotone(events) && Expiring(events, max, windowMs)
    requires events != [] ==> Final(events).now <= now
    ensures RedisCheck(LogAfter(events, max, windowMs), max, windowMs, now).1
         == RedisCheck(LogAfter(OnlyCalls(events), max, windowMs), max, windowMs, now).1
  {
    OnlyCallsFacts(events, max, windowMs, now - windowMs);
    TrimmedAreCalls(events, max, windowMs, now);
    TrimmedAreCalls(OnlyCalls(events), max, windowMs, now);
    var log, log' := LogAfter(events, max, windowMs), LogAfter(OnlyCalls(events), max, windowMs);
    assert |Trim(log.scores, now - windowMs)| == |Trim(log'.scores, now - windowMs)|;
    SameDecision(log, log', max, windowMs, now);
  }

  /** The decision depends on the log only through how many calls the trim leaves. */
  lemma SameDecision(log: Log, log': Log, max: int, windowMs: nat, now: nat)
    requires |Trim(log.scores, now - windowMs)| == |Trim(log'.scores, now - windowMs)|
    ensures RedisCheck(log, max, windowMs, now).1 == RedisCheck(log', max, windowMs, now).1
  {
  }

  /** Allowed calls with `lo < now <= hi`. */
  function AllowedWithin(events: seq<LogEvent>, max: int, windowMs: nat, lo: int, hi: int): nat {
    if events == [] then 0
    else
      AllowedWithin(Front(events), max, windowMs, lo, hi)
      + if Final(events).Logged? && lo < Final(events).now <= hi
           && RedisCheck(LogAfter(Front(events), max, windowMs), max, windowMs, Final(events).now).1.allowed
        then 1 else 0
  }

  lemma {:induction false} AllowedAreCalls(events: seq<LogEvent>, max: int, windowMs: nat, lo: int, hi: int)
    ensures AllowedWithin(events, max, windowMs, lo, hi) <= CallsAfter(events, lo)
    decreases |events|
  {
    if events != [] {
      AllowedAreCalls(Front(events), max, windowMs, lo, hi);
    }
  }

  /** Any half-open interval of the length of the window sees at most `max` allowed calls. */
  lemma {:induction false} AtMostMaxPerInterval(events: seq<LogEvent>, max: nat, windowMs: nat, a: int)
    requires Monotone(events) && Expiring(events, max, windowMs)
    ensures AllowedWithin(events, max, windowMs, a, a + windowMs) <= max
    decreases |events|
  {
    if events != [] {
      var before := Front(events);
      AtMostMaxPerInterval(before, max, windowMs, a);
      if Final(events).Logged? && a < Final(events).now <= a + windowMs {
        var now := Final(events).now;
        assert before != [] ==> Final(before).now <= now;
        DecisionFromCalls(before, max, windowMs, now);
        AllowedAreCalls(before, max, windowMs, a, a + windowMs);
        CallsAfterMonotone(before, a, now - windowMs);
      }
    }
  }

  lemma {:induction false} CallsAfterMonotone(events: seq<LogEvent>, hi: int, lo: int)
    requires lo <= hi
    ensures CallsAfter(events, hi) <= CallsAfter(events, lo)
    decreases |events|
  {
    if events != [] {
      CallsAfterMonotone(Front(events), hi, lo);
    }
  }
}
