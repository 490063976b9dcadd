/**
 * The per-key rate limiter behind `LoggingManager.rate_limited_log`: a map
 * from the key "<logger name>:<level>" to the time that key last emitted.
 * The clock is a parameter (`now`), in seconds.
 */
module RateLimit {
  import opened Basics
  import opened Decimal

  /** The limiter key, `f"{logger.name}:{level}"`. */
  function Key(loggerName: string, level: int): (k: string)
    ensures |k| == |loggerName| + 1 + |IntToString(level)|
    ensures k[..|loggerName|] == loggerName && k[|loggerName|] == ':'
    ensures k[|loggerName| + 1..] == IntToString(level)
    ensures forall j :: |loggerName| < j < |k| ==> k[j] != ':'
  {
    loggerName + ":" + IntToString(level)
  }

  /** The key determines the logger name and the level: the level's spelling
      holds no ':', so the last ':' of a key separates the two. */
  lemma KeyInjective(name1: string, level1: int, name2: string, level2: int)
    requires Key(name1, level1) == Key(name2, level2)
    ensures name1 == name2 && level1 == level2
  {
    var k := Key(name1, level1);
    var l1, l2 := IntToString(level1), IntToString(level2);
    assert k[|name1|] == ':' && k[|name1| + 1..] == l1;
    assert k[|name2|] == ':' && k[|name2| + 1..] == l2;
    if |name1| < |name2| {
      // the ':' after name1 would fall inside the level's spelling
      assert false;
    } else if |name2| < |name1| {
      assert false;
    }
    assert name1 == k[..|name1|] == name2;
    IntToStringInjective(level1, level2);
  }

  /** What one call does: emit, suppress, or fail on `1.0 / 0.0` (Python's
      ZeroDivisionError, raised before anything is logged or stored). */
  datatype Gate = Emit | Suppress | DivisionByZero

  datatype Call = Call(loggerName: string, level: int, message: string, now: real, limitPerSecond: real)

  function KeyOf(c: Call): string { Key(c.loggerName, c.level) }

  /** The last emit time stored for a key, if any. */
  function LastEmit(limiters: map<string, real>, key: string): Option<real> {
    if key in limiters then Some(limiters[key]) else None
  }

  /**
   * One `rate_limited_log` call against the limiter map: the new map and the
   * verdict.
   */
  function Step(limiters: map<string, real>, c: Call): (r: (map<string, real>, Gate))
    // the first call for a key always emits
    ensures KeyOf(c) !in limiters ==> r.1 == Emit
    // a later call emits exactly when a full period 1/limit has elapsed
    ensures KeyOf(c) in limiters && c.limitPerSecond != 0.0 ==>
              (r.1 == Emit <==> c.now - limiters[KeyOf(c)] >= 1.0 / c.limitPerSecond)
    ensures r.1 == DivisionByZero <==> KeyOf(c) in limiters && c.limitPerSecond == 0.0
    // an emit records the current time; anything else leaves the map as it was
    ensures r.1 == Emit ==> r.0 == limiters[KeyOf(c) := c.now]
    ensures r.1 != Emit ==> r.0 == limiters
    // other keys are never touched
    ensures forall k :: k != KeyOf(c) ==> LastEmit(r.0, k) == LastEmit(limiters, k)
  {
    var key := KeyOf(c);
    if key !in limiters then
      (limiters[key := c.now], Emit)
    else
      var last := limiters[key];
      if c.limitPerSecond == 0.0 then (limiters, DivisionByZero)
      else if c.now - last >= 1.0 / c.limitPerSecond then (limiters[key := c.now], Emit)
      else (limiters, Suppress)
  }

  /** The times at which calls for `key` emitted, over a run of calls. */
  function EmitTimes(limiters: map<string, real>, calls: seq<Call>, key: string): seq<real>
    decreases |calls|
  {
    if calls == [] then []
    else
      var s := Step(limiters, calls[0]);
      (if KeyOf(calls[0]) == key && s.1 == Emit then [calls[0].now] else [])
      + EmitTimes(s.0, calls[1..], key)
  }

  /** Consecutive times are at least `gap` apart, the first also from `prev`. */
  predicate Spaced(prev: Option<real>, times: seq<real>, gap: real)
    decreases |times|
  {
    times == [] ||
    ((prev.Some? ==> times[0] - prev.value >= gap) && Spaced(Some(times[0]), times[1..], gap))
  }

  /**
   * The limiter's promise: when every call for a key asks for the same
   * nonzero limit, that key's emitted messages are at least 1/limit seconds
   * apart (and the first is that far from the time already stored).
   */
  lemma {:induction false} EmitsAreSpaced(limiters: map<string, real>, calls: seq<Call>, key: string, limit: real)
    requires limit != 0.0
    requires forall c :: c in calls && KeyOf(c) == key ==> c.limitPerSecond == limit
    ensures Spaced(LastEmit(limiters, key), EmitTimes(limiters, calls, key), 1.0 / limit)
    decreases |calls|
  {
    if calls != [] {
      var c := calls[0];
      var s := Step(limiters, c);
      assert forall d :: d in calls[1..] ==> d in calls;
      EmitsAreSpaced(s.0, calls[1..], key, limit);
      if KeyOf(c) == key && s.1 == Emit {
        assert LastEmit(s.0, key) == Some(c.now);
        assert EmitTimes(limiters, calls, key) == [c.now] + EmitTimes(s.0, calls[1..], key);
      } else {
        assert LastEmit(s.0, key) == LastEmit(limiters, key);
        assert EmitTimes(limiters, calls, key) == EmitTimes(s.0, calls[1..], key);
      }
    }
  }

  /** The calls that name one logger at one level. */
  function Stream(calls: seq<Call>, loggerName: string, level: int): (r: seq<Call>)
    decreases |calls|
  {
    if calls == [] then []
    else
      (if calls[0].loggerName == loggerName && calls[0].level == level then [calls[0]] else [])
      + Stream(calls[1..], loggerName, level)
  }

  /**
   * Keys never affect each other: what a logger emits at a level depends only
   * on the calls for that logger and level and on the time stored for them;
   * calls for any other logger or level can be dropped.
   */
  lemma {:induction false} StreamsAreIndependent(limiters: map<string, real>, alone: map<string, real>,
                                                 calls: seq<Call>, loggerName: string, level: int)
    requires LastEmit(limiters, Key(loggerName, level)) == LastEmit(alone, Key(loggerName, level))
    ensures EmitTimes(limiters, calls, Key(loggerName, level))
         == EmitTimes(alone, Stream(calls, loggerName, level), Key(loggerName, level))
    decreases |calls|
  {
    var key := Key(loggerName, level);
    if calls != [] {
      var c := calls[0];
      var s := Step(limiters, c);
      if c.loggerName == loggerName && c.level == level {
        var t := Step(alone, c);
        assert s.1 == t.1;
        assert Stream(calls, loggerName, level) == [c] + Stream(calls[1..], loggerName, level);
        StreamsAreIndependent(s.0, t.0, calls[1..], loggerName, level);
      } else {
        if KeyOf(c) == key {
          KeyInjective(c.loggerName, c.level, loggerName, level);
          assert false;
        }
        assert Stream(calls, loggerName, level) == Stream(calls[1..], loggerName, level);
        StreamsAreIndependent(s.0, alone, calls[1..], loggerName, level);
      }
    }
  }
}
