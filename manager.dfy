/**
 * `LoggingManager`: the logger registry, the five special-category loggers,
 * level updates and the rate limiter. Records handed to a logger
 * (`logger.log`, `logger.info`) are appended to `output`; what the logging
 * library then does with them (handlers, files, level filtering) is outside
 * the model.
 */
module Manager {
  import opened Basics
  import opened Registry
  import opened RateLimit

  /** A record handed to a logger: its name, the level and the message. */
  datatype Emission = Emission(loggerName: string, level: int, message: string)

  /** The root-logger message `toggle_special_logger` writes. */
  function ToggleMessage(category: string, enable: bool): (m: string)
    ensures |m| == |category| + (if enable then 16 else 17)
    ensures m[0] == 'E' <==> enable
    ensures enable ==> m[..8] == "Enabled "
    ensures !enable ==> m[..9] == "Disabled "
    ensures m[|m| - 8..] == " logging"
    ensures m[(if enable then 8 else 9)..|m| - 8] == category
  {
    (if enable then "Enabled" else "Disabled") + " " + category + " logging"
  }

  /** The message names the category and the direction unambiguously. */
  lemma ToggleMessageInjective(category1: string, enable1: bool, category2: string, enable2: bool)
    requires ToggleMessage(category1, enable1) == ToggleMessage(category2, enable2)
    ensures category1 == category2 && enable1 == enable2
  {
    var m := ToggleMessage(category1, enable1);
    assert enable1 == enable2;
    assert category1 == m[(if enable1 then 8 else 9)..|m| - 8] == category2;
  }

  class LoggingManager {
    const defaultLevel: int
    /** `self.loggers`: name to logger. */
    var loggers: Loggers
    /** `self.special_loggers`: category to the name of the registry entry it
        holds, or None while it is still unset. */
    var specialLoggers: map<string, Option<string>>
    /** `self.rate_limiters`: key to last emit time. */
    var rateLimiters: map<string, real>
    var output: seq<Emission>

    ghost predicate Valid()
      reads this
    {
      && "root" in loggers
      && WellFormed(loggers, specialLoggers.Keys)
      && (forall c :: c in specialLoggers && specialLoggers[c].Some? ==>
                        specialLoggers[c].value == c && c in loggers)
    }

    /**
     * `__init__` (registry part): the root logger at the default level, then
     * one logger per special category, each stored as that category's logger.
     */
    constructor (defaultLevel: int)
      ensures Valid()
      ensures this.defaultLevel == defaultLevel
      ensures forall n :: n in loggers <==> n == "root" || IsSpecial(n)
      ensures forall c :: c in specialLoggers <==> IsSpecial(c)
      ensures loggers["root"] == LoggerRecord("root", defaultLevel, true)
      ensures forall c :: IsSpecial(c) ==>
                loggers[c] == LoggerRecord(c, NOTSET, false) && specialLoggers[c] == Some(c)
      ensures rateLimiters == map[] && output == []
    {
      this.defaultLevel := defaultLevel;
      loggers := map["root" := LoggerRecord("root", defaultLevel, true)];
      specialLoggers := map c | c in SpecialCategories :: None;
      rateLimiters := map[];
      output := [];
      new;
      SpecialCategoriesDistinct();
      InitializeSpecialLoggers(SpecialCategories);
    }

    /**
     * `_initialize_special_loggers`: get (or create) the logger of each
     * category, in order, and store it as that category's logger.
     */
    method InitializeSpecialLoggers(categories: seq<string>)
      requires Valid()
      requires forall c :: c in categories ==> c in specialLoggers
      modifies this
      ensures Valid()
      ensures forall n :: n in loggers <==> n in old(loggers) || n in categories
      ensures forall n :: n in old(loggers) ==> loggers[n] == old(loggers)[n]
      ensures forall c :: c in categories && c !in old(loggers) ==> loggers[c] == LoggerRecord(c, NOTSET, false)
      ensures specialLoggers.Keys == old(specialLoggers).Keys
      ensures forall c :: c in specialLoggers ==>
                specialLoggers[c] == if c in categories then Some(c) else old(specialLoggers)[c]
      ensures rateLimiters == old(rateLimiters) && output == old(output)
    {
      for i := 0 to |categories|
        invariant Valid()
        invariant forall n :: n in loggers <==> n in old(loggers) || n in categories[..i]
        invariant forall n :: n in old(loggers) ==> loggers[n] == old(loggers)[n]
        invariant forall c :: c in categories[..i] && c !in old(loggers) ==> loggers[c] == LoggerRecord(c, NOTSET, false)
        invariant specialLoggers.Keys == old(specialLoggers).Keys
        invariant forall c :: c in specialLoggers ==>
                    specialLoggers[c] == if c in categories[..i] then Some(c) else old(specialLoggers)[c]
        invariant rateLimiters == old(rateLimiters) && output == old(output)
      {
        PrefixExtend(categories, i);
        RegisterSpecial(categories[i]);
      }
      assert categories[..|categories|] == categories;
    }

    /** One step of `_initialize_special_loggers`: get the category's logger and store it. */
    method RegisterSpecial(category: string)
      requires Valid() && category in specialLoggers
      modifies this
      ensures Valid()
      ensures loggers == GetOrCreate(old(loggers), specialLoggers.Keys, category).0
      ensures specialLoggers == old(specialLoggers)[category := Some(category)]
      ensures rateLimiters == old(rateLimiters) && output == old(output)
    {
      var logger := GetLogger(category);
      specialLoggers := specialLoggers[category := Some(logger.name)];
    }

    /** `get_logger`: get-or-create in the registry. */
    method GetLogger(name: string) returns (logger: LoggerRecord)
      requires Valid()
      modifies this
      ensures Valid()
      ensures (loggers, logger) == GetOrCreate(old(loggers), specialLoggers.Keys, name)
      ensures logger.name == name
      ensures specialLoggers == old(specialLoggers) && rateLimiters == old(rateLimiters)
      ensures output == old(output)
    {
      if name in loggers {
        return loggers[name];
      }
      logger := LoggerRecord(name, NOTSET, true);
      if name in specialLoggers {
        logger := logger.(propagate := false);
      }
      loggers := loggers[name := logger];
    }

    /**
     * `set_level`: with `None`, every registered logger takes the level; with
     * a list, exactly the listed names that are registered do. Nothing is
     * added or removed, and nothing but the level changes.
     */
    method SetLevel(level: int, names: Option<seq<string>>)
      requires Valid()
      modifies this
      ensures Valid()
      ensures loggers.Keys == old(loggers).Keys
      ensures forall n :: n in loggers ==>
                loggers[n] == if Selected(names, n) then old(loggers)[n].(level := level) else old(loggers)[n]
      ensures specialLoggers == old(specialLoggers) && rateLimiters == old(rateLimiters)
      ensures output == old(output)
    {
      match names
      case None => SetLevelAll(level);
      case Some(list) => SetLevelListed(level, list);
    }

    /** The `loggers is None` branch of `set_level`. */
    method SetLevelAll(level: int)
      requires Valid()
      modifies this`loggers
      ensures Valid()
      ensures loggers.Keys == old(loggers).Keys
      ensures forall n :: n in loggers ==> loggers[n] == old(loggers)[n].(level := level)
    {
      var todo := loggers.Keys;
      while todo != {}
        invariant todo <= loggers.Keys == old(loggers).Keys
        invariant forall n :: n in loggers ==>
                    loggers[n] == if n in todo then old(loggers)[n] else old(loggers)[n].(level := level)
        invariant Valid()
        decreases todo
      {
        var n :| n in todo;
        loggers := loggers[n := loggers[n].(level := level)];
        todo := todo - {n};
      }
    }

    /** The branch of `set_level` given a list of names. */
    method SetLevelListed(level: int, list: seq<string>)
      requires Valid()
      modifies this`loggers
      ensures Valid()
      ensures loggers.Keys == old(loggers).Keys
      ensures forall n :: n in loggers ==>
                loggers[n] == if n in list then old(loggers)[n].(level := level) else old(loggers)[n]
    {
      for i := 0 to |list|
        invariant loggers.Keys == old(loggers).Keys
        invariant forall n :: n in loggers ==>
                    loggers[n] == if n in list[..i] then old(loggers)[n].(level := level) else old(loggers)[n]
        invariant Valid()
      {
        if list[i] in loggers {
          loggers := loggers[list[i] := loggers[list[i]].(level := level)];
        }
        assert list[..i + 1] == list[..i] + [list[i]];
      }
      assert list[..|list|] == list;
    }

    /**
     * `get_diagnostic_logger` and its four siblings: the logger stored for a
     * special category, as the registry currently holds it.
     */
    function SpecialLogger(category: string): (r: Option<LoggerRecord>)
      reads this
      requires Valid() && category in specialLoggers
      ensures r.None? <==> specialLoggers[category].None?
      ensures r.Some? ==> r.value.name == category && !r.value.propagate
      ensures r.Some? ==> r.value == loggers[category]
    {
      match specialLoggers[category]
      case None => None
      case Some(name) => Some(loggers[name])
    }

    /**
     * `toggle_special_logger`: a set special category goes to DEBUG when
     * enabled and to CRITICAL when disabled, and the root logger records the
     * change; any other category changes nothing.
     */
    method ToggleSpecialLogger(category: string, enable: bool)
      requires Valid()
      modifies this
      ensures Valid()
      ensures category in old(specialLoggers) && old(specialLoggers)[category].Some? ==>
                && loggers == old(loggers)[category := old(loggers)[category].(level := if enable then DEBUG else CRITICAL)]
                && output == old(output) + [Emission("root", INFO, ToggleMessage(category, enable))]
      ensures !(category in old(specialLoggers) && old(specialLoggers)[category].Some?) ==>
                loggers == old(loggers) && output == old(output)
      ensures specialLoggers == old(specialLoggers) && rateLimiters == old(rateLimiters)
    {
      if category in specialLoggers && specialLoggers[category].Some? {
        var level := if enable then LogLevels["DEBUG"] else LogLevels["CRITICAL"];
        var name := specialLoggers[category].value;
        loggers := loggers[name := loggers[name].(level := level)];
        output := output + [Emission(loggers["root"].name, INFO, ToggleMessage(category, enable))];
      }
    }

    /**
     * `rate_limited_log`: one step of the limiter for the key of this logger
     * and level; the message is handed to the logger exactly when it emits.
     */
    method RateLimitedLog(loggerName: string, level: int, message: string, now: real, limitPerSecond: real)
      returns (gate: Gate)
      requires Valid()
      modifies this
      ensures Valid()
      ensures (rateLimiters, gate) == Step(old(rateLimiters), Call(loggerName, level, message, now, limitPerSecond))
      ensures output == old(output) + if gate == Emit then [Emission(loggerName, level, message)] else []
      ensures loggers == old(loggers) && specialLoggers == old(specialLoggers)
    {
      var key := Key(loggerName, level);
      if key !in rateLimiters {
        rateLimiters := rateLimiters[key := now];
        output := output + [Emission(loggerName, level, message)];
        gate := Emit;
      } else {
        var lastLogTime := rateLimiters[key];
        var timeDiff := now - lastLogTime;
        if limitPerSecond == 0.0 {
          gate := DivisionByZero;
        } else if timeDiff >= 1.0 / limitPerSecond {
          output := output + [Emission(loggerName, level, message)];
          rateLimiters := rateLimiters[key := now];
          gate := Emit;
        } else {
          gate := Suppress;
        }
      }
    }
  }
}
