/**
 * The logger registry kept by `LoggingManager`: a map from logger name to
 * logger, where a logger is reduced to what this file sets on it (its name,
 * its level and whether it propagates records to the root logger).
 */
module Registry {
  import opened Basics

  // Python's standard level numbers (logging.NOTSET .. logging.CRITICAL).
  const NOTSET := 0
  const DEBUG := 10
  const INFO := 20
  const WARNING := 30
  const ERROR := 40
  const CRITICAL := 50

  /** `LoggingManager.LOG_LEVELS`: level names to level numbers. */
  const LogLevels: map<string, int> :=
    map["DEBUG" := DEBUG, "INFO" := INFO, "WARNING" := WARNING, "ERROR" := ERROR, "CRITICAL" := CRITICAL]

  /** The table names exactly the five standard levels, in increasing order of
      severity, each above NOTSET and a multiple of ten. */
  lemma LogLevelsOrdered()
    ensures LogLevels.Keys == {"DEBUG", "INFO", "WARNING", "ERROR", "CRITICAL"}
    ensures LogLevels["DEBUG"] < LogLevels["INFO"] < LogLevels["WARNING"] < LogLevels["ERROR"] < LogLevels["CRITICAL"]
    ensures forall n :: n in LogLevels ==> NOTSET < LogLevels[n] && LogLevels[n] % 10 == 0
    ensures LogLevels["DEBUG"] == 10 && LogLevels["CRITICAL"] == 50
  {
  }

  /** The five special categories, in the order the manager creates them. */
  const SpecialCategories: seq<string> := ["diagnostic", "sensor", "sync", "control", "performance"]

  predicate IsSpecial(name: string) { name in SpecialCategories }

  /** The categories are five different names, none of them "root". */
  lemma SpecialCategoriesDistinct()
    ensures !IsSpecial("root")
    ensures forall i, j :: 0 <= i < j < |SpecialCategories| ==> SpecialCategories[i] != SpecialCategories[j]
  {
  }

  datatype LoggerRecord = LoggerRecord(name: string, level: int, propagate: bool)

  type Loggers = map<string, LoggerRecord>

  /** Every entry is filed under its own name, and exactly the special
      loggers do not propagate. */
  ghost predicate WellFormed(loggers: Loggers, special: set<string>) {
    forall n :: n in loggers ==> loggers[n].name == n && loggers[n].propagate == (n !in special)
  }

  /**
   * `get_logger`: the stored logger for a registered name, with the registry
   * unchanged; otherwise a new logger, added as the one new entry.
   */
  function GetOrCreate(loggers: Loggers, special: set<string>, name: string): (res: (Loggers, LoggerRecord))
    ensures name in loggers ==> res.0 == loggers && res.1 == loggers[name]
    ensures name !in loggers ==> res.0.Keys == loggers.Keys + {name} && res.0[name] == res.1
    ensures name !in loggers ==> res.1.name == name && res.1.level == NOTSET
    ensures name !in loggers ==> (res.1.propagate <==> name !in special)
    ensures forall n :: n in loggers ==> n in res.0 && res.0[n] == loggers[n]
    ensures WellFormed(loggers, special) ==> WellFormed(res.0, special) && res.1.name == name
  {
    if name in loggers then (loggers, loggers[name])
    else
      // a fresh logger: level NOTSET, propagation off for the names in
      // `special` (the keys of `special_loggers`)
      var logger := LoggerRecord(name, NOTSET, name !in special);
      (loggers[name := logger], logger)
  }

  /** Asking twice for the same name gives the same logger and grows the registry once. */
  lemma GetOrCreateIdempotent(loggers: Loggers, special: set<string>, name: string)
    ensures var first := GetOrCreate(loggers, special, name);
            GetOrCreate(first.0, special, name) == first
  {
  }

  /** `set_level`: which names a call with `loggers=names` updates. */
  predicate Selected(names: Option<seq<string>>, name: string) {
    names.None? || name in names.value
  }
}
