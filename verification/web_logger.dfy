/** `WebLogger`, the `ILogger` that hands log entries to the background sender: the level gate,
    the write-or-drop decision of `Log`, and the entry `WriteMessage` builds. */
module WebLogging {
  import opened Wrappers

  /** `Microsoft.Extensions.Logging.LogLevel`, in its declared order; `None` switches logging off. */
  datatype LogLevel = Trace | Debug | Information | Warning | Error | Critical | None

  /** The enum's underlying value. */
  function Ordinal(l: LogLevel): nat {
    match l
    case Trace => 0
    case Debug => 1
    case Information => 2
    case Warning => 3
    case Error => 4
    case Critical => 5
    case None => 6
  }

  /** The enum's values are distinct numbers. */
  lemma OrdinalInjective(a: LogLevel, b: LogLevel)
    requires Ordinal(a) == Ordinal(b)
    ensures a == b
  {
  }

  /** `EventId`: a number and an optional name. */
  datatype EventId = EventId(id: int, name: Option<string>)

  /** The exception passed to `Log`, by its type and message. */
  datatype Exception = Exception(typeName: string, message: string)

  /** A logger: its category, its current minimum level, and the scopes of its scope provider as
      `ForEachScope` enumerates them (`None` when it has no provider). */
  datatype WebLogger = WebLogger(category: string, logLevel: LogLevel, scopes: Option<seq<string>>)

  /** `IsEnabled`: neither the requested level nor the minimum is `None`, and the requested level is
      at least the minimum. */
  function IsEnabled(logger: WebLogger, logLevel: LogLevel): (r: bool)
    ensures logLevel == LogLevel.None ==> !r
    ensures logger.logLevel == LogLevel.None ==> !r
    ensures r ==> logLevel != Trace || logger.logLevel == Trace
    ensures logLevel == logger.logLevel ==> (r <==> logLevel != LogLevel.None)
    ensures r <==> logLevel in LevelsFrom(logger.logLevel)
  {
    logLevel != LogLevel.None && logger.logLevel != LogLevel.None && Ordinal(logLevel) >= Ordinal(logger.logLevel)
  }

  /** Raising the requested level never turns a message off, short of `None`. */
  lemma IsEnabledMonotone(logger: WebLogger, lower: LogLevel, higher: LogLevel)
    requires Ordinal(lower) <= Ordinal(higher) && higher != LogLevel.None
    ensures IsEnabled(logger, lower) ==> IsEnabled(logger, higher)
  {
  }

  /** Raising the minimum never turns a message on. */
  lemma IsEnabledAntitone(logger: WebLogger, stricter: LogLevel, logLevel: LogLevel)
    requires Ordinal(logger.logLevel) <= Ordinal(stricter)
    ensures IsEnabled(SetLogLevel(logger, stricter), logLevel) ==> IsEnabled(logger, logLevel)
  {
  }

  /** The real levels (not `None`) from `minimum` up. */
  function LevelsFrom(minimum: LogLevel): set<LogLevel> {
    set l: LogLevel | l in {Trace, Debug, Information, Warning, Error, Critical} && minimum != LogLevel.None && Ordinal(l) >= Ordinal(minimum)
  }

  /** `SetLogLevel`: later `IsEnabled` calls let through exactly the levels from the new minimum
      up, whatever the old minimum was; category and scopes stay. */
  function SetLogLevel(logger: WebLogger, logLevel: LogLevel): (r: WebLogger)
    ensures r.category == logger.category && r.scopes == logger.scopes
    ensures forall l :: IsEnabled(r, l) <==> l in LevelsFrom(logLevel)
  {
    logger.(logLevel := logLevel)
  }

  /** The entry handed to the processor; the time stamp is left out. */
  datatype WebLogEntry = WebLogEntry(
    level: LogLevel,
    category: string,
    eventId: EventId,
    exception: Option<Exception>,
    message: Option<string>,
    scopes: Option<seq<string>>)

  /** `WriteMessage`: the entry carries this logger's category and scopes and the call's level,
      event, message and exception. */
  function WriteMessage(logger: WebLogger, logLevel: LogLevel, eventId: EventId, message: Option<string>, exception: Option<Exception>): (e: WebLogEntry)
    ensures e.category == logger.category && e.scopes == logger.scopes
    ensures e.level == logLevel && e.eventId == eventId && e.message == message && e.exception == exception
  {
    WebLogEntry(logLevel, logger.category, eventId, exception, message, logger.scopes)
  }

  /** What a `Log` call does: nothing, hand an entry to the processor, or throw
      `ArgumentNullException` for the formatter. */
  datatype LogOutcome = Dropped | Enqueued(entry: WebLogEntry) | ArgumentNull(paramName: string)

  /** `string.IsNullOrEmpty`. */
  predicate IsNullOrEmpty(s: Option<string>) {
    s.None? || |s.value| == 0
  }

  /** `Log`. The formatter is `None` when null; its result is `None` when it returns null. */
  function Log<S>(
    logger: WebLogger,
    logLevel: LogLevel,
    eventId: EventId,
    state: S,
    exception: Option<Exception>,
    formatter: Option<(S, Option<Exception>) -> Option<string>>): (r: LogOutcome)
    ensures !IsEnabled(logger, logLevel) ==> r == Dropped
    ensures IsEnabled(logger, logLevel) && formatter.None? ==> r == ArgumentNull("formatter")
    ensures r.Enqueued? <==>
      IsEnabled(logger, logLevel) && formatter.Some?
      && (!IsNullOrEmpty(formatter.value(state, exception)) || exception.Some?)
    ensures r.Enqueued? ==>
      r.entry == WriteMessage(logger, logLevel, eventId, formatter.value(state, exception), exception)
  {
    if !IsEnabled(logger, logLevel) then Dropped
    else if formatter.None? then ArgumentNull("formatter")
    else
      var message := formatter.value(state, exception);
      if !IsNullOrEmpty(message) || exception.Some? then
        Enqueued(WriteMessage(logger, logLevel, eventId, message, exception))
      else Dropped
  }

  /** A disabled level is dropped before the formatter is looked at: even a null formatter does
      not throw. */
  lemma DisabledIgnoresFormatter<S>(logger: WebLogger, logLevel: LogLevel, eventId: EventId, state: S, exception: Option<Exception>)
    requires !IsEnabled(logger, logLevel)
    ensures Log(logger, logLevel, eventId, state, exception, Option<(S, Option<Exception>) -> Option<string>>.None) == Dropped
  {
  }

  /** After `SetLogLevel(LogLevel.None)` every call is dropped. */
  lemma SilencedLoggerDrops<S>(logger: WebLogger, logLevel: LogLevel, eventId: EventId, state: S, exception: Option<Exception>,
                               formatter: Option<(S, Option<Exception>) -> Option<string>>)
    ensures Log(SetLogLevel(logger, LogLevel.None), logLevel, eventId, state, exception, formatter) == Dropped
  {
  }

  /** An enqueued entry is always at a level the logger lets through. */
  lemma EnqueuedLevelEnabled<S>(logger: WebLogger, logLevel: LogLevel, eventId: EventId, state: S, exception: Option<Exception>,
                                formatter: Option<(S, Option<Exception>) -> Option<string>>)
    requires Log(logger, logLevel, eventId, state, exception, formatter).Enqueued?
    ensures var e := Log(logger, logLevel, eventId, state, exception, formatter).entry;
      e.level != LogLevel.None && Ordinal(e.level) >= Ordinal(logger.logLevel) && e.category == logger.category
  {
  }
}
