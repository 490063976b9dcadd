# driveHalo logging core, modelled in Dafny

This project models the state logic in `driveHalo-py-jetson/root_logger.py`, the
logging layer of the driveHalo autonomous-driving platform. The model has three
parts.

- **The logger registry of `LoggingManager`.** It maps names to loggers with
  get-or-create semantics. The five special categories (`diagnostic`, `sensor`,
  `sync`, `control`, `performance`) get loggers that do not propagate to the
  root logger. `set_level` updates all loggers or a chosen set of them.
  `toggle_special_logger` switches a category between DEBUG (10) and
  CRITICAL (50). Each logger is a value `LoggerRecord(name, level, propagate)`,
  and the registry is a `map` field of the class `Manager.LoggingManager`.
- **The rate limiter behind `rate_limited_log`.** It maps keys of the form
  `"<logger name>:<level>"` to the time that key last emitted. A message is
  emitted when its key is new, or when at least `1/limit_per_second` seconds
  have passed since that key last emitted. The clock is a `real` parameter.
  Messages handed to a logger are appended to the manager's `output` sequence.
- **The buffer of `LogWindow`.** It is a `deque` with `maxlen=max_lines`, so it
  holds at most that many lines and drops the oldest first. The model also
  covers the index arithmetic of `render`: which contiguous run of lines is
  drawn.

Modules:

- `Basics`: `Option`, `Min`, `Max`.
- `Decimal`: Python's `str()` on integers.
- `Registry`: level constants, `LOG_LEVELS`, `LoggerRecord`, get-or-create.
- `RateLimit`: the key, one limiter step, and lemmas over runs of calls.
- `Manager`: the class `LoggingManager`.
- `LogBuffer`: the bounded FIFO.
- `Viewport`: the arithmetic of `render`.
- `Window`: the class `LogWindow`.

## Model

| member | source | states |
|---|---|---|
| Decimal.IntToString | driveHalo-py-jetson/root_logger.py:240 | The spelling of a level in the limiter key is non-empty, made only of digits and '-', and starts with '-' exactly for negative levels |
| Decimal.NatToStringInjective | driveHalo-py-jetson/root_logger.py:240 | Different non-negative numbers are spelled differently |
| Decimal.IntToStringInjective | driveHalo-py-jetson/root_logger.py:240 | Different levels are spelled differently |
| RateLimit.Key | driveHalo-py-jetson/root_logger.py:240 | The key is the logger name, then ':', then the level's decimal spelling, which holds no ':'. So the logger name is everything before the key's last ':' and the level's spelling everything after it |
| RateLimit.KeyInjective | driveHalo-py-jetson/root_logger.py:240 | Two limiter keys are equal only if both the logger name and the level are equal, even when names contain ':' |
| RateLimit.Step | driveHalo-py-jetson/root_logger.py:238-254 | The first call for a key always emits. A later call emits exactly when `now - last >= 1/limit`. A zero limit on a known key fails with a division by zero. An emit records `now`. A suppressed or failed call leaves the map unchanged. Other keys are never touched |
| RateLimit.EmitsAreSpaced | driveHalo-py-jetson/root_logger.py:245-254 | Over any run of calls with one nonzero limit per key, consecutive emits for a key are at least `1/limit` seconds apart, and the first is that far from the time already stored |
| RateLimit.StreamsAreIndependent | driveHalo-py-jetson/root_logger.py:240-254 | What one logger emits at one level depends only on its own calls and its own stored time. Calls for any other logger or level can be removed without changing it |
| Registry.LogLevelsOrdered | driveHalo-py-jetson/root_logger.py:24-30 | `LOG_LEVELS` names exactly DEBUG, INFO, WARNING, ERROR and CRITICAL, with strictly increasing numbers, each above NOTSET and a multiple of ten, from DEBUG at 10 to CRITICAL at 50 |
| Registry.SpecialCategoriesDistinct | driveHalo-py-jetson/root_logger.py:64-70 | The five special categories are distinct names, none of them "root" |
| Registry.GetOrCreate | driveHalo-py-jetson/root_logger.py:158-171 | A registered name returns its stored logger and leaves the registry unchanged. A new name adds exactly one entry: a NOTSET logger with that name that propagates exactly when the name is not a special category. Existing entries are kept. Well-formedness is preserved |
| Registry.GetOrCreateIdempotent | driveHalo-py-jetson/root_logger.py:158-171 | Asking again for the same name returns the same logger and does not grow the registry again |
| Manager.ToggleMessage | driveHalo-py-jetson/root_logger.py:225 | The toggle message starts with "Enabled " when enabling and with "Disabled " when disabling (so its first letter is 'E' exactly when enabling), ends with " logging", and holds the category between the two |
| Manager.ToggleMessageInjective | driveHalo-py-jetson/root_logger.py:225 | Different categories or directions give different toggle messages |
| Manager.LoggingManager.constructor | driveHalo-py-jetson/root_logger.py:60-146 | Afterwards the registry holds exactly `root` at the default level (propagating) and the five special loggers at NOTSET (not propagating). Each special category refers to its own logger. The limiter map and the output are empty |
| Manager.LoggingManager.InitializeSpecialLoggers | driveHalo-py-jetson/root_logger.py:128-146 | For each listed category in turn, the category's logger is fetched or created and stored as that category's logger. Only the listed categories gain entries, and new ones are NOT propagating NOTSET loggers. Earlier entries, the other categories, the limiter map and the output are unchanged |
| Manager.LoggingManager.RegisterSpecial | driveHalo-py-jetson/root_logger.py:130-146 | One loop step: the registry is get-or-create of the category, and the category now refers to its own logger. Nothing else changes |
| Manager.LoggingManager.GetLogger | driveHalo-py-jetson/root_logger.py:148-171 | Get-or-create as `GetOrCreate` states. The returned logger carries the asked name. The special map, the limiter map and the output are unchanged |
| Manager.LoggingManager.SetLevel | driveHalo-py-jetson/root_logger.py:173-190 | With no list, every registered logger gets the level. With a list, exactly the listed names that are registered get it, and unknown names are ignored. The set of names is unchanged, and only levels change |
| Manager.LoggingManager.SetLevelAll | driveHalo-py-jetson/root_logger.py:182-185 | Every registered logger gets the level. No name is added or removed |
| Manager.LoggingManager.SetLevelListed | driveHalo-py-jetson/root_logger.py:186-190 | A logger gets the level exactly when its name is in the list. No name is added or removed |
| Manager.LoggingManager.SpecialLogger | driveHalo-py-jetson/root_logger.py:192-210 | A category's getter returns nothing while the category is unset. Otherwise it returns the registry's logger of that name, which does not propagate |
| Manager.LoggingManager.ToggleSpecialLogger | driveHalo-py-jetson/root_logger.py:212-225 | A set special category's logger goes to DEBUG when enabling and CRITICAL when disabling, and one INFO message "Enabled/Disabled <category> logging" goes to the root logger. An unknown or unset category changes nothing |
| Manager.LoggingManager.RateLimitedLog | driveHalo-py-jetson/root_logger.py:227-254 | The limiter map and the verdict are one `Step` of the old map. The message goes to the logger exactly when the verdict is Emit. The registry is unchanged |
| LogBuffer.Newest | driveHalo-py-jetson/root_logger.py:361 | A deque with maximum length n keeps min(len, n) entries |
| LogBuffer.Append | driveHalo-py-jetson/root_logger.py:385-388 | The result never holds more than the capacity. Below capacity the line is added at the end. At capacity the oldest line is dropped and the new one added last. Capacity 0 keeps nothing |
| LogBuffer.AppendAll | driveHalo-py-jetson/root_logger.py:385-388 | A run of appends never exceeds the capacity |
| LogBuffer.AppendToNewest | driveHalo-py-jetson/root_logger.py:385-388 | Appending to the kept entries gives the newest entries of the whole history plus the new line |
| LogBuffer.AppendAllKeepsNewest | driveHalo-py-jetson/root_logger.py:361-388 | After any run of appends the buffer is exactly the newest `max_lines` lines ever added, in their original order |
| LogBuffer.AppendAllFromEmpty | driveHalo-py-jetson/root_logger.py:361-388 | Starting from an empty deque, a run of appends leaves exactly the newest `max_lines` of the appended lines |
| Viewport.VisibleLines | driveHalo-py-jetson/root_logger.py:400 | `visible_lines` is the largest count, at most the buffer length, of whole 20-pixel lines that fit in the window height |
| Viewport.StartIndex | driveHalo-py-jetson/root_logger.py:401 | The run starts where exactly `visible_lines` of the newest lines remain. When the height is negative it starts past the end |
| Viewport.DrawFrom | driveHalo-py-jetson/root_logger.py:404-420 | The drawing loop, from any row onward, never passes the available lines. It draws each later row only while its baseline is above `height - 10`. It stops only at the end or at that edge |
| Viewport.RowsDrawn | driveHalo-py-jetson/root_logger.py:404-420 | Rows drawn: never more than available, at least one when any is available, every row after the first above `height - 10`, and stopping only at the last line or at the bottom edge |
| Viewport.RowsDrawnUnique | driveHalo-py-jetson/root_logger.py:404-420 | Those four properties determine the number of rows drawn |
| Viewport.RowsDrawnIdempotent | driveHalo-py-jetson/root_logger.py:404-420 | Offering exactly the number of rows the loop would draw draws all of them |
| Viewport.NewestHidden | driveHalo-py-jetson/root_logger.py:399-420 | As written, the drawn run ends one entry before the newest exactly when the height is at least 40, `height % 20 <= 10`, and the buffer holds at least `height // 20` entries; it then starts `height // 20` from the end and draws one row fewer. At every other non-negative height the run ends at the newest entry, or is empty when the height is below 20 |
| Viewport.NewestHiddenAtDefaultHeight | driveHalo-py-jetson/root_logger.py:390-420 | At height 600 with 30 or more lines, the run starts 30 lines from the end but only 29 are drawn, so the newest line is not drawn |
| Viewport.CorrectedStartIndex | driveHalo-py-jetson/root_logger.py:399-401 | A start index whose run is as long as the loop draws from the whole buffer (29 rows at 600 px) and ends at the newest line. Below a height of 20 it starts at the end and nothing is drawn, as in the code as written |
| Viewport.CorrectedStartIndexAgrees | driveHalo-py-jetson/root_logger.py:399-420 | At every non-negative height outside the hidden-newest case the corrected start equals the start as written; in that case it is one entry later |
| Window.WelcomeLines | driveHalo-py-jetson/root_logger.py:380-383 | The window greets with four lines, all in category "system" and stamped with the same time |
| Window.LogWindow.constructor | driveHalo-py-jetson/root_logger.py:357-383 | After the four welcome `add_log` calls on an empty deque, the buffer holds the newest `max_lines` of the welcome lines, in order |
| Window.LogWindow.AddLog | driveHalo-py-jetson/root_logger.py:385-388 | The buffer after the call is `Append` of the old buffer and the new line, so it stays within `max_lines` |
| Window.LogWindow.Clear | driveHalo-py-jetson/root_logger.py:431-434 | With a positive capacity the buffer holds exactly one line, category "system", message "Log cleared". With capacity 0 it is empty |
| Window.LogWindow.Render | driveHalo-py-jetson/root_logger.py:390-420 | The drawn lines are the contiguous run from `StartIndex`, as many as `RowsDrawn` gives, and never more than `min(height // 20, len)` |

## Findings

| source | as written | input that shows it | evidently intended | confidence | as-written member | corrected member |
|---|---|---|---|---|---|---|
| driveHalo-py-jetson/root_logger.py:399-420 | The run starts `min(height // 20, len)` lines from the end. The loop breaks once the next baseline reaches `height - 10`. When the height is at least 40 and `height % 20 <= 10`, that is one row before the count assumes; at other heights all the counted rows are drawn | Default height 600 and a buffer of 30 or more lines (for example the default 100): lines `len-30 .. len-2` are drawn and the newest line `len-1` is not. The same holds at any such height once the buffer holds `height // 20` lines; at heights such as 611 to 619 the newest line is drawn | The docstring and comment (lines 391, 399) say the most recent logs are always shown, so the newest line should be drawn | medium; not executed | Viewport.NewestHidden | Viewport.CorrectedStartIndex |

`Window.LogWindow.Render` keeps the code as written, so the model matches what
the program draws. The corrected start index sits beside it in `Viewport`, with
its property proved.

## Left out

- OpenCV window handling and drawing are not modelled: creating and resizing the window, the canvas, rectangles, text, `imshow` and the category colours. They are UI. Only the choice of drawn lines is modelled.
- The console and file handlers are not modelled: rotating files, formatters, creating the log directory, removing old handlers and `flush_all`. They are I/O configuration inside the logging library.
- `log_system_info` is not modelled. It queries the platform and `psutil` and formats floats.
- The `RLock` is not modelled. The model is single-threaded, and the lock only serialises calls.
- Wall-clock reads are parameters. Limiter times are `real` seconds, and `add_log`'s `strftime` stamp is a string argument. Float rounding is not modelled.
- Window.LogWindow.constructor: stamps all four welcome lines with one time. The source reads the clock once per line. The body assigns the fold of `Append` over the welcome lines rather than calling `AddLog` four times; each `AddLog` is exactly one such `Append`.
- The module-level singleton and its convenience getters (lines 286-353) are not modelled. `initialize_logging` builds the manager once and ignores the arguments of later calls.
- Python's global logger table is not modelled. A logger first fetched through the manager is taken to be fresh: level NOTSET, propagating unless special. Changes made to it by other code are not captured.
- Manager.LoggingManager.GetLogger: `get_logger("")` is not modelled as Python does it. There `logging.getLogger("")` returns the root logger itself, so the entry under "" aliases the entry under "root" (name "root", root's current level), and a later level change through either name shows in both. The model creates a separate NOTSET logger named "" instead, because the registry holds one independent record per name.
- Registry.GetOrCreate: the same empty-name case. A new name always gets a fresh record, and `WellFormed` assumes every entry carries its own key as its name, which the aliased "" entry would not.
- Manager.LoggingManager.GetLogger: returns a copy of the logger record. A later `set_level` does not change that copy, whereas in Python the returned object is the registered logger itself.
- Whether a record handed to a logger is written out is not modelled. That depends on effective levels and handlers inside the logging library; `output` records only what is handed over.
- `setLevel` with a level name is not modelled. Levels are integers throughout.
- Manager.LoggingManager.RateLimitedLog: returns its verdict (emit, suppress, division by zero) so that callers can state it. In the source it returns nothing, and the division by zero is a raised `ZeroDivisionError`.
- `process_key` does nothing in the source and is not modelled. Window name, width and font size are not modelled.
- A negative `max_lines`, which makes `deque` raise, is excluded by the type `nat`.
