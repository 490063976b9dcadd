/**
 * `LogWindow`: the bounded buffer of log lines shown in the on-screen log
 * window, and which of them `render` draws. Window creation and all drawing
 * calls are outside the model; timestamps are passed in.
 */
module Window {
  import opened Basics
  import opened LogBuffer
  import opened Viewport

  /** The four lines the window greets with, all stamped `now`. */
  function WelcomeLines(now: string): (w: seq<LogLine>)
    ensures |w| == 4
    ensures forall i :: 0 <= i < |w| ==> w[i].timestamp == now && w[i].category == "system"
  {
    [ LogLine(now, "system", "Log window initialized"),
      LogLine(now, "system", "Press keys 1-5 to toggle diagnostic categories"),
      LogLine(now, "system", "Press 'f' to force a full diagnostic log"),
      LogLine(now, "system", "window can be resized by dragging") ]
  }

  class LogWindow {
    /** `window_size[1]`, the height in pixels. */
    const windowHeight: int
    const maxLines: nat
    /** `log_lines`, oldest first. */
    var lines: seq<LogLine>

    ghost predicate Valid()
      reads this
    {
      |lines| <= maxLines
    }

    /** `__init__` (buffer part): an empty deque, then `add_log` of the four welcome lines in order. */
    constructor (windowHeight: int, maxLines: nat, now: string)
      ensures Valid()
      ensures this.windowHeight == windowHeight && this.maxLines == maxLines
      ensures lines == Newest(WelcomeLines(now), maxLines)
    {
      this.windowHeight := windowHeight;
      this.maxLines := maxLines;
      AppendAllFromEmpty(WelcomeLines(now), maxLines);
      lines := AppendAll([], maxLines, WelcomeLines(now));
    }

    /** `add_log`: append one entry, dropping the oldest when full. */
    method AddLog(timestamp: string, category: string, message: string)
      requires Valid()
      modifies this
      ensures Valid()
      ensures lines == Append(old(lines), maxLines, LogLine(timestamp, category, message))
    {
      lines := Append(lines, maxLines, LogLine(timestamp, category, message));
    }

    /** `clear`: empty the buffer, then record that it was cleared. */
    method Clear(timestamp: string)
      requires Valid()
      modifies this
      ensures Valid()
      ensures 0 < maxLines ==> lines == [LogLine(timestamp, "system", "Log cleared")]
      ensures maxLines == 0 ==> lines == []
    {
      lines := [];
      AddLog(timestamp, "system", "Log cleared");
    }

    /**
     * `render` (index arithmetic): the entries drawn, top to bottom. They are
     * the contiguous run that begins at `StartIndex`, as long as the loop
     * draws, and never more than `min(height // 20, len)` entries.
     */
    method Render() returns (drawn: seq<LogLine>)
      ensures |drawn| == RowsDrawn(|lines| - StartIndex(|lines|, windowHeight), windowHeight)
      ensures forall k :: 0 <= k < |drawn| ==> drawn[k] == lines[StartIndex(|lines|, windowHeight) + k]
      ensures |drawn| <= Max(0, VisibleLines(|lines|, windowHeight))
    {
      var start := StartIndex(|lines|, windowHeight);
      ghost var avail := |lines| - start;
      drawn := [];
      var yPos := FirstBaseline;
      var i := start;
      while i < |lines|
        invariant start <= i
        invariant i <= |lines| || i == start
        invariant |drawn| == i - start
        invariant forall k :: 0 <= k < |drawn| ==> drawn[k] == lines[start + k]
        invariant yPos == Baseline(i - start)
        invariant DrawFrom(i - start, avail, windowHeight) == RowsDrawn(avail, windowHeight)
      {
        drawn := drawn + [lines[i]];
        yPos := yPos + LineHeight;
        i := i + 1;
        if yPos >= windowHeight - BottomMargin {
          break;
        }
      }
    }
  }
}
