/**
 * The index arithmetic of `LogWindow.render`: which entries of the buffer are
 * drawn. Rows are 20 pixels apart (`line_height`); the first baseline is at
 * y = 20, and drawing stops once the next baseline reaches `height - 10`.
 */
module Viewport {
  import opened Basics

  const LineHeight := 20
  const FirstBaseline := 20
  const BottomMargin := 10

  /** The y position at which the row-th drawn entry (from 0) is drawn. */
  function Baseline(row: int): int { FirstBaseline + row * LineHeight }

  /**
   * `visible_lines = min(height // line_height, len)`: the largest count, at
   * most the buffer length, of whole 20-pixel lines that fit in the height.
   */
  function VisibleLines(len: nat, height: int): (v: int)
    ensures v <= len
    ensures v * LineHeight <= height
    ensures v == len || height < (v + 1) * LineHeight
  {
    Min(height / LineHeight, len)
  }

  /**
   * `start_idx = max(0, len - visible_lines)`: the run starts where exactly
   * `visible_lines` newest entries remain, or past the end when the height is
   * negative.
   */
  function StartIndex(len: nat, height: int): (s: nat)
    ensures 0 <= VisibleLines(len, height) ==> s + VisibleLines(len, height) == len
    ensures VisibleLines(len, height) < 0 ==> len < s
  {
    Max(0, len - VisibleLines(len, height))
  }

  /**
   * The drawing loop, having drawn `k` rows with `avail` entries in range:
   * the number of rows drawn when it ends.
   */
  function DrawFrom(k: nat, avail: int, height: int): (n: nat)
    ensures k <= n
    ensures avail <= k ==> n == k
    ensures k < avail ==> k < n <= avail
    ensures forall j :: k < j < n ==> Baseline(j) < height - BottomMargin
    ensures n == k || n == avail || height - BottomMargin <= Baseline(n)
    decreases avail - k
  {
    if avail <= k then k
    else if height - BottomMargin <= Baseline(k + 1) then k + 1
    else DrawFrom(k + 1, avail, height)
  }

  /**
   * The rows `render` draws from `avail` entries: never more than are
   * available, the first always when there is one, every later row only
   * while its baseline is above `height - 10`, and stopping only at the last
   * entry or at that bottom edge.
   */
  function RowsDrawn(avail: int, height: int): (n: nat)
    ensures n <= Max(avail, 0)
    ensures 0 < avail ==> 0 < n
    ensures forall j :: 0 < j < n ==> Baseline(j) < height - BottomMargin
    ensures n == Max(avail, 0) || height - BottomMargin <= Baseline(n)
  {
    DrawFrom(0, avail, height)
  }

  /** The four properties of RowsDrawn determine it. */
  lemma RowsDrawnUnique(avail: int, height: int, n: nat)
    requires n <= Max(avail, 0)
    requires 0 < avail ==> 0 < n
    requires forall j :: 0 < j < n ==> Baseline(j) < height - BottomMargin
    requires n == Max(avail, 0) || height - BottomMargin <= Baseline(n)
    ensures n == RowsDrawn(avail, height)
  {
    var m := RowsDrawn(avail, height);
    if n < m {
      assert false;
    } else if m < n {
      assert false;
    }
  }

  /** Offering exactly the rows that fit draws all of them. */
  lemma RowsDrawnIdempotent(avail: int, height: int)
    ensures RowsDrawn(RowsDrawn(avail, height), height) == RowsDrawn(avail, height)
  {
    var n := RowsDrawn(avail, height);
    var m := RowsDrawn(n, height);
    if m < n {
      assert false;
    }
  }

  /**
   * The heights at which, as written, the newest entry is not drawn: at least
   * two rows fit, the bottom edge `height - 10` falls on or above the last
   * fitting row's baseline (`height % 20 <= 10`), and the buffer fills them.
   */
  predicate NewestHiddenCase(len: nat, height: int) {
    40 <= height && height % LineHeight <= BottomMargin && height / LineHeight <= len
  }

  /**
   * As written, the drawn run ends one entry short of the newest exactly in
   * `NewestHiddenCase`, where the run starts `height // 20` entries from the
   * end but only `height // 20 - 1` rows are drawn. At any other non-negative
   * height it ends at the newest entry, or is empty when the height is below
   * 20; at a negative height it starts past the end.
   */
  lemma NewestHidden(len: nat, height: int)
    ensures NewestHiddenCase(len, height) ==>
              StartIndex(len, height) == len - height / LineHeight
              && RowsDrawn(len - StartIndex(len, height), height) == height / LineHeight - 1
    ensures 0 <= height ==>
              StartIndex(len, height) + RowsDrawn(len - StartIndex(len, height), height)
                == if NewestHiddenCase(len, height) then len - 1 else len
    ensures height < 0 ==> len < StartIndex(len, height) + RowsDrawn(len - StartIndex(len, height), height)
  {
    var q, r := height / LineHeight, height % LineHeight;
    assert height == q * LineHeight + r;
    if 0 <= height {
      if len < q {
        // every entry fits above the bottom edge
        RowsDrawnUnique(len, height, len);
      } else if 2 <= q && r <= BottomMargin {
        // row q - 1 sits on or below the bottom edge
        RowsDrawnUnique(q, height, q - 1);
      } else if BottomMargin < r {
        RowsDrawnUnique(q, height, q);
      }
    }
  }

  /**
   * At the default height of 600 with 30 or more entries the run starts 30
   * entries from the end but only 29 rows are drawn, so the newest entry
   * (index len - 1) is not drawn.
   */
  lemma NewestHiddenAtDefaultHeight(len: nat)
    requires 30 <= len
    ensures StartIndex(len, 600) == len - 30
    ensures RowsDrawn(len - StartIndex(len, 600), 600) == 29
    ensures StartIndex(len, 600) + RowsDrawn(len - StartIndex(len, 600), 600) == len - 1
  {
    NewestHidden(len, 600);
  }

  /**
   * The start index that keeps the newest entry on screen: start as many
   * entries from the end as the loop will actually draw from the whole
   * buffer. Below one line height nothing fits, and nothing is drawn, as in
   * the code as written.
   */
  function CorrectedStartIndex(len: nat, height: int): (s: nat)
    ensures s <= len
    ensures 0 < len && LineHeight <= height ==> s < len
    ensures s + RowsDrawn(len - s, height) == len
    ensures LineHeight <= height ==> RowsDrawn(len - s, height) == RowsDrawn(len, height)
    ensures height < LineHeight ==> s == len
  {
    if height < LineHeight then len
    else
      RowsDrawnIdempotent(len, height);
      len - RowsDrawn(len, height)
  }

  /**
   * The correction changes the code as written only in `NewestHiddenCase`,
   * and there it starts one entry later, so the newest entry is drawn.
   */
  lemma CorrectedStartIndexAgrees(len: nat, height: int)
    ensures 0 <= height && !NewestHiddenCase(len, height) ==>
              CorrectedStartIndex(len, height) == StartIndex(len, height)
    ensures NewestHiddenCase(len, height) ==>
              CorrectedStartIndex(len, height) == StartIndex(len, height) + 1
  {
    var q, r := height / LineHeight, height % LineHeight;
    assert height == q * LineHeight + r;
    if LineHeight <= height {
      if len < q {
        RowsDrawnUnique(len, height, len);
      } else if NewestHiddenCase(len, height) {
        RowsDrawnUnique(len, height, q - 1);
      } else {
        RowsDrawnUnique(len, height, q);
      }
    }
  }
}
