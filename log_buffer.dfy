/**
 * The buffer behind `LogWindow.log_lines`, a `collections.deque` with
 * `maxlen=max_lines`: appending keeps only the newest `max_lines` entries.
 */
module LogBuffer {
  import opened Basics

  /** One entry: (timestamp, category, message). */
  datatype LogLine = LogLine(timestamp: string, category: string, message: string)

  /** The newest `n` elements of `s`, oldest first. */
  function Newest<T>(s: seq<T>, n: nat): (r: seq<T>)
    ensures |r| == Min(|s|, n)
  {
    s[|s| - Min(|s|, n)..]
  }

  /**
   * `deque.append` on a deque with maximum length `cap`: below capacity the
   * entry is added at the end; at capacity the oldest entry is dropped first;
   * a deque with capacity 0 keeps nothing.
   */
  function Append<T>(buf: seq<T>, cap: nat, x: T): (r: seq<T>)
    requires |buf| <= cap
    ensures |r| <= cap
    ensures |buf| < cap ==> r == buf + [x]
    ensures 0 < cap == |buf| ==> r == buf[1..] + [x]
    ensures cap == 0 ==> r == []
  {
    Newest(buf + [x], cap)
  }

  /** Appending several entries one after the other. */
  function AppendAll<T>(buf: seq<T>, cap: nat, xs: seq<T>): (r: seq<T>)
    requires |buf| <= cap
    ensures |r| <= cap
    decreases |xs|
  {
    if xs == [] then buf else AppendAll(Append(buf, cap, xs[0]), cap, xs[1..])
  }

  /** Keeping the newest of a prefix first changes nothing about the newest overall. */
  lemma NewestOfNewest<T>(s: seq<T>, t: seq<T>, n: nat)
    ensures Newest(Newest(s, n) + t, n) == Newest(s + t, n)
  {
    var a, b := Newest(Newest(s, n) + t, n), Newest(s + t, n);
    assert |a| == |b|;
    forall i | 0 <= i < |a| ensures a[i] == b[i] {
      var u := Newest(s, n) + t;
      var k := |u| - |a| + i;
      if k < |Newest(s, n)| {
        assert u[k] == (s + t)[|s| - |Newest(s, n)| + k];
      } else {
        assert u[k] == t[k - |Newest(s, n)|];
      }
    }
  }

  /** Appending to the newest entries of a history keeps the newest of the longer history. */
  lemma AppendToNewest<T>(s: seq<T>, cap: nat, x: T)
    ensures Append(Newest(s, cap), cap, x) == Newest(s + [x], cap)
  {
    NewestOfNewest(s, [x], cap);
  }

  /**
   * A run of appends keeps exactly the newest `cap` entries of everything
   * appended, in their original order: the bounded FIFO never reorders and
   * only ever drops the oldest.
   */
  lemma {:induction false} AppendAllKeepsNewest<T>(buf: seq<T>, cap: nat, xs: seq<T>)
    requires |buf| <= cap
    ensures AppendAll(buf, cap, xs) == Newest(buf + xs, cap)
    decreases |xs|
  {
    if xs == [] {
      assert buf + xs == buf;
    } else {
      var next := Append(buf, cap, xs[0]);
      AppendAllKeepsNewest(next, cap, xs[1..]);
      NewestOfNewest(buf + [xs[0]], xs[1..], cap);
      assert buf + [xs[0]] + xs[1..] == buf + xs;
    }
  }

  /** Appending to an empty buffer keeps the newest `cap` of the appended items. */
  lemma AppendAllFromEmpty<T>(xs: seq<T>, cap: nat)
    ensures AppendAll([], cap, xs) == Newest(xs, cap)
  {
    AppendAllKeepsNewest([], cap, xs);
    assert [] + xs == xs;
  }
}
