/**
 * Reading the answer to the `status` command: `get_new_clients` appends
 * line after line to one buffer until the buffer, trimmed, ends with `END`.
 * The server's side of the connection is given as the sequence of results
 * of the successful `read_line` calls (each one line with its newline, the
 * last possibly without) before the server closes the stream.
 */
module Response {
  import opened Wrappers
  import opened Text

  /** The terminator of a status response. */
  const Ending: string := "END"

  /** The loop's exit test: the accumulated text, trimmed, ends with `END`. */
  predicate Complete(buffer: string) {
    EndsWith(Trim(buffer), Ending)
  }

  /** Trailing whitespace is what `trim_end` takes off. */
  lemma {:induction false} TrimEndOfWhitespaceTail(x: string, w: string)
    requires |x| > 0 && !IsWhitespace(x[|x| - 1])
    requires forall i :: 0 <= i < |w| ==> IsWhitespace(w[i])
    ensures TrimEnd(x + w) == x
    decreases |w|
  {
    if |w| > 0 {
      assert (x + w)[..|x + w| - 1] == x + w[..|w| - 1];
      TrimEndOfWhitespaceTail(x, w[..|w| - 1]);
    } else {
      assert x + w == x;
    }
  }

  /**
   * A buffer whose last line is `END` followed by any line ending (`\n`,
   * `\r\n`, trailing blanks) completes the read.
   */
  lemma CompleteAfterEndLine(s: string, eol: string)
    requires forall i :: 0 <= i < |eol| ==> IsWhitespace(eol[i])
    ensures Complete(s + Ending + eol)
  {
    var x := s + Ending;
    assert s + Ending + eol == x + eol;
    TrimEndOfWhitespaceTail(x, eol);
    TrimStartRemovesLeadingWhitespace(x);
    var r := TrimStart(x);
    assert !IsWhitespace(x[|x| - 3]);
    assert r[|r| - 3..] == x[|x| - 3..] == Ending;
  }

  /** The lines glued together in order, as `read_line` accumulates them. */
  function Concat(lines: seq<string>): string {
    if lines == [] then [] else Concat(lines[..|lines| - 1]) + lines[|lines| - 1]
  }

  // ---------------------------------------------------------------------------
  // The loop as written
  // ---------------------------------------------------------------------------

  /** The buffer and the position of the next line the server will send. */
  datatype Reader = Reader(buffer: string, next: nat)

  /**
   * One `read_line` call: append the next line, or, once the server has
   * closed the stream, return `Ok(0)` and append nothing.
   */
  function ReadLine(incoming: seq<string>, r: Reader): Reader {
    if r.next < |incoming| then Reader(r.buffer + incoming[r.next], r.next + 1) else r
  }

  /** The reader after `k` turns of the loop body as written, from an empty buffer. */
  function AsWrittenAfter(incoming: seq<string>, k: nat): Reader {
    if k == 0 then Reader("", 0) else ReadLine(incoming, AsWrittenAfter(incoming, k - 1))
  }

  /** After `k` turns the buffer holds the first `k` lines, or all of them once the stream is closed. */
  lemma {:induction false} AsWrittenAfterHolds(incoming: seq<string>, k: nat)
    ensures var n := if k < |incoming| then k else |incoming|;
      AsWrittenAfter(incoming, k) == Reader(Concat(incoming[..n]), n)
  {
    if k > 0 {
      AsWrittenAfterHolds(incoming, k - 1);
      if k - 1 < |incoming| {
        assert incoming[..k][..k - 1] == incoming[..k - 1];
      }
    }
  }

  /**
   * When no run of the server's lines is complete, the loop as written never
   * exits: after any number of turns the buffer is still incomplete, and
   * once the stream is closed every further turn leaves the reader as it is.
   */
  lemma AsWrittenNeverExits(incoming: seq<string>, k: nat)
    requires forall j :: 0 <= j <= |incoming| ==> !Complete(Concat(incoming[..j]))
    ensures !Complete(AsWrittenAfter(incoming, k).buffer)
    ensures k >= |incoming| ==> AsWrittenAfter(incoming, k + 1) == AsWrittenAfter(incoming, k)
  {
    AsWrittenAfterHolds(incoming, k);
  }

  /** A server that accepts the connection and closes it at once keeps the loop spinning. */
  lemma AsWrittenSpinsOnClosedStream(k: nat)
    ensures AsWrittenAfter([], k) == Reader("", 0)
    ensures !Complete(AsWrittenAfter([], k).buffer)
  {
    AsWrittenAfterHolds([], k);
  }

  // ---------------------------------------------------------------------------
  // The loop with the end of the stream handled
  // ---------------------------------------------------------------------------

  /** No run of the first `i` lines is complete, for `k <= i < j`. */
  ghost predicate NoneCompleteBetween(incoming: seq<string>, k: nat, j: nat) {
    forall i :: k <= i < j && i <= |incoming| ==> !Complete(Concat(incoming[..i]))
  }

  /**
   * How many lines the read consumes, looking at runs of `k` lines or more:
   * the length of the shortest complete run, or `None` when the stream ends
   * before any run is complete.
   */
  function LinesRead(incoming: seq<string>, k: nat): (r: Option<nat>)
    requires k <= |incoming|
    ensures r.Some? ==>
      && k <= r.value <= |incoming|
      && Complete(Concat(incoming[..r.value]))
      && NoneCompleteBetween(incoming, k, r.value)
    ensures r.None? <==> NoneCompleteBetween(incoming, k, |incoming| + 1)
    decreases |incoming| - k
  {
    if Complete(Concat(incoming[..k])) then Some(k)
    else if k == |incoming| then None
    else LinesRead(incoming, k + 1)
  }

  /** The text the read delivers: the shortest complete run of lines, if any. */
  function ReceivedText(incoming: seq<string>): Option<string> {
    match LinesRead(incoming, 0)
    case None => None
    case Some(j) => Some(Concat(incoming[..j]))
  }

  /**
   * Whenever the loop as written exits, the corrected loop agrees with it:
   * the first turn after which the buffer is complete is the number of
   * lines the corrected loop reads, and the buffers are the same.
   */
  lemma AsWrittenAgrees(incoming: seq<string>, j: nat)
    requires LinesRead(incoming, 0) == Some(j)
    ensures AsWrittenAfter(incoming, j).buffer == ReceivedText(incoming).value
    ensures Complete(AsWrittenAfter(incoming, j).buffer)
    ensures forall k: nat :: k < j ==> !Complete(AsWrittenAfter(incoming, k).buffer)
  {
    AsWrittenAfterHolds(incoming, j);
    forall k: nat | k < j
      ensures !Complete(AsWrittenAfter(incoming, k).buffer)
    {
      AsWrittenAfterHolds(incoming, k);
    }
  }

  /**
   * The read loop of `get_new_clients`, returning `None` (a failed poll) when
   * the server closes the stream before sending `END`.
   */
  method ReadResponse(incoming: seq<string>) returns (r: Option<string>)
    ensures r == ReceivedText(incoming)
  {
    var line := "";
    var next := 0;
    while !Complete(line)
      invariant next <= |incoming| && line == Concat(incoming[..next])
      invariant LinesRead(incoming, next) == LinesRead(incoming, 0)
      decreases |incoming| - next
    {
      if next == |incoming| {
        return None;
      }
      assert incoming[..next + 1][..next] == incoming[..next];
      line := line + incoming[next];
      next := next + 1;
    }
    r := Some(line);
  }
}
