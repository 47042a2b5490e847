/**
 * The log tail shown on the logs page: the buffered text with its possibly
 * cut first line dropped, split into lines.
 */
module LogTail {
  import opened Wrappers
  import opened Text
  import opened Seqs

  /** Where the shown text starts: after the first newline, or at 0 when there is none. */
  function Start(s: string): (start: int)
    ensures 0 <= start <= |s|
  {
    var nl := IndexOf(s, '\n');
    if nl != -1 then nl + 1 else 0
  }

  /** Lines(): the buffer from Start on, split at newlines. */
  function Lines(s: string): seq<string>
  {
    Split(s[Start(s)..], '\n')
  }

  /** Without a newline the whole buffer is the one line. */
  lemma LinesNoNewline(s: string)
    requires '\n' !in s
    ensures Lines(s) == [s]
  {
    assert s[0..] == s;
    SplitFree(s, '\n');
  }

  /**
   * With a newline, the first line up to and including its newline is dropped
   * and the lines joined again give exactly the rest of the buffer; no line
   * holds a newline.
   */
  lemma LinesDropFirst(s: string)
    requires '\n' in s
    ensures var nl := IndexOf(s, '\n');
      '\n' !in s[..nl] && s == s[..nl] + "\n" + Join(Lines(s), '\n')
    ensures forall i :: 0 <= i < |Lines(s)| ==> '\n' !in Lines(s)[i]
  {
    var nl := IndexOf(s, '\n');
    var rest := s[nl + 1..];
    LinesAfterFirst(s);
    JoinSplit(rest, '\n');
    SplitPiecesFree(rest, '\n');
    SplitAt(s, nl);
  }

  /** With a newline, the lines are the pieces of the text after the first one. */
  lemma LinesAfterFirst(s: string)
    requires '\n' in s
    ensures Lines(s) == Split(s[IndexOf(s, '\n') + 1..], '\n')
  {
  }

  /** One line per newline of the shown text, plus one. */
  lemma LinesCount(s: string)
    ensures |Lines(s)| == Count(s[Start(s)..], '\n') + 1
  {
    SplitCount(s[Start(s)..], '\n');
  }

  /** A buffer ending in a newline shows a final empty line. */
  lemma LinesTrailingNewline(s: string)
    requires |s| > 0 && s[|s| - 1] == '\n'
    ensures Lines(s)[|Lines(s)| - 1] == ""
  {
    var t := s[Start(s)..];
    if |t| > 0 {
      var u := t[..|t| - 1];
      assert t == u + ['\n'];
      SplitSnoc(u, '\n');
    } else {
      SplitFree(t, '\n');
    }
  }

  /** Sync(): flushing the tail never fails. */
  function Sync(): (err: Option<string>)
    ensures err.None?
  {
    None
  }
}
