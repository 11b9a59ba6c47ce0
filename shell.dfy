/** How `lorri shell` reports build events on stderr (src/ops/shell.rs). */
module Shell {
  import opened ByteStrings
  import opened BuildLoop

  /** How many log lines a failure shows at most. */
  const TailLength: nat := 5

  /** `usize::saturating_sub`: the difference, or 0 instead of underflowing. */
  function SaturatingSub(a: nat, b: nat): (r: nat)
    ensures r <= a
    ensures r + b >= a
    ensures r == 0 || r + b == a
  {
    if a >= b then a - b else 0
  }

  /** The lines a failure shows: the last five, or all of them when there
      are fewer. */
  function ShownLines(lines: seq<Bytes>): (shown: seq<Bytes>)
    ensures |shown| == if |lines| < TailLength then |lines| else TailLength
    ensures shown == lines[|lines| - |shown|..]
    ensures |lines| <= TailLength ==> shown == lines
  {
    lines[SaturatingSub(|lines|, TailLength)..]
  }

  /** `join("\n")`: the parts with a line feed between neighbours. */
  function Join(parts: seq<Bytes>): (s: Bytes)
    ensures |parts| == 1 ==> s == parts[0]
  {
    if parts == [] then []
    else if |parts| == 1 then parts[0]
    else parts[0] + [LF] + Join(parts[1..])
  }

  /** The position of the first line feed, or |s| when there is none. */
  function LineEnd(s: Bytes): (k: nat)
    ensures k <= |s| && NoNewline(s[..k])
    ensures k < |s| ==> s[k] == LF
  {
    if s == [] || s[0] == LF then 0
    else
      var k := 1 + LineEnd(s[1..]);
      assert s[..k] == [s[0]] + s[1..][..k - 1];
      k
  }

  /** The lines of a byte string: the pieces between line feeds. */
  function Split(s: Bytes): (lines: seq<Bytes>)
    ensures |lines| > 0
    ensures forall i | 0 <= i < |lines| :: NoNewline(lines[i])
    decreases |s|
  {
    var k := LineEnd(s);
    if k == |s| then [s] else [s[..k]] + Split(s[k + 1..])
  }

  /** Splitting the joined lines gives the lines back, as long as none of
      them holds a line feed of its own. */
  lemma {:induction false} SplitJoin(parts: seq<Bytes>)
    requires |parts| > 0
    requires forall i | 0 <= i < |parts| :: NoNewline(parts[i])
    ensures Split(Join(parts)) == parts
  {
    var p := parts[0];
    if |parts| == 1 {
      LineEndOfLine(p, []);
      assert p + [] == p;
    } else {
      var tail := parts[1..];
      var rest := Join(tail);
      assert Join(parts) == p + [LF] + rest;
      assert p + [LF] + rest == p + ([LF] + rest);
      assert forall i | 0 <= i < |tail| :: tail[i] == parts[i + 1];
      SplitAfterLine(p, rest);
      SplitJoin(tail);
      assert parts == [p] + tail;
    }
  }

  /** Splitting a line, a line feed and more gives the line, then the
      lines of the rest. */
  lemma SplitAfterLine(p: Bytes, rest: Bytes)
    requires NoNewline(p)
    ensures Split(p + ([LF] + rest)) == [p] + Split(rest)
  {
    var s := p + ([LF] + rest);
    LineEndOfLine(p, [LF] + rest);
    assert s[..|p|] == p;
    assert s[|p| + 1..] == rest;
  }

  /** A line ends at its end, or at the line feed that follows it. */
  lemma {:induction false} LineEndOfLine(p: Bytes, rest: Bytes)
    requires NoNewline(p)
    requires rest == [] || rest[0] == LF
    ensures LineEnd(p + rest) == |p|
  {
    if p != [] {
      assert (p + rest)[1..] == p[1..] + rest;
      LineEndOfLine(p[1..], rest);
    } else {
      assert p + rest == rest;
    }
  }

  const StartedMessage: Bytes := Ascii("Evaluation started")
  // Spelled in three pieces only so that the verifier handles three short
  // literals instead of one long one; the bytes are the one message.
  const CompletedMessage: Bytes :=
    Ascii("Expressions re-evaluated. ") + Ascii("Press enter to reload the ") + Ascii("environment.")
  const FailedHeader: Bytes := Ascii("Evaluation failed: ") + [LF]

  /** `print_build_event`: the bytes written to stderr for an event, with
      the line feed `eprintln!` appends. */
  function PrintBuildEvent(ev: Event): (out: Bytes)
    ensures |out| > 0 && out[|out| - 1] == LF
  {
    match ev
    case Completed(_) => CompletedMessage + [LF]
    case Started => StartedMessage + [LF]
    case Failure(err) => FailedHeader + Join(ShownLines(err.logLines)) + [LF]
  }

  /** A failure shows the header, then exactly the last min(5, n) of its n
      log lines in their order, one per line: reading the lines back after
      the header gives them. */
  lemma FailureShowsTail(err: BuildExitFailure)
    requires forall i | 0 <= i < |err.logLines| :: NoNewline(err.logLines[i])
    requires |err.logLines| > 0
    ensures var out := PrintBuildEvent(Failure(err));
            IsPrefix(FailedHeader, out) &&
            Split(out[|FailedHeader|..|out| - 1]) == ShownLines(err.logLines)
  {
    var out := PrintBuildEvent(Failure(err));
    var shown := ShownLines(err.logLines);
    assert forall i | 0 <= i < |shown| :: shown[i] == err.logLines[|err.logLines| - |shown| + i];
    assert out[..|FailedHeader|] == FailedHeader;
    assert out[|FailedHeader|..|out| - 1] == Join(shown);
    SplitJoin(shown);
  }

  /** The completion message names no result: every `Completed` event
      prints the same bytes. */
  lemma CompletedIgnoresPayload(a: BuildResults, b: BuildResults)
    ensures PrintBuildEvent(Completed(a)) == PrintBuildEvent(Completed(b))
  {
  }

  /** The three kinds of event print differently, so a reader of stderr can
      tell them apart. */
  lemma MessagesDistinguishKinds(results: BuildResults, err: BuildExitFailure)
    ensures PrintBuildEvent(Started) != PrintBuildEvent(Completed(results))
    ensures PrintBuildEvent(Started) != PrintBuildEvent(Failure(err))
    ensures PrintBuildEvent(Completed(results)) != PrintBuildEvent(Failure(err))
  {
    var started := PrintBuildEvent(Started);
    var completed := PrintBuildEvent(Completed(results));
    var failed := PrintBuildEvent(Failure(err));
    assert started[1] as int == 'v' as int;
    assert completed[1] as int == 'x' as int;
    assert failed[1] as int == 'v' as int;
    assert started[11] as int == 's' as int;
    assert failed[11] as int == 'f' as int;
  }
}
