/**
 * Reading a file line by line: `file_read_line` (crates/roc_file/src/lib.rs:120-131) and the
 * counting loop that drives it (examples/file-read-buffered.roc:36-52).
 */
module FileLines {
  import opened Wrappers
  import opened Words
  import opened Streams

  const NEWLINE: byte := 10

  /** `file_read_line`: an empty result means the end; on an error the partial line is dropped. */
  method FileReadLine(r: BufReader) returns (line: Result<seq<byte>, IoError>)
    requires r.Valid()
    modifies r
    ensures r.Valid()
    ensures var o := Until(old(r.Remaining()), NEWLINE);
            && r.Remaining() == o.rest
            && line == if o.error.None? then Ok(o.bytes) else Err(o.error.value)
  {
    ghost var taken := Until(r.Remaining(), NEWLINE).bytes;
    var read, buffer := ReadUntil(r, NEWLINE, []);
    assert buffer == [] + taken == taken;
    match read {
      case Ok(_) => line := Ok(buffer);
      case Err(e) => line := Err(e);
    }
  }

  datatype ReadSummary = ReadSummary(linesRead: nat, bytesRead: nat)

  /** What the counting loop computes from the items alone. */
  function Summarize(items: seq<Item>, summary: ReadSummary): Result<ReadSummary, IoError>
    decreases |items|
  {
    var o := Until(items, NEWLINE);
    if o.error.Some? then Err(o.error.value)
    else if o.bytes == [] then Ok(summary)
    else Summarize(o.rest, ReadSummary(summary.linesRead + 1, summary.bytesRead + |o.bytes|))
  }

  /** `process_line!`: the tail recursion terminates because each line uses up part of the file. */
  method ProcessLine(r: BufReader, summary: ReadSummary) returns (result: Result<ReadSummary, IoError>)
    requires r.Valid()
    modifies r
    ensures r.Valid()
    ensures result == Summarize(old(r.Remaining()), summary)
    decreases |r.Remaining()|
  {
    var line := FileReadLine(r);
    match line {
      case Ok(bytes) =>
        if |bytes| == 0 {
          return Ok(summary);
        }
        result := ProcessLine(r, ReadSummary(summary.linesRead + 1, summary.bytesRead + |bytes|));
      case Err(e) =>
        result := Err(e);
    }
  }

  // ---------------------------------------------------------------------------------------------
  // Files that can be read without an error
  // ---------------------------------------------------------------------------------------------

  /** A source that never fails and ends only at its end: chunks of content, with interruptions between. */
  ghost predicate ErrorFree(script: seq<Event>) {
    forall e | e in script :: e == Fault(Interrupted) || (e.Chunk? && e.bytes != [])
  }

  /** What the chunks hold together. */
  function Content(script: seq<Event>): seq<byte> {
    if script == [] then []
    else (if script[0].Chunk? then script[0].bytes else []) + Content(script[1..])
  }

  /** Such a source is a plain file, whatever its chunks and interruptions. */
  lemma {:induction false} ErrorFreeItems(script: seq<Event>)
    requires ErrorFree(script)
    ensures Flatten(script) == AsItems(Content(script))
  {
    if script == [] {
    } else {
      ErrorFreeItems(script[1..]);
      assert script[0] in script;
      AsItemsConcat(if script[0].Chunk? then script[0].bytes else [], Content(script[1..]));
    }
  }

  /** The results of reading line after line until the empty one. */
  function Lines(items: seq<Item>): seq<seq<byte>>
    decreases |items|
  {
    var o := Until(items, NEWLINE);
    if o.error.Some? || o.bytes == [] then [] else [o.bytes] + Lines(o.rest)
  }

  /** A file without errors or premature ends: after one line, the rest of it remains. */
  lemma PlainFile(content: seq<byte>)
    ensures var o := Until(AsItems(content), NEWLINE);
            && o.error.None? && |o.bytes| <= |content|
            && o.bytes == content[..|o.bytes|] && o.rest == AsItems(content[|o.bytes|..])
            && (o.bytes == [] <==> content == [])
            && NEWLINE !in o.bytes[..if o.bytes == [] then 0 else |o.bytes| - 1]
            && (|o.bytes| < |content| ==> o.bytes[|o.bytes| - 1] == NEWLINE)
  {
    match Memchr(NEWLINE, content)
    case Some(i) =>
      var line := content[..i + 1];
      assert content == line + content[i + 1..];
      AsItemsConcat(line, content[i + 1..]);
      assert line[..i] == content[..i];
      UntilStops(line, AsItems(content[i + 1..]), NEWLINE);
    case None =>
      UntilSkips(content, [], NEWLINE);
      assert AsItems(content) + [] == AsItems(content);
      assert content + [] == content;
      assert AsItems(content[|content|..]) == [];
      assert NEWLINE !in content[..if content == [] then 0 else |content| - 1];
  }

  /** The newline-terminated shape of line `i` of `n`: its only newline is at the end. */
  predicate LineShape(line: seq<byte>, last: bool) {
    && line != []
    && NEWLINE !in line[..|line| - 1]
    && (!last ==> line[|line| - 1] == NEWLINE)
  }

  /**
   * Splitting: the lines of any file are non-empty, put together they are the file, each has its
   * only newline at the end, and only the last may lack one.
   */
  lemma {:induction false} LinesSplit(content: seq<byte>)
    ensures var lines := Lines(AsItems(content));
            && Concat(lines) == content
            && forall i | 0 <= i < |lines| :: LineShape(lines[i], i == |lines| - 1)
    decreases |content|
  {
    PlainFile(content);
    var o := Until(AsItems(content), NEWLINE);
    if content == [] {
    } else {
      var rest := content[|o.bytes|..];
      LinesSplit(rest);
      assert content == o.bytes + rest;
      var lines := Lines(AsItems(content));
      assert lines == [o.bytes] + Lines(AsItems(rest));
      assert lines[1..] == Lines(AsItems(rest));
      if |lines| == 1 {
        assert LineShape(lines[0], true);
      } else {
        assert rest != [] by { if rest == [] { PlainFile(rest); } }
        assert LineShape(lines[0], false);
      }
      forall i | 0 < i < |lines|
        ensures LineShape(lines[i], i == |lines| - 1)
      {
        assert lines[i] == Lines(AsItems(rest))[i - 1];
      }
    }
  }

  /** The loop's totals are the number of lines and the number of bytes, on top of what it started with. */
  lemma {:induction false} SummaryCounts(content: seq<byte>, summary: ReadSummary)
    ensures Summarize(AsItems(content), summary)
         == Ok(ReadSummary(summary.linesRead + |Lines(AsItems(content))|, summary.bytesRead + |content|))
    decreases |content|
  {
    PlainFile(content);
    var o := Until(AsItems(content), NEWLINE);
    if content == [] {
    } else {
      SummaryCounts(content[|o.bytes|..], ReadSummary(summary.linesRead + 1, summary.bytesRead + |o.bytes|));
    }
  }

  /** A line as `PlainFile` describes it holds one newline, or none if it is an unterminated end. */
  lemma NewlinesInLine(line: seq<byte>, rest: seq<byte>)
    requires line != [] && NEWLINE !in line[..|line| - 1]
    ensures multiset(line + rest)[NEWLINE]
         == (if line[|line| - 1] == NEWLINE then 1 else 0) + multiset(rest)[NEWLINE]
  {
    var init, end := line[..|line| - 1], line[|line| - 1];
    assert line + rest == init + [end] + rest;
    assert multiset(line + rest) == multiset(init) + multiset([end]) + multiset(rest);
    assert NEWLINE !in multiset(init);
  }

  lemma FirstOfLines(items: seq<Item>)
    ensures var o := Until(items, NEWLINE);
            Lines(items) == if o.error.Some? || o.bytes == [] then [] else [o.bytes] + Lines(o.rest)
  {
  }

  /** The number of lines of a file, told from its newlines. */
  function LineNumber(content: seq<byte>): nat {
    multiset(content)[10] + if content != [] && content[|content| - 1] != 10 then 1 else 0
  }

  /** The number of lines is the number of newlines, plus one for an unterminated last line. */
  lemma {:induction false} LineCount(content: seq<byte>)
    ensures |Lines(AsItems(content))| == LineNumber(content)
    decreases |content|
  {
    hide Until, Lines, AsItems;
    PlainFile(content);
    FirstOfLines(AsItems(content));
    var line := Until(AsItems(content), NEWLINE).bytes;
    if content == [] {
    } else {
      var rest := content[|line|..];
      LineCount(rest);
      NewlinesInLine(line, rest);
      assert content == line + rest;
    }
  }

  // ---------------------------------------------------------------------------------------------
  // Files that fail
  // ---------------------------------------------------------------------------------------------

  /** A newline in the content ends the first line, whatever comes behind the content. */
  lemma FirstLineEnds(content: seq<byte>, more: seq<Item>) returns (i: nat)
    requires NEWLINE in content
    ensures i < |content|
    ensures Until(AsItems(content) + more, NEWLINE)
         == Outcome(content[..i + 1], None, AsItems(content[i + 1..]) + more)
  {
    hide Until;
    i := Memchr(NEWLINE, content).value;
    var line, rest := content[..i + 1], content[i + 1..];
    assert content == line + rest && line[..i] == content[..i];
    AsItemsConcat(line, rest);
    assert AsItems(content) + more == AsItems(line) + (AsItems(rest) + more);
    UntilStops(line, AsItems(rest) + more, NEWLINE);
  }

  lemma FailureEnds(kind: nat, rest: seq<Item>)
    ensures Until([Failure(kind)] + rest, NEWLINE) == Outcome([], Some(Failed(kind)), rest)
  {
    assert ([Failure(kind)] + rest)[1..] == rest;
  }

  /** A failure of the source is the result, whatever was counted before it and comes behind it. */
  lemma {:induction false} FailureReported(content: seq<byte>, kind: nat, rest: seq<Item>, summary: ReadSummary)
    ensures Summarize(AsItems(content) + ([Failure(kind)] + rest), summary) == Err(Failed(kind))
    decreases |content|
  {
    hide Until;
    var more := [Failure(kind)] + rest;
    if NEWLINE in content {
      var i := FirstLineEnds(content, more);
      FailureReported(content[i + 1..], kind, rest, ReadSummary(summary.linesRead + 1, summary.bytesRead + i + 1));
    } else {
      UntilSkips(content, more, NEWLINE);
      FailureEnds(kind, rest);
    }
  }

  lemma ErrorFreeUpTo(script: seq<Event>, n: nat)
    requires n < |script| && ErrorFree(script[..n]) && script[n].Fault? && script[n].error.Failed?
    ensures Flatten(script)
         == AsItems(Content(script[..n])) + ([Failure(script[n].error.kind)] + Flatten(script[n + 1..]))
  {
    hide Flatten, AsItems;
    assert script == script[..n] + script[n..];
    FlattenConcat(script[..n], script[n..]);
    ErrorFreeItems(script[..n]);
    FlattenStep(script[n..]);
    assert script[n..][1..] == script[n + 1..];
  }

  /**
   * `main!` (examples/file-read-buffered.roc:22-28): opens a reader and counts from zero.  A file that
   * is read without errors is counted right for every buffer size, chunking and interruption, and the
   * first failure of any other is reported, however much was counted before.
   */
  method CountFile(size: nat, script: seq<Event>) returns (result: Result<ReadSummary, IoError>)
    ensures result == Summarize(Flatten(script), ReadSummary(0, 0))
    ensures ErrorFree(script) ==> result == Ok(ReadSummary(LineNumber(Content(script)), |Content(script)|))
    ensures forall n | 0 <= n < |script| && ErrorFree(script[..n]) && script[n].Fault? && script[n].error.Failed? ::
              result == Err(script[n].error)
  {
    var reader := new BufReader(size, script);
    result := ProcessLine(reader, ReadSummary(0, 0));
    if ErrorFree(script) {
      ErrorFreeItems(script);
      SummaryCounts(Content(script), ReadSummary(0, 0));
      LineCount(Content(script));
    }
    forall n | 0 <= n < |script| && ErrorFree(script[..n]) && script[n].Fault? && script[n].error.Failed?
      ensures result == Err(script[n].error)
    {
      ErrorFreeUpTo(script, n);
      FailureReported(Content(script[..n]), script[n].error.kind, Flatten(script[n + 1..]), ReadSummary(0, 0));
    }
  }
}
