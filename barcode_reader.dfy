/**
  The line-framing step of the serial scanner reader: decoded text is
  appended to a buffer, complete lines (ended by LF) are cleaned and
  reported as barcodes, and the unfinished tail is kept for the next read.
  The serial port, the decoding of bytes and the reader thread are outside
  this model; a chunk is the already-decoded text of one read.
 */
module BarcodeReader {
  import opened Text

  /** A piece of text with no line feed in it. */
  predicate IsLine(s: string) {
    '\n' !in s
  }

  /** What the reader may report: non-empty, no whitespace at either end, no CR. */
  predicate IsBarcode(s: string) {
    s != [] && Trimmed(s) && '\r' !in s
  }

  /** `s.split('\n')`: the pieces between line feeds, in order; never empty. */
  function SplitLines(s: string): (r: seq<string>)
    ensures |r| >= 1
    ensures forall i :: 0 <= i < |r| ==> IsLine(r[i])
  {
    if |s| == 0 then [""]
    else
      var rest := SplitLines(s[1..]);
      if s[0] == '\n' then [""] + rest
      else [[s[0]] + rest[0]] + rest[1..]
  }

  /** Round trip: joining the pieces of `s` with line feeds gives `s` back. */
  lemma {:induction false} JoinSplit(s: string)
    ensures JoinLines(SplitLines(s)) == s
  {
    if |s| > 0 {
      var rest := SplitLines(s[1..]);
      JoinSplit(s[1..]);
      if s[0] == '\n' {
        assert ([""] + rest)[1..] == rest;
      } else {
        var r := [[s[0]] + rest[0]] + rest[1..];
        assert s == [s[0]] + s[1..];
        assert |rest| > 1 ==> r[1..] == rest[1..];
      }
    }
  }

  /** `'\n'.join(lines)`. */
  function JoinLines(lines: seq<string>): string {
    if |lines| == 0 then ""
    else if |lines| == 1 then lines[0]
    else lines[0] + "\n" + JoinLines(lines[1..])
  }

  /** All lines of `s` that a line feed has closed. */
  function CompleteLines(s: string): seq<string> {
    var pieces := SplitLines(s);
    pieces[..|pieces| - 1]
  }

  /** The text after the last line feed of `s` (all of `s` when it has none). */
  function Remainder(s: string): string {
    var pieces := SplitLines(s);
    pieces[|pieces| - 1]
  }

  /** One line as the reader reports it: stripped, then with every CR removed. */
  function Clean(line: string): string {
    DropCarriageReturns(Strip(line))
  }

  /**
    A cleaned line is empty exactly when the line is blank; otherwise it is
    a reportable barcode. Cleaning never introduces a line feed.
   */
  lemma CleanYieldsBarcode(line: string)
    ensures Clean(line) == [] <==> AllSpace(line)
    ensures Clean(line) != [] ==> IsBarcode(Clean(line))
    ensures IsLine(line) ==> IsLine(Clean(line))
  {
    var stripped := Strip(line);
    StripSpec(line);
    DropCarriageReturnsSpec(stripped);
    if stripped != [] {
      assert IsSpace('\r');
      DropCarriageReturnsKeepsEnds(stripped);
    }
    if IsLine(line) {
      StripKeepsOut(line, '\n');
      DropCarriageReturnsKeepsOut(stripped, '\n');
    }
  }

  /**
    The barcodes a run of complete lines yields: the cleaned lines that are
    not blank, in the order of the lines.
   */
  function Emit(lines: seq<string>): (r: seq<string>)
    ensures |r| <= |lines|
  {
    if |lines| == 0 then []
    else Emit(lines[..|lines| - 1]) + EmitLine(lines[|lines| - 1])
  }

  /** What one complete line yields: its cleaned form, or nothing when that is empty. */
  function EmitLine(line: string): seq<string> {
    var code := Clean(line);
    if code == [] then [] else [code]
  }

  datatype Framed = Framed(detected: seq<string>, buffer: string)

  /** One read of the reader loop: the old buffer and a decoded chunk give the barcodes reported and the new buffer. */
  function Frame(buffer: string, chunk: string): Framed {
    var text := buffer + chunk;
    if '\n' in text || '\r' in text then
      var lines := SplitLines(text);
      Framed(Emit(lines[..|lines| - 1]), lines[|lines| - 1])
    else
      Framed([], text)
  }

  // ---------------------------------------------------------------------
  // Properties of SplitLines and Emit

  /** Text without a line feed is a single piece. */
  lemma {:induction false} SplitWithoutLineFeed(s: string)
    requires '\n' !in s
    ensures SplitLines(s) == [s]
  {
    if |s| > 0 {
      assert s[0] in s;
      assert '\n' !in s[1..] by {
        forall c | c in s[1..] ensures c in s { }
      }
      SplitWithoutLineFeed(s[1..]);
      assert [s[0]] + s[1..] == s;
    }
  }

  /** Round trip the other way: joining pieces without line feeds and splitting again gives the pieces back. */
  lemma {:induction false} SplitJoin(lines: seq<string>)
    requires |lines| >= 1
    requires forall i :: 0 <= i < |lines| ==> IsLine(lines[i])
    ensures SplitLines(JoinLines(lines)) == lines
  {
    if |lines| == 1 {
      SplitWithoutLineFeed(lines[0]);
    } else {
      var head, tail := lines[0], JoinLines(lines[1..]);
      SplitJoin(lines[1..]);
      SplitClosedLine(head);
      SplitConcat(head + "\n", tail);
      assert JoinLines(lines) == (head + "\n") + tail;
      GlueClosedLine(head, lines[1..]);
      assert lines == [head] + lines[1..];
    }
  }

  /** A line closed by a line feed splits into the line and an empty remainder. */
  lemma SplitClosedLine(line: string)
    requires IsLine(line)
    ensures SplitLines(line + "\n") == [line, ""]
  {
    SplitWithoutLineFeed(line);
    assert SplitLines("\n") == ["", ""] by {
      assert "\n"[0] == '\n' && "\n"[1..] == "";
    }
    SplitConcat(line, "\n");
    assert [line][..0] == [] && line + "" == line;
  }

  lemma GlueClosedLine(line: string, rest: seq<string>)
    requires |rest| >= 1
    ensures Glue([line, ""], rest) == [line] + rest
  {
    assert [line, ""][..1] == [line] && "" + rest[0] == rest[0];
    assert rest == [rest[0]] + rest[1..];
  }

  /** The pieces of `a` followed by those of `b`, the last piece of `a` glued to the first of `b`. */
  function Glue(A: seq<string>, B: seq<string>): seq<string>
    requires |A| >= 1 && |B| >= 1
  {
    A[..|A| - 1] + [A[|A| - 1] + B[0]] + B[1..]
  }

  lemma GlueAfterLineFeed(A: seq<string>, B: seq<string>)
    requires |A| >= 1 && |B| >= 1
    ensures Glue([""] + A, B) == [""] + Glue(A, B)
  {
    assert ([""] + A)[..|A|] == [""] + A[..|A| - 1];
  }

  lemma GlueAfterChar(c: char, A: seq<string>, B: seq<string>)
    requires |A| >= 1 && |B| >= 1
    ensures var G := Glue(A, B); Glue([[c] + A[0]] + A[1..], B) == [[c] + G[0]] + G[1..]
  {
    var G := Glue(A, B);
    if |A| == 1 {
      assert [c] + G[0] == ([c] + A[0]) + B[0];
      assert G[1..] == B[1..];
    } else {
      assert G[0] == A[0];
      assert G[1..] == A[1..|A| - 1] + [A[|A| - 1] + B[0]] + B[1..];
    }
  }

  lemma GlueAfterPrefix(P: seq<string>, A: seq<string>, B: seq<string>)
    requires |A| >= 1 && |B| >= 1
    ensures Glue(P + A, B) == P + Glue(A, B)
  {
    assert (P + A)[..|P + A| - 1] == P + A[..|A| - 1];
    assert (P + A)[|P + A| - 1] == A[|A| - 1];
  }

  /** Splitting a concatenation glues the last piece of `a` to the first piece of `b`; all other pieces are kept. */
  lemma {:induction false} SplitConcat(a: string, b: string)
    ensures SplitLines(a + b) == Glue(SplitLines(a), SplitLines(b))
  {
    var B := SplitLines(b);
    if |a| == 0 {
      assert a + b == b;
      assert [""][..0] == [] && "" + B[0] == B[0];
      assert Glue([""], B) == [B[0]] + B[1..] == B;
    } else {
      assert (a + b)[0] == a[0];
      assert (a + b)[1..] == a[1..] + b;
      SplitConcat(a[1..], b);
      if a[0] == '\n' {
        GlueAfterLineFeed(SplitLines(a[1..]), B);
      } else {
        GlueAfterChar(a[0], SplitLines(a[1..]), B);
      }
    }
  }

  /** Adding one line at the end adds what that line yields. */
  lemma EmitSnoc(lines: seq<string>, line: string)
    ensures Emit(lines + [line]) == Emit(lines) + EmitLine(line)
  {
    assert (lines + [line])[..|lines|] == lines;
  }

  /** Emitting is done line by line, so it distributes over concatenation: order is kept. */
  lemma {:induction false} EmitAppend(a: seq<string>, b: seq<string>)
    ensures Emit(a + b) == Emit(a) + Emit(b)
  {
    if |b| == 0 {
      assert a + b == a;
    } else {
      var front, last := b[..|b| - 1], b[|b| - 1];
      assert b == front + [last];
      assert a + b == (a + front) + [last];
      EmitAppend(a, front);
      EmitSnoc(a + front, last);
      EmitSnoc(front, last);
    }
  }

  /**
    Everything emitted is a reportable barcode, and lines without line feeds
    give barcodes without line feeds.
   */
  lemma {:induction false} EmitYieldsBarcodes(lines: seq<string>)
    ensures forall k :: 0 <= k < |Emit(lines)| ==> IsBarcode(Emit(lines)[k])
    ensures (forall i :: 0 <= i < |lines| ==> IsLine(lines[i])) ==>
      forall k :: 0 <= k < |Emit(lines)| ==> IsLine(Emit(lines)[k])
  {
    if |lines| > 0 {
      var front, last := lines[..|lines| - 1], lines[|lines| - 1];
      assert forall i :: 0 <= i < |front| ==> front[i] == lines[i];
      EmitYieldsBarcodes(front);
      CleanYieldsBarcode(last);
    }
  }

  /** A single line yields its cleaned form when it is not blank, and nothing when it is. */
  lemma EmitOne(line: string)
    ensures Emit([line]) == if AllSpace(line) then [] else [Clean(line)]
  {
    assert [line][..0] == [];
    CleanYieldsBarcode(line);
  }

  // ---------------------------------------------------------------------
  // Properties of one framing step

  /** The pieces of `s` are its complete lines followed by its remainder, which has no line feed. */
  lemma CompleteThenRemainder(s: string)
    ensures SplitLines(s) == CompleteLines(s) + [Remainder(s)]
    ensures '\n' !in Remainder(s)
  {
    var pieces := SplitLines(s);
    assert pieces == pieces[..|pieces| - 1] + [pieces[|pieces| - 1]];
  }

  /** Text without a line feed has no complete line and is all remainder. */
  lemma NoCompleteLineWithoutLineFeed(s: string)
    requires '\n' !in s
    ensures CompleteLines(s) == [] && Remainder(s) == s
  {
    SplitWithoutLineFeed(s);
  }

  /**
    A step reports exactly the cleaned complete lines of the old buffer
    followed by the chunk, and keeps their remainder as the new buffer.
   */
  lemma FrameIsLineSplit(buffer: string, chunk: string)
    ensures Frame(buffer, chunk) == Framed(Emit(CompleteLines(buffer + chunk)), Remainder(buffer + chunk))
  {
    var text := buffer + chunk;
    if !('\n' in text || '\r' in text) {
      NoCompleteLineWithoutLineFeed(text);
    }
  }

  /**
    Nothing is lost or invented by a step: the old buffer and the chunk are
    exactly the complete lines, each closed by a line feed, followed by the
    new buffer, and the new buffer has no line feed.
   */
  lemma FrameConservesText(buffer: string, chunk: string)
    ensures buffer + chunk == JoinLines(CompleteLines(buffer + chunk) + [Frame(buffer, chunk).buffer])
    ensures '\n' !in Frame(buffer, chunk).buffer
  {
    var text := buffer + chunk;
    FrameIsLineSplit(buffer, chunk);
    CompleteThenRemainder(text);
    JoinSplit(text);
  }

  /**
    Where the combined text has no line feed (it may have CRs) nothing is
    reported and all of it stays in the buffer: CR alone never ends a line.
   */
  lemma FrameWithoutLineFeed(buffer: string, chunk: string)
    requires '\n' !in buffer + chunk
    ensures Frame(buffer, chunk) == Framed([], buffer + chunk)
  {
    FrameIsLineSplit(buffer, chunk);
    NoCompleteLineWithoutLineFeed(buffer + chunk);
  }

  /** Only a line feed closes a line: a code ended by a bare CR stays in the buffer, nothing reported. */
  lemma BareCarriageReturnKept()
    ensures Frame("", "A1\r") == Framed([], "A1\r")
  {
    FrameWithoutLineFeed("", "A1\r");
  }

  lemma CleanDropsTrailingCarriageReturn()
    ensures Clean("A1\r") == "A1"
  {
    assert TrimStart("A1\r") == "A1\r";
    assert "A1\r"[..2] == "A1";
    assert TrimEnd("A1") == "A1";
    assert DropCarriageReturns("1") == "1";
  }

  /** A code ended by CR LF is reported without its CR, and the buffer is left empty. */
  lemma CarriageReturnLineFeedEndsLine()
    ensures Frame("", "A1\r\n") == Framed(["A1"], "")
  {
    assert "" + "A1\r\n" == "A1\r" + "\n";
    SplitClosedLine("A1\r");
    CleanDropsTrailingCarriageReturn();
    EmitOne("A1\r");
    assert !IsSpace('A');
  }

  /** Every barcode a step reports is non-empty, has no whitespace at either end, and holds no CR or LF. */
  lemma FrameReportsCleanBarcodes(buffer: string, chunk: string)
    ensures forall k :: 0 <= k < |Frame(buffer, chunk).detected| ==>
      var code := Frame(buffer, chunk).detected[k];
      IsBarcode(code) && IsLine(code)
  {
    var text := buffer + chunk;
    FrameIsLineSplit(buffer, chunk);
    CompleteThenRemainder(text);
    var complete := CompleteLines(text);
    assert forall i :: 0 <= i < |complete| ==> complete[i] == SplitLines(text)[i];
    EmitYieldsBarcodes(complete);
  }

  // ---------------------------------------------------------------------
  // The reader loop

  function Concat(chunks: seq<string>): string {
    if |chunks| == 0 then "" else Concat(chunks[..|chunks| - 1]) + chunks[|chunks| - 1]
  }

  /**
    Reading one more chunk: if the text read so far splits into `consumed`
    and the current buffer, the text with the chunk splits into `consumed`
    and the pieces of the buffer followed by the chunk.
   */
  lemma StreamStep(done: string, consumed: seq<string>, buffer: string, chunk: string)
    requires SplitLines(done) == consumed + [buffer]
    ensures SplitLines(done + chunk) == consumed + SplitLines(buffer + chunk)
  {
    var C := SplitLines(chunk);
    assert IsLine(buffer) by {
      assert buffer == SplitLines(done)[|consumed|];
    }
    SplitWithoutLineFeed(buffer);
    SplitConcat(done, chunk);
    SplitConcat(buffer, chunk);
    GlueAfterPrefix(consumed, [buffer], C);
  }

  lemma SplitIntoLast(consumed: seq<string>, lines: seq<string>)
    requires |lines| >= 1
    ensures consumed + lines == (consumed + lines[..|lines| - 1]) + [lines[|lines| - 1]]
  {
    assert lines == lines[..|lines| - 1] + [lines[|lines| - 1]];
  }

  /** One more line of the inner loop adds what that line yields. */
  lemma EmitStep(consumed: seq<string>, lines: seq<string>, i: nat)
    requires i < |lines|
    ensures Emit(consumed + lines[..i + 1]) == Emit(consumed + lines[..i]) + EmitLine(lines[i])
  {
    assert consumed + lines[..i + 1] == (consumed + lines[..i]) + [lines[i]];
    EmitSnoc(consumed + lines[..i], lines[i]);
  }

  /**
    The `while self.running` loop over the reads the port delivers, with the
    inner loop that reports the cleaned complete lines one by one. However
    the text is cut into chunks, the barcodes reported are those of the
    complete lines of the whole text, in order, and the final buffer is its
    unfinished last line.
   */
  method ReadChunks(chunks: seq<string>) returns (detected: seq<string>, buffer: string)
    ensures detected == Emit(CompleteLines(Concat(chunks)))
    ensures buffer == Remainder(Concat(chunks))
  {
    buffer := "";
    detected := [];
    ghost var consumed: seq<string> := [];
    var k := 0;
    while k < |chunks|
      invariant 0 <= k <= |chunks|
      invariant SplitLines(Concat(chunks[..k])) == consumed + [buffer]
      invariant detected == Emit(consumed)
    {
      ghost var read := Concat(chunks[..k + 1]);
      assert chunks[..k + 1][..k] == chunks[..k];
      assert read == Concat(chunks[..k]) + chunks[k];
      StreamStep(Concat(chunks[..k]), consumed, buffer, chunks[k]);
      // each iteration performs exactly one `Frame` step
      ghost var step := Frame(buffer, chunks[k]);
      ghost var before, consumedBefore := detected, consumed;
      buffer := buffer + chunks[k];
      assert SplitLines(read) == consumed + SplitLines(buffer);
      if '\n' in buffer || '\r' in buffer {
        var lines := SplitLines(buffer);
        assert consumed + lines[..0] == consumed;
        for i := 0 to |lines| - 1
          invariant detected == Emit(consumed + lines[..i])
        {
          EmitStep(consumed, lines, i);
          var line := Clean(lines[i]);
          assert EmitLine(lines[i]) == if line == [] then [] else [line];
          if line != "" {
            detected := detected + [line];
          } else {
            assert detected + EmitLine(lines[i]) == detected;
          }
        }
        SplitIntoLast(consumed, lines);
        consumed := consumed + lines[..|lines| - 1];
        buffer := lines[|lines| - 1];
        EmitAppend(consumedBefore, lines[..|lines| - 1]);
      } else {
        SplitWithoutLineFeed(buffer);
      }
      assert detected == before + step.detected && buffer == step.buffer;
      k := k + 1;
    }
    assert chunks[..k] == chunks;
    CompleteThenRemainder(Concat(chunks));
  }
}
