/** The middleware recoverer: the handler that recovers a panic, the pretty
    stack printed to standard error (`parse`) and the bug report sent to the
    bug service (`bugParse`). A `debug.Stack()` dump arrives as its text. */
module Recoverer {
  import opened Outcomes
  import opened Text
  import opened Numbers
  import opened Colour
  import opened StackDecoration
  import opened StackFrames
  import opened MiddlewareBugLine

  /** The line `parse` looks for: the start of the panic's own frame. */
  const ParseMarker: string := "panic(0x"
  /** The line `bugParse` looks for. */
  const BugMarker: string := "panic"
  const StatusInternalServerError: int := 500

  /** The four colour writes before the stack: a blank line, " panic: ", the
      panic value (as `%v` renders it) and a spacer. */
  function Header(panicValue: string, isTTY: bool): string
  {
    CW(isTTY, false, BRed, "\n") + CW(isTTY, true, BCyan, " panic: ")
    + CW(isTTY, true, BBlue, panicValue) + CW(isTTY, false, BWhite, "\n \n")
  }

  /** The header starts on a fresh line, ends with the spacer and shows the
      panic value; off a terminal it carries no colour at all. */
  lemma HeaderShowsValue(panicValue: string, isTTY: bool)
    ensures HasPrefix(Header(panicValue, isTTY), "\n")
    ensures HasSuffix(Header(panicValue, isTTY), "\n \n")
    ensures Contains(Header(panicValue, isTTY), panicValue)
    ensures !isTTY ==> Header(panicValue, isTTY) == "\n panic: " + panicValue + "\n \n"
  {
    var h := Header(panicValue, isTTY);
    var front := CW(isTTY, false, BRed, "\n") + CW(isTTY, true, BCyan, " panic: ");
    var v := CW(isTTY, true, BBlue, panicValue);
    assert h == front + v + "\n \n";
    assert h[..1] == front[..1];
    assert Contains(v, panicValue) by {
      if isTTY {
        ContainsMiddle(BBlue, panicValue, Reset);
      } else {
        ContainsMiddle("", panicValue, "");
        assert "" + panicValue + "" == panicValue;
      }
    }
    var i :| 0 <= i <= |v| - |panicValue| && OccursAt(v, panicValue, i);
    assert (front + v + "\n \n")[|front| + i..|front| + i + |panicValue|] == v[i..i + |panicValue|];
    assert OccursAt(h, panicValue, |front| + i);
  }

  /** What `parse` returns: the header and the decorated frame lines of the
      innermost panic, or the first decoration error, or a panic. */
  function PrettyStack(debugStack: string, panicValue: string, isTTY: bool): Run<Result<string, string>>
  {
    match FrameLines(Split(debugStack, '\n'), ParseMarker)
    case Panics(p) => Panics(p)
    case Returns(lines) =>
      match Sequence(DecorateAll(lines, true, isTTY))
      case Panics(p) => Panics(p)
      case Returns(Err(e)) => Returns(Err(e))
      case Returns(Ok(texts)) => Returns(Ok(Header(panicValue, isTTY) + Join(texts, "")))
  }

  /** When every frame line decorates, the output is the header followed by
      the decorations, line `j` decorated with number `j`. */
  lemma PrettyStackOutput(debugStack: string, panicValue: string, isTTY: bool, texts: seq<string>)
    requires FrameLines(Split(debugStack, '\n'), ParseMarker).Returns?
    requires var lines := FrameLines(Split(debugStack, '\n'), ParseMarker).value;
             |texts| == |lines| && forall j :: 0 <= j < |lines| ==> DecorateLine(lines[j], true, j, isTTY) == Returns(Ok(texts[j]))
    ensures PrettyStack(debugStack, panicValue, isTTY) == Returns(Ok(Header(panicValue, isTTY) + Join(texts, "")))
  {
    var lines := FrameLines(Split(debugStack, '\n'), ParseMarker).value;
    DecorateAllSucceed(lines, true, isTTY, texts);
  }

  /** The first frame line that fails to decorate decides the result: its
      error is returned, or its panic propagates. */
  lemma PrettyStackFirstFailure(debugStack: string, panicValue: string, isTTY: bool, j: int)
    requires FrameLines(Split(debugStack, '\n'), ParseMarker).Returns?
    requires FirstFailed(DecorateAll(FrameLines(Split(debugStack, '\n'), ParseMarker).value, true, isTTY), j)
    ensures var o := DecorateLine(FrameLines(Split(debugStack, '\n'), ParseMarker).value[j], true, j, isTTY);
            PrettyStack(debugStack, panicValue, isTTY) == (if o.Panics? then Panics(o.reason) else Returns(Err(o.value.error)))
  {
    var lines := FrameLines(Split(debugStack, '\n'), ParseMarker).value;
    FirstFailureAborts(DecorateAll(lines, true, isTTY), j);
  }

  /** PrettyStack once the frame lines and the decorate loop's result are
      known. */
  lemma PrettyStackFrom(debugStack: string, panicValue: string, isTTY: bool, lines: seq<string>, d: Run<Result<seq<string>, string>>)
    requires FrameLines(Split(debugStack, '\n'), ParseMarker) == Returns(lines)
    requires d == Sequence(DecorateAll(lines, true, isTTY))
    ensures d.Panics? ==> PrettyStack(debugStack, panicValue, isTTY) == Panics(d.reason)
    ensures d.Returns? && d.value.Err? ==> PrettyStack(debugStack, panicValue, isTTY) == Returns(Err(d.value.error))
    ensures d.Returns? && d.value.Ok? ==>
              PrettyStack(debugStack, panicValue, isTTY) == Returns(Ok(Header(panicValue, isTTY) + Join(d.value.value, "")))
  {
  }

  /** The backward scan and the reversal shared by `parse` and `bugParse`:
      the frame lines in dump order, in a fresh array, and whether a marker
      line was found. */
  method FramesInOrder(stack: seq<string>, marker: string) returns (r: Run<array<string>>, found: bool)
    ensures found <==> LastMarker(stack, marker) != 0
    ensures r.Panics? <==> FrameLines(stack, marker).Panics?
    ensures r.Panics? ==> r.reason == FrameLines(stack, marker).reason
    ensures r.Returns? ==> fresh(r.value) && r.value[..] == FrameLines(stack, marker).value
  {
    var collected;
    collected, found := CollectFrames(stack, marker);
    if collected.Panics? {
      return Panics(collected.reason), found;
    }
    var frames := collected.value;
    var lines := new string[|frames|](i requires 0 <= i < |frames| => frames[i]);
    assert lines[..] == frames;
    ReverseInPlace(lines);
    ReversedTwice(FrameLines(stack, marker).value);
    r := Returns(lines);
  }

  /** `parse`: the header, the backward scan for the panic line, the reversal,
      the decorate loop and the output loop over the decorated lines. */
  method Parse(debugStack: string, panicValue: string, isTTY: bool) returns (r: Run<Result<string, string>>)
    ensures r == PrettyStack(debugStack, panicValue, isTTY)
  {
    var stack := Split(debugStack, '\n');
    var framed, _ := FramesInOrder(stack, ParseMarker);
    if framed.Panics? {
      return Panics(framed.reason);
    }
    var lines := framed.value;
    ghost var original := lines[..];
    var decorated := DecorateInPlace(lines, DecorateFn(true, isTTY));
    PrettyStackFrom(debugStack, panicValue, isTTY, original, decorated);
    if decorated.Panics? {
      return Panics(decorated.reason);
    }
    if decorated.value.Err? {
      return Returns(Err(decorated.value.error));
    }
    var out := WriteAll(Header(panicValue, isTTY), lines);
    r := Returns(Ok(out));
  }

  /** The output loop of `parse`: each line is appended to what the buffer
      already holds. */
  method WriteAll(buf: string, lines: array<string>) returns (out: string)
    ensures out == buf + Join(lines[..], "")
  {
    out := buf;
    var i := 0;
    while i < lines.Length
      invariant 0 <= i <= lines.Length
      invariant out == buf + Join(lines[..i], "")
    {
      JoinAppend(lines[..i], lines[i]);
      assert lines[..i + 1] == lines[..i] + [lines[i]];
      out := out + lines[i];
      i := i + 1;
    }
    assert lines[..lines.Length] == lines[..];
  }

  /** `PrintPrettyStack`: what reaches standard error is the pretty stack, or
      the raw dump when `parse` reports an error. */
  method PrintPrettyStack(debugStack: string, panicValue: string, isTTY: bool) returns (written: Run<string>)
    ensures var p := PrettyStack(debugStack, panicValue, isTTY);
            && (p.Panics? <==> written.Panics?)
            && (p.Panics? ==> written.reason == p.reason)
            && (p.Returns? && p.value.Err? ==> written == Returns(debugStack))
            && (p.Returns? && p.value.Ok? ==> written == Returns(p.value.value))
  {
    var out := Parse(debugStack, panicValue, isTTY);
    if out.Panics? {
      return Panics(out.reason);
    }
    if out.value.Ok? {
      written := Returns(out.value.value);
    } else {
      written := Returns(debugStack);
    }
  }

  /** What `recover()` gives the deferred function: nothing, the
      abort-handler sentinel, or a panic value as `%v` renders it. */
  datatype Recovered = NoPanic | AbortHandler | PanicValue(text: string)

  /** Where the panic is reported: to the request's log entry, or as text
      on standard error. */
  datatype PanicReport = LoggedToEntry(value: string) | WrittenToStderr(text: string)

  /** The effect of the deferred function: the status written, the report,
      and whether a bug report was dispatched. */
  datatype Recovery = Recovery(status: Option<int>, report: Option<PanicReport>, bugReportSent: bool)

  /** The deferred function of `Recoverer`: a panic other than the
      abort-handler sentinel is reported (to the log entry when the request
      has one, otherwise as the pretty stack), answered with status 500 and
      sent to the bug service in the background; anything else passes. */
  method RecoverPanic(rvr: Recovered, hasLogEntry: bool, debugStack: string, isTTY: bool) returns (h: Run<Recovery>)
    ensures !rvr.PanicValue? ==> h == Returns(Recovery(None, None, false))
    ensures rvr.PanicValue? && hasLogEntry ==>
              h == Returns(Recovery(Some(StatusInternalServerError), Some(LoggedToEntry(rvr.text)), true))
    ensures rvr.PanicValue? && !hasLogEntry ==>
              var p := PrettyStack(debugStack, rvr.text, isTTY);
              && (h.Panics? <==> p.Panics?)
              && (h.Returns? ==> h.value.status == Some(StatusInternalServerError) && h.value.bugReportSent)
              && (h.Returns? ==> h.value.report == Some(WrittenToStderr(if p.value.Ok? then p.value.value else debugStack)))
  {
    if !rvr.PanicValue? {
      return Returns(Recovery(None, None, false));
    }
    var report := LoggedToEntry(rvr.text);
    if !hasLogEntry {
      var written := PrintPrettyStack(debugStack, rvr.text, isTTY);
      if written.Panics? {
        return Panics(written.reason);
      }
      report := WrittenToStderr(written.value);
    }
    h := Returns(Recovery(Some(StatusInternalServerError), Some(report), true));
  }

  /** The middleware's bug record. `bug` and `raw` are interface fields that
      stay nil (None) until set. */
  datatype BugFixesSend = BugFixesSend(
    bug: Option<string>,
    raw: Option<string>,
    bugLine: string,
    file: string,
    line: string,
    lineNumber: int,
    level: string)

  /** `bugParse`'s pair: the record as far as it was filled, and the error. */
  datatype BugParsed = BugParsed(bug: BugFixesSend, err: Option<string>)

  /** How `bugParse` wraps a bug-line error. */
  function ParseFailure(e: BugLineError): string
  {
    "failed to parse bug line: " + Message(e)
  }

  /** `bugParse` once the frame lines are known: line 1 is the bug line; its
      text up to the first space is recorded, then it is parsed by
      ParseBugLine as written, whose layout panics propagate; only then is
      the raw text set, and only after every line decorates are the file,
      line and decorated text set. */
  function BugReportOf(lines: seq<string>, level: string, isTTY: bool): Run<BugParsed>
  {
    if |lines| < 2 then Panics("index out of range [1] with length " + Itoa(|lines|))
    else
      var sp := IndexChar(lines[1], ' ');
      if sp < 0 then Panics(ShortSlicePanic)
      else
        var bug := BugFixesSend(None, None, lines[1][..sp], "", "", 0, level);
        match ParseBugLineAsWritten(lines[1])
        case Panics(p) => Panics(p)
        case Returns(parsed) =>
          if parsed.err.Some? then Returns(BugParsed(bug, Some(ParseFailure(parsed.err.value))))
          else Decorated(bug.(raw := Some(Join(lines, "\n"))), parsed, lines, isTTY)
  }

  /** The end of `bugParse`: the decorate loop, then the parsed fields and
      the decorated lines joined together are set; a decoration error
      returns the record as it stands, with the loop's error. */
  function Decorated(bug: BugFixesSend, parsed: ParsedBugLine, lines: seq<string>, isTTY: bool): (r: Run<BugParsed>)
    ensures var d := Sequence(DecorateAll(lines, true, isTTY));
            r.Panics? <==> d.Panics?
    ensures var d := Sequence(DecorateAll(lines, true, isTTY));
            r.Returns? && r.value.err.Some? ==>
              r.value.bug == bug && d.Returns? && d.value.Err? && r.value.err == Some(d.value.error)
    ensures var d := Sequence(DecorateAll(lines, true, isTTY));
            r.Returns? && r.value.err.None? ==>
              && d.Returns? && d.value.Ok?
              && r.value.bug == bug.(bug := Some(Join(d.value.value, "")), file := parsed.file, line := parsed.lne, lineNumber := parsed.line)
  {
    match Sequence(DecorateAll(lines, true, isTTY))
    case Panics(p) => Panics(p)
    case Returns(Err(e)) => Returns(BugParsed(bug, Some(e)))
    case Returns(Ok(texts)) =>
      Returns(BugParsed(bug.(bug := Some(Join(texts, "")), file := parsed.file, line := parsed.lne, lineNumber := parsed.line), None))
  }

  /** What `bugParse` returns for a dump. The header it writes goes to a
      buffer nobody reads, so the panic value plays no part. */
  function BugReport(debugStack: string, isTTY: bool): Run<BugParsed>
  {
    var stack := Split(debugStack, '\n');
    var level := if LastMarker(stack, BugMarker) == 0 then "unknown" else "panic";
    match FrameLines(stack, BugMarker)
    case Panics(p) => Panics(p)
    case Returns(lines) => BugReportOf(lines, level, isTTY)
  }

  /** The record always carries the level it was given; the bug line is the
      text of frame line 1 up to its first space. The report panics exactly
      when there is no line 1, line 1 has no space, its layout makes
      ParseBugLine as written panic, or the decorate loop panics. */
  lemma BugReportOfBugLine(lines: seq<string>, level: string, isTTY: bool)
    ensures var r := BugReportOf(lines, level, isTTY);
              r.Returns? ==>
                && r.value.bug.level == level && |lines| >= 2
                && ' ' !in r.value.bug.bugLine && HasPrefix(lines[1], r.value.bug.bugLine + " ")
    ensures BugReportOf(lines, level, isTTY).Panics? <==>
              |lines| < 2 || ' ' !in lines[1] || ':' !in lines[1]
              || IndexChar(lines[1], ' ') < IndexChar(lines[1], ':')
              || (ParseBugLine(lines[1]).err.None? && Sequence(DecorateAll(lines, true, isTTY)).Panics?)
  {
    BugLineRecorded(lines, level, isTTY);
    BugReportPanics(lines, level, isTTY);
  }

  /** The level and the bug line of a record that is returned. */
  lemma BugLineRecorded(lines: seq<string>, level: string, isTTY: bool)
    ensures var r := BugReportOf(lines, level, isTTY);
              r.Returns? ==>
                && r.value.bug.level == level && |lines| >= 2
                && ' ' !in r.value.bug.bugLine && HasPrefix(lines[1], r.value.bug.bugLine + " ")
  {
    if |lines| >= 2 && ' ' in lines[1] {
      var sp := IndexChar(lines[1], ' ');
      assert lines[1][..sp + 1] == lines[1][..sp] + " ";
    }
  }

  /** When the report panics. */
  lemma BugReportPanics(lines: seq<string>, level: string, isTTY: bool)
    ensures BugReportOf(lines, level, isTTY).Panics? <==>
              |lines| < 2 || ' ' !in lines[1] || ':' !in lines[1]
              || IndexChar(lines[1], ' ') < IndexChar(lines[1], ':')
              || (ParseBugLine(lines[1]).err.None? && Sequence(DecorateAll(lines, true, isTTY)).Panics?)
  {
    if |lines| >= 2 && ' ' in lines[1] {
      AsWrittenAgreesWhereItReturns(lines[1]);
    }
  }

  /** BugReportOf for a bug line that parses: the raw text and the bug line
      are set and the decorate loop decides the rest. */
  lemma BugReportOfParsed(lines: seq<string>, level: string, isTTY: bool)
    requires |lines| >= 2 && ParseBugLine(lines[1]).err.None?
    ensures ' ' in lines[1] && ParseBugLineAsWritten(lines[1]) == Returns(ParseBugLine(lines[1]))
    ensures BugReportOf(lines, level, isTTY)
            == Decorated(BugFixesSend(None, Some(Join(lines, "\n")), lines[1][..IndexChar(lines[1], ' ')], "", "", 0, level),
                         ParseBugLine(lines[1]), lines, isTTY)
  {
    AsWrittenAgreesWhereItReturns(lines[1]);
  }

  /** A line 1 with a space whose layout is wrong (no ':', or a space before
      the ':') makes the report panic inside ParseBugLine, before any field
      but the bug line is set. */
  lemma BugReportOfLayoutPanics(lines: seq<string>, level: string, isTTY: bool)
    requires |lines| >= 2 && ' ' in lines[1]
    requires ':' !in lines[1] || IndexChar(lines[1], ' ') < IndexChar(lines[1], ':')
    ensures ParseBugLineAsWritten(lines[1]).Panics?
    ensures BugReportOf(lines, level, isTTY) == Panics(ParseBugLineAsWritten(lines[1]).reason)
  {
  }

  /** A bug line whose number does not convert stops the report before the
      raw text, the file and the decorated text are set, with the wrapped
      conversion error; it is the only parse error that reaches the
      caller. */
  lemma BugReportOfParseFailure(lines: seq<string>, level: string, isTTY: bool)
    requires |lines| >= 2
    requires ParseBugLine(lines[1]).err.Some? && ParseBugLine(lines[1]).err.value.ConvertLineNumber?
    ensures var r := BugReportOf(lines, level, isTTY);
              && r.Returns?
              && r.value.err == Some(ParseFailure(ConvertLineNumber(ParseBugLine(lines[1]).lne)))
              && r.value.bug.raw.None? && r.value.bug.bug.None?
              && r.value.bug.file == "" && r.value.bug.line == "" && r.value.bug.lineNumber == 0
    ensures var r := BugReportOf(lines, level, isTTY);
              r.Returns? && r.value.err.Some? && r.value.bug.raw.None? ==>
                ParseBugLine(lines[1]).err.Some? && ParseBugLine(lines[1]).err.value.ConvertLineNumber?
  {
    ParseBugLineFields(lines[1]);
    AsWrittenAgreesWhereItReturns(lines[1]);
  }

  /** A complete report: the bug line is `file:line`, the line number is the
      value of the line text, the raw text is the frame lines joined by line
      breaks and the decorated text is every decorated line joined
      together. */
  lemma BugReportOfComplete(lines: seq<string>, level: string, isTTY: bool)
    ensures var r := BugReportOf(lines, level, isTTY);
            var d := Sequence(DecorateAll(lines, true, isTTY));
              r.Returns? && r.value.err.None? ==>
                && r.value.bug.bugLine == r.value.bug.file + ":" + r.value.bug.line
                && Atoi(r.value.bug.line) == Some(r.value.bug.lineNumber)
                && r.value.bug.raw == Some(Join(lines, "\n"))
                && d.Returns? && d.value.Ok? && r.value.bug.bug == Some(Join(d.value.value, ""))
  {
    if |lines| >= 2 && ' ' in lines[1] && ParseBugLineAsWritten(lines[1]).Returns? {
      AsWrittenAgreesWhereItReturns(lines[1]);
      if ParseBugLine(lines[1]).err.None? {
        ParseBugLineHead(lines[1]);
        ParseBugLineFields(lines[1]);
      }
    }
  }

  /** When every frame line decorates, line `j` as `texts[j]`, and the bug
      line parses, the report is complete and its decorated text is the
      texts joined together. */
  lemma BugReportOfDecoratedText(lines: seq<string>, level: string, isTTY: bool, texts: seq<string>)
    requires |lines| >= 2 && ParseBugLine(lines[1]).err.None?
    requires |texts| == |lines| && forall j :: 0 <= j < |lines| ==> DecorateLine(lines[j], true, j, isTTY) == Returns(Ok(texts[j]))
    ensures var r := BugReportOf(lines, level, isTTY);
              r.Returns? && r.value.err.None? && r.value.bug.bug == Some(Join(texts, ""))
  {
    DecorateAllSucceed(lines, true, isTTY, texts);
    BugReportOfParsed(lines, level, isTTY);
  }

  /** A decoration error keeps the raw text but leaves the file and the
      decorated text unset; the error is the first failed line's. */
  lemma BugReportOfDecorationError(lines: seq<string>, level: string, isTTY: bool, j: int)
    requires |lines| >= 2 && ParseBugLine(lines[1]).err.None?
    requires FirstFailed(DecorateAll(lines, true, isTTY), j)
    requires DecorateLine(lines[j], true, j, isTTY).Returns?
    ensures var r := BugReportOf(lines, level, isTTY);
              && r.Returns?
              && r.value.err == Some(DecorateLine(lines[j], true, j, isTTY).value.error)
              && r.value.bug.raw == Some(Join(lines, "\n")) && r.value.bug.bug.None? && r.value.bug.file == ""
  {
    FirstFailureAborts(DecorateAll(lines, true, isTTY), j);
    BugReportOfParsed(lines, level, isTTY);
  }

  /** The level is "panic" exactly when some line after the first starts
      with "panic", and "unknown" otherwise. */
  lemma BugReportLevel(debugStack: string, isTTY: bool)
    ensures var stack := Split(debugStack, '\n');
            var r := BugReport(debugStack, isTTY);
              r.Returns? ==>
                && (r.value.bug.level == "panic" <==> HasMarkerLine(stack, BugMarker))
                && (r.value.bug.level == "panic" || r.value.bug.level == "unknown")
  {
    var stack := Split(debugStack, '\n');
    var k := LastMarker(stack, BugMarker);
    var level := if k == 0 then "unknown" else "panic";
    var f := FrameLines(stack, BugMarker);
    LastMarkerExists(stack, BugMarker);
    if f.Returns? {
      assert BugReport(debugStack, isTTY) == BugReportOf(f.value, level, isTTY);
      BugReportOfBugLine(f.value, level, isTTY);
    }
  }

  /** The raw text is the tail of the dump itself, and splitting it at line
      breaks gives back the frame lines. */
  lemma BugReportRawIsDumpTail(debugStack: string, isTTY: bool)
    ensures var r := BugReport(debugStack, isTTY);
              r.Returns? && r.value.bug.raw.Some? ==>
                && HasSuffix(debugStack, r.value.bug.raw.value)
                && FrameLines(Split(debugStack, '\n'), BugMarker).Returns?
                && Split(r.value.bug.raw.value, '\n') == FrameLines(Split(debugStack, '\n'), BugMarker).value
  {
    var stack := Split(debugStack, '\n');
    var level := if LastMarker(stack, BugMarker) == 0 then "unknown" else "panic";
    var f := FrameLines(stack, BugMarker);
    if f.Returns? {
      assert BugReport(debugStack, isTTY) == BugReportOf(f.value, level, isTTY);
      RawIsJoinedFrames(f.value, level, isTTY);
      FrameLinesJoinTail(debugStack, BugMarker);
    }
  }

  /** Wherever the raw text is set it is the frame lines joined by line
      breaks, and there are at least two of them. */
  lemma RawIsJoinedFrames(lines: seq<string>, level: string, isTTY: bool)
    ensures var r := BugReportOf(lines, level, isTTY);
              r.Returns? && r.value.bug.raw.Some? ==> r.value.bug.raw == Some(Join(lines, "\n")) && |lines| >= 2
  {
    if |lines| >= 2 && ParseBugLine(lines[1]).err.None? {
      BugReportOfParsed(lines, level, isTTY);
    } else if |lines| >= 2 && ' ' in lines[1] {
      AsWrittenAgreesWhereItReturns(lines[1]);
    }
  }

  /** `bugParse`: the backward scan for the last "panic" line, which also
      sets the level, then the report built from the frame lines. */
  method BugParse(debugStack: string, isTTY: bool) returns (r: Run<BugParsed>)
    ensures r == BugReport(debugStack, isTTY)
  {
    var stack := Split(debugStack, '\n');
    var framed, found := FramesInOrder(stack, BugMarker);
    var level := if found then "panic" else "unknown";
    if framed.Panics? {
      return Panics(framed.reason);
    }
    r := ReportFromLines(framed.value, level, isTTY);
  }

  /** The rest of `bugParse`, on the frame lines in dump order: the record
      is filled step by step as BugReportOf describes. */
  method ReportFromLines(lines: array<string>, level: string, isTTY: bool) returns (r: Run<BugParsed>)
    modifies lines
    ensures r == BugReportOf(old(lines[..]), level, isTTY)
  {
    ghost var original := lines[..];
    var bug := BugFixesSend(None, None, "", "", "", 0, level);
    if lines.Length < 2 {
      return Panics("index out of range [1] with length " + Itoa(lines.Length));
    }
    var bugLine := lines[1];
    var sp := IndexChar(bugLine, ' ');
    if sp < 0 {
      return Panics(ShortSlicePanic);
    }
    bug := bug.(bugLine := bugLine[..sp]);
    var attempt := ParseBugLineAsWritten(lines[1]);
    if attempt.Panics? {
      return Panics(attempt.reason);
    }
    var parsed := attempt.value;
    if parsed.err.Some? {
      return Returns(BugParsed(bug, Some(ParseFailure(parsed.err.value))));
    }
    bug := bug.(raw := Some(Join(lines[..], "\n")));
    var decorated := DecorateInPlace(lines, DecorateFn(true, isTTY));
    if decorated.Panics? {
      return Panics(decorated.reason);
    }
    if decorated.value.Err? {
      return Returns(BugParsed(bug, Some(decorated.value.error)));
    }
    bug := bug.(file := parsed.file, lineNumber := parsed.line, line := parsed.lne, bug := Some(Join(lines[..], "")));
    r := Returns(BugParsed(bug, None));
  }
}
