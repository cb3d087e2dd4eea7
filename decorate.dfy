/** The per-line rendering of a captured stack in the middleware recoverer:
    `decorateLine` classifies a stack line and `decorateSourceLine` /
    `decorateFuncCallLine` render it. Each renderer builds its text by
    successive colour writes; with colour off every write is the text itself. */
module StackDecoration {
  import opened Outcomes
  import opened Text
  import opened Colour

  /** `os.PathSeparator`, taken as the Unix one. */
  const PathSeparator: char := '/'

  /** Marker of the origin frame's call line (index 0) and of the others. */
  const CallMarker: string := " -> "
  const CallIndent: string := "    "
  /** Marker of the origin frame's source line (index 1) and of the others. */
  const SourceMarker: string := " ->   "
  const SourceIndent: string := "      "

  /** The pieces `decorateSourceLine` cuts a source line into: the directory
      (up to and including the last separator), the file name, and the line
      number text starting at the ':' after ".go". */
  datatype SourceParts = SourceParts(dir: string, file: string, lineno: string)

  /** The four characters of ".go:" where it occurs. */
  lemma GoMarkAt(line: string, idx: int)
    requires OccursAt(line, ".go:", idx)
    ensures line[idx] == '.' && line[idx + 1] == 'g' && line[idx + 2] == 'o' && line[idx + 3] == ':'
  {
    assert line[idx..idx + 4][0] == '.' && line[idx..idx + 4][1] == 'g';
    assert line[idx..idx + 4][2] == 'o' && line[idx..idx + 4][3] == ':';
  }

  /** Cuts `line` at the ".go:" found at `idx`: the path keeps ".go" and is
      cut after its last separator; the line number text keeps the ':' and
      stops before its first space. */
  function SplitSourceLine(line: string, idx: int): SourceParts
    requires OccursAt(line, ".go:", idx)
  {
    var path := line[..idx + 3];
    var rest := line[idx + 3..];
    var s := LastIndexChar(path, PathSeparator);
    var sp := IndexChar(rest, ' ');
    SourceParts(path[..s + 1], path[s + 1..], if sp > 0 then rest[..sp] else rest)
  }

  /** The directory and the file together are the path up to and including
      ".go"; the file ends in ".go" and holds no separator; the directory is
      empty or ends in one. */
  lemma SourcePathParts(line: string, idx: int)
    requires OccursAt(line, ".go:", idx)
    ensures var p := SplitSourceLine(line, idx);
      && p.dir + p.file == line[..idx + 3]
      && HasSuffix(p.file, ".go") && PathSeparator !in p.file
      && (p.dir == [] || p.dir[|p.dir| - 1] == PathSeparator)
  {
    var path := line[..idx + 3];
    GoMarkAt(line, idx);
    var s := LastIndexChar(path, PathSeparator);
    assert s < idx;
    var file := path[s + 1..];
    assert file[|file| - 3..] == ".go" by {
      assert file[|file| - 3..] == [line[idx], line[idx + 1], line[idx + 2]];
    }
  }

  /** The line number text starts with ':', holds no space, and is the text
      after ".go" up to its first space (all of it when there is none). */
  lemma SourceLineNumber(line: string, idx: int)
    requires OccursAt(line, ".go:", idx)
    ensures var p := SplitSourceLine(line, idx);
      && HasPrefix(line[idx + 3..], p.lineno)
      && HasPrefix(p.lineno, ":") && ' ' !in p.lineno
      && (' ' !in line[idx + 3..] ==> p.lineno == line[idx + 3..])
  {
    GoMarkAt(line, idx);
    var rest := line[idx + 3..];
    assert rest[0] == ':';
  }

  /** The text `decorateSourceLine` writes for the pieces of a source line:
      marker, directory, file and line number, each in its colour, then one
      line break, two for the origin frame (index 1). */
  function SourceText(p: SourceParts, useColor: bool, num: int, isTTY: bool): string
  {
    var fileColor := if num == 1 then BRed else BCyan;
    var lineColor := if num == 1 then BMagenta else BGreen;
    var marker := if num == 1 then CW(isTTY, useColor, BRed, SourceMarker) else CW(isTTY, false, BWhite, SourceIndent);
    marker + CW(isTTY, useColor, BWhite, p.dir) + CW(isTTY, useColor, fileColor, p.file)
      + CW(isTTY, useColor, lineColor, p.lineno) + (if num == 1 then "\n" else "") + "\n"
  }

  /** Without colour the pieces are written one after the other. */
  lemma SourceTextPlain(p: SourceParts, num: int, isTTY: bool)
    ensures SourceText(p, false, num, isTTY) ==
              (if num == 1 then SourceMarker else SourceIndent) + (p.dir + p.file) + p.lineno
              + (if num == 1 then "\n\n" else "\n")
  {
    var m := if num == 1 then SourceMarker else SourceIndent;
    if num == 1 {
      assert SourceText(p, false, num, isTTY) == m + p.dir + p.file + p.lineno + "\n" + "\n";
    } else {
      assert SourceText(p, false, num, isTTY) == m + p.dir + p.file + p.lineno + "" + "\n";
    }
  }

  /** decorateSourceLine: the text of the pieces around the last ".go:". */
  function DecorateSourceLine(line: string, useColor: bool, num: int, isTTY: bool): (r: Result<string, string>)
    ensures r.Err? <==> !Contains(line, ".go:")
    ensures r.Err? ==> r.error == "not a source line"
  {
    var idx := LastIndex(line, ".go:");
    if idx < 0 then Err("not a source line")
    else Ok(SourceText(SplitSourceLine(line, idx), useColor, num, isTTY))
  }

  /** Without colour a source line renders as its marker, the path up to and
      including its last ".go", the ':'-prefixed line number cut at its first
      space, and the line break(s). */
  lemma SourceLinePlain(line: string, num: int, isTTY: bool)
    requires Contains(line, ".go:")
    ensures var idx := LastIndex(line, ".go:");
            DecorateSourceLine(line, false, num, isTTY) ==
              Ok((if num == 1 then SourceMarker else SourceIndent)
                 + line[..idx + 3] + SplitSourceLine(line, idx).lineno
                 + (if num == 1 then "\n\n" else "\n"))
  {
    var idx := LastIndex(line, ".go:");
    SourcePathParts(line, idx);
    SourceTextPlain(SplitSourceLine(line, idx), num, isTTY);
  }

  /** The text `decorateFuncCallLine` writes for a package part and a method
      part: the marker, the package, then the method and a line break. */
  function CallText(pkg: string, callee: string, useColor: bool, num: int, isTTY: bool): string
  {
    var pkgColor := if num == 0 then BMagenta else NYellow;
    var methodColor := if num == 0 then BRed else BGreen;
    var marker := if num == 0 then CW(isTTY, useColor, BRed, CallMarker) else CW(isTTY, useColor, BWhite, CallIndent);
    marker + CW(isTTY, useColor, pkgColor, pkg) + CW(isTTY, useColor, methodColor, callee + "\n")
  }

  /** Without colour the parts are written one after the other. */
  lemma CallTextPlain(pkg: string, callee: string, num: int, isTTY: bool)
    ensures CallText(pkg, callee, false, num, isTTY) ==
              (if num == 0 then CallMarker else CallIndent) + (pkg + callee) + "\n"
  {
  }

  /** How decorateFuncCallLine splits the text before the last '(' into a
      package and a method part: after the last separator, at the first '.'
      of what follows it. With no separator past index 0 the split is at the
      first '.', and with no '.' past index 0 either, both parts are the whole
      text. A separator followed by no '.' makes the slice `method[0:idx]`
      with `idx == -1` panic. */
  function SplitCall(pkg: string): Run<(string, string)>
  {
    var s := LastIndexChar(pkg, PathSeparator);
    if s <= 0 then
      var d := IndexChar(pkg, '.');
      if d <= 0 then Returns((pkg, pkg))
      else Returns((pkg[..d], pkg[d..]))
    else
      var callee := pkg[s + 1..];
      var d := IndexChar(callee, '.');
      if d < 0 then Panics("slice bounds out of range [:-1]")
      else Returns((pkg[..s + 1] + callee[..d], callee[d..]))
  }

  /** The split panics exactly when there is a separator past index 0 and no
      '.' after the last one. */
  lemma SplitCallPanics(pkg: string)
    ensures var s := LastIndexChar(pkg, PathSeparator);
            SplitCall(pkg).Panics? <==> s > 0 && '.' !in pkg[s + 1..]
  {
  }

  /** With a separator at `s > 0` and a '.' at `d` after it, the split is at
      that '.'. */
  lemma SplitCallAtSeparator(pkg: string, s: int, d: int)
    requires s == LastIndexChar(pkg, PathSeparator) > 0
    requires d == IndexChar(pkg[s + 1..], '.') >= 0
    ensures SplitCall(pkg) == Returns((pkg[..s + 1] + pkg[s + 1..][..d], pkg[s + 1..][d..]))
  {
  }

  /** Cutting a text twice and putting the three pieces together gives it back. */
  lemma ThreePieces(pkg: string, s: int, d: int)
    requires 0 <= s < |pkg| && 0 <= d <= |pkg| - (s + 1)
    ensures pkg[..s + 1] + pkg[s + 1..][..d] + pkg[s + 1..][d..] == pkg
  {
  }

  /** With no separator past index 0 and a '.' at `d > 0`, the split is at
      that '.'. */
  lemma SplitCallAtDot(pkg: string, d: int)
    requires LastIndexChar(pkg, PathSeparator) <= 0
    requires d == IndexChar(pkg, '.') > 0
    ensures SplitCall(pkg) == Returns((pkg[..d], pkg[d..]))
  {
  }

  /** Cutting a text once and putting the two pieces together gives it back. */
  lemma TwoPieces(pkg: string, d: int)
    requires 0 <= d <= |pkg|
    ensures pkg[..d] + pkg[d..] == pkg
  {
  }

  /** Otherwise the two parts put together give the text back, or the text
      twice when it has neither a separator nor a '.' past index 0. */
  lemma SplitCallRejoins(pkg: string)
    ensures var s := LastIndexChar(pkg, PathSeparator);
            SplitCall(pkg).Returns? ==>
              SplitCall(pkg).value.0 + SplitCall(pkg).value.1 ==
                if s <= 0 && IndexChar(pkg, '.') <= 0 then pkg + pkg else pkg
  {
    var s := LastIndexChar(pkg, PathSeparator);
    if s <= 0 {
      var d := IndexChar(pkg, '.');
      if d > 0 {
        SplitCallAtDot(pkg, d);
        TwoPieces(pkg, d);
      }
    } else {
      var d := IndexChar(pkg[s + 1..], '.');
      if d >= 0 {
        SplitCallAtSeparator(pkg, s, d);
        ThreePieces(pkg, s, d);
      }
    }
  }

  /** decorateFuncCallLine: the marker, the package part and the method part
      of the text before the last '(', each in its colour. */
  function DecorateFuncCallLine(line: string, useColor: bool, num: int, isTTY: bool): (r: Run<Result<string, string>>)
    ensures r.Returns? && r.value.Err? <==> '(' !in line
    ensures r.Returns? && r.value.Err? ==> r.value.error == "not a func call line"
  {
    var idx := LastIndexChar(line, '(');
    if idx < 0 then Returns(Err("not a func call line"))
    else
      match SplitCall(line[..idx])
      case Panics(p) => Panics(p)
      case Returns((pkg, callee)) => Returns(Ok(CallText(pkg, callee, useColor, num, isTTY)))
  }

  /** A call line panics exactly when the text before its last '(' has a
      separator past index 0 and no '.' after the last one. */
  lemma FuncCallLinePanics(line: string, useColor: bool, num: int, isTTY: bool)
    requires '(' in line
    ensures var pkg := line[..LastIndexChar(line, '(')];
            var s := LastIndexChar(pkg, PathSeparator);
            DecorateFuncCallLine(line, useColor, num, isTTY).Panics? <==> s > 0 && '.' !in pkg[s + 1..]
  {
    SplitCallPanics(line[..LastIndexChar(line, '(')]);
  }

  /** Without colour a call line renders as its marker, the text before its
      last '(' and a line break; the text is written twice when it has neither
      a separator nor a '.' past index 0. */
  lemma FuncCallLinePlain(line: string, num: int, isTTY: bool)
    requires '(' in line
    ensures var pkg := line[..LastIndexChar(line, '(')];
            var s := LastIndexChar(pkg, PathSeparator);
            var marker := if num == 0 then CallMarker else CallIndent;
            DecorateFuncCallLine(line, false, num, isTTY).Returns? ==>
              DecorateFuncCallLine(line, false, num, isTTY).value ==
                Ok(marker + (if s <= 0 && IndexChar(pkg, '.') <= 0 then pkg + pkg else pkg) + "\n")
  {
    var pkg := line[..LastIndexChar(line, '(')];
    SplitCallRejoins(pkg);
    if SplitCall(pkg).Returns? {
      var (a, b) := SplitCall(pkg).value;
      CallTextPlain(a, b, num, isTTY);
    }
  }

  /** decorateLine: the line is trimmed, then rendered as a source line when it
      contains ".go:", as a call line when it ends in ')', and otherwise
      indented. The source also tests for a leading tab, first as a second way
      to be a source line and then to replace the tab; neither test can
      succeed on a trimmed line (Text.TrimSpaceNoLeadingTab), so both are
      omitted. */
  function DecorateLine(line: string, useColor: bool, num: int, isTTY: bool): Run<Result<string, string>>
  {
    var t := TrimSpace(line);
    if Contains(t, ".go:") then Returns(DecorateSourceLine(t, useColor, num, isTTY))
    else if HasSuffix(t, ")") then DecorateFuncCallLine(t, useColor, num, isTTY)
    else Returns(Ok(CallIndent + t + "\n"))
  }

  /** decorateLine fails only on a trimmed line that is not a source line,
      ends in ')' and has no '(' (the "not a source line" error cannot be
      reached); it panics only on a call line; any other line is indented. */
  lemma DecorateLineOutcomes(line: string, useColor: bool, num: int, isTTY: bool)
    ensures var t := TrimSpace(line);
            DecorateLine(line, useColor, num, isTTY) == Returns(Err("not a func call line")) <==>
              !Contains(t, ".go:") && HasSuffix(t, ")") && '(' !in t
    ensures DecorateLine(line, useColor, num, isTTY).Returns? && DecorateLine(line, useColor, num, isTTY).value.Err? ==>
              DecorateLine(line, useColor, num, isTTY).value.error == "not a func call line"
    ensures var t := TrimSpace(line);
            DecorateLine(line, useColor, num, isTTY).Panics? ==> !Contains(t, ".go:") && HasSuffix(t, ")") && '(' in t
    ensures var t := TrimSpace(line);
            !Contains(t, ".go:") && !HasSuffix(t, ")") ==> DecorateLine(line, useColor, num, isTTY) == Returns(Ok(CallIndent + t + "\n"))
  {
  }

  /** The outcome of decorating one line: its text, an error or a panic. */
  type Outcome = Run<Result<string, string>>

  /** The line decorated without error or panic. */
  predicate Succeeded(o: Outcome)
  {
    o.Returns? && o.value.Ok?
  }

  /** The loop's result when it stops at a failed line. */
  function Abort(o: Outcome): Run<Result<seq<string>, string>>
    requires !Succeeded(o)
  {
    match o
    case Panics(p) => Panics(p)
    case Returns(Err(e)) => Returns(Err(e))
  }

  /** `j` is the first failed outcome. */
  predicate FirstFailed(outs: seq<Outcome>, j: int)
  {
    && 0 <= j < |outs|
    && !Succeeded(outs[j])
    && forall i :: 0 <= i < j ==> Succeeded(outs[i])
  }

  /** The decorate loop, from the outcomes of its lines in order: all the
      texts, or the first failure, whatever follows it. */
  function Sequence(outs: seq<Outcome>): (r: Run<Result<seq<string>, string>>)
    ensures r.Returns? && r.value.Ok? ==>
              |r.value.value| == |outs| && forall j :: 0 <= j < |outs| ==> outs[j] == Returns(Ok(r.value.value[j]))
    ensures !(r.Returns? && r.value.Ok?) ==> exists j :: FirstFailed(outs, j) && r == Abort(outs[j])
    decreases |outs|
  {
    if |outs| == 0 then Returns(Ok([]))
    else
      var front := outs[..|outs| - 1];
      var r := Sequence(front);
      var last := outs[|outs| - 1];
      if !(r.Returns? && r.value.Ok?) then
        var j :| FirstFailed(front, j) && r == Abort(front[j]);
        assert FirstFailed(outs, j);
        r
      else if !Succeeded(last) then
        assert FirstFailed(outs, |outs| - 1);
        Abort(last)
      else Returns(Ok(r.value.value + [last.value.value]))
  }

  /** The loop stops at the first failed line and reports that line's error
      or panic. */
  lemma FirstFailureAborts(outs: seq<Outcome>, j: int)
    requires FirstFailed(outs, j)
    ensures Sequence(outs) == Abort(outs[j])
  {
  }

  /** One more successful line extends the loop's texts by its text. */
  lemma SequenceStep(outs: seq<Outcome>, i: int, done: seq<string>)
    requires 0 <= i < |outs| && Succeeded(outs[i])
    requires Sequence(outs[..i]) == Returns(Ok(done))
    ensures Sequence(outs[..i + 1]) == Returns(Ok(done + [outs[i].value.value]))
  {
    assert outs[..i + 1][..i] == outs[..i];
  }

  /** A failed line after only successful ones decides the whole loop. */
  lemma SequenceFailsAt(outs: seq<Outcome>, i: int, done: seq<string>)
    requires 0 <= i < |outs| && !Succeeded(outs[i])
    requires Sequence(outs[..i]) == Returns(Ok(done))
    ensures Sequence(outs) == Abort(outs[i])
  {
    assert forall j :: 0 <= j < i ==> outs[..i][j] == outs[j];
    assert FirstFailed(outs, i);
    FirstFailureAborts(outs, i);
  }

  /** When every line succeeds the loop yields all their texts, in order. */
  lemma {:induction false} SequenceAllSucceed(outs: seq<Outcome>, texts: seq<string>)
    requires |outs| == |texts|
    requires forall j :: 0 <= j < |outs| ==> outs[j] == Returns(Ok(texts[j]))
    ensures Sequence(outs) == Returns(Ok(texts))
    decreases |outs|
  {
    if |outs| > 0 {
      var n := |outs| - 1;
      SequenceAllSucceed(outs[..n], texts[..n]);
      assert texts[..n] + [texts[n]] == texts;
    }
  }

  /** decorateLine with its colour choice and terminal fixed, as a function
      of the line and its number. */
  function DecorateFn(useColor: bool, isTTY: bool): (string, int) -> Outcome
  {
    (line: string, num: int) => DecorateLine(line, useColor, num, isTTY)
  }

  /** The outcomes of `decorate` on each line, line `i` with number `i`. */
  function LineOutcomes(lines: seq<string>, decorate: (string, int) -> Outcome): (outs: seq<Outcome>)
    ensures |outs| == |lines|
  {
    seq(|lines|, i requires 0 <= i < |lines| => decorate(lines[i], i))
  }

  /** The outcomes of decorating each line, line `i` with number `i`. */
  function DecorateAll(lines: seq<string>, useColor: bool, isTTY: bool): seq<Outcome>
  {
    LineOutcomes(lines, DecorateFn(useColor, isTTY))
  }

  /** When line `j` decorates as `texts[j]` for every `j`, the decorate loop
      yields exactly the texts. */
  lemma DecorateAllSucceed(lines: seq<string>, useColor: bool, isTTY: bool, texts: seq<string>)
    requires |texts| == |lines|
    requires forall j :: 0 <= j < |lines| ==> DecorateLine(lines[j], useColor, j, isTTY) == Returns(Ok(texts[j]))
    ensures Sequence(DecorateAll(lines, useColor, isTTY)) == Returns(Ok(texts))
  {
    SequenceAllSucceed(DecorateAll(lines, useColor, isTTY), texts);
  }
}
