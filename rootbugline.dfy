/** `parseBugLine` of the root package: splits `<file>:<line>` at the first
    ':' and converts everything after it to the line number. */
module RootBugLine {
  import opened Outcomes
  import opened Text
  import opened Numbers
  import opened MiddlewareBugLine

  /** parseBugLine exactly as written: with no ':' the slice `bugLine[:-1]`
      panics; a conversion failure returns an empty file and line 0. */
  function ParseBugLineAsWritten(bugLine: string): (r: Run<Result<(string, int), BugLineError>>)
    ensures r.Panics? <==> ':' !in bugLine
  {
    var i := IndexChar(bugLine, ':');
    if i < 0 then Panics("slice bounds out of range [:-1]")
    else Returns(LineAfterColon(bugLine[..i], bugLine[i + 1..]))
  }

  /** The conversion step: the file and the value, or the conversion error
      (with the file dropped). */
  function LineAfterColon(file: string, rest: string): (r: Result<(string, int), BugLineError>)
    ensures r.Ok? <==> Atoi(rest).Some?
    ensures r.Ok? ==> r.value == (file, Atoi(rest).value)
    ensures r.Err? ==> r.error == ConvertLineNumber(rest)
  {
    match Atoi(rest)
    case None => Err(ConvertLineNumber(rest))
    case Some(n) => Ok((file, n))
  }

  /** parseBugLine with a missing ':' reported as an error. */
  function ParseBugLine(bugLine: string): Result<(string, int), BugLineError>
  {
    var i := IndexChar(bugLine, ':');
    if i < 0 then Err(MissingColon)
    else LineAfterColon(bugLine[..i], bugLine[i + 1..])
  }

  /** The guarded parser fails with MissingColon exactly when the code as
      written panics, and otherwise agrees with it. */
  lemma AsWrittenAgreesWhereItReturns(bugLine: string)
    ensures ParseBugLineAsWritten(bugLine).Panics? <==> ParseBugLine(bugLine) == Err(MissingColon)
    ensures ParseBugLineAsWritten(bugLine).Returns? ==> ParseBugLineAsWritten(bugLine).value == ParseBugLine(bugLine)
  {
  }

  /** A line without ':' such as "main.go" panics as written. */
  lemma MissingColonPanicsAsWritten()
    ensures ParseBugLineAsWritten("main.go").Panics?
    ensures ParseBugLine("main.go") == Err(MissingColon)
  {
    assert ':' !in "main.go";
  }

  /** `file:n` parses back into the file and `n`. */
  lemma ParseBugLineRoundTrip(file: string, n: int)
    requires ':' !in file
    requires IsInt(n)
    ensures ParseBugLine(file + ":" + Itoa(n)) == Ok((file, n))
  {
    var s := file + ":" + Itoa(n);
    assert s == file + [':'] + Itoa(n);
    IndexCharAfter(file, ':', Itoa(n));
    assert s[..|file|] == file && s[|file| + 1..] == Itoa(n);
    AtoiItoa(n);
  }

  /** Everything after the first ':' must be the number: any text after it
      that does not start with a digit, such as a trailing frame offset
      " +0x1a", makes the conversion fail, and the error names all of it. */
  lemma TrailingTextFails(file: string, n: int, tail: string)
    requires ':' !in file
    requires |tail| >= 1 && !IsDigit(tail[0])
    ensures ParseBugLine(file + ":" + Itoa(n) + tail) == Err(ConvertLineNumber(Itoa(n) + tail))
  {
    var s := file + ":" + Itoa(n) + tail;
    var rest := Itoa(n) + tail;
    assert s == file + [':'] + rest;
    IndexCharAfter(file, ':', rest);
    assert s[|file| + 1..] == rest;
    assert rest[|Itoa(n)|] == tail[0];
    AtoiRejectsNonDigit(rest, |Itoa(n)|);
  }
}
