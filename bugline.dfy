/** `ParseBugLine` of the middleware package: splits a stack line of the form
    `<file>:<line> <rest>` into the file, the line-number text and its value. */
module MiddlewareBugLine {
  import opened Outcomes
  import opened Text
  import opened Numbers

  datatype BugLineError =
    | MissingColon                       // no ':' at all
    | MissingSpace                       // a ':' but no ' '
    | SpaceBeforeColon                   // the first ' ' comes before the first ':'
    | ConvertLineNumber(token: string)   // the text between them is not a number

  /** The four results of ParseBugLine: file, line text, line number, error. */
  datatype ParsedBugLine = ParsedBugLine(file: string, lne: string, line: int, err: Option<BugLineError>)

  /** The error text, as `err.Error()` renders it. The three layout errors
      are the ones the package's tests expect; the cause of a conversion
      failure is strconv's own message, summarised here. */
  function Message(e: BugLineError): string
  {
    match e
    case MissingColon => "invalid bug line: missing ':'"
    case MissingSpace => "invalid bug line: missing ' '"
    case SpaceBeforeColon => "invalid bug line: ' ' before ':'"
    case ConvertLineNumber(token) => "failed to convert line number: " + AtoiErrorText(token)
  }

  /** strconv's message for a token Atoi rejects: a signed or unsigned run
      of digits is rejected only for lying outside 64 bits, anything else
      for its syntax. */
  function AtoiErrorText(token: string): string
  {
    var signed := |token| > 0 && (token[0] == '-' || token[0] == '+');
    var digits := if signed then token[1..] else token;
    var cause := if |digits| > 0 && AllDigits(digits) then "value out of range" else "invalid syntax";
    "strconv.Atoi: parsing \"" + token + "\": " + cause
  }

  /** The error for a missing ':' names the ':', as the package's tests look for it. */
  lemma MissingColonNamesColon()
    ensures Contains(Message(MissingColon), "':'")
  {
    assert Message(MissingColon) == "invalid bug line: missing " + "':'" + "";
    ContainsMiddle("invalid bug line: missing ", "':'", "");
  }

  /** The error for a missing ' ' names the ' '. */
  lemma MissingSpaceNamesSpace()
    ensures Contains(Message(MissingSpace), "' '")
  {
    assert Message(MissingSpace) == "invalid bug line: missing " + "' '" + "";
    ContainsMiddle("invalid bug line: missing ", "' '", "");
  }

  /** The error for a token that is not a number says the conversion failed. */
  lemma ConversionErrorSaysSo(token: string)
    ensures Contains(Message(ConvertLineNumber(token)), "convert line number")
  {
    var msg := Message(ConvertLineNumber(token));
    var head := "failed to convert line number: ";
    assert msg == head + AtoiErrorText(token);
    assert head[10..29] == "convert line number";
    assert msg[10..29] == head[10..29];
    assert OccursAt(msg, "convert line number", 10);
  }

  /** ParseBugLine exactly as written: with no ':', or with no ' ' after the
      first ':', its slice expressions go out of range and it panics. */
  function ParseBugLineAsWritten(bugLine: string): (r: Run<ParsedBugLine>)
    ensures r.Panics? <==> ':' !in bugLine || IndexChar(bugLine, ' ') < IndexChar(bugLine, ':') + 1
  {
    var i := IndexChar(bugLine, ':');
    var j := IndexChar(bugLine, ' ');
    if i < 0 then Panics("slice bounds out of range [:-1]")
    else if j < i + 1 then Panics("slice bounds out of range")
    else Returns(Fields(bugLine[..i], bugLine[i + 1..j]))
  }

  /** The last step of ParseBugLine: the line-number text is converted, and a
      conversion failure gives line 0 and an error naming the text. */
  function Fields(file: string, lne: string): (r: ParsedBugLine)
    ensures r.file == file && r.lne == lne
    ensures r.err.None? <==> Atoi(lne).Some?
    ensures r.err.None? ==> Atoi(lne) == Some(r.line)
  {
    match Atoi(lne)
    case None => ParsedBugLine(file, lne, 0, Some(ConvertLineNumber(lne)))
    case Some(n) => ParsedBugLine(file, lne, n, None)
  }

  /** ParseBugLine with the guards its tests expect: a bug line without the
      `<file>:<line> ` layout is an error rather than a panic. */
  function ParseBugLine(bugLine: string): ParsedBugLine
  {
    var i := IndexChar(bugLine, ':');
    var j := IndexChar(bugLine, ' ');
    if i < 0 then ParsedBugLine("", "", 0, Some(MissingColon))
    else if j < 0 then ParsedBugLine("", "", 0, Some(MissingSpace))
    else if j < i + 1 then ParsedBugLine("", "", 0, Some(SpaceBeforeColon))
    else Fields(bugLine[..i], bugLine[i + 1..j])
  }

  /** Which layout error ParseBugLine reports, and that a layout error
      carries no fields. */
  lemma ParseBugLineLayoutErrors(bugLine: string)
    ensures ParseBugLine(bugLine).err == Some(MissingColon) <==> ':' !in bugLine
    ensures ParseBugLine(bugLine).err == Some(MissingSpace) <==> ':' in bugLine && ' ' !in bugLine
    ensures ParseBugLine(bugLine).err == Some(SpaceBeforeColon) <==>
              ':' in bugLine && ' ' in bugLine && IndexChar(bugLine, ' ') < IndexChar(bugLine, ':')
    ensures var r := ParseBugLine(bugLine);
              r.err.Some? && !r.err.value.ConvertLineNumber? ==> r.file == "" && r.lne == "" && r.line == 0
  {
  }

  /** When the layout is right, the line starts with `file:lne `, neither
      piece holds a separator, and the line number is Atoi of the text or
      the error names that text. */
  lemma ParseBugLineFields(bugLine: string)
    ensures var r := ParseBugLine(bugLine);
              r.err.None? || r.err.value.ConvertLineNumber? ==>
                HasPrefix(bugLine, r.file + ":" + r.lne + " ")
                && ':' !in r.file && ' ' !in r.file && ' ' !in r.lne
    ensures var r := ParseBugLine(bugLine);
              r.err.None? ==> Atoi(r.lne) == Some(r.line)
    ensures var r := ParseBugLine(bugLine);
              r.err.Some? && r.err.value.ConvertLineNumber? ==>
                Atoi(r.lne).None? && r.line == 0 && r.err.value.token == r.lne
  {
    var i := IndexChar(bugLine, ':');
    var j := IndexChar(bugLine, ' ');
    if 0 <= i < j {
      SeparatorsFound(bugLine, i, j);
    }
  }

  /** The pieces around the first ':' and the first ' ', when the ':' comes
      first: the line starts with them and neither holds a separator. */
  lemma SeparatorsFound(bugLine: string, i: int, j: int)
    requires i == IndexChar(bugLine, ':') && j == IndexChar(bugLine, ' ') && 0 <= i < j
    ensures ParseBugLine(bugLine) == Fields(bugLine[..i], bugLine[i + 1..j])
    ensures HasPrefix(bugLine, bugLine[..i] + ":" + bugLine[i + 1..j] + " ")
    ensures bugLine[..j] == bugLine[..i] + ":" + bugLine[i + 1..j]
    ensures ':' !in bugLine[..i] && ' ' !in bugLine[..i] && ' ' !in bugLine[i + 1..j]
  {
    CutAt(bugLine, i, j);
    CutAt(bugLine, j, j + 1);
    assert ' ' !in bugLine[..j];
  }

  /** A prefix cut around one position. */
  lemma CutAt(s: string, i: int, j: int)
    requires 0 <= i < j <= |s|
    ensures s[..j] == s[..i] + [s[i]] + s[i + 1..j]
  {
  }

  /** On success the text before the first ' ' is exactly `file:lne`. */
  lemma ParseBugLineHead(bugLine: string)
    requires ParseBugLine(bugLine).err.None?
    ensures bugLine[..IndexChar(bugLine, ' ')] == ParseBugLine(bugLine).file + ":" + ParseBugLine(bugLine).lne
  {
    var i := IndexChar(bugLine, ':');
    var j := IndexChar(bugLine, ' ');
    assert 0 <= i < j;
    SeparatorsFound(bugLine, i, j);
  }

  /** Where the code as written returns at all, it returns what the guarded
      parser returns; it panics exactly where the guarded parser reports a
      layout error. */
  lemma AsWrittenAgreesWhereItReturns(bugLine: string)
    ensures ParseBugLineAsWritten(bugLine).Returns? ==>
              ParseBugLineAsWritten(bugLine).value == ParseBugLine(bugLine)
    ensures ParseBugLineAsWritten(bugLine).Panics? <==>
              ParseBugLine(bugLine).err in {Some(MissingColon), Some(MissingSpace), Some(SpaceBeforeColon)}
  {
  }

  /** The inputs of the package's tests for a missing ':' and a missing ' ':
      the code as written panics on both, the guarded parser reports them. */
  lemma MissingSeparatorsPanicAsWritten()
    ensures ParseBugLineAsWritten("main.go 42").Panics?
    ensures ParseBugLineAsWritten("main.go:42").Panics?
    ensures ParseBugLineAsWritten("").Panics? && ParseBugLineAsWritten(":").Panics?
    ensures ParseBugLine("main.go 42").err == Some(MissingColon)
    ensures ParseBugLine("main.go:42").err == Some(MissingSpace)
    ensures ParseBugLine("").err == Some(MissingColon)
    ensures ParseBugLine(":").err == Some(MissingSpace)
  {
    assert ':' !in "main.go 42";
    assert ' ' !in "main.go:42" && ':' in "main.go:42";
    assert ' ' !in ":" && ':' in ":";
  }

  /** Where the first ':' and the first ' ' of `file:token rest` fall. */
  lemma SeparatorsOf(file: string, token: string, rest: string)
    requires ':' !in file && ' ' !in file && ' ' !in token
    ensures var s := file + ":" + token + " " + rest;
      && IndexChar(s, ':') == |file|
      && IndexChar(s, ' ') == |file| + 1 + |token|
      && s[..|file|] == file
      && s[|file| + 1..|file| + 1 + |token|] == token
  {
    var s := file + ":" + token + " " + rest;
    assert s == file + [':'] + (token + " " + rest);
    IndexCharAfter(file, ':', token + " " + rest);
    assert ' ' !in file + ":" + token;
    assert s == (file + ":" + token) + [' '] + rest;
    IndexCharAfter(file + ":" + token, ' ', rest);
  }

  /** A bug line laid out as `file:token rest` is parsed into the file and
      the token. */
  lemma LayoutFields(file: string, token: string, rest: string)
    requires ':' !in file && ' ' !in file && ' ' !in token
    ensures ParseBugLine(file + ":" + token + " " + rest) == Fields(file, token)
  {
    var s := file + ":" + token + " " + rest;
    var i, j := |file|, |file| + 1 + |token|;
    assert i == IndexChar(s, ':') && j == IndexChar(s, ' ') && s[..i] == file && s[i + 1..j] == token by {
      SeparatorsOf(file, token, rest);
    }
    SeparatorsFound(s, i, j);
  }

  /** A well-formed bug line is taken apart into exactly its pieces. */
  lemma ParseBugLineRoundTrip(file: string, n: int, rest: string)
    requires ':' !in file && ' ' !in file
    requires IsInt(n)
    ensures ParseBugLine(file + ":" + Itoa(n) + " " + rest) == ParsedBugLine(file, Itoa(n), n, None)
  {
    var digits := Itoa(n);
    assert ' ' !in digits by {
      forall k | 0 <= k < |digits| ensures digits[k] != ' ' { }
    }
    LayoutFields(file, digits, rest);
    AtoiItoa(n);
  }

  /** A token that is not a number still yields the file and the token, with
      line 0 and a conversion error. */
  lemma NonNumericLineKeepsFields(file: string, token: string, rest: string)
    requires ':' !in file && ' ' !in file && ' ' !in token
    requires Atoi(token).None?
    ensures ParseBugLine(file + ":" + token + " " + rest) ==
              ParsedBugLine(file, token, 0, Some(ConvertLineNumber(token)))
  {
    LayoutFields(file, token, rest);
  }
}
