# go-bugfixes in Dafny

A model of the reporting core of go-bugfixes, a Go client library for a bug-tracking service. It covers these parts:

- **The logs package's reporting path**, `BugFixes.DoReporting`. It ranks severities, walks the call stack to the first frame outside the logging package and prints a coloured entry to standard output. It then decides whether the entry also goes to the bug service, and builds that request.
- **The middleware's panic recoverer.** On a panic it reports the value, answers with status 500 and sends a bug report.
  - `parse` pretty-prints a `debug.Stack()` dump.
  - `bugParse` turns the dump into the record sent to the service.
  - `decorateLine` and its two renderers print the individual lines.
- **The two `ParseBugLine` functions** (middleware and root package), which split a `<file>:<line>` stack line.
- **The two send functions** (`System.SendToBugfixes` in the middleware, `sendToBugfixes` in the root package). The network is reduced to the errors it can return.
- **The CORS middleware**: three allow-lists that only grow, and the decision for a request carrying an `Origin` header.
- **The header lower-casing middleware**, which writes the lower-case name of every request header into the header map while ranging over it.

How Go's behaviour is represented:

- A Go run-time panic is an outcome, `Run<T> = Returns(value) | Panics(reason)`. Code that slices out of range or dereferences nil returns `Panics` where Go would panic.
- Go's `(value, error)` pairs become `Result` or `Option` values.
- The environment is a map read through `Getenv`, and `runtime.Caller` is a function from depth to frame.
- Terminal detection, the clock reading and the outcome of each network call are all parameters.
- Where a finding below shows a panic the authors evidently did not intend, both the code as written and a corrected version are modelled. The callers in the model (`bugParse` and the package-level `SendToBugfixes`) call the code as written, as the source does. The corrected versions stand beside them with their own properties.

The project verifies with `dafny verify --resource-limit 2000000 --verification-time-limit 0 *.dfy`.

The files are:

- `outcomes.dfy`, `text.dfy` and `numbers.dfy`: the parts of Go's `strings` and `strconv` that the code uses.
- `colour.dfy`: `cW`.
- `decorate.dfy` and `stackframes.dfy`: the stack rendering and the loops over the frame lines.
- `recoverer.dfy`: `Recoverer`, `parse`, `bugParse` and `PrintPrettyStack`.
- `bugline.dfy` and `rootbugline.dfy`: the two bug-line parsers.
- `send.dfy`: the bug-service sends.
- `logging.dfy`: the logs package.
- `cors.dfy`: CORS.
- `lcheaders.dfy`: header lower-casing.

Where the code is imperative, the model keeps its form:

- **The recoverer's frame lines.** They are collected by a backward loop, reversed in place in an `array`, and decorated in place. Each loop is proved against a function on sequences (`FrameLines`, `Reversed`, `Sequence`).
- **`BugFixes` and the CORS `System`.** Both are classes whose methods update their fields.
- **`LCHeaders`.** It updates the request's header map while ranging over it. It is specified by what the resulting map must satisfy, not by a function that recomputes it.

## Model

| member | source | states |
|---|---|---|
| MiddlewareBugLine.ParseBugLineAsWritten | middleware/bugfixes.go:130-141 | ParseBugLine as written panics exactly when the line has no ':' or its first ' ' does not come after the first ':' |
| MiddlewareBugLine.ParseBugLine | middleware/bugfixes.go:130-141 | the parser with the layout guards its tests expect (the corrected half of the first finding); specified by ParseBugLineLayoutErrors, ParseBugLineFields, ParseBugLineRoundTrip and AsWrittenAgreesWhereItReturns |
| MiddlewareBugLine.Fields | middleware/bugfixes.go:135-140 | the file and line text are kept; there is no error exactly when Atoi accepts the text, and then the line number is its value |
| MiddlewareBugLine.ParseBugLineLayoutErrors | middleware/bugfixes.go:130-134 | each layout error (missing ':', missing ' ', ' ' before ':') is reported exactly when that layout fault is present, and carries empty fields |
| MiddlewareBugLine.ParseBugLineFields | middleware/bugfixes.go:130-141 | when the layout is right the line starts with `file:lne `, neither piece holds a separator, and the number is Atoi of the text or the error names the text with line 0 |
| MiddlewareBugLine.ParseBugLineHead | middleware/bugfixes.go:131-134 | on success the text before the first ' ' is exactly `file:lne` |
| MiddlewareBugLine.AsWrittenAgreesWhereItReturns | middleware/bugfixes.go:130-141 | the code as written and the guarded parser agree wherever the former returns, and it panics exactly on the three layout errors |
| MiddlewareBugLine.MissingSeparatorsPanicAsWritten | middleware/parsebugline_test.go:29-63 | the tests' inputs "main.go 42", "main.go:42", "" and ":" make the code as written panic, and the guarded parser reports the error the tests expect |
| MiddlewareBugLine.Message | middleware/bugfixes.go:137 | the text of a bug-line error: the layout errors the package's tests look for, and a conversion failure wrapping strconv's message (out of range for a run of digits, invalid syntax otherwise); specified by MissingColonNamesColon, MissingSpaceNamesSpace and ConversionErrorSaysSo |
| MiddlewareBugLine.MissingColonNamesColon | middleware/parsebugline_test.go:29-34 | the missing-':' error text contains "':'" |
| MiddlewareBugLine.MissingSpaceNamesSpace | middleware/parsebugline_test.go:36-41 | the missing-' ' error text contains "' '" |
| MiddlewareBugLine.ConversionErrorSaysSo | middleware/bugfixes.go:137 | a conversion failure's error text contains "convert line number" |
| MiddlewareBugLine.ParseBugLineRoundTrip | middleware/bugfixes.go:130-141 | `file:Itoa(n) rest` parses back to file, Itoa(n), n with no error, for every 64-bit n and separator-free file |
| MiddlewareBugLine.NonNumericLineKeepsFields | middleware/bugfixes.go:135-138 | a token that is not a number still yields the file and the token, with line 0 and a conversion error naming the token |
| MiddlewareBugLine.LayoutFields | middleware/bugfixes.go:131-134 | a line laid out as `file:token rest` is cut into exactly the file and the token |
| RootBugLine.ParseBugLineAsWritten | bugfixes.go:89-98 | the root parseBugLine as written panics exactly when the line has no ':' |
| RootBugLine.ParseBugLine | bugfixes.go:89-98 | the root parser with a missing ':' reported as an error (the corrected half of the second finding); specified by AsWrittenAgreesWhereItReturns, ParseBugLineRoundTrip and TrailingTextFails |
| RootBugLine.LineAfterColon | bugfixes.go:92-97 | success exactly when Atoi accepts everything after the ':', then the file and the value; otherwise the conversion error, the file dropped |
| RootBugLine.AsWrittenAgreesWhereItReturns | bugfixes.go:89-98 | the guarded parser reports MissingColon exactly where the code as written panics and agrees with it elsewhere |
| RootBugLine.MissingColonPanicsAsWritten | bugfixes.go:90-91 | "main.go" panics as written and is a MissingColon error when guarded |
| RootBugLine.ParseBugLineRoundTrip | bugfixes.go:89-98 | `file:Itoa(n)` parses back to (file, n) |
| RootBugLine.TrailingTextFails | bugfixes.go:92-95 | any text after the number that does not start with a digit (such as " +0x1a") makes the conversion fail, with an error naming everything after the ':' |
| Numbers.AtoiItoa | middleware/bugfixes.go:135 | strconv.Atoi reads back what strconv.Itoa writes for every 64-bit int |
| Colour.CW | logs/logging.go:338-346 | cW: the text wrapped in the colour and reset codes, or the text alone; specified by CWColoursIff |
| Colour.CWColoursIff | logs/logging.go:338-346 | cW writes escape bytes exactly when the output is a terminal and colour is asked for, and otherwise writes the text unchanged; the text is always written |
| Text.TrimSpaceNoLeadingTab | middleware/recoverer.go:178-185 | a trimmed line never starts with a tab, so decorateLine's two leading-tab tests never succeed |
| StackDecoration.SplitSourceLine | middleware/recoverer.go:243-253 | decorateSourceLine's split of a source line into directory, file and line number; specified by SourcePathParts and SourceLineNumber |
| StackDecoration.SourcePathParts | middleware/recoverer.go:243-248 | decorateSourceLine's directory and file put together are the path through ".go"; the file ends in ".go" and holds no separator; the directory is empty or ends in one |
| StackDecoration.SourceLineNumber | middleware/recoverer.go:244-253 | the line number text starts with ':', has no space, and is the text after ".go" up to its first space |
| StackDecoration.DecorateSourceLine | middleware/recoverer.go:236-240 | an error ("not a source line") exactly when the line has no ".go:" |
| StackDecoration.SourceLinePlain | middleware/recoverer.go:236-273 | without colour a source line renders as its marker, the path through ".go", the cut line number and one or (for frame 1) two line breaks |
| StackDecoration.SplitCall | middleware/recoverer.go:203-219 | the split of a call into package and method at the last separator and the first '.' after it, or the slice panic; specified by SplitCallPanics and SplitCallRejoins |
| StackDecoration.SplitCallPanics | middleware/recoverer.go:203-218 | decorateFuncCallLine's split panics exactly when there is a separator past index 0 and no '.' after the last one |
| StackDecoration.SplitCallRejoins | middleware/recoverer.go:203-219 | the package and method parts put together give the text back, or the text twice when it has neither a separator nor a '.' past index 0 |
| StackDecoration.DecorateFuncCallLine | middleware/recoverer.go:192-196 | an error ("not a func call line") exactly when the line has no '(' |
| StackDecoration.FuncCallLinePanics | middleware/recoverer.go:192-219 | a call line panics exactly when the text before its last '(' has a separator past index 0 and no '.' after the last one |
| StackDecoration.FuncCallLinePlain | middleware/recoverer.go:192-234 | without colour a call line renders as its marker, the text before its last '(' (twice when it has no separator and no '.' past index 0) and a line break |
| StackDecoration.DecorateLine | middleware/recoverer.go:177-190 | decorateLine: a trimmed line holding ".go:" goes to the source-line renderer, one ending in ')' to the call-line renderer, and any other is indented; specified by DecorateLineOutcomes, FuncCallLinePanics, FuncCallLinePlain and SourceLinePlain |
| StackDecoration.DecorateLineOutcomes | middleware/recoverer.go:177-190 | decorateLine fails only on a trimmed call line without '(' (the source-line error is unreachable), panics only on a call line, and indents every other line |
| StackDecoration.Sequence | middleware/recoverer.go:99-104 | the decorate loop yields every text in order when all lines succeed, and otherwise the first failure's error or panic |
| StackDecoration.FirstFailureAborts | middleware/recoverer.go:99-104 | the loop stops at the first failed line and reports that line's error or panic |
| StackDecoration.SequenceAllSucceed | middleware/recoverer.go:99-104 | when every line succeeds the loop yields all their texts, in order |
| StackFrames.MarkerBelow | middleware/recoverer.go:84-90 | the scan finds the last marker line below the bound, never line 0 |
| StackFrames.FrameLines | middleware/recoverer.go:84-90 | the frame lines the backward scan keeps, in dump order, or its slice panic; specified by FrameLinesAfterLastMarker, FrameLinesJoinTail and FrameLinesIgnoreFirst, and CollectFrames is proved against it |
| StackFrames.LastMarker | middleware/recoverer.go:84-90 | the index of the last line after the first that starts with the marker, or 0; specified by LastMarkerExists |
| StackFrames.LastMarkerExists | middleware/recoverer.go:84-90 | a last marker exists exactly when some line after the first starts with the marker |
| StackFrames.FrameLinesAfterLastMarker | middleware/recoverer.go:84-90 | the kept lines are a tail of the dump holding no marker line (only the innermost panic), and the scan panics exactly when the last marker is the dump's last line |
| StackFrames.FrameLinesAreTail | middleware/recoverer.go:84-90 | the kept lines are a proper tail of the dump |
| StackFrames.FrameLinesHoldNoMarker | middleware/recoverer.go:84-90 | none of the kept lines starts with the marker |
| StackFrames.FrameLinesJoinTail | middleware/recoverer.go:155 | the kept lines joined by line breaks are a suffix of the dump and split back into themselves |
| StackFrames.FrameLinesIgnoreFirst | middleware/recoverer.go:84 | the dump's first line plays no part in the frames |
| StackFrames.CollectFrames | middleware/recoverer.go:84-90 | the backward loop yields the frame lines in reverse, or the slice panic, and reports whether a marker was met |
| StackFrames.ReverseInPlace | middleware/recoverer.go:93-96 | the in-place swap loop leaves the array reversed |
| StackFrames.DecorateInPlace | middleware/recoverer.go:99-104 | the in-place decorate loop returns the decorate loop's result on the original lines, and on success the array holds the texts |
| Recoverer.Header | middleware/recoverer.go:74-77 | the four colour writes before the stack; specified by HeaderShowsValue |
| Recoverer.HeaderShowsValue | middleware/recoverer.go:74-77 | the pretty stack's header starts on a new line, ends with the spacer and shows the panic value; off a terminal it carries no colour |
| Recoverer.PrettyStack | middleware/recoverer.go:69-112 | what parse returns; specified by PrettyStackOutput and PrettyStackFirstFailure, and Parse is proved to equal it |
| Recoverer.PrettyStackOutput | middleware/recoverer.go:69-112 | when every frame line decorates, parse returns the header followed by the decorated lines, line j decorated as number j |
| Recoverer.PrettyStackFirstFailure | middleware/recoverer.go:99-104 | the first frame line that fails to decorate decides parse's result |
| Recoverer.FramesInOrder | middleware/recoverer.go:84-96 | the scan and the reversal give a fresh array holding the frame lines in dump order, or the scan's panic |
| Recoverer.Parse | middleware/recoverer.go:69-112 | parse returns PrettyStack of the dump: the header and decorated frames, the first decoration error, or a panic |
| Recoverer.WriteAll | middleware/recoverer.go:106-111 | the output loop appends every line to the buffer, in order |
| Recoverer.PrintPrettyStack | middleware/recoverer.go:50-64 | what reaches standard error is the pretty stack, or the raw dump when parse reports an error |
| Recoverer.RecoverPanic | middleware/recoverer.go:25-48 | no panic and the abort sentinel pass untouched; any other panic is logged to the entry or printed as the pretty stack, answered with 500 and sent to the bug service |
| Recoverer.Decorated | middleware/recoverer.go:157-170 | it panics exactly when the decorate loop panics; a decoration error returns the record as it stood with the loop's error; success sets the file, line text, line number and the decorated lines joined with "" and nothing else |
| Recoverer.BugReport | middleware/recoverer.go:114-171 | what bugParse returns for a dump; specified by BugReportLevel, BugReportRawIsDumpTail and, through BugReportOf, the lemmas below |
| Recoverer.BugReportOf | middleware/recoverer.go:146-170 | bugParse on the frame lines, calling ParseBugLine as written; specified by the BugReportOf lemmas below |
| Recoverer.BugReportOfBugLine | middleware/recoverer.go:146-150 | a record carries the level given and frame line 1 up to its first space; it panics exactly with fewer than two lines, no space in line 1, no ':' in line 1, a space before its ':', or a panicking decoration |
| Recoverer.BugReportOfLayoutPanics | middleware/recoverer.go:146-150 | a line 1 with a space but no ':', or with a space before its ':', makes the report panic with ParseBugLine's own slice panic |
| Recoverer.ParseFailure | middleware/recoverer.go:152 | bugParse's wrapping of a bug-line error; specified by BugReportOfParseFailure |
| Recoverer.BugReportOfParseFailure | middleware/recoverer.go:150-153 | a bug line whose number does not convert stops the report before the raw text, file and decorated text are set, with the wrapped conversion error; that is the only parse error the report returns |
| Recoverer.BugReportOfComplete | middleware/recoverer.go:146-170 | a complete record has bug line `file:line`, line number = Atoi(line), raw text = frame lines joined by line breaks, and the decorated lines joined with "" as its text |
| Recoverer.BugReportOfDecoratedText | middleware/recoverer.go:157-168 | when every frame line decorates, line j as texts[j], and the bug line parses, the report is complete and its text is the texts joined with "" |
| Recoverer.BugReportOfDecorationError | middleware/recoverer.go:155-162 | the first frame line that fails to decorate gives the report its error; the raw text is kept and the file and decorated text stay unset |
| Recoverer.BugReportLevel | middleware/recoverer.go:129-137 | the level is "panic" exactly when a line after the first starts with "panic", and "unknown" otherwise |
| Recoverer.BugReportRawIsDumpTail | middleware/recoverer.go:155 | the raw text is a suffix of the dump and splits back into the frame lines |
| Recoverer.RawIsJoinedFrames | middleware/recoverer.go:155 | wherever the raw text is set it is the frame lines joined by line breaks, at least two of them |
| Recoverer.BugParse | middleware/recoverer.go:114-171 | bugParse returns BugReport of the dump, whose level, raw text, bug line, fields, text, errors and panics the lemmas above state |
| Recoverer.ReportFromLines | middleware/recoverer.go:146-170 | the record is filled from the frame lines step by step, with ParseBugLine as written, as BugReportOf describes |
| BugSend.RequestHeaders | middleware/bugfixes.go:96-98 | exactly the three canonical headers, with the JSON content type and the agent's key and secret |
| BugSend.Endpoint | middleware/bugfixes.go:79-83 | BUGFIXES_SERVER, or the default server, followed by "/bug"; specified by EndpointsDiffer |
| BugSend.RootEndpoint | bugfixes.go:64-67 | BUGFIXES_SERVER as it stands, or the default endpoint; specified by EndpointsDiffer |
| BugSend.EndpointsDiffer | middleware/bugfixes.go:79-83 | both packages default to the same endpoint; a configured server is a base for the middleware and the whole endpoint for the root package |
| BugSend.SystemSendAsWritten | middleware/bugfixes.go:60-128 | System.SendToBugfixes as written (the as-written half of the third finding): bugParse on the dump, then SendParsedAsWritten; specified through SendNeedsCredentials |
| BugSend.SystemSend | middleware/bugfixes.go:60-128 | System.SendToBugfixes with the request error reported (the corrected half of the third finding): bugParse on the dump, then SendParsed |
| BugSend.SendParsedAsWritten | middleware/bugfixes.go:69-128 | the send after bugParse, as written: a nil request is dereferenced when it cannot be built; related to SendParsed by RequestErrorPanicsAsWritten |
| BugSend.SendParsed | middleware/bugfixes.go:69-128 | the send after bugParse with the request error reported; specified by SystemSendOutcomes |
| BugSend.RequestErrorPanicsAsWritten | middleware/bugfixes.go:95-107 | whatever bugParse returned, the send as written panics on a nil request whenever the request cannot be built, where the guarded send reports it; elsewhere they agree |
| BugSend.SystemSendOutcomes | middleware/bugfixes.go:66-128 | whatever bugParse returned: its panic propagates; its error is reported and nothing is sent; otherwise its record is posted to the endpoint with the credentials, and a diagnostic is written exactly when the send or the close failed |
| BugSend.Posted | middleware/bugfixes.go:109-127 | the end of the send: the request is made, a send error is reported, and only a successful send has its body closed; specified by SystemSendOutcomes |
| BugSend.SendToBugfixes | middleware/bugfixes.go:46-58 | the package-level send: the credentials from the environment, then System.SendToBugfixes as written; specified by SendNeedsCredentials |
| BugSend.SendNeedsCredentials | middleware/bugfixes.go:46-58 | nothing happens exactly when a credential is missing; with both set it panics exactly when bugParse panicked on the dump or the request could not be built, a dump bugParse rejects is reported, and a request made carries the environment's credentials and bugParse's record |
| BugSend.RootSendAsWritten | bugfixes.go:43-87 | the root sendToBugfixes as written (the as-written half of the fourth finding); specified by RootNetworkErrorsPanicAsWritten |
| BugSend.RootSend | bugfixes.go:43-87 | the root send with the request error reported (the corrected half of the fourth finding); specified by RootNetworkErrorsPanicAsWritten and RootAndMiddlewareHeadersAgree |
| BugSend.RootNetworkErrorsPanicAsWritten | bugfixes.go:75-86 | as written, once credentials are set and the bug parsed, the root send panics exactly when the request cannot be built or client.Do returns no response; a refused redirect does not panic; where it does not panic it equals the guarded send, which never panics there |
| BugSend.RootRedirectRefusalHarmless | bugfixes.go:84-86 | when client.Do refuses a redirect it still returns the response, so the root send as written behaves as the guarded send unless the request could not be built |
| BugSend.RootAndMiddlewareHeadersAgree | bugfixes.go:43-86 | the root send uses the same headers for the same credentials, writes no diagnostic after a request, and is skipped exactly when a credential is missing |
| Logging.ConvertLevelFromString | logs/logging.go:86-122 | every rank is at most LevelUnknown, a level name ranks at least 1, a text Atoi reads as a number ranks as that number clamped at LevelUnknown, and anything neither a name nor a number ranks LevelUnknown |
| Logging.ConvertLevelOfNumber | logs/logging.go:112-120 | a written number ranks as itself, clamped at LevelUnknown (negative numbers unchanged) |
| Logging.LevelNameRanks | logs/logging.go:58-110 | the ranks of the nine level names, the three crash names sharing one |
| Logging.FirstOutsideLogs | logs/logging.go:148-156 | the first depth from the start whose frame is outside the logging package: every frame before it is inside |
| Logging.FirstOutsideLogsIsFirst | logs/logging.go:148-156 | a depth whose frame is outside the logging package, with every frame before it inside, is the one the search finds |
| Logging.ReportingFrame | logs/logging.go:142-156 | the frame DoReporting records; specified by ReportingFrameOutsideLogs, and ResolveCaller is proved to land on it |
| Logging.ReportingFrameOutsideLogs | logs/logging.go:142-156 | the recorded frame is never in the logging package; an override that lands in it is forgotten |
| Logging.LabelText | logs/logging.go:265-281 | the label makePretty writes for each level; specified by LabelNamesLevel |
| Logging.LabelColour | logs/logging.go:265-281 | the label colour is always one of the colour codes |
| Logging.LabelNamesLevel | logs/logging.go:265-281 | every label ends in ':'; an unknown level is labelled by itself |
| Logging.PrintGate | logs/logging.go:284-288 | makePretty's print test; MakePretty states what is printed when it holds and when it does not |
| Logging.RemoteGate | logs/logging.go:164-175 | DoReporting's two early returns; DoReporting sends exactly when it holds, and RemoteImpliesPrinted relates it to PrintGate |
| Logging.RemoteImpliesPrinted | logs/logging.go:164-177 | whatever is sent was printed too; an unset BUGFIXES_LOCAL_ONLY keeps everything local; without BUGFIXES_LOG_LEVEL everything is printed |
| Logging.LogEndpoint | logs/logging.go:208-212 | the log endpoint is BUGFIXES_SERVER or the versioned default server, followed by "/log" |
| Logging.SendLog | logs/logging.go:207-259 | a request is made exactly when both credentials are set and it can be built, posted to the log endpoint with the credentials and the record |
| Logging.SendLogNamesMissingCredentials | logs/logging.go:214-223 | each missing credential is named after the notice, and nothing is printed exactly after a clean send |
| Logging.BugFixes.SkipDepth | logs/logging.go:135-140 | records the file and line of the frame at the depth, the line also as text |
| Logging.BugFixes.ResolveCaller | logs/logging.go:143-156 | the recorded frame is the reporting frame: the default depth or the override, then deeper from one past the default while in the logging package |
| Logging.BugFixes.MakePretty | logs/logging.go:261-298 | panics exactly for an "error" entry without FormattedError; when the print gate opens the text starts with the label, the clock reading, `file:line` and the message (FormattedError's text for "error"); when it is closed only the stack label (if any) is printed; without a stack something is printed exactly when the gate opens |
| Logging.BugFixes.Record | logs/logging.go:22-41 | the marshalled body carries the entry's message, level, stack, file, line text and number, and, having no "-" tag, the agent's key and secret |
| Logging.BugFixes.DoReporting | logs/logging.go:142-178 | resolves the caller, prints what makePretty prints, and sends exactly when the remote gate opens |
| Logging.BugFixes.Setup | logs/logging.go:53-56 | records the credentials |
| Logging.NewBugFixes | logs/logging.go:43-51 | nil for a nil error, otherwise a fresh entry wrapping it |
| Cors.CorsDecision | middleware/cors.go:46-86 | the CORS handler's response for a configuration, origin and method; specified by NoOriginPassesThrough, ForbiddenIff, AllowedHeadersSet and PreflightAnswered |
| Cors.CorsHeaders | middleware/cors.go:69-77 | exactly the five CORS response headers are set |
| Cors.NoOriginPassesThrough | middleware/cors.go:48-54 | without an Origin the request passes through untouched |
| Cors.ForbiddenIff | middleware/cors.go:56-67 | an origin is refused with 403 exactly when it is neither listed nor covered by "*", and a refused request sets no header and stops |
| Cors.AllowedHeadersSet | middleware/cors.go:69-77 | an allowed origin gets "*" or itself, the joined methods, the standard and configured headers (each named), max age 86400 and Vary Origin |
| Cors.PreflightAnswered | middleware/cors.go:79-84 | an allowed OPTIONS request is answered with 200 and stops; any other method goes on to the next handler |
| Cors.AllowedHeaderList | middleware/cors.go:17-25 | the header list starts with "Accept, Content-Type" and names every configured header |
| Cors.System.AddAllowedOrigins | middleware/cors.go:9-11 | appends the origins in order |
| Cors.System.AddAllowedHeaders | middleware/cors.go:14-16 | appends the headers in order |
| Cors.System.AddAllowedMethods | middleware/cors.go:28-30 | appends the methods in order |
| Cors.System.GetAllowedHeaders | middleware/cors.go:17-25 | the standard headers then every configured one after ", ", each contained |
| Cors.System.GetAllowedMethods | middleware/cors.go:31-33 | empty with no methods, otherwise the first followed by each other after ", " |
| Cors.System.WildcardEnabled | middleware/cors.go:35-43 | true exactly when "*" is an allowed origin |
| Cors.System.Cors | middleware/cors.go:46-86 | the handler's response is CorsDecision of the configuration, origin and method |
| LowercaseHeaders.LCHeaders | middleware/lcheaders.go:13-28 | every old name is kept, every lower-case form is present, only lower-case forms are added, each name holds an old case variant's values, a name not in lower case keeps its own, and a lower-case form with a variant not in lower case ends up holding such a variant's values; a map that already has every alias is left unchanged |
| LowercaseHeaders.AliasesMeaning | middleware/lcheaders.go:16-23 | the result adds only lower-case forms of old names, each holding the values of an old name with the same lower-case form |
| LowercaseHeaders.KeepsValues | middleware/lcheaders.go:16-23 | without two names sharing a lower-case form, a name keeps its values and its lower-case form holds exactly them |
| LowercaseHeaders.AliasesWithoutCollision | middleware/lcheaders.go:16-23 | without collisions every name keeps its values and the result has every alias, so a second pass changes nothing |
| LowercaseHeaders.AddedNameIsLower | middleware/lcheaders.go:18-22 | every added name is in lower case |
| LowercaseHeaders.LowerFormTakesVariant | middleware/lcheaders.go:16-23 | a name not in lower case keeps its values, and its lower-case form ends up holding the values of a variant not in lower case, whatever it held before |
| LowercaseHeaders.CaseVariantsShareValues | middleware/lcheaders.go:16-23 | a name and its lower-case form, with no other variant present, both end up with the former's values |
| LowercaseHeaders.StableIsFixed | middleware/lcheaders.go:16-23 | a map that has every alias already is the only possible result |
| LowercaseHeaders.EmptyStaysEmpty | middleware/lcheaders.go:16-23 | an empty header map stays empty |

## Left out

- The network, `json.Marshal`, `http.Client` and its timeout. Each call's outcome is a parameter: a request error, a send error or a close error. For the root package a send error is either no response at all or a refused redirect, which still comes with a response whose body `client.Do` has already closed.
- A `json.Marshal` failure in the send functions is not modelled. Marshalling records of strings and integers cannot fail.
- `log.Fatal` on a failed write to standard error is not modelled. Writes to standard error are taken to succeed.
- Goroutines: `Recoverer` sends the bug report in the background. The model records that it was dispatched.
- The two-argument call `s.SendToBugfixes(rvr, http.Client{...})` in `Recoverer` does not match the one-parameter method. The model dispatches the one-parameter send.
- `debug.Stack()` and `recover()` are not modelled as calls. The dump and the recovered value are parameters.
- `GetLogEntry` and the log entry's `Panic` are only the boolean "the request has a log entry".
- The `next` handler calls of `Recoverer`, `CORS` and `LCHeaders` are not modelled; CORS records only whether it calls next.
- `LowerCaseHeaders` and `Recoverer` (the package-level wrappers that build an empty `System`) are not modelled separately.
- `logFormat` (logfmt encoding and `time.Now`) is not modelled. The clock reading that `makePretty` prints is a parameter.
- The logs package's `PrintPrettyStack` is not modelled. `makePretty` records only the stack it hands on.
- `UnwrapIt` is not modelled: it plays no part in the reporting path.
- `init`'s terminal test is a parameter `isTTY`.
- The logs package's `logs.go` helpers, `utils/pointers.go` and `middleware/middleware.go` are not part of this model.
- The middleware's `cW` is not part of this model. It is taken to behave as the logs package's `cW`.
- Colour.CW: a '%' in a text passed as the format string is not interpreted. The model writes the already-formatted text.
- Logging.LabelText: a level name holding a format verb is written as it stands, not as `fmt` would render it.
- Text.ToLower: lower-cases ASCII letters only, not the whole of Unicode.
- Text.Split, Text.IndexChar and the other string functions work on characters, not on UTF-8 bytes.
- Recoverer.FramesInOrder: `debug.Stack()`'s bytes are split as characters.
- LowercaseHeaders.LCHeaders: Go's random map order is modelled as an arbitrary choice among the names present at the start. Entries the loop adds are never visited. Go may or may not visit them, but visiting one writes its own lower-case form again and changes nothing.
- Logging.BugFixes.ResolveCaller: `runtime.Caller` is modelled for a finite stack, beyond which it reports an empty frame.
- Logging.BugFixes.ResolveCaller: a negative override depth is passed on as it stands.
- Logging.BugFixes.MakePretty: the date format of `time.Now()` is not modelled. The reading is a string parameter.
- Logging.BugFixes.Record: the JSON encoding of the untagged `Err` field is not modelled, because it depends on the error's dynamic type.
- The root package's own `bugParse` is not part of this model. Its outcome is a parameter of the root send.

## Findings

| source | as written | input that shows it | evidently intended | confidence | as-written member | corrected member |
|---|---|---|---|---|---|---|
| middleware/bugfixes.go:131-134 | slices `bugLine[:i]` and `bugLine[i+1:j]` without checking that ':' and ' ' were found, in that order | "main.go 42", "main.go:42", "" and ":" all panic | an error naming the missing ':' or ' ', as the package's tests expect | not executed | MiddlewareBugLine.MissingSeparatorsPanicAsWritten | MiddlewareBugLine.ParseBugLine |
| bugfixes.go:90-91 | slices `bugLine[:i]` without checking that ':' was found | "main.go" panics | an error for a line without ':' | not executed | RootBugLine.MissingColonPanicsAsWritten | RootBugLine.ParseBugLine |
| middleware/bugfixes.go:95-107 | sets headers on the request before checking `http.NewRequest`'s error, so a nil request is dereferenced | BUGFIXES_SERVER set to "::" (no URL scheme) panics | report "failed to new request" and stop | not executed | BugSend.SystemSendAsWritten | BugSend.SystemSend |
| bugfixes.go:75-86 | sets headers before checking the request error, and closes `resp.Body` without checking `client.Do`'s error | an unreachable BUGFIXES_SERVER: `resp` is nil and `resp.Body` panics | report a request error; close the body only after a successful send | not executed | BugSend.RootSendAsWritten | BugSend.RootSend |
