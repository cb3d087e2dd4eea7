/** The logs package's reporting path: ranking severities, finding the
    caller outside the logging package, printing a coloured line to standard
    output and deciding whether the entry goes to the bug service. The call
    stack, the environment, the terminal test and the clock are parameters. */
module Logging {
  import opened Outcomes
  import opened Text
  import opened Numbers
  import opened Colour
  import opened BugSend

  const DefaultSkipDepth: int := 3

  const LevelLog: int := 1
  const LevelDebug: int := 1
  const LevelInfo: int := 2
  const LevelWarn: int := 3
  const LevelError: int := 4
  const LevelCrash: int := 5
  const LevelUnknown: int := 9

  /** The level names the ranking knows. */
  predicate IsLevelName(s: string)
  {
    s in {"log", "debug", "info", "warn", "error", "crash", "panic", "fatal", "unknown"}
  }

  /** ConvertLevelFromString: a level name's rank, or a number taken as a
      rank and clamped at LevelUnknown, or LevelUnknown for anything else. */
  function ConvertLevelFromString(s: string): (r: int)
    ensures r <= LevelUnknown
    ensures IsLevelName(s) ==> 1 <= r
    ensures !IsLevelName(s) && Atoi(s).None? ==> r == LevelUnknown
    ensures !IsLevelName(s) && Atoi(s).Some? ==>
              r == if Atoi(s).value >= LevelUnknown then LevelUnknown else Atoi(s).value
  {
    if s == "log" then LevelLog
    else if s == "debug" then LevelDebug
    else if s == "info" then LevelInfo
    else if s == "warn" then LevelWarn
    else if s == "error" then LevelError
    else if s == "crash" || s == "panic" || s == "fatal" then LevelCrash
    else if s == "unknown" then LevelUnknown
    else
      match Atoi(s)
      case None => LevelUnknown
      case Some(lvl) => if lvl >= LevelUnknown then LevelUnknown else lvl
  }

  /** The written form of any 64-bit number ranks as that number, clamped at
      LevelUnknown: negative numbers come back unchanged. */
  lemma ConvertLevelOfNumber(n: int)
    requires IsInt(n)
    ensures ConvertLevelFromString(Itoa(n)) == if n >= LevelUnknown then LevelUnknown else n
  {
    var s := Itoa(n);
    assert !IsLevelName(s) by {
      assert IsDigit(s[0]) || s[0] == '-';
    }
    AtoiItoa(n);
  }

  /** The ranks of the level names; the three crash names share one rank,
      and so do "log" and "debug". */
  lemma LevelNameRanks()
    ensures ConvertLevelFromString("log") == ConvertLevelFromString("debug") == 1
    ensures ConvertLevelFromString("info") == 2 && ConvertLevelFromString("warn") == 3
    ensures ConvertLevelFromString("error") == 4
    ensures ConvertLevelFromString("crash") == ConvertLevelFromString("panic") == ConvertLevelFromString("fatal") == 5
    ensures ConvertLevelFromString("unknown") == 9
  {
  }

  /** A frame as `runtime.Caller` reports it: the file and the line. */
  datatype Frame = Frame(file: string, line: int)

  /** What `runtime.Caller` reports past the top of the stack. */
  const NoFrame: Frame := Frame("", 0)

  /** The logging package's own file: a frame in it is not the caller. */
  const LogsFile: string := "logs/logs.go"

  predicate InLogs(f: Frame)
  {
    Contains(f.file, LogsFile)
  }

  /** `caller` is `runtime.Caller` on a stack of `height` frames: every depth
      from `height` on gives no frame. */
  ghost predicate FiniteStack(caller: int -> Frame, height: nat)
  {
    forall d :: d >= height ==> caller(d) == NoFrame
  }

  /** The first depth from `depth` on whose frame lies outside the logging
      package. */
  function FirstOutsideLogs(caller: int -> Frame, height: nat, depth: int): (d: int)
    requires FiniteStack(caller, height)
    ensures depth <= d && !InLogs(caller(d))
    ensures forall k :: depth <= k < d ==> InLogs(caller(k))
    decreases if depth < height then height - depth else 0
  {
    if !InLogs(caller(depth)) then depth
    else
      assert depth < height;
      FirstOutsideLogs(caller, height, depth + 1)
  }

  /** The frame DoReporting records: the frame at the default depth or at
      the override; while that lies in the logging package, the frames from
      one past the default depth on, whatever the override was. */
  function ReportingFrame(caller: int -> Frame, height: nat, skipDepthOverride: int): Frame
    requires FiniteStack(caller, height)
  {
    var first := if skipDepthOverride != 0 then caller(skipDepthOverride) else caller(DefaultSkipDepth);
    if !InLogs(first) then first
    else caller(FirstOutsideLogs(caller, height, DefaultSkipDepth + 1))
  }

  /** The recorded frame is never in the logging package; an override that
      lands in it is forgotten and the search starts over past the default
      depth. */
  lemma ReportingFrameOutsideLogs(caller: int -> Frame, height: nat, skipDepthOverride: int)
    requires FiniteStack(caller, height)
    ensures !InLogs(ReportingFrame(caller, height, skipDepthOverride))
    ensures skipDepthOverride != 0 && InLogs(caller(skipDepthOverride)) ==>
              ReportingFrame(caller, height, skipDepthOverride) == ReportingFrame(caller, height, DefaultSkipDepth)
              || !InLogs(caller(DefaultSkipDepth))
    ensures skipDepthOverride == 0 || skipDepthOverride == DefaultSkipDepth ==>
              ReportingFrame(caller, height, skipDepthOverride) == ReportingFrame(caller, height, 0)
  {
  }

  /** The label makePretty prints before an entry. */
  function LabelText(level: string): string
  {
    if level == "warn" then "Warning:"
    else if level == "info" then "Info:"
    else if level == "log" then "Log:"
    else if level == "debug" then "Debug:"
    else if level == "error" then "Error:"
    else level + ":"
  }

  /** The label's colour. */
  function LabelColour(level: string): (c: string)
    ensures IsColour(c)
  {
    if level == "warn" then BBlue
    else if level == "info" then BYellow
    else if level == "log" then BGreen
    else if level == "debug" then BMagenta
    else if level == "error" then BRed
    else BWhite
  }

  /** Every level's label ends in ':' and names the level: the five known
      levels by their words, any other by itself. */
  lemma LabelNamesLevel(level: string)
    ensures HasSuffix(LabelText(level), ":")
    ensures level !in {"warn", "info", "log", "debug", "error"} ==> LabelText(level) == level + ":"
    ensures level in {"warn", "info", "log", "debug", "error"} ==> Escape !in LabelText(level)
  {
    var t := LabelText(level);
    if level !in {"warn", "info", "log", "debug", "error"} {
      assert t[|t| - 1..] == ":";
    }
  }

  /** The print gate of makePretty: the entry's rank reaches the reporting
      rank, or no reporting rank is configured, or the entry is local only. */
  predicate PrintGate(env: Env, level: string, localOnly: bool)
  {
    var reportLogLevel := ConvertLevelFromString(Getenv(env, "BUGFIXES_LOG_LEVEL"));
    ConvertLevelFromString(level) >= reportLogLevel || reportLogLevel == LevelUnknown || localOnly
  }

  /** The remote gate of DoReporting: BUGFIXES_LOCAL_ONLY is set to something
      other than "true", the entry is not local only, and its rank reaches the
      reporting rank. */
  predicate RemoteGate(env: Env, level: string, localOnly: bool)
  {
    var keepLocal := Getenv(env, "BUGFIXES_LOCAL_ONLY");
    !(keepLocal == "" || keepLocal == "true" || localOnly)
    && ConvertLevelFromString(Getenv(env, "BUGFIXES_LOG_LEVEL")) <= ConvertLevelFromString(level)
  }

  /** Whatever goes to the bug service has been printed too; an unset
      BUGFIXES_LOCAL_ONLY keeps every entry local; without a reporting rank
      everything is printed. */
  lemma RemoteImpliesPrinted(env: Env, level: string, localOnly: bool)
    ensures RemoteGate(env, level, localOnly) ==> PrintGate(env, level, localOnly)
    ensures "BUGFIXES_LOCAL_ONLY" !in env ==> !RemoteGate(env, level, localOnly)
    ensures "BUGFIXES_LOG_LEVEL" !in env ==> PrintGate(env, level, localOnly)
    ensures RemoteGate(env, level, localOnly) <==>
              && Getenv(env, "BUGFIXES_LOCAL_ONLY") !in {"", "true"} && !localOnly
              && ConvertLevelFromString(Getenv(env, "BUGFIXES_LOG_LEVEL")) <= ConvertLevelFromString(level)
  {
  }

  /** sendLog's endpoint: BUGFIXES_SERVER, or the versioned default server,
      followed by "/log". */
  function LogEndpoint(env: Env): (url: string)
    ensures HasSuffix(url, "/log")
    ensures Getenv(env, ServerVariable) == "" ==> url == "https://api.bugfix.es/v1/log"
    ensures Getenv(env, ServerVariable) != "" ==> url == Getenv(env, ServerVariable) + "/log"
  {
    var server := Getenv(env, ServerVariable);
    var base := if server != "" then server else "https://api.bugfix.es/v1";
    assert (base + "/log")[|base|..] == "/log";
    base + "/log"
  }

  /** The JSON fields of an entry sent to the bug service: the tagged ones,
      then the untagged exported ones, the credentials among them (`Err` is
      left out). */
  datatype LogRecord = LogRecord(log: string, level: string, file: string, line: string,
                                 lineNumber: int, logFmt: string, stack: Option<string>,
                                 bug: string, skipDepthOverride: int, agentID: string, secret: string)

  /** What sendLog prints, and the request it makes if it makes one. */
  datatype LogSend = LogSend(output: string, request: Option<BugRequest<LogRecord>>)

  const MissingKeysNotice: string := "cant send to server till you have created an agent and set the keys\n"
  const MissingKeyNotice: string := "env: BUGFIXES_AGENT_KEY missing\n"
  const MissingSecretNotice: string := "env: BUGFIXES_AGENT_SECRET missing\n"

  /** sendLog: without both credentials, a notice naming each missing one;
      otherwise a POST of the record to the endpoint, with the error of a
      request that cannot be built, a failed send or a failed close
      printed. */
  function SendLog(agentID: string, secret: string, env: Env, record: LogRecord,
                   requestError: Option<string>, sendError: Option<string>, closeError: Option<string>): (s: LogSend)
    ensures s.request.Some? <==> agentID != "" && secret != "" && requestError.None?
    ensures s.request.Some? ==> s.request.value == BugRequest(LogEndpoint(env), RequestHeaders(agentID, secret), record)
  {
    if agentID == "" || secret == "" then
      LogSend(MissingKeysNotice + (if agentID == "" then MissingKeyNotice else "")
                                + (if secret == "" then MissingSecretNotice else ""), None)
    else if requestError.Some? then
      LogSend("bugfixes sendLog newRequest: " + requestError.value + "\n", None)
    else
      var request := BugRequest(LogEndpoint(env), RequestHeaders(agentID, secret), record);
      if sendError.Some? then LogSend("bugfixes sendLog do: " + sendError.value + "\n", Some(request))
      else if closeError.Some? then LogSend("bugfixes sendLog close: " + closeError.value + "\n", Some(request))
      else LogSend("", Some(request))
  }

  /** A missing credential is named in the notice, and nothing is printed
      after a clean send. */
  lemma SendLogNamesMissingCredentials(agentID: string, secret: string, env: Env, record: LogRecord,
                                       requestError: Option<string>, sendError: Option<string>, closeError: Option<string>)
    ensures var s := SendLog(agentID, secret, env, record, requestError, sendError, closeError);
              && (agentID == "" ==> Contains(s.output, MissingKeyNotice))
              && (secret == "" ==> Contains(s.output, MissingSecretNotice))
              && (agentID == "" || secret == "" ==> HasPrefix(s.output, MissingKeysNotice))
              && (s.output == "" <==> agentID != "" && secret != "" && requestError.None? && sendError.None? && closeError.None?)
  {
    var s := SendLog(agentID, secret, env, record, requestError, sendError, closeError);
    if agentID == "" || secret == "" {
      var key := if agentID == "" then MissingKeyNotice else "";
      var sec := if secret == "" then MissingSecretNotice else "";
      assert s.output == MissingKeysNotice + key + sec;
      if agentID == "" {
        ContainsMiddle(MissingKeysNotice, MissingKeyNotice, sec);
      }
      if secret == "" {
        assert s.output == MissingKeysNotice + key + MissingSecretNotice + "";
        ContainsMiddle(MissingKeysNotice + key, MissingSecretNotice, "");
      }
    }
  }

  /** What makePretty prints: the entry line, and the stack handed on to be
      pretty-printed after its label. */
  datatype Printout = Printout(text: string, prettyStack: Option<string>)

  /** What DoReporting leaves behind: what was printed, and what was sent
      if the remote gate opened. */
  datatype Reporting = Reporting(printout: Printout, send: Option<LogSend>)

  /** An entry as the logs package holds it; `formattedError` is the text of
      FormattedError, None for a nil error. */
  class BugFixes {
    var formattedLog: string
    var level: string
    var file: string
    var line: string
    var lineNumber: int
    var logFmt: string
    var stack: Option<string>
    var formattedError: Option<string>
    var localOnly: bool
    var bug: string
    var err: Option<string>
    var skipDepthOverride: int
    var agentID: string
    var secret: string

    /** An entry wrapping `err`, every other field at its zero value. */
    constructor (err: Option<string>)
      ensures this.err == err
      ensures formattedLog == level == file == line == logFmt == bug == agentID == secret == ""
      ensures lineNumber == 0 && skipDepthOverride == 0 && !localOnly
      ensures stack.None? && formattedError.None?
    {
      formattedLog, level, file, line, logFmt, bug, agentID, secret := "", "", "", "", "", "", "", "";
      lineNumber, skipDepthOverride, localOnly := 0, 0, false;
      stack, formattedError := None, None;
      this.err := err;
    }

    /** Setup: records the agent's credentials and nothing else. */
    method Setup(id: string, secret: string)
      modifies this`agentID, this`secret
      ensures agentID == id && this.secret == secret
    {
      agentID := id;
      this.secret := secret;
    }

    /** skipDepth: records the file and line of the frame at `depth`, the
        line also as text. */
    method SkipDepth(caller: int -> Frame, depth: int)
      modifies this`file, this`lineNumber, this`line
      ensures file == caller(depth).file && lineNumber == caller(depth).line
      ensures line == Itoa(lineNumber)
    {
      var f := caller(depth);
      file := f.file;
      lineNumber := f.line;
      line := Itoa(f.line);
    }

    /** The first part of DoReporting: the frame at the default depth or the
        override, then deeper frames from one past the default depth while
        the recorded file is in the logging package. */
    method ResolveCaller(caller: int -> Frame, ghost height: nat)
      requires FiniteStack(caller, height)
      modifies this`file, this`lineNumber, this`line
      ensures Frame(file, lineNumber) == ReportingFrame(caller, height, skipDepthOverride)
      ensures line == Itoa(lineNumber)
    {
      SkipDepth(caller, DefaultSkipDepth);
      if skipDepthOverride != 0 {
        SkipDepth(caller, skipDepthOverride);
      }
      ghost var first := Frame(file, lineNumber);
      var depth := DefaultSkipDepth;
      while Contains(file, LogsFile)
        invariant DefaultSkipDepth <= depth <= (if height < DefaultSkipDepth then DefaultSkipDepth else height) + 1
        invariant line == Itoa(lineNumber)
        invariant depth == DefaultSkipDepth ==> Frame(file, lineNumber) == first
        invariant depth > DefaultSkipDepth ==> InLogs(first) && Frame(file, lineNumber) == caller(depth)
        invariant forall k :: DefaultSkipDepth < k < depth ==> InLogs(caller(k))
        decreases (if height < DefaultSkipDepth then DefaultSkipDepth else height) + 1 - depth
      {
        depth := depth + 1;
        SkipDepth(caller, depth);
      }
      assert depth > DefaultSkipDepth ==> depth == FirstOutsideLogs(caller, height, DefaultSkipDepth + 1) by {
        if depth > DefaultSkipDepth {
          FirstOutsideLogsIsFirst(caller, height, DefaultSkipDepth + 1, depth);
        }
      }
    }

    /** makePretty: the label, the clock's reading `now`, the recorded frame
        and the message, printed when the print gate opens, and the stack
        label when the entry carries a stack. An "error" entry prints the
        text of FormattedError, and a nil FormattedError panics. */
    function MakePretty(env: Env, isTTY: bool, now: string): (r: Run<Printout>)
      reads this
      ensures r.Panics? <==> level == "error" && formattedError.None?
      ensures r.Returns? ==> (r.value.prettyStack == stack)
      ensures r.Returns? && PrintGate(env, level, localOnly) ==>
                HasPrefix(r.value.text, CW(isTTY, true, LabelColour(level), LabelText(level)) + " " + now + " >> "
                                        + file + ":" + Itoa(lineNumber) + " >> "
                                        + (if level == "error" then formattedError.value else formattedLog) + "\n")
      ensures r.Returns? && !PrintGate(env, level, localOnly) ==>
                r.value.text == (if stack.Some? then CW(isTTY, true, BMagenta, "Stack:") else "")
      ensures r.Returns? && stack.None? ==> (r.value.text != "" <==> PrintGate(env, level, localOnly))
    {
      if level == "error" && formattedError.None? then Panics(NilDereference)
      else
        var message := if level == "error" then formattedError.value else formattedLog;
        var heading := CW(isTTY, true, LabelColour(level), LabelText(level));
        var entry := if PrintGate(env, level, localOnly)
                     then heading + " " + now + " >> " + file + ":" + Itoa(lineNumber) + " >> " + message + "\n"
                     else "";
        var stackLabel := if stack.Some? then CW(isTTY, true, BMagenta, "Stack:") else "";
        Returns(Printout(entry + stackLabel, stack))
    }

    /** The record sendLog marshals: every exported field but the two
        tagged to be skipped, so the credentials travel in the body as well as
        in the headers. */
    function Record(): (r: LogRecord)
      reads this
      ensures r.log == formattedLog && r.level == level && r.stack == stack
      ensures r.file == file && r.line == line && r.lineNumber == lineNumber
      ensures r.agentID == agentID && r.secret == secret
    {
      LogRecord(formattedLog, level, file, line, lineNumber, logFmt, stack, bug, skipDepthOverride, agentID, secret)
    }

    /** DoReporting: resolve the caller, print, and send to the bug service
        when the remote gate opens. */
    method DoReporting(caller: int -> Frame, ghost height: nat, env: Env, isTTY: bool, now: string,
                       requestError: Option<string>, sendError: Option<string>, closeError: Option<string>)
      returns (r: Run<Reporting>)
      requires FiniteStack(caller, height)
      modifies this`file, this`lineNumber, this`line
      ensures Frame(file, lineNumber) == ReportingFrame(caller, height, skipDepthOverride) && line == Itoa(lineNumber)
      ensures r.Panics? <==> MakePretty(env, isTTY, now).Panics?
      ensures r.Returns? ==> r.value.printout == MakePretty(env, isTTY, now).value
      ensures r.Returns? ==> (r.value.send.Some? <==> RemoteGate(env, level, localOnly))
      ensures r.Returns? && r.value.send.Some? ==>
                r.value.send.value == SendLog(agentID, secret, env, Record(), requestError, sendError, closeError)
    {
      ResolveCaller(caller, height);
      var pretty := MakePretty(env, isTTY, now);
      if pretty.Panics? {
        r := Panics(pretty.reason);
        return;
      }
      var keepLocal := Getenv(env, "BUGFIXES_LOCAL_ONLY");
      if keepLocal == "" || keepLocal == "true" || localOnly {
        r := Returns(Reporting(pretty.value, None));
        return;
      }
      var reportLogLevel := ConvertLevelFromString(Getenv(env, "BUGFIXES_LOG_LEVEL"));
      var logLevel := ConvertLevelFromString(level);
      if reportLogLevel > logLevel {
        r := Returns(Reporting(pretty.value, None));
        return;
      }
      var sent := SendLog(agentID, secret, env, Record(), requestError, sendError, closeError);
      r := Returns(Reporting(pretty.value, Some(sent)));
    }
  }

  /** A depth past `depth` from which every frame up to `d` was in the
      logging package and `d`'s is not is the first one outside it. */
  lemma {:induction false} FirstOutsideLogsIsFirst(caller: int -> Frame, height: nat, depth: int, d: int)
    requires FiniteStack(caller, height)
    requires depth <= d && !InLogs(caller(d))
    requires forall k :: depth <= k < d ==> InLogs(caller(k))
    ensures FirstOutsideLogs(caller, height, depth) == d
    decreases d - depth
  {
    if depth < d {
      FirstOutsideLogsIsFirst(caller, height, depth + 1, d);
    }
  }

  /** NewBugFixes: no entry for a nil error, otherwise a fresh entry that
      wraps it. */
  method NewBugFixes(err: Option<string>) returns (b: BugFixes?)
    ensures b == null <==> err.None?
    ensures b != null ==> fresh(b) && b.err == err && b.level == "" && b.agentID == "" && b.secret == ""
  {
    if err.None? {
      return null;
    }
    b := new BugFixes(err);
  }
}
