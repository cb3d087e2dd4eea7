/** The middleware's CORS handling: three allowed-lists that only grow, and
    the decision a request with an `Origin` header gets from them. */
module Cors {
  import opened Outcomes
  import opened Text

  const StatusOK: int := 200
  const StatusForbidden: int := 403

  /** The headers every preflight allows before the configured ones. */
  const StandardHeaders: seq<string> := ["Accept", "Content-Type"]

  /** What the CORS handler does to a response: the headers it sets, the
      status it writes itself (None when it leaves that to the next handler
      or to the default), and whether it calls the next handler. */
  datatype Response = Response(headers: map<string, string>, status: Option<int>, callsNext: bool)

  /** The headers of an allowed cross-origin request. */
  function CorsHeaders(allowOrigin: string, methods: string, headers: string): (h: map<string, string>)
    ensures h.Keys == {"Access-Control-Allow-Origin", "Access-Control-Allow-Methods", "Access-Control-Allow-Headers",
                       "Access-Control-Max-Age", "Vary"}
  {
    map["Access-Control-Allow-Origin" := allowOrigin,
        "Access-Control-Allow-Methods" := methods,
        "Access-Control-Allow-Headers" := headers,
        "Access-Control-Max-Age" := "86400",
        "Vary" := "Origin"]
  }

  /** The specification of the handler: no Origin passes through untouched;
      an origin that is neither listed nor covered by "*" is refused with
      403; any other gets the CORS headers, and a preflight (OPTIONS) is
      answered with 200 while other methods go on to the next handler. */
  function CorsDecision(origins: seq<string>, methods: seq<string>, headers: seq<string>,
                        origin: string, verb: string): Response
  {
    if origin == "" then Response(map[], None, true)
    else if "*" !in origins && origin !in origins then Response(map[], Some(StatusForbidden), false)
    else
      var allowOrigin := if "*" in origins then "*" else origin;
      var h := CorsHeaders(allowOrigin, Join(methods, ", "), Join(StandardHeaders + headers, ", "));
      if verb == "OPTIONS" then Response(h, Some(StatusOK), false)
      else Response(h, None, true)
  }

  /** Without an Origin the request passes through with no header set. */
  lemma NoOriginPassesThrough(origins: seq<string>, methods: seq<string>, headers: seq<string>, verb: string)
    ensures CorsDecision(origins, methods, headers, "", verb) == Response(map[], None, true)
  {
  }

  /** An origin is refused exactly when it is neither listed nor covered by
      "*"; a refused request sets no header and does not go on. */
  lemma ForbiddenIff(origins: seq<string>, methods: seq<string>, headers: seq<string>, origin: string, verb: string)
    requires origin != ""
    ensures var r := CorsDecision(origins, methods, headers, origin, verb);
              r.status == Some(StatusForbidden) <==> "*" !in origins && origin !in origins
    ensures var r := CorsDecision(origins, methods, headers, origin, verb);
              r.status == Some(StatusForbidden) ==> r.headers == map[] && !r.callsNext
  {
  }

  /** An allowed origin gets "*" under a wildcard and itself otherwise, the
      methods joined, the standard and configured headers, a day's max age
      and Vary on Origin; each configured header is named. */
  lemma AllowedHeadersSet(origins: seq<string>, methods: seq<string>, headers: seq<string>, origin: string, verb: string)
    requires origin != "" && ("*" in origins || origin in origins)
    ensures var r := CorsDecision(origins, methods, headers, origin, verb);
              && r.headers["Access-Control-Allow-Origin"] == (if "*" in origins then "*" else origin)
              && r.headers["Access-Control-Allow-Methods"] == Join(methods, ", ")
              && r.headers["Access-Control-Allow-Headers"] == "Accept, Content-Type" + Prefixed(headers, ", ")
              && r.headers["Access-Control-Max-Age"] == "86400"
              && r.headers["Vary"] == "Origin"
    ensures var r := CorsDecision(origins, methods, headers, origin, verb);
              forall i :: 0 <= i < |headers| ==> Contains(r.headers["Access-Control-Allow-Headers"], headers[i])
  {
    AllowedHeaderList(headers);
  }

  /** An allowed preflight is answered with 200 and goes no further; every
      other allowed request goes on to the next handler, once. */
  lemma PreflightAnswered(origins: seq<string>, methods: seq<string>, headers: seq<string>, origin: string, verb: string)
    requires origin != "" && ("*" in origins || origin in origins)
    ensures var r := CorsDecision(origins, methods, headers, origin, verb);
              && (r.status == Some(StatusOK) <==> verb == "OPTIONS")
              && (r.callsNext <==> verb != "OPTIONS")
              && (r.status.None? <==> verb != "OPTIONS")
  {
  }

  /** The header list starts with the standard headers and names every
      configured one, each after ", ". */
  lemma AllowedHeaderList(headers: seq<string>)
    ensures Join(StandardHeaders + headers, ", ") == "Accept, Content-Type" + Prefixed(headers, ", ")
    ensures forall i :: 0 <= i < |headers| ==> Contains(Join(StandardHeaders + headers, ", "), headers[i])
  {
    StandardHeadersFirst(headers);
    forall i | 0 <= i < |headers|
      ensures Contains("Accept, Content-Type" + Prefixed(headers, ", "), headers[i])
    {
      PrefixedContains(headers, ", ", i);
      ContainsWithin("Accept, Content-Type", Prefixed(headers, ", "), headers[i]);
    }
  }

  /** The standard headers joined in front of the configured ones. */
  lemma StandardHeadersFirst(headers: seq<string>)
    ensures Join(StandardHeaders + headers, ", ") == "Accept, Content-Type" + Prefixed(headers, ", ")
  {
    var rest := ["Content-Type"] + headers;
    assert StandardHeaders + headers == ["Accept"] + rest;
    JoinFirst("Accept", rest, ", ");
    assert rest[1..] == headers;
    assert Prefixed(rest, ", ") == ", " + "Content-Type" + Prefixed(headers, ", ");
  }

  /** Each part occurs in the prefixed concatenation. */
  lemma {:induction false} PrefixedContains(parts: seq<string>, sep: string, i: int)
    requires 0 <= i < |parts|
    ensures Contains(Prefixed(parts, sep), parts[i])
    decreases i
  {
    var rest := Prefixed(parts[1..], sep);
    if i == 0 {
      ContainsMiddle(sep, parts[0], rest);
    } else {
      PrefixedContains(parts[1..], sep, i - 1);
      ContainsWithin(sep + parts[0], rest, parts[i]);
    }
  }

  /** What occurs in a suffix occurs in the whole. */
  lemma ContainsWithin(a: string, b: string, sub: string)
    requires Contains(b, sub)
    ensures Contains(a + b, sub)
  {
    var i :| 0 <= i <= |b| - |sub| && OccursAt(b, sub, i);
    assert (a + b)[|a| + i..|a| + i + |sub|] == b[i..i + |sub|];
    assert OccursAt(a + b, sub, |a| + i);
  }

  /** The middleware system's CORS configuration. */
  class System {
    var allowedOrigins: seq<string>
    var allowedHeaders: seq<string>
    var allowedMethods: seq<string>

    /** A system with nothing allowed. */
    constructor ()
      ensures allowedOrigins == [] && allowedHeaders == [] && allowedMethods == []
    {
      allowedOrigins, allowedHeaders, allowedMethods := [], [], [];
    }

    /** AddAllowedOrigins: the origins are appended in order. */
    method AddAllowedOrigins(origins: seq<string>)
      modifies this`allowedOrigins
      ensures allowedOrigins == old(allowedOrigins) + origins
    {
      allowedOrigins := allowedOrigins + origins;
    }

    /** AddAllowedHeaders: the headers are appended in order. */
    method AddAllowedHeaders(headers: seq<string>)
      modifies this`allowedHeaders
      ensures allowedHeaders == old(allowedHeaders) + headers
    {
      allowedHeaders := allowedHeaders + headers;
    }

    /** AddAllowedMethods: the methods are appended in order. */
    method AddAllowedMethods(methods: seq<string>)
      modifies this`allowedMethods
      ensures allowedMethods == old(allowedMethods) + methods
    {
      allowedMethods := allowedMethods + methods;
    }

    /** getAllowedHeaders: the standard headers, then every configured one
        after ", ". */
    function GetAllowedHeaders(): (h: string)
      reads this
      ensures h == "Accept, Content-Type" + Prefixed(allowedHeaders, ", ")
      ensures forall i :: 0 <= i < |allowedHeaders| ==> Contains(h, allowedHeaders[i])
    {
      AllowedHeaderList(allowedHeaders);
      Join(StandardHeaders + allowedHeaders, ", ")
    }

    /** getAllowedMethods: the methods joined with ", ". */
    function GetAllowedMethods(): (m: string)
      reads this
      ensures |allowedMethods| == 0 ==> m == ""
      ensures |allowedMethods| >= 1 ==> m == allowedMethods[0] + Prefixed(allowedMethods[1..], ", ")
    {
      var m := Join(allowedMethods, ", ");
      assert |allowedMethods| >= 1 ==> m == allowedMethods[0] + Prefixed(allowedMethods[1..], ", ") by {
        if |allowedMethods| >= 1 {
          assert allowedMethods == [allowedMethods[0]] + allowedMethods[1..];
          JoinFirst(allowedMethods[0], allowedMethods[1..], ", ");
        }
      }
      m
    }

    /** wildcardEnabled: whether "*" is among the allowed origins. */
    method WildcardEnabled() returns (b: bool)
      ensures b <==> "*" in allowedOrigins
    {
      var i := 0;
      while i < |allowedOrigins|
        invariant 0 <= i <= |allowedOrigins|
        invariant "*" !in allowedOrigins[..i]
      {
        if allowedOrigins[i] == "*" {
          return true;
        }
        assert allowedOrigins[..i + 1] == allowedOrigins[..i] + [allowedOrigins[i]];
        i := i + 1;
      }
      assert allowedOrigins[..i] == allowedOrigins;
      return false;
    }

    /** The CORS handler on a request with Origin header value `origin` and
        method `verb`. */
    method Cors(origin: string, verb: string) returns (r: Response)
      ensures r == CorsDecision(allowedOrigins, allowedMethods, allowedHeaders, origin, verb)
    {
      if origin == "" {
        return Response(map[], None, true);
      }
      var isAllowed := WildcardEnabled();
      var i := 0;
      while i < |allowedOrigins|
        invariant 0 <= i <= |allowedOrigins|
        invariant isAllowed || origin !in allowedOrigins[..i]
        invariant isAllowed ==> "*" in allowedOrigins || origin in allowedOrigins
      {
        if allowedOrigins[i] == origin {
          isAllowed := true;
          break;
        }
        assert allowedOrigins[..i + 1] == allowedOrigins[..i] + [allowedOrigins[i]];
        i := i + 1;
      }
      assert !isAllowed ==> allowedOrigins[..i] == allowedOrigins;
      if !isAllowed {
        return Response(map[], Some(StatusForbidden), false);
      }
      var wildcard := WildcardEnabled();
      var allowOrigin := if wildcard then "*" else origin;
      var h := CorsHeaders(allowOrigin, GetAllowedMethods(), GetAllowedHeaders());
      if verb == "OPTIONS" {
        return Response(h, Some(StatusOK), false);
      }
      r := Response(h, None, true);
    }
  }
}
