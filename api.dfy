/**
 * The HTTP handlers of the demo API service: the /api echo handler, which
 * renders the request back as text and counts it, and the constant /metrics
 * and / (health) responders. Flask's routing and request objects are not
 * modelled: a request arrives as its method, header pairs and decoded body.
 */
module Api {
  import opened Text
  import opened Metrics

  /** The verbs routed to /api. */
  datatype Method = GET | POST | PUT | DELETE

  /** request.method: the verb as Flask reports it. */
  function MethodName(m: Method): (r: string)
    ensures r != "" && '\n' !in r
  {
    match m
    case GET => "GET"
    case POST => "POST"
    case PUT => "PUT"
    case DELETE => "DELETE"
  }

  /** A header as request.headers.items() yields it: (name, value). */
  type Header = (string, string)

  datatype Request = Request(verb: Method, headers: seq<Header>, body: string)

  /** A response body: literal text, or the exposition of a counter snapshot. */
  datatype Body = Plain(text: string) | Exposition(snapshot: Cells)

  /** What a view returns: body, status code and the extra headers it sets. */
  datatype Response = Response(body: Body, status: nat, headers: seq<Header>)

  const StatusOk: nat := 200
  const ApiEndpoint := "/api"
  const HealthMessage := "API is running!"
  const MetricsContentType := "text/plain; version=0.0.4; charset=utf-8"

  /** One header rendered as f"{k}: {v}". */
  function HeaderLine(h: Header): string
  {
    h.0 + ": " + h.1
  }

  /** The list comprehension over request.headers.items(). */
  function HeaderLines(hs: seq<Header>): (r: seq<string>)
    ensures |r| == |hs|
    ensures forall i :: 0 <= i < |hs| ==> r[i] == HeaderLine(hs[i])
  {
    seq(|hs|, i requires 0 <= i < |hs| => HeaderLine(hs[i]))
  }

  /**
   * headers_str: the header lines joined with "\n". It is empty exactly when
   * there are no headers.
   */
  function RenderHeaders(hs: seq<Header>): (r: string)
    ensures r == "" <==> hs == []
  {
    JoinLines(HeaderLines(hs))
  }

  const Intro := "Welcome to our demo API, here are the details of your request:\n\n***Headers***:\n"
  const MethodHeading := "\n\n***Method***:\n"
  const BodyHeading := "\n\n***Body***:\n"

  /**
   * response_content: the fixed template filled with headers, method and body.
   * ResponseOpening and ResponseClosing state its layout.
   */
  function RenderResponse(req: Request): string
  {
    Intro + RenderHeaders(req.headers) + MethodHeading + MethodName(req.verb) + BodyHeading + req.body + "\n"
  }

  /** The counter child that an /api call with this verb increments. */
  function ApiLabels(m: Method): (l: Labels)
    ensures l.httpMethod == MethodName(m) && l.endpoint == ApiEndpoint
    ensures l.statusCode == Decimal(StatusOk)
  {
    assert Decimal(StatusOk) == Decimal(20) + "0" == Decimal(2) + "0" + "0";
    Labels(MethodName(m), "/api", "200")
  }

  /** The status label an /api call records is the text of no status but 200. */
  lemma StatusLabelDeterminesStatus(m: Method, status: nat)
    requires ApiLabels(m).statusCode == Decimal(status)
    ensures status == StatusOk
  {
    DecimalInjective(status, StatusOk);
  }

  /**
   * A header name carries no colon and neither part carries a line break,
   * as for any header that reached the handler over HTTP/1.1.
   */
  predicate WellFormedHeader(h: Header)
  {
    ':' !in h.0 && '\n' !in h.0 && '\n' !in h.1
  }

  /**
   * The header block keeps the arrival order: its lines are the rendered
   * headers one by one; it has no empty line and does not end in a line break.
   */
  lemma HeaderBlockShape(hs: seq<Header>)
    requires forall i :: 0 <= i < |hs| ==> WellFormedHeader(hs[i])
    ensures hs != [] ==> SplitLines(RenderHeaders(hs)) == HeaderLines(hs)
    ensures hs != [] ==> RenderHeaders(hs)[|RenderHeaders(hs)| - 1] != '\n'
    ensures NoParagraphBreak(RenderHeaders(hs))
  {
    var lines := HeaderLines(hs);
    forall i | 0 <= i < |lines| ensures lines[i] != "" && '\n' !in lines[i] {
      assert lines[i] == hs[i].0 + ": " + hs[i].1;
      assert lines[i][|hs[i].0|] == ':';
    }
    JoinNoParagraphBreak(lines);
    if hs != [] {
      SplitJoin(lines);
    }
  }

  /** The echo opens with the fixed introduction followed by the header block. */
  lemma ResponseOpening(req: Request)
    ensures var r := RenderResponse(req); var h := RenderHeaders(req.headers);
      |r| >= |Intro| + |h| && r[..|Intro|] == Intro && r[|Intro|..|Intro| + |h|] == h
  {
    var h := RenderHeaders(req.headers);
    var tail := MethodHeading + MethodName(req.verb) + BodyHeading + req.body + "\n";
    assert RenderResponse(req) == (Intro + h) + tail;
  }

  /** The body closes the echo verbatim, right after "***Body***:\n", before one final line break. */
  lemma ResponseClosing(req: Request)
    ensures var r := RenderResponse(req); var ending := "***Body***:\n" + req.body + "\n";
      |r| >= |ending| && r[|r| - |ending|..] == ending
  {
    var ending := "***Body***:\n" + req.body + "\n";
    var front := Intro + RenderHeaders(req.headers) + MethodHeading + MethodName(req.verb) + "\n\n";
    assert BodyHeading == "\n\n" + "***Body***:\n";
    assert RenderResponse(req) == front + ending;
  }

  /** An empty body leaves the echo ending in "***Body***:\n\n". */
  lemma EmptyBodyEnding(req: Request)
    requires req.body == ""
    ensures var r := RenderResponse(req); var ending := "***Body***:\n\n";
      |r| >= |ending| && r[|r| - |ending|..] == ending
  {
    ResponseClosing(req);
    assert "***Body***:\n" + req.body + "\n" == "***Body***:\n\n";
  }

  /** The process-wide state of the service: its one labelled counter. */
  class ApiService {
    const requestCount: Counter

    /** REQUEST_COUNT = Counter('http_requests_total', ...) */
    constructor ()
      ensures fresh(requestCount)
      ensures requestCount.name == "http_requests_total"
      ensures requestCount.documentation == "Total HTTP Requests"
      ensures requestCount.labelNames == ["method", "endpoint", "status_code"]
      ensures requestCount.cells == map[]
    {
      requestCount := new Counter("http_requests_total", "Total HTTP Requests", ["method", "endpoint", "status_code"]);
    }

    /**
     * api_details: counts the call under (method, "/api", "200") and echoes
     * the request with status 200, whose text form is the recorded label.
     */
    method ApiDetails(req: Request) returns (resp: Response)
      modifies requestCount
      ensures requestCount.cells == Incremented(old(requestCount.cells), ApiLabels(req.verb))
      ensures requestCount.Value(ApiLabels(req.verb)) == old(requestCount.Value(ApiLabels(req.verb))) + 1
      ensures forall l :: l != ApiLabels(req.verb) ==> requestCount.Value(l) == old(requestCount.Value(l))
      ensures resp == Response(Plain(RenderResponse(req)), StatusOk, [])
      ensures ApiLabels(req.verb).statusCode == Decimal(resp.status)
    {
      var headersStr := RenderHeaders(req.headers);
      var verb := MethodName(req.verb);
      var body := req.body;
      requestCount.Inc(Labels(verb, "/api", "200"));
      var content := Intro + headersStr + MethodHeading + verb + BodyHeading + body + "\n";
      resp := Response(Plain(content), 200, []);
    }

    /**
     * metrics: status 200 with the exposition content type; the body renders
     * the counter as it stands, and the counter is only read.
     */
    method Metrics() returns (resp: Response)
      ensures resp.status == StatusOk
      ensures resp.headers == [("Content-Type", MetricsContentType)]
      ensures resp.body == Exposition(requestCount.cells)
    {
      resp := Response(Exposition(requestCount.cells), 200, [("Content-Type", "text/plain; version=0.0.4; charset=utf-8")]);
    }

    /** health_check: always the same text with status 200; the counter is not touched. */
    method HealthCheck() returns (resp: Response)
      ensures resp == Response(Plain(HealthMessage), StatusOk, [])
    {
      resp := Response(Plain("API is running!"), 200, []);
    }
  }
}
