/**
 * Reading an /api echo back: the inverse of the rendering. It shows that
 * the echo is faithful: for headers that can arrive over HTTP, the
 * response text determines the method, the headers in arrival order and
 * the body exactly.
 */
module Echo {
  import opened Text
  import opened Api

  /** The verb named by a request line, if it is one of the routed ones. */
  function ParseMethod(s: string): (r: Option<Method>)
    ensures r.Some? ==> MethodName(r.value) == s
    ensures r.None? ==> forall m :: MethodName(m) != s
  {
    if s == "GET" then Some(GET)
    else if s == "POST" then Some(POST)
    else if s == "PUT" then Some(PUT)
    else if s == "DELETE" then Some(DELETE)
    else None
  }

  /** A rendered header line split at its first ": ". */
  function ParseHeaderLine(line: string): (r: Option<Header>)
    ensures r.Some? ==> HeaderLine(r.value) == line
  {
    match IndexOf(line, ": ")
    case None => None
    case Some(i) =>
      assert line == line[..i] + ": " + line[i + 2..] by { assert line[i..i + 2] == ": "; }
      Some((line[..i], line[i + 2..]))
  }

  /** Rendering a header in front renders its line in front. */
  lemma HeaderLinesCons(h: Header, t: seq<Header>)
    ensures HeaderLines([h] + t) == [HeaderLine(h)] + HeaderLines(t)
  {
    var l, r := HeaderLines([h] + t), [HeaderLine(h)] + HeaderLines(t);
    assert |l| == |r|;
    forall i | 0 <= i < |l| ensures l[i] == r[i] {
      if i > 0 { assert ([h] + t)[i] == t[i - 1]; }
    }
  }

  /** Every line of a header block read back as a header, in order. */
  function ParseHeaderLines(lines: seq<string>): (r: Option<seq<Header>>)
    ensures r.Some? ==> HeaderLines(r.value) == lines
  {
    if lines == [] then Some([])
    else
      match (ParseHeaderLine(lines[0]), ParseHeaderLines(lines[1..]))
      case (Some(h), Some(t)) =>
        HeaderLinesCons(h, t);
        Some([h] + t)
      case _ => None
  }

  /** headers_str read back: empty text is no headers, otherwise one header per line. */
  function ParseHeaders(block: string): (r: Option<seq<Header>>)
    ensures r.Some? ==> RenderHeaders(r.value) == block
  {
    if block == "" then Some([])
    else
      JoinSplit(block);
      ParseHeaderLines(SplitLines(block))
  }

  /** The echo between its introduction and its final line break. */
  function Sections(req: Request): string
  {
    RenderHeaders(req.headers) + MethodHeading + (MethodName(req.verb) + BodyHeading + req.body)
  }

  /** The echo is its sections between the introduction and a final line break. */
  lemma FramedSections(req: Request)
    ensures RenderResponse(req) == Intro + Sections(req) + "\n"
  {
  }

  /** The sections read back: the header block, the verb and the body. */
  function ParseSections(rest: string): (r: Option<Request>)
    ensures r.Some? ==> Sections(r.value) == rest
  {
    match IndexOf(rest, MethodHeading)
    case None => None
    case Some(i) =>
      var after := rest[i + |MethodHeading|..];
      match IndexOf(after, BodyHeading)
      case None => None
      case Some(j) =>
        match (ParseHeaders(rest[..i]), ParseMethod(after[..j]))
        case (Some(hs), Some(m)) =>
          var body := after[j + |BodyHeading|..];
          SplitAtOccurrence(rest, MethodHeading, i);
          SplitAtOccurrence(after, BodyHeading, j);
          Some(Request(m, hs, body))
        case _ => None
  }

  /** A text that opens with intro and closes with a line break frames what lies between. */
  lemma Unframe(text: string, intro: string, rest: string)
    requires |text| >= |intro| + 1 && text[..|intro|] == intro && text[|text| - 1] == '\n'
    requires rest == text[|intro|..|text| - 1]
    ensures text == intro + rest + "\n"
  {
    assert text == text[..|intro|] + text[|intro|..|text| - 1] + [text[|text| - 1]];
  }

  /** The request an echo was rendered from, if the text has the echo's shape. */
  function ParseResponse(text: string): (r: Option<Request>)
    ensures r.Some? ==> RenderResponse(r.value) == text
  {
    if |text| < |Intro| + 1 || text[..|Intro|] != Intro || text[|text| - 1] != '\n' then None
    else
      var rest := text[|Intro|..|text| - 1];
      var r := ParseSections(rest);
      if r.Some? then
        FramedSections(r.value);
        Unframe(text, Intro, rest);
        r
      else None
  }

  /** Every verb reads back as itself. */
  lemma MethodRoundTrip(m: Method)
    ensures ParseMethod(MethodName(m)) == Some(m)
  {
  }

  /** A well-formed header reads back from its line. */
  lemma HeaderLineRoundTrip(h: Header)
    requires ':' !in h.0
    ensures ParseHeaderLine(HeaderLine(h)) == Some(h)
  {
    FirstAfterFree(h.0, ": ", h.1);
    CutAround(h.0, ": ", h.1);
  }

  /** The lines of well-formed headers read back as those headers. */
  lemma {:induction false} HeaderLinesRoundTrip(hs: seq<Header>)
    requires forall i :: 0 <= i < |hs| ==> WellFormedHeader(hs[i])
    ensures ParseHeaderLines(HeaderLines(hs)) == Some(hs)
  {
    if hs != [] {
      var lines := HeaderLines(hs);
      assert lines[1..] == HeaderLines(hs[1..]);
      HeaderLineRoundTrip(hs[0]);
      HeaderLinesRoundTrip(hs[1..]);
      assert [hs[0]] + hs[1..] == hs;
    }
  }

  /** The header block of well-formed headers reads back as the headers, in arrival order. */
  lemma HeadersRoundTrip(hs: seq<Header>)
    requires forall i :: 0 <= i < |hs| ==> WellFormedHeader(hs[i])
    ensures ParseHeaders(RenderHeaders(hs)) == Some(hs)
  {
    HeaderBlockShape(hs);
    HeaderLinesRoundTrip(hs);
  }

  /** The sections of a request with well-formed headers read back as that request. */
  lemma SectionsRoundTrip(req: Request)
    requires forall i :: 0 <= i < |req.headers| ==> WellFormedHeader(req.headers[i])
    ensures ParseSections(Sections(req)) == Some(req)
  {
    var h, m, b := RenderHeaders(req.headers), MethodName(req.verb), req.body;
    var after := m + BodyHeading + b;
    HeaderBlockShape(req.headers);
    FirstSeparator(h, MethodHeading, after);
    CutAround(h, MethodHeading, after);
    NoBreakNoParagraphBreak(m);
    FirstSeparator(m, BodyHeading, b);
    CutAround(m, BodyHeading, b);
    HeadersRoundTrip(req.headers);
    MethodRoundTrip(req.verb);
  }

  /**
   * The echo is lossless: reading the response of a request whose headers
   * are well formed gives back that very request.
   */
  lemma EchoRoundTrip(req: Request)
    requires forall i :: 0 <= i < |req.headers| ==> WellFormedHeader(req.headers[i])
    ensures ParseResponse(RenderResponse(req)) == Some(req)
  {
    var h, m, b := RenderHeaders(req.headers), MethodName(req.verb), req.body;
    SectionsRoundTrip(req);
    FramedSections(req);
    var text := RenderResponse(req);
    assert text[..|Intro|] == Intro;
    assert text[|Intro|..|text| - 1] == Sections(req);
  }

  /** Two requests with well-formed headers never produce the same echo. */
  lemma EchoInjective(a: Request, b: Request)
    requires forall i :: 0 <= i < |a.headers| ==> WellFormedHeader(a.headers[i])
    requires forall i :: 0 <= i < |b.headers| ==> WellFormedHeader(b.headers[i])
    requires RenderResponse(a) == RenderResponse(b)
    ensures a == b
  {
    EchoRoundTrip(a);
    EchoRoundTrip(b);
  }
}
