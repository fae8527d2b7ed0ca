# Demo API service: request echo and request counting

This project models the core of the demo API service in `Api-APP/src/app.py`:

- the `/api` view (`api_details`), which renders the request's headers, method and body into a fixed text template, counts the call in a labelled Prometheus counter and answers 200;
- the `REQUEST_COUNT` counter (`http_requests_total`, labels `method`, `endpoint`, `status_code`), modelled as a class whose `cells` field maps label values to counts;
- the two constant views: `metrics` (200, exposition content type) and `health_check` (200, `"API is running!"`).

Modules:

- `Text` (`text.dfy`): Python's `"\n".join`, `str.split("\n")`, `str.find` and `str(n)`/`int(s)` for naturals, with their round trips.
- `Metrics` (`metrics.dfy`): the labelled counter (`Labels`, `CountOf`, `Incremented`, class `Counter`).
- `Api` (`api.dfy`): requests, the header block, the response template, the counter child for an `/api` call, and class `ApiService`, which holds the counter and has the three views as methods.
- `Echo` (`echo.dfy`): reads an echo back into the request it came from. This proves the echo is lossless for headers that can arrive over HTTP.
- `Accounting` (`accounting.dfy`): the counter after any sequence of handled requests (`CountsAfter`), with exact counts, monotonicity and the shape of every child.

Inputs are plain values. A request is its verb (one of the four routed to `/api`), its header pairs in arrival order, and its body as decoded text. `ApiService.Metrics` and `ApiService.HealthCheck` have no `modifies` clause, so Dafny proves they change no counter child. `ApiService.ApiDetails` may modify only the counter, and its `ensures` says that exactly one child goes up by one. `Accounting.Step` and `Accounting.CountsAfter` lift these per-call effects to whole runs. `Accounting.Serve` runs the views one request after another and proves the counter ends where `CountsAfter` says.

## Model

| member | source | states |
|---|---|---|
| `Text.JoinLines` | Api-APP/src/app.py:32 | `"\n".join(lines)`: no text for no lines, otherwise exactly one break between each pair of neighbouring lines (length is the lines' total plus one less than their number). `JoinSplit` and `SplitJoin` state its inverse. |
| `Text.JoinSplit` | Api-APP/src/app.py:32 | Splitting a `"\n".join` result at line breaks and joining again gives back any text. |
| `Text.SplitJoin` | Api-APP/src/app.py:32 | Splitting `"\n".join(lines)` gives back the lines, when there is at least one line and none contains a line break. |
| `Text.JoinNoParagraphBreak` | Api-APP/src/app.py:32 | Joining non-empty, break-free lines never puts two line breaks in a row or a break at the end. |
| `Text.DecimalRoundTrip` | Api-APP/src/app.py:40 | Property of the helper `Decimal` that links the label literal `'200'` to the status literal `200`: reading a rendered number back gives the number. The service itself never converts. |
| `Text.DecimalInjective` | Api-APP/src/app.py:53 | Property of the same helper: distinct numbers have distinct texts, so a status label names one status only. `Api.StatusLabelDeterminesStatus` uses it. |
| `Metrics.Incremented` | Api-APP/src/app.py:40 | `labels(l).inc()` raises child `l` by exactly one, leaves every other child's value unchanged, and creates `l` if it was missing. |
| `Metrics.Counter.constructor` | Api-APP/src/app.py:7-11 | A new counter has the given name, help text and label names, and no children. |
| `Metrics.Counter.Inc` | Api-APP/src/app.py:40 | In place: the cells become `Incremented` of the old cells; the named child is one higher, all others unchanged. |
| `Api.ApiLabels` | Api-APP/src/app.py:40 | The child an `/api` call counts is (the verb's name, `"/api"`, `"200"`), and `"200"` is `str(200)`, the status the view returns. |
| `Api.MethodName` | Api-APP/src/app.py:33 | `request.method` for the four routed verbs: a non-empty name with no line break. `Echo.ParseMethod` and `Echo.MethodRoundTrip` state its inverse. |
| `Api.HeaderLine` | Api-APP/src/app.py:32 | The body is the f-string `f"{k}: {v}"` itself, with no contract. `Echo.ParseHeaderLine` and `Echo.HeaderLineRoundTrip` state its inverse. |
| `Api.HeaderLines` | Api-APP/src/app.py:32 | The list comprehension: one line per header, the i-th line rendering the i-th header, so arrival order is kept. |
| `Api.RenderHeaders` | Api-APP/src/app.py:32 | `headers_str` for any headers at all, well formed or not: empty exactly when there are no headers. `HeaderBlockShape` and `Echo.HeadersRoundTrip` state its other properties. |
| `Api.RenderResponse` | Api-APP/src/app.py:42-52 | The body is the f-string template `response_content` itself, with no contract. `ResponseOpening`, `ResponseClosing`, `EmptyBodyEnding`, `Echo.EchoRoundTrip` and `Echo.EchoInjective` state its properties. |
| `Api.StatusLabelDeterminesStatus` | Api-APP/src/app.py:40-53 | The status label recorded by an `/api` call is the text of status 200 and of no other status. |
| `Api.HeaderBlockShape` | Api-APP/src/app.py:32 | For well-formed headers with at least one header, the lines of `headers_str` are the `k: v` renderings in arrival order. The block has no empty line and does not end in a line break. |
| `Api.ResponseOpening` | Api-APP/src/app.py:42-45 | The echo starts with the fixed introduction and `***Headers***:` line, followed immediately by the header block. |
| `Api.ResponseClosing` | Api-APP/src/app.py:50-52 | The echo ends with `***Body***:\n`, then the body verbatim, then one line break. |
| `Api.EmptyBodyEnding` | Api-APP/src/app.py:34-52 | With an empty body the echo ends in `***Body***:\n\n`. |
| `Api.ApiService.constructor` | Api-APP/src/app.py:7-11 | `REQUEST_COUNT` is a fresh counter named `http_requests_total` with help text `Total HTTP Requests`, labels `method`, `endpoint`, `status_code`, and no children. |
| `Api.ApiService.ApiDetails` | Api-APP/src/app.py:27-53 | Child (verb, `"/api"`, `"200"`) goes up by one and every other child is unchanged. The response is the rendered template with status 200 and no extra headers. The recorded status label is the text of the returned status. |
| `Api.ApiService.Metrics` | Api-APP/src/app.py:55-61 | Status 200 with `Content-Type: text/plain; version=0.0.4; charset=utf-8`. The body exposes the counter's current cells. No `modifies` clause, so the counter is unchanged. |
| `Api.ApiService.HealthCheck` | Api-APP/src/app.py:63-68 | Always `"API is running!"` with status 200. No `modifies` clause, so the counter is unchanged. |
| `Echo.ParseMethod` | Api-APP/src/app.py:33 | A verb is read back only from its own name; any other text reads back as nothing. |
| `Echo.ParseHeaderLine` | Api-APP/src/app.py:32 | A line read back as `(k, v)` is exactly `k + ": " + v`. |
| `Echo.HeaderLineRoundTrip` | Api-APP/src/app.py:32 | The line of a header whose name has no colon reads back as that header. |
| `Echo.ParseHeaderLines` | Api-APP/src/app.py:32 | Headers read back from lines render to exactly those lines. |
| `Echo.HeaderLinesRoundTrip` | Api-APP/src/app.py:32 | The lines of well-formed headers read back as those headers, in order. |
| `Echo.ParseHeaders` | Api-APP/src/app.py:32 | Headers read back from a block render to exactly that block. |
| `Echo.HeadersRoundTrip` | Api-APP/src/app.py:32 | `headers_str` of well-formed headers reads back as the same headers in arrival order. |
| `Echo.ParseSections` | Api-APP/src/app.py:44-51 | A request read back from the text between introduction and final line break renders to exactly that text. |
| `Echo.SectionsRoundTrip` | Api-APP/src/app.py:44-51 | The headers, method and body sections of a request with well-formed headers read back as that request. |
| `Echo.ParseResponse` | Api-APP/src/app.py:42-52 | A request read back from a response text renders to exactly that text. |
| `Echo.EchoRoundTrip` | Api-APP/src/app.py:42-52 | For well-formed headers, reading the echo back gives the very request: method, headers in arrival order, and body verbatim. |
| `Echo.EchoInjective` | Api-APP/src/app.py:42-52 | Two requests with well-formed headers and the same echo are the same request. |
| `Accounting.Step` | Api-APP/src/app.py:40 | What one view does to `REQUEST_COUNT`: an `/api` call adds one to its own child and nothing elsewhere; a scrape or health check adds nothing. |
| `Accounting.CountsAfter` | Api-APP/src/app.py:7-11 | The counter after a sequence of handled requests. No child ends below its start value. |
| `Accounting.Serve` | Api-APP/src/app.py:27-68 | Running the three views on a sequence of requests leaves the counter at `CountsAfter` of its start value. Every response has status 200, and every `/api` response is the echo of its request. |
| `Accounting.CountsAfterExact` | Api-APP/src/app.py:40 | After any sequence of handled requests, each child equals its start value plus the number of `/api` calls counted under it. |
| `Accounting.CountsAfterAppend` | Api-APP/src/app.py:40 | Handling a sequence in two stretches leaves the counter as handling it in one. |
| `Accounting.CountsNeverDecrease` | Api-APP/src/app.py:7-11 | No child decreases: along any run, a later point reads at least the value of an earlier one. |
| `Accounting.ConstantEndpointsCountNothing` | Api-APP/src/app.py:55-68 | Runs of only scrapes and health checks leave every child unchanged. |
| `Accounting.ChildrenAreApiChildren` | Api-APP/src/app.py:40 | Starting from `/api` children only, every child ever created is an `/api` child of a routed verb, labelled `"200"`, the text of the status returned. |

## Left out

- Flask routing, the request object and the development server (`app.run`): the views take the verb, header pairs and body as plain values. Flask also runs a view that accepts GET for HEAD requests, which would count under method `"HEAD"`. The model keeps to the four verbs listed in the route.
- Reading `PORT` from the environment and the startup message: configuration and output.
- Werkzeug's body decoding in `request.get_data(as_text=True)`: the body is taken as already-decoded text.
- `generate_latest` and the exposition text format: `ApiService.Metrics` returns the counter's cells as the body instead of their text rendering.
- The commented-out connection gauge: dead code.
- Thread safety of counter updates under concurrent requests: the model handles requests one after another.
- Metrics.Counter.Inc: counts with unbounded naturals. The client library keeps floats, which agree with these counts only below 2^53 increments.
- Flask's default response headers (such as the `text/html` content type of string responses): `Response.headers` holds only the headers a view sets itself.
- Echo.EchoRoundTrip: proved only for headers whose names carry no colon and whose names and values carry no line break, which is all HTTP/1.1 lets through. Other header text can make two requests render alike.
