/** `request_response_logger` (src/middlewares/request_logger_middleware.py) over
    Starlette's header lists: request and response headers are `(name, value)` lists,
    looked up without regard to ASCII case, and response header names are stored
    lower-cased. The two fresh `uuid4()` strings are parameters; timing and logging are
    not modelled. */
module RequestLogger {
  import opened Wrappers
  import opened Text

  type Headers = seq<(string, string)>

  /** `headers.get(name)`: the value of the first entry whose name matches. */
  function HeaderGet(hs: Headers, name: string): Option<string> {
    if hs == [] then None
    else if Lower(hs[0].0) == Lower(name) then Some(hs[0].1)
    else HeaderGet(hs[1..], name)
  }

  /** The lookup finds a value exactly when some entry has the name, and then it is the
      value of the first such entry. */
  lemma {:induction false} HeaderGetSpec(hs: Headers, name: string)
    ensures HeaderGet(hs, name).Some? <==> exists i :: 0 <= i < |hs| && Lower(hs[i].0) == Lower(name)
    ensures HeaderGet(hs, name).Some? ==>
            exists i :: && 0 <= i < |hs| && Lower(hs[i].0) == Lower(name) && hs[i].1 == HeaderGet(hs, name).value
                        && forall j :: 0 <= j < i ==> Lower(hs[j].0) != Lower(name)
    decreases |hs|
  {
    if hs != [] && Lower(hs[0].0) != Lower(name) {
      HeaderGetSpec(hs[1..], name);
      assert forall i :: 0 <= i < |hs[1..]| ==> hs[1..][i] == hs[i + 1];
      if HeaderGet(hs, name).Some? {
        var i :| && 0 <= i < |hs[1..]| && Lower(hs[1..][i].0) == Lower(name)
                 && hs[1..][i].1 == HeaderGet(hs, name).value
                 && forall j :: 0 <= j < i ==> Lower(hs[1..][j].0) != Lower(name);
        assert forall j :: 0 <= j < i + 1 ==> Lower(hs[j].0) != Lower(name) by {
          forall j | 0 <= j < i + 1 ensures Lower(hs[j].0) != Lower(name) {
            if j > 0 {
              assert hs[j] == hs[1..][j - 1];
            }
          }
        }
      }
    }
  }

  /** The lookup ignores the case of the name. */
  lemma {:induction false} HeaderGetLower(hs: Headers, name: string)
    ensures HeaderGet(hs, Lower(name)) == HeaderGet(hs, name)
    decreases |hs|
  {
    LowerIdempotent(name);
    if hs != [] {
      HeaderGetLower(hs[1..], name);
    }
  }

  /** `headers.get(name, generated)`. */
  function SelectId(hs: Headers, name: string, generated: string): (r: string)
    ensures HeaderGet(hs, name).Some? ==> r == HeaderGet(hs, name).value
    ensures HeaderGet(hs, name).None? ==> r == generated
  {
    HeaderGet(hs, name).GetOr(generated)
  }

  predicate LowerKeys(hs: Headers) {
    forall i :: 0 <= i < |hs| ==> Lower(hs[i].0) == hs[i].0
  }

  /** `response.headers[name] = value` (`MutableHeaders.__setitem__`): the first entry with
      that name gets the value, later ones are dropped; with none, the entry is appended. */
  function SetHeader(hs: Headers, name: string, value: string): Headers {
    SetFrom(hs, Lower(name), value, false)
  }

  function SetFrom(hs: Headers, key: string, value: string, found: bool): (r: Headers)
    decreases |hs|
  {
    if hs == [] then (if found then [] else [(key, value)])
    else if hs[0].0 == key then
      (if found then [] else [(key, value)]) + SetFrom(hs[1..], key, value, true)
    else [hs[0]] + SetFrom(hs[1..], key, value, found)
  }

  /** The entries whose name is not `key`, in order. */
  function Others(hs: Headers, key: string): (r: Headers)
    ensures forall i :: 0 <= i < |r| ==> r[i].0 != key
  {
    if hs == [] then []
    else (if hs[0].0 == key then [] else [hs[0]]) + Others(hs[1..], key)
  }

  lemma LowerIdempotent(s: string)
    ensures Lower(Lower(s)) == Lower(s)
  {
  }

  /** Setting a header keeps every other entry, in order, and the names lower-cased. */
  lemma {:induction false} SetFromOthers(hs: Headers, key: string, value: string, found: bool)
    requires LowerKeys(hs) && Lower(key) == key
    ensures Others(SetFrom(hs, key, value, found), key) == Others(hs, key)
    ensures LowerKeys(SetFrom(hs, key, value, found))
    decreases |hs|
  {
    if hs != [] {
      assert LowerKeys(hs[1..]) by {
        forall i | 0 <= i < |hs[1..]| ensures Lower(hs[1..][i].0) == hs[1..][i].0 {
          assert hs[1..][i] == hs[i + 1];
        }
      }
      SetFromOthers(hs[1..], key, value, hs[0].0 == key || found);
      var rest := SetFrom(hs[1..], key, value, hs[0].0 == key || found);
      var r := SetFrom(hs, key, value, found);
      assert Others(hs, key) == (if hs[0].0 == key then [] else [hs[0]]) + Others(hs[1..], key);
      if hs[0].0 == key {
        assert Others(hs, key) == Others(hs[1..], key);
        if !found {
          assert r == [(key, value)] + rest;
          assert Others(r, key) == Others(rest, key) by { assert r[1..] == rest; }
        } else {
          assert r == rest;
        }
      } else {
        assert r == [hs[0]] + rest;
        assert r[1..] == rest;
      }
    }
  }

  /** After setting, the header reads back the new value. */
  lemma {:induction false} SetFromGet(hs: Headers, key: string, value: string, found: bool)
    requires LowerKeys(hs) && Lower(key) == key
    requires !found
    ensures HeaderGet(SetFrom(hs, key, value, found), key) == Some(value)
    decreases |hs|
  {
    if hs != [] && hs[0].0 != key {
      assert LowerKeys(hs[1..]) by {
        forall i | 0 <= i < |hs[1..]| ensures Lower(hs[1..][i].0) == hs[1..][i].0 {
          assert hs[1..][i] == hs[i + 1];
        }
      }
      SetFromGet(hs[1..], key, value, found);
      var r := SetFrom(hs, key, value, found);
      assert r[1..] == SetFrom(hs[1..], key, value, found);
      assert Lower(hs[0].0) != Lower(key);
    }
  }

  /** The value of any other header is what it was. */
  lemma {:induction false} SetFromGetOther(hs: Headers, key: string, value: string, found: bool, name: string)
    requires LowerKeys(hs) && Lower(key) == key && Lower(name) != key
    ensures HeaderGet(SetFrom(hs, key, value, found), name) == HeaderGet(hs, name)
    decreases |hs|
  {
    if hs != [] {
      SetFromGetOther(hs[1..], key, value, hs[0].0 == key || found, name) by {
        forall i | 0 <= i < |hs[1..]| ensures Lower(hs[1..][i].0) == hs[1..][i].0 {
          assert hs[1..][i] == hs[i + 1];
        }
      }
      var rest := SetFrom(hs[1..], key, value, hs[0].0 == key || found);
      var r := SetFrom(hs, key, value, found);
      if hs[0].0 == key {
        assert Lower(hs[0].0) != Lower(name);
        if !found {
          assert r[1..] == rest;
          assert Lower(r[0].0) != Lower(name);
        } else {
          assert r == rest;
        }
      } else {
        assert r[1..] == rest;
      }
    }
  }

  /** `response.headers[name] = value` sets that header and leaves every other one. */
  lemma SetHeaderSpec(hs: Headers, name: string, value: string)
    requires LowerKeys(hs)
    ensures HeaderGet(SetHeader(hs, name, value), name) == Some(value)
    ensures forall other :: Lower(other) != Lower(name) ==>
              HeaderGet(SetHeader(hs, name, value), other) == HeaderGet(hs, other)
    ensures Others(SetHeader(hs, name, value), Lower(name)) == Others(hs, Lower(name))
    ensures LowerKeys(SetHeader(hs, name, value))
  {
    LowerIdempotent(name);
    SetFromGet(hs, Lower(name), value, false);
    HeaderGetLower(SetFrom(hs, Lower(name), value, false), name);
    forall other | Lower(other) != Lower(name)
      ensures HeaderGet(SetHeader(hs, name, value), other) == HeaderGet(hs, other)
    {
      SetFromGetOther(hs, Lower(name), value, false, other);
    }
    SetFromOthers(hs, Lower(name), value, false);
  }

  class Request {
    const headers: Headers
    var requestId: Option<string>
    var correlationId: Option<string>

    constructor(headers: Headers)
      ensures this.headers == headers && requestId.None? && correlationId.None?
    {
      this.headers := headers;
      requestId := None;
      correlationId := None;
    }
  }

  class Response {
    const status: int
    var headers: Headers

    constructor(status: int, headers: Headers)
      ensures this.status == status && this.headers == headers
    {
      this.status := status;
      this.headers := headers;
    }
  }

  /** `call_next`: the rest of the application. It records the ids it finds on the
      request state and returns its response. */
  class Downstream {
    const response: Response
    var seenRequestId: Option<string>
    var seenCorrelationId: Option<string>

    constructor(response: Response)
      ensures this.response == response && seenRequestId.None? && seenCorrelationId.None?
    {
      this.response := response;
      seenRequestId := None;
      seenCorrelationId := None;
    }

    method CallNext(request: Request) returns (r: Response)
      modifies this
      ensures r == response
      ensures seenRequestId == request.requestId && seenCorrelationId == request.correlationId
    {
      seenRequestId := request.requestId;
      seenCorrelationId := request.correlationId;
      r := response;
    }
  }

  const RequestIdHeader := "x-request-id"
  const CorrelationIdHeader := "x-correlation-id"

  /** `request_response_logger`: pick the ids, store them on the request state, call the
      application, and echo both ids on its response. */
  method RequestResponseLogger(request: Request, next: Downstream, freshRequestId: string, freshCorrelationId: string)
    returns (response: Response)
    modifies request, next, next.response
    ensures var rid := SelectId(request.headers, RequestIdHeader, freshRequestId);
            var cid := SelectId(request.headers, CorrelationIdHeader, freshCorrelationId);
            && request.requestId == Some(rid) && request.correlationId == Some(cid)
            && next.seenRequestId == Some(rid) && next.seenCorrelationId == Some(cid)
            && response == next.response
            && response.headers == SetHeader(SetHeader(old(next.response.headers), "X-Request-ID", rid),
                                             "X-Correlation-ID", cid)
  {
    var requestId := SelectId(request.headers, RequestIdHeader, freshRequestId);
    var correlationId := SelectId(request.headers, CorrelationIdHeader, freshCorrelationId);
    request.requestId := Some(requestId);
    request.correlationId := Some(correlationId);
    response := next.CallNext(request);
    response.headers := SetHeader(response.headers, "X-Request-ID", requestId);
    response.headers := SetHeader(response.headers, "X-Correlation-ID", correlationId);
  }

  /** The echoed headers carry the ids, and every other response header is as the
      application left it. */
  lemma EchoSpec(hs: Headers, rid: string, cid: string)
    requires LowerKeys(hs)
    ensures var out := SetHeader(SetHeader(hs, "X-Request-ID", rid), "X-Correlation-ID", cid);
            && HeaderGet(out, RequestIdHeader) == Some(rid)
            && HeaderGet(out, CorrelationIdHeader) == Some(cid)
            && forall other :: Lower(other) != RequestIdHeader && Lower(other) != CorrelationIdHeader ==>
                 HeaderGet(out, other) == HeaderGet(hs, other)
  {
    var mid := SetHeader(hs, "X-Request-ID", rid);
    var out := SetHeader(mid, "X-Correlation-ID", cid);
    SetHeaderSpec(hs, "X-Request-ID", rid);
    SetHeaderSpec(mid, "X-Correlation-ID", cid);
    HeaderNames();
    HeaderGetLower(out, "X-Request-ID");
    HeaderGetLower(mid, "X-Request-ID");
    HeaderGetLower(out, "X-Correlation-ID");
  }

  /** The header names as Starlette stores them. */
  lemma HeaderNames()
    ensures Lower("X-Request-ID") == RequestIdHeader && Lower("X-Correlation-ID") == CorrelationIdHeader
    ensures Lower(RequestIdHeader) == RequestIdHeader && Lower(CorrelationIdHeader) == CorrelationIdHeader
    ensures RequestIdHeader != CorrelationIdHeader
  {
  }
}
