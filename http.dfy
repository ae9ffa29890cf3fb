/** The parts of Node's http module the core touches: a request's method, URL
    and headers, and a response whose status, headers and write/end calls are
    recorded as they are made. */
module Http {
  import opened Base

  /** A response header value: http.ServerResponse accepts numbers, strings and lists. */
  datatype HeaderValue = Num(n: int) | Text(s: string) | List(items: seq<string>)

  /** An incoming request; header names are lower case, as Node delivers them. */
  datatype Request = Request(verb: string, url: string, headers: map<string, string>)

  /** The first argument of res.write / res.end: missing, a string, or a Buffer. */
  datatype Chunk = Absent | Str(s: string) | Buf(bytes: seq<Byte>)

  /** One call made on a response. */
  datatype Call = Write(chunk: Chunk) | End(chunk: Chunk)

  class ServerResponse {
    var statusCode: int
    var headers: map<string, HeaderValue>
    /** Every write and end call the response received, in order. */
    var calls: seq<Call>

    constructor ()
      ensures statusCode == 200 && headers == map[] && calls == []
    {
      statusCode := 200;
      headers := map[];
      calls := [];
    }

    function GetHeader(name: string): (v: Option<HeaderValue>)
      reads this
      ensures v.Some? <==> name in headers
      ensures v.Some? ==> v.value == headers[name]
    {
      if name in headers then Some(headers[name]) else None
    }

    method SetHeader(name: string, value: HeaderValue)
      modifies this
      ensures headers == old(headers)[name := value]
      ensures statusCode == old(statusCode) && calls == old(calls)
    {
      headers := headers[name := value];
    }

    method RemoveHeader(name: string)
      modifies this
      ensures headers == old(headers) - {name}
      ensures statusCode == old(statusCode) && calls == old(calls)
    {
      headers := headers - {name};
    }

    /** res.write / res.end as received by the original response. */
    method Receive(call: Call)
      modifies this
      ensures calls == old(calls) + [call]
      ensures statusCode == old(statusCode) && headers == old(headers)
    {
      calls := calls + [call];
    }
  }
}
