/**
 The parts of Go's `net/http` request and response objects the handlers rely
 on. A request is a value: method, headers, query parameters and the body's
 reads. The response writer is an object the handler mutates: its header map
 stays editable until the first final status is written, which fixes the
 status and sends the header as it then stands; later calls to `WriteHeader`
 are ignored and later header edits are not sent.
 */
module Http {
  import opened Stream

  /** An incoming request; `verb` is Go's `r.Method`. */
  datatype Request = Request(
    verb: string,
    header: map<string, string>,
    query: map<string, string>,
    body: seq<ReadResult>)

  /** `Header.Get` and `Values.Get`: the value, or "" when the key is absent. */
  function Get(m: map<string, string>, key: string): (v: string)
    ensures key in m ==> v == m[key]
    ensures key !in m ==> v == ""
  {
    if key in m then m[key] else ""
  }

  class ResponseWriter {
    /** `w.Header()`: the header map the handler edits. */
    var header: map<string, string>
    /** The final status sent, or 0 while none has been sent. */
    var status: nat
    /** The header as it was when the final status was sent. */
    var sentHeader: map<string, string>
    var body: string

    constructor ()
      ensures header == map[] && status == 0 && sentHeader == map[] && body == ""
    {
      header, status, sentHeader, body := map[], 0, map[], "";
    }

    /** `w.Header().Set(key, value)` */
    method SetHeader(key: string, value: string)
      modifies this
      ensures header == old(header)[key := value]
      ensures status == old(status) && sentHeader == old(sentHeader) && body == old(body)
    {
      header := header[key := value];
    }

    /** `w.WriteHeader(code)` for a final (non-informational) status. */
    method WriteHeader(code: nat)
      requires 200 <= code <= 599
      modifies this
      ensures header == old(header) && body == old(body)
      ensures old(status) == 0 ==> status == code && sentHeader == old(header)
      ensures old(status) != 0 ==> status == old(status) && sentHeader == old(sentHeader)
    {
      if status == 0 {
        status, sentHeader := code, header;
      }
    }

    /** `w.Write(data)`: sends status 200 first if no status was sent yet. */
    method Write(data: string)
      modifies this
      ensures header == old(header) && body == old(body) + data
      ensures old(status) == 0 ==> status == 200 && sentHeader == old(header)
      ensures old(status) != 0 ==> status == old(status) && sentHeader == old(sentHeader)
    {
      if status == 0 {
        status, sentHeader := 200, header;
      }
      body := body + data;
    }
  }

  /** `http.Error(w, msg, code)`: the status, then the message and a newline. */
  method Error(w: ResponseWriter, msg: string, code: nat)
    requires 200 <= code <= 599
    modifies w
    ensures w.header == old(w.header) && w.body == old(w.body) + (msg + "\n")
    ensures old(w.status) == 0 ==> w.status == code && w.sentHeader == old(w.header)
    ensures old(w.status) != 0 ==> w.status == old(w.status) && w.sentHeader == old(w.sentHeader)
  {
    w.WriteHeader(code);
    w.Write(msg + "\n");
  }

  /**
   How an ingestion leaves a response that had no status yet: an error is
   reported with status 500 and its message; otherwise nothing is sent.
   */
  predicate Reported(w: ResponseWriter, header0: map<string, string>, body0: string, err: Option<string>)
    reads w
  {
    && w.header == header0
    && if err.Some? then w.status == 500 && w.sentHeader == header0 && w.body == body0 + (err.value + "\n")
       else w.status == 0 && w.body == body0
  }
}
