/** The response writer wrapper of the access-log middleware: it remembers the
    status code of header writes and passes each write on to the wrapped writer. */
module Capture {

  /** The status the wrapper starts with, HTTP 200 OK. */
  const StatusOK: int := 200

  /** The captured status code and, in order, the header writes forwarded to
      the wrapped writer. */
  datatype ResponseWriter = ResponseWriter(statusCode: int, forwarded: seq<int>)

  /** A fresh wrapper around a writer nothing was written to yet. */
  function Wrap(): (rw: ResponseWriter) {
    ResponseWriter(StatusOK, [])
  }

  /** One header write: overwrite the captured code and forward the call. */
  function WriteHeader(rw: ResponseWriter, code: int): (r: ResponseWriter) {
    ResponseWriter(code, rw.forwarded + [code])
  }

  /** The header writes a handler performs, in order. */
  function WriteHeaders(rw: ResponseWriter, codes: seq<int>): (r: ResponseWriter)
    decreases |codes|
  {
    if |codes| == 0 then rw else WriteHeaders(WriteHeader(rw, codes[0]), codes[1..])
  }

  /** The last write wins, and every write reaches the wrapped writer unchanged
      and in order. */
  lemma {:induction false} WriteHeadersLastWins(rw: ResponseWriter, codes: seq<int>)
    ensures WriteHeaders(rw, codes).statusCode ==
      (if |codes| == 0 then rw.statusCode else codes[|codes| - 1])
    ensures WriteHeaders(rw, codes).forwarded == rw.forwarded + codes
    decreases |codes|
  {
    if |codes| > 0 {
      WriteHeadersLastWins(WriteHeader(rw, codes[0]), codes[1..]);
      assert rw.forwarded + [codes[0]] + codes[1..] == rw.forwarded + codes;
    }
  }

  /** The codes the wrapped net/http writer accepts: three-digit codes,
      100 to 999. Forwarding any other code makes its `WriteHeader` panic. */
  predicate IsValidCode(code: int) {
    100 <= code <= 999
  }

  /** Whether forwarding the handler's header writes panics: some write
      carries a code the wrapped writer rejects. */
  predicate ForwardPanics(codes: seq<int>) {
    exists i :: 0 <= i < |codes| && !IsValidCode(codes[i])
  }

  /** The status the middleware reads from the wrapper once the handler
      returns: 200 when the handler never wrote a header, otherwise the code
      of its last write. */
  function CapturedStatus(codes: seq<int>): (status: int)
    ensures |codes| == 0 ==> status == StatusOK
    ensures |codes| > 0 ==> status == codes[|codes| - 1]
  {
    WriteHeadersLastWins(Wrap(), codes);
    WriteHeaders(Wrap(), codes).statusCode
  }

  /** With two writes the second one is captured, not the first. */
  lemma LaterWriteOverrides()
    ensures CapturedStatus([404, 500]) == 500
  {
  }
}
