/** The access-log middleware's contribution to the metrics: after the handler
    returns normally, the request is recorded under its raw path with the status the
    wrapper captured and the elapsed time. Timing and log output are inputs or
    left out; only the hand-over to the aggregator is modelled. */
module AccessLog {
  import opened PathKey
  import opened Aggregator
  import opened Capture

  /** One request through the middleware: `headerWrites` are the handler's
      calls to `WriteHeader`, `elapsed` the measured duration. When a forwarded
      write carries a code the wrapped writer rejects, its panic unwinds the
      handler before the middleware records anything, so the aggregator is
      unchanged. Otherwise the raw path is recorded, whatever the handler made
      of it, with the captured status (the last header written, or 200 when
      none was), and the aggregator moves by one `Record` step, so every other
      key and every other code of this key is untouched. */
  function ServeRequest(m: Metrics, path: string, headerWrites: seq<int>, elapsed: Nanos): (r: Metrics)
    ensures ForwardPanics(headerWrites) ==> r == m
    ensures !ForwardPanics(headerWrites) ==>
      var k := Normalize(path);
      var status := CapturedStatus(headerWrites);
      && r.Total(k) == m.Total(k) + 1
      && r.StatusCount(k, status) == m.StatusCount(k, status) + 1
      && r.Durations(k) == m.Durations(k) + [elapsed]
      && (forall c :: c != status ==> r.StatusCount(k, c) == m.StatusCount(k, c))
      && r.CodesOf(k).Keys == m.CodesOf(k).Keys + {status}
    ensures !ForwardPanics(headerWrites) ==>
      forall k :: k != Normalize(path) ==>
        && r.Total(k) == m.Total(k)
        && r.CodesOf(k) == m.CodesOf(k)
        && r.Durations(k) == m.Durations(k)
    ensures !ForwardPanics(headerWrites) ==>
      && r.totalRequests.Keys == m.totalRequests.Keys + {Normalize(path)}
      && r.statusCodes.Keys == m.statusCodes.Keys + {Normalize(path)}
      && r.requestDurations.Keys == m.requestDurations.Keys + {Normalize(path)}
  {
    if ForwardPanics(headerWrites) then m
    else Record(m, path, CapturedStatus(headerWrites), elapsed)
  }

  /** A backend status the HTTP client accepts but the server's writer
      rejects, such as 99, leaves no trace in the metrics. */
  lemma OutOfRangeStatusNotRecorded(m: Metrics)
    ensures ServeRequest(m, "/", [99], 0) == m
    ensures ServeRequest(m, "/", [1000], 0) == m
  {
  }

  /** Serving a request keeps the aggregator consistent. */
  lemma ServeRequestPreservesConsistent(m: Metrics, path: string, headerWrites: seq<int>, elapsed: Nanos)
    requires Consistent(m)
    ensures Consistent(ServeRequest(m, path, headerWrites, elapsed))
  {
    if !ForwardPanics(headerWrites) {
      RecordPreservesConsistent(m, path, CapturedStatus(headerWrites), elapsed);
    }
  }
}
