/** The metrics aggregator: three maps keyed by normalised path, updated together
    by one `Record` step. The read/write lock of simple-rest-go's `Metrics` is
    modelled as atomicity: every `Record` is one sequential step on an immutable value, and a
    run of the server is a sequence of such steps from the empty state. */
module Aggregator {
  import opened PathKey

  /** The key of all three maps: a normalised path. */
  type Key = string

  /** A duration in whole nanoseconds. `RecordRequest` receives a
      `time.Duration`, which counts nanoseconds, and stores it as float64
      seconds; the model keeps the integer count. The only caller passes a
      monotonic-clock `time.Since`, which is never negative. */
  type Nanos = nat

  datatype Metrics = Metrics(
    totalRequests: map<Key, nat>,
    statusCodes: map<Key, map<int, nat>>,
    requestDurations: map<Key, seq<Nanos>>)
  {
    /** Reading a map in Go yields the zero value for a missing key; these
        accessors read the three maps the same way. */
    function Total(k: Key): (n: nat) {
      if k in totalRequests then totalRequests[k] else 0
    }

    function CodesOf(k: Key): (codes: map<int, nat>) {
      if k in statusCodes then statusCodes[k] else map[]
    }

    function StatusCount(k: Key, code: int): (n: nat) {
      var codes := CodesOf(k);
      if code in codes then codes[code] else 0
    }

    function Durations(k: Key): (ds: seq<Nanos>) {
      if k in requestDurations then requestDurations[k] else []
    }
  }

  /** The sum of all per-code counters of one key. */
  ghost function SumCodes(codes: map<int, nat>): (total: nat)
    decreases |codes.Keys|
  {
    if codes.Keys == {} then 0
    else
      var c := PickCode(codes);
      codes[c] + SumCodes(codes - {c})
  }

  /** Some code of a non-empty counter map. */
  ghost function PickCode(codes: map<int, nat>): (c: int)
    requires codes.Keys != {}
    ensures c in codes
  {
    SomeCodeExists(codes);
    var c :| c in codes.Keys; c
  }

  lemma SomeCodeExists(codes: map<int, nat>)
    requires codes.Keys != {}
    ensures exists c :: c in codes.Keys
  {
    if forall c :: c !in codes.Keys {
      assert false;
    }
  }

  /** Every code listed in a per-code counter map was counted at least once. */
  predicate CodesSeen(codes: map<int, nat>) {
    forall c :: c in codes ==> codes[c] > 0
  }

  /** What the lock protects for one key: it is a normalised key with at
      least one request, one duration per request, and per-code counters that
      were each seen at least once and add up to its total. */
  ghost predicate KeyConsistent(m: Metrics, k: Key) {
    && IsKey(k)
    && m.Total(k) > 0
    && |m.Durations(k)| == m.Total(k)
    && CodesSeen(m.CodesOf(k))
    && SumCodes(m.CodesOf(k)) == m.Total(k)
  }

  /** What the lock protects: the three maps have one key set, and every key
      in it is consistent. */
  ghost predicate Consistent(m: Metrics) {
    && m.statusCodes.Keys == m.totalRequests.Keys
    && m.requestDurations.Keys == m.totalRequests.Keys
    && (forall k :: k in m.totalRequests ==> KeyConsistent(m, k))
  }

  /** The aggregator as constructed at start-up: all three maps empty. */
  function NewMetrics(): (m: Metrics)
    ensures Consistent(m)
    ensures forall k :: m.Total(k) == 0 && m.Durations(k) == [] && m.CodesOf(k) == map[]
  {
    Metrics(map[], map[], map[])
  }

  /** One request for raw path `path` answered with `code` after `d` nanoseconds:
      the key's total and its counter for `code` each go up by exactly one (from
      zero when absent), `code` is the only code the key's counter map gains,
      `d` is appended to the key's durations, and nothing else changes. */
  function Record(m: Metrics, path: string, code: int, d: Nanos): (r: Metrics)
    ensures var k := Normalize(path);
      && r.Total(k) == m.Total(k) + 1
      && r.StatusCount(k, code) == m.StatusCount(k, code) + 1
      && r.Durations(k) == m.Durations(k) + [d]
    ensures forall c :: c != code ==>
      r.StatusCount(Normalize(path), c) == m.StatusCount(Normalize(path), c)
    ensures r.CodesOf(Normalize(path)).Keys == m.CodesOf(Normalize(path)).Keys + {code}
    ensures forall k :: k != Normalize(path) ==>
      && r.Total(k) == m.Total(k)
      && r.CodesOf(k) == m.CodesOf(k)
      && r.Durations(k) == m.Durations(k)
    ensures r.totalRequests.Keys == m.totalRequests.Keys + {Normalize(path)}
    ensures r.statusCodes.Keys == m.statusCodes.Keys + {Normalize(path)}
    ensures r.requestDurations.Keys == m.requestDurations.Keys + {Normalize(path)}
  {
    var k := Normalize(path);
    var codes := m.CodesOf(k);
    Metrics(
      m.totalRequests[k := m.Total(k) + 1],
      m.statusCodes[k := codes[code := m.StatusCount(k, code) + 1]],
      m.requestDurations[k := m.Durations(k) + [d]])
  }

  /** Removing one code splits the sum, whichever code is removed. */
  lemma {:induction false} SumCodesRemove(codes: map<int, nat>, c: int)
    requires c in codes
    ensures SumCodes(codes) == codes[c] + SumCodes(codes - {c})
    decreases |codes.Keys|
  {
    var c' := PickCode(codes);
    if c' != c {
      var rest := codes - {c'};
      assert c in rest;
      SumCodesRemove(rest, c);
      var rest' := codes - {c};
      assert c' in rest';
      SumCodesRemove(rest', c');
      assert rest - {c} == rest' - {c'};
    }
  }

  /** Setting one code's counter changes the sum by the difference. */
  lemma SumCodesUpdate(codes: map<int, nat>, c: int, v: nat)
    ensures c in codes ==> SumCodes(codes[c := v]) + codes[c] == SumCodes(codes) + v
    ensures c !in codes ==> SumCodes(codes[c := v]) == SumCodes(codes) + v
  {
    var updated := codes[c := v];
    SumCodesRemove(updated, c);
    assert updated - {c} == codes - {c};
    if c in codes {
      SumCodesRemove(codes, c);
    } else {
      assert codes - {c} == codes;
    }
  }

  /** A `Record` step keeps the aggregator consistent. */
  lemma RecordPreservesConsistent(m: Metrics, path: string, code: int, d: Nanos)
    requires Consistent(m)
    ensures Consistent(Record(m, path, code, d))
  {
    var k := Normalize(path);
    forall k' | k' in Record(m, path, code, d).totalRequests
      ensures KeyConsistent(Record(m, path, code, d), k')
    {
      if k' != k {
        RecordKeepsOtherKey(m, path, code, d, k');
      } else {
        RecordKeepsOwnKey(m, path, code, d);
      }
    }
  }

  /** A `Record` step leaves every other key as consistent as it was. */
  lemma RecordKeepsOtherKey(m: Metrics, path: string, code: int, d: Nanos, k: Key)
    requires k != Normalize(path) && KeyConsistent(m, k)
    ensures KeyConsistent(Record(m, path, code, d), k)
  {
    var r := Record(m, path, code, d);
    assert r.Total(k) == m.Total(k);
    assert r.CodesOf(k) == m.CodesOf(k);
    assert r.Durations(k) == m.Durations(k);
  }

  /** A `Record` step makes the recorded key consistent, whether it was new
      or consistent before. */
  lemma RecordKeepsOwnKey(m: Metrics, path: string, code: int, d: Nanos)
    requires var k := Normalize(path);
      && |m.Durations(k)| == m.Total(k)
      && CodesSeen(m.CodesOf(k))
      && SumCodes(m.CodesOf(k)) == m.Total(k)
    ensures KeyConsistent(Record(m, path, code, d), Normalize(path))
  {
    var k := Normalize(path);
    var r := Record(m, path, code, d);
    forall c | c in r.CodesOf(k)
      ensures r.CodesOf(k)[c] > 0
    {
      if c != code {
        assert r.CodesOf(k)[c] == m.StatusCount(k, c);
      }
    }
    RecordSumsCodes(m, path, code, d);
  }

  /** A `Record` step keeps the recorded key's per-code counters adding up to
      its total. */
  lemma RecordSumsCodes(m: Metrics, path: string, code: int, d: Nanos)
    requires SumCodes(m.CodesOf(Normalize(path))) == m.Total(Normalize(path))
    ensures var k := Normalize(path);
      SumCodes(Record(m, path, code, d).CodesOf(k)) == Record(m, path, code, d).Total(k)
  {
    var k := Normalize(path);
    var codes := m.CodesOf(k);
    var r := Record(m, path, code, d);
    assert r.CodesOf(k) == codes[code := m.StatusCount(k, code) + 1];
    SumCodesUpdate(codes, code, m.StatusCount(k, code) + 1);
  }

  /** One request as the access-log middleware hands it to the aggregator. */
  datatype Request = Request(path: string, code: int, duration: Nanos)

  /** The aggregator after the given requests were recorded one at a time, in
      order, from the start-up state. */
  function Replay(log: seq<Request>): (m: Metrics)
    decreases |log|
  {
    if |log| == 0 then NewMetrics()
    else
      var last := log[|log| - 1];
      Record(Replay(log[..|log| - 1]), last.path, last.code, last.duration)
  }

  /** From the start-up state, any sequence of `Record` steps leaves the
      aggregator consistent. */
  lemma {:induction false} ReplayConsistent(log: seq<Request>)
    ensures Consistent(Replay(log))
    decreases |log|
  {
    if |log| > 0 {
      var last := log[|log| - 1];
      ReplayConsistent(log[..|log| - 1]);
      RecordPreservesConsistent(Replay(log[..|log| - 1]), last.path, last.code, last.duration);
    }
  }

  /** Reference counts read directly off the request log. */
  function CountFor(log: seq<Request>, k: Key): (n: nat)
    decreases |log|
  {
    if |log| == 0 then 0
    else CountFor(log[..|log| - 1], k) + (if Normalize(log[|log| - 1].path) == k then 1 else 0)
  }

  function CountForCode(log: seq<Request>, k: Key, code: int): (n: nat)
    decreases |log|
  {
    if |log| == 0 then 0
    else
      var last := log[|log| - 1];
      CountForCode(log[..|log| - 1], k, code) + (if Normalize(last.path) == k && last.code == code then 1 else 0)
  }

  function DurationsFor(log: seq<Request>, k: Key): (ds: seq<Nanos>)
    decreases |log|
  {
    if |log| == 0 then []
    else
      var last := log[|log| - 1];
      DurationsFor(log[..|log| - 1], k) + (if Normalize(last.path) == k then [last.duration] else [])
  }

  /** No update is lost: after any sequence of requests, each key's total is
      the number of requests whose path normalises to that key. */
  lemma {:induction false} ReplayTotalMatchesLog(log: seq<Request>, k: Key)
    ensures Replay(log).Total(k) == CountFor(log, k)
    decreases |log|
  {
    if |log| > 0 {
      ReplayTotalMatchesLog(log[..|log| - 1], k);
    }
  }

  /** A key is present after any sequence of requests exactly when at least
      one of them has a path that normalises to it. */
  lemma {:induction false} ReplayKeysMatchLog(log: seq<Request>, k: Key)
    ensures k in Replay(log).totalRequests <==> CountFor(log, k) > 0
    decreases |log|
  {
    if |log| > 0 {
      var prefix := log[..|log| - 1];
      var last := log[|log| - 1];
      var key := Normalize(last.path);
      var prev := Replay(prefix);
      ReplayKeysMatchLog(prefix, k);
      assert Replay(log) == Record(prev, last.path, last.code, last.duration);
      assert CountFor(log, k) == CountFor(prefix, k) + (if key == k then 1 else 0);
      assert Replay(log).totalRequests.Keys == prev.totalRequests.Keys + {key};
    }
  }

  /** A code is listed under a key after any sequence of requests exactly when
      at least one of them has that key and that status code, so the metrics
      page never shows a zero counter. */
  lemma {:induction false} ReplayCodesMatchLog(log: seq<Request>, k: Key, code: int)
    ensures code in Replay(log).CodesOf(k) <==> CountForCode(log, k, code) > 0
    decreases |log|
  {
    if |log| > 0 {
      var prefix := log[..|log| - 1];
      var last := log[|log| - 1];
      var key := Normalize(last.path);
      var prev := Replay(prefix);
      ReplayCodesMatchLog(prefix, k, code);
      assert Replay(log) == Record(prev, last.path, last.code, last.duration);
      assert CountForCode(log, k, code)
        == CountForCode(prefix, k, code) + (if key == k && last.code == code then 1 else 0);
      if key == k {
        assert Replay(log).CodesOf(k).Keys == prev.CodesOf(k).Keys + {last.code};
      } else {
        assert Replay(log).CodesOf(k) == prev.CodesOf(k);
      }
    }
  }

  /** Each per-code counter of a key counts exactly the requests with that key
      and that status code. */
  lemma {:induction false} ReplayStatusMatchesLog(log: seq<Request>, k: Key, code: int)
    ensures Replay(log).StatusCount(k, code) == CountForCode(log, k, code)
    decreases |log|
  {
    if |log| > 0 {
      ReplayStatusMatchesLog(log[..|log| - 1], k, code);
    }
  }

  /** A key's durations are those of its requests, in arrival order. */
  lemma {:induction false} ReplayDurationsMatchLog(log: seq<Request>, k: Key)
    ensures Replay(log).Durations(k) == DurationsFor(log, k)
    decreases |log|
  {
    if |log| > 0 {
      ReplayDurationsMatchLog(log[..|log| - 1], k);
    }
  }

  /** Every request with the same raw path ends up in that path's total. */
  lemma {:induction false} SamePathCountsAll(log: seq<Request>, path: string)
    requires forall i :: 0 <= i < |log| ==> log[i].path == path
    ensures Replay(log).Total(Normalize(path)) == |log|
    decreases |log|
  {
    if |log| > 0 {
      SamePathCountsAll(log[..|log| - 1], path);
    }
  }
}
