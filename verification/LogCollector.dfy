/** The access-log collector, proved against its specification. */
module AccessLog {
  import opened Options
  import opened UriCounters
  import opened LogMetrics

  class LogCollector {
    const cfg: Config
    const reqBuckets: array<nat>
    var reqSum: real
    var reqCount: nat
    const upBuckets: array<nat>
    var upSum: real
    var upCount: nat
    var statusCounts: map<string, nat>
    var taggedCounts: map<Tag, nat>
    var cacheCounts: map<string, nat>
    const uri5xx: Counters<StatusUri>
    const uri4xx: Counters<StatusUri>
    const bytesByUri: Counters<string>
    var bytesTotal: int

    ghost const Repr: set<object> := {this, reqBuckets, upBuckets, uri5xx, uri4xx, bytesByUri}

    ghost predicate Valid()
      reads Repr
    {
      && reqBuckets != upBuckets && uri5xx != uri4xx
      && reqBuckets.Length == upBuckets.Length == |BOUNDS| + 1
      && uri5xx.limit == uri4xx.limit == bytesByUri.limit == MAX_CARDINALITY_URI
    }

    ghost function RequestHistogram(): (h: Histogram)
      reads reqBuckets, this`reqSum, this`reqCount
      ensures |h.ranges| == reqBuckets.Length
    {
      Histogram(reqBuckets[..], reqSum, reqCount)
    }

    ghost function UpstreamHistogram(): (h: Histogram)
      reads upBuckets, this`upSum, this`upCount
      ensures |h.ranges| == upBuckets.Length
    {
      Histogram(upBuckets[..], upSum, upCount)
    }

    ghost function Abs(): (m: Metrics)
      requires Valid()
      reads Repr
      ensures Shaped(m)
    {
      Metrics(RequestHistogram(), UpstreamHistogram(), statusCounts, taggedCounts, cacheCounts,
              uri5xx.Abs(), uri4xx.Abs(), bytesByUri.Abs(), bytesTotal)
    }

    constructor (cfg: Config)
      ensures Valid() && Abs() == Fresh() && this.cfg == cfg
    {
      this.cfg := cfg;
      reqBuckets, upBuckets := new nat[|BOUNDS| + 1](i => 0), new nat[|BOUNDS| + 1](i => 0);
      reqSum, reqCount, upSum, upCount, bytesTotal := 0.0, 0, 0.0, 0, 0;
      statusCounts, taggedCounts, cacheCounts := map[], map[], map[];
      uri5xx := new Counters(MAX_CARDINALITY_URI);
      uri4xx := new Counters(MAX_CARDINALITY_URI);
      bytesByUri := new Counters(MAX_CARDINALITY_URI);
      new;
      assert reqBuckets[..] == Zeros(|BOUNDS| + 1) && upBuckets[..] == Zeros(|BOUNDS| + 1);
    }

    method CountStatus(p: Line)
      requires Valid() && p.status != ""
      modifies this`statusCounts, this`taggedCounts
      ensures statusCounts == if cfg.labelIdx == [] then Incremented(old(statusCounts), p.status) else old(statusCounts)
      ensures taggedCounts == if cfg.labelIdx == [] then old(taggedCounts) else CountedTag(old(taggedCounts), TagOf(cfg, p))
    {
      if |cfg.labelIdx| == 0 {
        statusCounts := Incremented(statusCounts, p.status);
      } else {
        var tag := TagKey(cfg, p);
        if tag in taggedCounts || |taggedCounts| < MAX_CARDINALITY_TAGGED {
          taggedCounts := Incremented(taggedCounts, tag);
        }
      }
    }

    method CountUri(p: Line, now: int)
      requires Valid()
      modifies uri5xx, uri4xx
      ensures uri5xx.Abs() == CountedUri(old(uri5xx.Abs()), p, now, '5')
      ensures uri4xx.Abs() == CountedUri(old(uri4xx.Abs()), p, now, '4')
    {
      if |p.status| > 0 && p.status[0] == '5' && p.uri != "" {
        uri5xx.Add(StatusUri(p.status, p.uri), StatusUri(p.status, OVERFLOW_MARKER), 1, now);
      }
      if |p.status| > 0 && p.status[0] == '4' && p.uri != "" {
        uri4xx.Add(StatusUri(p.status, p.uri), StatusUri(p.status, OVERFLOW_MARKER), 1, now);
      }
    }

    method CountBytes(p: Line, now: int)
      requires Valid() && p.status != ""
      modifies this`bytesTotal, bytesByUri
      ensures bytesByUri.Abs() == CountedBytes(old(bytesByUri.Abs()), cfg, p, now)
      ensures bytesTotal == old(bytesTotal) + match Bytes(cfg, p) { case Some(v) => v case None => 0 }
    {
      match cfg.parseInt(p.bodyBytes)
      case Some(v) =>
        bytesTotal := bytesTotal + v;
        if p.uri != "" {
          bytesByUri.Add(p.uri, OVERFLOW_MARKER, Unsigned(v), now);
        }
      case None =>
    }

    /** Everything that depends on a status being there. */
    method CountRequest(p: Line, now: int)
      requires Valid()
      modifies this`statusCounts, this`taggedCounts, this`bytesTotal, uri5xx, uri4xx, bytesByUri
      ensures Valid() && Abs() == CountedIn(old(Abs()), cfg, p, now)
    {
      if p.status != "" {
        CountStatus(p);
        CountUri(p, now);
        CountBytes(p, now);
      }
    }

    method TimeRequest(p: Line)
      requires Valid()
      modifies reqBuckets, this`reqSum, this`reqCount
      ensures RequestHistogram() == Timed(old(RequestHistogram()), cfg.parseFloat(p.requestTime))
    {
      match cfg.parseFloat(p.requestTime)
      case Some(v) =>
        reqCount, reqSum := reqCount + 1, reqSum + v;
        var i := BucketIndex(v);
        reqBuckets[i] := reqBuckets[i] + 1;
      case None =>
    }

    method TimeUpstream(p: Line)
      requires Valid()
      modifies upBuckets, this`upSum, this`upCount
      ensures UpstreamHistogram() == Timed(old(UpstreamHistogram()), UpstreamSeconds(cfg, p))
    {
      if p.upstreamTime != "" {
        match cfg.parseFloat(FirstUpstream(p.upstreamTime))
        case Some(v) =>
          upCount, upSum := upCount + 1, upSum + v;
          var i := BucketIndex(v);
          upBuckets[i] := upBuckets[i] + 1;
        case None =>
      }
    }

    method TimeLine(p: Line)
      requires Valid()
      modifies reqBuckets, upBuckets, this`reqSum, this`reqCount, this`upSum, this`upCount
      ensures Valid() && Abs() == TimedIn(old(Abs()), cfg, p)
    {
      TimeRequest(p);
      TimeUpstream(p);
    }

    method CountCache(p: Line)
      requires Valid()
      modifies this`cacheCounts
      ensures Valid() && Abs() == CachedIn(old(Abs()), p)
    {
      if p.cacheStatus != "" && p.cacheStatus != "-" {
        cacheCounts := Incremented(cacheCounts, p.cacheStatus);
      }
    }

    method RecordLine(p: Line, now: int)
      requires Valid()
      modifies Repr
      ensures Valid() && Abs() == Recorded(old(Abs()), cfg, p, now)
    {
      CountRequest(p, now);
      TimeLine(p);
      CountCache(p);
    }
  }

  method TagKey(cfg: Config, p: Line) returns (tag: Tag)
    ensures tag == TagOf(cfg, p)
  {
    var extra := [];
    var k := 0;
    while k < |cfg.labelIdx|
      invariant 0 <= k <= |cfg.labelIdx|
      invariant extra == TagOf(cfg, p).extra[..k]
    {
      var idx, v := cfg.labelIdx[k], "";
      if idx >= 0 && idx < |p.extras| {
        v := p.extras[idx];
      }
      if v == "-" {
        v := "";
      }
      extra := extra + [v];
      k := k + 1;
    }
    tag := Tag(p.status, extra);
  }

  method BucketIndex(v: real) returns (i: nat)
    ensures i == Bucket(v)
  {
    i := 0;
    while i < |BOUNDS|
      invariant 0 <= i <= |BOUNDS| && Bucket(v) == Bucket(v, i)
    {
      if v <= BOUNDS[i] {
        return;
      }
      i := i + 1;
    }
  }

  /** The running totals of the ranges, keyed by their bounds. */
  method CumulativeBuckets(bounds: seq<real>, ranges: seq<nat>) returns (result: map<real, nat>)
    requires |bounds| <= |ranges| && forall i, j :: 0 <= i < j < |bounds| ==> bounds[i] != bounds[j]
    ensures forall b :: b in result <==> b in bounds
    ensures forall i :: 0 <= i < |bounds| ==> bounds[i] in result && result[bounds[i]] == Running(ranges, i + 1)
  {
    result := map[];
    var cum := 0;
    var i := 0;
    while i < |bounds|
      invariant 0 <= i <= |bounds| && cum == Running(ranges, i)
      invariant forall b :: b in result ==> b in bounds
      invariant forall k :: 0 <= k < i ==> bounds[k] in result && result[bounds[k]] == Running(ranges, k + 1)
    {
      cum := cum + ranges[i];
      result := result[bounds[i] := cum];
      i := i + 1;
    }
    forall b | b in bounds
      ensures b in result
    {
      var k :| 0 <= k < |bounds| && bounds[k] == b;
    }
  }
}
