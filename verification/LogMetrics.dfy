/**
 * The accumulators behind recordLine (internal/topsrv/nginx/log.go) and what they hold after any
 * log.  Durations are exact reals; the two number parsers are parameters.
 */
module LogMetrics {
  import opened Options
  import opened Samples
  import opened Text
  import opened UriCounters

  const BOUNDS: seq<real> := [0.005, 0.01, 0.025, 0.05, 0.1, 0.25, 0.5, 1.0, 2.5, 5.0, 10.0]
  const MAX_CARDINALITY_URI := 1000
  const MAX_CARDINALITY_TAGGED: nat := 500
  const OVERFLOW_MARKER := "/:other"

  datatype Line = Line(
    status: string, uri: string, bodyBytes: string, requestTime: string, upstreamTime: string,
    cacheStatus: string, extras: seq<string>)

  datatype Logged = Logged(line: Line, now: int)

  /** `labelIdx[k]` is the position of label k among the extras, negative when there is none. */
  datatype Config = Config(parseInt: string -> Option<int>, parseFloat: string -> Option<real>, labelIdx: seq<int>)

  datatype StatusUri = StatusUri(status: string, uri: string)

  datatype Tag = Tag(status: string, extra: seq<string>)

  /** One count per range between bounds, the last for everything above. */
  datatype Histogram = Histogram(ranges: seq<nat>, sum: real, count: nat)

  datatype Metrics = Metrics(
    req: Histogram, up: Histogram, statuses: map<string, nat>, tagged: map<Tag, nat>, cache: map<string, nat>,
    uri5xx: Table<StatusUri>, uri4xx: Table<StatusUri>, bytesByUri: Table<string>, bytesTotal: int)

  // ----- histograms -----

  /** The first bound not below `v`, looking from the i-th on. */
  function Bucket(v: real, i: nat := 0): (r: nat)
    requires i <= |BOUNDS|
    ensures i <= r <= |BOUNDS| && (r < |BOUNDS| ==> v <= BOUNDS[r])
    ensures forall k :: i <= k < r ==> BOUNDS[k] < v
    decreases |BOUNDS| - i
  {
    if i == |BOUNDS| || v <= BOUNDS[i] then i else Bucket(v, i + 1)
  }

  function Zeros(n: nat): (r: seq<nat>)
    ensures |r| == n && forall i :: 0 <= i < n ==> r[i] == 0
  {
    seq(n, i => 0)
  }

  function EmptyHistogram(): Histogram {
    Histogram(Zeros(|BOUNDS| + 1), 0.0, 0)
  }

  function Observed(h: Histogram, v: real): Histogram
    requires |h.ranges| == |BOUNDS| + 1
  {
    Histogram(h.ranges[Bucket(v) := h.ranges[Bucket(v)] + 1], h.sum + v, h.count + 1)
  }

  function CountIn(obs: seq<real>, bucket: nat): nat {
    if obs == [] then 0
    else CountIn(obs[..|obs| - 1], bucket) + if Bucket(obs[|obs| - 1]) == bucket then 1 else 0
  }

  function Running(ranges: seq<nat>, n: nat): nat
    requires n <= |ranges|
  {
    if n == 0 then 0 else Running(ranges, n - 1) + ranges[n - 1]
  }

  ghost predicate Represents(h: Histogram, obs: seq<real>) {
    && |h.ranges| == |BOUNDS| + 1 && h.sum == Sum(obs) && h.count == |obs|
    && forall i :: 0 <= i <= |BOUNDS| ==> h.ranges[i] == CountIn(obs, i)
  }

  lemma ObservedRepresents(h: Histogram, obs: seq<real>, v: real)
    requires Represents(h, obs)
    ensures Represents(Observed(h, v), obs + [v])
  {
    assert (obs + [v])[..|obs|] == obs;
  }

  lemma BoundsAscend(j: nat, k: nat)
    requires j <= k < |BOUNDS|
    ensures BOUNDS[j] <= BOUNDS[k] && (j < k ==> BOUNDS[j] < BOUNDS[k])
  {
    assert BOUNDS[0] < BOUNDS[1] < BOUNDS[2] < BOUNDS[3] < BOUNDS[4] < BOUNDS[5];
    assert BOUNDS[5] < BOUNDS[6] < BOUNDS[7] < BOUNDS[8] < BOUNDS[9] < BOUNDS[10];
  }

  /** A value is in the first n ranges exactly when it does not exceed their last bound. */
  lemma BucketBelow(v: real, i: nat)
    requires i < |BOUNDS|
    ensures Bucket(v) <= i <==> v <= BOUNDS[i]
  {
    var b := Bucket(v);
    if b <= i {
      BoundsAscend(b, i);
    }
  }

  /** How many values fall in the first n ranges. */
  function CountBelow(obs: seq<real>, n: nat): nat {
    if obs == [] then 0 else CountBelow(obs[..|obs| - 1], n) + if Bucket(obs[|obs| - 1]) < n then 1 else 0
  }

  lemma {:induction false} CountBelowNext(obs: seq<real>, n: nat)
    ensures CountBelow(obs, n + 1) == CountBelow(obs, n) + CountIn(obs, n) && CountBelow(obs, 0) == 0
  {
    if obs != [] {
      CountBelowNext(obs[..|obs| - 1], n);
    }
  }

  lemma {:induction false} RunningCounts(h: Histogram, obs: seq<real>, n: nat)
    requires Represents(h, obs) && n <= |BOUNDS| + 1
    ensures Running(h.ranges, n) == CountBelow(obs, n)
  {
    CountBelowNext(obs, 0);
    if n > 0 {
      RunningCounts(h, obs, n - 1);
      CountBelowNext(obs, n - 1);
    }
  }

  lemma {:induction false} CountBelowIsAtMost(obs: seq<real>, i: nat)
    requires i < |BOUNDS|
    ensures CountBelow(obs, i + 1) == CountAtMost(obs, BOUNDS[i])
    ensures CountBelow(obs, |BOUNDS| + 1) == |obs|
  {
    if obs != [] {
      CountBelowIsAtMost(obs[..|obs| - 1], i);
      BucketBelow(obs[|obs| - 1], i);
    }
  }

  /**
   * Range counting refines direct counting: the cumulative value of every bound is the number of
   * recorded values not above it, and all ranges, the overflow included, add up to the count.
   */
  lemma CumulativeIsDirect(h: Histogram, obs: seq<real>, i: nat)
    requires Represents(h, obs) && i < |BOUNDS|
    ensures Running(h.ranges, i + 1) == CountAtMost(obs, BOUNDS[i])
    ensures Running(h.ranges, |BOUNDS| + 1) == h.count
  {
    RunningCounts(h, obs, i + 1);
    RunningCounts(h, obs, |BOUNDS| + 1);
    CountBelowIsAtMost(obs, i);
  }

  // ----- one line -----

  /** Several upstreams are separated by commas; only the first counts. */
  function FirstUpstream(s: string): string {
    var i := IndexOf(s, ',');
    if i > 0 then TrimSpace(s[..i]) else s
  }

  predicate IsClass(status: string, digit: char) {
    status != "" && status[0] == digit
  }

  function LabelValue(p: Line, idx: int): string {
    if 0 <= idx < |p.extras| && p.extras[idx] != "-" then p.extras[idx] else ""
  }

  function TagOf(cfg: Config, p: Line): Tag {
    Tag(p.status, seq(|cfg.labelIdx|, k requires 0 <= k < |cfg.labelIdx| => LabelValue(p, cfg.labelIdx[k])))
  }

  function Incremented<K>(m: map<K, nat>, key: K): map<K, nat> {
    m[key := (if key in m then m[key] else 0) + 1]
  }

  function UriHit(p: Line, now: int): Hit<StatusUri> {
    Hit(StatusUri(p.status, p.uri), StatusUri(p.status, OVERFLOW_MARKER), 1, now)
  }

  /** A negative size wraps when it becomes an unsigned count. */
  function Unsigned(v: int): nat {
    v % 0x1_0000_0000_0000_0000
  }

  function Bytes(cfg: Config, p: Line): Option<int> {
    if p.status == "" then None else cfg.parseInt(p.bodyBytes)
  }

  function UpstreamSeconds(cfg: Config, p: Line): Option<real> {
    if p.upstreamTime == "" then None else cfg.parseFloat(FirstUpstream(p.upstreamTime))
  }

  function CountedUri(t: Table<StatusUri>, p: Line, now: int, digit: char): Table<StatusUri> {
    if IsClass(p.status, digit) && p.uri != "" then Added(t, MAX_CARDINALITY_URI, UriHit(p, now)) else t
  }

  function CountedBytes(t: Table<string>, cfg: Config, p: Line, now: int): Table<string> {
    match Bytes(cfg, p)
    case Some(v) =>
      if p.uri != "" then Added(t, MAX_CARDINALITY_URI, Hit(p.uri, OVERFLOW_MARKER, Unsigned(v), now)) else t
    case None => t
  }

  function CountedTag(tagged: map<Tag, nat>, tag: Tag): map<Tag, nat> {
    if tag in tagged || |tagged| < MAX_CARDINALITY_TAGGED then Incremented(tagged, tag) else tagged
  }

  function Timed(h: Histogram, v: Option<real>): Histogram
    requires |h.ranges| == |BOUNDS| + 1
  {
    match v
    case Some(x) => Observed(h, x)
    case None => h
  }

  predicate Shaped(m: Metrics) {
    |m.req.ranges| == |m.up.ranges| == |BOUNDS| + 1
  }

  /** The counters that depend on a status being there. */
  function CountedIn(m: Metrics, cfg: Config, p: Line, now: int): Metrics {
    m.(statuses :=
         if p.status != "" && cfg.labelIdx == [] then Incremented(m.statuses, p.status) else m.statuses,
       tagged := if p.status != "" && cfg.labelIdx != [] then CountedTag(m.tagged, TagOf(cfg, p)) else m.tagged,
       uri5xx := CountedUri(m.uri5xx, p, now, '5'),
       uri4xx := CountedUri(m.uri4xx, p, now, '4'),
       bytesByUri := CountedBytes(m.bytesByUri, cfg, p, now),
       bytesTotal := m.bytesTotal + match Bytes(cfg, p) { case Some(v) => v case None => 0 })
  }

  /** The two histograms. */
  function TimedIn(m: Metrics, cfg: Config, p: Line): (n: Metrics)
    requires Shaped(m)
    ensures Shaped(n)
  {
    m.(req := Timed(m.req, cfg.parseFloat(p.requestTime)), up := Timed(m.up, UpstreamSeconds(cfg, p)))
  }

  /** The cache statuses. */
  function CachedIn(m: Metrics, p: Line): Metrics {
    if p.cacheStatus != "" && p.cacheStatus != "-" then m.(cache := Incremented(m.cache, p.cacheStatus)) else m
  }

  /** What one parsed line does to every accumulator. */
  function Recorded(m: Metrics, cfg: Config, p: Line, now: int): Metrics
    requires Shaped(m)
  {
    CachedIn(TimedIn(CountedIn(m, cfg, p, now), cfg, p), p)
  }

  function Fresh(): Metrics {
    Metrics(EmptyHistogram(), EmptyHistogram(), map[], map[], map[],
            Table(map[], 0), Table(map[], 0), Table(map[], 0), 0)
  }

  // ----- every log -----

  function AfterLog(cfg: Config, log: seq<Logged>): (m: Metrics)
    ensures Shaped(m)
  {
    if log == [] then Fresh()
    else Recorded(AfterLog(cfg, log[..|log| - 1]), cfg, log[|log| - 1].line, log[|log| - 1].now)
  }

  function ValueOf(v: Option<real>): seq<real> {
    match v
    case Some(x) => [x]
    case None => []
  }

  function RequestTimes(cfg: Config, log: seq<Logged>): seq<real> {
    if log == [] then []
    else RequestTimes(cfg, log[..|log| - 1]) + ValueOf(cfg.parseFloat(log[|log| - 1].line.requestTime))
  }

  function UpstreamTimes(cfg: Config, log: seq<Logged>): seq<real> {
    if log == [] then []
    else UpstreamTimes(cfg, log[..|log| - 1]) + ValueOf(UpstreamSeconds(cfg, log[|log| - 1].line))
  }

  /** After any log both histograms count exactly the durations that parsed. */
  lemma {:induction false} HistogramsCountDurations(cfg: Config, log: seq<Logged>)
    ensures Represents(AfterLog(cfg, log).req, RequestTimes(cfg, log))
    ensures Represents(AfterLog(cfg, log).up, UpstreamTimes(cfg, log))
  {
    if log != [] {
      var init, p := log[..|log| - 1], log[|log| - 1].line;
      HistogramsCountDurations(cfg, init);
      TimedRepresents(AfterLog(cfg, init).req, RequestTimes(cfg, init), cfg.parseFloat(p.requestTime));
      TimedRepresents(AfterLog(cfg, init).up, UpstreamTimes(cfg, init), UpstreamSeconds(cfg, p));
    }
  }

  lemma TimedRepresents(h: Histogram, obs: seq<real>, v: Option<real>)
    requires Represents(h, obs)
    ensures Represents(Timed(h, v), obs + ValueOf(v))
  {
    match v
    case Some(x) => ObservedRepresents(h, obs, x);
    case None => assert obs + [] == obs;
  }

  /** The calls a log makes to one of the two status tables. */
  function UriHits(log: seq<Logged>, digit: char): seq<Hit<StatusUri>> {
    if log == [] then []
    else
      var p := log[|log| - 1].line;
      UriHits(log[..|log| - 1], digit)
      + if IsClass(p.status, digit) && p.uri != "" then [UriHit(p, log[|log| - 1].now)] else []
  }

  lemma HitsAppend<K>(limit: int, hits: seq<Hit<K>>, h: Hit<K>)
    ensures After(limit, hits + [h]) == Added(After(limit, hits), limit, h)
  {
    assert (hits + [h])[..|hits|] == hits;
  }

  function TableOf(m: Metrics, digit: char): Table<StatusUri> {
    if digit == '5' then m.uri5xx else m.uri4xx
  }

  /** A table after one more line. */
  lemma TableNext(cfg: Config, log: seq<Logged>, digit: char)
    requires log != [] && (digit == '4' || digit == '5')
    ensures var init, x := log[..|log| - 1], log[|log| - 1];
      TableOf(AfterLog(cfg, log), digit) == CountedUri(TableOf(AfterLog(cfg, init), digit), x.line, x.now, digit)
  {
  }

  lemma HitsNext(t: Table<StatusUri>, hits: seq<Hit<StatusUri>>, x: Logged, digit: char)
    requires t == After(MAX_CARDINALITY_URI, hits)
    ensures var more := if IsClass(x.line.status, digit) && x.line.uri != "" then [UriHit(x.line, x.now)] else [];
      CountedUri(t, x.line, x.now, digit) == After(MAX_CARDINALITY_URI, hits + more)
  {
    HitsAppend(MAX_CARDINALITY_URI, hits, UriHit(x.line, x.now));
    assert hits + [] == hits;
  }

  lemma {:induction false} TableReplays(cfg: Config, log: seq<Logged>, digit: char)
    requires digit == '4' || digit == '5'
    ensures TableOf(AfterLog(cfg, log), digit) == After(MAX_CARDINALITY_URI, UriHits(log, digit))
  {
    if log != [] {
      var init := log[..|log| - 1];
      TableReplays(cfg, init, digit);
      TableNext(cfg, log, digit);
      HitsNext(TableOf(AfterLog(cfg, init), digit), UriHits(init, digit), log[|log| - 1], digit);
    }
  }

  function LinesWith(log: seq<Logged>, status: string): nat {
    if log == [] then 0
    else LinesWith(log[..|log| - 1], status) + if log[|log| - 1].line.status == status then 1 else 0
  }

  function LinesWithUri(log: seq<Logged>, status: string): nat {
    if log == [] then 0
    else
      var p := log[|log| - 1].line;
      LinesWithUri(log[..|log| - 1], status) + if p.status == status && p.uri != "" then 1 else 0
  }

  /** The keys of one status, the overflow key of that status among them. */
  function OfStatus(status: string): StatusUri -> bool {
    (k: StatusUri) => k.status == status
  }

  lemma {:induction false} HitsOfStatus(log: seq<Logged>, status: string, digit: char)
    requires IsClass(status, digit)
    ensures Arrived(UriHits(log, digit), OfStatus(status)) == LinesWithUri(log, status)
    ensures forall h :: h in UriHits(log, digit) ==> OfStatus(status)(h.key) == OfStatus(status)(h.overflow)
  {
    if log != [] {
      var init, x := log[..|log| - 1], log[|log| - 1];
      HitsOfStatus(init, status, digit);
      var hits := UriHits(init, digit);
      assert (hits + [UriHit(x.line, x.now)])[..|hits|] == hits && hits + [] == hits;
    }
  }

  /**
   * For every 4xx or 5xx status, what is resident under that status and what was evicted add up to
   * the recorded lines with that status and a URI.
   */
  lemma {:induction false} StatusSumKept(cfg: Config, log: seq<Logged>, status: string, digit: char)
    requires (digit == '4' || digit == '5') && IsClass(status, digit)
    ensures Total(TableOf(AfterLog(cfg, log), digit).m, OfStatus(status))
            + Evicted(MAX_CARDINALITY_URI, UriHits(log, digit), OfStatus(status))
            == LinesWithUri(log, status)
  {
    TableReplays(cfg, log, digit);
    HitsOfStatus(log, status, digit);
    LivePlusEvicted(MAX_CARDINALITY_URI, UriHits(log, digit), OfStatus(status));
  }

  function CountOf<K(==)>(m: map<K, nat>, key: K): nat {
    if key in m then m[key] else 0
  }

  /** Without extra labels every status holds the number of its lines. */
  lemma {:induction false} StatusesExact(cfg: Config, log: seq<Logged>, status: string)
    requires cfg.labelIdx == [] && status != ""
    ensures CountOf(AfterLog(cfg, log).statuses, status) == LinesWith(log, status)
  {
    if log != [] {
      StatusesExact(cfg, log[..|log| - 1], status);
    }
  }

  function LinesWithoutUri(log: seq<Logged>, status: string): nat {
    if log == [] then 0
    else
      var p := log[|log| - 1].line;
      LinesWithoutUri(log[..|log| - 1], status) + if p.status == status && p.uri == "" then 1 else 0
  }

  lemma {:induction false} LinesSplitByUri(log: seq<Logged>, status: string)
    ensures LinesWith(log, status) == LinesWithUri(log, status) + LinesWithoutUri(log, status)
  {
    if log != [] {
      LinesSplitByUri(log[..|log| - 1], status);
    }
  }

  /** So a URI family still sums to its status in the request counter, up to evictions and empty URIs. */
  lemma {:induction false} FamilyMatchesStatus(cfg: Config, log: seq<Logged>, status: string, digit: char)
    requires cfg.labelIdx == [] && (digit == '4' || digit == '5') && IsClass(status, digit)
    ensures Total(TableOf(AfterLog(cfg, log), digit).m, OfStatus(status))
            + Evicted(MAX_CARDINALITY_URI, UriHits(log, digit), OfStatus(status)) + LinesWithoutUri(log, status)
            == CountOf(AfterLog(cfg, log).statuses, status)
  {
    StatusSumKept(cfg, log, status, digit);
    StatusesExact(cfg, log, status);
    LinesSplitByUri(log, status);
  }

  function ByteHit(cfg: Config, x: Logged): seq<Hit<string>> {
    match Bytes(cfg, x.line)
    case Some(v) => if x.line.uri != "" then [Hit(x.line.uri, OVERFLOW_MARKER, Unsigned(v), x.now)] else []
    case None => []
  }

  function ByteHits(cfg: Config, log: seq<Logged>): seq<Hit<string>> {
    if log == [] then [] else ByteHits(cfg, log[..|log| - 1]) + ByteHit(cfg, log[|log| - 1])
  }

  lemma BytesNext(cfg: Config, log: seq<Logged>)
    requires log != []
    ensures var init, x := log[..|log| - 1], log[|log| - 1];
      AfterLog(cfg, log).bytesByUri == CountedBytes(AfterLog(cfg, init).bytesByUri, cfg, x.line, x.now)
  {
  }

  lemma ByteHitsNext(cfg: Config, t: Table<string>, hits: seq<Hit<string>>, x: Logged)
    requires t == After(MAX_CARDINALITY_URI, hits)
    ensures CountedBytes(t, cfg, x.line, x.now) == After(MAX_CARDINALITY_URI, hits + ByteHit(cfg, x))
  {
    match Bytes(cfg, x.line)
    case Some(v) =>
      HitsAppend(MAX_CARDINALITY_URI, hits, Hit(x.line.uri, OVERFLOW_MARKER, Unsigned(v), x.now));
      assert hits + [] == hits;
    case None => assert hits + [] == hits;
  }

  lemma {:induction false} BytesReplay(cfg: Config, log: seq<Logged>)
    ensures AfterLog(cfg, log).bytesByUri == After(MAX_CARDINALITY_URI, ByteHits(cfg, log))
    ensures forall h :: h in ByteHits(cfg, log) ==> h.overflow == OVERFLOW_MARKER
  {
    if log != [] {
      var init := log[..|log| - 1];
      BytesReplay(cfg, init);
      BytesNext(cfg, log);
      ByteHitsNext(cfg, AfterLog(cfg, init).bytesByUri, ByteHits(cfg, init), log[|log| - 1]);
    }
  }

  /** The bytes table never holds more than its limit and the one overflow key. */
  lemma BytesBounded(cfg: Config, log: seq<Logged>)
    ensures |AfterLog(cfg, log).bytesByUri.m| <= MAX_CARDINALITY_URI + 1
  {
    BytesReplay(cfg, log);
    SizeBounded(MAX_CARDINALITY_URI, ByteHits(cfg, log), {OVERFLOW_MARKER});
  }

  /** What the lines with a URI add to the bytes table. */
  function BytesWithUri(cfg: Config, log: seq<Logged>): nat {
    if log == [] then 0
    else
      var p := log[|log| - 1].line;
      BytesWithUri(cfg, log[..|log| - 1])
      + match Bytes(cfg, p) { case Some(v) => if p.uri != "" then Unsigned(v) else 0 case None => 0 }
  }

  function AnyKey(): string -> bool {
    (k: string) => true
  }

  lemma {:induction false} ByteHitsAddUp(cfg: Config, log: seq<Logged>)
    ensures Arrived(ByteHits(cfg, log), AnyKey()) == BytesWithUri(cfg, log)
  {
    if log != [] {
      var x := log[|log| - 1];
      var hits := ByteHits(cfg, log[..|log| - 1]);
      ByteHitsAddUp(cfg, log[..|log| - 1]);
      match Bytes(cfg, x.line)
      case Some(v) =>
        assert (hits + [Hit(x.line.uri, OVERFLOW_MARKER, Unsigned(v), x.now)])[..|hits|] == hits && hits + [] == hits;
      case None => assert hits + [] == hits;
    }
  }

  /** No byte is lost to overflow: the table and its evictions hold all bytes of lines with a URI. */
  lemma {:induction false} BytesKept(cfg: Config, log: seq<Logged>)
    ensures Total(AfterLog(cfg, log).bytesByUri.m, AnyKey())
            + Evicted(MAX_CARDINALITY_URI, ByteHits(cfg, log), AnyKey()) == BytesWithUri(cfg, log)
  {
    BytesReplay(cfg, log);
    ByteHitsAddUp(cfg, log);
    LivePlusEvicted(MAX_CARDINALITY_URI, ByteHits(cfg, log), AnyKey());
  }

  function LinesTagged(cfg: Config, log: seq<Logged>, tag: Tag): nat {
    if log == [] then 0
    else
      var p := log[|log| - 1].line;
      LinesTagged(cfg, log[..|log| - 1], tag) + if p.status != "" && TagOf(cfg, p) == tag then 1 else 0
  }

  /**
   * With extra labels there are never more than the permitted series; a series that exists counts
   * every one of its lines, and one that lost any line does not exist and found the table full.
   */
  lemma {:induction false} TaggedExact(cfg: Config, log: seq<Logged>, tag: Tag)
    requires cfg.labelIdx != []
    ensures |AfterLog(cfg, log).tagged| <= 500
    ensures tag in AfterLog(cfg, log).tagged ==> AfterLog(cfg, log).tagged[tag] == LinesTagged(cfg, log, tag)
    ensures tag !in AfterLog(cfg, log).tagged ==>
      LinesTagged(cfg, log, tag) == 0 || |AfterLog(cfg, log).tagged| == 500
  {
    if log != [] {
      var init := log[..|log| - 1];
      TaggedExact(cfg, init, tag);
      TaggedNext(AfterLog(cfg, init), cfg, log[|log| - 1].line, log[|log| - 1].now);
      CountedTagSize(AfterLog(cfg, init).tagged, TagOf(cfg, log[|log| - 1].line));
    }
  }

  lemma TaggedNext(m: Metrics, cfg: Config, p: Line, now: int)
    requires Shaped(m) && cfg.labelIdx != []
    ensures Recorded(m, cfg, p, now).tagged == if p.status != "" then CountedTag(m.tagged, TagOf(cfg, p)) else m.tagged
  {
  }

  lemma CountedTagSize(tagged: map<Tag, nat>, tag: Tag)
    ensures tag in tagged ==> |CountedTag(tagged, tag)| == |tagged|
    ensures tag !in tagged && |tagged| < MAX_CARDINALITY_TAGGED ==> |CountedTag(tagged, tag)| == |tagged| + 1
  {
    if tag in tagged {
      assert Incremented(tagged, tag).Keys == tagged.Keys;
    } else {
      assert Incremented(tagged, tag).Keys == tagged.Keys + {tag};
    }
  }
}
