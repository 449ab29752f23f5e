/** What the accumulators hold after a log, counted over its lines. */
module LogEffects {
  import opened Options
  import opened Samples
  import opened Text
  import opened UriCounters
  import opened LogMetrics

  // ----- URIs by status -----

  /** The line is counted in the table of this class of statuses. */
  predicate HasUri(p: Line, digit: char) {
    |p.status| > 0 && p.status[0] == digit && p.uri != ""
  }

  /** The (status, URI) pairs of the lines of one class. */
  ghost function PairsOf(log: seq<Logged>, digit: char): set<StatusUri> {
    set x | x in log && HasUri(x.line, digit) :: StatusUri(x.line.status, x.line.uri)
  }

  function LinesOfPair(log: seq<Logged>, status: string, uri: string): nat {
    if log == [] then 0
    else
      var p := log[|log| - 1].line;
      LinesOfPair(log[..|log| - 1], status, uri) + if p.status == status && p.uri == uri then 1 else 0
  }

  lemma {:induction false} HitsArePairs(log: seq<Logged>, digit: char)
    ensures KeysOf(UriHits(log, digit)) == PairsOf(log, digit)
  {
    if log != [] {
      var init, x := log[..|log| - 1], log[|log| - 1];
      assert log == init + [x];
      HitsArePairs(init, digit);
      var hits := UriHits(init, digit);
      if HasUri(x.line, digit) {
        var h := UriHit(x.line, x.now);
        assert KeysOf(hits + [h]) == KeysOf(hits) + {h.key};
        assert PairsOf(log, digit) == PairsOf(init, digit) + {StatusUri(x.line.status, x.line.uri)};
      } else {
        assert hits + [] == hits;
        assert PairsOf(log, digit) == PairsOf(init, digit);
      }
    }
  }

  lemma {:induction false} AddsAreLines(log: seq<Logged>, digit: char, status: string, uri: string)
    requires |status| > 0 && status[0] == digit && uri != ""
    ensures AddsOf(UriHits(log, digit), StatusUri(status, uri)) == LinesOfPair(log, status, uri)
  {
    if log != [] {
      var init, x := log[..|log| - 1], log[|log| - 1];
      AddsAreLines(init, digit, status, uri);
      var hits := UriHits(init, digit);
      assert (hits + [UriHit(x.line, x.now)])[..|hits|] == hits && hits + [] == hits;
    }
  }

  /**
   * While at most a thousand distinct (status, URI) pairs of a class were logged, its table holds
   * exactly those pairs, each with the number of its lines.
   */
  lemma {:induction false} UrisExactWhileRoom(cfg: Config, log: seq<Logged>, digit: char)
    requires (digit == '4' || digit == '5') && |PairsOf(log, digit)| <= 1000
    ensures var m := (if digit == '5' then AfterLog(cfg, log).uri5xx else AfterLog(cfg, log).uri4xx).m;
      && m.Keys == PairsOf(log, digit)
      && forall k :: k in m ==> m[k].count == LinesOfPair(log, k.status, k.uri)
  {
    HitsArePairs(log, digit);
    TableReplays(cfg, log, digit);
    ExactWhileRoom(MAX_CARDINALITY_URI, UriHits(log, digit));
    forall k | k in PairsOf(log, digit)
      ensures AddsOf(UriHits(log, digit), k) == LinesOfPair(log, k.status, k.uri)
    {
      AddsAreLines(log, digit, k.status, k.uri);
    }
  }

  // ----- bytes by URI -----

  /** The size logged with a status, if it is a number. */
  function SizeOf(cfg: Config, p: Line): Option<int> {
    if p.status == "" then None else cfg.parseInt(p.bodyBytes)
  }

  ghost function SizedUris(cfg: Config, log: seq<Logged>): set<string> {
    set x | x in log && x.line.uri != "" && SizeOf(cfg, x.line).Some? :: x.line.uri
  }

  /** The sizes of the lines of one URI, as unsigned 64-bit numbers. */
  function BytesOfUri(cfg: Config, log: seq<Logged>, uri: string): nat {
    if log == [] then 0
    else
      var p := log[|log| - 1].line;
      BytesOfUri(cfg, log[..|log| - 1], uri)
      + if p.uri == uri && SizeOf(cfg, p).Some? then SizeOf(cfg, p).value % 0x1_0000_0000_0000_0000 else 0
  }

  lemma {:induction false} ByteHitsAreUris(cfg: Config, log: seq<Logged>)
    ensures KeysOf(ByteHits(cfg, log)) == SizedUris(cfg, log)
  {
    if log != [] {
      var init, x := log[..|log| - 1], log[|log| - 1];
      assert log == init + [x];
      ByteHitsAreUris(cfg, init);
      var hits := ByteHits(cfg, init);
      if x.line.uri != "" && SizeOf(cfg, x.line).Some? {
        var h := ByteHit(cfg, x)[0];
        assert ByteHit(cfg, x) == [h];
        assert KeysOf(hits + [h]) == KeysOf(hits) + {h.key};
        assert SizedUris(cfg, log) == SizedUris(cfg, init) + {x.line.uri};
      } else {
        assert hits + [] == hits;
        assert SizedUris(cfg, log) == SizedUris(cfg, init);
      }
    }
  }

  lemma AddsAppend<K>(hits: seq<Hit<K>>, h: Hit<K>, key: K)
    ensures AddsOf(hits + [h], key) == AddsOf(hits, key) + if h.key == key then h.n else 0
  {
    assert (hits + [h])[..|hits|] == hits;
  }

  lemma ByteHitAdds(cfg: Config, hits: seq<Hit<string>>, x: Logged, uri: string)
    requires uri != ""
    ensures var size := SizeOf(cfg, x.line);
      AddsOf(hits + ByteHit(cfg, x), uri)
      == AddsOf(hits, uri) + if x.line.uri == uri && size.Some? then size.value % 0x1_0000_0000_0000_0000 else 0
  {
    var size := SizeOf(cfg, x.line);
    if x.line.uri != "" && size.Some? {
      AddsAppend(hits, Hit(x.line.uri, OVERFLOW_MARKER, Unsigned(size.value), x.now), uri);
    } else {
      assert hits + [] == hits;
    }
  }

  lemma {:induction false} AddsAreBytes(cfg: Config, log: seq<Logged>, uri: string)
    requires uri != ""
    ensures AddsOf(ByteHits(cfg, log), uri) == BytesOfUri(cfg, log, uri)
  {
    if log != [] {
      AddsAreBytes(cfg, log[..|log| - 1], uri);
      ByteHitAdds(cfg, ByteHits(cfg, log[..|log| - 1]), log[|log| - 1], uri);
    }
  }

  /** While at most a thousand distinct URIs were logged with a size, each holds exactly the bytes of its lines. */
  lemma {:induction false} BytesExactWhileRoom(cfg: Config, log: seq<Logged>)
    requires |SizedUris(cfg, log)| <= 1000
    ensures var m := AfterLog(cfg, log).bytesByUri.m;
      && m.Keys == SizedUris(cfg, log)
      && forall uri :: uri in m ==> m[uri].count == BytesOfUri(cfg, log, uri)
  {
    ByteHitsAreUris(cfg, log);
    BytesReplay(cfg, log);
    ExactWhileRoom(MAX_CARDINALITY_URI, ByteHits(cfg, log));
    forall uri | uri in SizedUris(cfg, log)
      ensures AddsOf(ByteHits(cfg, log), uri) == BytesOfUri(cfg, log, uri)
    {
      AddsAreBytes(cfg, log, uri);
    }
  }

  /** The sizes of all lines with a status, with or without a URI. */
  function SizesOf(cfg: Config, log: seq<Logged>): int {
    if log == [] then 0
    else
      var size := SizeOf(cfg, log[|log| - 1].line);
      SizesOf(cfg, log[..|log| - 1]) + if size.Some? then size.value else 0
  }

  /** The byte total is their sum. */
  lemma {:induction false} BytesTotalExact(cfg: Config, log: seq<Logged>)
    ensures AfterLog(cfg, log).bytesTotal == SizesOf(cfg, log)
  {
    if log != [] {
      BytesTotalExact(cfg, log[..|log| - 1]);
    }
  }

  // ----- cache statuses, labels and upstreams -----

  function LinesCached(log: seq<Logged>, status: string): nat {
    if log == [] then 0
    else LinesCached(log[..|log| - 1], status) + if log[|log| - 1].line.cacheStatus == status then 1 else 0
  }

  /** Every cache status counts its lines; the empty one and the dash count none. */
  lemma {:induction false} CacheExact(cfg: Config, log: seq<Logged>, status: string)
    ensures CountOf(AfterLog(cfg, log).cache, status)
            == if status == "" || status == "-" then 0 else LinesCached(log, status)
  {
    if log != [] {
      CacheExact(cfg, log[..|log| - 1], status);
    }
  }

  /** The labels of a line are the extras at their positions; a missing one or a dash reads as empty. */
  lemma LabelsByPosition(cfg: Config, p: Line, k: nat)
    requires k < |cfg.labelIdx|
    ensures |TagOf(cfg, p).extra| == |cfg.labelIdx| && TagOf(cfg, p).status == p.status
    ensures var i := cfg.labelIdx[k];
      TagOf(cfg, p).extra[k] == if i < 0 || i >= |p.extras| || p.extras[i] == "-" then "" else p.extras[i]
  {
  }

  /** Of several upstream times only the first counts, without the white space around it. */
  lemma FirstOfSeveral(first: string, rest: string)
    requires first != "" && ',' !in first
    ensures FirstUpstream(first + "," + rest) == TrimSpace(first)
    ensures FirstUpstream(first) == first
  {
    var s := first + "," + rest;
    assert s[..|first|] == first && s[|first|] == ',';
    IndexOfIs(s, ',', |first|);
  }

  /** One upstream time as it is, the first of several without blanks, nothing when there is none. */
  lemma UpstreamTimesAre(cfg: Config, log: seq<Logged>, first: string, rest: string)
    requires log != [] && first != "" && ',' !in first
    ensures var init, p := UpstreamTimes(cfg, log[..|log| - 1]), log[|log| - 1].line;
      && (p.upstreamTime == "" ==> UpstreamTimes(cfg, log) == init)
      && (p.upstreamTime == first ==> UpstreamTimes(cfg, log) == init + ValueOf(cfg.parseFloat(first)))
      && (p.upstreamTime == first + "," + rest ==>
            UpstreamTimes(cfg, log) == init + ValueOf(cfg.parseFloat(TrimSpace(first))))
  {
    FirstOfSeveral(first, rest);
    assert UpstreamTimes(cfg, log[..|log| - 1]) + [] == UpstreamTimes(cfg, log[..|log| - 1]);
  }
}
