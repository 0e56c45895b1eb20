/**
 * The filtering loop of the market scanner. The HTTP request and JSON decoding arrive as a
 * `Result` of decoded records; the clock and the ISO date parse arrive as a precomputed age.
 * The set of ids already emitted persists across scans, so no id is ever emitted twice.
 */
module MarketScanner {
  import opened Wrappers
  import opened Text
  import opened Models

  /**
   * The decoded `outcomes` field: a JSON array (an empty one when the key is missing), or a string,
   * as when the API sends the array JSON-encoded.
   */
  datatype Outcomes = OutcomeList(items: seq<string>) | OutcomeText(text: string)

  /** Python's `len` of the field: the number of items of an array, the number of characters of a string. */
  function OutcomeCount(o: Outcomes): (n: nat)
    ensures o.OutcomeList? ==> n == |o.items|
    ensures o.OutcomeText? ==> n == |o.text|
  {
    match o
    case OutcomeList(items) => |items|
    case OutcomeText(text) => |text|
  }

  /**
   * One element of the markets response, after decoding. `id` is None when the key is missing or
   * null; `question` is "" when missing. `ageSeconds` is the market's age at scan time. It is None
   * when `created_at` is missing or empty, when it does not parse, or when it parses without a time
   * zone (the subtraction from the aware scan time then fails and the failure is caught). `expiry`
   * is `end_date_iso` parsed, or the scan time when it is missing or does not parse. `volume24h` is
   * the decoded `volume.usd`, 0 by default.
   */
  datatype MarketRecord = MarketRecord(
    id: Option<string>,
    question: string,
    outcomes: Outcomes,
    ageSeconds: Option<real>,
    tags: seq<string>,
    volume24h: real,
    isActive: bool,
    expiry: Timestamp)

  /** What a scan has produced so far: the markets kept and the ids seen. */
  datatype ScanState = ScanState(markets: seq<MarketMetadata>, seen: set<string>)

  /** The record has a non-empty id. */
  predicate HasId(r: MarketRecord)
  {
    r.id.Some? && r.id.value != ""
  }

  /** The question names a winner, the outcomes field has length 2, and it is not too young. */
  predicate Eligible(r: MarketRecord, minMarketAgeSeconds: real)
  {
    var question := Lower(r.question);
    (Contains(question, "winner") || Contains(question, "win"))
    && OutcomeCount(r.outcomes) == 2
    && !(r.ageSeconds.Some? && r.ageSeconds.value < minMarketAgeSeconds)
  }

  /** The record is kept when its id is new to `seen` and it is eligible. */
  predicate Admitted(r: MarketRecord, seen: set<string>, minMarketAgeSeconds: real)
  {
    HasId(r) && r.id.value !in seen && Eligible(r, minMarketAgeSeconds)
  }

  /**
   * An outcome pair sent as JSON-encoded text is measured in characters, so a record carrying the
   * text ["Yes", "No"] is never eligible, whatever its question and age.
   */
  lemma EncodedOutcomePairNeverEligible(r: MarketRecord, minMarketAgeSeconds: real)
    requires r.outcomes == OutcomeText("[\"Yes\", \"No\"]")
    ensures !Eligible(r, minMarketAgeSeconds)
  {
    assert |r.outcomes.text| == 13;
  }

  /** The metadata emitted for a kept record: the question is copied unchanged, the outcome is empty. */
  function ToMetadata(r: MarketRecord): (m: MarketMetadata)
    requires HasId(r)
    ensures m.id == r.id.value && m.question == r.question && m.outcome == ""
  {
    MarketMetadata(r.id.value, r.question, "", r.expiry, r.tags, r.volume24h, r.isActive)
  }

  /** The ids of a sequence of markets. */
  function Ids(ms: seq<MarketMetadata>): (ids: set<string>)
    ensures forall i :: 0 <= i < |ms| ==> ms[i].id in ids
  {
    if ms == [] then {} else Ids(ms[..|ms| - 1]) + {ms[|ms| - 1].id}
  }

  /** The ids of a concatenation are the ids of its parts. */
  lemma {:induction false} IdsAppend(a: seq<MarketMetadata>, b: seq<MarketMetadata>)
    ensures Ids(a + b) == Ids(a) + Ids(b)
    decreases |b|
  {
    if b == [] {
      assert a + b == a;
    } else {
      var last := |b| - 1;
      assert (a + b)[..|a + b| - 1] == a + b[..last];
      assert (a + b)[|a + b| - 1] == b[last];
      IdsAppend(a, b[..last]);
    }
  }

  /** No two markets share an id. */
  predicate DistinctIds(ms: seq<MarketMetadata>)
  {
    forall i, j :: 0 <= i < j < |ms| ==> ms[i].id != ms[j].id
  }

  /** Two runs without repeated ids and with no id in common concatenate to a run without repeats. */
  lemma DistinctIdsConcat(a: seq<MarketMetadata>, b: seq<MarketMetadata>)
    requires DistinctIds(a) && DistinctIds(b)
    requires forall i :: 0 <= i < |b| ==> b[i].id !in Ids(a)
    ensures DistinctIds(a + b)
  {
    forall i, j | 0 <= i < j < |a + b|
      ensures (a + b)[i].id != (a + b)[j].id
    {
      if j >= |a| {
        assert (a + b)[j] == b[j - |a|];
        if i >= |a| {
          assert (a + b)[i] == b[i - |a|];
        } else {
          assert (a + b)[i].id in Ids(a);
        }
      }
    }
  }

  /**
   * The scan loop over `data`, starting from the ids already `seen`: what it keeps and the ids
   * it has seen afterwards. Every kept market has a new id, names a winner, has an outcomes field
   * of length 2 and is old enough; no id is kept twice; and the ids seen afterwards are the old
   * ones plus the kept ones.
   */
  function ScanBatch(data: seq<MarketRecord>, seen: set<string>, minMarketAgeSeconds: real): (s: ScanState)
    ensures s.seen == seen + Ids(s.markets)
    ensures |s.markets| <= |data|
    ensures forall i :: 0 <= i < |s.markets| ==> s.markets[i].id !in seen && s.markets[i].id != ""
    ensures DistinctIds(s.markets)
    ensures forall i :: 0 <= i < |s.markets| ==>
              Contains(Lower(s.markets[i].question), "win")
    decreases |data|
  {
    if data == [] then ScanState([], seen)
    else
      var before := ScanBatch(data[..|data| - 1], seen, minMarketAgeSeconds);
      var r := data[|data| - 1];
      if Admitted(r, before.seen, minMarketAgeSeconds) then
        WinnerImpliesWin(Lower(r.question));
        var after := ScanState(before.markets + [ToMetadata(r)], before.seen + {r.id.value});
        assert Ids(after.markets) == Ids(before.markets) + {r.id.value} by {
          assert after.markets[..|after.markets| - 1] == before.markets;
        }
        after
      else
        before
  }

  /** The positions in `data` of the records a scan keeps, in order. */
  ghost function KeptIndices(data: seq<MarketRecord>, seen: set<string>, minMarketAgeSeconds: real): (idx: seq<nat>)
    ensures forall j :: 0 <= j < |idx| ==> idx[j] < |data|
    decreases |data|
  {
    if data == [] then []
    else
      var before := ScanBatch(data[..|data| - 1], seen, minMarketAgeSeconds);
      var indices := KeptIndices(data[..|data| - 1], seen, minMarketAgeSeconds);
      if Admitted(data[|data| - 1], before.seen, minMarketAgeSeconds) then indices + [|data| - 1] else indices
  }

  /**
   * The scan keeps records in input order: the k-th kept market comes from the record at the
   * k-th kept position, and the kept positions strictly increase.
   */
  lemma {:induction false} ScanKeepsInputOrder(data: seq<MarketRecord>, seen: set<string>, minMarketAgeSeconds: real)
    ensures var s := ScanBatch(data, seen, minMarketAgeSeconds);
            var idx := KeptIndices(data, seen, minMarketAgeSeconds);
            && |idx| == |s.markets|
            && (forall j :: 0 <= j < |idx| ==> idx[j] < |data|)
            && (forall j, l :: 0 <= j < l < |idx| ==> idx[j] < idx[l])
            && (forall j :: 0 <= j < |idx| ==> HasId(data[idx[j]]) && s.markets[j] == ToMetadata(data[idx[j]]))
    decreases |data|
  {
    if data != [] {
      var n := |data| - 1;
      var prefix := data[..n];
      ScanKeepsInputOrder(prefix, seen, minMarketAgeSeconds);
      var before := ScanBatch(prefix, seen, minMarketAgeSeconds);
      var idxBefore := KeptIndices(prefix, seen, minMarketAgeSeconds);
      forall j | 0 <= j < |idxBefore|
        ensures data[idxBefore[j]] == prefix[idxBefore[j]]
      {
      }
    }
  }

  /** Extending the input only decides about the new last position. */
  lemma KeptIndicesExtend(data: seq<MarketRecord>, seen: set<string>, minMarketAgeSeconds: real)
    requires data != []
    ensures var n := |data| - 1;
            var before := KeptIndices(data[..n], seen, minMarketAgeSeconds);
            && (forall k :: 0 <= k < n ==> (k in KeptIndices(data, seen, minMarketAgeSeconds) <==> k in before))
            && (n in KeptIndices(data, seen, minMarketAgeSeconds)
                <==> Admitted(data[n], ScanBatch(data[..n], seen, minMarketAgeSeconds).seen, minMarketAgeSeconds))
  {
    var n := |data| - 1;
    assert n !in KeptIndices(data[..n], seen, minMarketAgeSeconds);
  }

  /** One position of `data`: it is kept exactly when its record is admitted against the ids seen before it. */
  lemma {:induction false} KeptAt(data: seq<MarketRecord>, seen: set<string>, minMarketAgeSeconds: real, k: nat)
    requires k < |data|
    ensures k in KeptIndices(data, seen, minMarketAgeSeconds)
            <==> Admitted(data[k], ScanBatch(data[..k], seen, minMarketAgeSeconds).seen, minMarketAgeSeconds)
    decreases |data|
  {
    var n := |data| - 1;
    KeptIndicesExtend(data, seen, minMarketAgeSeconds);
    if k < n {
      var prefix := data[..n];
      KeptAt(prefix, seen, minMarketAgeSeconds, k);
      assert data[k] == prefix[k] && data[..k] == prefix[..k];
    } else {
      assert k == n;
    }
  }

  /**
   * A record is kept exactly when it is admitted against the ids seen before it: the ids seen
   * before the scan and those of the records kept earlier in the same batch.
   */
  lemma ScanKeepsExactlyAdmitted(data: seq<MarketRecord>, seen: set<string>, minMarketAgeSeconds: real)
    ensures var idx := KeptIndices(data, seen, minMarketAgeSeconds);
            forall k :: 0 <= k < |data| ==>
              (k in idx <==> Admitted(data[k], ScanBatch(data[..k], seen, minMarketAgeSeconds).seen, minMarketAgeSeconds))
  {
    forall k | 0 <= k < |data|
      ensures k in KeptIndices(data, seen, minMarketAgeSeconds)
              <==> Admitted(data[k], ScanBatch(data[..k], seen, minMarketAgeSeconds).seen, minMarketAgeSeconds)
    {
      KeptAt(data, seen, minMarketAgeSeconds, k);
    }
  }

  /** Every kept market comes from an eligible record. */
  lemma ScanKeepsOnlyEligible(data: seq<MarketRecord>, seen: set<string>, minMarketAgeSeconds: real)
    ensures var s := ScanBatch(data, seen, minMarketAgeSeconds);
            forall j :: 0 <= j < |s.markets| ==>
              exists k :: 0 <= k < |data| && HasId(data[k]) && Eligible(data[k], minMarketAgeSeconds)
                          && s.markets[j] == ToMetadata(data[k])
  {
    var s := ScanBatch(data, seen, minMarketAgeSeconds);
    var idx := KeptIndices(data, seen, minMarketAgeSeconds);
    ScanKeepsInputOrder(data, seen, minMarketAgeSeconds);
    ScanKeepsExactlyAdmitted(data, seen, minMarketAgeSeconds);
    forall j | 0 <= j < |s.markets|
      ensures exists k :: 0 <= k < |data| && HasId(data[k]) && Eligible(data[k], minMarketAgeSeconds)
                          && s.markets[j] == ToMetadata(data[k])
    {
      var k := idx[j];
      assert k in idx;
      assert Admitted(data[k], ScanBatch(data[..k], seen, minMarketAgeSeconds).seen, minMarketAgeSeconds);
    }
  }

  /** The outputs of a series of successful scans, each starting from the ids the previous one left. */
  function ScanSeries(batches: seq<seq<MarketRecord>>, seen: set<string>, minMarketAgeSeconds: real): ScanState
    decreases |batches|
  {
    if batches == [] then ScanState([], seen)
    else
      var first := ScanBatch(batches[0], seen, minMarketAgeSeconds);
      var rest := ScanSeries(batches[1..], first.seen, minMarketAgeSeconds);
      ScanState(first.markets + rest.markets, rest.seen)
  }

  /** Across any series of scans no id is emitted twice, and none that was seen before the series. */
  lemma {:induction false} ScanSeriesNeverRepeats(batches: seq<seq<MarketRecord>>, seen: set<string>, minMarketAgeSeconds: real)
    ensures var s := ScanSeries(batches, seen, minMarketAgeSeconds);
            && s.seen == seen + Ids(s.markets)
            && (forall i :: 0 <= i < |s.markets| ==> s.markets[i].id !in seen)
            && DistinctIds(s.markets)
    decreases |batches|
  {
    if batches != [] {
      var first := ScanBatch(batches[0], seen, minMarketAgeSeconds);
      ScanSeriesNeverRepeats(batches[1..], first.seen, minMarketAgeSeconds);
      var rest := ScanSeries(batches[1..], first.seen, minMarketAgeSeconds);
      var all := first.markets + rest.markets;
      IdsAppend(first.markets, rest.markets);
      DistinctIdsConcat(first.markets, rest.markets);
      forall i | 0 <= i < |all|
        ensures all[i].id !in seen
      {
        if i >= |first.markets| {
          assert all[i] == rest.markets[i - |first.markets|];
        }
      }
    }
  }

  /** The scanner and the ids it has emitted so far. */
  class GammaMarketScanner {
    const minMarketAgeSeconds: real
    var scannedMarkets: set<string>

    constructor (minMarketAgeSeconds: real)
      ensures this.minMarketAgeSeconds == minMarketAgeSeconds && scannedMarkets == {}
    {
      this.minMarketAgeSeconds := minMarketAgeSeconds;
      scannedMarkets := {};
    }

    /**
     * One scan over the response. A failed request yields no markets and changes nothing;
     * otherwise the markets are those the filter keeps and their ids join the emitted set.
     */
    method Scan(response: Result<seq<MarketRecord>>) returns (markets: seq<MarketMetadata>)
      modifies this
      ensures response.Failure? ==> markets == [] && scannedMarkets == old(scannedMarkets)
      ensures response.Ok? ==>
                ScanState(markets, scannedMarkets) == ScanBatch(response.value, old(scannedMarkets), minMarketAgeSeconds)
    {
      if response.Failure? {
        return [];
      }
      var data := response.value;
      markets := [];
      for i := 0 to |data|
        invariant ScanState(markets, scannedMarkets) == ScanBatch(data[..i], old(scannedMarkets), minMarketAgeSeconds)
      {
        assert data[..i + 1][..i] == data[..i];
        var record := data[i];
        if record.id.None? || record.id.value == "" || record.id.value in scannedMarkets {
          continue;
        }
        var question := Lower(record.question);
        if !Contains(question, "winner") && !Contains(question, "win") {
          continue;
        }
        if OutcomeCount(record.outcomes) != 2 {
          continue;
        }
        if record.ageSeconds.Some? && record.ageSeconds.value < minMarketAgeSeconds {
          continue;
        }
        markets := markets + [ToMetadata(record)];
        scannedMarkets := scannedMarkets + {record.id.value};
      }
      assert data[..|data|] == data;
    }
  }
}
