/**
 * Driving the pipeline over the window of hour offsets `0 .. hours - 1`:
 * fetch, parse, and extend the running list of records, one offset at a time.
 */
module HistoryAggregator {
  import opened Wrappers
  import opened JsonValue
  import opened Geocoder
  import opened FlightRecords
  import opened SnapshotParser
  import opened SnapshotFetcher

  /** The offsets `range(n)`, ascending. */
  function Offsets(n: nat): (r: seq<nat>)
    ensures |r| == n && forall k :: 0 <= k < n ==> r[k] == k
  {
    seq(n, k => k)
  }

  lemma OffsetsStep(n: nat)
    ensures Offsets(n) + [n] == Offsets(n + 1)
  {
  }

  /** The number of iterations `range(hours)` makes. */
  function WindowLength(hours: int): nat
  {
    if hours < 0 then 0 else hours
  }

  lemma HistoryStep<G>(index: BoundaryIndex<G>, download: string -> Option<Json>, h: nat, before: seq<FlightRecord>)
    requires HistoryRecords(index, download, h) == Success(before)
    ensures HistoryRecords(index, download, h + 1) == Extend(Success(before), SnapshotRecords(index, FetchSnapshot(download, h)))
  {
  }

  /** The records of the first `n` offsets, in offset order, or the first error raised. */
  function HistoryRecords<G>(index: BoundaryIndex<G>, download: string -> Option<Json>, n: nat): (b: Batch)
    decreases n
    ensures b.Success? ==> forall k :: 0 <= k < |b.value| ==> HasPosition(b.value[k])
  {
    if n == 0 then Success([])
    else
      var prev := HistoryRecords(index, download, n - 1);
      var raw := FetchSnapshot(download, n - 1);
      Extend(prev, SnapshotRecords(index, raw))
  }

  /** The candidates of every snapshot in the window, in offset order. */
  function WindowCandidates(download: string -> Option<Json>, n: nat): seq<Json>
    decreases n
  {
    if n == 0 then [] else WindowCandidates(download, n - 1) + Candidates(FetchSnapshot(download, n - 1))
  }

  /** The window's records are those of all its candidates read as one list, in offset order. */
  lemma {:induction false} HistoryIsCandidateStream<G>(index: BoundaryIndex<G>, download: string -> Option<Json>, n: nat)
    ensures HistoryRecords(index, download, n) == CandidateRecords(index, WindowCandidates(download, n))
    decreases n
  {
    if n > 0 {
      HistoryIsCandidateStream(index, download, n - 1);
      var raw := FetchSnapshot(download, n - 1);
      SnapshotRecordsOfCandidates(index, raw);
      CandidateRecordsAppend(index, WindowCandidates(download, n - 1), Candidates(raw));
    }
  }

  /** A successful window has no more records than candidates examined. */
  lemma HistoryBounded<G>(index: BoundaryIndex<G>, download: string -> Option<Json>, n: nat)
    requires HistoryRecords(index, download, n).Success?
    ensures |HistoryRecords(index, download, n).value| <= |WindowCandidates(download, n)|
  {
    HistoryIsCandidateStream(index, download, n);
  }

  /** An offset whose fetch fails contributes no records. */
  lemma FailedFetchContributesNothing<G>(index: BoundaryIndex<G>, download: string -> Option<Json>, h: nat)
    requires download(SnapshotUrl(h)).None?
    ensures HistoryRecords(index, download, h + 1) == HistoryRecords(index, download, h)
  {
    ExtendIdentity(HistoryRecords(index, download, h));
  }

  /** The window's records depend on nothing but the downloads of its own offsets' URLs. */
  lemma {:induction false} HistoryDependsOnlyOnWindow<G>(index: BoundaryIndex<G>, d1: string -> Option<Json>, d2: string -> Option<Json>, n: nat)
    requires forall h: nat :: h < n ==> d1(SnapshotUrl(h)) == d2(SnapshotUrl(h))
    ensures HistoryRecords(index, d1, n) == HistoryRecords(index, d2, n)
    decreases n
  {
    if n > 0 {
      HistoryDependsOnlyOnWindow(index, d1, d2, n - 1);
      assert FetchSnapshot(d1, n - 1) == FetchSnapshot(d2, n - 1);
    }
  }

  /** The records of an earlier window come first, unchanged, in a longer one. */
  lemma {:induction false} HistoryPrefix<G>(index: BoundaryIndex<G>, download: string -> Option<Json>, m: nat, n: nat)
    requires m <= n
    requires HistoryRecords(index, download, n).Success?
    ensures HistoryRecords(index, download, m).Success?
    ensures HistoryRecords(index, download, m).value <= HistoryRecords(index, download, n).value
    decreases n - m
  {
    if m < n {
      HistoryPrefix(index, download, m, n - 1);
    }
  }

  /** Once an offset raises, every longer window raises the same error. */
  lemma {:induction false} HistoryFailureStays<G>(index: BoundaryIndex<G>, download: string -> Option<Json>, m: nat, n: nat)
    requires m <= n
    requires HistoryRecords(index, download, m).Failure?
    ensures HistoryRecords(index, download, n) == HistoryRecords(index, download, m)
    decreases n - m
  {
    if m < n {
      HistoryFailureStays(index, download, m, n - 1);
    }
  }

  /**
   * `collect_flight_history(hours)`: fetches offsets 0, 1, ... in ascending
   * order, each once, and extends the records with each snapshot's; an error
   * raised while parsing a snapshot ends the loop and the call. `fetched`
   * is the offsets fetched, in order.
   */
  method CollectFlightHistory<G>(index: BoundaryIndex<G>, download: string -> Option<Json>, hours: int)
    returns (r: Batch, ghost fetched: seq<nat>)
    ensures r == HistoryRecords(index, download, WindowLength(hours))
    ensures fetched == Offsets(|fetched|)
    ensures r.Success? ==> |fetched| == WindowLength(hours)
    ensures r.Failure? ==>
      && 0 < |fetched| <= WindowLength(hours)
      && HistoryRecords(index, download, |fetched| - 1).Success?
      && SnapshotRecords(index, FetchSnapshot(download, |fetched| - 1)) == r
  {
    var allRecords: seq<FlightRecord> := [];
    fetched := [];
    var h := 0;
    while h < hours
      invariant 0 <= h <= WindowLength(hours)
      invariant fetched == Offsets(h)
      invariant HistoryRecords(index, download, h) == Success(allRecords)
    {
      var raw := FetchSnapshot(download, h);
      fetched := fetched + [h];
      OffsetsStep(h);
      var entries := ParseSnapshot(index, raw);
      HistoryStep(index, download, h, allRecords);
      if entries.Failure? {
        HistoryFailureStays(index, download, h + 1, WindowLength(hours));
        return entries, fetched;
      }
      allRecords := allRecords + entries.value;
      h := h + 1;
    }
    return Success(allRecords), fetched;
  }

  /** `collect_flight_history(0)`, or any non-positive window, is empty and fetches nothing. */
  lemma EmptyWindow<G>(index: BoundaryIndex<G>, download: string -> Option<Json>, hours: int)
    requires hours <= 0
    ensures HistoryRecords(index, download, WindowLength(hours)) == Success([])
  {
  }
}
