/**
 * Sorting a raw snapshot of unknown shape into record candidates and
 * normalising them: `None` and unexpected shapes give nothing, a list is a
 * list of candidates, and a dict contributes the elements of its list-valued
 * entries in key order.
 */
module SnapshotParser {
  import opened Wrappers
  import opened JsonValue
  import opened Geocoder
  import opened FlightRecords

  /**
   * The records of a run of candidates read in order, or the error raised by
   * the first candidate that cannot be read.
   */
  function CandidateRecords<G>(index: BoundaryIndex<G>, items: seq<Json>): (b: Batch)
    decreases |items|
    ensures b.Success? ==> |b.value| <= |items|
    ensures b.Success? ==> forall k :: 0 <= k < |b.value| ==> HasPosition(b.value[k])
  {
    if items == [] then Success([])
    else Extend(CandidateRecords(index, items[..|items| - 1]), RecordBatch(ParseFlightRecord(index, items[|items| - 1])))
  }

  /** What one dict value contributes: the records of its elements when it is a list, nothing otherwise. */
  function EntryBatch<G>(index: BoundaryIndex<G>, value: Json): Batch
  {
    if value.JArr? then CandidateRecords(index, value.items) else Success([])
  }

  /** The records of a dict's entries, walked in key order. */
  function EntryRecords<G>(index: BoundaryIndex<G>, entries: seq<(string, Json)>): (b: Batch)
    decreases |entries|
    ensures b.Success? ==> |b.value| <= |NestedCandidates(entries)|
    ensures b.Success? ==> forall k :: 0 <= k < |b.value| ==> HasPosition(b.value[k])
  {
    if entries == [] then Success([])
    else Extend(EntryRecords(index, entries[..|entries| - 1]), EntryBatch(index, entries[|entries| - 1].1))
  }

  /**
   * The records the parser extracts from one raw snapshot, or the error
   * raised: every record has a position, and there are no more records than
   * candidates examined.
   */
  function SnapshotRecords<G>(index: BoundaryIndex<G>, raw: Json): (b: Batch)
    ensures b.Success? ==> |b.value| <= |Candidates(raw)|
    ensures b.Success? ==> forall k :: 0 <= k < |b.value| ==> HasPosition(b.value[k])
  {
    match raw
    case JNull => Success([])
    case JArr(items) => CandidateRecords(index, items)
    case JObj(entries) => EntryRecords(index, entries)
    case _ => Success([])
  }

  /** The elements of a dict's list-valued entries, in key order. */
  function NestedCandidates(entries: seq<(string, Json)>): seq<Json>
    decreases |entries|
  {
    if entries == [] then []
    else
      var value := entries[|entries| - 1].1;
      NestedCandidates(entries[..|entries| - 1]) + (if value.JArr? then value.items else [])
  }

  /** The entries of a dict whose value is a list, in key order. */
  function ListEntries(entries: seq<(string, Json)>): (r: seq<(string, Json)>)
    decreases |entries|
    ensures forall k :: 0 <= k < |r| ==> r[k] in entries && r[k].1.JArr?
  {
    if entries == [] then []
    else
      var last := entries[|entries| - 1];
      ListEntries(entries[..|entries| - 1]) + (if last.1.JArr? then [last] else [])
  }

  /** Every record candidate the parser examines in a snapshot. */
  function Candidates(raw: Json): seq<Json>
  {
    match raw
    case JArr(items) => items
    case JObj(entries) => NestedCandidates(entries)
    case _ => []
  }

  /** Reading `a` and then `b` gives the records of `a` followed by those of `b`, or the first error. */
  lemma {:induction false} CandidateRecordsAppend<G>(index: BoundaryIndex<G>, a: seq<Json>, b: seq<Json>)
    ensures CandidateRecords(index, a + b) == Extend(CandidateRecords(index, a), CandidateRecords(index, b))
    decreases |b|
  {
    if b == [] {
      assert a + b == a;
      ExtendIdentity(CandidateRecords(index, a));
    } else {
      var init := b[..|b| - 1];
      var last := b[|b| - 1];
      assert (a + b)[..|a + b| - 1] == a + init;
      assert (a + b)[|a + b| - 1] == last;
      CandidateRecordsAppend(index, a, init);
      ExtendAssociative(CandidateRecords(index, a), CandidateRecords(index, init), RecordBatch(ParseFlightRecord(index, last)));
    }
  }

  /** The parse succeeds exactly when every candidate can be read. */
  lemma {:induction false} CandidateRecordsSucceed<G>(index: BoundaryIndex<G>, items: seq<Json>)
    ensures CandidateRecords(index, items).Success? <==> forall i :: 0 <= i < |items| ==> ParseFlightRecord(index, items[i]).Success?
    decreases |items|
  {
    if items != [] {
      var init := items[..|items| - 1];
      CandidateRecordsSucceed(index, init);
      assert forall i :: 0 <= i < |init| ==> init[i] == items[i];
    }
  }

  /** A failed parse reports the error of the first candidate that cannot be read. */
  lemma {:induction false} CandidateRecordsFirstError<G>(index: BoundaryIndex<G>, items: seq<Json>) returns (i: int)
    requires CandidateRecords(index, items).Failure?
    ensures 0 <= i < |items|
    ensures ParseFlightRecord(index, items[i]) == Failure(CandidateRecords(index, items).error)
    ensures forall j :: 0 <= j < i ==> ParseFlightRecord(index, items[j]).Success?
    decreases |items|
  {
    var init := items[..|items| - 1];
    if CandidateRecords(index, init).Failure? {
      i := CandidateRecordsFirstError(index, init);
      assert init[i] == items[i];
      forall j | 0 <= j < i
        ensures ParseFlightRecord(index, items[j]).Success?
      {
        assert init[j] == items[j];
      }
    } else {
      i := |items| - 1;
      CandidateRecordsSucceed(index, init);
      forall j | 0 <= j < i
        ensures ParseFlightRecord(index, items[j]).Success?
      {
        assert init[j] == items[j];
      }
    }
  }

  /**
   * `rs` is the kept records of `items` in order: `idx` names, strictly
   * increasingly, the candidate each record came from, and every candidate it
   * does not name was dropped.
   */
  ghost predicate KeptInOrder<G>(index: BoundaryIndex<G>, items: seq<Json>, rs: seq<FlightRecord>, idx: seq<nat>)
  {
    && |idx| == |rs|
    && (forall k :: 0 <= k < |idx| ==> idx[k] < |items| && ParseFlightRecord(index, items[idx[k]]) == Success(Some(rs[k])))
    && (forall k, l :: 0 <= k < l < |idx| ==> idx[k] < idx[l])
    && (forall i :: 0 <= i < |items| && i !in idx ==> ParseFlightRecord(index, items[i]) == Success(None))
  }

  /** A successful parse keeps exactly the non-dropped records, in candidate order. */
  lemma {:induction false} CandidateRecordsKeepOrder<G>(index: BoundaryIndex<G>, items: seq<Json>) returns (idx: seq<nat>)
    requires CandidateRecords(index, items).Success?
    ensures KeptInOrder(index, items, CandidateRecords(index, items).value, idx)
    decreases |items|
  {
    if items == [] {
      idx := [];
    } else {
      var n := |items| - 1;
      var init := items[..n];
      var parsed := ParseFlightRecord(index, items[n]);
      var before := CandidateRecords(index, init).value;
      var prev := CandidateRecordsKeepOrder(index, init);
      KeepOrderStep(index, items, before, prev, parsed);
      assert CandidateRecords(index, items) == Extend(Success(before), RecordBatch(parsed));
      if parsed.value.Some? {
        assert CandidateRecords(index, items).value == before + [parsed.value.value];
        idx := prev + [n];
      } else {
        assert CandidateRecords(index, items).value == before + [];
        assert before + [] == before;
        idx := prev;
      }
    }
  }

  /** The inductive step of `CandidateRecordsKeepOrder`: one more candidate, kept or dropped. */
  lemma KeepOrderStep<G>(index: BoundaryIndex<G>, items: seq<Json>, before: seq<FlightRecord>, prev: seq<nat>, parsed: Parsed)
    requires items != [] && parsed == ParseFlightRecord(index, items[|items| - 1]) && parsed.Success?
    requires KeptInOrder(index, items[..|items| - 1], before, prev)
    ensures parsed.value.Some? ==> KeptInOrder(index, items, before + [parsed.value.value], prev + [|items| - 1])
    ensures parsed.value.None? ==> KeptInOrder(index, items, before, prev)
  {
    var n := |items| - 1;
    var init := items[..n];
    assert forall i :: 0 <= i < n ==> init[i] == items[i];
    if parsed.value.Some? {
      var rs := before + [parsed.value.value];
      var idx := prev + [n];
      forall k | 0 <= k < |idx|
        ensures idx[k] < |items| && ParseFlightRecord(index, items[idx[k]]) == Success(Some(rs[k]))
      {
        if k < |prev| {
          assert idx[k] == prev[k] && rs[k] == before[k];
          assert init[prev[k]] == items[prev[k]];
        }
      }
      forall i | 0 <= i < |items| && i !in idx
        ensures ParseFlightRecord(index, items[i]) == Success(None)
      {
        assert i != n && i !in prev;
        assert init[i] == items[i];
      }
    } else {
      forall k | 0 <= k < |prev|
        ensures prev[k] < |items| && ParseFlightRecord(index, items[prev[k]]) == Success(Some(before[k]))
      {
        assert init[prev[k]] == items[prev[k]];
      }
    }
  }

  /** A dict's records are those of the elements of its list-valued entries, read as one list. */
  lemma {:induction false} EntryRecordsAreNestedCandidates<G>(index: BoundaryIndex<G>, entries: seq<(string, Json)>)
    ensures EntryRecords(index, entries) == CandidateRecords(index, NestedCandidates(entries))
    decreases |entries|
  {
    if entries != [] {
      var init := entries[..|entries| - 1];
      var value := entries[|entries| - 1].1;
      EntryRecordsAreNestedCandidates(index, init);
      CandidateRecordsAppend(index, NestedCandidates(init), if value.JArr? then value.items else []);
    }
  }

  /** Entries whose value is not a list contribute no candidate. */
  lemma {:induction false} NestedCandidatesOfListEntries(entries: seq<(string, Json)>)
    ensures NestedCandidates(ListEntries(entries)) == NestedCandidates(entries)
    decreases |entries|
  {
    if entries != [] {
      var init := entries[..|entries| - 1];
      var last := entries[|entries| - 1];
      NestedCandidatesOfListEntries(init);
      var kept := ListEntries(init);
      if last.1.JArr? {
        assert ListEntries(entries) == kept + [last];
        assert (kept + [last])[..|kept + [last]| - 1] == kept;
      } else {
        assert ListEntries(entries) == kept;
      }
    }
  }

  /** Dropping the entries whose value is not a list changes nothing in a dict's records. */
  lemma EntryRecordsIgnoreScalars<G>(index: BoundaryIndex<G>, entries: seq<(string, Json)>)
    ensures EntryRecords(index, ListEntries(entries)) == EntryRecords(index, entries)
  {
    EntryRecordsAreNestedCandidates(index, entries);
    EntryRecordsAreNestedCandidates(index, ListEntries(entries));
    NestedCandidatesOfListEntries(entries);
  }

  /**
   * Every shape of snapshot reduces to its candidates read in order: so `None`
   * and every shape other than a list or a dict give no records, every record
   * has a position, and there are at most as many records as candidates.
   */
  lemma SnapshotRecordsOfCandidates<G>(index: BoundaryIndex<G>, raw: Json)
    ensures SnapshotRecords(index, raw) == CandidateRecords(index, Candidates(raw))
    ensures !raw.JArr? && !raw.JObj? ==> SnapshotRecords(index, raw) == Success([])
  {
    if raw.JObj? {
      EntryRecordsAreNestedCandidates(index, raw.entries);
    }
  }

  /**
   * The loop over one list of candidates: appends the kept record of each
   * candidate to `results`, and returns at the first candidate that raises.
   */
  method AppendCandidates<G>(index: BoundaryIndex<G>, items: seq<Json>, results: seq<FlightRecord>) returns (r: Batch)
    ensures r == Extend(Success(results), CandidateRecords(index, items))
  {
    var acc := results;
    ghost var batch: seq<FlightRecord> := [];
    var i := 0;
    while i < |items|
      invariant 0 <= i <= |items|
      invariant CandidateRecords(index, items[..i]) == Success(batch)
      invariant acc == results + batch
    {
      CandidateRecordsStep(index, items, i);
      var parsed := ParseFlightRecord(index, items[i]);
      if parsed.Failure? {
        CandidateRecordsFailureStays(index, items, i + 1);
        return Failure(parsed.error);
      }
      if parsed.value.Some? {
        acc := acc + [parsed.value.value];
        batch := batch + [parsed.value.value];
      } else {
        assert batch + [] == batch;
      }
      i := i + 1;
    }
    assert items[..i] == items;
    return Success(acc);
  }

  /** One more candidate read: the records so far extended by that candidate's. */
  lemma CandidateRecordsStep<G>(index: BoundaryIndex<G>, items: seq<Json>, i: nat)
    requires i < |items|
    ensures CandidateRecords(index, items[..i + 1])
         == Extend(CandidateRecords(index, items[..i]), RecordBatch(ParseFlightRecord(index, items[i])))
  {
    assert items[..i + 1][..i] == items[..i];
    assert items[..i + 1][i] == items[i];
  }

  /** Once a prefix of the candidates raises, the whole list raises the same error. */
  lemma CandidateRecordsFailureStays<G>(index: BoundaryIndex<G>, items: seq<Json>, n: nat)
    requires n <= |items|
    requires CandidateRecords(index, items[..n]).Failure?
    ensures CandidateRecords(index, items) == CandidateRecords(index, items[..n])
  {
    CandidateRecordsAppend(index, items[..n], items[n..]);
    assert items[..n] + items[n..] == items;
  }

  /** One more dict entry walked: the records so far extended by that entry's. */
  lemma EntryRecordsStep<G>(index: BoundaryIndex<G>, entries: seq<(string, Json)>, j: nat)
    requires j < |entries|
    ensures EntryRecords(index, entries[..j + 1])
         == Extend(EntryRecords(index, entries[..j]), EntryBatch(index, entries[j].1))
  {
    assert entries[..j + 1][..j] == entries[..j];
    assert entries[..j + 1][j] == entries[j];
  }

  /**
   * `parse_snapshot`: `None` and unexpected shapes give no records; a list is
   * read element by element; a dict is walked in key order and each
   * list-valued entry read element by element into the same results.
   */
  method ParseSnapshot<G>(index: BoundaryIndex<G>, raw: Json) returns (r: Batch)
    ensures r == SnapshotRecords(index, raw)
  {
    if raw.JNull? {
      return Success([]);
    }
    var results: seq<FlightRecord> := [];
    if raw.JArr? {
      r := AppendCandidates(index, raw.items, results);
      ExtendIdentity(CandidateRecords(index, raw.items));
      return;
    }
    if raw.JObj? {
      var entries := raw.entries;
      var j := 0;
      while j < |entries|
        invariant 0 <= j <= |entries|
        invariant EntryRecords(index, entries[..j]) == Success(results)
      {
        EntryRecordsStep(index, entries, j);
        var value := entries[j].1;
        if value.JArr? {
          var more := AppendCandidates(index, value.items, results);
          if more.Failure? {
            EntryRecordsFailureStays(index, entries, j + 1);
            return more;
          }
          results := more.value;
        } else {
          assert results + [] == results;
        }
        j := j + 1;
      }
      assert entries[..j] == entries;
      return Success(results);
    }
    return Success([]);
  }

  /** Once a prefix of the entries raises, the whole dict raises the same error. */
  lemma {:induction false} EntryRecordsFailureStays<G>(index: BoundaryIndex<G>, entries: seq<(string, Json)>, n: nat)
    requires n <= |entries|
    requires EntryRecords(index, entries[..n]).Failure?
    ensures EntryRecords(index, entries) == EntryRecords(index, entries[..n])
    decreases |entries| - n
  {
    if n < |entries| {
      assert entries[..n + 1][..n] == entries[..n];
      EntryRecordsFailureStays(index, entries, n + 1);
    } else {
      assert entries[..n] == entries;
    }
  }

  /**
   * The list `[[10.0, 20.0, 1500], [null, 5.0, 300]]` gives one record under the
   * intended reading, which drops the second element; as written, reading the
   * second element raises.
   */
  lemma ListScenario<G>(index: BoundaryIndex<G>)
    ensures ParseFlightRecordAsWritten(index, JArr([JNull, JNum(5.0), JNum(300.0)])) == Failure(NotACoordinate)
    ensures var loc := Locate(index, Point(20.0, 10.0));
      SnapshotRecords(index, JArr([JArr([JNum(10.0), JNum(20.0), JNum(1500.0)]), JArr([JNull, JNum(5.0), JNum(300.0)])]))
      == Success([FlightRecord(JNum(10.0), JNum(20.0), JNum(1500.0), loc.country, loc.state)])
  {
    var loc := Locate(index, Point(20.0, 10.0));
    var items := [JArr([JNum(10.0), JNum(20.0), JNum(1500.0)]), JArr([JNull, JNum(5.0), JNum(300.0)])];
    var rec := FlightRecord(JNum(10.0), JNum(20.0), JNum(1500.0), loc.country, loc.state);
    assert ParseFlightRecord(index, items[0]) == Success(Some(rec));
    assert ParseFlightRecord(index, items[1]) == Success(None);
    assert items[..0] == [];
    CandidateRecordsStep(index, items, 0);
    assert [] + [rec] == [rec];
    assert CandidateRecords(index, items[..1]) == Success([rec]);
    CandidateRecordsStep(index, items, 1);
    assert [rec] + [] == [rec];
    assert items[..2] == items;
  }

  /** The dict `{"flights": [[1.0, 1.0, 100]], "meta": "ignore"}` gives one record; "meta" contributes nothing. */
  lemma DictScenario<G>(index: BoundaryIndex<G>)
    ensures var loc := Locate(index, Point(1.0, 1.0));
      SnapshotRecords(index, JObj([("flights", JArr([JArr([JNum(1.0), JNum(1.0), JNum(100.0)])])), ("meta", JStr("ignore"))]))
      == Success([FlightRecord(JNum(1.0), JNum(1.0), JNum(100.0), loc.country, loc.state)])
  {
    var loc := Locate(index, Point(1.0, 1.0));
    var flights := [JArr([JNum(1.0), JNum(1.0), JNum(100.0)])];
    var rec := FlightRecord(JNum(1.0), JNum(1.0), JNum(100.0), loc.country, loc.state);
    var entries := [("flights", JArr(flights)), ("meta", JStr("ignore"))];
    assert ParseFlightRecord(index, flights[0]) == Success(Some(rec));
    assert flights[..0] == [];
    CandidateRecordsStep(index, flights, 0);
    assert [] + [rec] == [rec];
    assert flights[..1] == flights;
    assert CandidateRecords(index, flights) == Success([rec]);
    assert entries[..0] == [];
    EntryRecordsStep(index, entries, 0);
    assert EntryRecords(index, entries[..1]) == Success([rec]);
    EntryRecordsStep(index, entries, 1);
    assert [rec] + [] == [rec];
    assert entries[..2] == entries;
  }
}
