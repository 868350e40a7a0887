/**
 * Positional extraction of one flight record from a record candidate, and
 * the batches of records (or the error raised) that the parser accumulates.
 */
module FlightRecords {
  import opened Wrappers
  import opened JsonValue
  import opened Geocoder

  /**
   * A normalised record: the candidate's first three slots as they were, and
   * the region names found for its position.
   */
  datatype FlightRecord = FlightRecord(
    lat: Json,
    lon: Json,
    alt: Json,
    country: Option<string>,
    state: Option<string>)

  /** Why reading a candidate raised. */
  datatype RecordError =
    | NotPositional       // `obj[0]` on a value that is not a list (TypeError or KeyError)
    | MissingSlot(slot: nat)  // IndexError at `obj[slot]`: the list has only `slot` elements
    | NotACoordinate      // `Point(lon, lat)` could not convert a coordinate

  /** What survives the pipeline: latitude and longitude are present. */
  predicate HasPosition(r: FlightRecord)
  {
    !r.lat.JNull? && !r.lon.JNull?
  }

  /** The outcome of reading one candidate: a record, `None` (dropped), or the error raised. */
  type Parsed = Result<Option<FlightRecord>, RecordError>

  /** The records collected so far, or the first error raised while collecting them. */
  type Batch = Result<seq<FlightRecord>, RecordError>

  /** The candidate's three leading slots, read in order, or the error that reading raises. */
  function Slots(obj: Json): (r: Result<(Json, Json, Json), RecordError>)
    ensures r.Success? <==> obj.JArr? && |obj.items| >= 3
    ensures r.Success? ==> r.value == (obj.items[0], obj.items[1], obj.items[2])
    ensures r.Failure? ==> r.error == if obj.JArr? then MissingSlot(|obj.items|) else NotPositional
  {
    match obj
    case JArr(items) =>
      if |items| < 3 then Failure(MissingSlot(|items|)) else Success((items[0], items[1], items[2]))
    case _ => Failure(NotPositional)
  }

  /**
   * The record exactly as the source reads it: the point is built and both
   * tiers are geocoded BEFORE latitude and longitude are checked for `None`.
   */
  function ParseFlightRecordAsWritten<G>(index: BoundaryIndex<G>, obj: Json): Parsed
  {
    match Slots(obj)
    case Failure(e) => Failure(e)
    case Success((lat, lon, alt)) =>
      match MakePoint(lon, lat)
      case None => Failure(NotACoordinate)
      case Some(p) =>
        var loc := Locate(index, p);
        if lat.JNull? || lon.JNull? then Success(None)
        else Success(Some(FlightRecord(lat, lon, alt, loc.country, loc.state)))
  }

  /** As written, the `None` check can never drop a candidate: the point constructor has already raised. */
  lemma AsWrittenNeverDrops<G>(index: BoundaryIndex<G>, obj: Json)
    ensures ParseFlightRecordAsWritten(index, obj) != Success(None)
  {
  }

  /**
   * The record as evidently intended: a candidate without a latitude or a
   * longitude is dropped before any point is built.
   */
  function ParseFlightRecord<G>(index: BoundaryIndex<G>, obj: Json): (r: Parsed)
    ensures r.Failure? <==>
      || !obj.JArr? || |obj.items| < 3
      || (!obj.items[0].JNull? && !obj.items[1].JNull? && MakePoint(obj.items[1], obj.items[0]).None?)
    ensures r.Failure? && !obj.JArr? ==> r.error == NotPositional
    ensures r.Failure? && obj.JArr? && |obj.items| < 3 ==> r.error == MissingSlot(|obj.items|)
    ensures r.Failure? && obj.JArr? && |obj.items| >= 3 ==> r.error == NotACoordinate
    ensures r == Success(None) <==> obj.JArr? && |obj.items| >= 3 && (obj.items[0].JNull? || obj.items[1].JNull?)
    ensures r.Success? && r.value.Some? ==>
      var rec := r.value.value;
      && HasPosition(rec)
      && rec.lat == obj.items[0] && rec.lon == obj.items[1] && rec.alt == obj.items[2]
      && MakePoint(rec.lon, rec.lat).Some?
      && Location(rec.country, rec.state) == Locate(index, Point(Coordinate(rec.lon).value, Coordinate(rec.lat).value))
  {
    match Slots(obj)
    case Failure(e) => Failure(e)
    case Success((lat, lon, alt)) =>
      if lat.JNull? || lon.JNull? then Success(None)
      else
        match MakePoint(lon, lat)
        case None => Failure(NotACoordinate)
        case Some(p) =>
          var loc := Locate(index, p);
          Success(Some(FlightRecord(lat, lon, alt, loc.country, loc.state)))
  }

  /**
   * The two readings differ only where a latitude or a longitude is `None`:
   * on every other candidate they give the same record or the same error.
   */
  lemma AsWrittenAgreesWithIntended<G>(index: BoundaryIndex<G>, obj: Json)
    requires !(obj.JArr? && |obj.items| >= 3 && (obj.items[0].JNull? || obj.items[1].JNull?))
    ensures ParseFlightRecordAsWritten(index, obj) == ParseFlightRecord(index, obj)
  {
  }

  /**
   * The candidate `[null, 5.0, 300]` aborts the source's parse, while the
   * intended reading drops it.
   */
  lemma NullLatitudeCounterexample<G>(index: BoundaryIndex<G>)
    ensures ParseFlightRecordAsWritten(index, JArr([JNull, JNum(5.0), JNum(300.0)])) == Failure(NotACoordinate)
    ensures ParseFlightRecord(index, JArr([JNull, JNum(5.0), JNum(300.0)])) == Success(None)
  {
  }

  /** A parsed candidate as a batch: `if parsed: results.append(parsed)`, or the error raised. */
  function RecordBatch(parsed: Parsed): Batch
  {
    match parsed
    case Failure(e) => Failure(e)
    case Success(None) => Success([])
    case Success(Some(r)) => Success([r])
  }

  /**
   * Running `acc` and then `next`: the records of both in order, or the first
   * error raised (`next` is never reached after a failure).
   */
  function Extend(acc: Batch, next: Batch): Batch
  {
    match acc
    case Failure(_) => acc
    case Success(xs) =>
      match next
      case Failure(_) => next
      case Success(ys) => Success(xs + ys)
  }

  lemma ExtendAssociative(a: Batch, b: Batch, c: Batch)
    ensures Extend(Extend(a, b), c) == Extend(a, Extend(b, c))
  {
    if a.Success? && b.Success? && c.Success? {
      assert (a.value + b.value) + c.value == a.value + (b.value + c.value);
    }
  }

  lemma ExtendIdentity(a: Batch)
    ensures Extend(a, Success([])) == a
    ensures Extend(Success([]), a) == a
  {
    if a.Success? {
      assert a.value + [] == a.value;
      assert [] + a.value == a.value;
    }
  }
}
