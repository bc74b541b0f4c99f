/** Dataset ingestion of simulator/src/core/mod.rs: one raw record becomes one
    `OrbitalElements` value, and `setup` turns the whole dataset into the list
    handed to the satellite manager. Timestamps are whole nanoseconds; the
    timestamp parser, the unit conversions and the mean-anomaly advance work on
    floats and are given as parameters. */
module CoreIngest {
  import opened Wrappers
  import opened Elements

  /** A dataset record, in the record's own units (rev/day and degrees). */
  datatype RawSatelliteData = RawSatelliteData(
    objectId: string,
    epoch: string,
    meanMotion: real,
    eccentricity: real,
    inclination: real,
    raOfAscNode: real,
    argOfPericenter: real,
    meanAnomaly: real)

  /** The float arithmetic of the conversion: rev/day to rad/s, degrees to
      radians, and the advance `(seconds * mean_motion) % 2π` of the mean
      anomaly over a whole number of seconds. */
  datatype Units = Units(
    revPerDayToRadPerSec: real -> real,
    degreesToRadians: real -> real,
    advance: (int, real) -> real)

  const NanosPerSecond: int := 1_000_000_000

  /** `Duration::num_seconds`: whole seconds, truncated toward zero (not
      Euclidean, unlike Dafny's `/`). */
  function NumSeconds(nanos: int): (r: int)
    ensures nanos >= 0 ==> 0 <= r && r * NanosPerSecond <= nanos < (r + 1) * NanosPerSecond
    ensures nanos < 0 ==> r <= 0 && (r - 1) * NanosPerSecond < nanos <= r * NanosPerSecond
  {
    if nanos >= 0 then nanos / NanosPerSecond else -((-nanos) / NanosPerSecond)
  }

  /** Truncation is symmetric about zero. */
  lemma NumSecondsOdd(nanos: int)
    ensures NumSeconds(-nanos) == -NumSeconds(nanos)
  {
  }

  /** Less than a second in the past counts as zero seconds, where Euclidean
      division would give minus one. */
  lemma NumSecondsTruncates()
    ensures NumSeconds(-1) == 0 && -1 / NanosPerSecond == -1
  {
  }

  /** The unit conversion of lines 55-62; the eccentricity is copied as is. */
  function Convert(raw: RawSatelliteData, units: Units): OrbitalElements
  {
    OrbitalElements(
      units.revPerDayToRadPerSec(raw.meanMotion),
      raw.eccentricity,
      units.degreesToRadians(raw.inclination),
      units.degreesToRadians(raw.raOfAscNode),
      units.degreesToRadians(raw.argOfPericenter),
      units.degreesToRadians(raw.meanAnomaly))
  }

  /** `from_raw_sate_data`: parse the epoch (failing with the parser's error
      before any conversion), convert the units and advance the mean anomaly by
      the whole seconds since the epoch. */
  function FromRawSateData(raw: RawSatelliteData, now: int, parseTime: string -> Result<int, string>,
                           units: Units): (r: Result<OrbitalElements, string>)
    ensures r.Err? <==> parseTime(raw.epoch).Err?
    ensures r.Err? ==> r.error == parseTime(raw.epoch).error
    ensures r.Ok? ==>
      var seconds := NumSeconds(now - parseTime(raw.epoch).value);
      && SepOutMeanAnomaly(r.value).0 == SepOutMeanAnomaly(Convert(raw, units)).0
      && r.value.meanAnomaly == units.degreesToRadians(raw.meanAnomaly) + units.advance(seconds, r.value.meanMotion)
  {
    match parseTime(raw.epoch)
    case Err(e) => Err(e)
    case Ok(observed) =>
      var el := Convert(raw, units);
      var seconds := NumSeconds(now - observed);
      Ok(el.(meanAnomaly := el.meanAnomaly + units.advance(seconds, el.meanMotion)))
  }

  /** The dataset path does not check the eccentricity: a record with
      `e = 1.5` and a readable epoch is accepted, although `from_slice` refuses
      the same value. */
  lemma DatasetAcceptsAnyEccentricity(raw: RawSatelliteData, now: int,
                                      parseTime: string -> Result<int, string>, units: Units)
    requires raw.eccentricity == 1.5 && parseTime(raw.epoch).Ok?
    ensures FromRawSateData(raw, now, parseTime, units).Ok?
    ensures FromRawSateData(raw, now, parseTime, units).value.eccentricity == 1.5
    ensures FromSlice(ToSlice(FromRawSateData(raw, now, parseTime, units).value)).Err?
  {
    var el := FromRawSateData(raw, now, parseTime, units).value;
    assert SepOutMeanAnomaly(el).0.eccentricity == 1.5;
  }

  /** The `map` + `collect::<Result<Vec<_>>>` of lines 120-128: every record
      converted in order, stopping at the first failure. */
  function CollectRecords(records: seq<RawSatelliteData>, now: int,
                          parseTime: string -> Result<int, string>, units: Units)
    : Result<seq<(string, OrbitalElements)>, string>
  {
    if records == [] then Ok([])
    else
      match FromRawSateData(records[0], now, parseTime, units)
      case Err(e) => Err(e)
      case Ok(el) =>
        match CollectRecords(records[1..], now, parseTime, units)
        case Err(e) => Err(e)
        case Ok(rest) => Ok([(records[0].objectId, el)] + rest)
  }

  /** `records[i]` is the first record whose epoch does not parse. */
  predicate FirstFailure(records: seq<RawSatelliteData>, parseTime: string -> Result<int, string>, i: int)
  {
    && 0 <= i < |records| && parseTime(records[i].epoch).Err?
    && forall j :: 0 <= j < i ==> parseTime(records[j].epoch).Ok?
  }

  /** All or nothing: the collection succeeds iff every epoch parses, and then
      keeps the records' order and ids with each record's converted elements;
      otherwise it fails with the parser's error for the first bad record. */
  lemma {:induction false} CollectRecordsSpec(records: seq<RawSatelliteData>, now: int,
                                              parseTime: string -> Result<int, string>, units: Units)
    ensures var r := CollectRecords(records, now, parseTime, units);
      && (r.Ok? <==> forall i :: 0 <= i < |records| ==> parseTime(records[i].epoch).Ok?)
      && (r.Ok? ==> |r.value| == |records|)
      && (r.Ok? ==> forall i :: 0 <= i < |records| ==>
            r.value[i] == (records[i].objectId, FromRawSateData(records[i], now, parseTime, units).value))
      && (r.Err? ==> exists i :: FirstFailure(records, parseTime, i) && r.error == parseTime(records[i].epoch).error)
  {
    CollectRecordsOk(records, now, parseTime, units);
    CollectRecordsErr(records, now, parseTime, units);
  }

  /** The success half of `CollectRecordsSpec`. */
  lemma {:induction false} CollectRecordsOk(records: seq<RawSatelliteData>, now: int,
                                            parseTime: string -> Result<int, string>, units: Units)
    ensures var r := CollectRecords(records, now, parseTime, units);
      && (r.Ok? <==> forall i :: 0 <= i < |records| ==> parseTime(records[i].epoch).Ok?)
      && (r.Ok? ==> |r.value| == |records|)
      && (r.Ok? ==> forall i :: 0 <= i < |records| ==>
            r.value[i] == (records[i].objectId, FromRawSateData(records[i], now, parseTime, units).value))
  {
    if records != [] {
      var tail := records[1..];
      CollectRecordsOk(tail, now, parseTime, units);
      assert forall i :: 1 <= i < |records| ==> records[i] == tail[i - 1];
    }
  }

  /** The failure half of `CollectRecordsSpec`. */
  lemma {:induction false} CollectRecordsErr(records: seq<RawSatelliteData>, now: int,
                                             parseTime: string -> Result<int, string>, units: Units)
    ensures var r := CollectRecords(records, now, parseTime, units);
      r.Err? ==> exists i :: FirstFailure(records, parseTime, i) && r.error == parseTime(records[i].epoch).error
  {
    if records != [] {
      var tail := records[1..];
      CollectRecordsErr(tail, now, parseTime, units);
      if parseTime(records[0].epoch).Ok? {
        var rest := CollectRecords(tail, now, parseTime, units);
        if rest.Err? {
          var i :| FirstFailure(tail, parseTime, i) && rest.error == parseTime(tail[i].epoch).error;
          assert records[i + 1] == tail[i];
          assert FirstFailure(records, parseTime, i + 1) by {
            forall j | 0 <= j < i + 1
              ensures parseTime(records[j].epoch).Ok?
            {
              if j > 0 {
                assert records[j] == tail[j - 1];
              }
            }
          }
        }
      } else {
        assert FirstFailure(records, parseTime, 0);
      }
    }
  }

  /** `setup`'s data: no dataset gives the empty list, an unreadable dataset
      gives the reader's error, and otherwise all records are collected, which
      succeeds iff every epoch parses. */
  function Setup(dataset: Option<Result<seq<RawSatelliteData>, string>>, now: int,
                 parseTime: string -> Result<int, string>, units: Units)
    : (r: Result<seq<(string, OrbitalElements)>, string>)
    ensures dataset.None? ==> r == Ok([])
    ensures dataset.Some? && dataset.value.Err? ==> r == Err(dataset.value.error)
    ensures dataset.Some? && dataset.value.Ok? ==> r == CollectRecords(dataset.value.value, now, parseTime, units)
    ensures dataset.Some? && dataset.value.Ok? ==>
      (r.Ok? <==> forall i :: 0 <= i < |dataset.value.value| ==> parseTime(dataset.value.value[i].epoch).Ok?)
  {
    match dataset
    case None => Ok([])
    case Some(Err(e)) => Err(e)
    case Some(Ok(records)) =>
      CollectRecordsSpec(records, now, parseTime, units);
      CollectRecords(records, now, parseTime, units)
  }

  /** One record with an unreadable epoch makes `setup` fail, whatever the
      other records hold. */
  lemma SetupAllOrNothing(records: seq<RawSatelliteData>, now: int,
                          parseTime: string -> Result<int, string>, units: Units, bad: int)
    requires 0 <= bad < |records| && parseTime(records[bad].epoch).Err?
    ensures Setup(Some(Ok(records)), now, parseTime, units).Err?
  {
    CollectRecordsSpec(records, now, parseTime, units);
  }
}
