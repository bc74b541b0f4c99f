/** The satellite spawner of simulator/src/satellite/mod.rs: `setup` reads the
    dataset and fills the `SatelliteSpawner` queue, `receive_spawn_event`
    appends the satellites of each `SpawnSatellites` event, and
    `spawn_satellites` drains the queue, spawning one orbit per entry. A spawned
    orbit is modelled by its `(id, elements)` entry, in spawn order. */
module Spawner {
  import opened Wrappers
  import opened Elements
  import opened CoreIngest

  /** A `SpawnSatellites` event. */
  datatype SpawnSatellites = SpawnSatellites(satellites: seq<(string, OrbitalElements)>)

  /** How this `setup` can end early: the dataset reader's error, or the panic
      of `unwrap` on an epoch that does not parse. */
  datatype SetupFailure = ReadFailed(message: string) | EpochPanic(objectId: string)

  /** The satellites of `events`, event by event, in order. */
  function Flatten(events: seq<SpawnSatellites>): seq<(string, OrbitalElements)>
  {
    if events == [] then [] else Flatten(events[..|events| - 1]) + events[|events| - 1].satellites
  }

  /** Lines 114-124: every record converted in order; the first record whose
      epoch does not parse panics. */
  function ConvertAll(records: seq<RawSatelliteData>, now: int,
                      parseTime: string -> Result<int, string>, units: Units)
    : Result<seq<(string, OrbitalElements)>, SetupFailure>
  {
    if records == [] then Ok([])
    else
      match FromRawSateData(records[0], now, parseTime, units)
      case Err(_) => Err(EpochPanic(records[0].objectId))
      case Ok(el) =>
        match ConvertAll(records[1..], now, parseTime, units)
        case Err(f) => Err(f)
        case Ok(rest) => Ok([(records[0].objectId, el)] + rest)
  }

  /** The data of lines 109-127: no dataset gives the empty list, an unreadable
      dataset the reader's error, and otherwise every record is converted, which
      succeeds iff every epoch parses. */
  function SetupData(dataset: Option<Result<seq<RawSatelliteData>, string>>, now: int,
                     parseTime: string -> Result<int, string>, units: Units)
    : (r: Result<seq<(string, OrbitalElements)>, SetupFailure>)
    ensures dataset.None? ==> r == Ok([])
    ensures dataset.Some? && dataset.value.Err? ==> r == Err(ReadFailed(dataset.value.error))
    ensures dataset.Some? && dataset.value.Ok? ==> r == ConvertAll(dataset.value.value, now, parseTime, units)
    ensures dataset.Some? && dataset.value.Ok? ==>
      (r.Ok? <==> forall i :: 0 <= i < |dataset.value.value| ==> parseTime(dataset.value.value[i].epoch).Ok?)
  {
    match dataset
    case None => Ok([])
    case Some(Err(e)) => Err(ReadFailed(e))
    case Some(Ok(records)) =>
      ConvertAllMatchesCollect(records, now, parseTime, units);
      CollectRecordsSpec(records, now, parseTime, units);
      ConvertAll(records, now, parseTime, units)
  }

  /** This setup and the one of simulator/src/core/mod.rs accept the same
      datasets and produce the same list; they differ only in how a bad epoch
      ends the program (a panic here, an error there). */
  lemma {:induction false} ConvertAllMatchesCollect(records: seq<RawSatelliteData>, now: int,
                                                    parseTime: string -> Result<int, string>, units: Units)
    ensures ConvertAll(records, now, parseTime, units).Ok? <==> CollectRecords(records, now, parseTime, units).Ok?
    ensures ConvertAll(records, now, parseTime, units).Ok? ==>
      ConvertAll(records, now, parseTime, units).value == CollectRecords(records, now, parseTime, units).value
  {
    if records != [] {
      ConvertAllMatchesCollect(records[1..], now, parseTime, units);
    }
  }

  /** The `SatelliteSpawner` resource; mesh and material handles are not
      modelled. */
  class SatelliteSpawner {
    var unspawnedSats: seq<(string, OrbitalElements)>

    /** `insert_resource(SatelliteSpawner { .., unspawned_sats: data })`. */
    constructor(data: seq<(string, OrbitalElements)>)
      ensures unspawnedSats == data
    {
      unspawnedSats := data;
    }

    /** `receive_spawn_event`: each event's satellites are appended, in event
        order, after the entries already queued. */
    method ReceiveSpawnEvent(events: seq<SpawnSatellites>)
      modifies this
      ensures unspawnedSats == old(unspawnedSats) + Flatten(events)
    {
      for i := 0 to |events|
        invariant unspawnedSats == old(unspawnedSats) + Flatten(events[..i])
      {
        assert events[..i + 1][..i] == events[..i];
        unspawnedSats := unspawnedSats + events[i].satellites;
      }
      assert events[..|events|] == events;
    }

    /** `spawn_satellites`: one orbit per queued entry, in queue order, and the
        queue is left empty. */
    method SpawnQueued() returns (spawned: seq<(string, OrbitalElements)>)
      modifies this
      ensures spawned == old(unspawnedSats)
      ensures unspawnedSats == []
    {
      var queue := unspawnedSats;
      unspawnedSats := [];
      spawned := [];
      for i := 0 to |queue|
        invariant spawned == queue[..i]
      {
        spawned := spawned + [queue[i]];
      }
    }
  }

  /** `setup` after the data step: lines 130-139 spawn an orbit for every
      dataset entry, and lines 146-150 also queue every entry. */
  method Setup(data: seq<(string, OrbitalElements)>) returns (spawner: SatelliteSpawner, spawned: seq<(string, OrbitalElements)>)
    ensures fresh(spawner)
    ensures spawned == data
    ensures spawner.unspawnedSats == data
  {
    spawned := [];
    for i := 0 to |data|
      invariant spawned == data[..i]
    {
      spawned := spawned + [data[i]];
    }
    spawner := new SatelliteSpawner(data);
  }

  /** Startup followed by the first `Update` (receive, then spawn) as
      written: the dataset is spawned once by `setup` and once more from the
      queue. */
  method StartupThenUpdate(data: seq<(string, OrbitalElements)>, events: seq<SpawnSatellites>)
    returns (spawned: seq<(string, OrbitalElements)>)
    ensures spawned == data + data + Flatten(events)
  {
    var spawner, atStartup := Setup(data);
    spawner.ReceiveSpawnEvent(events);
    var atUpdate := spawner.SpawnQueued();
    spawned := atStartup + atUpdate;
  }

  /** A dataset of one satellite and no events: its orbit is spawned twice. */
  method DoubleSpawn(entry: (string, OrbitalElements)) returns (spawned: seq<(string, OrbitalElements)>)
    ensures spawned == [entry, entry]
    ensures multiset(spawned)[entry] == 2
  {
    spawned := StartupThenUpdate([entry], []);
  }

  /** `setup` with the queue as the only spawning path. */
  method SetupQueueOnly(data: seq<(string, OrbitalElements)>) returns (spawner: SatelliteSpawner)
    ensures fresh(spawner)
    ensures spawner.unspawnedSats == data
  {
    spawner := new SatelliteSpawner(data);
  }

  /** With that setup, Startup and the first `Update` spawn every dataset entry
      and every requested satellite exactly as often as it was supplied. */
  method StartupThenUpdateQueueOnly(data: seq<(string, OrbitalElements)>, events: seq<SpawnSatellites>)
    returns (spawned: seq<(string, OrbitalElements)>)
    ensures spawned == data + Flatten(events)
    ensures multiset(spawned) == multiset(data) + multiset(Flatten(events))
  {
    var spawner := SetupQueueOnly(data);
    spawner.ReceiveSpawnEvent(events);
    spawned := spawner.SpawnQueued();
  }
}
