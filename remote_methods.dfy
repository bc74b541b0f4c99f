/** The remote methods of simulator/src/io/mod.rs. JSON decoding is abstracted:
    the parameters arrive as `None` when the request carried none, and otherwise
    as the decoder's verdict, either the decoded value or the decoder's error
    message. The one effect, `event.send`, is returned as an optional event. */
module RemoteMethods {
  import opened Wrappers
  import opened Elements
  import opened Spawner

  /** `error_codes::INVALID_PARAMS`, the JSON-RPC 2.0 code for invalid method
      parameters. */
  const InvalidParams: int := -32602

  const ParamsNotProvided: string := "Params not provided"

  /** A `BrpError`; its `data` field is always `None` here and is not
      modelled. */
  datatype BrpError = BrpError(code: int, message: string)

  /** A request's parameters: absent, or the decoder's verdict on them. */
  type Params<T> = Option<Result<T, string>>

  datatype AddSatelliteParams = AddSatelliteParams(id: string, elements: Slice6)

  /** The reply (`Ok(Value::Null)` or an error) and the event sent, if any. */
  datatype Outcome = Outcome(reply: Result<(), BrpError>, sent: Option<SpawnSatellites>)

  /** `parse`: a decoding failure becomes `INVALID_PARAMS` with the decoder's
      message. */
  function Parse<T>(decoded: Result<T, string>): (r: Result<T, BrpError>)
    ensures decoded.Ok? <==> r.Ok?
    ensures r.Ok? ==> r.value == decoded.value
    ensures r.Err? ==> r.error == BrpError(InvalidParams, decoded.error)
  {
    match decoded
    case Ok(v) => Ok(v)
    case Err(msg) => Err(BrpError(InvalidParams, msg))
  }

  /** `parse_some`: missing parameters are `INVALID_PARAMS` with "Params not
      provided"; present ones go through `parse`. */
  function ParseSome<T>(params: Params<T>): (r: Result<T, BrpError>)
    ensures params.None? ==> r == Err(BrpError(InvalidParams, ParamsNotProvided))
    ensures r.Ok? <==> params.Some? && params.value.Ok?
    ensures r.Err? ==> r.error.code == InvalidParams
  {
    match params
    case None => Err(BrpError(InvalidParams, ParamsNotProvided))
    case Some(decoded) => Parse(decoded)
  }

  /** `from_slice` with its message mapped to `INVALID_PARAMS`. */
  function Validate(p: AddSatelliteParams): (r: Result<(string, OrbitalElements), BrpError>)
    ensures r.Ok? <==> FromSlice(p.elements).Ok?
    ensures r.Ok? ==> r.value == (p.id, FromSlice(p.elements).value)
    ensures r.Err? ==> r.error == BrpError(InvalidParams, InvalidEccentricity)
  {
    match FromSlice(p.elements)
    case Err(msg) => Err(BrpError(InvalidParams, msg))
    case Ok(data) => Ok((p.id, data))
  }

  /** `add_satellite`. */
  function AddSatellite(params: Params<AddSatelliteParams>): (r: Outcome)
    ensures r.reply.Err? <==> r.sent.None?
  {
    match ParseSome(params)
    case Err(e) => Outcome(Err(e), None)
    case Ok(p) =>
      match Validate(p)
      case Err(e) => Outcome(Err(e), None)
      case Ok(entry) => Outcome(Ok(()), Some(SpawnSatellites([entry])))
  }

  /** `add_satellite` succeeds iff the parameters are present, decode and have
      an elliptic eccentricity; on success it sends exactly one event holding
      the one `(id, elements)` pair, and on failure it sends nothing and replies
      `INVALID_PARAMS`. */
  lemma AddSatelliteSpec(params: Params<AddSatelliteParams>)
    ensures var r := AddSatellite(params);
      && (r.reply.Ok? <==> params.Some? && params.value.Ok? && EllipticEccentricity(params.value.value.elements[1]))
      && (r.reply.Ok? ==>
            var p := params.value.value;
            r.sent == Some(SpawnSatellites([(p.id, FromSlice(p.elements).value)])) &&
            ToSlice(FromSlice(p.elements).value) == p.elements)
      && (r.reply.Err? ==> r.sent.None? && r.reply.error.code == InvalidParams)
      && (params.Some? && params.value.Ok? && !EllipticEccentricity(params.value.value.elements[1]) ==>
            r.reply == Err(BrpError(InvalidParams, InvalidEccentricity)))
  {
  }

  /** The `map` + `collect::<BrpResult<Vec<_>>>` of lines 94-104: every entry
      validated in order, stopping at the first invalid one. */
  function ValidateAll(ps: seq<AddSatelliteParams>): Result<seq<(string, OrbitalElements)>, BrpError>
  {
    if ps == [] then Ok([])
    else
      match Validate(ps[0])
      case Err(e) => Err(e)
      case Ok(entry) =>
        match ValidateAll(ps[1..])
        case Err(e) => Err(e)
        case Ok(rest) => Ok([entry] + rest)
  }

  /** All or nothing: the batch is accepted iff every entry's eccentricity is
      elliptic, and then keeps the input's length, order and ids. */
  lemma {:induction false} ValidateAllSpec(ps: seq<AddSatelliteParams>)
    ensures var r := ValidateAll(ps);
      && (r.Ok? <==> forall i :: 0 <= i < |ps| ==> EllipticEccentricity(ps[i].elements[1]))
      && (r.Ok? ==> |r.value| == |ps|)
      && (r.Ok? ==> forall i :: 0 <= i < |ps| ==> r.value[i] == (ps[i].id, FromSlice(ps[i].elements).value))
      && (r.Err? ==> r.error == BrpError(InvalidParams, InvalidEccentricity))
  {
    if ps != [] {
      var tail := ps[1..];
      ValidateAllSpec(tail);
      assert forall i :: 1 <= i < |ps| ==> ps[i] == tail[i - 1];
      if Validate(ps[0]).Ok? && ValidateAll(tail).Err? {
        var i :| 0 <= i < |tail| && !EllipticEccentricity(tail[i].elements[1]);
        assert ps[i + 1] == tail[i];
      }
    }
  }

  /** `add_satellites`. */
  function AddSatellites(params: Params<seq<AddSatelliteParams>>): (r: Outcome)
    ensures r.reply.Err? <==> r.sent.None?
  {
    match ParseSome(params)
    case Err(e) => Outcome(Err(e), None)
    case Ok(ps) =>
      match ValidateAll(ps)
      case Err(e) => Outcome(Err(e), None)
      case Ok(satellites) => Outcome(Ok(()), Some(SpawnSatellites(satellites)))
  }

  predicate AllElliptic(ps: seq<AddSatelliteParams>)
  {
    forall i :: 0 <= i < |ps| ==> EllipticEccentricity(ps[i].elements[1])
  }

  /** `add_satellites` sends one event iff the parameters decode and every
      entry is valid; that event lists the entries in input order with their
      ids; one invalid entry sends nothing. */
  lemma AddSatellitesSpec(params: Params<seq<AddSatelliteParams>>)
    ensures var r := AddSatellites(params);
      && (r.reply.Ok? <==> params.Some? && params.value.Ok? && AllElliptic(params.value.value))
      && (r.reply.Ok? ==>
            var ps := params.value.value;
            && r.sent.Some? && |r.sent.value.satellites| == |ps|
            && forall i :: 0 <= i < |ps| ==> r.sent.value.satellites[i] == (ps[i].id, FromSlice(ps[i].elements).value))
      && (r.reply.Err? ==> r.sent.None? && r.reply.error.code == InvalidParams)
  {
    if params.Some? && params.value.Ok? {
      ValidateAllSpec(params.value.value);
    }
  }

  /** A batch of one behaves like `add_satellite` on that entry. */
  lemma AddSatellitesOfOne(p: AddSatelliteParams)
    ensures AddSatellites(Some(Ok([p]))) == AddSatellite(Some(Ok(p)))
  {
    assert [p][1..] == [];
    assert ValidateAll([p][1..]) == Ok([]);
    if FromSlice(p.elements).Ok? {
      var entry := (p.id, FromSlice(p.elements).value);
      assert Validate([p][0]) == Ok(entry);
      assert [entry] + [] == [entry];
      assert ValidateAll([p]) == Ok([entry]);
    }
  }
}
