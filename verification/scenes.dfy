/** Sentinel scene identifiers: `Sentinel2Scene` and `Sentinel1Scene`.
    An identifier is split on `_`; each family fixes the number of fragments
    and the admissible first fragment, and reads its fields from fixed
    fragment positions. */
module Scenes {
  import opened Wrappers
  import opened Errors
  import opened Text
  import Timestamps
  import Decimal

  /** Which parser a collection uses: `Sentinel1` collections parse with
      `Sentinel1Scene`, every other Sentinel collection with `Sentinel2Scene`. */
  datatype Family = Sentinel1 | Sentinel2

  /** Number of `_`-separated fragments the family's identifiers have. */
  function FragmentCount(f: Family): nat
  {
    match f
    case Sentinel1 => 9
    case Sentinel2 => 7
  }

  /** Admissible first fragments. */
  function Sources(f: Family): set<string>
  {
    match f
    case Sentinel1 => {"S1A", "S1B"}
    case Sentinel2 => {"S2A", "S2B"}
  }

  /** A parsed identifier: the raw text and its fragments. */
  datatype Scene = Scene(family: Family, sceneId: string, fragments: seq<string>) {

    /** What the constructor establishes; no other scene is ever built. */
    predicate Valid()
    {
      && fragments == Split(sceneId, '_')
      && |fragments| == FragmentCount(family)
      && fragments[0] in Sources(family)
    }
  }

  /** The constructor of the family's parser: split on `_`, then reject a
      wrong fragment count or first fragment. A successful parse keeps the
      identifier, and its fragments are separator-free pieces that join back
      into it. */
  function Parse(family: Family, sceneId: string): (r: Result<Scene, Error>)
    ensures r.Ok? ==> r.value.Valid() && r.value.family == family && r.value.sceneId == sceneId
    ensures r.Ok? ==> Join(r.value.fragments, '_') == sceneId
    ensures r.Ok? ==> forall i :: 0 <= i < |r.value.fragments| ==> '_' !in r.value.fragments[i]
    ensures r.Err? ==> r.error == InvalidScene(sceneId)
  {
    var fragments := Split(sceneId, '_');
    if |fragments| != FragmentCount(family) || fragments[0] !in Sources(family) then
      Err(InvalidScene(sceneId))
    else
      Ok(Scene(family, sceneId, fragments))
  }

  /** The grammar in terms of the text alone: an identifier parses exactly
      when it has one underscore fewer than the family has fragments and
      starts with an admissible source followed by `_`. */
  lemma Grammar(family: Family, sceneId: string)
    ensures Parse(family, sceneId).Ok? <==>
      && Count(sceneId, '_') + 1 == FragmentCount(family)
      && exists src :: src in Sources(family) && src + "_" <= sceneId
  {
    var fragments := Split(sceneId, '_');
    match family
    case Sentinel1 =>
      SplitHead(sceneId, "S1A", '_');
      SplitHead(sceneId, "S1B", '_');
    case Sentinel2 =>
      SplitHead(sceneId, "S2A", '_');
      SplitHead(sceneId, "S2B", '_');
  }

  /** No identifier is accepted by both parsers. */
  lemma NoSharedIdentifier(sceneId: string)
    ensures !(Parse(Sentinel1, sceneId).Ok? && Parse(Sentinel2, sceneId).Ok?)
  {
  }

  /** `tile_id()`: Sentinel-2 drops the first character of fragment 5
      (`T22KGA` gives `22KGA`); Sentinel-1 takes fragment 6 unchanged. */
  function TileId(s: Scene): (r: string)
    requires s.Valid()
    ensures '_' !in r
    ensures s.family == Sentinel2 ==>
      && |r| == (if |s.fragments[5]| == 0 then 0 else |s.fragments[5]| - 1)
      && EndsWith(s.fragments[5], r)
    ensures s.family == Sentinel1 ==> r == s.fragments[6]
  {
    match s.family
    case Sentinel2 =>
      var f := s.fragments[5];
      if |f| == 0 then "" else f[1..]
    case Sentinel1 =>
      s.fragments[6]
  }

  /** `source()`: the first fragment, with which the identifier begins. */
  function Source(s: Scene): (r: string)
    requires s.Valid()
    ensures r in Sources(s.family)
    ensures r + "_" <= s.sceneId
  {
    SplitHead(s.sceneId, s.fragments[0], '_');
    s.fragments[0]
  }

  /** `satellite()`: the last two characters of the first fragment, which
      are the source without its leading `S`. */
  function Satellite(s: Scene): (r: string)
    requires s.Valid()
    ensures s.family == Sentinel2 ==> r in {"2A", "2B"}
    ensures s.family == Sentinel1 ==> r in {"1A", "1B"}
    ensures "S" + r == Source(s)
  {
    var part := s.fragments[0];
    if |part| >= 2 then part[|part| - 2..] else part
  }

  /** The fragment holding the sensing time: 2 for Sentinel-2, 4 for Sentinel-1. */
  function SensingField(s: Scene): string
    requires s.Valid()
  {
    match s.family
    case Sentinel2 => s.fragments[2]
    case Sentinel1 => s.fragments[4]
  }

  /** The fragment holding the processing time: the last one for
      Sentinel-2, 5 for Sentinel-1. */
  function ProcessingField(s: Scene): string
    requires s.Valid()
  {
    match s.family
    case Sentinel2 => s.fragments[|s.fragments| - 1]
    case Sentinel1 => s.fragments[5]
  }

  /** Reads a timestamp fragment with `%Y%m%dT%H%M%S`. A malformed one is a
      date error, never the grammar error; a well-formed one yields the
      values of its first four digits as year and the next two as month,
      and renders back to the fragment. */
  function ReadTimestamp(field: string): (r: Result<Timestamps.DateTime, Error>)
    ensures r.Ok? ==> Timestamps.WellFormed(field) && Timestamps.InRange(r.value)
    ensures r.Ok? ==> r.value.year == Decimal.Value(field[..4]) && r.value.month == Decimal.Value(field[4..6])
    ensures r.Ok? ==> Timestamps.Format(r.value) == field[..8] + "T" + field[9..]
    ensures r.Err? ==> r.error == BadTimestamp(field)
    ensures r.Ok? <==> Timestamps.Parse(field).Some?
    ensures Timestamps.WellFormed(field) && Timestamps.InRange(Timestamps.Fields(field[..8], field[9..])) ==>
      r == Ok(Timestamps.Fields(field[..8], field[9..]))
  {
    match Timestamps.Parse(field)
    case None => Err(BadTimestamp(field))
    case Some(d) =>
      Timestamps.FormatParse(field);
      Ok(d)
  }

  /** `sensing_date()`: the timestamp in fragment 2 of a Sentinel-2
      identifier, fragment 4 of a Sentinel-1 one. */
  function SensingDate(s: Scene): (r: Result<Timestamps.DateTime, Error>)
    requires s.Valid()
    ensures s.family == Sentinel2 ==> r == ReadTimestamp(s.fragments[2])
    ensures s.family == Sentinel1 ==> r == ReadTimestamp(s.fragments[4])
  {
    ReadTimestamp(SensingField(s))
  }

  /** `processing_date()`: the timestamp in the last fragment (6) of a
      Sentinel-2 identifier, fragment 5 of a Sentinel-1 one. */
  function ProcessingDate(s: Scene): (r: Result<Timestamps.DateTime, Error>)
    requires s.Valid()
    ensures s.family == Sentinel2 ==> r == ReadTimestamp(s.fragments[6])
    ensures s.family == Sentinel1 ==> r == ReadTimestamp(s.fragments[5])
  {
    ReadTimestamp(ProcessingField(s))
  }
}
