/** `SentinelCollection.path` and `compressed_file`: where a scene lives on
    disk, `<prefix>/<name>/<version tag>/<tile[:2]>/<tile[2]>/<tile[3:]>/<year>[/<month>]/<scene id>`. */
module Layout {
  import opened Wrappers
  import opened Errors
  import opened Decimal
  import opened Paths
  import opened Scenes
  import opened Versions
  import Timestamps

  /** One entry of the `processors` list of the collection metadata; `name`
      may be missing. */
  datatype Processor = Processor(name: Option<string>)

  /** The collection record the layout reads: its name, its version and the
      `processors` list of its metadata, empty when the metadata, the key or
      the list is absent or empty. */
  datatype Collection = Collection(name: string, version: VersionValue, processors: seq<Processor>)

  /** `Path(prefix or '')`: a missing or empty prefix leaves the path relative. */
  function Root(prefix: Option<Path>): Path
  {
    match prefix
    case None => []
    case Some(p) => p
  }

  /** The three directory levels of a tile id: `tile[:2]`, `tile[2]` and
      `tile[3:]`, which concatenate back to the tile id. */
  function TileLevels(tile: string): (r: seq<string>)
    requires |tile| >= 3
    ensures |r| == 3 && |r[0]| == 2 && |r[1]| == 1
    ensures r[0] + r[1] + r[2] == tile
  {
    [tile[..2], tile[2..3], tile[3..]]
  }

  /** The rendered parts of a scene directory: collection name, version tag,
      tile id, `str(year)`, `str(month)` and scene id. */
  datatype Parts = Parts(name: string, tag: string, tile: string, year: string, month: string, sceneId: string)
  {
    /** `tile[2]` exists. */
    predicate Valid()
    {
      |tile| >= 3
    }
  }

  /** The directory levels below the root: name, tag, the three tile levels,
      the year, the month when asked for, and the scene id. */
  function Levels(p: Parts, includeMonth: bool): (q: Path)
    requires p.Valid()
    ensures |q| == (if includeMonth then 8 else 7)
    ensures q[0] == p.name && q[1] == p.tag && q[|q| - 1] == p.sceneId
    ensures q[2] + q[3] + q[4] == p.tile && |q[2]| == 2 && |q[3]| == 1
    ensures q[5] == p.year
    ensures includeMonth ==> q[6] == p.month
  {
    var levels := TileLevels(p.tile);
    if includeMonth then [p.name, p.tag, levels[0], levels[1], levels[2], p.year, p.month, p.sceneId]
    else [p.name, p.tag, levels[0], levels[1], levels[2], p.year, p.sceneId]
  }

  /** The parts as `path` evaluates them: the version tag, then the sensing
      date, then `tile[2]`, failing with the first error among them. */
  function PathParts(c: Collection, s: Scene): (r: Result<Parts, Error>)
    requires s.Valid()
    ensures r.Ok? <==> EntryVersion(c.version).Ok? && SensingDate(s).Ok? && |TileId(s)| >= 3
    ensures r.Err? ==>
      r.error == if EntryVersion(c.version).Err? then EntryVersion(c.version).error
                 else if SensingDate(s).Err? then SensingDate(s).error
                 else ShortTile(TileId(s))
    ensures r.Ok? ==> r.value.Valid()
    ensures r.Ok? ==>
      var date := SensingDate(s).value;
      r.value == Parts(c.name, EntryVersion(c.version).value, TileId(s), ToDecimal(date.year), ToDecimal(date.month), s.sceneId)
  {
    var tile := TileId(s);
    var tag :- EntryVersion(c.version);
    var date :- SensingDate(s);
    if |tile| < 3 then Err(ShortTile(tile))
    else Ok(Parts(c.name, tag, tile, ToDecimal(date.year), ToDecimal(date.month), s.sceneId))
  }

  /** The parts as `compressed_file` evaluates them: the sensing date, then
      the version tag, then `tile[2]`. Only the error reported differs from
      `path`. */
  function ArchiveParts(c: Collection, s: Scene): (r: Result<Parts, Error>)
    requires s.Valid()
    ensures r.Ok? <==> PathParts(c, s).Ok?
    ensures r.Ok? ==> r.value == PathParts(c, s).value
    ensures r.Err? ==>
      r.error == if SensingDate(s).Err? then SensingDate(s).error
                 else if EntryVersion(c.version).Err? then EntryVersion(c.version).error
                 else ShortTile(TileId(s))
  {
    var date :- SensingDate(s);
    var tile := TileId(s);
    var tag :- EntryVersion(c.version);
    if |tile| < 3 then Err(ShortTile(tile))
    else Ok(Parts(c.name, tag, tile, ToDecimal(date.year), ToDecimal(date.month), s.sceneId))
  }

  /** `Path(prefix or '') / relative`, passing an error on. */
  function Place(root: Path, parts: Result<Parts, Error>, includeMonth: bool): (r: Result<Path, Error>)
    requires parts.Ok? ==> parts.value.Valid()
    ensures r.Ok? <==> parts.Ok?
    ensures r.Err? ==> r.error == parts.error
    ensures r.Ok? ==> |r.value| >= |root| && r.value[..|root|] == root && r.value[|root|..] == Levels(parts.value, includeMonth)
  {
    match parts
    case Err(e) => Err(e)
    case Ok(p) =>
      var q := Levels(p, includeMonth);
      assert (root + q)[..|root|] == root && (root + q)[|root|..] == q;
      Ok(root + q)
  }

  /** `path(collection, prefix, path_include_month)`. It evaluates the version
      tag, then the sensing date, then `tile[2]`, and fails with the first
      error among them. On success the path is the root followed by the
      collection name, the version tag, the three tile levels, the decimal
      sensing year, the unpadded decimal month when asked for, and the
      scene id. */
  function ScenePath(c: Collection, s: Scene, prefix: Option<Path>, includeMonth: bool): (r: Result<Path, Error>)
    requires s.Valid()
    ensures r.Ok? <==> EntryVersion(c.version).Ok? && SensingDate(s).Ok? && |TileId(s)| >= 3
    ensures r.Err? ==>
      r.error == if EntryVersion(c.version).Err? then EntryVersion(c.version).error
                 else if SensingDate(s).Err? then SensingDate(s).error
                 else ShortTile(TileId(s))
    ensures r.Ok? ==> |r.value| >= |Root(prefix)| && r.value[..|Root(prefix)|] == Root(prefix)
    ensures r.Ok? ==>
      var q := r.value[|Root(prefix)|..];
      && |q| == (if includeMonth then 8 else 7)
      && q[0] == c.name
      && q[1] == EntryVersion(c.version).value
      && q[2] + q[3] + q[4] == TileId(s) && |q[2]| == 2 && |q[3]| == 1
      && q[5] == ToDecimal(SensingDate(s).value.year)
      && (includeMonth ==> q[6] == ToDecimal(SensingDate(s).value.month))
      && q[|q| - 1] == s.sceneId
  {
    Place(Root(prefix), PathParts(c, s), includeMonth)
  }

  /** `compressed_file(collection, prefix, path_include_month)`. It
      evaluates the sensing date first, then the version tag, then
      `tile[2]`. */
  function CompressedFile(c: Collection, s: Scene, prefix: Option<Path>, includeMonth: bool): (r: Result<Path, Error>)
    requires s.Valid()
    ensures r.Err? ==>
      r.error == if SensingDate(s).Err? then SensingDate(s).error
                 else if EntryVersion(c.version).Err? then EntryVersion(c.version).error
                 else ShortTile(TileId(s))
  {
    var dir :- Place(Root(prefix), ArchiveParts(c, s), includeMonth);
    Ok(dir + [s.sceneId + ".zip"])
  }

  /** The archive is the scene directory plus one segment, `<scene id>.zip`,
      and exists exactly when the scene directory does. */
  lemma CompressedFileInScenePath(c: Collection, s: Scene, prefix: Option<Path>, includeMonth: bool)
    requires s.Valid()
    ensures CompressedFile(c, s, prefix, includeMonth).Ok? <==> ScenePath(c, s, prefix, includeMonth).Ok?
    ensures ScenePath(c, s, prefix, includeMonth).Ok? ==>
      CompressedFile(c, s, prefix, includeMonth).value == ScenePath(c, s, prefix, includeMonth).value + [s.sceneId + ".zip"]
  {
    if PathParts(c, s).Ok? {
      assert ArchiveParts(c, s) == PathParts(c, s);
    }
  }

  /** Asking for the month inserts exactly one level, the unpadded month,
      between the year and the scene id, and changes nothing else. */
  lemma MonthLevel(c: Collection, s: Scene, prefix: Option<Path>)
    requires s.Valid()
    ensures ScenePath(c, s, prefix, true).Ok? <==> ScenePath(c, s, prefix, false).Ok?
    ensures ScenePath(c, s, prefix, false).Ok? ==>
      var without := ScenePath(c, s, prefix, false).value;
      var month := SensingDate(s).value.month;
      && ScenePath(c, s, prefix, true).value == without[..|without| - 1] + [ToDecimal(month)] + [s.sceneId]
      && (month < 10 ==> |ToDecimal(month)| == 1)
      && ToDecimal(month)[0] != '0'
  {
    PlaceMonth(Root(prefix), PathParts(c, s));
    if PathParts(c, s).Ok? {
      ToDecimalNoLeadingZero(SensingDate(s).value.month);
    }
  }

  /** Below any root, the month level goes just before the last level. */
  lemma PlaceMonth(root: Path, parts: Result<Parts, Error>)
    requires parts.Ok? ==> parts.value.Valid()
    ensures Place(root, parts, true).Ok? <==> Place(root, parts, false).Ok?
    ensures parts.Ok? ==>
      var without := Place(root, parts, false).value;
      Place(root, parts, true).value == without[..|without| - 1] + [parts.value.month] + [parts.value.sceneId]
  {
    if parts.Ok? {
      var p := parts.value;
      var q := Levels(p, false);
      assert Levels(p, true) == q[..6] + [p.month] + [p.sceneId];
      InsertBeforeLast(root, q, p.month, p.sceneId);
    }
  }

  lemma InsertBeforeLast<T>(root: seq<T>, q: seq<T>, x: T, y: T)
    requires |q| >= 1
    ensures root + (q[..|q| - 1] + [x] + [y]) == (root + q)[..|root + q| - 1] + [x] + [y]
  {
    assert (root + q)[..|root + q| - 1] == root + q[..|q| - 1];
  }

  /** A prefix is prepended as is: the layout below it does not depend on it. */
  lemma PrefixPrepended(c: Collection, s: Scene, root: Path, includeMonth: bool)
    requires s.Valid()
    ensures ScenePath(c, s, Some(root), includeMonth).Ok? <==> ScenePath(c, s, None, includeMonth).Ok?
    ensures ScenePath(c, s, None, includeMonth).Ok? ==>
      ScenePath(c, s, Some(root), includeMonth).value == root + ScenePath(c, s, None, includeMonth).value
  {
    PlacePrefix(root, PathParts(c, s), includeMonth);
  }

  /** Placing below a root is placing below nothing and then prepending the root. */
  lemma PlacePrefix(root: Path, parts: Result<Parts, Error>, includeMonth: bool)
    requires parts.Ok? ==> parts.value.Valid()
    ensures Place(root, parts, includeMonth).Ok? <==> Place([], parts, includeMonth).Ok?
    ensures parts.Ok? ==> Place(root, parts, includeMonth).value == root + Place([], parts, includeMonth).value
  {
    if parts.Ok? {
      var q := Levels(parts.value, includeMonth);
      assert Place([], parts, includeMonth).value == [] + q;
      assert [] + q == q;
    }
  }

  /** The year level is `str(year)`: when the sensing fragment does not start
      with `0` it is that fragment's first four characters. */
  lemma YearLevelFromFragment(c: Collection, s: Scene, prefix: Option<Path>, includeMonth: bool)
    requires s.Valid() && ScenePath(c, s, prefix, includeMonth).Ok?
    requires SensingField(s)[0] != '0'
    ensures ScenePath(c, s, prefix, includeMonth).value[|Root(prefix)| + 5] == SensingField(s)[..4]
  {
    var path := ScenePath(c, s, prefix, includeMonth).value;
    YearText(SensingField(s));
    assert path[|Root(prefix)| + 5] == path[|Root(prefix)|..][5];
  }

  /** `str(year)` of a timestamp not starting with `0` is its first four characters. */
  lemma YearText(field: string)
    requires ReadTimestamp(field).Ok? && field[0] != '0'
    ensures ToDecimal(ReadTimestamp(field).value.year) == field[..4]
  {
    var year := field[..4];
    assert AllDigits(year) && year[0] != '0' by {
      assert year == field[..8][..4];
    }
    ToDecimalUnique(year);
  }

  /** `22KGA` is stored under `22`, `K`, `GA`. */
  lemma ExampleTileLevels()
    ensures TileLevels("22KGA") == ["22", "K", "GA"]
  {
    var tile := "22KGA";
    assert tile[..2] == "22" && tile[2..3] == "K" && tile[3..] == "GA";
  }
}
