/** `SentinelCollection.get_assets`: the auxiliary files of a scene
    directory, each under a fixed key and taken from the first match of its
    pattern; the product metadata sits under its own stem. */
module Assets {
  import opened Wrappers
  import opened Errors
  import opened Text
  import opened Paths
  import opened Scenes
  import opened Layout
  import opened Globs
  import opened Discovery

  /** The keys `get_assets` fills from a pattern of its own. */
  const AssetKeys: set<string> := {"sr_aerosol", "TCI", "AOT", "WVP", "MTD_TL"}

  /** The pattern behind each fixed key. */
  function AssetPattern(key: string): Pattern
    requires key in AssetKeys
  {
    if key == "sr_aerosol" then SrAerosol
    else if key == "MTD_TL" then MtdTl
    else R10mJp2(key)
  }

  /** The entries under fixed keys: each key whose pattern matches, with
      its first match. */
  function FixedAssets(dir: Path, listing: seq<Path>): (r: map<string, Path>)
    ensures forall key :: key in r ==> key in AssetKeys
    ensures forall key :: key in AssetKeys ==>
      (key in r <==> exists i :: 0 <= i < |listing| && Matches(AssetPattern(key), listing[i]))
    ensures forall key :: key in r ==>
      exists i :: FirstMatch(listing, AssetPattern(key)) == Some(i) && r[key] == dir + listing[i]
  {
    map key | key in AssetKeys && FirstMatch(listing, AssetPattern(key)).Some? ::
      dir + listing[FirstMatch(listing, AssetPattern(key)).value]
  }

  /** The dictionary `get_assets` builds from the listing of `dir`. Each
      fixed key is present exactly when its pattern matches some entry, with
      the first match as value; the first `MTD_MSIL*.xml` is present under
      its stem; nothing else is, so an empty listing gives an empty map.
      The fixed keys are distinct from each other and from the metadata
      stem, so the order of the insertions does not matter. */
  function AssetMap(dir: Path, listing: seq<Path>): (r: map<string, Path>)
    ensures forall key :: key in AssetKeys ==>
      (key in r <==> exists i :: 0 <= i < |listing| && Matches(AssetPattern(key), listing[i]))
    ensures forall key :: key in AssetKeys && key in r ==>
      exists i :: FirstMatch(listing, AssetPattern(key)) == Some(i) && r[key] == dir + listing[i]
    ensures FirstMatch(listing, MtdMsil).Some? ==>
      var i := FirstMatch(listing, MtdMsil).value;
      Stem(Name(listing[i])) in r && r[Stem(Name(listing[i]))] == dir + listing[i]
    ensures forall key :: key in r ==>
      key in AssetKeys || (FirstMatch(listing, MtdMsil).Some? && key == Stem(Name(listing[FirstMatch(listing, MtdMsil).value])))
    ensures |listing| == 0 ==> r == map[]
  {
    var fixed := FixedAssets(dir, listing);
    match FirstMatch(listing, MtdMsil)
    case None => fixed
    case Some(i) =>
      MetadataKeyDistinct(listing[i]);
      fixed[Stem(Name(listing[i])) := dir + listing[i]]
  }

  /** The product metadata is never stored under a fixed key: its stem
      starts with `MTD_MSIL`, which no fixed key does. */
  lemma MetadataKeyDistinct(p: Path)
    requires Matches(MtdMsil, p)
    ensures Stem(Name(p)) !in AssetKeys
    ensures "MTD_MSIL" <= Stem(Name(p))
  {
    var name := Name(p);
    KnownSuffix(name, ".xml");
    var stem := Stem(name);
    assert stem == name[..|name| - 4];
    assert "MTD_MSIL" <= stem by {
      assert name[..8] == "MTD_MSIL";
    }
    assert |stem| >= 8 && stem[0] == 'M' && stem[4] == 'M';
  }

  /** `get_assets(collection, path, prefix)`: the asset map of the given
      directory, or of the scene directory when none is given. */
  function GetAssets(c: Collection, s: Scene, path: Option<Path>, prefix: Option<Path>, listing: seq<Path>): (r: Result<map<string, Path>, Error>)
    requires s.Valid()
    ensures r.Err? <==> path.None? && ScenePath(c, s, prefix, false).Err?
    ensures r.Ok? ==> forall key :: key in r.value ==> exists i :: 0 <= i < |listing| && r.value[key] == Resolve(c, s, path, prefix).value + listing[i]
    ensures path.Some? ==> r == Ok(AssetMap(path.value, listing))
    ensures path.None? && ScenePath(c, s, prefix, false).Ok? ==> r == Ok(AssetMap(ScenePath(c, s, prefix, false).value, listing))
  {
    var dir :- Resolve(c, s, path, prefix);
    Ok(AssetMap(dir, listing))
  }
}
