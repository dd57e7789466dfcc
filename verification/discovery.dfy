/** `SentinelCollection.get_files` and `get_assets`: turning the listing of
    a scene directory into a dictionary from band or asset names to files.

    A listing is the sequence of entries found below the directory, each a
    path relative to it, in the order the filesystem yields them; the
    values of the dictionaries are those paths prefixed with the directory. */
module Discovery {
  import opened Wrappers
  import opened Errors
  import opened Text
  import opened Paths
  import opened Scenes
  import opened Layout
  import opened Folds
  import opened Globs

  // ---------------------------------------------------------------------
  // Choosing the branch

  /** `[proc['name'].lower() for proc in processors]`: fails on the first
      processor without a name, and otherwise lower-cases every name. */
  function ProcessorNames(ps: seq<Processor>): (r: Result<seq<string>, Error>)
    ensures r.Ok? <==> forall i :: 0 <= i < |ps| ==> ps[i].name.Some?
    ensures r.Ok? ==> |r.value| == |ps|
    ensures r.Ok? ==> forall i :: 0 <= i < |ps| ==> r.value[i] == Lower(ps[i].name.value)
    ensures r.Err? ==> r.error == MissingProcessorName
    decreases |ps|
  {
    if |ps| == 0 then Ok([])
    else
      match ps[0].name
      case None => Err(MissingProcessorName)
      case Some(n) =>
        var rest :- ProcessorNames(ps[1..]);
        assert forall i :: 1 <= i < |ps| ==> ps[i] == ps[1..][i - 1];
        Ok([Lower(n)] + rest)
  }

  /** Whether `get_files` takes the Sen2cor branch: the collection has a
      non-empty processor list and one of its names is `sen2cor` in any
      letter case. An empty list never looks at the names; a non-empty one
      with an unnamed processor is an error. */
  function UsesSen2cor(c: Collection): (r: Result<bool, Error>)
    ensures r.Err? <==> exists i :: 0 <= i < |c.processors| && c.processors[i].name.None?
    ensures r == Ok(true) <==>
      && (forall i :: 0 <= i < |c.processors| ==> c.processors[i].name.Some?)
      && (exists i :: 0 <= i < |c.processors| && Lower(c.processors[i].name.value) == "sen2cor")
    ensures r.Err? ==> r.error == MissingProcessorName
  {
    if |c.processors| == 0 then Ok(false)
    else
      var names :- ProcessorNames(c.processors);
      Ok("sen2cor" in names)
  }

  /** Where a scan looks: the given directory, or the scene directory
      `path(collection, prefix)` without the month level. */
  function Resolve(c: Collection, s: Scene, path: Option<Path>, prefix: Option<Path>): (r: Result<Path, Error>)
    requires s.Valid()
  {
    match path
    case Some(d) => Ok(d)
    case None => ScenePath(c, s, prefix, false)
  }

  // ---------------------------------------------------------------------
  // Tokens

  /** `name.split('_')[-2]`, `None` where Python raises `IndexError`: the
      token before the last underscore, which exists exactly when the name
      has an underscore. */
  function BandToken(name: string): (r: Option<string>)
    ensures r.Some? <==> '_' in name
    ensures r.Some? ==> '_' !in r.value
  {
    var tokens := Split(name, '_');
    CountPositive(name, '_');
    if |tokens| < 2 then None else Some(tokens[|tokens| - 2])
  }

  /** `stem.split('_')[-1]`: the text after the last underscore. */
  function LastToken(stem: string): (r: string)
    ensures '_' !in r
    ensures EndsWith(stem, r)
  {
    var tokens := Split(stem, '_');
    var last := tokens[|tokens| - 1];
    if |tokens| >= 2 then
      JoinSplitLast(tokens, '_');
      last
    else
      last
  }

  /** `'_'.join(stem.split('_')[n:])`: the tokens from index `n` on, empty
      when there are no more than `n` of them. */
  function TokensFrom(stem: string, n: nat): string
  {
    var tokens := Split(stem, '_');
    if n <= |tokens| then Join(tokens[n..], '_') else ""
  }

  /** A name built from underscore-free tokens offers its next-to-last token,
      e.g. `T22KGA_20200101T133239_B04_10m.jp2` offers `B04`. */
  lemma {:induction false} BandTokenOfJoin(fs: seq<string>)
    requires |fs| >= 2 && forall i :: 0 <= i < |fs| ==> '_' !in fs[i]
    ensures BandToken(Join(fs, '_')) == Some(fs[|fs| - 2])
  {
    SplitJoin(fs, '_');
  }

  /** A stem built from underscore-free tokens ends in its last token. */
  lemma {:induction false} LastTokenOfJoin(fs: seq<string>)
    requires |fs| >= 1 && forall i :: 0 <= i < |fs| ==> '_' !in fs[i]
    ensures LastToken(Join(fs, '_')) == fs[|fs| - 1]
  {
    SplitJoin(fs, '_');
  }

  /** A file stem `<scene id>_<band>` with `band` made of underscore-free
      tokens contains the identifier without its last fragment, and has
      `band` as its key. */
  lemma {:induction false} SceneFileKey(s: Scene, band: seq<string>)
    requires s.Valid()
    requires |band| >= 1 && forall i :: 0 <= i < |band| ==> '_' !in band[i]
    ensures Contains(s.sceneId + "_" + Join(band, '_'), SceneStem(s))
    ensures TokensFrom(s.sceneId + "_" + Join(band, '_'), |s.fragments|) == Join(band, '_')
  {
    var fs := s.fragments;
    var stem := s.sceneId + "_" + Join(band, '_');
    JoinAppend(fs, band, '_');
    assert stem == Join(fs + band, '_');
    assert forall i :: 0 <= i < |fs + band| ==> '_' !in (fs + band)[i] by {
      forall i | 0 <= i < |fs + band| ensures '_' !in (fs + band)[i] {
        if i >= |fs| {
          assert (fs + band)[i] == band[i - |fs|];
        }
      }
    }
    SplitJoin(fs + band, '_');
    assert (fs + band)[|fs|..] == band;
    JoinSplitLast(fs, '_');
    assert SceneStem(s) <= s.sceneId;
    assert s.sceneId <= stem;
  }

  // ---------------------------------------------------------------------
  // Listings

  /** The first entry of the listing that matches, as `list(...)[0]` reads it. */
  function FirstMatch(listing: seq<Path>, pat: Pattern): (r: Option<nat>)
    ensures r.Some? ==> r.value < |listing| && Matches(pat, listing[r.value])
    ensures r.Some? ==> forall j :: 0 <= j < r.value ==> !Matches(pat, listing[j])
    ensures r.None? <==> forall j :: 0 <= j < |listing| ==> !Matches(pat, listing[j])
    decreases |listing|
  {
    if |listing| == 0 then None
    else if Matches(pat, listing[0]) then Some(0)
    else
      var rest := FirstMatch(listing[1..], pat);
      assert forall j :: 1 <= j < |listing| ==> listing[j] == listing[1..][j - 1];
      match rest
      case None => None
      case Some(i) => Some(i + 1)
  }

  /** The full paths of the matching entries, in listing order. */
  function Select(dir: Path, listing: seq<Path>, pat: Pattern): (r: seq<Path>)
    ensures forall i :: 0 <= i < |listing| && Matches(pat, listing[i]) ==> dir + listing[i] in r
    ensures forall f :: f in r ==> exists i :: 0 <= i < |listing| && Matches(pat, listing[i]) && f == dir + listing[i]
    decreases |listing|
  {
    if |listing| == 0 then []
    else
      var rest := Select(dir, listing[1..], pat);
      assert forall i :: 1 <= i < |listing| ==> listing[i] == listing[1..][i - 1];
      if Matches(pat, listing[0]) then [dir + listing[0]] + rest else rest
  }

  // ---------------------------------------------------------------------
  // The Sen2cor branch

  /** The band a jp2 file offers, `AOT` and `WVP` skipped. */
  function Jp2Entry(f: Path): Entry<Path>
    requires '_' in Name(f)
  {
    var band := BandToken(Name(f)).value;
    if band == "AOT" || band == "WVP" then Skip else Put(band, f)
  }

  /** The entries of the sorted jp2 files, failing on the first file whose
      name has no underscore. */
  function Jp2Entries(files: seq<Path>): (r: Result<seq<Entry<Path>>, Error>)
    ensures r.Ok? <==> forall i :: 0 <= i < |files| ==> '_' in Name(files[i])
    ensures r.Ok? ==> |r.value| == |files| && forall i :: 0 <= i < |files| ==> r.value[i] == Jp2Entry(files[i])
    ensures r.Err? ==> exists i :: 0 <= i < |files| && '_' !in Name(files[i]) && r.error == MissingBandToken(Name(files[i]))
    decreases |files|
  {
    if |files| == 0 then Ok([])
    else if '_' !in Name(files[0]) then Err(MissingBandToken(Name(files[0])))
    else
      var rest := Jp2Entries(files[1..]);
      assert forall i :: 1 <= i < |files| ==> files[i] == files[1..][i - 1];
      match rest
      case Err(e) => Err(e)
      case Ok(es) => Ok([Jp2Entry(files[0])] + es)
  }

  /** The jp2 part of the Sen2cor branch: every `.jp2` below an `IMG_DATA`
      directory, in sorted order, each band kept from its first file. */
  function Jp2Map(dir: Path, listing: seq<Path>): Result<map<string, Path>, Error>
  {
    var es :- Jp2Entries(Sort(Select(dir, listing, ImgDataJp2)));
    Ok(FirstWins(es, map[]))
  }

  /** The band a `.tif` directly inside `IMG_DATA` offers: the last token of
      its stem. */
  function TifEntry(dir: Path, p: Path): Entry<Path>
  {
    if Matches(ImgDataTif, p) then Put(LastToken(Stem(Name(p))), dir + p) else Skip
  }

  function TifEntries(dir: Path, listing: seq<Path>): (r: seq<Entry<Path>>)
    ensures |r| == |listing| && forall i :: 0 <= i < |listing| ==> r[i] == TifEntry(dir, listing[i])
  {
    seq(|listing|, i requires 0 <= i < |listing| => TifEntry(dir, listing[i]))
  }

  /** The Sen2cor branch: the jp2 bands, then the tif bands written over
      them in listing order. */
  function Sen2corFiles(dir: Path, listing: seq<Path>): Result<map<string, Path>, Error>
  {
    var jp2 :- Jp2Map(dir, listing);
    Ok(LastWins(TifEntries(dir, listing), jp2))
  }

  // ---------------------------------------------------------------------
  // The default branch

  /** `'_'.join(fragments[:-1])`: the identifier without its last fragment. */
  function SceneStem(s: Scene): string
    requires s.Valid()
  {
    Join(s.fragments[..|s.fragments| - 1], '_')
  }

  /** Whether a top-level file is a scene file: its stem contains the
      identifier without its last fragment, it is not a `.png`, and its stem
      does not end in `aerosol`. */
  predicate DefaultMatch(s: Scene, name: string)
    requires s.Valid()
  {
    Contains(Stem(name), SceneStem(s)) && Suffix(name) != ".png" && !EndsWith(Stem(name), "aerosol")
  }

  /** The band of a scene file: its stem tokens past the identifier's fragments. */
  function DefaultKey(s: Scene, name: string): string
    requires s.Valid()
  {
    TokensFrom(Stem(name), |s.fragments|)
  }

  function DefaultEntry(s: Scene, dir: Path, p: Path): Entry<Path>
    requires s.Valid()
  {
    if Matches(AnyEntry, p) && DefaultMatch(s, Name(p)) then Put(DefaultKey(s, Name(p)), dir + p) else Skip
  }

  function DefaultEntries(s: Scene, dir: Path, listing: seq<Path>): (r: seq<Entry<Path>>)
    requires s.Valid()
    ensures |r| == |listing| && forall i :: 0 <= i < |listing| ==> r[i] == DefaultEntry(s, dir, listing[i])
  {
    seq(|listing|, i requires 0 <= i < |listing| => DefaultEntry(s, dir, listing[i]))
  }

  /** The default branch: every scene file at the top level under its band,
      later files overwriting earlier ones. */
  function DefaultFiles(s: Scene, dir: Path, listing: seq<Path>): map<string, Path>
    requires s.Valid()
  {
    LastWins(DefaultEntries(s, dir, listing), map[])
  }

  // ---------------------------------------------------------------------
  // get_files

  /** `get_files(collection, path, prefix)`. Without a directory it scans
      the scene directory, and fails as `path` does; with one, it fails only
      on an unnamed processor or, in the Sen2cor branch, a jp2 without band
      token (see GetFilesBranch). */
  function GetFiles(c: Collection, s: Scene, path: Option<Path>, prefix: Option<Path>, listing: seq<Path>): (r: Result<map<string, Path>, Error>)
    requires s.Valid()
    ensures path.None? && ScenePath(c, s, prefix, false).Err? ==> r == Err(ScenePath(c, s, prefix, false).error)
    ensures (path.Some? || ScenePath(c, s, prefix, false).Ok?) && UsesSen2cor(c).Err? ==> r == Err(MissingProcessorName)
  {
    var dir :- Resolve(c, s, path, prefix);
    var sen2cor :- UsesSen2cor(c);
    if sen2cor then Sen2corFiles(dir, listing) else Ok(DefaultFiles(s, dir, listing))
  }

  // ---------------------------------------------------------------------
  // What the scans find

  /** Listing entry `i` is a jp2 below `IMG_DATA` whose name offers band `k`. */
  predicate Jp2Offers(listing: seq<Path>, i: int, k: string)
  {
    0 <= i < |listing| && Matches(ImgDataJp2, listing[i]) && BandToken(Name(listing[i])) == Some(k)
  }

  /** Listing entry `i` is a tif directly inside `IMG_DATA` offering band `k`. */
  predicate TifOffers(listing: seq<Path>, i: int, k: string)
  {
    0 <= i < |listing| && Matches(ImgDataTif, listing[i]) && LastToken(Stem(Name(listing[i]))) == k
  }

  /** Listing entry `i` is a top-level scene file offering band `k`. */
  predicate DefaultOffers(s: Scene, listing: seq<Path>, i: int, k: string)
    requires s.Valid()
  {
    0 <= i < |listing| && Matches(AnyEntry, listing[i]) && DefaultMatch(s, Name(listing[i])) && DefaultKey(s, Name(listing[i])) == k
  }

  /** The jp2 scan fails exactly when some jp2 below `IMG_DATA` has no
      underscore in its name. */
  lemma {:induction false} Jp2MapError(dir: Path, listing: seq<Path>)
    ensures Jp2Map(dir, listing).Err? <==>
      exists i :: 0 <= i < |listing| && Matches(ImgDataJp2, listing[i]) && '_' !in Name(listing[i])
  {
    var sorted := Sort(Select(dir, listing, ImgDataJp2));
    assert Jp2Map(dir, listing).Err? <==> exists l :: 0 <= l < |sorted| && '_' !in Name(sorted[l]);
    if exists l :: 0 <= l < |sorted| && '_' !in Name(sorted[l]) {
      var l :| 0 <= l < |sorted| && '_' !in Name(sorted[l]);
      var i := Jp2Source(dir, listing, l);
    }
    if exists i :: 0 <= i < |listing| && Matches(ImgDataJp2, listing[i]) && '_' !in Name(listing[i]) {
      var i :| 0 <= i < |listing| && Matches(ImgDataJp2, listing[i]) && '_' !in Name(listing[i]);
      var l := Jp2Position(dir, listing, i);
      assert '_' !in Name(sorted[l]);
    }
  }

  /** Where a sorted jp2 comes from in the listing. */
  lemma Jp2Source(dir: Path, listing: seq<Path>, l: int) returns (i: int)
    requires 0 <= l < |Sort(Select(dir, listing, ImgDataJp2))|
    ensures 0 <= i < |listing| && Matches(ImgDataJp2, listing[i])
    ensures Sort(Select(dir, listing, ImgDataJp2))[l] == dir + listing[i]
    ensures Name(Sort(Select(dir, listing, ImgDataJp2))[l]) == Name(listing[i])
  {
    var selected := Select(dir, listing, ImgDataJp2);
    var sorted := Sort(selected);
    assert sorted[l] in multiset(selected);
    assert sorted[l] in selected;
    i :| 0 <= i < |listing| && Matches(ImgDataJp2, listing[i]) && sorted[l] == dir + listing[i];
    NameUnderPrefix(dir, listing[i]);
  }

  /** Where a matching jp2 sits in the sorted scan. */
  lemma Jp2Position(dir: Path, listing: seq<Path>, i: int) returns (l: int)
    requires 0 <= i < |listing| && Matches(ImgDataJp2, listing[i])
    ensures 0 <= l < |Sort(Select(dir, listing, ImgDataJp2))|
    ensures Sort(Select(dir, listing, ImgDataJp2))[l] == dir + listing[i]
    ensures Name(Sort(Select(dir, listing, ImgDataJp2))[l]) == Name(listing[i])
  {
    var sorted := Sort(Select(dir, listing, ImgDataJp2));
    assert dir + listing[i] in multiset(sorted);
    l :| 0 <= l < |sorted| && sorted[l] == dir + listing[i];
    NameUnderPrefix(dir, listing[i]);
  }

  /** A jp2 below the directory offers the band its own name does. */
  lemma Jp2EntryBand(dir: Path, p: Path, k: string)
    requires |p| >= 1 && '_' in Name(p)
    ensures '_' in Name(dir + p)
    ensures PutsKey(Jp2Entry(dir + p), k) <==> k != "AOT" && k != "WVP" && BandToken(Name(p)) == Some(k)
  {
    NameUnderPrefix(dir, p);
  }

  /** The jp2 scan keeps every band offered by some jp2 except `AOT` and
      `WVP`, each from the file that comes first in path order. */
  lemma {:induction false} Jp2MapBands(dir: Path, listing: seq<Path>, k: string)
    requires Jp2Map(dir, listing).Ok?
    ensures k in Jp2Map(dir, listing).value <==> k != "AOT" && k != "WVP" && exists i :: Jp2Offers(listing, i, k)
    ensures k in Jp2Map(dir, listing).value ==> exists i ::
      && Jp2Offers(listing, i, k)
      && Jp2Map(dir, listing).value[k] == dir + listing[i]
      && forall j :: Jp2Offers(listing, j, k) ==> PathLe(listing[i], listing[j])
  {
    var sorted := Sort(Select(dir, listing, ImgDataJp2));
    var es := Jp2Entries(sorted).value;
    if k in Jp2Map(dir, listing).value {
      FirstExists(es, k);
      var l :| IsFirst(es, l) && es[l].key == k;
      var i := Jp2Winner(dir, listing, l, k);
      forall j | Jp2Offers(listing, j, k) ensures PathLe(listing[i], listing[j]) {
        var l' := Jp2Position(dir, listing, j);
        Jp2EntryBand(dir, listing[j], k);
        assert PutsKey(es[l'], k);
        FirstIsLeast(sorted, es, l, l');
        PathLeUnderPrefix(dir, listing[i], listing[j]);
      }
    }
    if k != "AOT" && k != "WVP" && exists i :: Jp2Offers(listing, i, k) {
      var i :| Jp2Offers(listing, i, k);
      Jp2Kept(dir, listing, i, k);
    }
  }

  /** A band some jp2 offers, other than `AOT` and `WVP`, is kept. */
  lemma Jp2Kept(dir: Path, listing: seq<Path>, i: int, k: string)
    requires Jp2Map(dir, listing).Ok? && Jp2Offers(listing, i, k) && k != "AOT" && k != "WVP"
    ensures k in Jp2Map(dir, listing).value
  {
    var es := Jp2Entries(Sort(Select(dir, listing, ImgDataJp2))).value;
    var l := Jp2Position(dir, listing, i);
    Jp2EntryBand(dir, listing[i], k);
    assert PutsKey(es[l], k);
  }

  /** The sorted jp2 that first offers a band is a listing entry offering it. */
  lemma Jp2Winner(dir: Path, listing: seq<Path>, l: int, k: string) returns (i: int)
    requires Jp2Map(dir, listing).Ok?
    requires IsFirst(Jp2Entries(Sort(Select(dir, listing, ImgDataJp2))).value, l)
    requires Jp2Entries(Sort(Select(dir, listing, ImgDataJp2))).value[l].key == k
    ensures Jp2Offers(listing, i, k) && k != "AOT" && k != "WVP"
    ensures Sort(Select(dir, listing, ImgDataJp2))[l] == dir + listing[i]
    ensures Jp2Map(dir, listing).value[k] == dir + listing[i]
  {
    var sorted := Sort(Select(dir, listing, ImgDataJp2));
    var es := Jp2Entries(sorted).value;
    assert es[l] == Jp2Entry(sorted[l]);
    i := Jp2Source(dir, listing, l);
  }

  /** In a sorted scan, the first entry to offer a key comes no later in
      path order than any other entry offering it. */
  lemma {:induction false} FirstIsLeast(sorted: seq<Path>, es: seq<Entry<Path>>, l: int, l': int)
    requires Sorted(sorted) && |es| == |sorted|
    requires IsFirst(es, l) && 0 <= l' < |es| && PutsKey(es[l'], es[l].key)
    ensures PathLe(sorted[l], sorted[l'])
  {
    SortedPair(sorted, l, l');
  }

  /** In a sorted sequence an earlier path is below a later one. */
  lemma SortedPair(sorted: seq<Path>, l: int, l': int)
    requires Sorted(sorted) && 0 <= l <= l' < |sorted|
    ensures PathLe(sorted[l], sorted[l'])
  {
    if l == l' {
      PathLeReflexive(sorted[l]);
    }
  }

  /** The Sen2cor branch: a band is present exactly when a jp2 offers it
      (other than `AOT` and `WVP`) or a tif does; the last tif offering it
      wins; a band no tif offers keeps its first jp2 in path order. */
  lemma {:induction false} Sen2corBands(dir: Path, listing: seq<Path>, k: string)
    requires Sen2corFiles(dir, listing).Ok?
    ensures k in Sen2corFiles(dir, listing).value <==>
      (k != "AOT" && k != "WVP" && exists i :: Jp2Offers(listing, i, k)) || exists i :: TifOffers(listing, i, k)
    ensures forall i :: TifOffers(listing, i, k) && (forall j :: i < j < |listing| ==> !TifOffers(listing, j, k)) ==>
      k in Sen2corFiles(dir, listing).value && Sen2corFiles(dir, listing).value[k] == dir + listing[i]
    ensures k in Sen2corFiles(dir, listing).value && (forall i :: !TifOffers(listing, i, k)) ==> exists i ::
      && Jp2Offers(listing, i, k)
      && Sen2corFiles(dir, listing).value[k] == dir + listing[i]
      && forall j :: Jp2Offers(listing, j, k) ==> PathLe(listing[i], listing[j])
  {
    Sen2corKeys(dir, listing, k);
    Sen2corTifWins(dir, listing, k);
    Sen2corJp2Kept(dir, listing, k);
  }

  lemma Sen2corKeys(dir: Path, listing: seq<Path>, k: string)
    requires Sen2corFiles(dir, listing).Ok?
    ensures k in Sen2corFiles(dir, listing).value <==>
      (k != "AOT" && k != "WVP" && exists i :: Jp2Offers(listing, i, k)) || exists i :: TifOffers(listing, i, k)
  {
    var jp2 := Jp2Map(dir, listing).value;
    assert Sen2corFiles(dir, listing).value == LastWins(TifEntries(dir, listing), jp2);
    TifEntriesOffer(dir, listing, k);
    Jp2MapBands(dir, listing, k);
  }

  lemma Sen2corTifWins(dir: Path, listing: seq<Path>, k: string)
    requires Sen2corFiles(dir, listing).Ok?
    ensures forall i :: TifOffers(listing, i, k) && (forall j :: i < j < |listing| ==> !TifOffers(listing, j, k)) ==>
      k in Sen2corFiles(dir, listing).value && Sen2corFiles(dir, listing).value[k] == dir + listing[i]
  {
    var tes := TifEntries(dir, listing);
    var r := LastWins(tes, Jp2Map(dir, listing).value);
    assert r == Sen2corFiles(dir, listing).value;
    TifEntriesOffer(dir, listing, k);
    forall i | TifOffers(listing, i, k) && (forall j :: i < j < |listing| ==> !TifOffers(listing, j, k))
      ensures k in r && r[k] == dir + listing[i]
    {
      assert PutsKey(tes[i], k);
      forall j | i < j < |tes| ensures !PutsKey(tes[j], tes[i].key) {
        assert !TifOffers(listing, j, k);
      }
      assert IsLast(tes, i);
    }
  }

  lemma Sen2corJp2Kept(dir: Path, listing: seq<Path>, k: string)
    requires Sen2corFiles(dir, listing).Ok?
    ensures k in Sen2corFiles(dir, listing).value && (forall i :: !TifOffers(listing, i, k)) ==> exists i ::
      && Jp2Offers(listing, i, k)
      && Sen2corFiles(dir, listing).value[k] == dir + listing[i]
      && forall j :: Jp2Offers(listing, j, k) ==> PathLe(listing[i], listing[j])
  {
    var jp2 := Jp2Map(dir, listing).value;
    var tes := TifEntries(dir, listing);
    assert Sen2corFiles(dir, listing).value == LastWins(tes, jp2);
    if k in Sen2corFiles(dir, listing).value && (forall i :: !TifOffers(listing, i, k)) {
      TifEntriesOffer(dir, listing, k);
      assert !HasKey(tes, k);
      Jp2MapBands(dir, listing, k);
    }
  }

  /** The tif entries offer exactly the bands of the tifs directly inside
      `IMG_DATA`. */
  lemma TifEntriesOffer(dir: Path, listing: seq<Path>, k: string)
    ensures forall i :: 0 <= i < |listing| ==> (PutsKey(TifEntries(dir, listing)[i], k) <==> TifOffers(listing, i, k))
    ensures HasKey(TifEntries(dir, listing), k) <==> exists i :: TifOffers(listing, i, k)
  {
    var tes := TifEntries(dir, listing);
    assert forall i :: 0 <= i < |listing| ==> (PutsKey(tes[i], k) <==> TifOffers(listing, i, k));
  }

  /** The default branch: a band is present exactly when a top-level scene
      file offers it, and the last such file wins. */
  lemma DefaultBands(s: Scene, dir: Path, listing: seq<Path>, k: string)
    requires s.Valid()
    ensures k in DefaultFiles(s, dir, listing) <==> exists i :: DefaultOffers(s, listing, i, k)
    ensures forall i :: DefaultOffers(s, listing, i, k) && (forall j :: i < j < |listing| ==> !DefaultOffers(s, listing, j, k)) ==>
      k in DefaultFiles(s, dir, listing) && DefaultFiles(s, dir, listing)[k] == dir + listing[i]
  {
    var es := DefaultEntries(s, dir, listing);
    assert forall i :: 0 <= i < |listing| ==> (PutsKey(es[i], k) <==> DefaultOffers(s, listing, i, k));
    forall i | DefaultOffers(s, listing, i, k) && (forall j :: i < j < |listing| ==> !DefaultOffers(s, listing, j, k))
      ensures k in DefaultFiles(s, dir, listing) && DefaultFiles(s, dir, listing)[k] == dir + listing[i]
    {
      assert PutsKey(es[i], k);
      forall j | i < j < |es| ensures !PutsKey(es[j], es[i].key) {
        assert !DefaultOffers(s, listing, j, k);
      }
      assert IsLast(es, i);
    }
  }

  /** `get_files` runs the Sen2cor scan exactly when the processors name
      Sen2cor, and the default scan otherwise; it fails when the directory
      cannot be resolved, a processor has no name, or the Sen2cor scan meets
      a jp2 without an underscore. */
  lemma GetFilesBranch(c: Collection, s: Scene, path: Option<Path>, prefix: Option<Path>, listing: seq<Path>)
    requires s.Valid()
    ensures Resolve(c, s, path, prefix).Ok? && UsesSen2cor(c) == Ok(true) ==>
      GetFiles(c, s, path, prefix, listing) == Sen2corFiles(Resolve(c, s, path, prefix).value, listing)
    ensures Resolve(c, s, path, prefix).Ok? && UsesSen2cor(c) == Ok(false) ==>
      GetFiles(c, s, path, prefix, listing) == Ok(DefaultFiles(s, Resolve(c, s, path, prefix).value, listing))
    ensures GetFiles(c, s, path, prefix, listing).Err? <==>
      || Resolve(c, s, path, prefix).Err?
      || UsesSen2cor(c).Err?
      || (UsesSen2cor(c) == Ok(true) && exists i :: 0 <= i < |listing| && Matches(ImgDataJp2, listing[i]) && '_' !in Name(listing[i]))
  {
    var r := GetFiles(c, s, path, prefix, listing);
    match Resolve(c, s, path, prefix)
    case Err(_) =>
    case Ok(dir) =>
      match UsesSen2cor(c)
      case Err(_) =>
      case Ok(b) =>
        if b {
          assert r == Sen2corFiles(dir, listing);
          Jp2MapError(dir, listing);
        } else {
          assert r == Ok(DefaultFiles(s, dir, listing));
        }
  }

  /** A band of the Sen2cor scan comes from an image below `IMG_DATA`. */
  lemma Sen2corProvenance(dir: Path, listing: seq<Path>, k: string) returns (i: int)
    requires Sen2corFiles(dir, listing).Ok? && k in Sen2corFiles(dir, listing).value
    ensures 0 <= i < |listing| && Sen2corFiles(dir, listing).value[k] == dir + listing[i]
    ensures Matches(ImgDataJp2, listing[i]) || Matches(ImgDataTif, listing[i])
  {
    var jp2 := Jp2Map(dir, listing).value;
    var tes := TifEntries(dir, listing);
    assert Sen2corFiles(dir, listing).value == LastWins(tes, jp2);
    if HasKey(tes, k) {
      LastExists(tes, k);
      i :| IsLast(tes, i) && tes[i].key == k;
      assert tes[i] == TifEntry(dir, listing[i]);
    } else {
      Jp2MapBands(dir, listing, k);
      i :| Jp2Offers(listing, i, k) && jp2[k] == dir + listing[i];
    }
  }

  /** A band of the default scan comes from a top-level scene file offering it. */
  lemma DefaultProvenance(s: Scene, dir: Path, listing: seq<Path>, k: string) returns (i: int)
    requires s.Valid() && k in DefaultFiles(s, dir, listing)
    ensures DefaultOffers(s, listing, i, k) && DefaultFiles(s, dir, listing)[k] == dir + listing[i]
  {
    DefaultBands(s, dir, listing, k);
    var es := DefaultEntries(s, dir, listing);
    var j :| DefaultOffers(s, listing, j, k);
    assert PutsKey(es[j], k);
    LastExists(es, k);
    i :| IsLast(es, i) && es[i].key == k;
    assert DefaultOffers(s, listing, i, k);
  }

  /** Every file `get_files` returns is the directory joined with a listing
      entry: in the Sen2cor branch an image below `IMG_DATA`, in the default
      branch a top-level scene file offering that band. */
  lemma GetFilesProvenance(c: Collection, s: Scene, path: Option<Path>, prefix: Option<Path>, listing: seq<Path>, k: string)
    requires s.Valid() && GetFiles(c, s, path, prefix, listing).Ok?
    requires k in GetFiles(c, s, path, prefix, listing).value
    ensures exists i ::
      && 0 <= i < |listing|
      && GetFiles(c, s, path, prefix, listing).value[k] == Resolve(c, s, path, prefix).value + listing[i]
      && if UsesSen2cor(c) == Ok(true) then Matches(ImgDataJp2, listing[i]) || Matches(ImgDataTif, listing[i])
         else DefaultOffers(s, listing, i, k)
  {
    var r := GetFiles(c, s, path, prefix, listing);
    assert Resolve(c, s, path, prefix).Ok? && UsesSen2cor(c).Ok?;
    var dir := Resolve(c, s, path, prefix).value;
    if UsesSen2cor(c).value {
      assert r == Sen2corFiles(dir, listing);
      var i := Sen2corProvenance(dir, listing, k);
      assert 0 <= i < |listing| && r.value[k] == dir + listing[i] && (Matches(ImgDataJp2, listing[i]) || Matches(ImgDataTif, listing[i]));
    } else {
      assert r == Ok(DefaultFiles(s, dir, listing));
      var i := DefaultProvenance(s, dir, listing, k);
      assert 0 <= i < |listing| && r.value[k] == dir + listing[i] && DefaultOffers(s, listing, i, k);
    }
  }
}
