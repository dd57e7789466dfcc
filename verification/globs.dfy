/** The glob patterns of the Sentinel collector, each as a predicate on a
    path relative to the directory being searched. `glob` matches at the
    top level only; `rglob(pattern)` matches `pattern` at any depth, that is
    against the last segments of the path. Matching is case-sensitive, as on
    POSIX systems. */
module Globs {
  import opened Text
  import opened Paths

  datatype Pattern =
    | AnyEntry        // glob('*')
    | MtdMsil         // glob('MTD_MSIL*.xml')
    | MtdTl           // rglob('MTD_TL.xml')
    | R10mJp2(tag: string)  // rglob('IMG_DATA/R10m/*<tag>*.jp2')
    | SrAerosol       // rglob('*_sr_aerosol.tif')
    | ImgDataJp2      // rglob('IMG_DATA/**/*.jp2')
    | ImgDataTif      // rglob('IMG_DATA/*.tif')

  /** `fnmatch` of `<head>*<tail>` on one name: the name starts with `head`,
      ends with `tail`, and is long enough for both. */
  predicate Between(name: string, head: string, tail: string)
  {
    |name| >= |head| + |tail| && head <= name && EndsWith(name, tail)
  }

  predicate Matches(pat: Pattern, p: Path)
  {
    match pat
    case AnyEntry => |p| == 1
    case MtdMsil => |p| == 1 && Between(p[0], "MTD_MSIL", ".xml")
    case MtdTl => |p| >= 1 && Name(p) == "MTD_TL.xml"
    case R10mJp2(tag) =>
      && |p| >= 3
      && p[|p| - 3] == "IMG_DATA" && p[|p| - 2] == "R10m"
      && Between(Name(p), "", ".jp2")
      && Contains(Name(p)[..|Name(p)| - 4], tag)
    case SrAerosol => |p| >= 1 && Between(Name(p), "", "_sr_aerosol.tif")
    case ImgDataJp2 => |p| >= 2 && Between(Name(p), "", ".jp2") && "IMG_DATA" in p[..|p| - 1]
    case ImgDataTif => |p| >= 2 && p[|p| - 2] == "IMG_DATA" && Between(Name(p), "", ".tif")
  }
}
