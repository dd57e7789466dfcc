/** `entry_version`: the folder name of a collection version. */
module Versions {
  import opened Wrappers
  import opened Errors
  import opened Decimal

  /** A collection version as the catalogue stores it: an integer or text. */
  datatype VersionValue = IntVersion(n: int) | TextVersion(text: string)

  /** `'v{0:03d}'.format(n)`. */
  function IntTag(n: int): (r: string)
    ensures |r| >= 4 && r[0] == 'v'
    ensures ParseInt(r[1..]) == Some(n)
    ensures n >= 0 ==> AllDigits(r[1..]) && |r| == (if n < 1000 then 4 else 1 + NumDigits(n))
    ensures n < 0 ==> r[1] == '-' && AllDigits(r[2..]) && |r| == (if -n < 100 then 4 else 2 + NumDigits(-n))
  {
    var digits := FormatInt(n, 3);
    var r := "v" + digits;
    assert r[1..] == digits;
    assert n < 0 ==> r[2..] == digits[1..];
    assert Pow10(3) == 1000 && Pow10(2) == 100;
    DigitBounds(if n >= 0 then n else -n, if n >= 0 then 3 else 2);
    r
  }

  /** `entry_version(version)`. Text containing a dot is kept verbatim after
      the `v`; everything else goes through `int()` and is zero-padded to
      three digits. The tag always starts with `v`, contains a dot exactly
      when it was taken verbatim, and is an error only for dotless text
      `int()` rejects. */
  function EntryVersion(v: VersionValue): (r: Result<string, Error>)
    ensures r.Ok? ==> |r.value| >= 1 && r.value[0] == 'v'
    ensures r.Ok? ==> ('.' in r.value <==> v.TextVersion? && '.' in v.text)
    ensures r.Err? <==> v.TextVersion? && '.' !in v.text && ParseInt(v.text).None?
    ensures r.Err? ==> r.error == BadVersion(v.text)
  {
    match v
    case IntVersion(n) =>
      IntTagDotless(n);
      Ok(IntTag(n))
    case TextVersion(t) =>
      if '.' in t then
        Ok("v" + t)
      else
        match ParseInt(t)
        case None => Err(BadVersion(t))
        case Some(n) =>
          IntTagDotless(n);
          Ok(IntTag(n))
  }

  /** Integer tags never contain a dot. */
  lemma IntTagDotless(n: int)
    ensures '.' !in IntTag(n)
  {
    TagShapeDotless(IntTag(n), n < 0);
  }

  /** `v`, an optional minus sign and digits: no dot anywhere. */
  lemma TagShapeDotless(r: string, negative: bool)
    requires |r| >= 2 && r[0] == 'v'
    requires if negative then r[1] == '-' && AllDigits(r[2..]) else AllDigits(r[1..])
    ensures '.' !in r
  {
    var k := if negative then 2 else 1;
    forall i | k <= i < |r| ensures r[i] != '.' {
      assert IsDigit(r[k..][i - k]);
    }
  }

  /** Dotted text is kept verbatim: `"4.1"` gives `"v4.1"`. */
  lemma DottedVerbatim(t: string)
    requires '.' in t
    ensures EntryVersion(TextVersion(t)) == Ok("v" + t)
  {
  }

  /** Below 1000 a non-negative version gives a four-character tag: `v` and
      three zero-padded digits. */
  lemma SmallTagWidth(n: nat)
    requires n < 1000
    ensures EntryVersion(IntVersion(n)).Ok?
    ensures |EntryVersion(IntVersion(n)).value| == 4
  {
    if n >= 100 {
      assert NumDigits(n) == 1 + NumDigits(n / 10) && NumDigits(n / 10) == 1 + NumDigits(n / 100);
    } else if n >= 10 {
      assert NumDigits(n) == 1 + NumDigits(n / 10);
    }
  }

  /** Padding never truncates: from 1000 on the tag is `v` and `str(n)`. */
  lemma LargeTagUntruncated(n: nat)
    requires n >= 1000
    ensures EntryVersion(IntVersion(n)) == Ok("v" + ToDecimal(n))
  {
    assert Pow10(3) == 1000;
    NumDigitsLowerBound(n, 3);
  }

  /** Dropping the `v` and parsing the rest recovers the integer, so
      distinct integers give distinct tags. */
  lemma IntTagRoundTrip(m: int, n: int)
    ensures ParseInt(EntryVersion(IntVersion(n)).value[1..]) == Some(n)
    ensures m != n ==> EntryVersion(IntVersion(m)) != EntryVersion(IntVersion(n))
  {
  }

  /** Dotless digit text is read as its integer value, so `"4"`, `"004"` and
      `4` give the same tag. */
  lemma NumericTextAsInteger(t: string)
    requires |t| >= 1 && AllDigits(t)
    ensures EntryVersion(TextVersion(t)) == EntryVersion(IntVersion(Value(t)))
  {
    assert forall i :: 0 <= i < |t| ==> t[i] != '.';
    assert IsDigit(t[0]);
    assert ParseInt(t) == Some(Value(t));
  }

  /** Dotless text that `int()` rejects is an error, e.g. `"v1"`. */
  lemma NonNumericTextFails(t: string)
    requires '.' !in t && ParseInt(t).None?
    ensures EntryVersion(TextVersion(t)) == Err(BadVersion(t))
  {
  }

  /** Version 4 lives under `v004`. */
  lemma ExampleFour()
    ensures EntryVersion(IntVersion(4)) == Ok("v004")
  {
    assert FixedWidth(0, 0) == "";
    FixedWidthStep(0, 1);
    FixedWidthStep(0, 2);
    FixedWidthStep(4, 3);
    assert DigitChar(0) == '0' && DigitChar(4) == '4';
    assert NumDigits(4) == 1;
    assert Padded(4, 3) == "004";
    assert IntTag(4) == "v004";
  }

  /** Version 12 lives under `v012`. */
  lemma ExampleTwelve()
    ensures EntryVersion(IntVersion(12)) == Ok("v012")
  {
    assert FixedWidth(0, 0) == "";
    FixedWidthStep(0, 1);
    FixedWidthStep(1, 2);
    FixedWidthStep(12, 3);
    assert DigitChar(0) == '0' && DigitChar(1) == '1' && DigitChar(2) == '2';
    assert NumDigits(12) == 2;
    assert Padded(12, 3) == "012";
    assert IntTag(12) == "v012";
  }
}
