/** The `%Y%m%dT%H%M%S` timestamps embedded in scene identifiers, read with a
    strict fixed-width grammar: eight digits, `T`, six digits. */
module Timestamps {
  import opened Wrappers
  import opened Decimal

  datatype DateTime = DateTime(year: nat, month: nat, day: nat, hour: nat, minute: nat, second: nat)

  /** The field ranges `datetime` accepts; the day is not checked against the
      length of its month. */
  predicate InRange(d: DateTime)
  {
    && 1 <= d.year <= 9999
    && 1 <= d.month <= 12
    && 1 <= d.day <= 31
    && d.hour <= 23
    && d.minute <= 59
    && d.second <= 59
  }

  /** `strptime` matches literal format characters case-insensitively. */
  predicate IsSeparator(c: char)
  {
    c == 'T' || c == 't'
  }

  /** Eight digits, the separator, six digits. */
  predicate WellFormed(s: string)
  {
    && |s| == 15
    && AllDigits(s[..8])
    && IsSeparator(s[8])
    && AllDigits(s[9..])
  }

  /** The six numeric fields of an eight-digit date and a six-digit time. */
  function Fields(date: string, time: string): DateTime
    requires |date| == 8 && AllDigits(date) && |time| == 6 && AllDigits(time)
  {
    DateTime(Value(date[..4]), Value(date[4..6]), Value(date[6..]),
             Value(time[..2]), Value(time[2..4]), Value(time[4..]))
  }

  /** `datetime.strptime(s, '%Y%m%dT%H%M%S')`, `None` where it raises.
      A date is produced exactly for well-formed text whose fields are in
      range, and it is those fields: an out-of-range day, hour, minute or
      second gives `None`, never a corrected date. */
  function Parse(s: string): (r: Option<DateTime>)
    ensures r.Some? ==> WellFormed(s) && InRange(r.value)
    ensures r.Some? ==> WellFormed(s) && r.value == Fields(s[..8], s[9..])
    ensures r.Some? ==> r.value.year == Value(s[..4]) && r.value.month == Value(s[4..6])
    ensures WellFormed(s) && InRange(Fields(s[..8], s[9..])) ==> r == Some(Fields(s[..8], s[9..]))
  {
    if !WellFormed(s) then None
    else
      assert s[..4] == s[..8][..4] && s[4..6] == s[..8][4..6];
      var d := Fields(s[..8], s[9..]);
      if InRange(d) then Some(d) else None
  }

  /** Three fixed-width numbers side by side. */
  function Triple(a: nat, wa: nat, b: nat, c: nat): (r: string)
    ensures |r| == wa + 4 && AllDigits(r)
  {
    FixedWidth(a, wa) + FixedWidth(b, 2) + FixedWidth(c, 2)
  }

  /** `d.strftime('%Y%m%dT%H%M%S')`: the reference rendering Parse inverts. */
  function Format(d: DateTime): (r: string)
    ensures |r| == 15
  {
    Triple(d.year, 4, d.month, d.day) + "T" + Triple(d.hour, 2, d.minute, d.second)
  }

  /** The pieces of a Triple read back as the numbers written, when they fit. */
  lemma TripleValues(a: nat, wa: nat, b: nat, c: nat)
    requires a < Pow10(wa) && b < 100 && c < 100
    ensures var r := Triple(a, wa, b, c);
      Value(r[..wa]) == a && Value(r[wa..wa + 2]) == b && Value(r[wa + 2..]) == c
  {
    var r := Triple(a, wa, b, c);
    assert r[..wa] == FixedWidth(a, wa);
    assert r[wa..wa + 2] == FixedWidth(b, 2);
    assert r[wa + 2..] == FixedWidth(c, 2);
    assert Pow10(2) == 100;
    ValueOfFixedWidth(a, wa);
    ValueOfFixedWidth(b, 2);
    ValueOfFixedWidth(c, 2);
  }

  /** Digits read as a Triple and written again give the same digits. */
  lemma TripleOfValues(s: string, wa: nat)
    requires AllDigits(s) && |s| == wa + 4
    ensures Triple(Value(s[..wa]), wa, Value(s[wa..wa + 2]), Value(s[wa + 2..])) == s
  {
    var x, y, z := s[..wa], s[wa..wa + 2], s[wa + 2..];
    assert AllDigits(x) && AllDigits(y) && AllDigits(z) by {
      assert forall i :: 0 <= i < |x| ==> x[i] == s[i];
      assert forall i :: 0 <= i < |y| ==> y[i] == s[wa + i];
      assert forall i :: 0 <= i < |z| ==> z[i] == s[wa + 2 + i];
    }
    FixedWidthOfValue(x);
    FixedWidthOfValue(y);
    FixedWidthOfValue(z);
    assert |x| == wa && |y| == 2;
    assert Triple(Value(x), wa, Value(y), Value(z))
        == FixedWidth(Value(x), |x|) + FixedWidth(Value(y), |y|) + FixedWidth(Value(z), 2);
    assert s == x + y + z;
  }

  /** Every in-range date survives rendering and parsing. */
  lemma ParseFormat(d: DateTime)
    requires InRange(d)
    ensures Parse(Format(d)) == Some(d)
  {
    var date, time := Triple(d.year, 4, d.month, d.day), Triple(d.hour, 2, d.minute, d.second);
    var s := Format(d);
    assert s[..8] == date && s[8] == 'T' && s[9..] == time;
    assert Fields(date, time) == d by {
      assert Pow10(2) == 100 && Pow10(4) == 10000;
      TripleValues(d.year, 4, d.month, d.day);
      TripleValues(d.hour, 2, d.minute, d.second);
    }
    ParseWellFormed(s);
  }

  /** Well-formed text parses to its fields exactly when they are in range. */
  lemma ParseWellFormed(s: string)
    requires WellFormed(s)
    ensures Parse(s) == if InRange(Fields(s[..8], s[9..])) then Some(Fields(s[..8], s[9..])) else None
  {
  }

  /** A parsed timestamp renders back to the text it came from, up to the
      case of the separator. */
  lemma FormatParse(s: string)
    requires Parse(s).Some?
    ensures Format(Parse(s).value) == s[..8] + "T" + s[9..]
  {
    TripleOfValues(s[..8], 4);
    TripleOfValues(s[9..], 2);
  }
}
