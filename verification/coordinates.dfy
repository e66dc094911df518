/**
 * GPS coordinates as the importer prints them. A magnitude is the EXIF
 * degrees already rounded by `toFixed(1)`, kept here as a whole number of
 * tenths; the sign comes from the hemisphere reference; the signed number is
 * printed the way JavaScript prints a number, which drops a `.0` fraction and
 * prints negative zero as `0`.
 */
module Coordinates {
  import opened Wrappers
  import Text

  /**
   * `(ref === positive ? 1 : -1) * magnitude`: only the exact reference
   * letter counts as the positive hemisphere, a missing reference is negative.
   * Tenths are integers, so the negative zero of `-1 * 0` is simply 0.
   */
  function Signed(tenths: nat, ref: Option<string>, positive: string): (v: int)
    ensures v == tenths || v == -(tenths as int)
    ensures v >= 0 <==> ref == Some(positive) || tenths == 0
  {
    if ref == Some(positive) then tenths else -(tenths as int)
  }

  /**
   * How JavaScript prints a non-negative number of `a` tenths: the whole part
   * without leading zeros, then `.` and the tenths digit unless that digit is 0.
   */
  function FormatUnsigned(a: nat): (u: string)
    ensures |u| > 0 && Text.IsDigit(u[0])
    ensures ',' !in u
  {
    var whole := Text.NatToString(a / 10);
    var fraction := if a % 10 == 0 then "" else "." + [Text.Digit(a % 10)];
    assert Text.IsDigit(whole[0]);
    whole + fraction
  }

  /** JavaScript's number-to-string for a value of `v` tenths. */
  function FormatTenths(v: int): (s: string)
    ensures ',' !in s
    ensures |s| > 0 && (s[0] == '-' <==> v < 0)
  {
    var a := if v < 0 then -v else v;
    (if v < 0 then "-" else "") + FormatUnsigned(a)
  }

  /**
   * The printed magnitude is canonical: a `.` appears exactly when the tenths
   * digit is not 0, and then as the second-to-last character.
   */
  lemma UnsignedShape(a: nat)
    ensures var u := FormatUnsigned(a);
      && ('.' in u <==> a % 10 != 0)
      && (a % 10 != 0 ==> |u| >= 3 && u[|u| - 2] == '.')
      && CanonicalUnsigned(u)
  {
    var whole := Text.NatToString(a / 10);
    var u := FormatUnsigned(a);
    assert forall i :: 0 <= i < |whole| ==> Text.IsDigit(whole[i]);
    if a % 10 == 0 {
      assert u == whole;
    } else {
      assert u == whole + "." + [Text.Digit(a % 10)];
      assert u[..|u| - 2] == whole;
    }
  }

  /**
   * JavaScript's printing, for every value: no `.0` fraction, a `.` exactly
   * when the tenths digit is not 0, no leading zeros, and no `-0`.
   */
  lemma FormatTenthsShape(v: int)
    ensures var s := FormatTenths(v);
      && ('.' in s <==> v % 10 != 0)
      && (v % 10 != 0 ==> |s| >= 3 && s[|s| - 2] == '.')
      && Canonical(s)
  {
    var a := if v < 0 then -v else v;
    assert a % 10 == 0 <==> v % 10 == 0;
    UnsignedShape(a);
    var s := FormatTenths(v);
    if v < 0 {
      assert s == "-" + FormatUnsigned(a) && s[1..] == FormatUnsigned(a);
      UnsignedRoundTrip(a);
      assert ParseUnsigned("0") == Some(0);
    } else {
      assert s == FormatUnsigned(a);
    }
  }

  /**
   * A number as JavaScript prints it: a whole part without leading zeros,
   * optionally `.` and a non-zero digit.
   */
  predicate CanonicalUnsigned(u: string) {
    if |u| >= 2 && u[|u| - 2] == '.' then
      Text.NoLeadingZero(u[..|u| - 2]) && Text.IsDigit(u[|u| - 1]) && u[|u| - 1] != '0'
    else Text.NoLeadingZero(u)
  }

  /** A printed signed number: a canonical magnitude, with a `-` only in front of a non-zero one. */
  predicate Canonical(s: string) {
    if |s| > 0 && s[0] == '-' then CanonicalUnsigned(s[1..]) && s[1..] != "0"
    else CanonicalUnsigned(s)
  }

  /** Reads a printed number of tenths back: digits, optionally `.` and one digit. */
  function ParseUnsigned(s: string): Option<nat> {
    if |s| >= 2 && s[|s| - 2] == '.' then
      match Text.ParseNat(s[..|s| - 2])
      case None => None
      case Some(n) => if Text.IsDigit(s[|s| - 1]) then Some(n * 10 + Text.DigitValue(s[|s| - 1])) else None
    else
      match Text.ParseNat(s)
      case None => None
      case Some(n) => Some(n * 10)
  }

  /** Reads a printed, possibly negative, number of tenths back. */
  function ParseTenths(s: string): Option<int> {
    if |s| > 0 && s[0] == '-' then
      match ParseUnsigned(s[1..])
      case None => None
      case Some(a) => Some(-(a as int))
    else ParseUnsigned(s)
  }

  /** The printed magnitude denotes exactly its value. */
  lemma UnsignedRoundTrip(a: nat)
    ensures ParseUnsigned(FormatUnsigned(a)) == Some(a)
  {
    var whole := Text.NatToString(a / 10);
    var u := FormatUnsigned(a);
    Text.ParseNatToString(a / 10);
    if a % 10 == 0 {
      assert u == whole;
      if |whole| >= 2 {
        assert Text.IsDigit(whole[|whole| - 2]);
      }
    } else {
      assert u == whole + "." + [Text.Digit(a % 10)];
      assert u[..|u| - 2] == whole;
    }
  }

  /** The printed form denotes exactly the signed value. */
  lemma FormatTenthsRoundTrip(v: int)
    ensures ParseTenths(FormatTenths(v)) == Some(v)
  {
    var a := if v < 0 then -v else v;
    UnsignedRoundTrip(a);
    if v < 0 {
      assert FormatTenths(v)[1..] == FormatUnsigned(a);
    } else {
      assert FormatTenths(v) == FormatUnsigned(a);
    }
  }

  /** A canonical unsigned numeral is the printed form of the value it denotes. */
  lemma UnsignedCanonicalUnique(u: string, a: nat)
    requires CanonicalUnsigned(u) && ParseUnsigned(u) == Some(a)
    ensures u == FormatUnsigned(a)
  {
    if |u| >= 2 && u[|u| - 2] == '.' {
      var whole, last := u[..|u| - 2], u[|u| - 1];
      var n := Text.DigitsValue(whole);
      var d := Text.DigitValue(last);
      assert a == n * 10 + d && d != 0;
      assert a / 10 == n && a % 10 == d;
      Text.NatToStringCanonical(whole);
      assert u == whole + "." + [last];
    } else {
      var n := Text.DigitsValue(u);
      assert a == n * 10;
      assert a / 10 == n && a % 10 == 0;
      Text.NatToStringCanonical(u);
    }
  }

  lemma FormatUnsignedZero()
    ensures FormatUnsigned(0) == "0"
  {
    assert Text.NatToString(0) == "0";
  }

  /** A negative value prints as `-` followed by its magnitude. */
  lemma FormatNegative(v: int)
    requires v < 0
    ensures FormatTenths(v) == "-" + FormatUnsigned(-v)
  {
  }

  /** A non-negative value prints as its magnitude alone. */
  lemma FormatNonNegative(v: int)
    requires v >= 0
    ensures FormatTenths(v) == FormatUnsigned(v)
  {
  }

  /** The negative half of `CanonicalUnique`. */
  lemma NegativeCanonicalUnique(s: string, v: int)
    requires |s| > 0 && s[0] == '-'
    requires Canonical(s) && ParseTenths(s) == Some(v)
    ensures s == FormatTenths(v)
  {
    var u := s[1..];
    assert CanonicalUnsigned(u) && u != "0";
    var a :| ParseUnsigned(u) == Some(a) && v == -(a as int);
    UnsignedCanonicalUnique(u, a);
    assert a != 0 by { FormatUnsignedZero(); }
    FormatNegative(v);
    assert s == "-" + u;
  }

  /**
   * Printing is the only canonical spelling: a canonical text that reads as
   * `v` is exactly what JavaScript prints for `v`.
   */
  lemma CanonicalUnique(s: string, v: int)
    requires Canonical(s) && ParseTenths(s) == Some(v)
    ensures s == FormatTenths(v)
  {
    if |s| > 0 && s[0] == '-' {
      NegativeCanonicalUnique(s, v);
    } else {
      UnsignedCanonicalUnique(s, v);
    }
  }

  /** Printing loses nothing: different values print differently. */
  lemma FormatTenthsInjective(v: int, w: int)
    requires FormatTenths(v) == FormatTenths(w)
    ensures v == w
  {
    FormatTenthsRoundTrip(v);
    FormatTenthsRoundTrip(w);
  }

  /**
   * The coordinate pair, computed only when both magnitudes are present;
   * latitude is positive for `N`, longitude for `E`.
   */
  function CoordinatePair(latitude: Option<nat>, latitudeRef: Option<string>,
                       longitude: Option<nat>, longitudeRef: Option<string>): (c: Option<(int, int)>)
    ensures c.Some? <==> latitude.Some? && longitude.Some?
    ensures c.Some? ==> c.value.0 == Signed(latitude.value, latitudeRef, "N")
    ensures c.Some? ==> c.value.1 == Signed(longitude.value, longitudeRef, "E")
  {
    if latitude.Some? && longitude.Some? then
      Some((Signed(latitude.value, latitudeRef, "N"), Signed(longitude.value, longitudeRef, "E")))
    else None
  }

  /** The `locationData` text `${latitude},${longitude}`. */
  function LocationData(c: (int, int)): string {
    FormatTenths(c.0) + "," + FormatTenths(c.1)
  }

  /** Splits a `locationData` text at its first comma and reads both numbers. */
  function ParseLocationData(s: string): Option<(int, int)> {
    match Text.IndexOf(s, ',')
    case None => None
    case Some(k) =>
      match (ParseTenths(s[..k]), ParseTenths(s[k + 1..]))
      case (Some(lat), Some(lon)) => Some((lat, lon))
      case _ => None
  }

  /** `locationData` can be read back into the pair it was printed from. */
  lemma LocationDataRoundTrip(c: (int, int))
    ensures ParseLocationData(LocationData(c)) == Some(c)
  {
    var lat, lon := FormatTenths(c.0), FormatTenths(c.1);
    var s := LocationData(c);
    assert s[|lat|] == ',';
    assert s[..|lat|] == lat;
    assert Text.IndexOf(s, ',') == Some(|lat|);
    assert s[|lat| + 1..] == lon;
    FormatTenthsRoundTrip(c.0);
    FormatTenthsRoundTrip(c.1);
  }

  /** The query parameters of the reverse-geocoding request. */
  datatype GeoQuery = GeoQuery(lat: string, lon: string)

  /** The request for a coordinate pair carries the same two numbers as `locationData`. */
  function QueryFor(c: (int, int)): (q: GeoQuery)
    ensures LocationData(c) == q.lat + "," + q.lon
  {
    GeoQuery(FormatTenths(c.0), FormatTenths(c.1))
  }

  /** A candidate place of the geocoding response. */
  datatype Place = Place(name: string, state: string)

  /**
   * What the request yields: a failure of the fetch or of the JSON parse, or
   * the parsed list of candidates (a body that is not a list has no first
   * element and is represented by the empty list).
   */
  datatype GeoReply = Failed | Places(places: seq<Place>)

  /**
   * The location name after the lookup: `${name}, ${state}` of the first
   * candidate if there is one, otherwise the name held before.
   */
  function PlaceName(reply: GeoReply, before: Option<string>): (name: Option<string>)
    ensures name != before ==> reply.Places? && |reply.places| > 0
    ensures reply.Places? && |reply.places| > 0 ==>
      name.Some? && Text.StartsWith(name.value, reply.places[0].name)
      && Text.EndsWith(name.value, ", " + reply.places[0].state)
      && |name.value| == |reply.places[0].name| + 2 + |reply.places[0].state|
  {
    match reply
    case Failed => before
    case Places(ps) => if |ps| > 0 then Some(ps[0].name + ", " + ps[0].state) else before
  }

  /** Examples of JavaScript's number printing: no `.0`, a leading `0` before the point. */
  lemma ExamplePrinting()
    ensures FormatUnsigned(515) == "51.5"
    ensures FormatUnsigned(510) == "51"
    ensures FormatUnsigned(7) == "0.7"
  {
    assert Text.NatToString(51) == "51";
    assert Text.NatToString(0) == "0";
  }

  /** Examples of a negative value: the magnitude's text behind a `-`. */
  lemma ExampleNegative()
    ensures FormatTenths(-515) == "-51.5"
    ensures FormatTenths(-7) == "-0.7"
  {
    FormatNegative(-515);
    FormatNegative(-7);
    var u := FormatUnsigned(515);
    assert u == "51.5" by { ExamplePrinting(); }
    assert FormatTenths(-515) == "-" + u;
    assert FormatUnsigned(7) == "0.7" by { ExamplePrinting(); }
  }

  /** Examples of the sign convention: only the named hemisphere is positive, and zero has no sign. */
  lemma ExampleFormatting()
    ensures FormatTenths(Signed(515, Some("N"), "N")) == "51.5"
    ensures FormatTenths(Signed(515, Some("S"), "N")) == "-51.5"
    ensures FormatTenths(Signed(510, Some("E"), "E")) == "51"
    ensures FormatTenths(Signed(0, Some("W"), "E")) == "0"
    ensures FormatTenths(Signed(7, None, "N")) == "-0.7"
  {
    assert Signed(515, Some("N"), "N") == 515 && Signed(515, Some("S"), "N") == -515;
    assert Signed(510, Some("E"), "E") == 510 && Signed(0, Some("W"), "E") == 0;
    assert Signed(7, None, "N") == -7;
    ExamplePrinting();
    FormatUnsignedZero();
    FormatNonNegative(515);
    FormatNonNegative(510);
    FormatNonNegative(0);
    ExampleNegative();
  }
}
