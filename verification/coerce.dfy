/** Per-field coercions applied to each cell: geopoint text to GeoJSON
    coordinates, select-multiple text to a list, counts to integers, and
    dates to timestamps. Python's `float`, `round` and
    `datetime.fromisoformat` are not modelled; they are passed in. */
module Coerce {

  import opened Wrappers
  import opened Text

  /** What Python's `float()` can produce: a finite value, an infinity or NaN
      (`float("nan")` and `float("inf")` succeed). */
  datatype Float = Finite(value: real) | PosInf | NegInf | NaN

  /** A point in GeoJSON order: longitude first, then latitude. */
  datatype Coord = Coord(lon: Float, lat: Float)

  /** `str(v)` for a cell that may be `None`. */
  function Str(v: Option<string>): string {
    match v
    case Some(s) => s
    case None => "None"
  }

  /** `parse_geopoint`: a cell holding "lat lon [alt] [acc]" becomes
      `[lon, lat]`. There is no point when the cell is missing or blank,
      has fewer than two whitespace-separated tokens, or either of the first
      two tokens is not a number; further tokens are ignored. */
  function ParseGeopoint(v: Option<string>, parseFloat: string -> Option<Float>): Option<Coord> {
    match v
    case None => None
    case Some(raw) =>
      var s := Strip(raw);
      if s == [] then None
      else
        var parts := Split(s);
        if |parts| < 2 then None
        else
          match (parseFloat(parts[0]), parseFloat(parts[1]))
          case (Some(lat), Some(lon)) => Some(Coord(lon, lat))
          case _ => None
  }

  /** What `parse_geopoint` returns, in terms of the cell's tokens. */
  lemma ParseGeopointSpec(v: Option<string>, parseFloat: string -> Option<Float>)
    ensures v.None? ==> ParseGeopoint(v, parseFloat).None?
    ensures v.Some? ==>
      var r := ParseGeopoint(v, parseFloat);
      var parts := Split(v.value);
      && (r.Some? <==> |parts| >= 2 && parseFloat(parts[0]).Some? && parseFloat(parts[1]).Some?)
      && (r.Some? ==> r.value.lat == parseFloat(parts[0]).value && r.value.lon == parseFloat(parts[1]).value)
  {
    if v.Some? {
      SplitOfStrip(v.value);
    }
  }

  /** Altitude and accuracy after the first two tokens change nothing: the
      point of "lat lon rest" is the point of "lat lon". */
  lemma GeopointIgnoresExtraTokens(lat: string, lon: string, sep: char, rest: string, parseFloat: string -> Option<Float>)
    requires lat != [] && NoSpace(lat) && lon != [] && NoSpace(lon) && IsSpace(sep)
    ensures ParseGeopoint(Some(lat + [sep] + lon + [sep] + rest), parseFloat)
         == ParseGeopoint(Some(lat + [sep] + lon), parseFloat)
  {
    var long := lat + [sep] + lon + [sep] + rest;
    var short := lat + [sep] + lon;
    SplitAtSpace(short, sep, rest);
    SplitAtSpace(lat, sep, lon);
    SplitOfToken(lat);
    SplitOfToken(lon);
    assert Split(short) == [lat, lon];
    assert Split(long)[0] == lat && Split(long)[1] == lon;
    ParseGeopointSpec(Some(long), parseFloat);
    ParseGeopointSpec(Some(short), parseFloat);
  }

  /** The coordinates are swapped into GeoJSON order: the first token is the
      latitude and the second the longitude. */
  lemma GeopointSwapsToLonLat(lat: string, lon: string, sep: char, x: real, y: real, parseFloat: string -> Option<Float>)
    requires lat != [] && NoSpace(lat) && lon != [] && NoSpace(lon) && IsSpace(sep)
    requires parseFloat(lat) == Some(Finite(x)) && parseFloat(lon) == Some(Finite(y))
    ensures ParseGeopoint(Some(lat + [sep] + lon), parseFloat) == Some(Coord(Finite(y), Finite(x)))
  {
    var parts := Split(lat + [sep] + lon);
    SplitAtSpace(lat, sep, lon);
    SplitOfToken(lat);
    SplitOfToken(lon);
    assert parts == [lat, lon];
    ParseGeopointSpec(Some(lat + [sep] + lon), parseFloat);
    var r := ParseGeopoint(Some(lat + [sep] + lon), parseFloat);
    assert r.Some? && r.value.lat == Finite(x) && r.value.lon == Finite(y);
  }

  /** The KoBo form "19.43 -99.13 10 5" (latitude, longitude, altitude,
      accuracy) becomes the GeoJSON point [-99.13, 19.43]. */
  lemma GeopointExample(parseFloat: string -> Option<Float>)
    requires parseFloat("19.43") == Some(Finite(19.43)) && parseFloat("-99.13") == Some(Finite(-99.13))
    ensures ParseGeopoint(Some("19.43 -99.13 10 5"), parseFloat) == Some(Coord(Finite(-99.13), Finite(19.43)))
  {
    assert "19.43 -99.13 10 5" == "19.43" + [' '] + "-99.13" + [' '] + "10 5";
    GeopointIgnoresExtraTokens("19.43", "-99.13", ' ', "10 5", parseFloat);
    GeopointSwapsToLonLat("19.43", "-99.13", ' ', 19.43, -99.13, parseFloat);
  }

  /** A single token, such as a bare latitude, is never a point. */
  lemma {:induction false} GeopointNeedsTwoTokens(t: string, parseFloat: string -> Option<Float>)
    requires NoSpace(t)
    ensures ParseGeopoint(Some(t), parseFloat).None?
  {
    if t != [] {
      SplitOfToken(t);
    } else {
      SplitEmptyIffAllSpace(t);
    }
  }

  /** `split_multi`: a select-multiple answer as the list of its choices. */
  function SplitMulti(v: Option<string>): seq<string> {
    match v
    case None => []
    case Some(raw) =>
      var s := Strip(raw);
      if s != [] then Split(s) else []
  }

  /** `split_multi` is `str.split()` of the answer: the whitespace-separated
      choices in order. Nothing, or only whitespace, gives the empty list;
      each choice is non-empty and free of whitespace, and together they
      hold exactly the answer's non-whitespace text. */
  lemma SplitMultiSpec(v: Option<string>)
    ensures var r := SplitMulti(v);
      && (r == [] <==> v.None? || AllSpace(v.value))
      && (v.Some? ==> r == Split(v.value))
      && (forall i :: 0 <= i < |r| ==> r[i] != [] && NoSpace(r[i]))
      && (v.Some? ==> Concat(r) == RemoveSpaces(v.value))
  {
    if v.Some? {
      SplitOfStrip(v.value);
      SplitEmptyIffAllSpace(v.value);
      ConcatOfSplit(v.value);
    }
  }

  /** A select-multiple answer "A C" is the two choices "A" and "C". */
  lemma SplitMultiExample()
    ensures SplitMulti(Some("A C")) == ["A", "C"]
  {
    assert "A C" == "A" + [' '] + "C";
    SplitAtSpace("A", ' ', "C");
    SplitOfToken("A");
    SplitOfToken("C");
    SplitMultiSpec(Some("A C"));
  }

  /** `to_int`: the cell read as a number and rounded, with 0 for a blank
      cell and for anything `float` rejects or `round` cannot turn into an
      integer (NaN and the infinities raise there). */
  function ToInt(v: Option<string>, parseFloat: string -> Option<Float>, round: real -> int): int {
    var s := Strip(Str(v));
    if s == [] then 0
    else
      match parseFloat(s)
      case Some(Finite(x)) => round(x)
      case _ => 0
  }

  /** What `to_int` returns. A missing cell is the text "None", which
      Python's `float` rejects, so it gives 0 like a blank cell. */
  lemma ToIntSpec(v: Option<string>, parseFloat: string -> Option<Float>, round: real -> int)
    ensures AllSpace(Str(v)) ==> ToInt(v, parseFloat, round) == 0
    ensures v.None? && parseFloat("None").None? ==> ToInt(v, parseFloat, round) == 0
    ensures !AllSpace(Str(v)) ==>
      match parseFloat(Strip(Str(v)))
      case Some(Finite(x)) => ToInt(v, parseFloat, round) == round(x)
      case _ => ToInt(v, parseFloat, round) == 0
  {
    if v.None? {
      StripUntrimmed("None");
    }
  }

  /** Whitespace around the number never matters. */
  lemma ToIntIgnoresSurroundingSpace(s: string, parseFloat: string -> Option<Float>, round: real -> int)
    ensures ToInt(Some(s), parseFloat, round) == ToInt(Some(Strip(s)), parseFloat, round)
  {
    StripIdempotent(s);
  }

  /** `iso_parse`: the stripped cell with every `Z` turned into `+00:00`
      handed to the ISO-8601 parser; `None` for a missing or blank cell and
      whenever the parser fails. */
  function IsoParse<T>(v: Option<string>, parseIso: string -> Option<T>): Option<T> {
    match v
    case None => None
    case Some(raw) =>
      var s := Strip(raw);
      if s == [] then None
      else parseIso(ReplaceChar(s, 'Z', "+00:00"))
  }

  lemma IsoParseSpec<T>(v: Option<string>, parseIso: string -> Option<T>)
    ensures v.None? || AllSpace(v.value) ==> IsoParse(v, parseIso).None?
    ensures v.Some? && !AllSpace(v.value) ==>
      exists s :: 'Z' !in s && IsoParse(v, parseIso) == parseIso(s)
    ensures v.Some? && !AllSpace(v.value) && 'Z' !in v.value ==> IsoParse(v, parseIso) == parseIso(Strip(v.value))
  {
    if v.Some? && !AllSpace(v.value) {
      var s := Strip(v.value);
      assert 'Z' !in "+00:00";
      var u := ReplaceChar(s, 'Z', "+00:00");
      assert 'Z' !in u && IsoParse(v, parseIso) == parseIso(u);
    }
  }

  /** A trailing `Z` is read as the UTC offset `+00:00`. */
  lemma IsoParseTrailingZ<T>(p: string, parseIso: string -> Option<T>)
    requires 'Z' !in p
    requires p == [] || !IsSpace(p[0])
    ensures IsoParse(Some(p + "Z"), parseIso) == parseIso(p + "+00:00")
  {
    var s := p + "Z";
    assert !IsSpace(s[|s| - 1]);
    StripUntrimmed(s);
    ReplaceTrailing(p, 'Z', "+00:00");
  }
}
