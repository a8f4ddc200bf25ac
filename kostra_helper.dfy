/**
 * `detectCRS`: guesses the coordinate reference system of a coordinate pair
 * from its magnitude, for coordinates in Germany. A NaN coordinate fails every
 * comparison and so falls through to the default; reals stand in for numbers.
 */
module KostraHelper {

  function Abs(x: real): real {
    if x < 0.0 then -x else x
  }

  const Wgs84 := "EPSG:4326"
  const Utm32 := "EPSG:25832"

  /** The Gauss-Krueger code of zone `zone` (2 to 5): EPSG:31466 to EPSG:31469. */
  function GaussKrueger(zone: int): (code: string)
    requires 2 <= zone <= 5
    ensures |code| == 10 && code[..9] == "EPSG:3146"
    ensures code[9] == "6789"[zone - 2]
  {
    "EPSG:3146" + ["6789"[zone - 2]]
  }

  /** The easting `x` lies strictly inside the million-band of Gauss-Krueger zone `zone`. */
  predicate InBand(x: real, zone: int) {
    (zone as real) * 1000000.0 < x < ((zone + 1) as real) * 1000000.0
  }

  /** The CRS code for the coordinate pair (x, y). */
  function DetectCrs(x: real, y: real): (code: string)
    ensures Abs(x) <= 180.0 && Abs(y) <= 90.0 ==> code == Wgs84
    ensures code in {Wgs84, GaussKrueger(2), GaussKrueger(3), GaussKrueger(4), GaussKrueger(5), Utm32}
  {
    if Abs(x) <= 180.0 && Abs(y) <= 90.0 then Wgs84
    else if 2000000.0 < x < 3000000.0 then GaussKrueger(2)
    else if 3000000.0 < x < 4000000.0 then GaussKrueger(3)
    else if 4000000.0 < x < 5000000.0 then GaussKrueger(4)
    else if 5000000.0 < x < 6000000.0 then GaussKrueger(5)
    else if 31000000.0 < x < 33000000.0 then Utm32
    else Utm32
  }

  /**
   * Outside the geographic range, an easting strictly inside the million-band
   * of zone 2 to 5 gives that zone, whose number is the easting's leading digit.
   */
  lemma GaussKruegerZoneIsLeadingDigit(x: real, y: real, zone: int)
    requires 2 <= zone <= 5
    requires InBand(x, zone)
    ensures DetectCrs(x, y) == GaussKrueger(zone)
    ensures (x / 1000000.0).Floor == zone
  {
  }

  /** The geographic code is given exactly for pairs within longitude and latitude range. */
  lemma Wgs84Iff(x: real, y: real)
    ensures DetectCrs(x, y) == Wgs84 <==> Abs(x) <= 180.0 && Abs(y) <= 90.0
  {
  }

  /**
   * Everything that is neither geographic nor strictly inside a Gauss-Krueger
   * band is UTM zone 32, including the band edges themselves, so the explicit
   * eight-digit UTM test changes no result.
   */
  lemma EverythingElseIsUtm32(x: real, y: real)
    requires !(Abs(x) <= 180.0 && Abs(y) <= 90.0)
    requires forall zone :: 2 <= zone <= 5 ==> !InBand(x, zone)
    ensures DetectCrs(x, y) == Utm32
  {
    assert !InBand(x, 2) && !InBand(x, 3) && !InBand(x, 4) && !InBand(x, 5);
  }
}
