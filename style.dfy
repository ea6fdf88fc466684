// The per-feature visual encoding of an earthquake: fill colour from depth,
// marker radius from magnitude, and the fixed stroke of the circle marker.

module EarthquakeStyle {

  /** The six depth buckets, shallowest first. */
  datatype Color = BrightGreen | Green | YellowGreen | Amber | Orange | Red
  {
    /** The CSS colour string the map is given for this bucket. */
    function Hex(): (s: string)
      ensures |s| == 7 && s[0] == '#'
    {
      match this
      case BrightGreen => "#00ff00"
      case Green => "#66ff66"
      case YellowGreen => "#ccff33"
      case Amber => "#ffcc00"
      case Orange => "#ff6600"
      case Red => "#ff0000"
    }

    /** Position of the bucket in the chain from shallowest (0) to deepest (5). */
    function Rank(): (k: nat)
      ensures k < 6
    {
      match this
      case BrightGreen => 0
      case Green => 1
      case YellowGreen => 2
      case Amber => 3
      case Orange => 4
      case Red => 5
    }
  }

  /** An earthquake point feature: coordinates [lon, lat, depth-km], properties.mag and properties.place. */
  datatype Feature = Feature(longitude: real, latitude: real, depth: real, mag: real, place: string)

  /** The style record handed to the circle marker of one feature. */
  datatype StyleRecord = StyleRecord(
    opacity: real,
    fillOpacity: real,
    fillColor: Color,
    color: string,
    radius: real,
    stroke: bool,
    weight: real)

  /** Colour bucket of a depth: thresholds 90, 70, 50, 30, 10, each compared with a strict `>`, deepest first. */
  function GetColor(depth: real): (c: Color)
    ensures c == Red <==> depth > 90.0
    ensures c == Orange <==> 70.0 < depth <= 90.0
    ensures c == Amber <==> 50.0 < depth <= 70.0
    ensures c == YellowGreen <==> 30.0 < depth <= 50.0
    ensures c == Green <==> 10.0 < depth <= 30.0
    ensures c == BrightGreen <==> depth <= 10.0
  {
    if depth > 90.0 then Red
    else if depth > 70.0 then Orange
    else if depth > 50.0 then Amber
    else if depth > 30.0 then YellowGreen
    else if depth > 10.0 then Green
    else BrightGreen
  }

  /** Marker radius: 1 for a magnitude of exactly zero, four times the magnitude otherwise, unclamped. */
  function GetRadius(magnitude: real): (r: real)
    ensures magnitude == 0.0 ==> r == 1.0
    ensures magnitude != 0.0 ==> r == 4.0 * magnitude
  {
    if magnitude == 0.0 then 1.0 else magnitude * 4.0
  }

  /** The style of a feature: colour from its depth, radius from its magnitude, everything else fixed. */
  function StyleInfo(feature: Feature): (s: StyleRecord)
    ensures s.fillColor == GetColor(feature.depth)
    ensures s.radius == GetRadius(feature.mag)
    ensures s.opacity == 1.0 && s.fillOpacity == 0.8
    ensures s.color == "#000" && s.stroke && s.weight == 0.5
  {
    StyleRecord(
      opacity := 1.0,
      fillOpacity := 0.8,
      fillColor := GetColor(feature.depth),
      color := "#000",
      radius := GetRadius(feature.mag),
      stroke := true,
      weight := 0.5)
  }

  /** Every depth gets one of exactly six colour strings, and distinct buckets have distinct strings. */
  lemma GetColorRange(depth: real)
    ensures GetColor(depth).Hex() in ["#ff0000", "#ff6600", "#ffcc00", "#ccff33", "#66ff66", "#00ff00"]
  {
  }

  lemma HexInjective(c1: Color, c2: Color)
    requires c1.Hex() == c2.Hex()
    ensures c1 == c2
  {
  }

  /** The number of thresholds among 10, 30, 50, 70, 90 that a depth exceeds. */
  function ThresholdsBelow(thresholds: seq<real>, depth: real): (n: nat)
    ensures n <= |thresholds|
  {
    if thresholds == [] then 0
    else (if depth > thresholds[0] then 1 else 0) + ThresholdsBelow(thresholds[1..], depth)
  }

  /** A deeper earthquake passes at least the thresholds a shallower one passes. */
  lemma {:induction false} ThresholdsBelowMonotone(thresholds: seq<real>, d1: real, d2: real)
    requires d1 <= d2
    ensures ThresholdsBelow(thresholds, d1) <= ThresholdsBelow(thresholds, d2)
  {
    if thresholds != [] {
      ThresholdsBelowMonotone(thresholds[1..], d1, d2);
    }
  }

  /** The rank of a depth's colour is the number of thresholds the depth exceeds. */
  lemma GetColorRankCountsThresholds(depth: real)
    ensures GetColor(depth).Rank() == ThresholdsBelow([10.0, 30.0, 50.0, 70.0, 90.0], depth)
  {
    var t5: seq<real> := [90.0];
    var t4 := [70.0] + t5;
    var t3 := [50.0] + t4;
    var t2 := [30.0] + t3;
    var t1 := [10.0] + t2;
    assert t5[1..] == [] && t4[1..] == t5 && t3[1..] == t4 && t2[1..] == t3 && t1[1..] == t2;
    var n5 := if depth > 90.0 then 1 else 0;
    var n4 := n5 + if depth > 70.0 then 1 else 0;
    var n3 := n4 + if depth > 50.0 then 1 else 0;
    var n2 := n3 + if depth > 30.0 then 1 else 0;
    var n1 := n2 + if depth > 10.0 then 1 else 0;
    assert ThresholdsBelow(t5, depth) == n5;
    assert ThresholdsBelow(t4, depth) == n4;
    assert ThresholdsBelow(t3, depth) == n3;
    assert ThresholdsBelow(t2, depth) == n2;
    assert ThresholdsBelow(t1, depth) == n1;
    assert t1 == [10.0, 30.0, 50.0, 70.0, 90.0];
  }

  /** getColor is monotone along the bucket chain: a deeper earthquake never gets a shallower colour. */
  lemma GetColorMonotone(d1: real, d2: real)
    requires d1 <= d2
    ensures GetColor(d1).Rank() <= GetColor(d2).Rank()
  {
    GetColorRankCountsThresholds(d1);
    GetColorRankCountsThresholds(d2);
    ThresholdsBelowMonotone([10.0, 30.0, 50.0, 70.0, 90.0], d1, d2);
  }

  /** The style depends on the depth and the magnitude alone, not on position or place. */
  lemma StyleInfoDependsOnDepthAndMag(f1: Feature, f2: Feature)
    requires f1.depth == f2.depth && f1.mag == f2.mag
    ensures StyleInfo(f1) == StyleInfo(f2)
  {
  }

  /** Sign of the radius: positive exactly for magnitudes at or above zero, negative for negative ones. */
  lemma GetRadiusSign(magnitude: real)
    ensures GetRadius(magnitude) > 0.0 <==> magnitude >= 0.0
    ensures GetRadius(magnitude) < 0.0 <==> magnitude < 0.0
  {
  }

  /** Away from zero the magnitude can be read back from the radius. */
  lemma GetRadiusInvertible(m1: real, m2: real)
    requires m1 != 0.0 && m2 != 0.0
    requires GetRadius(m1) == GetRadius(m2)
    ensures m1 == m2
  {
  }

  /** Worked values at and around the thresholds and for the radius. */
  lemma Examples()
    ensures GetColor(91.0) == Red && GetColor(90.0) == Orange
    ensures GetColor(10.0) == BrightGreen && GetColor(9.0) == BrightGreen && GetColor(-5.0) == BrightGreen
    ensures GetColor(10.5) == Green
    ensures GetRadius(0.0) == 1.0 && GetRadius(5.0) == 20.0 && GetRadius(-2.0) == -8.0
    ensures GetRadius(0.1) < GetRadius(0.0)
  {
  }

  /** A magnitude 5.2 earthquake at 35 km is drawn yellow-green with radius 20.8. */
  lemma ScenarioStyle()
    ensures StyleInfo(Feature(0.0, 0.0, 35.0, 5.2, "10km N of Testville")).fillColor.Hex() == "#ccff33"
    ensures StyleInfo(Feature(0.0, 0.0, 35.0, 5.2, "10km N of Testville")).radius == 20.8
  {
  }
}
