// The legend control: a static HTML fragment listing the depth buckets with
// their colours, built by appending one entry per bucket to the inner HTML of
// a freshly created element.

module Legend {
  import opened Text
  import opened EarthquakeStyle

  /** Lower bound of each bucket, shallowest first, as written in the legend. */
  const DepthLevels: seq<int> := [-10, 10, 30, 50, 70, 90]

  /** Colour of each bucket, parallel to DepthLevels. */
  const Colors: seq<string> := ["#00ff00", "#66ff66", "#ccff33", "#ffcc00", "#ff6600", "#ff0000"]

  const Header: string := "<h4>Depth (km)</h4>"

  predicate StrictlyIncreasing(levels: seq<int>)
  {
    forall i, j :: 0 <= i < j < |levels| ==> levels[i] < levels[j]
  }

  /** The legend's table: six levels in strictly ascending order, none after the first equal to 0. */
  lemma LegendTableShape()
    ensures |DepthLevels| == |Colors| == 6
    ensures StrictlyIncreasing(DepthLevels)
    ensures forall j :: 0 < j < |DepthLevels| ==> DepthLevels[j] != 0
  {
  }

  /** The coloured square in front of an entry. */
  function Swatch(color: string): string
  {
    "<i style=\"background:" + color + "\"></i> "
  }

  /**
   * The legend's test `depthLevels[i + 1] ? ... : "+"`: the next level is read as true
   * unless it is past the end of the table (undefined) or is the number 0.
   */
  predicate HasUpperBound(levels: seq<int>, i: nat)
  {
    i + 1 < |levels| && levels[i + 1] != 0
  }

  /** Entry i of the legend: swatch, lower bound, then "&ndash;upper<br>" or an open-ended "+". */
  function Entry(levels: seq<int>, colors: seq<string>, i: nat): string
    requires |colors| == |levels| && i < |levels|
  {
    Swatch(colors[i]) + IntToString(levels[i])
      + (if HasUpperBound(levels, i) then "&ndash;" + IntToString(levels[i + 1]) + "<br>" else "+")
  }

  /** The legend's inner HTML after the heading and the first n entries, in table order. */
  function LegendHtml(levels: seq<int>, colors: seq<string>, n: nat): string
    requires |colors| == |levels| && n <= |levels|
  {
    if n == 0 then Header else LegendHtml(levels, colors, n - 1) + Entry(levels, colors, n - 1)
  }

  /** For a six-level table the legend is the heading followed by exactly six entries, in table order. */
  lemma SixEntries(levels: seq<int>, colors: seq<string>)
    requires |colors| == |levels| == 6
    ensures LegendHtml(levels, colors, 6) == Header
      + Entry(levels, colors, 0) + Entry(levels, colors, 1) + Entry(levels, colors, 2)
      + Entry(levels, colors, 3) + Entry(levels, colors, 4) + Entry(levels, colors, 5)
  {
    assert LegendHtml(levels, colors, 1) == Header + Entry(levels, colors, 0);
    assert LegendHtml(levels, colors, 2) == LegendHtml(levels, colors, 1) + Entry(levels, colors, 1);
    assert LegendHtml(levels, colors, 3) == LegendHtml(levels, colors, 2) + Entry(levels, colors, 2);
    assert LegendHtml(levels, colors, 4) == LegendHtml(levels, colors, 3) + Entry(levels, colors, 3);
    assert LegendHtml(levels, colors, 5) == LegendHtml(levels, colors, 4) + Entry(levels, colors, 4);
  }

  /** The element the legend draws into; only its inner HTML is modelled. */
  class Div {
    var innerHTML: string

    constructor ()
      ensures innerHTML == ""
    {
      innerHTML := "";
    }
  }

  /** legend.onAdd: create the element, append the heading, then one entry per depth level. */
  method OnAdd() returns (div: Div)
    ensures fresh(div)
    ensures div.innerHTML == LegendHtml(DepthLevels, Colors, |DepthLevels|)
  {
    div := new Div();
    var depthLevels := DepthLevels;
    var colors := Colors;
    div.innerHTML := div.innerHTML + Header;
    for i := 0 to |depthLevels|
      invariant div.innerHTML == LegendHtml(depthLevels, colors, i)
    {
      div.innerHTML := div.innerHTML + Entry(depthLevels, colors, i);
    }
  }

  /**
   * When no level after the first is 0, the truthiness test is the same as "there is a next
   * level": every entry but the last closes with its upper bound, the last one with "+".
   */
  lemma EntryByPosition(levels: seq<int>, colors: seq<string>, i: nat)
    requires |colors| == |levels| && i < |levels|
    requires forall j :: 0 < j < |levels| ==> levels[j] != 0
    ensures Entry(levels, colors, i) == Swatch(colors[i]) + IntToString(levels[i])
      + (if i + 1 < |levels| then "&ndash;" + IntToString(levels[i + 1]) + "<br>" else "+")
  {
  }

  /** A zero level would end the previous entry early: the legend's test relies on the table having none. */
  lemma ZeroLevelCutsRange()
    ensures Entry([-10, 0, 10], ["a", "b", "c"], 0) == Swatch("a") + "-10+"
  {
  }

  /**
   * The legend's own table: entries 0 to 4 read "lo&ndash;hi<br>" with hi the next level,
   * and the last entry is the open-ended "90+".
   */
  lemma LegendEntry(i: nat)
    requires i < |DepthLevels|
    ensures i + 1 < |DepthLevels| ==> (Entry(DepthLevels, Colors, i) ==
      Swatch(Colors[i]) + IntToString(DepthLevels[i]) + "&ndash;" + IntToString(DepthLevels[i + 1]) + "<br>")
    ensures i + 1 == |DepthLevels| ==> Entry(DepthLevels, Colors, i) == Swatch("#ff0000") + "90+"
  {
    EntryByPosition(DepthLevels, Colors, i);
    if i + 1 == |DepthLevels| {
      assert IntToString(90) == "90";
    }
  }

  /**
   * Table lookup of a depth: scanning from the top level down, the first level the depth
   * strictly exceeds names its bucket; level 0 is never compared and catches everything else.
   */
  function Bucket(levels: seq<int>, depth: real, n: nat): (k: nat)
    requires 1 <= n <= |levels|
    ensures k < n
  {
    if n == 1 then 0
    else if depth > levels[n - 1] as real then n - 1
    else Bucket(levels, depth, n - 1)
  }

  /** On an increasing table, bucket k is the interval (levels[k], levels[k+1]], open at both ends of the table. */
  lemma {:induction false} BucketInterval(levels: seq<int>, depth: real, n: nat, k: nat)
    requires 1 <= n <= |levels| && k < n
    requires StrictlyIncreasing(levels)
    ensures Bucket(levels, depth, n) == k <==>
      (k == 0 || levels[k] as real < depth) && (k + 1 == n || depth <= levels[k + 1] as real)
  {
    if n > 1 {
      if depth > levels[n - 1] as real {
        if k + 1 < n {
          assert levels[k + 1] <= levels[n - 1];
        }
      } else if k + 1 < n {
        BucketInterval(levels, depth, n - 1, k);
      }
    }
  }

  /** A deeper earthquake never lands in a lower bucket, whatever the table. */
  lemma {:induction false} BucketMonotone(levels: seq<int>, d1: real, d2: real, n: nat)
    requires 1 <= n <= |levels| && d1 <= d2
    ensures Bucket(levels, d1, n) <= Bucket(levels, d2, n)
  {
    if n > 1 && !(d1 > levels[n - 1] as real) {
      BucketMonotone(levels, d1, d2, n - 1);
    }
  }

  /** getColor and the legend's table are one lookup: the colour of a depth is the legend colour of its bucket. */
  lemma {:induction false} GetColorIsLegendLookup(depth: real)
    ensures GetColor(depth).Rank() == Bucket(DepthLevels, depth, |DepthLevels|)
    ensures GetColor(depth).Hex() == Colors[Bucket(DepthLevels, depth, |DepthLevels|)]
  {
    assert Bucket(DepthLevels, depth, 2) == if depth > 10.0 then 1 else 0;
    assert Bucket(DepthLevels, depth, 3) == if depth > 30.0 then 2 else Bucket(DepthLevels, depth, 2);
    assert Bucket(DepthLevels, depth, 4) == if depth > 50.0 then 3 else Bucket(DepthLevels, depth, 3);
    assert Bucket(DepthLevels, depth, 5) == if depth > 70.0 then 4 else Bucket(DepthLevels, depth, 4);
    assert Bucket(DepthLevels, depth, 6) == if depth > 90.0 then 5 else Bucket(DepthLevels, depth, 5);
  }

  /**
   * Every depth inside a closed legend range (levels[i], levels[i+1]] gets colors[i] from getColor,
   * and every depth above the last level gets the last colour.
   */
  lemma LegendAgreesWithGetColor(i: nat, depth: real)
    requires i < |DepthLevels|
    requires DepthLevels[i] as real < depth
    requires i + 1 < |DepthLevels| ==> depth <= DepthLevels[i + 1] as real
    ensures GetColor(depth).Hex() == Colors[i]
  {
    GetColorIsLegendLookup(depth);
    BucketInterval(DepthLevels, depth, |DepthLevels|, i);
  }

  /** Depths at or below the legend's first range still get its colour: the bottom bucket is unbounded. */
  lemma ShallowDepthsGetFirstColor(depth: real)
    requires depth <= DepthLevels[1] as real
    ensures GetColor(depth).Hex() == Colors[0]
  {
    GetColorIsLegendLookup(depth);
    BucketInterval(DepthLevels, depth, |DepthLevels|, 0);
  }
}
