# Earthquake style encoder of the leaflet-challenge map

The map script `Leaflet/static/js/logic.js` draws recent earthquakes as circle
markers. Inside the callback that receives the earthquake feed it computes,
for every feature, a fill colour from the depth (`getColor`), a radius from the
magnitude (`getRadius`), a style record (`styleInfo`) and a popup text. It then
builds a legend (`legend.onAdd`) from a second copy of the depth thresholds.
This project models those five pieces in Dafny and proves what they promise:

- `getColor` sorts the real line into six buckets at 10, 30, 50, 70 and 90.
  Each bucket is open at its lower bound and closed at its upper bound. The
  bucket's rank counts the thresholds the depth exceeds, so the colour is
  monotone in the depth.
- `getRadius` is `1` at magnitude exactly zero and `4 * magnitude` everywhere
  else. It is not clamped, so negative magnitudes give negative radii.
- `styleInfo` takes its colour from the depth and its radius from the
  magnitude. All its other fields are constants.
- The popup is a fixed template. A parser recovers the magnitude text, the
  depth text and the place from it, so the popup shows them verbatim.
- The legend is built by a loop that appends one entry per table row to the
  element's inner HTML. The loop's result is proved equal to a specification
  function. The legend's table is then proved to be the same lookup as
  `getColor`: every depth in a legend range gets that range's colour.

Files: `text.dfy` (module `Text`: the decimal text of an integer and a scan up
to a delimiter), `style.dfy` (module `EarthquakeStyle`), `popup.dfy` (module
`Popup`), `legend.dfy` (module `Legend`).

Depths and magnitudes are `real`. Colours are the datatype
`EarthquakeStyle.Color`, and `Color.Hex()` gives each one's CSS string. The
legend keeps its colours as the strings of the source's `colors` array.

A depth of exactly 10 gets `#00ff00`, the bottom bucket's bright green, because
`10 > 10` is false (`EarthquakeStyle.Examples`).

Two oddities of the code are modelled as written and proved, not corrected:
- A negative magnitude gives a negative radius (`EarthquakeStyle.GetRadiusSign`).
- The radius jumps from 0.4 at magnitude 0.1 up to 1 at magnitude 0
  (`EarthquakeStyle.Examples`).

The legend's table starts at -10. `getColor` has no lower bound, so depths at
or below -10 also get the first legend colour (`Legend.ShallowDepthsGetFirstColor`).

The source's own expressions are modelled by helper functions that have no
rows of their own: `Legend.Entry` is the string one pass of the loop appends
(logic.js:100-101), `Legend.HasUpperBound` its truthiness test on
`depthLevels[i + 1]` (logic.js:101), `Legend.LegendHtml` the markup after the
heading and the first n passes (logic.js:96-102), and `Popup.PopupTemplate`
the popup's template literal (logic.js:78-80). The rows of `Legend.OnAdd`,
`Legend.LegendEntry`, `Legend.EntryByPosition` and `Popup.PopupHtml` state
what is proved about them.

## Model

| member | source | states |
|---|---|---|
| `EarthquakeStyle.GetColor` | Leaflet/static/js/logic.js:56-63 | each of the six colours is returned exactly when the depth lies in its bucket: above 90, (70,90], (50,70], (30,50], (10,30], or at most 10 (negative depths included) |
| `EarthquakeStyle.GetColorRange` | Leaflet/static/js/logic.js:56-63 | every depth is given one of exactly the six strings #ff0000, #ff6600, #ffcc00, #ccff33, #66ff66, #00ff00 |
| `EarthquakeStyle.HexInjective` | Leaflet/static/js/logic.js:57-62 | distinct buckets have distinct colour strings |
| `EarthquakeStyle.GetColorRankCountsThresholds` | Leaflet/static/js/logic.js:57-62 | the rank of a depth's colour in the chain is the number of thresholds 10, 30, 50, 70, 90 that the depth strictly exceeds |
| `EarthquakeStyle.GetColorMonotone` | Leaflet/static/js/logic.js:57-62 | d1 <= d2 implies rank(getColor(d1)) <= rank(getColor(d2)) |
| `EarthquakeStyle.Examples` | Leaflet/static/js/logic.js:56-68 | 91 is red, 90 is orange, 10.5 is green; 10, 9 and -5 are bright green; radius 1 at 0, 20 at 5, -8 at -2, and radius(0.1) < radius(0) |
| `EarthquakeStyle.GetRadius` | Leaflet/static/js/logic.js:66-68 | radius is 1 when the magnitude is exactly 0 and 4 times the magnitude otherwise |
| `EarthquakeStyle.GetRadiusSign` | Leaflet/static/js/logic.js:67 | no clamping: the radius is positive iff the magnitude is at least 0, and negative iff the magnitude is negative |
| `EarthquakeStyle.GetRadiusInvertible` | Leaflet/static/js/logic.js:67 | for non-zero magnitudes, equal radii mean equal magnitudes |
| `EarthquakeStyle.StyleInfo` | Leaflet/static/js/logic.js:43-53 | fillColor is getColor of the depth (coordinates[2]) and radius is getRadius of properties.mag; opacity 1, fillOpacity 0.8, color "#000", stroke true and weight 0.5 for every feature |
| `EarthquakeStyle.StyleInfoDependsOnDepthAndMag` | Leaflet/static/js/logic.js:43-53 | two features with the same depth and magnitude get the same style, whatever their position and place |
| `EarthquakeStyle.ScenarioStyle` | Leaflet/static/js/logic.js:43-53 | a magnitude 5.2 earthquake at 35 km is styled #ccff33 with radius 20.8 |
| `Popup.PopupHtml` | Leaflet/static/js/logic.js:76-81 | the popup of a feature parses back to its magnitude text, depth text and place, provided the number texts contain no '<' and no space, as JavaScript's number texts never do |
| `Popup.PopupRoundTrip` | Leaflet/static/js/logic.js:78-80 | parsing the filled template gives back exactly the three values it was filled with, for any place string and any magnitude and depth texts free of '<' and spaces |
| `Popup.PopupInjective` | Leaflet/static/js/logic.js:77-81 | when the number texts are free of '<' and spaces, two features with the same popup have the same magnitude text, depth text and place |
| `Popup.ScenarioPopup` | Leaflet/static/js/logic.js:77-81 | the popup of magnitude 5.2, depth 35, place "10km N of Testville" shows "5.2", "35" and that place |
| `Text.IntToStringRoundTrip` | Leaflet/static/js/logic.js:101 | the decimal text given to a depth level reads back as that level |
| `Text.IntToStringInjective` | Leaflet/static/js/logic.js:101 | distinct depth levels get distinct texts |
| `Legend.OnAdd` | Leaflet/static/js/logic.js:91-104 | returns a fresh element; the markup appended to its inner HTML is the heading followed by one entry per depth level, as LegendHtml specifies |
| `Legend.LegendTableShape` | Leaflet/static/js/logic.js:93-94 | the two tables have six rows each; the levels strictly ascend; no level after the first is 0 |
| `Legend.SixEntries` | Leaflet/static/js/logic.js:96-102 | for a six-row table the legend is the heading "<h4>Depth (km)</h4>" followed by entries 0 to 5 in table order, and nothing else |
| `Legend.EntryByPosition` | Leaflet/static/js/logic.js:101 | when no level after the first is 0, the truthiness test on depthLevels[i + 1] is the same as "a next level exists" |
| `Legend.ZeroLevelCutsRange` | Leaflet/static/js/logic.js:101 | a level equal to 0 would turn the previous entry into an open-ended "+" entry |
| `Legend.LegendEntry` | Leaflet/static/js/logic.js:98-102 | entry i pairs colors[i] with depthLevels[i]; entries 0 to 4 read "lo&ndash;hi<br>" with hi = depthLevels[i + 1]; the last is "90+" |
| `Legend.BucketInterval` | Leaflet/static/js/logic.js:57-62 | on a strictly ascending table, the scan from the top level down puts a depth in bucket k iff it is above level k (or k = 0) and at most level k + 1 (or k is last) |
| `Legend.BucketMonotone` | Leaflet/static/js/logic.js:57-62 | the top-down scan never puts a deeper earthquake in a lower bucket, whatever the table |
| `Legend.GetColorIsLegendLookup` | Leaflet/static/js/logic.js:56-63 | getColor is the top-down scan over the legend's depthLevels: the rank of its colour is the bucket, and its string is colors[bucket] |
| `Legend.LegendAgreesWithGetColor` | Leaflet/static/js/logic.js:93-94 | every depth in (depthLevels[i], depthLevels[i + 1]], or above depthLevels[5] for the last row, gets colors[i] from getColor |
| `Legend.ShallowDepthsGetFirstColor` | Leaflet/static/js/logic.js:93-94 | every depth at or below depthLevels[1], including those below -10, gets colors[0] |

## Left out

- Map setup (logic.js:1-37, 85, 107, 117): the tile layers, the map object, the layer groups, the layer control and the `addTo` calls are calls into the mapping library with no logic of their own.
- Fetches (logic.js:40, 110-111): the two `d3.json` requests are asynchronous network I/O. The model starts from a feature already received. It does not model that the plate fetch is nested after the earthquake callback.
- Rendering (logic.js:71-83, 88, 92, 112-115): `L.geoJson`, `L.circleMarker`, `bindPopup`, `L.control` and `L.DomUtil.create` are library and DOM calls. Only the values handed to them are modelled: the style record, the popup string and the legend's inner HTML. The plates' constant style `{color: "#ff5733", weight: 2}` is passed straight to the library and is not modelled.
- Floating point: depths and magnitudes are exact reals. `NaN`, `undefined` and `-0` are not modelled. In the code a `NaN` or missing depth fails every comparison and gets `#00ff00`, and `-0 === 0` gives radius 1. Multiplying by 4 is exact in binary floating point except on overflow, so `4 * m` matches the source up to the representation of `m`.
- Malformed features: a feature missing `geometry.coordinates[2]`, `properties.mag` or `properties.place` is not modelled. `EarthquakeStyle.Feature` always carries all three.
- Popup.PopupHtml: JavaScript's number-to-text conversion is left abstract, as a parameter `show`. The round trip holds for any `show` whose texts contain no '<' and no space (`Popup.IsNumberText`), which every JavaScript number text satisfies.
- Legend.OnAdd: the element is modelled by its `innerHTML` field alone, and that field is the markup appended to it, not what the browser returns when `innerHTML` is read back: the DOM parses each assignment and serialises on reading, so `&ndash;` reads back as the character U+2013. Its class name "info legend" and its position are not modelled. `LegendHtml` requires the two tables to have the same length, as the source's tables do. It does not model an `undefined` colour when `colors` is shorter than `depthLevels`.
