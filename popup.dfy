// The popup bound to each earthquake marker: a fixed HTML template filled with
// the magnitude, the depth and the place of the feature.

module Popup {
  import opened Text
  import opened EarthquakeStyle

  // The literal pieces of the template, in order. The line breaks and the
  // eight-space indentation belong to the template literal itself.
  const Open: string := "<h3>Magnitude: "
  const AfterMag: string := "</h3>\n        <h3>Depth: "
  const AfterDepth: string := " km</h3>\n        <hr><p>"
  const Close: string := "</p>"

  /** The three values a popup shows, as text. */
  datatype PopupFields = PopupFields(magText: string, depthText: string, place: string)

  /**
   * Text that JavaScript can produce for a number ("35", "-1.5", "1e+21", "NaN", "Infinity"):
   * it never holds a '<' or a space.
   */
  predicate IsNumberText(s: string)
  {
    '<' !in s && ' ' !in s
  }

  /** The template filled with already formatted magnitude and depth texts and the place string. */
  function PopupTemplate(magText: string, depthText: string, place: string): string
  {
    Open + (magText + (AfterMag + (depthText + (AfterDepth + (place + Close)))))
  }

  /** The popup of a feature. `show` is the host's number-to-text conversion, which the model leaves abstract. */
  function PopupHtml(feature: Feature, show: real -> string): (p: string)
    ensures IsNumberText(show(feature.mag)) && IsNumberText(show(feature.depth)) ==>
      ParsePopup(p) == Some(PopupFields(show(feature.mag), show(feature.depth), feature.place))
  {
    var p := PopupTemplate(show(feature.mag), show(feature.depth), feature.place);
    if IsNumberText(show(feature.mag)) && IsNumberText(show(feature.depth)) then
      PopupRoundTrip(show(feature.mag), show(feature.depth), feature.place);
      p
    else
      p
  }

  predicate StartsWith(s: string, prefix: string)
  {
    |prefix| <= |s| && s[..|prefix|] == prefix
  }

  /** Recover the three fields from a popup text; None when the text does not have the template's shape. */
  function ParsePopup(p: string): Option<PopupFields>
  {
    if StartsWith(p, Open) then ParseFromMag(p[|Open|..]) else None
  }

  /** The magnitude text runs up to the '<' that opens the closing tag. */
  function ParseFromMag(s: string): Option<PopupFields>
  {
    var magText := TakeUntil(s, '<');
    var rest := s[|magText|..];
    if !StartsWith(rest, AfterMag) then None
    else match ParseFromDepth(rest[|AfterMag|..])
      case None => None
      case Some(depthAndPlace) => Some(PopupFields(magText, depthAndPlace.0, depthAndPlace.1))
  }

  /** The depth text runs up to the space before "km". */
  function ParseFromDepth(s: string): Option<(string, string)>
  {
    var depthText := TakeUntil(s, ' ');
    match ParsePlace(s[|depthText|..])
    case None => None
    case Some(place) => Some((depthText, place))
  }

  /** The place is whatever stands between the paragraph tags. */
  function ParsePlace(s: string): Option<string>
  {
    if !StartsWith(s, AfterDepth) then None
    else
      var rest := s[|AfterDepth|..];
      if |Close| <= |rest| && rest[|rest| - |Close|..] == Close then Some(rest[..|rest| - |Close|]) else None
  }

  lemma ParsePlaceOk(place: string)
    ensures ParsePlace(AfterDepth + (place + Close)) == Some(place)
  {
    SplitAt(AfterDepth, place + Close);
    SplitAt(place, Close);
  }

  lemma ParseFromDepthOk(depthText: string, place: string)
    requires IsNumberText(depthText)
    ensures ParseFromDepth(depthText + (AfterDepth + (place + Close))) == Some((depthText, place))
  {
    var after := AfterDepth + (place + Close);
    assert after[0] == ' ';
    TakeUntilDelimited(depthText, ' ', after);
    SplitAt(depthText, after);
    ParsePlaceOk(place);
  }

  lemma ParseFromMagOk(magText: string, depthText: string, place: string)
    requires IsNumberText(magText) && IsNumberText(depthText)
    ensures ParseFromMag(magText + (AfterMag + (depthText + (AfterDepth + (place + Close)))))
      == Some(PopupFields(magText, depthText, place))
  {
    var after := depthText + (AfterDepth + (place + Close));
    assert (AfterMag + after)[0] == '<';
    TakeUntilDelimited(magText, '<', AfterMag + after);
    SplitAt(magText, AfterMag + after);
    SplitAt(AfterMag, after);
    ParseFromDepthOk(depthText, place);
  }

  /** A popup gives back the magnitude text, depth text and place it was built from. */
  lemma PopupRoundTrip(magText: string, depthText: string, place: string)
    requires IsNumberText(magText) && IsNumberText(depthText)
    ensures ParsePopup(PopupTemplate(magText, depthText, place)) == Some(PopupFields(magText, depthText, place))
  {
    SplitAt(Open, magText + (AfterMag + (depthText + (AfterDepth + (place + Close)))));
    ParseFromMagOk(magText, depthText, place);
  }

  /** Two features whose popups coincide show the same magnitude text, depth text and place. */
  lemma PopupInjective(f1: Feature, f2: Feature, show: real -> string)
    requires forall x :: IsNumberText(show(x))
    requires PopupHtml(f1, show) == PopupHtml(f2, show)
    ensures show(f1.mag) == show(f2.mag) && show(f1.depth) == show(f2.depth) && f1.place == f2.place
  {
  }

  /** The popup of a magnitude 5.2 earthquake 35 km deep shows "5.2", "35" and its place. */
  lemma ScenarioPopup(show: real -> string)
    requires show(5.2) == "5.2" && show(35.0) == "35"
    ensures ParsePopup(PopupHtml(Feature(0.0, 0.0, 35.0, 5.2, "10km N of Testville"), show))
      == Some(PopupFields("5.2", "35", "10km N of Testville"))
  {
    var f := Feature(0.0, 0.0, 35.0, 5.2, "10km N of Testville");
    assert IsNumberText(show(f.mag)) && IsNumberText(show(f.depth));
  }
}
