/** Popup content for a pin marker (src/utils/pinUtils.ts): the escaped
    title, the two summary lines and the element ids the map code looks up. */
module PinPopup {
  import opened PinTypes
  import JsString

  /** One character as the HTML fragment serialisation algorithm writes it
      in a text node ("escaping a string" in attribute-free text mode,
      section 13.3 of the WHATWG HTML Living Standard). */
  function EscapeChar(c: char): string {
    if c == '&' then "&amp;"
    else if c == '\U{A0}' then "&nbsp;"
    else if c == '<' then "&lt;"
    else if c == '>' then "&gt;"
    else [c]
  }

  /** `escapeHtml`: the `innerHTML` of a `div` whose text content is `text`. */
  function EscapeHtml(text: string): (r: string)
    ensures '<' !in r && '>' !in r
    ensures |r| >= |text|
  {
    if text == [] then "" else EscapeChar(text[0]) + EscapeHtml(text[1..])
  }

  /** `html` starts with the text `p`. */
  predicate StartsWith(html: string, p: string) {
    |p| <= |html| && html[..|p|] == p
  }

  /** Reads the four entity references back; any other character is kept. */
  function UnescapeHtml(html: string): string
    decreases |html|
  {
    if html == [] then ""
    else if StartsWith(html, "&amp;") then "&" + UnescapeHtml(html[5..])
    else if StartsWith(html, "&nbsp;") then "\U{A0}" + UnescapeHtml(html[6..])
    else if StartsWith(html, "&lt;") then "<" + UnescapeHtml(html[4..])
    else if StartsWith(html, "&gt;") then ">" + UnescapeHtml(html[4..])
    else [html[0]] + UnescapeHtml(html[1..])
  }

  /** Reading back undoes the escaping of one character. */
  lemma UnescapeChar(c: char, rest: string)
    ensures UnescapeHtml(EscapeChar(c) + rest) == [c] + UnescapeHtml(rest)
  {
    var s := EscapeChar(c) + rest;
    if c == '&' {
      assert s[..5] == "&amp;" && s[5..] == rest;
    } else if c == '\U{A0}' {
      UnescapeNbsp(rest);
    } else if c == '<' {
      UnescapeLt(rest);
    } else if c == '>' {
      UnescapeGt(rest);
    } else {
      assert s[0] == c && s[1..] == rest;
      assert !StartsWith(s, "&amp;") && !StartsWith(s, "&nbsp;") && !StartsWith(s, "&lt;") && !StartsWith(s, "&gt;") by {
        if |s| >= 4 { assert s[..4][0] == c; }
      }
    }
  }

  lemma UnescapeNbsp(rest: string)
    ensures UnescapeHtml("&nbsp;" + rest) == "\U{A0}" + UnescapeHtml(rest)
  {
    var s := "&nbsp;" + rest;
    assert s[..5][1] == 'n';
    assert s[..6] == "&nbsp;" && s[6..] == rest;
  }

  lemma UnescapeLt(rest: string)
    ensures UnescapeHtml("&lt;" + rest) == "<" + UnescapeHtml(rest)
  {
    var s := "&lt;" + rest;
    assert s[..4][1] == 'l';
    assert !StartsWith(s, "&amp;") && !StartsWith(s, "&nbsp;") by {
      if |s| >= 5 { assert s[..5][1] == 'l'; }
    }
    assert s[..4] == "&lt;" && s[4..] == rest;
  }

  lemma UnescapeGt(rest: string)
    ensures UnescapeHtml("&gt;" + rest) == ">" + UnescapeHtml(rest)
  {
    var s := "&gt;" + rest;
    assert !StartsWith(s, "&amp;") && !StartsWith(s, "&nbsp;") && !StartsWith(s, "&lt;") by {
      assert s[..4][1] == 'g';
      if |s| >= 5 { assert s[..5][1] == 'g'; }
    }
    assert s[..4] == "&gt;" && s[4..] == rest;
  }

  /** Escaping loses nothing: the text is recovered from the markup. */
  lemma {:induction false} EscapeRoundTrip(text: string)
    ensures UnescapeHtml(EscapeHtml(text)) == text
  {
    if text != [] {
      UnescapeChar(text[0], EscapeHtml(text[1..]));
      EscapeRoundTrip(text[1..]);
    }
  }

  /** Text without markup characters is written as it is. */
  lemma {:induction false} EscapePlain(text: string)
    requires forall i :: 0 <= i < |text| ==> text[i] !in "&<>\U{A0}"
    ensures EscapeHtml(text) == text
  {
    if text != [] {
      EscapePlain(text[1..]);
    }
  }

  /** A list shown as its entries joined by ", ", or a placeholder when empty. */
  function SummaryText(entries: seq<string>, placeholder: string): string {
    if |entries| > 0 then JsString.Join(entries, ", ") else placeholder
  }

  /** The assignees line of the popup. */
  function AssigneesText(assignees: seq<string>): string {
    SummaryText(assignees, "None assigned")
  }

  /** The target-families line of the popup. */
  function FamiliesText(families: seq<string>): string {
    SummaryText(families, "No target families")
  }

  /** Element ids embedded in the popup. */
  function RootId(pinId: string): string { "pin-" + pinId }
  function RenameButtonId(pinId: string): string { "rename-" + pinId }
  function DeleteButtonId(pinId: string): string { "delete-" + pinId }

  /** The attribute text that gives an element the id `elementId`. */
  function IdAttribute(elementId: string): string { "id=\"" + elementId + "\"" }

  /** The fixed text of the `getPinPopupHtml` template, between the
      interpolated values, written line by line. */
  function OpenRoot(): string { "\n    <div " }
  function OpenTitle(): string {
    " style=\"min-width: " + "220px;\">\n"
    + "      <div class=\"" + "font-medium " + "text-gray-900 mb-2\">"
  }
  function OpenCoordinates(): string {
    "</div>\n"
    + "      <div class=\"" + "text-xs " + "text-gray-600 mb-2\">"
  }
  function CoordinateSeparator(): string { ", " }
  function OpenAssignees(): string {
    "</div>\n"
    + "      <div class=\"" + "text-xs " + "text-gray-700 mb-2\">\n"
    + "        <span " + "class=\"font-medium\">" + "Assignees:</span> "
  }
  function OpenFamilies(): string {
    "\n      </div>\n"
    + "      <div class=\"" + "text-xs " + "text-gray-700 mb-3\">\n"
    + "        <span " + "class=\"font-medium\">" + "Target Families:" + "</span> "
  }
  function OpenRenameButton(): string {
    "\n      </div>\n"
    + "      <div class=\"" + "flex gap-2\">\n"
    + "        <button "
  }
  function OpenDeleteButton(): string {
    " class=\"px-2 py-1 " + "text-xs bg-blue-600 " + "text-white rounded\">"
    + "Edit</button>\n"
    + "        <button "
  }
  function CloseRoot(): string {
    " class=\"px-2 py-1 " + "text-xs bg-red-600 " + "text-white rounded\">"
    + "Delete</button>\n"
    + "      </div>\n"
    + "    </div>\n  "
  }

  /** The pieces of the template literal, in order.
      `fixed5` formats a coordinate as `toFixed(5)` does. */
  function PopupParts(pin: Pin, fixed5: real -> string): seq<string> {
    [ OpenRoot(), IdAttribute(RootId(pin.id)),
      OpenTitle(), EscapeHtml(pin.title),
      OpenCoordinates(), fixed5(pin.lat), CoordinateSeparator(), fixed5(pin.lng),
      OpenAssignees(), EscapeHtml(AssigneesText(pin.assignees)),
      OpenFamilies(), EscapeHtml(FamiliesText(pin.targetFamilies)),
      OpenRenameButton(), IdAttribute(RenameButtonId(pin.id)),
      OpenDeleteButton(), IdAttribute(DeleteButtonId(pin.id)),
      CloseRoot() ]
  }

  /** `getPinPopupHtml`. */
  function PopupHtml(pin: Pin, fixed5: real -> string): string {
    JsString.Concat(PopupParts(pin, fixed5))
  }

  /** An empty list is shown by its placeholder, a non-empty one by all of
      its entries; one entry is shown as it is. */
  lemma SummaryTextShows(entries: seq<string>, placeholder: string)
    ensures |entries| == 0 ==> SummaryText(entries, placeholder) == placeholder
    ensures |entries| == 1 ==> SummaryText(entries, placeholder) == entries[0]
    ensures forall i :: 0 <= i < |entries| ==> JsString.Includes(SummaryText(entries, placeholder), entries[i])
  {
    forall i | 0 <= i < |entries| ensures JsString.Includes(SummaryText(entries, placeholder), entries[i]) {
      JsString.JoinIncludes(entries, ", ", i);
    }
  }

  /** The popup carries the root id and both button ids of its pin, its
      escaped title and both escaped summary lines. */
  lemma PopupShows(pin: Pin, fixed5: real -> string)
    ensures JsString.Includes(PopupHtml(pin, fixed5), IdAttribute(RootId(pin.id)))
    ensures JsString.Includes(PopupHtml(pin, fixed5), IdAttribute(RenameButtonId(pin.id)))
    ensures JsString.Includes(PopupHtml(pin, fixed5), IdAttribute(DeleteButtonId(pin.id)))
    ensures JsString.Includes(PopupHtml(pin, fixed5), EscapeHtml(pin.title))
    ensures JsString.Includes(PopupHtml(pin, fixed5), EscapeHtml(AssigneesText(pin.assignees)))
    ensures JsString.Includes(PopupHtml(pin, fixed5), EscapeHtml(FamiliesText(pin.targetFamilies)))
  {
    var parts := PopupParts(pin, fixed5);
    JsString.ConcatIncludes(parts, 1);
    JsString.ConcatIncludes(parts, 13);
    JsString.ConcatIncludes(parts, 15);
    JsString.ConcatIncludes(parts, 3);
    JsString.ConcatIncludes(parts, 9);
    JsString.ConcatIncludes(parts, 11);
  }
}
