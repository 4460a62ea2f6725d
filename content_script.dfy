/**
 * The content script injected into web pages: it classifies focused fields,
 * suggests previously captured values under the active field, positions two
 * overlays (a status indicator and a suggestion dropdown) and, one second
 * after typing pauses, captures the field's value.
 *
 * The page is modelled by `Element` objects; time is an explicit logical
 * clock; each pending `setTimeout` is an entry with its deadline.
 */
module ContentScript {
  import opened Wrappers
  import opened Text
  import opened Types
  import opened Lists
  import opened ValueStore
  import StorageService

  // ---------------------------------------------------------------- classifier

  /** Attribute fragments that mark a field as sensitive. */
  const SecretKeywords: seq<string> := ["password", "cvv", "card", "key", "secret", "token", "ssn", "cvc"]

  /** The attributes of a focused element that the classifier reads. */
  datatype FieldAttributes = FieldAttributes(
    tagName: string,
    inputType: string,
    name: string,
    id: string,
    placeholder: string,
    className: string)

  /** `(el.name + el.id + el.placeholder + el.className).toLowerCase()` */
  function AttributeText(a: FieldAttributes): (r: string)
    ensures r == ToLower(a.name) + ToLower(a.id) + ToLower(a.placeholder) + ToLower(a.className)
  {
    ToLowerAppend(a.name + a.id + a.placeholder, a.className);
    ToLowerAppend(a.name + a.id, a.placeholder);
    ToLowerAppend(a.name, a.id);
    ToLower(a.name + a.id + a.placeholder + a.className)
  }

  /** `isSecret(el)`: a password field, or one whose attribute text includes a keyword. */
  function IsSecret(a: FieldAttributes): (secret: bool)
    ensures a.inputType == "password" ==> secret
  {
    a.inputType == "password" || exists k :: k in SecretKeywords && Contains(AttributeText(a), k)
  }

  /** The focus-in guard: an INPUT or TEXTAREA element that is not secret. */
  predicate IsEligible(a: FieldAttributes): (ok: bool)
    ensures ok ==> a.inputType != "password"
    ensures a.tagName != "INPUT" && a.tagName != "TEXTAREA" ==> !ok
  {
    (a.tagName == "INPUT" || a.tagName == "TEXTAREA") && !IsSecret(a)
  }

  /**
   * A keyword anywhere inside one attribute, in any letter case, makes the
   * field secret (so a field named "monkey" is secret because of "key").
   */
  lemma KeywordInAttributeIsSecret(a: FieldAttributes, k: string)
    requires k in SecretKeywords
    requires || Contains(ToLower(a.name), k) || Contains(ToLower(a.id), k)
             || Contains(ToLower(a.placeholder), k) || Contains(ToLower(a.className), k)
    ensures IsSecret(a)
  {
    var n, i, p, c := ToLower(a.name), ToLower(a.id), ToLower(a.placeholder), ToLower(a.className);
    if Contains(n, k) {
      ContainsWithin([], n, i + p + c, k);
      assert [] + n + (i + p + c) == AttributeText(a);
    } else if Contains(i, k) {
      ContainsWithin(n, i, p + c, k);
      assert n + i + (p + c) == AttributeText(a);
    } else if Contains(p, k) {
      ContainsWithin(n + i, p, c, k);
    } else {
      ContainsWithin(n + i + p, c, [], k);
      assert n + i + p + c + [] == AttributeText(a);
    }
  }

  /** The classifier ignores the letter case of the four attributes it concatenates. */
  lemma SecretIgnoresCase(a: FieldAttributes)
    ensures IsSecret(a) == IsSecret(a.(name := ToLower(a.name), id := ToLower(a.id),
                                       placeholder := ToLower(a.placeholder), className := ToLower(a.className)))
  {
    var b := a.(name := ToLower(a.name), id := ToLower(a.id),
                placeholder := ToLower(a.placeholder), className := ToLower(a.className));
    ToLowerAppend(a.name + a.id + a.placeholder, a.className);
    ToLowerAppend(a.name + a.id, a.placeholder);
    ToLowerAppend(a.name, a.id);
    ToLowerAppend(b.name + b.id + b.placeholder, b.className);
    ToLowerAppend(b.name + b.id, b.placeholder);
    ToLowerAppend(b.name, b.id);
    ToLowerIdempotent(a.name);
    ToLowerIdempotent(a.id);
    ToLowerIdempotent(a.placeholder);
    ToLowerIdempotent(a.className);
    assert AttributeText(a) == AttributeText(b);
  }

  /** The attribute text is searched as one string, so a keyword may span two attributes. */
  lemma KeywordAcrossAttributes()
    ensures IsSecret(FieldAttributes("INPUT", "text", "ca", "rd", "", ""))
  {
    var a := FieldAttributes("INPUT", "text", "ca", "rd", "", "");
    assert a.name + a.id + a.placeholder + a.className == "card";
    assert AttributeText(a) == "card";
    ContainsSelf("card");
    assert "card" in SecretKeywords;
  }

  // --------------------------------------------------------------- suggestions

  /** The most suggestions the dropdown shows. */
  const MaxSuggestions: nat := 5

  /** `v.value.toLowerCase().includes(filterText.toLowerCase())` */
  predicate MatchesFilter(v: CapturedValue, filter: string) {
    Contains(ToLower(v.value), ToLower(filter))
  }

  /** `savedValues.filter(...)` with the predicate above. */
  function MatchingValues(values: seq<CapturedValue>, filter: string): (r: seq<CapturedValue>)
    ensures forall v :: v in r <==> v in values && MatchesFilter(v, filter)
    ensures |r| <= |values|
  {
    if values == [] then []
    else
      assert values == [values[0]] + values[1..];
      (if MatchesFilter(values[0], filter) then [values[0]] else []) + MatchingValues(values[1..], filter)
  }

  /** The filter keeps the stored order: it works on each part of the list separately. */
  lemma {:induction false} MatchingValuesAppend(a: seq<CapturedValue>, b: seq<CapturedValue>, filter: string)
    ensures MatchingValues(a + b, filter) == MatchingValues(a, filter) + MatchingValues(b, filter)
  {
    if a == [] {
      assert a + b == b;
    } else {
      assert (a + b)[1..] == a[1..] + b;
      MatchingValuesAppend(a[1..], b, filter);
    }
  }

  /** The matches computed by `renderDropdown`: the first five matching values in stored order. */
  function Suggestions(values: seq<CapturedValue>, filter: string): (r: seq<CapturedValue>)
    ensures |r| <= MaxSuggestions
    ensures forall v :: v in r ==> v in values && MatchesFilter(v, filter)
    ensures |r| < MaxSuggestions ==> forall v :: v in values && MatchesFilter(v, filter) ==> v in r
  {
    Take(MatchingValues(values, filter), MaxSuggestions)
  }

  /** An empty filter suggests the first five stored values, most recent first. */
  lemma {:induction false} SuggestionsEmptyFilter(values: seq<CapturedValue>)
    ensures Suggestions(values, "") == Take(values, MaxSuggestions)
  {
    MatchingValuesEmptyFilter(values);
  }

  lemma {:induction false} MatchingValuesEmptyFilter(values: seq<CapturedValue>)
    ensures MatchingValues(values, "") == values
  {
    if values != [] {
      ContainsEmpty(ToLower(values[0].value));
      MatchingValuesEmptyFilter(values[1..]);
    }
  }

  /** There are no suggestions exactly when no stored value matches. */
  lemma SuggestionsEmptyIffNoMatch(values: seq<CapturedValue>, filter: string)
    ensures Suggestions(values, filter) == [] <==> forall v :: v in values ==> !MatchesFilter(v, filter)
  {
    var m := MatchingValues(values, filter);
    if m != [] {
      assert m[0] in m;
    }
  }

  /** The texts of the dropdown rows for some matches. */
  function ValuesOf(matches: seq<CapturedValue>): (r: seq<string>)
    ensures |r| == |matches|
    ensures forall i :: 0 <= i < |matches| ==> r[i] == matches[i].value
  {
    seq(|matches|, i requires 0 <= i < |matches| => matches[i].value)
  }

  // ------------------------------------------------------------------ geometry

  /** The viewport rectangle of a field, in whole pixels. */
  datatype Rect = Rect(top: int, right: int, bottom: int, left: int, width: int)

  /** The window's page offsets and the root element's scroll offsets. */
  datatype Scroll = Scroll(pageXOffset: int, pageYOffset: int, rootScrollLeft: int, rootScrollTop: int)

  /** `window.pageXOffset || document.documentElement.scrollLeft` */
  function ScrollLeft(s: Scroll): (x: int)
    ensures x == s.pageXOffset || x == s.rootScrollLeft
    ensures s.pageXOffset != 0 ==> x == s.pageXOffset
    ensures x == 0 <==> s.pageXOffset == 0 && s.rootScrollLeft == 0
  {
    if s.pageXOffset != 0 then s.pageXOffset else s.rootScrollLeft
  }

  /** `window.pageYOffset || document.documentElement.scrollTop` */
  function ScrollTop(s: Scroll): (y: int)
    ensures y == s.pageYOffset || y == s.rootScrollTop
    ensures s.pageYOffset != 0 ==> y == s.pageYOffset
    ensures y == 0 <==> s.pageYOffset == 0 && s.rootScrollTop == 0
  {
    if s.pageYOffset != 0 then s.pageYOffset else s.rootScrollTop
  }

  /** A position in page coordinates. */
  datatype Point = Point(top: int, left: int)

  /** Where `updateUIPosition` puts the indicator: 25 px above the field, 80 px left of its right edge. */
  function IndicatorAnchor(rect: Rect, scroll: Scroll): (p: Point)
    ensures scroll == Scroll(0, 0, 0, 0) ==> p == Point(rect.top - 25, rect.right - 80)
  {
    Point(rect.top + ScrollTop(scroll) - 25, rect.right + ScrollLeft(scroll) - 80)
  }

  /** Where `updateUIPosition` puts the dropdown: 5 px below the field, at its left edge. */
  function DropdownAnchor(rect: Rect, scroll: Scroll): (p: Point)
    ensures scroll == Scroll(0, 0, 0, 0) ==> p == Point(rect.bottom + 5, rect.left)
  {
    Point(rect.bottom + ScrollTop(scroll) + 5, rect.left + ScrollLeft(scroll))
  }

  /** The same rectangle moved by `dx` to the right and `dy` down in the viewport. */
  function Shifted(rect: Rect, dx: int, dy: int): Rect {
    Rect(rect.top + dy, rect.right + dx, rect.bottom + dy, rect.left + dx, rect.width)
  }

  /**
   * The overlays stay on the field when the page scrolls: scrolling by
   * (dx, dy) moves the field's viewport rectangle by (-dx, -dy) and leaves
   * both anchors where they were in page coordinates.
   */
  lemma AnchorsFollowScroll(rect: Rect, s: Scroll, s': Scroll, dx: int, dy: int)
    requires ScrollLeft(s') == ScrollLeft(s) + dx && ScrollTop(s') == ScrollTop(s) + dy
    ensures IndicatorAnchor(Shifted(rect, -dx, -dy), s') == IndicatorAnchor(rect, s)
    ensures DropdownAnchor(Shifted(rect, -dx, -dy), s') == DropdownAnchor(rect, s)
  {
  }

  /**
   * Whatever the scroll, the dropdown starts 30 px plus the field's height
   * below the indicator, and the indicator starts 80 px minus the field's
   * width to the right of the dropdown.
   */
  lemma AnchorsRelativePlacement(rect: Rect, s: Scroll)
    requires rect.width == rect.right - rect.left
    ensures DropdownAnchor(rect, s).top - IndicatorAnchor(rect, s).top == rect.bottom - rect.top + 30
    ensures IndicatorAnchor(rect, s).left - DropdownAnchor(rect, s).left == rect.width - 80
  {
  }

  // ------------------------------------------------------------------ overlays

  /** The status indicator: its `display` (flex or none) and its position once set. */
  datatype Indicator = Indicator(visible: bool, at: Option<Point>)

  /** The suggestion dropdown: its `display` (block or none), position, width and rendered rows. */
  datatype Dropdown = Dropdown(visible: bool, at: Option<Point>, width: Option<int>, items: seq<string>)

  /** A dropdown as `createDropdown` appends it: no style and no rows. */
  const NewDropdown: Dropdown := Dropdown(false, None, None, [])

  /** `updateUIPosition` on the indicator, if it exists. */
  function PlaceIndicator(i: Option<Indicator>, rect: Rect, scroll: Scroll): (r: Option<Indicator>)
    ensures r.Some? <==> i.Some?
    ensures r.Some? ==> r.value.visible == i.value.visible && r.value.at == Some(IndicatorAnchor(rect, scroll))
  {
    match i
    case None => None
    case Some(ind) => Some(ind.(at := Some(IndicatorAnchor(rect, scroll))))
  }

  /** `updateUIPosition` on the dropdown, if it exists: anchored below the field, as wide as the field. */
  function PlaceDropdown(d: Option<Dropdown>, rect: Rect, scroll: Scroll): (r: Option<Dropdown>)
    ensures r.Some? <==> d.Some?
    ensures r.Some? ==> r.value.at == Some(DropdownAnchor(rect, scroll)) && r.value.width == Some(rect.width)
    ensures r.Some? ==> r.value.visible == d.value.visible && r.value.items == d.value.items
  {
    match d
    case None => None
    case Some(dd) => Some(dd.(at := Some(DropdownAnchor(rect, scroll)), width := Some(rect.width)))
  }

  /** `renderDropdown(filter)` on the dropdown, if it exists. */
  function Rendered(d: Option<Dropdown>, values: seq<CapturedValue>, filter: string): (r: Option<Dropdown>)
    ensures r.Some? <==> d.Some?
    ensures r.Some? ==> r.value.at == d.value.at && r.value.width == d.value.width
  {
    match d
    case None => None
    case Some(dd) =>
      var matches := Suggestions(values, filter);
      if |matches| == 0 then Some(dd.(visible := false))
      else Some(dd.(visible := true, items := ValuesOf(matches)))
  }

  /**
   * With no dropdown nothing happens; with no match the dropdown is hidden and
   * keeps its old rows; otherwise it shows the matches. Its position and width
   * are kept.
   */
  lemma RenderedCases(d: Option<Dropdown>, values: seq<CapturedValue>, filter: string)
    ensures var r := Rendered(d, values, filter);
            && (r.Some? <==> d.Some?)
            && (r.Some? ==> r.value.at == d.value.at && r.value.width == d.value.width)
            && (r.Some? ==> (r.value.visible <==> exists v :: v in values && MatchesFilter(v, filter)))
            && (r.Some? && r.value.visible ==> r.value.items == ValuesOf(Suggestions(values, filter)))
            && (r.Some? && !r.value.visible ==> r.value.items == d.value.items)
  {
    SuggestionsEmptyIffNoMatch(values, filter);
  }

  /** Every row the dropdown shows is a stored value that contains the filter, ignoring case. */
  lemma RenderedRowsMatch(d: Option<Dropdown>, values: seq<CapturedValue>, filter: string)
    requires Rendered(d, values, filter).Some? && Rendered(d, values, filter).value.visible
    ensures var items := Rendered(d, values, filter).value.items;
            1 <= |items| <= MaxSuggestions &&
            forall i :: 0 <= i < |items| ==>
              exists v :: v in values && v.value == items[i] && Contains(ToLower(items[i]), ToLower(filter))
  {
    var m := Suggestions(values, filter);
    var items := Rendered(d, values, filter).value.items;
    forall i | 0 <= i < |items|
      ensures exists v :: v in values && v.value == items[i] && Contains(ToLower(items[i]), ToLower(filter))
    {
      assert m[i] in m;
    }
  }

  /** The 200 ms focus-out timer's effect on an overlay: `display = 'none'` if it exists. */
  function HiddenIndicator(i: Option<Indicator>): (r: Option<Indicator>)
    ensures r.Some? <==> i.Some?
    ensures r.Some? ==> !r.value.visible && r.value.at == i.value.at
  {
    match i
    case None => None
    case Some(ind) => Some(ind.(visible := false))
  }

  function HiddenDropdown(d: Option<Dropdown>): (r: Option<Dropdown>)
    ensures r.Some? <==> d.Some?
    ensures r.Some? ==> !r.value.visible && r.value.at == d.value.at && r.value.items == d.value.items
  {
    match d
    case None => None
    case Some(dd) => Some(dd.(visible := false))
  }

  // ------------------------------------------------------------- time and ids

  /** The debounce delay before a pause in typing is captured. */
  const SaveDelay: nat := 1000

  /** The grace delay before a focus-out hides the overlays. */
  const HideDelay: nat := 200

  function DigitChar(d: nat): (c: char)
    requires d < 10
    ensures '0' <= c <= '9' && c as int - '0' as int == d
  {
    "0123456789"[d]
  }

  /** `Date.now().toString()`: the decimal digits of the time, used as the entry id. */
  function DecimalString(n: nat): (s: string)
    ensures s != []
    ensures forall i :: 0 <= i < |s| ==> '0' <= s[i] <= '9'
  {
    if n < 10 then [DigitChar(n)] else DecimalString(n / 10) + [DigitChar(n % 10)]
  }

  /** The number a string of decimal digits denotes, most significant digit first. */
  function DecimalValue(s: string): nat
    requires forall i :: 0 <= i < |s| ==> '0' <= s[i] <= '9'
  {
    if s == [] then 0
    else DecimalValue(s[..|s| - 1]) * 10 + (s[|s| - 1] as int - '0' as int)
  }

  /** The id of an entry reads back as the time it was made: distinct times give distinct ids. */
  lemma {:induction false} DecimalRoundTrip(n: nat)
    ensures DecimalValue(DecimalString(n)) == n
  {
    var s := DecimalString(n);
    if n >= 10 {
      assert s[..|s| - 1] == DecimalString(n / 10);
      DecimalRoundTrip(n / 10);
    }
  }

  /**
   * What `handleValueSave(value)` leaves behind, as the stored key and the
   * script's copy of the list, given what they held before: a short value
   * touches nothing; otherwise the list is reloaded and, unless the value is
   * already known, the new entry is put in front and written back.
   */
  function AfterSave(stored: Option<seq<CapturedValue>>, saved: seq<CapturedValue>,
                     value: string, now: nat, pageUrl: string): (r: (Option<seq<CapturedValue>>, seq<CapturedValue>))
    ensures r.0 == stored || r.0 == Some(r.1)
  {
    if TooShort(value) then (stored, saved)
    else
      var loaded := stored.GetOr([]);
      match Insert(loaded, value, DecimalString(now), now, pageUrl)
      case None => (stored, loaded)
      case Some(updated) => (Some(updated), updated)
  }

  /**
   * The three outcomes of a save: a short value leaves both untouched, a value
   * already stored (in any letter case) only refreshes the script's copy, and
   * a new value is put, trimmed and time-stamped, in front of the stored list
   * and written back.
   */
  lemma AfterSaveCases(stored: Option<seq<CapturedValue>>, saved: seq<CapturedValue>,
                       value: string, now: nat, pageUrl: string)
    ensures var r := AfterSave(stored, saved, value, now, pageUrl);
            && (TooShort(value) ==> r == (stored, saved))
            && (!TooShort(value) && Known(stored.GetOr([]), value) ==> r == (stored, stored.GetOr([])))
            && (!TooShort(value) && !Known(stored.GetOr([]), value) ==>
                  r.0 == Some(r.1) && r.1 == [CapturedValue(DecimalString(now), Trim(value), now, pageUrl)] + stored.GetOr([]))
  {
  }

  // ------------------------------------------------------------------ the page

  /** A page element that can take focus: its classifier attributes and its current text. */
  class Element {
    var attributes: FieldAttributes
    var value: string

    constructor (attributes: FieldAttributes, value: string)
      ensures this.attributes == attributes && this.value == value
    {
      this.attributes := attributes;
      this.value := value;
    }
  }

  /** The content script's state on one page. */
  class ContentScript {
    /** The `capturedValues` key of the extension's local storage. */
    var stored: Option<seq<CapturedValue>>
    /** `savedValues`: the copy of the stored list the script last loaded or wrote. */
    var savedValues: seq<CapturedValue>
    /** `activeInput` */
    var activeInput: Element?
    /** `indicatorEl`, once created. */
    var indicator: Option<Indicator>
    /** `dropdownEl`, once created. */
    var dropdown: Option<Dropdown>
    /** Each element's pending `_jsTimer`, by its deadline. */
    var saveTimers: map<Element, nat>
    /** The deadlines of the pending focus-out timers. */
    var hideTimers: seq<nat>
    /** The time of the last event handled. */
    var clock: nat
    /** `window.location.href` */
    const pageUrl: string

    ghost var indicatorsCreated: nat
    ghost var dropdownsCreated: nat
    /** The values `handleValueSave` was called with, in order. */
    ghost var saveRequests: seq<string>

    /** No pending timer is due before `now`: had one been, it would have fired first. */
    ghost predicate NoOverdue(now: nat)
      reads this
    {
      && (forall e :: e in saveTimers ==> now <= saveTimers[e])
      && (forall i :: 0 <= i < |hideTimers| ==> now <= hideTimers[i])
    }

    /**
     * Each overlay is created at most once, both exist exactly when a field
     * has been activated, and no timer is overdue.
     */
    ghost predicate Valid()
      reads this
    {
      && indicatorsCreated == (if indicator.Some? then 1 else 0)
      && dropdownsCreated == (if dropdown.Some? then 1 else 0)
      && (activeInput != null <==> indicator.Some?)
      && (indicator.Some? <==> dropdown.Some?)
      && NoOverdue(clock)
    }

    /** The script as injected: nothing active, no overlays, no timers. */
    constructor (pageUrl: string, stored: Option<seq<CapturedValue>>)
      ensures Valid()
      ensures this.pageUrl == pageUrl && this.stored == stored && savedValues == []
      ensures activeInput == null && indicator.None? && dropdown.None?
      ensures saveTimers == map[] && hideTimers == [] && clock == 0 && saveRequests == []
    {
      this.pageUrl := pageUrl;
      this.stored := stored;
      savedValues := [];
      activeInput := null;
      indicator := None;
      dropdown := None;
      saveTimers := map[];
      hideTimers := [];
      clock := 0;
      indicatorsCreated := 0;
      dropdownsCreated := 0;
      saveRequests := [];
    }

    /** `updateUIPosition(input)`, given the input's rectangle and the scroll offsets. */
    method UpdateUIPosition(rect: Rect, scroll: Scroll)
      modifies this`indicator, this`dropdown
      ensures indicator == PlaceIndicator(old(indicator), rect, scroll)
      ensures dropdown == PlaceDropdown(old(dropdown), rect, scroll)
    {
      if indicator.Some? {
        indicator := Some(indicator.value.(at := Some(IndicatorAnchor(rect, scroll))));
      }
      if dropdown.Some? {
        dropdown := Some(dropdown.value.(at := Some(DropdownAnchor(rect, scroll)), width := Some(rect.width)));
      }
    }

    /** `loadValues()`: the stored list, or the empty list when the key is missing. */
    method LoadValues()
      modifies this`savedValues
      ensures savedValues == stored.GetOr([])
    {
      savedValues := if stored.Some? then stored.value else [];
    }

    /** `renderDropdown(filterText)` */
    method RenderDropdown(filterText: string)
      modifies this`dropdown
      ensures dropdown == Rendered(old(dropdown), savedValues, filterText)
    {
      if dropdown.None? {
        return;
      }
      var matches := Suggestions(savedValues, filterText);
      if |matches| == 0 {
        dropdown := Some(dropdown.value.(visible := false));
        return;
      }
      dropdown := Some(dropdown.value.(visible := true, items := ValuesOf(matches)));
    }

    /** `handleValueSave(value)` at time `now`. */
    method HandleValueSave(value: string, now: nat)
      modifies this`savedValues, this`stored
      ensures (stored, savedValues) == AfterSave(old(stored), old(savedValues), value, now, pageUrl)
    {
      if TooShort(value) {
        return;
      }
      LoadValues();
      var known := Known(savedValues, value);
      if !known {
        var newValue := CapturedValue(DecimalString(now), Trim(value), now, pageUrl);
        savedValues := [newValue] + savedValues;
        stored := Some(savedValues);
      }
    }

    /** `createIndicator()` and `createDropdown()`, each only when its overlay does not exist yet. */
    method CreateOverlays()
      requires indicatorsCreated == (if indicator.Some? then 1 else 0)
      requires dropdownsCreated == (if dropdown.Some? then 1 else 0)
      modifies this`indicator, this`dropdown, this`indicatorsCreated, this`dropdownsCreated
      ensures indicator == Some(old(indicator).GetOr(Indicator(false, None)))
      ensures dropdown == Some(old(dropdown).GetOr(NewDropdown))
      ensures indicatorsCreated == 1 && dropdownsCreated == 1
    {
      if indicator.None? {
        indicator := Some(Indicator(false, None));
        indicatorsCreated := indicatorsCreated + 1;
      }
      if dropdown.None? {
        dropdown := Some(NewDropdown);
        dropdownsCreated := dropdownsCreated + 1;
      }
    }

    /**
     * The `focusin` listener. An eligible field becomes the active input: the
     * overlays are created if they do not exist yet, the indicator is shown,
     * both are positioned, the stored values are reloaded and the dropdown
     * shows the matches for the field's text. Any other element changes
     * nothing.
     */
    method FocusIn(el: Element, rect: Rect, scroll: Scroll, now: nat)
      requires Valid() && clock <= now && NoOverdue(now)
      modifies this`activeInput, this`indicator, this`dropdown, this`savedValues, this`clock
      modifies this`indicatorsCreated, this`dropdownsCreated
      ensures Valid() && clock == now
      ensures !IsEligible(el.attributes) ==>
                && activeInput == old(activeInput) && indicator == old(indicator)
                && dropdown == old(dropdown) && savedValues == old(savedValues)
      ensures IsEligible(el.attributes) ==>
                && activeInput == el
                && savedValues == stored.GetOr([])
                && indicator == Some(Indicator(true, Some(IndicatorAnchor(rect, scroll))))
                && dropdown == Rendered(PlaceDropdown(Some(old(dropdown).GetOr(NewDropdown)), rect, scroll),
                                        savedValues, el.value)
    {
      clock := now;
      if IsEligible(el.attributes) {
        activeInput := el;
        CreateOverlays();
        indicator := Some(indicator.value.(visible := true));
        UpdateUIPosition(rect, scroll);
        LoadValues();
        RenderDropdown(el.value);
      }
    }

    /**
     * `focusin` as evidently intended: the same listener, except that an
     * eligible field also cancels the focus-out timers still pending, so the
     * overlays it shows stay up until it loses the focus itself.
     */
    method FocusInCancellingHide(el: Element, rect: Rect, scroll: Scroll, now: nat)
      requires Valid() && clock <= now && NoOverdue(now)
      modifies this`activeInput, this`indicator, this`dropdown, this`savedValues, this`clock, this`hideTimers
      modifies this`indicatorsCreated, this`dropdownsCreated
      ensures Valid() && clock == now
      ensures !IsEligible(el.attributes) ==>
                && activeInput == old(activeInput) && indicator == old(indicator)
                && dropdown == old(dropdown) && savedValues == old(savedValues) && hideTimers == old(hideTimers)
      ensures IsEligible(el.attributes) ==>
                && activeInput == el && hideTimers == []
                && savedValues == stored.GetOr([])
                && indicator == Some(Indicator(true, Some(IndicatorAnchor(rect, scroll))))
                && dropdown == Rendered(PlaceDropdown(Some(old(dropdown).GetOr(NewDropdown)), rect, scroll),
                                        savedValues, el.value)
    {
      FocusIn(el, rect, scroll, now);
      if IsEligible(el.attributes) {
        hideTimers := [];
      }
    }

    /** The `focusout` listener: schedules hiding both overlays 200 ms later; the active input stays. */
    method FocusOut(now: nat)
      requires Valid() && clock <= now && NoOverdue(now)
      modifies this`hideTimers, this`clock
      ensures Valid() && clock == now
      ensures hideTimers == old(hideTimers) + [now + HideDelay]
    {
      clock := now;
      hideTimers := hideTimers + [now + HideDelay];
    }

    /** The focus-out timer at index `i` fires: both overlays are hidden if they exist. */
    method FireHideTimer(i: nat, now: nat)
      requires Valid() && clock <= now && NoOverdue(now)
      requires i < |hideTimers| && hideTimers[i] == now
      modifies this`hideTimers, this`indicator, this`dropdown, this`clock
      ensures Valid() && clock == now
      ensures hideTimers == old(hideTimers[..i] + hideTimers[i + 1..])
      ensures indicator == HiddenIndicator(old(indicator)) && dropdown == HiddenDropdown(old(dropdown))
    {
      clock := now;
      hideTimers := hideTimers[..i] + hideTimers[i + 1..];
      if indicator.Some? {
        indicator := Some(indicator.value.(visible := false));
      }
      if dropdown.Some? {
        dropdown := Some(dropdown.value.(visible := false));
      }
    }

    /**
     * The `input` listener. On the active input it repositions the overlays,
     * re-renders the dropdown for the new text and restarts that element's
     * one-second save timer; input on any other element changes nothing.
     */
    method Input(el: Element, rect: Rect, scroll: Scroll, now: nat)
      requires Valid() && clock <= now && NoOverdue(now)
      modifies this`indicator, this`dropdown, this`saveTimers, this`clock
      ensures Valid() && clock == now
      ensures activeInput != el ==>
                indicator == old(indicator) && dropdown == old(dropdown) && saveTimers == old(saveTimers)
      ensures activeInput == el ==>
                && indicator == PlaceIndicator(old(indicator), rect, scroll)
                && dropdown == Rendered(PlaceDropdown(old(dropdown), rect, scroll), savedValues, el.value)
                && saveTimers == old(saveTimers)[el := now + SaveDelay]
    {
      clock := now;
      if activeInput == el {
        UpdateUIPosition(rect, scroll);
        RenderDropdown(el.value);
        saveTimers := saveTimers[el := now + SaveDelay];
      }
    }

    /** The capture-phase `scroll` listener: repositions the overlays on the active input, if any. */
    method Scroll(rect: Rect, scroll: Scroll, now: nat)
      requires Valid() && clock <= now && NoOverdue(now)
      modifies this`indicator, this`dropdown, this`clock
      ensures Valid() && clock == now
      ensures activeInput == null ==> indicator == old(indicator) && dropdown == old(dropdown)
      ensures activeInput != null ==>
                indicator == PlaceIndicator(old(indicator), rect, scroll)
                && dropdown == PlaceDropdown(old(dropdown), rect, scroll)
    {
      clock := now;
      if activeInput != null {
        UpdateUIPosition(rect, scroll);
      }
    }

    /**
     * The debounce: a burst of inputs on the active field, each less than a
     * second after the one before, leaves exactly one pending save for the
     * field, due one second after the last input. The field's own earlier
     * timer need only be pending at the first input, since each input
     * restarts it; every other timer is pending until the last input. No save
     * runs meanwhile: the frame leaves `stored` and `saveRequests` alone,
     * and the last ensures says so.
     */
    method InputBurst(el: Element, times: seq<nat>, rect: Rect, scroll: Scroll)
      requires Valid() && activeInput == el && |times| > 0
      requires clock <= times[0] && NoOverdue(times[0])
      requires forall i, j :: 0 <= i <= j < |times| ==> times[i] <= times[j]
      requires forall i :: 0 < i < |times| ==> times[i] < times[i - 1] + SaveDelay
      requires forall e :: e in saveTimers && e != el ==> times[|times| - 1] <= saveTimers[e]
      requires forall i :: 0 <= i < |hideTimers| ==> times[|times| - 1] <= hideTimers[i]
      modifies this`indicator, this`dropdown, this`saveTimers, this`clock
      ensures Valid() && clock == times[|times| - 1]
      ensures saveTimers == old(saveTimers)[el := times[|times| - 1] + SaveDelay]
      ensures saveRequests == old(saveRequests) && stored == old(stored)
    {
      Input(el, rect, scroll, times[0]);
      for i := 1 to |times|
        invariant Valid() && activeInput == el && clock == times[i - 1]
        invariant saveTimers == old(saveTimers)[el := times[i - 1] + SaveDelay]
      {
        assert NoOverdue(times[i]) by {
          forall e | e in saveTimers
            ensures times[i] <= saveTimers[e]
          {
            if e != el {
              assert times[i] <= times[|times| - 1];
            }
          }
          assert times[i] <= times[|times| - 1];
        }
        Input(el, rect, scroll, times[i]);
      }
    }

    /**
     * An element's save timer fires, one second after the last input that
     * (re)started it: `handleValueSave` runs on the element's text as it is now.
     */
    method FireSaveTimer(el: Element, now: nat)
      requires Valid() && clock <= now && NoOverdue(now)
      requires el in saveTimers && saveTimers[el] == now
      modifies this`saveTimers, this`savedValues, this`stored, this`clock, this`saveRequests
      ensures Valid() && clock == now
      ensures saveTimers == old(saveTimers) - {el}
      ensures saveRequests == old(saveRequests) + [el.value]
      ensures (stored, savedValues) == AfterSave(old(stored), old(savedValues), el.value, now, pageUrl)
    {
      var text := el.value;
      HandleValueSave(text, now);
      clock := now;
      saveTimers := saveTimers - {el};
      saveRequests := saveRequests + [text];
      assert forall e :: e in saveTimers ==> e in old(saveTimers) && saveTimers[e] == old(saveTimers)[e];
      assert NoOverdue(now);
    }

    /**
     * Another extension page writes the extension store (the popup's
     * `removeValue` or `clearAll`): the script sees the new list at its next
     * `loadValues`; its own copy stays as it was until then.
     */
    method StoreWritten(store: StorageService.Store)
      requires store.Extension?
      modifies this`stored
      ensures stored == store.capturedValues
      ensures StorageService.GetStorageData(store).capturedValues == stored.GetOr([])
    {
      stored := store.capturedValues;
    }

    /**
     * A press on dropdown row `k`: the active input takes the row's text, the
     * synthetic `input` event runs the input listener on it, and the dropdown
     * is hidden.
     */
    method SelectSuggestion(k: nat, rect: Rect, scroll: Scroll, now: nat)
      requires Valid() && clock <= now && NoOverdue(now)
      requires dropdown.Some? && dropdown.value.visible && k < |dropdown.value.items|
      modifies this`indicator, this`dropdown, this`saveTimers, this`clock, activeInput`value
      ensures Valid() && clock == now
      ensures activeInput != null && activeInput.value == old(dropdown.value.items[k])
      ensures dropdown.Some? && !dropdown.value.visible
      ensures dropdown.value.at == Some(DropdownAnchor(rect, scroll))
      ensures indicator == PlaceIndicator(old(indicator), rect, scroll)
      ensures saveTimers == old(saveTimers)[activeInput := now + SaveDelay]
    {
      var item := dropdown.value.items[k];
      if activeInput != null {
        activeInput.value := item;
        Input(activeInput, rect, scroll, now);
        dropdown := Some(dropdown.value.(visible := false));
      }
    }
  }

  // ------------------------------------------------------ moving the focus

  /** A text field with no attribute that looks secret. */
  const PlainField: FieldAttributes := FieldAttributes("INPUT", "text", "", "", "", "")

  lemma PlainFieldIsEligible()
    ensures IsEligible(PlainField)
  {
    assert AttributeText(PlainField) == [];
    forall k | k in SecretKeywords
      ensures !Contains([], k)
    {
      assert |k| > 0;
    }
  }

  /**
   * The focus moves straight from one plain field to another: the first
   * field's focus-out timer, which the second field's focus-in does not
   * cancel, fires 200 ms later and hides the overlays of the field that now
   * has the focus.
   */
  method RefocusHidesNewOverlays() returns (s: ContentScript, b: Element)
    ensures s.activeInput == b
    ensures s.indicator.Some? && !s.indicator.value.visible
    ensures s.dropdown.Some? && !s.dropdown.value.visible
  {
    PlainFieldIsEligible();
    var rect, scroll := Rect(0, 0, 0, 0, 0), Scroll(0, 0, 0, 0);
    s := new ContentScript("", None);
    var a := new Element(PlainField, "");
    b := new Element(PlainField, "");
    s.FocusIn(a, rect, scroll, 0);
    s.FocusOut(10);
    s.FocusIn(b, rect, scroll, 10);
    s.FireHideTimer(0, 10 + HideDelay);
  }

  /**
   * The same move with the corrected listener: no hide is pending, so the
   * second field's indicator stays visible until it loses the focus.
   */
  method RefocusKeepsNewOverlays() returns (s: ContentScript, b: Element)
    ensures s.activeInput == b && s.hideTimers == []
    ensures s.indicator.Some? && s.indicator.value.visible
  {
    PlainFieldIsEligible();
    var rect, scroll := Rect(0, 0, 0, 0, 0), Scroll(0, 0, 0, 0);
    s := new ContentScript("", None);
    var a := new Element(PlainField, "");
    b := new Element(PlainField, "");
    s.FocusInCancellingHide(a, rect, scroll, 0);
    s.FocusOut(10);
    s.FocusInCancellingHide(b, rect, scroll, 10);
  }
}
