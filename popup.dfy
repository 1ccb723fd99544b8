/** The popup's logic: the "time ago" label, the style-name and preview lookups, the tab
    switch, the style dropdown and the count/last-update summary of the stats tab. */
module Popup {
  import opened Strings
  import opened Optional
  import opened Extraction
  import opened Store
  import opened Replacement
  import opened Page
  import opened Detection

  // ----- formatTimeAgo ----------------------------------------------------------------------

  /** The label's unit and number. */
  datatype Ago = JustNow | MinutesAgo(n: nat) | HoursAgo(n: nat) | DaysAgo(n: nat)

  /** `Math.floor((now - timestamp) / 1000)`: Dafny's `/` by a positive divisor rounds
      down, as `Math.floor` does, also for a timestamp in the future. */
  function ElapsedSeconds(now: int, timestamp: int): int {
    (now - timestamp) / 1000
  }

  /** The bucket of an elapsed number of seconds: under a minute, whole minutes under an
      hour, whole hours under a day, whole days. */
  function Bucket(seconds: int): (a: Ago)
    ensures a.JustNow? <==> seconds < 60
    ensures a.MinutesAgo? <==> 60 <= seconds < 3600
    ensures a.HoursAgo? <==> 3600 <= seconds < 86400
    ensures a.DaysAgo? <==> 86400 <= seconds
    ensures a.MinutesAgo? ==> 1 <= a.n <= 59 && a.n * 60 <= seconds < (a.n + 1) * 60
    ensures a.HoursAgo? ==> 1 <= a.n <= 23 && a.n * 3600 <= seconds < (a.n + 1) * 3600
    ensures a.DaysAgo? ==> 1 <= a.n && a.n * 86400 <= seconds < (a.n + 1) * 86400
  {
    if seconds < 60 then JustNow
    else if seconds < 3600 then MinutesAgo(seconds / 60)
    else if seconds < 86400 then HoursAgo(seconds / 3600)
    else DaysAgo(seconds / 86400)
  }

  function Render(a: Ago): string {
    match a
    case JustNow => "Just now"
    case MinutesAgo(n) => NatToString(n) + "m ago"
    case HoursAgo(n) => NatToString(n) + "h ago"
    case DaysAgo(n) => NatToString(n) + "d ago"
  }

  /** `formatTimeAgo(timestamp)` read at time `now`. */
  function FormatTimeAgo(now: int, timestamp: int): (r: string)
    ensures ParseAgo(r) == Some(Bucket(ElapsedSeconds(now, timestamp)))
    ensures r == "Just now" <==> ElapsedSeconds(now, timestamp) < 60
    ensures r != "-"
  {
    var a := Bucket(ElapsedSeconds(now, timestamp));
    ParseRender(a);
    Render(a)
  }

  /** A timestamp that is not in the past reads "Just now". */
  lemma {:induction false} FutureIsJustNow(now: int, timestamp: int)
    requires timestamp >= now
    ensures FormatTimeAgo(now, timestamp) == "Just now"
  {
    assert ElapsedSeconds(now, timestamp) <= 0;
  }

  function UnitRank(a: Ago): nat {
    match a
    case JustNow => 0
    case MinutesAgo(_) => 1
    case HoursAgo(_) => 2
    case DaysAgo(_) => 3
  }

  /** As time passes, the label never moves to a smaller unit, and within a unit its number
      never goes down. */
  lemma {:induction false} LabelNeverGoesBack(now1: int, now2: int, timestamp: int)
    requires now1 <= now2
    ensures var a1, a2 := Bucket(ElapsedSeconds(now1, timestamp)), Bucket(ElapsedSeconds(now2, timestamp));
      UnitRank(a1) <= UnitRank(a2)
      && (UnitRank(a1) == UnitRank(a2) && !a1.JustNow? ==> a1.n <= a2.n)
  {
    var s1, s2 := ElapsedSeconds(now1, timestamp), ElapsedSeconds(now2, timestamp);
    assert s1 <= s2;
    assert s1 / 60 <= s2 / 60 && s1 / 3600 <= s2 / 3600 && s1 / 86400 <= s2 / 86400;
  }

  /** The count in front of a unit: a non-empty run of decimal digits. */
  function ParseCount(p: string): Option<nat> {
    if p != [] && AllDigits(p) && DecimalValue(p) >= 0 then Some(DecimalValue(p)) else None
  }

  /** Reads a label back into its bucket. */
  function ParseAgo(s: string): Option<Ago> {
    if s == "Just now" then Some(JustNow)
    else if |s| <= 5 then None
    else
      var unit := s[|s| - 5..];
      match ParseCount(s[..|s| - 5])
      case None => None
      case Some(n) =>
        if unit == "m ago" then Some(MinutesAgo(n))
        else if unit == "h ago" then Some(HoursAgo(n))
        else if unit == "d ago" then Some(DaysAgo(n))
        else None
  }

  /** A count followed by a five-letter unit splits back into the two. */
  lemma {:induction false} CountThenUnit(n: nat, unit: string)
    requires |unit| == 5
    ensures var s := NatToString(n) + unit;
      s != "Just now" && |s| > 5 && s[|s| - 5..] == unit && ParseCount(s[..|s| - 5]) == Some(n)
  {
    var d := NatToString(n);
    var s := d + unit;
    NatToStringRoundTrip(n);
    assert s[0] == d[0];
    assert s[0] != "Just now"[0];
    assert s[..|s| - 5] == d;
  }

  lemma {:induction false} ParseMinutes(n: nat)
    ensures ParseAgo(NatToString(n) + "m ago") == Some(MinutesAgo(n))
  {
    CountThenUnit(n, "m ago");
  }

  lemma {:induction false} ParseHours(n: nat)
    ensures ParseAgo(NatToString(n) + "h ago") == Some(HoursAgo(n))
  {
    CountThenUnit(n, "h ago");
    assert "h ago" != "m ago" by { assert "h ago"[0] != "m ago"[0]; }
  }

  lemma {:induction false} ParseDays(n: nat)
    ensures ParseAgo(NatToString(n) + "d ago") == Some(DaysAgo(n))
  {
    CountThenUnit(n, "d ago");
    assert "d ago" != "m ago" by { assert "d ago"[0] != "m ago"[0]; }
    assert "d ago" != "h ago" by { assert "d ago"[0] != "h ago"[0]; }
  }

  /** Every label reads back as the bucket it renders. */
  lemma {:induction false} ParseRender(a: Ago)
    ensures ParseAgo(Render(a)) == Some(a)
  {
    match a
    case JustNow =>
    case MinutesAgo(n) => ParseMinutes(n);
    case HoursAgo(n) => ParseHours(n);
    case DaysAgo(n) => ParseDays(n);
  }

  /** Different buckets give different labels. */
  lemma {:induction false} RenderInjective(a: Ago, b: Ago)
    requires Render(a) == Render(b)
    ensures a == b
  {
    ParseRender(a);
    ParseRender(b);
  }

  // ----- Style names and previews -----------------------------------------------------------

  const StatsStyle := "stats"

  /** `styleNames`. */
  const StyleNames: map<string, string> := map[
    "stats" := "\U{1F6E1}\U{FE0F} Stats Counter (Default)",
    "minimal" := "\U{1F6AB} Minimal/Compact",
    "card" := "\U{1F3AF} Card with Shadow",
    "success" := "\U{2705} Success/Checkmark",
    "ghost" := "\U{1F47B} Ghost/Transparent",
    "line" := "\U{2500} Single Line Banner",
    "none" := "\U{2205} No Visual Indicator"]

  /** The keys of `STYLE_PREVIEWS` (the previews' markup is not modelled). */
  const PreviewStyles: set<string> := {"minimal", "card", "success", "ghost", "stats", "line", "none"}

  /** `styleNames[style] || styleNames.stats` (every name is non-empty; a `null` style
      looks up the absent key "null"). */
  function StyleName(style: Option<string>): (r: string)
    ensures r in StyleNames.Values && r != ""
  {
    if style.Some? && style.value in StyleNames then StyleNames[style.value] else StyleNames[StatsStyle]
  }

  /** Which entry of `STYLE_PREVIEWS` `updatePreview(style)` shows. */
  function PreviewShown(style: Option<string>): (r: string)
    ensures r in PreviewStyles
  {
    if style.Some? && style.value in PreviewStyles then style.value else StatsStyle
  }

  /** `result.placeholderStyle || 'stats'`. */
  function SavedStyle(stored: Option<string>): (r: string)
    ensures r != ""
  {
    if stored.Some? && stored.value != "" then stored.value else StatsStyle
  }

  /** The two tables have the same keys, so the name in the dropdown and the preview below it
      always describe the same style; an unknown or missing style shows the stats name and
      the stats preview. */
  lemma {:induction false} NameAndPreviewAgree(style: Option<string>)
    ensures PreviewShown(style) in StyleNames && StyleName(style) == StyleNames[PreviewShown(style)]
    ensures !(style.Some? && style.value in StyleNames) ==>
      PreviewShown(style) == StatsStyle && StyleName(style) == StyleNames[StatsStyle]
  {
    assert StyleNames.Keys == PreviewStyles;
  }

  /** Nothing saved, or an empty value, means the stats style. */
  lemma {:induction false} SavedStyleDefault(stored: Option<string>)
    ensures SavedStyle(stored) != ""
    ensures SavedStyle(stored) == StatsStyle <==> stored.None? || stored.value in {"", StatsStyle}
  {}

  // ----- Elements of the popup ---------------------------------------------------------------

  /** An element of the popup page: its attributes (never changed by the script), its class
      tokens and its text. */
  class UiElement {
    const attrs: map<string, string>
    var classes: set<string>
    var text: string

    constructor (attrs: map<string, string>, classes: set<string>)
      ensures this.attrs == attrs && this.classes == classes && text == ""
    {
      this.attrs := attrs;
      this.classes := classes;
      text := "";
    }

    /** `getAttribute(name)`. */
    function Attr(name: string): Option<string> {
      if name in attrs then Some(attrs[name]) else None
    }
  }

  // ----- Tabs -------------------------------------------------------------------------------

  /** `${tabName}-tab`, where a missing `data-tab` prints as "null". */
  function TabTargetId(tabName: Option<string>): string {
    (if tabName.Some? then tabName.value else "null") + "-tab"
  }

  /** `document.getElementById(id)` over the page's elements in document order: the first
      element with that id. */
  function FindById(page: seq<UiElement>, id: string): (r: Option<UiElement>)
    ensures r.Some? ==> r.value in page && r.value.Attr("id") == Some(id)
    ensures r.None? ==> forall e :: e in page ==> e.Attr("id") != Some(id)
    ensures r.Some? ==> exists k :: 0 <= k < |page| && page[k] == r.value
                          && forall l :: 0 <= l < k ==> page[l].Attr("id") != Some(id)
  {
    if page == [] then None
    else if page[0].Attr("id") == Some(id) then Some(page[0])
    else FindById(page[1..], id)
  }

  /** The click handler of `clicked`: every tab and tab content loses `active`, then the
      clicked tab and the element with id `data-tab + "-tab"` gain it. When there is no such
      element the handler throws after activating the tab; `found` tells which happened. */
  method ClickTab(page: seq<UiElement>, tabs: seq<UiElement>, contents: seq<UiElement>, clicked: UiElement)
    returns (found: bool)
    requires clicked in tabs
    modifies (set e | e in tabs + contents + page)`classes
    ensures var target := FindById(page, TabTargetId(clicked.Attr("data-tab")));
      found == target.Some?
      && (forall e :: e in tabs || e in contents ==>
            ("active" in e.classes <==> e == clicked || (found && e == target.value)))
      && (forall e :: e in tabs + contents + page ==>
            e.classes - {"active"} == old(e.classes) - {"active"})
      && (found ==> "active" in target.value.classes)
      && (forall e :: e in page && e !in tabs && e !in contents && (found ==> e != target.value) ==>
            e.classes == old(e.classes))
    ensures forall e :: e in tabs + contents + page ==> e.text == old(e.text)
  {
    ghost var all := tabs + contents + page;
    for i := 0 to |tabs|
      invariant forall e :: e in all ==> e.classes == old(e.classes) - (if e in tabs[..i] then {"active"} else {})
    {
      tabs[i].classes := tabs[i].classes - {"active"};
    }
    assert tabs[..|tabs|] == tabs;
    for i := 0 to |contents|
      invariant forall e :: e in all ==>
        e.classes == old(e.classes) - (if e in tabs || e in contents[..i] then {"active"} else {})
    {
      contents[i].classes := contents[i].classes - {"active"};
    }
    assert contents[..|contents|] == contents;
    clicked.classes := clicked.classes + {"active"};
    var target := FindById(page, TabTargetId(clicked.Attr("data-tab")));
    found := target.Some?;
    if found {
      target.value.classes := target.value.classes + {"active"};
    }
  }

  // ----- The style dropdown ------------------------------------------------------------------

  /** `classes` with the `selected` flag set as `on` says, every other token kept. */
  function WithSelected(classes: set<string>, on: bool): (r: set<string>)
    ensures ("selected" in r) == on && r - {"selected"} == classes - {"selected"}
  {
    if on then classes + {"selected"} else classes - {"selected"}
  }

  /** The settings tab: the closures of `initSettings` over its elements. */
  class Settings {
    const selected: UiElement      // #dropdownSelected
    const options: UiElement       // #dropdownOptions
    const selectedText: UiElement  // .dropdown-text inside #dropdownSelected
    const allOptions: seq<UiElement>
    /** The key of the entry of `STYLE_PREVIEWS` that #stylePreview shows. */
    var preview: string

    /** The two dropdown parts are different elements, and neither is an option. */
    predicate Valid() {
      selected != options && selected !in allOptions && options !in allOptions
    }

    constructor (selected: UiElement, options: UiElement, selectedText: UiElement, allOptions: seq<UiElement>)
      requires selected != options && selected !in allOptions && options !in allOptions
      ensures Valid() && this.allOptions == allOptions && preview == ""
      ensures this.selected == selected && this.options == options && this.selectedText == selectedText
    {
      this.selected := selected;
      this.options := options;
      this.selectedText := selectedText;
      this.allOptions := allOptions;
      preview := "";
    }

    /** `openDropdown`. */
    method OpenDropdown()
      requires Valid()
      modifies selected`classes, options`classes
      ensures selected.classes == old(selected.classes) + {"active"}
      ensures options.classes == old(options.classes) + {"show"}
      ensures selected.text == old(selected.text) && options.text == old(options.text)
    {
      selected.classes := selected.classes + {"active"};
      options.classes := options.classes + {"show"};
    }

    /** `closeDropdown`. */
    method CloseDropdown()
      requires Valid()
      modifies selected`classes, options`classes
      ensures selected.classes == old(selected.classes) - {"active"}
      ensures options.classes == old(options.classes) - {"show"}
      ensures selected.text == old(selected.text) && options.text == old(options.text)
    {
      selected.classes := selected.classes - {"active"};
      options.classes := options.classes - {"show"};
    }

    /** A click on the selected box: closes an open dropdown, opens a closed one. Both flags
        end up equal to the new state, whatever they were before. */
    method ToggleDropdown()
      requires Valid()
      modifies selected`classes, options`classes
      ensures ("active" in selected.classes) == !old("active" in selected.classes)
      ensures ("show" in options.classes) == ("active" in selected.classes)
      ensures selected.classes - {"active"} == old(selected.classes) - {"active"}
      ensures options.classes - {"show"} == old(options.classes) - {"show"}
      ensures selected.text == old(selected.text) && options.text == old(options.text)
    {
      if "active" in selected.classes {
        CloseDropdown();
      } else {
        OpenDropdown();
      }
    }

    /** A click anywhere in the popup outside both dropdown parts closes the dropdown. */
    method OnDocumentClick(insideSelected: bool, insideOptions: bool)
      requires Valid()
      modifies selected`classes, options`classes
      ensures !insideSelected && !insideOptions ==>
        selected.classes == old(selected.classes) - {"active"}
        && options.classes == old(options.classes) - {"show"}
      ensures insideSelected || insideOptions ==>
        selected.classes == old(selected.classes) && options.classes == old(options.classes)
      ensures selected.text == old(selected.text) && options.text == old(options.text)
    {
      if !insideSelected && !insideOptions {
        CloseDropdown();
      }
    }

    /** `updateSelectedStyle(style)`: the text shows the style's name (the stats name for an
        unknown style), and an option is marked `selected` exactly when its `data-style`
        equals `style`; nothing else about the options changes. */
    method UpdateSelectedStyle(style: Option<string>)
      modifies selectedText`text, (set e | e in allOptions)`classes
      ensures selectedText.text == StyleName(style)
      ensures forall e :: e in allOptions ==>
        ("selected" in e.classes <==> e.Attr("data-style") == style)
        && e.classes - {"selected"} == old(e.classes) - {"selected"}
      ensures forall e :: e in allOptions && e != selectedText ==> e.text == old(e.text)
    {
      selectedText.text := StyleName(style);
      for i := 0 to |allOptions|
        invariant selectedText.text == StyleName(style)
        invariant forall e :: e in allOptions ==>
          e.classes == if e in allOptions[..i] then WithSelected(old(e.classes), e.Attr("data-style") == style)
                       else old(e.classes)
      {
        var opt := allOptions[i];
        if opt.Attr("data-style") == style {
          opt.classes := opt.classes + {"selected"};
        } else {
          opt.classes := opt.classes - {"selected"};
        }
      }
      assert allOptions[..|allOptions|] == allOptions;
    }

    /** `updatePreview(style)`. */
    method UpdatePreview(style: Option<string>)
      modifies this`preview
      ensures preview == PreviewShown(style)
    {
      preview := PreviewShown(style);
    }

    /** The saved style (or the default) applied when the settings tab starts. */
    method ApplySavedStyle(stored: Option<string>)
      modifies selectedText`text, (set e | e in allOptions)`classes, this`preview
      ensures selectedText.text == StyleName(Some(SavedStyle(stored)))
      ensures preview == PreviewShown(Some(SavedStyle(stored)))
      ensures forall e :: e in allOptions ==>
        ("selected" in e.classes <==> e.Attr("data-style") == Some(SavedStyle(stored)))
        && e.classes - {"selected"} == old(e.classes) - {"selected"}
      ensures forall e :: e in allOptions && e != selectedText ==> e.text == old(e.text)
    {
      var saved := SavedStyle(stored);
      UpdateSelectedStyle(Some(saved));
      UpdatePreview(Some(saved));
    }

    /** A click on an option: mark it, show its name and preview, close the dropdown. */
    method OnOptionClick(option: UiElement)
      requires Valid() && option in allOptions
      modifies selectedText`text, (set e | e in allOptions)`classes, this`preview
      modifies selected`classes, options`classes
      ensures "selected" in option.classes
      ensures forall e :: e in allOptions ==>
        ("selected" in e.classes <==> e.Attr("data-style") == option.Attr("data-style"))
        && e.classes - {"selected"} == old(e.classes) - {"selected"}
      ensures selectedText.text == StyleName(option.Attr("data-style"))
      ensures preview == PreviewShown(option.Attr("data-style"))
      ensures selected.classes == old(selected.classes) - {"active"}
      ensures options.classes == old(options.classes) - {"show"}
      ensures forall e :: e in allOptions && e != selectedText ==> e.text == old(e.text)
      ensures selected != selectedText ==> selected.text == old(selected.text)
      ensures options != selectedText ==> options.text == old(options.text)
    {
      var style := option.Attr("data-style");
      UpdateSelectedStyle(style);
      UpdatePreview(style);
      CloseDropdown();
    }
  }

  /** With every option naming a known style, an unknown style matches no option, so the
      per-option update of `updateSelectedStyle` (`WithSelected`) leaves every option, whatever
      its `classes`, without `selected`, although the text shows the stats name. */
  lemma {:induction false} UnknownStyleMarksNothing(optionStyles: seq<Option<string>>, style: string, classes: set<string>)
    requires forall k :: 0 <= k < |optionStyles| ==> optionStyles[k].Some? && optionStyles[k].value in StyleNames
    requires style !in StyleNames
    ensures forall k :: 0 <= k < |optionStyles| ==> optionStyles[k] != Some(style)
    ensures forall k :: 0 <= k < |optionStyles| ==>
      "selected" !in WithSelected(classes, optionStyles[k] == Some(style))
    ensures StyleName(Some(style)) == StyleNames[StatsStyle]
  {}

  // ----- displayPosts: the count and the last update -----------------------------------------

  /** `result.promotedPosts || []`; only record lists are ever stored under that key. */
  function PostsShown(entries: map<string, StoreValue>): seq<PostInfo> {
    if PostsKey in entries && entries[PostsKey].Posts? then entries[PostsKey].posts else []
  }

  /** `promotedCount.textContent = posts.length`. */
  function CountText(posts: seq<PostInfo>): string {
    NatToString(|posts|)
  }

  /** The last-update label: the age of the first record, or "-" without records. */
  function LastUpdateText(posts: seq<PostInfo>, now: int): (r: string)
    ensures r == "-" <==> |posts| == 0
    ensures |posts| > 0 ==> ParseAgo(r) == Some(Bucket(ElapsedSeconds(now, posts[0].timestamp)))
  {
    if |posts| > 0 then FormatTimeAgo(now, posts[0].timestamp) else "-"
  }

  /** The summary part of `displayPosts`. */
  method DisplaySummary(promotedCount: UiElement, lastUpdate: UiElement, posts: seq<PostInfo>, now: int)
    requires promotedCount != lastUpdate
    modifies promotedCount`text, lastUpdate`text
    ensures promotedCount.text == NatToString(|posts|)
    ensures DecimalValue(promotedCount.text) == |posts| && AllDigits(promotedCount.text)
    ensures lastUpdate.text == LastUpdateText(posts, now)
  {
    NatToStringRoundTrip(|posts|);
    promotedCount.text := CountText(posts);
    if |posts| > 0 {
      lastUpdate.text := FormatTimeAgo(now, posts[0].timestamp);
    } else {
      lastUpdate.text := "-";
    }
  }

  /** After the content script wrote a snapshot of `records`, the popup lists exactly those
      records and its count reads back as the stored count. */
  lemma {:induction false} SummaryMatchesSnapshot(entries: map<string, StoreValue>, records: seq<PostInfo>, writeTime: int)
    ensures var m := WithSnapshot(entries, records, writeTime);
      PostsShown(m) == records && m[CountKey] == Number(DecimalValue(CountText(PostsShown(m))))
  {
    NatToStringRoundTrip(|records|);
  }

  /** The label follows the first record only: records added later never change it. */
  lemma {:induction false} LastUpdateIgnoresLaterRecords(posts: seq<PostInfo>, more: seq<PostInfo>, now: int)
    requires |posts| > 0
    ensures LastUpdateText(posts + more, now) == LastUpdateText(posts, now)
  {
    assert (posts + more)[0] == posts[0];
  }

  /** So over a replacement pass that starts with some records, the label a popup would show
      at a given time stays the same: it is the age of the oldest record, not the newest. */
  lemma {:induction false} LastUpdateStableOverPass(st: PassState, posts: seq<nat>, clock: nat -> int,
                                                    location: string, now: int)
    requires |st.records| > 0
    ensures LastUpdateText(Pass(st, posts, clock, location).records, now) == LastUpdateText(st.records, now)
  {
    var r := Pass(st, posts, clock, location).records;
    assert r == st.records + r[|st.records|..];
    LastUpdateIgnoresLaterRecords(st.records, r[|st.records|..], now);
  }
}
