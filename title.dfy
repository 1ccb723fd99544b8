/** The title cleanup of `extractPostInfo`: a title that holds the marker loses every
    marker together with the whitespace after it, in one left-to-right pass, and is then
    trimmed. */
module TitleCleanup {
  import opened Strings

  /** Title cleanup: only a title holding the marker is touched; then every marker and
      the whitespace after it goes, and the rest is trimmed. */
  function CleanTitle(t: string): (r: string)
    ensures !Contains(t, Marker) ==> r == t
    ensures Contains(t, Marker) ==> |r| < |t| && (r == [] || (!IsSpace(r[0]) && !IsSpace(r[|r| - 1])))
  {
    if Contains(t, Marker) then
      RemoveMarkerShrinks(t);
      var lo :| OccursAt(RemoveMarker(t), Trim(RemoveMarker(t)), lo);
      Trim(RemoveMarker(t))
    else t
  }

  /** Cleanup leaves a title unchanged exactly when it does not hold the marker. */
  lemma {:induction false} CleanTitleFixesExactlyMarkerFree(t: string)
    ensures CleanTitle(t) == t <==> !Contains(t, Marker)
  {
    if Contains(t, Marker) {
      RemoveMarkerShrinks(t);
      var r := RemoveMarker(t);
      var lo :| OccursAt(r, Trim(r), lo);
      assert |CleanTitle(t)| < |t|;
    }
  }

  /** Removal is one pass, not a fixpoint: the marker spelled around a second marker
      survives it. */
  lemma {:induction false} RemoveMarkerIsSinglePass(s: string)
    requires s == "PromPromotedoted"
    ensures RemoveMarker(s) == Marker
  {
    NoMarkerStartsBefore4(s);
    RemoveMarkerKeepsPrefix(s, 4);
    SinglePassPieces(s);
    InnerMarkerRemoved();
  }

  /** The example cut after its first four characters. */
  lemma {:induction false} SinglePassPieces(s: string)
    requires s == "PromPromotedoted"
    ensures s[..4] == "Prom" && s[4..] == "Promotedoted" && "Prom" + "oted" == Marker
  {}

  /** The inner marker goes, and what follows it is too short to hold another. */
  lemma {:induction false} InnerMarkerRemoved()
    ensures RemoveMarker("Promotedoted") == "oted"
  {
    var t := "Promotedoted";
    assert t[..8] == Marker;
    assert t[8..] == "oted";
    RemoveMarkerThenShort(t);
  }

  lemma {:induction false} NoMarkerStartsBefore4(s: string)
    requires s == "PromPromotedoted"
    ensures forall k :: 0 <= k < 4 ==> !StartsWith(s[k..], Marker)
  {
    forall k | 0 <= k < 4 ensures !StartsWith(s[k..], Marker) {
      if k == 0 { assert s[k..][4] != Marker[4]; } else { assert s[k..][0] != Marker[0]; }
    }
  }

  /** A title made of the marker spelled around a second marker is cleaned to the marker
      itself, which still holds the marker: cleanup is not idempotent. */
  lemma {:induction false} CleanTitleIsSinglePass(t: string)
    requires t == "PromPromotedoted"
    ensures CleanTitle(t) == Marker && Contains(CleanTitle(t), Marker)
    ensures CleanTitle(CleanTitle(t)) != CleanTitle(t)
  {
    InnerMarkerOccurs(t);
    RemoveMarkerIsSinglePass(t);
    MarkerIsTrimmed();
    CleanTitleFixesExactlyMarkerFree(Marker);
  }

  lemma {:induction false} InnerMarkerOccurs(t: string)
    requires t == "PromPromotedoted"
    ensures Contains(t, Marker)
  {
    assert OccursAt(t, Marker, 4);
  }

  lemma {:induction false} MarkerIsTrimmed()
    ensures Trim(Marker) == Marker && Contains(Marker, Marker)
  {
    TrimFixesTrimmed(Marker);
    assert OccursAt(Marker, Marker, 0);
  }
}
