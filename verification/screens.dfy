/**
 The screen switch of script.js: `showScreen` shows the page sections
 configured for one screen, hides the other configured sections, and marks
 the navigation button of that screen as active.
 */
module Screens {
  import opened Js

  const WardrobeScreen := "wardrobe"
  const InspirationsScreen := "inspirations"
  const StylingScreen := "styling"

  /** The names of the configured screens. */
  const ScreenNames: seq<string> := [WardrobeScreen, InspirationsScreen, StylingScreen]

  /** `screenConfig[screen]`: the section ids of a screen, `None` for a name
      that is not configured. */
  function SectionsOf(screen: Option<string>): (r: Option<seq<string>>)
    ensures r.Some? <==> screen.Some? && screen.value in ScreenNames
    ensures r.Some? ==> r.value != [] && forall id :: id in r.value ==> id in AllSections
  {
    if screen == Some(WardrobeScreen) then Some(["wardrobe-section", "wardrobe-images-section", "preferences-section"])
    else if screen == Some(InspirationsScreen) then Some(["style-inspo-section"])
    else if screen == Some(StylingScreen) then Some(["ai-section", "shop-section"])
    else None
  }

  /** Every configured section id, screen after screen. */
  const AllSections: seq<string> :=
    ["wardrobe-section", "wardrobe-images-section", "preferences-section",
     "style-inspo-section", "ai-section", "shop-section"]

  /** The sections are split among the screens: each configured section
      belongs to exactly one screen, and the screens list nothing else. */
  lemma ScreensPartitionSections()
    ensures forall s :: s in ScreenNames <==> SectionsOf(Some(s)).Some?
    ensures forall s, id :: s in ScreenNames && id in SectionsOf(Some(s)).value ==> id in AllSections
    ensures forall id :: id in AllSections ==>
      exists s :: s in ScreenNames && id in SectionsOf(Some(s)).value
    ensures forall s, t, id ::
      s in ScreenNames && t in ScreenNames && id in SectionsOf(Some(s)).value && id in SectionsOf(Some(t)).value
      ==> s == t
  {
    assert SectionsOf(Some(WardrobeScreen)).value == AllSections[..3];
    assert SectionsOf(Some(InspirationsScreen)).value == AllSections[3..4];
    assert SectionsOf(Some(StylingScreen)).value == AllSections[4..];
  }

  /** `showScreen` throws before it changes anything when the screen is not
      configured and some configured section exists in the page: at the
      first such section it calls `includes` on `undefined`. */
  predicate Throws(shown: map<string, bool>, screen: Option<string>) {
    SectionsOf(screen).None? && exists id :: id in AllSections && id in shown
  }

  /** The visibility of the page's elements after showing `screen`: each
      configured section present in the page is shown exactly when the
      screen lists it; every other element keeps its visibility. */
  function Displayed(shown: map<string, bool>, screen: Option<string>): (r: map<string, bool>)
    requires !Throws(shown, screen)
    ensures r.Keys == shown.Keys
    ensures forall id :: id in r && id !in AllSections ==> r[id] == shown[id]
    ensures SectionsOf(screen).Some? ==>
      forall id :: id in r && id in AllSections ==> (r[id] <==> id in SectionsOf(screen).value)
    ensures SectionsOf(screen).None? ==> r == shown
  {
    map id | id in shown :: if id in AllSections && SectionsOf(screen).Some? then id in SectionsOf(screen).value else shown[id]
  }

  /** Where the screen switch leaves the page does not depend on the screen
      shown before: switching to `s` after `t` is the same as switching to
      `s` directly, and showing a screen twice changes nothing the second
      time. */
  lemma DisplayedForgetsHistory(shown: map<string, bool>, t: string, s: string)
    requires SectionsOf(Some(t)).Some? && SectionsOf(Some(s)).Some?
    ensures Displayed(Displayed(shown, Some(t)), Some(s)) == Displayed(shown, Some(s))
    ensures Displayed(Displayed(shown, Some(s)), Some(s)) == Displayed(shown, Some(s))
  {
  }

  /** On a configured screen exactly the present sections of that screen are
      visible among the configured ones: the sections of every other screen
      are hidden. */
  lemma OneScreenVisible(shown: map<string, bool>, s: string, t: string, id: string)
    requires SectionsOf(Some(s)).Some? && SectionsOf(Some(t)).Some? && s != t
    requires id in shown && id in SectionsOf(Some(t)).value
    ensures !Displayed(shown, Some(s))[id]
  {
    ScreensPartitionSections();
  }

  /** The page: the visibility of the elements it holds, by id, and its
      navigation buttons with their `data-screen` values and active marks. */
  class Page {
    var shown: map<string, bool>
    const navScreens: seq<Option<string>>
    var navActive: seq<bool>

    constructor (shown: map<string, bool>, navScreens: seq<Option<string>>)
      ensures this.shown == shown && this.navScreens == navScreens
      ensures |navActive| == |navScreens| && forall i :: 0 <= i < |navActive| ==> !navActive[i]
    {
      this.shown := shown;
      this.navScreens := navScreens;
      navActive := seq(|navScreens|, i => false);
    }

    /** `showScreen(screen)`: `thrown` tells whether it stopped with an
        exception, in which case nothing changed. */
    method ShowScreen(screen: Option<string>) returns (thrown: bool)
      modifies this
      ensures thrown == Throws(old(shown), screen)
      ensures thrown ==> shown == old(shown) && navActive == old(navActive)
      ensures !thrown ==> shown == Displayed(old(shown), screen)
      ensures !thrown ==>
        && |navActive| == |navScreens|
        && forall i :: 0 <= i < |navScreens| ==> (navActive[i] <==> navScreens[i] == screen)
    {
      var sections := SectionsOf(screen);
      var i := 0;
      while i < |AllSections|
        invariant 0 <= i <= |AllSections|
        invariant shown.Keys == old(shown).Keys
        invariant navActive == old(navActive)
        invariant sections.None? ==> shown == old(shown) && forall j :: 0 <= j < i ==> AllSections[j] !in shown
        invariant sections.Some? ==> forall id :: id in shown ==>
          shown[id] == if id in AllSections[..i] then id in sections.value else old(shown)[id]
      {
        var id := AllSections[i];
        if id in shown {
          if sections.None? {
            return true;
          }
          shown := shown[id := id in sections.value];
        }
        i := i + 1;
      }
      assert AllSections[..i] == AllSections;
      thrown := false;
      navActive := seq(|navScreens|, j requires 0 <= j < |navScreens| => navScreens[j] == screen);
    }
  }
}
