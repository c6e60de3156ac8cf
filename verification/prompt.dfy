/**
 The prompt composer of the outfit generator (backend/server.js): the texts
 put into the prompt slots — wardrobe, preferences, style profile and the
 weather clause — and the two prompt templates.

 A template is modelled as a sequence of fixed passages, whose wording is
 not part of the model, and slots filled with computed text.
 */
module Prompt {
  import opened Js

  /** The fixed passages of the server's prompt templates. */
  datatype Passage =
    | OutfitIntro         // role, task and the wardrobe heading
    | PreferencesHeading
    | StyleHeading
    | WeatherHeading
    | RulesAndFormat      // rules and response template up to the weather rationale
    | GapsAndTip          // the rest of the response template
    | ImageIntro          // full-figure outfit picture, weather heading
    | ImageOutfitHeading
    | ImageRules          // weather-appropriate, neutral figure, simple background
    | GarmentInstruction  // describe the one garment in the photo
    | StyleInstruction    // describe the style of the inspiration photo
    | GapsIntro           // wardrobe-gap analysis, wardrobe heading
    | GapsInstructions

  datatype Segment = Fixed(passage: Passage) | Slot(text: string)

  type Template = seq<Segment>

  /** The texts filled into the slots of a template, in order. */
  function Slots(t: Template): seq<string>
  {
    if t == [] then []
    else if t[0].Slot? then [t[0].text] + Slots(t[1..])
    else Slots(t[1..])
  }

  const WardrobeSeparator := "; "
  const PreferencesSeparator := ", "
  const WeatherSeparator := ", "
  const NoPreferences := "brak szczególnych preferencji (traktuj jako styl codzienny)"
  const NoStyleProfile := "brak analizy zdjęć inspiracji (przyjmij neutralny styl)"
  /** The weather placeholder. It is written in two pieces so that the
      verifier can read its first character, which tells it apart from
      every weather clause. */
  const NoWeather := "brak informacji o pogodzie " + "(przyjmij neutralne warunki)."
  /** How many characters of the generated description the image prompt keeps. */
  const DescriptionLimit := 400

  /** The `weather` object of a request. `temperatureC` is `None` when it is
      absent or not of type number; `condition` is `None` when absent. */
  datatype Weather = Weather(temperatureC: Option<Number>, condition: Option<string>)

  /** `wardrobe.join("; ")` */
  function WardrobeText(wardrobe: seq<string>): (r: string)
    ensures wardrobe == [] ==> r == ""
    ensures |wardrobe| == 1 ==> r == wardrobe[0]
  {
    Join(wardrobe, WardrobeSeparator)
  }

  /** The items of the wardrobe text, in order: cut at the semicolons, it
      gives back the first item and every other item behind one blank, as
      long as no item holds a semicolon. */
  lemma WardrobeTextItems(wardrobe: seq<string>)
    requires |wardrobe| >= 1
    requires forall k :: 0 <= k < |wardrobe| ==> ';' !in wardrobe[k]
    ensures var pieces := Split(WardrobeText(wardrobe), ';');
      && |pieces| == |wardrobe|
      && pieces[0] == wardrobe[0]
      && forall k :: 1 <= k < |wardrobe| ==> pieces[k] == " " + wardrobe[k]
  {
    assert WardrobeSeparator == [';'] + " ";
    SplitJoin(wardrobe, ';', " ");
  }

  /** `preferences && preferences.length > 0 ? preferences.join(", ") : placeholder` */
  function PreferencesText(preferences: Option<seq<string>>): (r: string)
    ensures preferences.None? || preferences.value == [] ==> r == NoPreferences
    ensures preferences.Some? && preferences.value != [] ==> r == Join(preferences.value, PreferencesSeparator)
  {
    if preferences.Some? && |preferences.value| > 0 then Join(preferences.value, PreferencesSeparator)
    else NoPreferences
  }

  /** `styleProfile && styleProfile.length > 0 ? styleProfile : placeholder` */
  function StyleProfileText(styleProfile: Option<string>): (r: string)
    ensures r != ""
    ensures IsTruthy(styleProfile) ==> r == styleProfile.value
    ensures !IsTruthy(styleProfile) ==> r == NoStyleProfile
  {
    OrElse(styleProfile, NoStyleProfile)
  }

  function TemperaturePart(degrees: int): string
  {
    "temperatura około " + DecimalText(degrees) + "°C"
  }

  function ConditionPart(condition: string): string
  {
    "warunki: " + condition
  }

  /** The weather carries a temperature part: a number that is not NaN. */
  predicate HasTemperature(weather: Option<Weather>) {
    weather.Some? && weather.value.temperatureC.Some? && IsNumeric(weather.value.temperatureC.value)
  }

  /** The weather carries a condition part: a truthy condition. */
  predicate HasCondition(weather: Option<Weather>) {
    weather.Some? && IsTruthy(weather.value.condition)
  }

  /** The parts of the weather clause: the temperature part, then the
      condition part, each only when present. */
  function WeatherParts(weather: Option<Weather>): (parts: seq<string>)
    ensures |parts| == (if HasTemperature(weather) then 1 else 0) + (if HasCondition(weather) then 1 else 0)
  {
    (if HasTemperature(weather) then [TemperaturePart(weather.value.temperatureC.value.value)] else [])
    + (if HasCondition(weather) then [ConditionPart(weather.value.condition.value)] else [])
  }

  /** The weather clause: its parts joined by `", "`, or the placeholder
      when there is none. */
  function WeatherText(weather: Option<Weather>): (r: string)
    ensures WeatherParts(weather) == [] ==> r == NoWeather
    ensures |WeatherParts(weather)| == 1 ==> r == WeatherParts(weather)[0]
  {
    var parts := WeatherParts(weather);
    if parts == [] then NoWeather else Join(parts, WeatherSeparator)
  }

  /** The four shapes of the weather clause, and the placeholder stands for
      "no weather information" and nothing else. */
  lemma WeatherTextCases(weather: Option<Weather>)
    ensures HasTemperature(weather) && HasCondition(weather) ==>
      WeatherText(weather) == TemperaturePart(weather.value.temperatureC.value.value) + ", " + ConditionPart(weather.value.condition.value)
    ensures HasTemperature(weather) && !HasCondition(weather) ==>
      WeatherText(weather) == TemperaturePart(weather.value.temperatureC.value.value)
    ensures !HasTemperature(weather) && HasCondition(weather) ==>
      WeatherText(weather) == ConditionPart(weather.value.condition.value)
    ensures WeatherText(weather) == NoWeather <==> !HasTemperature(weather) && !HasCondition(weather)
  {
    var parts := WeatherParts(weather);
    if parts != [] {
      assert NoWeather[0] == 'b';
      assert parts[0][0] == 't' || parts[0][0] == 'w';
      assert Join(parts, WeatherSeparator) == parts[0] + (if |parts| == 1 then "" else WeatherSeparator + parts[1]);
      assert WeatherText(weather)[0] == parts[0][0];
    }
  }

  /** `s.slice(0, n)` */
  function Prefix(s: string, n: nat): (r: string)
    ensures |r| <= n && r <= s
    ensures |s| <= n ==> r == s
    ensures |s| >= n ==> |r| == n
  {
    if |s| <= n then s else s[..n]
  }

  /** A template that alternates fixed passages and slots, starting and
      ending with a passage. */
  function Interleave(passages: seq<Passage>, slots: seq<string>): Template
    requires |passages| == |slots| + 1
  {
    if slots == [] then [Fixed(passages[0])]
    else [Fixed(passages[0]), Slot(slots[0])] + Interleave(passages[1..], slots[1..])
  }

  lemma {:induction false} InterleaveSlots(passages: seq<Passage>, slots: seq<string>)
    requires |passages| == |slots| + 1
    ensures Slots(Interleave(passages, slots)) == slots
  {
    if slots != [] {
      var rest := Interleave(passages[1..], slots[1..]);
      var t := [Fixed(passages[0]), Slot(slots[0])] + rest;
      assert t[1..] == [Slot(slots[0])] + rest;
      assert t[1..][1..] == rest;
      InterleaveSlots(passages[1..], slots[1..]);
      assert [slots[0]] + slots[1..] == slots;
    }
  }

  /** The outfit prompt: wardrobe, preferences, style profile and weather
      clause, and the weather clause once more in the weather rationale. */
  function OutfitTemplate(wardrobeText: string, preferencesText: string, styleText: string, weatherText: string): (t: Template)
    ensures Slots(t) == [wardrobeText, preferencesText, styleText, weatherText, weatherText]
  {
    var passages := [OutfitIntro, PreferencesHeading, StyleHeading, WeatherHeading, RulesAndFormat, GapsAndTip];
    var slots := [wardrobeText, preferencesText, styleText, weatherText, weatherText];
    InterleaveSlots(passages, slots);
    Interleave(passages, slots)
  }

  /** The image prompt: the weather clause, then the shortened description. */
  function ImageTemplate(weatherText: string, shortText: string): (t: Template)
    ensures Slots(t) == [weatherText, shortText]
  {
    var passages := [ImageIntro, ImageOutfitHeading, ImageRules];
    InterleaveSlots(passages, [weatherText, shortText]);
    Interleave(passages, [weatherText, shortText])
  }

  /** The wardrobe-gap prompt: only the wardrobe text is filled in. */
  function GapsTemplate(wardrobeText: string): (t: Template)
    ensures Slots(t) == [wardrobeText]
  {
    InterleaveSlots([GapsIntro, GapsInstructions], [wardrobeText]);
    Interleave([GapsIntro, GapsInstructions], [wardrobeText])
  }
}
