/**
 The request handlers of backend/server.js. Each handler is a function of
 the request body and of the outcomes of the calls it makes to the AI
 service; it answers the HTTP response and the calls it issued, in order.
 */
module Server {
  import opened Js
  import opened Prompt
  import UriComponent

  datatype Response<B> = Response(status: nat, body: B)

  /** A call to the AI service, with the prompt it carries. */
  datatype AiCall =
    | TextCall(model: string, prompt: Template)
    | VisionCall(model: string, prompt: Template, imageUrl: string)
    | ImageCall(model: string, prompt: Template, size: string)

  /** A handler's response and the AI calls it made. */
  datatype Handled<B> = Handled(response: Response<B>, calls: seq<AiCall>)

  const TextModel := "gpt-5.1"
  const VisionModel := "gpt-4o-mini"
  const ImageModel := "gpt-image-1"
  const ImageSize := "1024x1024"

  // ---------------------------------------------------------------------
  // Replies of the AI service, reduced to the fields the handlers read
  // ---------------------------------------------------------------------

  datatype ContentPart = ContentPart(text: Option<string>)
  datatype OutputItem = OutputItem(content: Option<seq<ContentPart>>)
  /** A text reply: `output` is `None` when absent or not an array. */
  datatype TextReply = TextReply(output: Option<seq<OutputItem>>, outputText: Option<string>)
  datatype ImageDatum = ImageDatum(b64Json: Option<string>)
  /** An image reply: `data` is `None` when absent. */
  datatype ImageReply = ImageReply(data: Option<seq<ImageDatum>>)

  /** `output[0].content[0].text`, or `None` when any step is missing. */
  function FirstOutputText(r: TextReply): Option<string>
  {
    if r.output.Some? && |r.output.value| > 0
       && r.output.value[0].content.Some? && |r.output.value[0].content.value| > 0
    then r.output.value[0].content.value[0].text
    else None
  }

  /** `data[0].b64_json`, or `None` when any step is missing. */
  function FirstImagePayload(r: ImageReply): Option<string>
  {
    if r.data.Some? && |r.data.value| > 0 then r.data.value[0].b64Json else None
  }

  // ---------------------------------------------------------------------
  // POST /api/generate-outfit
  // ---------------------------------------------------------------------

  datatype OutfitRequest = OutfitRequest(
    wardrobe: Option<seq<string>>,
    preferences: Option<seq<string>>,
    styleProfile: Option<string>,
    weather: Option<Weather>)

  datatype OutfitBody = OutfitBody(description: string, imageUrl: Option<string>)

  const AddClothesFirst := "Dodaj najpierw ubrania, by wygenerować stylizację."
  const UnreadableReply := "Nie udało się odczytać odpowiedzi AI."
  const AiFailure := "Wystąpił błąd po stronie AI. Spróbuj ponownie za chwilę."
  const PngDataUrlPrefix := "data:image/png;base64,"

  /** `!wardrobe || wardrobe.length === 0` fails */
  predicate HasItems(list: Option<seq<string>>) {
    list.Some? && |list.value| > 0
  }

  /** The description taken from a text reply: the nested text when there is
      one, else the fixed fallback; never empty. */
  function Description(r: TextReply): (d: string)
    ensures d != ""
    ensures IsTruthy(FirstOutputText(r)) ==> d == FirstOutputText(r).value
    ensures !IsTruthy(FirstOutputText(r)) ==> d == UnreadableReply
  {
    OrElse(FirstOutputText(r), UnreadableReply)
  }

  /** The picture of the best-effort image step: a PNG data URL (section 3
      of RFC 2397) when the image call returned a payload, else nothing. */
  function ImageUrl(reply: Outcome<ImageReply>): (url: Option<string>)
    ensures url.Some? <==> reply.Ok? && IsTruthy(FirstImagePayload(reply.value))
    ensures url.Some? ==>
      && |url.value| > |PngDataUrlPrefix|
      && url.value[..|PngDataUrlPrefix|] == PngDataUrlPrefix
      && url.value[|PngDataUrlPrefix|..] == FirstImagePayload(reply.value).value
  {
    if reply.Ok? && IsTruthy(FirstImagePayload(reply.value))
    then Some(PngDataUrlPrefix + FirstImagePayload(reply.value).value)
    else None
  }

  /** The prompt of the text call for a request with a wardrobe. */
  function OutfitPrompt(req: OutfitRequest): (t: Template)
    requires HasItems(req.wardrobe)
    ensures Slots(t) == [WardrobeText(req.wardrobe.value), PreferencesText(req.preferences),
                         StyleProfileText(req.styleProfile), WeatherText(req.weather), WeatherText(req.weather)]
  {
    OutfitTemplate(WardrobeText(req.wardrobe.value), PreferencesText(req.preferences),
                   StyleProfileText(req.styleProfile), WeatherText(req.weather))
  }

  /** The whole exchange of one outfit request, as a function of the request
      and of what the text and image calls return. */
  function Outfit(req: OutfitRequest, textReply: Outcome<TextReply>, imageReply: Outcome<ImageReply>): (h: Handled<OutfitBody>)
    ensures h.response.body.description != ""
    ensures h.response.status == 200 || h.response.status == 500
    ensures h.calls == [] <==> !HasItems(req.wardrobe)
    ensures h.response.status == 500 ==> h.response.body.imageUrl == None
  {
    if !HasItems(req.wardrobe) then
      Handled(Response(200, OutfitBody(AddClothesFirst, None)), [])
    else
      var textCall := TextCall(TextModel, OutfitPrompt(req));
      match textReply
      case Err =>
        Handled(Response(500, OutfitBody(AiFailure, None)), [textCall])
      case Ok(r) =>
        var description := Description(r);
        var shortText := Prefix(description, DescriptionLimit);
        var imageCall := ImageCall(ImageModel, ImageTemplate(WeatherText(req.weather), shortText), ImageSize);
        Handled(Response(200, OutfitBody(description, ImageUrl(imageReply))), [textCall, imageCall])
  }

  /** The weather clause as the handler builds it: a list of parts pushed
      one by one, joined only when not empty. */
  method ComposeWeatherText(weather: Option<Weather>) returns (weatherText: string)
    ensures weatherText == WeatherText(weather)
  {
    weatherText := NoWeather;
    if weather.Some? {
      var w := weather.value;
      var parts: seq<string> := [];
      if w.temperatureC.Some? && w.temperatureC.value.Num? {
        parts := parts + [TemperaturePart(w.temperatureC.value.value)];
      }
      if w.condition.Some? && w.condition.value != "" {
        parts := parts + [ConditionPart(w.condition.value)];
      }
      if |parts| > 0 {
        weatherText := Join(parts, ", ");
      }
    }
  }

  /** The description as the handler extracts it: the fallback, overwritten
      by the nested text when every step of the path is present. */
  method ExtractText(aiResponse: TextReply) returns (text: string)
    ensures text == Description(aiResponse)
  {
    text := UnreadableReply;
    if aiResponse.output.Some? && |aiResponse.output.value| > 0
       && aiResponse.output.value[0].content.Some? && |aiResponse.output.value[0].content.value| > 0
       && aiResponse.output.value[0].content.value[0].text.Some?
       && aiResponse.output.value[0].content.value[0].text.value != ""
    {
      text := aiResponse.output.value[0].content.value[0].text.value;
    }
  }

  /** The image step: `imageUrl` starts as null and is set only when the
      call returns a payload; a failed call leaves it null. */
  method ExtractImageUrl(imageReply: Outcome<ImageReply>) returns (imageUrl: Option<string>)
    ensures imageUrl == ImageUrl(imageReply)
  {
    imageUrl := None;
    if imageReply.Ok? {
      var imageResponse := imageReply.value;
      if imageResponse.data.Some? && |imageResponse.data.value| > 0
         && imageResponse.data.value[0].b64Json.Some? && imageResponse.data.value[0].b64Json.value != ""
      {
        imageUrl := Some("data:image/png;base64," + imageResponse.data.value[0].b64Json.value);
      }
    }
  }

  /** The texts the handler fills into the outfit prompt, and the prompt. */
  method ComposeOutfitPrompt(req: OutfitRequest) returns (prompt: Template, weatherText: string)
    requires HasItems(req.wardrobe)
    ensures prompt == OutfitPrompt(req)
    ensures weatherText == WeatherText(req.weather)
  {
    var wardrobeText := Join(req.wardrobe.value, "; ");
    var preferencesText :=
      if req.preferences.Some? && |req.preferences.value| > 0
      then Join(req.preferences.value, ", ")
      else NoPreferences;
    var styleProfileText :=
      if req.styleProfile.Some? && |req.styleProfile.value| > 0
      then req.styleProfile.value
      else NoStyleProfile;
    weatherText := ComposeWeatherText(req.weather);
    prompt := OutfitTemplate(wardrobeText, preferencesText, styleProfileText, weatherText);
  }

  /** The handler as the server runs it, step by step. */
  method GenerateOutfit(req: OutfitRequest, textReply: Outcome<TextReply>, imageReply: Outcome<ImageReply>)
    returns (response: Response<OutfitBody>, calls: seq<AiCall>)
    ensures Handled(response, calls) == Outfit(req, textReply, imageReply)
  {
    if req.wardrobe.None? || |req.wardrobe.value| == 0 {
      return Response(200, OutfitBody(AddClothesFirst, None)), [];
    }

    var prompt, weatherText := ComposeOutfitPrompt(req);
    calls := [TextCall(TextModel, prompt)];
    if textReply.Err? {
      return Response(500, OutfitBody(AiFailure, None)), calls;
    }

    var text := ExtractText(textReply.value);
    var shortText := if |text| <= 400 then text else text[..400];
    assert shortText == Prefix(text, DescriptionLimit);
    calls := calls + [ImageCall(ImageModel, ImageTemplate(weatherText, shortText), ImageSize)];
    var imageUrl := ExtractImageUrl(imageReply);
    response := Response(200, OutfitBody(text, imageUrl));
  }

  /** No wardrobe: a success with the instructional message, no picture and
      no AI call. */
  lemma EmptyWardrobeShortCircuits(req: OutfitRequest, textReply: Outcome<TextReply>, imageReply: Outcome<ImageReply>)
    requires !HasItems(req.wardrobe)
    ensures Outfit(req, textReply, imageReply) == Handled(Response(200, OutfitBody(AddClothesFirst, None)), [])
  {
  }

  /** A failed text call: status 500, the fixed message, no picture, and no
      image call. */
  lemma TextFailureIsServerError(req: OutfitRequest, imageReply: Outcome<ImageReply>)
    requires HasItems(req.wardrobe)
    ensures Outfit(req, Err, imageReply).response == Response(500, OutfitBody(AiFailure, None))
    ensures Outfit(req, Err, imageReply).calls == [TextCall(TextModel, OutfitPrompt(req))]
  {
  }

  /** The image step is best effort: whatever the image call does, the status
      and the description stay the same, and only the picture differs. */
  lemma ImageStepIsBestEffort(req: OutfitRequest, textReply: Outcome<TextReply>, a: Outcome<ImageReply>, b: Outcome<ImageReply>)
    ensures Outfit(req, textReply, a).response.status == Outfit(req, textReply, b).response.status
    ensures Outfit(req, textReply, a).response.body.description == Outfit(req, textReply, b).response.body.description
    ensures Outfit(req, textReply, a).calls == Outfit(req, textReply, b).calls
    ensures HasItems(req.wardrobe) && textReply.Ok? ==>
      Outfit(req, textReply, a).response == Response(200, OutfitBody(Description(textReply.value), ImageUrl(a)))
  {
  }

  /** What the two prompts of a successful request carry: the text prompt the
      four texts in order and the weather clause a second time; the image
      prompt the same weather clause and at most 400 leading characters of
      the description. */
  lemma PromptsShareWeather(req: OutfitRequest, textReply: Outcome<TextReply>, imageReply: Outcome<ImageReply>)
    requires HasItems(req.wardrobe) && textReply.Ok?
    ensures var h := Outfit(req, textReply, imageReply);
      && |h.calls| == 2
      && h.calls[0].TextCall? && h.calls[1].ImageCall?
      && Slots(h.calls[0].prompt) ==
           [ WardrobeText(req.wardrobe.value), PreferencesText(req.preferences),
             StyleProfileText(req.styleProfile), WeatherText(req.weather), WeatherText(req.weather) ]
      && |Slots(h.calls[1].prompt)| == 2
      && Slots(h.calls[1].prompt)[0] == WeatherText(req.weather)
      && Slots(h.calls[1].prompt)[1] <= h.response.body.description
      && |Slots(h.calls[1].prompt)[1]| == if |h.response.body.description| < DescriptionLimit
                                         then |h.response.body.description| else DescriptionLimit
  {
  }

  // ---------------------------------------------------------------------
  // POST /api/wardrobe-gaps
  // ---------------------------------------------------------------------

  datatype GapsBody = GapsBody(gaps: string)

  const NoClothesForGaps := "Brak ubrań – nie można przeprowadzić analizy braków."
  const GapsUnreadable := "Nie udało się przeanalizować braków."
  const GapsFailure := "Wystąpił błąd podczas analizy braków."

  function WardrobeGaps(wardrobe: Option<seq<string>>, reply: Outcome<TextReply>): (h: Handled<GapsBody>)
    ensures h.response.status == 400 <==> !HasItems(wardrobe)
    ensures h.calls == [] <==> !HasItems(wardrobe)
    ensures HasItems(wardrobe) ==> h.calls == [TextCall(TextModel, GapsTemplate(WardrobeText(wardrobe.value)))]
    ensures h.response.body.gaps != ""
  {
    if !HasItems(wardrobe) then
      Handled(Response(400, GapsBody(NoClothesForGaps)), [])
    else
      var call := TextCall(TextModel, GapsTemplate(WardrobeText(wardrobe.value)));
      match reply
      case Err => Handled(Response(500, GapsBody(GapsFailure)), [call])
      case Ok(r) => Handled(Response(200, GapsBody(OrElse(FirstOutputText(r), GapsUnreadable))), [call])
  }

  /** The outfit and gap endpoints guard the same case: a request without
      wardrobe items is answered without calling the AI service, with a
      success by the one and a 400 by the other. */
  lemma EmptyWardrobeGuardsAgree(req: OutfitRequest, textReply: Outcome<TextReply>, imageReply: Outcome<ImageReply>, gapsReply: Outcome<TextReply>)
    ensures Outfit(req, textReply, imageReply).calls == [] <==> WardrobeGaps(req.wardrobe, gapsReply).response.status == 400
    ensures WardrobeGaps(req.wardrobe, gapsReply).response.status == 400 ==>
      Outfit(req, textReply, imageReply).response.status == 200 && WardrobeGaps(req.wardrobe, gapsReply).calls == []
  {
  }

  // ---------------------------------------------------------------------
  // POST /api/analyze-image and /api/analyze-style-images
  // ---------------------------------------------------------------------

  /** An uploaded file: its MIME type and the base64 text of its bytes
      (`buffer.toString("base64")`, not modelled). */
  datatype Upload = Upload(mimetype: string, base64: string)

  /** The response of the two analysis endpoints: the analysis text, or the
      error of a request without a file. */
  datatype AnalysisBody = Analysis(text: string) | Rejected(error: string)

  const NoImage := "Brak zdjęcia do analizy"
  const GarmentUnreadable := "Nie udało się odczytać opisu ubrania ze zdjęcia."
  const GarmentFailure := "Nie udało się przeanalizować zdjęcia. Sprawdź limity API lub spróbuj ponownie później."
  const NoInspirations := "Brak zdjęć inspiracji"
  const StyleUnreadable := "Nie udało się odczytać stylu z inspiracji."
  const StyleFailure := "Nie udało się przeanalizować inspiracji. Spróbuj ponownie później."

  /** The data URL of an upload (section 3 of RFC 2397): the `data:`
      scheme, the MIME type, the base64 marker, then the payload. */
  function DataUrl(file: Upload): (url: string)
    ensures |url| >= 5 && url[..5] == "data:"
    ensures |url| >= |file.base64| && url[|url| - |file.base64|..] == file.base64
  {
    "data:" + file.mimetype + ";base64," + file.base64
  }

  function AnalyzeImage(file: Option<Upload>, reply: Outcome<TextReply>): (h: Handled<AnalysisBody>)
    ensures h.response.status == 400 <==> file.None?
    ensures file.None? ==> h.calls == [] && h.response.body == Rejected(NoImage)
    ensures file.Some? ==> h.calls == [VisionCall(VisionModel, [Fixed(GarmentInstruction)], DataUrl(file.value))]
    ensures file.Some? ==> h.response.body.Analysis? && h.response.body.text != ""
  {
    if file.None? then Handled(Response(400, Rejected(NoImage)), [])
    else
      var call := VisionCall(VisionModel, [Fixed(GarmentInstruction)], DataUrl(file.value));
      match reply
      case Err => Handled(Response(500, Analysis(GarmentFailure)), [call])
      case Ok(r) => Handled(Response(200, Analysis(OrElse(r.outputText, GarmentUnreadable))), [call])
  }

  /** Only the first of the uploaded inspiration pictures is analysed. */
  function AnalyzeStyleImages(files: Option<seq<Upload>>, reply: Outcome<TextReply>): (h: Handled<AnalysisBody>)
    ensures h.response.status == 400 <==> files.None? || files.value == []
    ensures h.response.status == 400 ==> h.calls == [] && h.response.body == Rejected(NoInspirations)
    ensures h.response.status != 400 ==>
      h.calls == [VisionCall(VisionModel, [Fixed(StyleInstruction)], DataUrl(files.value[0]))]
      && h.response.body.Analysis? && h.response.body.text != ""
  {
    if files.None? || |files.value| == 0 then Handled(Response(400, Rejected(NoInspirations)), [])
    else
      var call := VisionCall(VisionModel, [Fixed(StyleInstruction)], DataUrl(files.value[0]));
      match reply
      case Err => Handled(Response(500, Analysis(StyleFailure)), [call])
      case Ok(r) => Handled(Response(200, Analysis(OrElse(r.outputText, StyleUnreadable))), [call])
  }

  // ---------------------------------------------------------------------
  // POST /api/shop-suggestions
  // ---------------------------------------------------------------------

  /** `gaps` is `None` when absent or not an array. `country` is read but not
      used. */
  datatype ShopRequest = ShopRequest(
    gaps: Option<seq<string>>,
    budgetPerItem: Option<Number>,
    currency: Option<string>,
    country: Option<string>,
    preferredStore: Option<string>)

  datatype Suggestion = Suggestion(
    gap: string,
    store: string,
    approxPrice: Option<Number>,
    currency: string,
    searchUrl: string,
    note: string)

  datatype ShopBody = ShopError(error: string) | Suggestions(suggestions: seq<Suggestion>)

  const NoGaps := "Brak listy braków w szafie (gaps)."
  const DefaultStore := "Reserved"
  const DefaultCurrency := "PLN"
  const SearchBase := "https://www.reserved.com/pl/pl/search?searchPhrase="
  const SuggestionNote := "To jest link do wyszukiwania w Reserved na podstawie tego, czego szukasz. Możesz go doprecyzować bezpośrednio na stronie sklepu."

  /** `budgetPerItem || null` */
  function ApproxPrice(budget: Option<Number>): (p: Option<Number>)
    ensures p.Some? <==> budget.Some? && NumberIsTruthy(budget.value)
    ensures p.Some? ==> p == budget
  {
    if budget.Some? && NumberIsTruthy(budget.value) then budget else None
  }

  /** The store search link for a gap: the search base, then
      `encodeURIComponent(gap)`, whose characters are unreserved, `%` or
      upper-case hex digits and which decodes back to the gap. */
  function SearchUrl(gap: string): (url: string)
    ensures |url| >= |SearchBase| && url[..|SearchBase|] == SearchBase
    ensures url[|SearchBase|..] == UriComponent.Encode(gap)
    ensures forall i :: |SearchBase| <= i < |url| ==>
      UriComponent.IsUnescaped(url[i]) || url[i] == '%' || UriComponent.IsUpperHexDigit(url[i])
    ensures UriComponent.Decode(url[|SearchBase|..]) == Some(gap)
  {
    UriComponent.DecodeEncode(gap);
    var url := SearchBase + UriComponent.Encode(gap);
    assert url[|SearchBase|..] == UriComponent.Encode(gap);
    url
  }

  /** The suggestion for one gap: the gap itself, the chosen or default store
      and currency, the budget as price when it is truthy, and the search
      link. */
  function SuggestionFor(req: ShopRequest, gap: string): (s: Suggestion)
    ensures s.gap == gap
    ensures s.store != "" && s.currency != ""
    ensures IsTruthy(req.preferredStore) ==> s.store == req.preferredStore.value
    ensures IsTruthy(req.currency) ==> s.currency == req.currency.value
    ensures s.approxPrice.Some? <==> req.budgetPerItem.Some? && NumberIsTruthy(req.budgetPerItem.value)
    ensures s.approxPrice.Some? ==> s.approxPrice == req.budgetPerItem
    ensures s.searchUrl == SearchUrl(gap)
    ensures s.note == SuggestionNote
  {
    Suggestion(gap, OrElse(req.preferredStore, DefaultStore), ApproxPrice(req.budgetPerItem),
               OrElse(req.currency, DefaultCurrency), SearchUrl(gap), SuggestionNote)
  }

  function ShopSuggestions(req: ShopRequest): (r: Response<ShopBody>)
    ensures r.status == 400 <==> !HasItems(req.gaps)
    ensures r.status == 400 ==> r.body == ShopError(NoGaps)
    ensures r.status != 400 ==>
      && r.status == 200 && r.body.Suggestions?
      && |r.body.suggestions| == |req.gaps.value|
      && forall i :: 0 <= i < |req.gaps.value| ==> r.body.suggestions[i] == SuggestionFor(req, req.gaps.value[i])
  {
    if !HasItems(req.gaps) then Response(400, ShopError(NoGaps))
    else
      var gaps := req.gaps.value;
      Response(200, Suggestions(seq(|gaps|, i requires 0 <= i < |gaps| => SuggestionFor(req, gaps[i]))))
  }

  /** Each suggestion keeps its gap, uses the request's store, currency and
      budget when they are truthy and the defaults otherwise, and links to
      the encoded search for the gap, whose query decodes back to it. */
  lemma SuggestionFields(req: ShopRequest, gap: string)
    ensures SuggestionFor(req, gap).gap == gap
    ensures IsTruthy(req.preferredStore) ==> SuggestionFor(req, gap).store == req.preferredStore.value
    ensures !IsTruthy(req.preferredStore) ==> SuggestionFor(req, gap).store == DefaultStore
    ensures IsTruthy(req.currency) ==> SuggestionFor(req, gap).currency == req.currency.value
    ensures !IsTruthy(req.currency) ==> SuggestionFor(req, gap).currency == DefaultCurrency
    ensures req.budgetPerItem.Some? && NumberIsTruthy(req.budgetPerItem.value) ==>
      SuggestionFor(req, gap).approxPrice == req.budgetPerItem
    ensures req.budgetPerItem.Some? && req.budgetPerItem.value == Num(0) ==> SuggestionFor(req, gap).approxPrice == None
    ensures var url := SuggestionFor(req, gap).searchUrl;
      && url == SearchBase + UriComponent.Encode(gap)
      && UriComponent.Decode(url[|SearchBase|..]) == Some(gap)
  {
  }
}
