# Szafa AI: a Dafny model of the outfit server and the wardrobe client

Szafa AI ("wardrobe AI") is a small web application. The user keeps a list of
garments in the browser. An Express server turns that list into AI prompts:
an outfit description, an outfit picture, a wardrobe-gap analysis, and
descriptions of garment and inspiration photos. It also builds shop-search
links for the missing items. This project models, in Dafny, the logic of the
two core files:

- `backend/server.js` (modules `Prompt` and `Server`):
  - the outfit endpoint's prompt composition and result assembly;
  - the empty-input guards of the gap-analysis and photo-analysis endpoints;
  - the shop-suggestion builder.
- `script.js` (modules `Store`, `Forms` and `Screens`):
  - the wardrobe store kept in `localStorage` (add, delete, load, save) and the batch photo analysis that feeds it;
  - the inspiration state;
  - the garment-description and gap-list normalisers;
  - the request builders;
  - the screen switch.

Modules:

- Supporting modules:
  - `Js`: the JavaScript built-ins the code relies on (truthiness, `join`, `split`, `trim`, integer rendering).
  - `Json`: `JSON.stringify` and `JSON.parse` for arrays of strings.
  - `UriComponent`: `encodeURIComponent` and an inverse decoder.
- `Prompt`: the texts filled into the prompt slots and the three prompt templates. A template is a sequence of fixed passages and filled slots.
- `Server`: each handler as a total function. The inputs are the request and the outcome (`Ok(reply)` or `Err`) of each AI call. The result is the HTTP response and the AI calls made, in order.
  - The outfit handler is also written step by step as methods.
  - Each method is proved equal to that function.
- `Store`: the classes `Storage`, `Wardrobe` and `Inspirations`, whose methods update their fields in place. Each method's ensures gives the new fields in terms of the old ones. Where the update is more than one expression, it does so through a specification function (`RemoveAt`, `Loaded`, `Analysed`, `ImageUrls`, `StringifyArray`).
- `Forms`: the clothes-form description builder and the shop-form gap parser, plus the outfit, gap and shop request bodies as the server receives them. It also relates each request to the server's answer.
- `Screens`: `showScreen` as a class `Page` holding the visibility of the page's sections and the navigation buttons' active marks.

## Model

| member | source | states |
|---|---|---|
| `Js.Split` | script.js:552-555 | `split(",")` gives at least one piece, and no piece contains the separator |
| `Js.SplitJoinIdentity` | script.js:552-555 | splitting items joined by one separator character gives the items back when none contains it |
| `Js.SplitJoin` | script.js:552-555 | splitting items joined by `c + t` on `c` gives one piece per item: the first item, then `t` in front of each later item |
| `Js.JoinSplit` | script.js:552-555 | joining the pieces of a split with the separator restores the text |
| `Js.Join` | backend/server.js:160 | joining no items gives the empty string and joining one item gives that item; `Js.SplitJoin` and `Js.JoinSplit` relate it to `split` |
| `Js.LeadingBlanks` | script.js:181-184 | the count of leading characters that are all white space, followed by a character that is not |
| `Js.TrailingBlanks` | script.js:181-184 | the count of trailing characters that are all white space, preceded by a character that is not |
| `Js.Trim` | script.js:181-184 | `trim` yields text that neither starts nor ends with white space, and leaves already-trimmed text unchanged |
| `Js.TrimIsSlice` | script.js:181-184 | the trimmed text is the slice of the input between a prefix of white space and a suffix of white space, so nothing inside is dropped and the order is kept |
| `Js.TrimKeeps` | script.js:181-184 | `trim` only keeps characters of its input, and yields the empty string exactly when the input is all white space |
| `Js.TrimAfterBlank` | script.js:552-555 | a piece that is one blank followed by a trimmed non-empty gap trims back to the gap |
| `Js.OrElse` | backend/server.js:379-380 | `x \|\| fallback` is `x` when it is a non-empty string and the fallback otherwise |
| `Js.DecimalText` | backend/server.js:180 | the rendering of an integer temperature is a minus sign exactly when it is negative, followed by decimal digits without a leading zero that read back as its magnitude |
| `Js.DigitsRoundTrip` | backend/server.js:180 | the decimal digits of a natural number read back as that number and have no leading zero |
| `UriComponent.Encode` | backend/server.js:386 | the encoding contains only unreserved characters, `%` and upper-case hexadecimal digits |
| `UriComponent.DecodeEncode` | backend/server.js:386-387 | decoding the encoding of any string gives it back, so the search query determines the gap |
| `UriComponent.EncodeUnescaped` | backend/server.js:386 | a gap made only of unreserved characters is copied into the query unchanged |
| `Json.StringifyArray` | script.js:117 | the text is bracketed by `[` and `]`, and it is `[]` exactly for the empty array |
| `Json.ParseStringArray` | script.js:152-153 | a text parses as an array only when it starts, after white space, with `[` |
| `Json.UnclosedRejected` | script.js:152-153 | an array of strings that is never closed, as in `["a"`, does not parse, so the stored list is left alone |
| `Json.TrailingCommaRejected` | script.js:152-153 | an array of strings with a comma after its last item, as in `["a",]`, does not parse |
| `Json.StringifyParse` | script.js:117 | what the save writes with `JSON.stringify`, `JSON.parse` reads back as the same array |
| `Prompt.WardrobeText` | backend/server.js:160 | an empty wardrobe gives the empty text and a single item gives that item |
| `Prompt.WardrobeTextItems` | backend/server.js:160 | cut at the semicolons, the wardrobe text gives back the items in order: the first one, then each later one behind one blank, when no item holds a semicolon |
| `Prompt.PreferencesText` | backend/server.js:161-164 | the preferences joined by `", "` when there are some, the fixed placeholder otherwise |
| `Prompt.StyleProfileText` | backend/server.js:165-168 | the style profile when it is non-empty, the fixed placeholder otherwise; never empty |
| `Prompt.WeatherParts` | backend/server.js:173-186 | one part for a numeric, non-NaN temperature and one for a truthy condition, no others |
| `Prompt.WeatherText` | backend/server.js:171-190 | no weather part gives the placeholder, and a single part is the whole clause |
| `Prompt.WeatherTextCases` | backend/server.js:171-190 | the clause is the temperature part, then `", "`, then the condition part, each only when present; it is the placeholder exactly when neither is present, absent weather included |
| `Prompt.Prefix` | backend/server.js:263 | `slice(0, 400)` keeps a prefix of at most 400 characters, all of a shorter text, and exactly 400 of a longer one |
| `Prompt.OutfitTemplate` | backend/server.js:194-236 | the outfit prompt carries the wardrobe, preferences, style-profile and weather texts in that order, then the weather text again |
| `Prompt.ImageTemplate` | backend/server.js:266-281 | the image prompt carries the weather text, then the shortened description |
| `Prompt.GapsTemplate` | backend/server.js:324-346 | the gap prompt carries the wardrobe text and nothing else |
| `Server.Description` | backend/server.js:246-258 | the description is `output[0].content[0].text` when that is a non-empty string, the fixed fallback otherwise; never empty |
| `Server.ImageUrl` | backend/server.js:261-295 | a picture exists exactly when the image call succeeded with a non-empty payload, and it is then the PNG data URL prefix (section 3 of RFC 2397) followed by the payload |
| `Server.OutfitPrompt` | backend/server.js:159-236 | the text call's prompt carries the wardrobe joined by `"; "`, the preferences text, the style-profile text and the weather clause in that order, then the weather clause again |
| `Server.Outfit` | backend/server.js:147-311 | the description is never empty; the status is 200 or 500; no AI call is made exactly when the wardrobe is absent or empty; a 500 carries no picture |
| `Server.ComposeOutfitPrompt` | backend/server.js:159-236 | the texts the handler fills in give exactly the outfit prompt of the request, and the weather clause it reuses for the picture |
| `Server.ComposeWeatherText` | backend/server.js:171-190 | building the clause by pushing parts and joining them yields exactly the weather clause |
| `Server.ExtractText` | backend/server.js:246-258 | the step-by-step extraction yields exactly the description defined by the nested-path rule |
| `Server.ExtractImageUrl` | backend/server.js:261-295 | the image step, which only ever sets `imageUrl`, yields exactly the picture rule |
| `Server.GenerateOutfit` | backend/server.js:147-311 | the handler as written gives the same response and the same AI calls as the outfit specification |
| `Server.EmptyWardrobeShortCircuits` | backend/server.js:152-157 | an absent or empty wardrobe gives 200, the fixed message, no picture and no AI call |
| `Server.TextFailureIsServerError` | backend/server.js:303-310 | a failed text call gives 500, the fixed error description and no picture; the only call made is the text call with the outfit prompt, so there is no image call |
| `Server.ImageStepIsBestEffort` | backend/server.js:261-302 | whatever the image call does, the status, the description and the calls are the same; only the picture differs |
| `Server.PromptsShareWeather` | backend/server.js:194-281 | a successful request makes a text call then an image call; the image prompt has the same weather text and a prefix of the description of length min(length, 400) |
| `Server.WardrobeGaps` | backend/server.js:313-367 | 400 exactly when the wardrobe is absent or empty, with no AI call; otherwise one call whose prompt carries the wardrobe joined by `"; "`; the answer text is never empty |
| `Server.EmptyWardrobeGuardsAgree` | backend/server.js:316-320 | the gap endpoint refuses exactly the requests for which the outfit endpoint calls no AI; then the outfit endpoint answers 200 |
| `Server.DataUrl` | backend/server.js:38 | the data URL of an upload starts with the `data:` scheme and ends with the base64 payload |
| `Server.AnalyzeImage` | backend/server.js:30-86 | 400 with the fixed error exactly when no file is uploaded; otherwise one vision call on the file's data URL and a non-empty description |
| `Server.AnalyzeStyleImages` | backend/server.js:88-143 | for a request that reaches the handler: 400 exactly when no file is uploaded; otherwise one vision call on the first file only and a non-empty profile |
| `Server.ApproxPrice` | backend/server.js:392 | the price is the budget when it is a non-zero number, and null when it is absent, zero or NaN |
| `Server.ShopSuggestions` | backend/server.js:369-401 | 400 exactly when `gaps` is absent, not an array or empty; otherwise exactly one suggestion per gap, in order |
| `Server.SearchUrl` | backend/server.js:386-387 | the search link is the search base followed by `encodeURIComponent(gap)`: the query holds only unreserved characters, `%` and upper-case hex digits, and it decodes back to the gap |
| `Server.SuggestionFor` | backend/server.js:385-397 | a suggestion keeps its gap; it uses the request's store and currency when they are truthy and never leaves them empty; it has a price exactly when the budget is a non-zero number, and that price is the budget itself; its link is `SearchUrl(gap)` and its note the fixed note |
| `Server.SuggestionFields` | backend/server.js:379-398 | each suggestion keeps its gap; the store is the request's when truthy and "Reserved" otherwise, the currency the request's when truthy and "PLN" otherwise; a truthy budget is the price and a zero budget gives none; the link is the search base followed by the encoded gap, which decodes back to the gap |
| `Store.RemoveAt` | script.js:137 | `splice(i, 1)` removes exactly the item at `i`: one item fewer, the others in their order, the same multiset less that item; no change past the end |
| `Store.Loaded` | script.js:148-160 | a missing or empty stored value, or one that is not an array, leaves the list as it was; an array replaces it |
| `Store.LoadAfterSave` | script.js:115-160 | after a save, a load gives back exactly the saved list, whatever the list held before |
| `Store.Analysed` | script.js:395-420 | a batch adds at most one item per file, each non-empty |
| `Store.AnalysedAppend` | script.js:395-420 | the items of two batches in a row are those of the first followed by those of the second, so the items keep the order of the files |
| `Store.AnalysedOne` | script.js:408-413 | a request whose response body parses as JSON is answered, a server error reply included, and adds its `description`, or the fallback text when it has none; a request whose `fetch` or JSON parse throws adds nothing |
| `Store.AnalysedStep` | script.js:395-420 | each request adds its item after the items of the requests before it |
| `Store.AnalysedCount` | script.js:395-420 | a batch adds exactly as many items as there are answered requests |
| `Store.AnalysedCounts` | script.js:395-420 | a batch in which every request is answered adds one item per file; one in which every request fails adds none |
| `Store.ImageUrls` | script.js:306-320 | no more data URLs than files; none exactly when no file is an image |
| `Store.ImageUrlsFrom` | script.js:306-320 | every data URL kept is that of an image file, and the data URL of every image file is kept |
| `Store.ImageUrlsAppend` | script.js:306-320 | the data URLs of two selections in a row are those of the first followed by those of the second, so they keep the order of the files |
| `Store.ImageUrlsOne` | script.js:307-308 | one file adds its data URL exactly when its type starts with `image/` |
| `Store.Storage.GetItem` | script.js:150 | `getItem` finds a value exactly when the key is stored, and then it is the stored value |
| `Store.Storage.SetItem` | script.js:117 | `setItem` stores the value under the key and changes no other key |
| `Store.Storage.RemoveItem` | script.js:303 | `removeItem` removes the key and changes no other key |
| `Store.Wardrobe.constructor` | script.js:113 | the wardrobe starts empty |
| `Store.Wardrobe.Save` | script.js:115-121 | the list is stored as JSON under `szafaAI_wardrobe`; no other key changes |
| `Store.Wardrobe.Add` | script.js:162-166 | the item is appended at the end, earlier items unchanged, and the new list is saved |
| `Store.Wardrobe.Delete` | script.js:135-139 | the list becomes the splice of the old one at the index, and is saved |
| `Store.Wardrobe.Load` | script.js:148-160 | the list becomes the loaded value of the stored text; the storage is not written |
| `Store.Wardrobe.AnalyzeBatch` | script.js:383-424 | the list grows by exactly the analysed items, and `successCount` equals their number, which never exceeds the number of files; the storage is written only if some request succeeded |
| `Store.Inspirations.constructor` | script.js:257-258 | no profile and no inspiration pictures at start |
| `Store.Inspirations.Select` | script.js:294-321 | the list is reset and refilled with the image files' data URLs; an empty selection removes the stored list, otherwise the stored list is the new one (or untouched if no file was an image) |
| `Store.Inspirations.RecordAnalysis` | script.js:344-357 | a successful analysis sets the profile (or its fallback text) and stores it; a failure changes nothing |
| `Store.Inspirations.Clear` | script.js:363-374 | the profile and pictures are cleared and both keys removed |
| `Forms.DescribeGarment` | script.js:172-196 | the form handler as written yields exactly the garment description |
| `Forms.DescriptionOf` | script.js:185-194 | over the trimmed fields, nothing is added exactly when the name is empty |
| `Forms.GarmentDescription` | script.js:180-194 | the form adds nothing exactly when the trimmed name is empty; otherwise the description is built from the trimmed fields |
| `Forms.DescriptionText` | script.js:180-194 | over the trimmed field values: nothing is added exactly when the name is empty; otherwise the text is the name followed by `" \| Kolor: c"`, `" \| Rodzaj: t"`, `" \| Sezon: s"` for the non-empty fields in that order, so it is the name alone exactly when all three are empty |
| `Forms.TrimAll` | script.js:554 | `map(trim)` keeps the number and order of the pieces and trims each |
| `Forms.NonEmpty` | script.js:555 | `filter` keeps only non-empty pieces, all from the input, and all of them when none is empty |
| `Forms.NonEmptyAppend` | script.js:555 | on two lists in a row, `filter` keeps what it keeps of the first followed by what it keeps of the second, so the kept pieces stay in order |
| `Forms.NonEmptyOne` | script.js:555 | a single piece is kept exactly when it is not empty |
| `Forms.TrimAllAppend` | script.js:554 | on two lists in a row, `map(trim)` gives the trimmed first list followed by the trimmed second one |
| `Forms.ParseGaps` | script.js:552-555 | every parsed gap is non-empty, trimmed and free of commas |
| `Forms.ParseGapsPieces` | script.js:552-555 | every comma-separated piece that is not blank gives its trimmed text as a gap, after the gaps of the pieces before it and before those of the pieces after it; a blank piece gives none |
| `Forms.ParseGapsDropsEmpty` | script.js:552-555 | an empty piece between two commas is dropped: `x,,y` gives the two gaps `x` and `y` |
| `Forms.ParseGapsJoin` | script.js:552-555 | gaps written as the form asks, separated by `", "`, are parsed back exactly and in order |
| `Forms.OnWire` | script.js:462-467 | a NaN number is sent as null and arrives absent; any other number arrives unchanged |
| `Forms.ClientWeather` | script.js:438-444 | the temperature is null exactly when the trimmed input is empty, and the condition is null exactly when none is selected |
| `Forms.GenerateRequest` | script.js:433-468 | no request is sent exactly when the wardrobe is empty; otherwise the wardrobe, preferences and profile are sent as they are, and the weather object carries the typed number exactly when the trimmed temperature input is not blank and reads as a number, and the selected condition exactly when one is selected |
| `Forms.GenerateRequestWeather` | script.js:438-468 | every request sent reaches the AI; the server's weather clause has a temperature part exactly when a numeric temperature was typed, and a condition part exactly when one was selected |
| `Forms.GapsRequest` | script.js:500-520 | no gap analysis is requested exactly when the wardrobe is empty |
| `Forms.GapsRequestAccepted` | script.js:500-520 | the gap endpoint never answers a request the client sends with 400 |
| `Forms.ShopRequest` | script.js:540-581 | no request is sent exactly when no gap can be parsed, blank input included; otherwise the parsed gaps are sent with PLN, PL and Reserved, and the budget is absent exactly when its input is blank or not a number |
| `Forms.ShopRequestAnswered` | script.js:566-581 | every shop request sent is answered 200 with one suggestion per parsed gap, in order, in Reserved and PLN |
| `Screens.SectionsOf` | script.js:70-78 | a screen has a list of sections exactly when it is one of the three configured screens; the list is non-empty and holds only configured section ids |
| `Screens.ScreensPartitionSections` | script.js:70-78 | the three screens list disjoint sets of section ids that together make up all configured sections |
| `Screens.Displayed` | script.js:80-92 | on a configured screen each configured section in the page is shown exactly when that screen lists it; other elements keep their visibility and missing ids are skipped |
| `Screens.DisplayedForgetsHistory` | script.js:80-92 | the visibility after a switch does not depend on the screen shown before, and showing a screen twice is the same as once |
| `Screens.OneScreenVisible` | script.js:80-92 | on a configured screen every section of another screen is hidden |
| `Screens.Page.ShowScreen` | script.js:80-97 | on a configured screen the sections are displayed as `Displayed` says, and a navigation button is active exactly when its `data-screen` equals the screen; on an unknown screen it throws and changes nothing when some configured section is present |

## Left out

- Strings are sequences of Unicode scalar values, not UTF-16 code units. So `slice(0, 400)` counts code points, and strings with lone surrogates cannot be written (`encodeURIComponent` would throw on them).
- Js.DecimalText: renders every integer in plain digits. JavaScript writes a magnitude of 10^21 or more in exponent form (`1e+21`), and an integer above 2^53 is not held exactly; neither is modelled.
- Server.AnalyzeStyleImages: the upload middleware `upload.array("images", 5)` (backend/server.js:90) rejects a request with more than five files before the handler runs. That rejection is not modelled; the model covers the requests that reach the handler.
- Numbers are NaN or integers. Fractions, infinities and the decimal rendering of non-integral temperatures are not modelled. `Number(text)` is a parameter of the request builders, not a parser.
- The wording of the prompt passages is not modelled: only their order and the text filled into each slot. The image prompt's `trim()` is not modelled either; it only touches the fixed passages at both ends.
- The AI service is not modelled. Each call is reduced to the prompt sent and an `Ok(reply)` or `Err` outcome. A reply is reduced to the fields the handlers read.
- Express routing, JSON body parsing, CORS, static files and `app.listen` are not modelled.
- multer uploads and `buffer.toString("base64")` are not modelled; the base64 text of an upload is an input.
- `console.error` logging is not modelled.
- DOM rendering, `innerHTML`, `FileReader`, `fetch` and promise ordering are not modelled.
- `/api/test` and the `/` fallback route are plumbing and are not modelled.
- Request fields of the wrong JavaScript type are not modelled; each field is either absent or of the type the handler expects. Two consequences:
  - a string wardrobe or a non-array `output`, which the source would handle or throw on, is out of scope;
  - the difference between the `Array.isArray` guard (backend/server.js:250-255) and optional chaining (backend/server.js:354-356) does not show.
- Store.Loaded: a stored value that parses as an array with non-string elements is not loaded in the model. The source would load it; such a value can only come from outside the app.
- The restore of inspirations at start-up (script.js:270-291) is not modelled: it assigns the parsed stored value without checking that it is an array.
- Store.Inspirations.Select: the data URLs are appended in file order. In the browser each `FileReader` completes on its own, so the order may differ.
- `localStorage.setItem` failing (quota) is not modelled; the save always succeeds.
- The `country` field of the shop request is read but never used by the server.
