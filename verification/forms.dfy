/**
 The input normalisers and request builders of script.js: the garment
 description built from the clothes form, the gap list parsed from the
 shop form, and the bodies of the outfit, gap-analysis and shop requests
 as the server receives them.

 `Number(text)` is not modelled: where the client converts an input field
 to a number, the result of that conversion is a parameter.
 */
module Forms {
  import opened Js
  import opened Prompt
  import Server

  // ---------------------------------------------------------------------
  // Garment description (clothes form)
  // ---------------------------------------------------------------------

  const GarmentSeparator := " | "
  const ColorLabel := "Kolor: "
  const KindLabel := "Rodzaj: "
  const SeasonLabel := "Sezon: "

  /** The part for one optional field: present only when the field is not
      empty. */
  function Labelled(tag: string, value: string): seq<string>
  {
    if value == "" then [] else [tag + value]
  }

  /** The parts of a description from the trimmed fields: the name, then
      the colour, type and season parts that are present, in that order. */
  function GarmentParts(name: string, color: string, kind: string, season: string): seq<string>
  {
    [name] + Labelled(ColorLabel, color) + Labelled(KindLabel, kind) + Labelled(SeasonLabel, season)
  }

  /** The description of the trimmed fields, or `None` for an empty name. */
  function DescriptionOf(name: string, color: string, kind: string, season: string): (r: Option<string>)
    ensures r.None? <==> name == ""
  {
    if name == "" then None
    else Some(Join(GarmentParts(name, color, kind, season), GarmentSeparator))
  }

  /** The wardrobe item the clothes form produces from its raw fields, or
      `None` when the trimmed name is empty and the form adds nothing. */
  function GarmentDescription(name: string, color: string, kind: string, season: string): (r: Option<string>)
    ensures r.None? <==> Trim(name) == ""
    ensures r == DescriptionOf(Trim(name), Trim(color), Trim(kind), Trim(season))
  {
    DescriptionOf(Trim(name), Trim(color), Trim(kind), Trim(season))
  }

  /** The submit handler as written: trim the fields, give up on an empty
      name, push the parts that are present, join them. */
  method DescribeGarment(nameInput: string, colorInput: string, kindInput: string, seasonInput: string)
    returns (item: Option<string>)
    ensures item == GarmentDescription(nameInput, colorInput, kindInput, seasonInput)
  {
    var name := Trim(nameInput);
    var color := Trim(colorInput);
    var kind := Trim(kindInput);
    var season := Trim(seasonInput);
    if name == "" {
      return None;
    }
    var descriptionParts := [name];
    if color != "" {
      descriptionParts := descriptionParts + [ColorLabel + color];
    }
    assert descriptionParts == [name] + Labelled(ColorLabel, color);
    if kind != "" {
      descriptionParts := descriptionParts + [KindLabel + kind];
    }
    assert descriptionParts == [name] + Labelled(ColorLabel, color) + Labelled(KindLabel, kind);
    if season != "" {
      descriptionParts := descriptionParts + [SeasonLabel + season];
    }
    assert descriptionParts == GarmentParts(name, color, kind, season);
    item := Some(Join(descriptionParts, GarmentSeparator));
  }

  /** One field's contribution to the description text: the separator and
      the labelled value, or nothing for an empty field. */
  function Tail(tag: string, value: string): (t: string)
    ensures t == "" <==> value == ""
  {
    if value == "" then "" else GarmentSeparator + tag + value
  }

  lemma JoinFront(a: string, rest: seq<string>, sep: string)
    ensures Join([a] + rest, sep) == a + (if rest == [] then "" else sep + Join(rest, sep))
  {
    assert ([a] + rest)[1..] == rest;
  }

  /** Joining a name, one optional part and more parts. */
  lemma JoinTail(n: string, tag: string, v: string, more: seq<string>)
    ensures Join([n] + Labelled(tag, v) + more, GarmentSeparator) == Join([n + Tail(tag, v)] + more, GarmentSeparator)
  {
    if v == "" {
      assert [n] + Labelled(tag, v) + more == [n] + more;
      assert n + Tail(tag, v) == n;
    } else {
      var p := tag + v;
      assert [n] + Labelled(tag, v) + more == [n] + ([p] + more);
      JoinPair(n, p, more, GarmentSeparator);
      assert n + Tail(tag, v) == n + GarmentSeparator + p;
    }
  }

  lemma JoinPair(a: string, b: string, more: seq<string>, sep: string)
    ensures Join([a] + ([b] + more), sep) == Join([a + sep + b] + more, sep)
  {
    JoinFront(a, [b] + more, sep);
    JoinFront(b, more, sep);
    JoinFront(a + sep + b, more, sep);
    if more == [] {
      assert Join([a] + ([b] + more), sep) == a + sep + b;
    } else {
      assert Join([a] + ([b] + more), sep) == a + (sep + (b + (sep + Join(more, sep))));
      assert a + (sep + (b + (sep + Join(more, sep)))) == (a + sep + b) + (sep + Join(more, sep));
    }
  }

  /** Joining a name and the parts of the fields that are present gives the
      name followed by each field's tail. */
  lemma {:induction false} JoinedParts(n: string, c: string, k: string, s: string)
    ensures Join(GarmentParts(n, c, k, s), GarmentSeparator)
      == n + Tail(ColorLabel, c) + Tail(KindLabel, k) + Tail(SeasonLabel, s)
  {
    var cs, ks, ss := Labelled(ColorLabel, c), Labelled(KindLabel, k), Labelled(SeasonLabel, s);
    var n1 := n + Tail(ColorLabel, c);
    var n2 := n1 + Tail(KindLabel, k);
    var n3 := n2 + Tail(SeasonLabel, s);
    assert GarmentParts(n, c, k, s) == [n] + cs + (ks + ss);
    JoinTail(n, ColorLabel, c, ks + ss);
    assert [n1] + (ks + ss) == [n1] + ks + ss;
    JoinTail(n1, KindLabel, k, ss);
    assert [n2] + ss == [n2] + ss + [];
    JoinTail(n2, SeasonLabel, s, []);
    assert [n3] + [] == [n3];
  }

  /** The description spelled out: the name followed by the separator and
      labelled value of each non-empty field in turn. So it starts with the
      name, and it is the name alone exactly when the other three fields are
      empty. */
  lemma DescriptionText(name: string, color: string, kind: string, season: string)
    ensures DescriptionOf(name, color, kind, season).None? <==> name == ""
    ensures name != "" ==>
      DescriptionOf(name, color, kind, season).value
        == name + Tail(ColorLabel, color) + Tail(KindLabel, kind) + Tail(SeasonLabel, season)
    ensures name != "" ==>
      (DescriptionOf(name, color, kind, season).value == name <==> color == "" && kind == "" && season == "")
  {
    if name != "" {
      JoinedParts(name, color, kind, season);
      var r := Tail(ColorLabel, color) + Tail(KindLabel, kind) + Tail(SeasonLabel, season);
      assert |name + r| == |name| + |r|;
    }
  }

  // ---------------------------------------------------------------------
  // Gap list (shop form)
  // ---------------------------------------------------------------------

  /** `pieces.map((g) => g.trim())` */
  function TrimAll(pieces: seq<string>): (r: seq<string>)
    ensures |r| == |pieces|
    ensures forall k :: 0 <= k < |r| ==> r[k] == Trim(pieces[k])
  {
    if pieces == [] then [] else [Trim(pieces[0])] + TrimAll(pieces[1..])
  }

  /** `pieces.filter((g) => g.length > 0)` */
  function NonEmpty(pieces: seq<string>): (r: seq<string>)
    ensures |r| <= |pieces|
    ensures forall k :: 0 <= k < |r| ==> r[k] != "" && r[k] in pieces
    ensures (forall k :: 0 <= k < |pieces| ==> pieces[k] != "") ==> r == pieces
  {
    if pieces == [] then []
    else if pieces[0] == "" then NonEmpty(pieces[1..])
    else
      assert forall k :: 1 <= k < |pieces| ==> pieces[1..][k - 1] == pieces[k];
      [pieces[0]] + NonEmpty(pieces[1..])
  }

  /** `filter` works piece by piece: on a concatenation it keeps what it
      keeps of each part, in order. */
  lemma {:induction false} NonEmptyAppend(a: seq<string>, b: seq<string>)
    ensures NonEmpty(a + b) == NonEmpty(a) + NonEmpty(b)
  {
    if a == [] {
      assert a + b == b;
    } else {
      assert (a + b)[1..] == a[1..] + b;
      NonEmptyAppend(a[1..], b);
    }
  }

  /** A single piece is kept exactly when it is not empty. */
  lemma NonEmptyOne(x: string)
    ensures NonEmpty([x]) == if x == "" then [] else [x]
  {
    assert [x][1..] == [];
  }

  /** `map(trim)` works piece by piece as well. */
  lemma {:induction false} TrimAllAppend(a: seq<string>, b: seq<string>)
    ensures TrimAll(a + b) == TrimAll(a) + TrimAll(b)
  {
    if a == [] {
      assert a + b == b;
    } else {
      assert (a + b)[1..] == a[1..] + b;
      TrimAllAppend(a[1..], b);
    }
  }

  /** Trimming the pieces and dropping the empty ones keeps the `k`-th piece,
      trimmed, exactly when it is not blank, between what it keeps of the
      pieces before and of the pieces after. */
  lemma GapsAround(pieces: seq<string>, k: nat)
    requires k < |pieces|
    ensures NonEmpty(TrimAll(pieces))
        == NonEmpty(TrimAll(pieces[..k]))
           + (if Trim(pieces[k]) == "" then [] else [Trim(pieces[k])])
           + NonEmpty(TrimAll(pieces[k + 1..]))
  {
    PiecesAround(pieces, k);
    TrimAllAround(pieces[..k], pieces[k], pieces[k + 1..]);
    NonEmptyAround(TrimAll(pieces[..k]), Trim(pieces[k]), TrimAll(pieces[k + 1..]));
  }

  lemma PiecesAround(pieces: seq<string>, k: nat)
    requires k < |pieces|
    ensures pieces == pieces[..k] + [pieces[k]] + pieces[k + 1..]
  {
  }

  lemma TrimAllAround(before: seq<string>, x: string, after: seq<string>)
    ensures TrimAll(before + [x] + after) == TrimAll(before) + [Trim(x)] + TrimAll(after)
  {
    TrimAllAppend(before + [x], after);
    TrimAllAppend(before, [x]);
    TrimAllOne(x);
  }

  lemma TrimAllOne(x: string)
    ensures TrimAll([x]) == [Trim(x)]
  {
    assert [x][1..] == [];
  }

  lemma NonEmptyAround(before: seq<string>, x: string, after: seq<string>)
    ensures NonEmpty(before + [x] + after)
      == NonEmpty(before) + (if x == "" then [] else [x]) + NonEmpty(after)
  {
    NonEmptyAppend(before + [x], after);
    NonEmptyAppend(before, [x]);
    NonEmptyOne(x);
  }

  /** Every piece of the trimmed text that is not blank becomes a gap,
      trimmed, after the gaps of the pieces before it and before the gaps
      of the pieces after it; a blank piece adds nothing. */
  lemma ParseGapsPieces(text: string, k: nat)
    requires k < |Split(Trim(text), ',')|
    ensures var pieces := Split(Trim(text), ',');
      ParseGaps(text)
        == NonEmpty(TrimAll(pieces[..k]))
           + (if Trim(pieces[k]) == "" then [] else [Trim(pieces[k])])
           + NonEmpty(TrimAll(pieces[k + 1..]))
  {
    GapsAround(Split(Trim(text), ','), k);
  }

  /** An empty piece between two commas is dropped: `"x,,y"` gives the two
      gaps `x` and `y`. */
  lemma ParseGapsDropsEmpty(x: string, y: string)
    requires x != "" && y != "" && IsTrimmed(x) && IsTrimmed(y) && ',' !in x && ',' !in y
    ensures ParseGaps(x + ",," + y) == [x, y]
  {
    var text := x + ",," + y;
    assert text[0] == x[0] && text[|text| - 1] == y[|y| - 1];
    assert Trim(text) == text;
    SplitTwoCommas(x, y);
    assert TrimAll([x, "", y]) == [x, "", y];
    NonEmptyAround([x], "", [y]);
    NonEmptyOne(x);
    NonEmptyOne(y);
    assert [x, "", y] == [x] + [""] + [y];
  }

  lemma SplitTwoCommas(x: string, y: string)
    requires ',' !in x && ',' !in y
    ensures Split(x + ",," + y, ',') == [x, "", y]
  {
    assert x + ",," + y == x + [','] + ([','] + y);
    SplitAfterPiece(x, ',', [','] + y);
    assert [','] + y == "" + [','] + y;
    SplitAfterPiece("", ',', y);
    SplitWithoutSeparator(y, ',');
  }

  lemma TrimAllWithout(pieces: seq<string>, c: char)
    requires forall k :: 0 <= k < |pieces| ==> c !in pieces[k]
    ensures forall k :: 0 <= k < |pieces| ==> c !in TrimAll(pieces)[k] && IsTrimmed(TrimAll(pieces)[k])
  {
    forall k | 0 <= k < |pieces|
      ensures c !in TrimAll(pieces)[k]
    {
      TrimWithout(pieces[k], c);
    }
  }

  /** The gaps typed into the shop form: the trimmed text split at commas,
      each piece trimmed, empty pieces dropped. Every gap is non-empty,
      trimmed and free of commas. */
  function ParseGaps(text: string): (gaps: seq<string>)
    ensures forall k :: 0 <= k < |gaps| ==> gaps[k] != "" && IsTrimmed(gaps[k]) && ',' !in gaps[k]
  {
    var pieces := Split(Trim(text), ',');
    TrimAllWithout(pieces, ',');
    NonEmpty(TrimAll(pieces))
  }

  /** A text joined from non-empty items starts with the first
      item's first character and ends with the last item's last character. */
  lemma {:induction false} JoinEnds(items: seq<string>, sep: string)
    requires |items| >= 1
    requires forall k :: 0 <= k < |items| ==> items[k] != ""
    ensures var j := Join(items, sep);
      j != "" && j[0] == items[0][0] && j[|j| - 1] == items[|items| - 1][|items[|items| - 1]| - 1]
  {
    if |items| > 1 {
      JoinEnds(items[1..], sep);
    }
  }

  /** Gaps separated by `", "` split back at the commas and trimmed. */
  lemma TrimmedPieces(gaps: seq<string>)
    requires |gaps| >= 1
    requires forall k :: 0 <= k < |gaps| ==> gaps[k] != "" && IsTrimmed(gaps[k]) && ',' !in gaps[k]
    ensures TrimAll(Split(Join(gaps, ", "), ',')) == gaps
  {
    var sep := [','] + " ";
    assert ", " == sep;
    SplitJoin(gaps, ',', " ");
    TrimBlankLed(Split(Join(gaps, sep), ','), gaps);
  }

  /** Items led by one blank, except the first, trim back to themselves. */
  lemma TrimBlankLed(pieces: seq<string>, gaps: seq<string>)
    requires |pieces| == |gaps| >= 1
    requires forall k :: 0 <= k < |gaps| ==> gaps[k] != "" && IsTrimmed(gaps[k])
    requires pieces[0] == gaps[0]
    requires forall k :: 1 <= k < |gaps| ==> pieces[k] == " " + gaps[k]
    ensures TrimAll(pieces) == gaps
  {
    var trimmed := TrimAll(pieces);
    forall k | 1 <= k < |gaps|
      ensures trimmed[k] == gaps[k]
    {
      TrimAfterBlank(gaps[k]);
    }
  }

  /** Gaps written the way the form suggests, separated by `", "`, are read
      back exactly. */
  lemma ParseGapsJoin(gaps: seq<string>)
    requires forall k :: 0 <= k < |gaps| ==> gaps[k] != "" && IsTrimmed(gaps[k]) && ',' !in gaps[k]
    ensures ParseGaps(Join(gaps, ", ")) == gaps
  {
    var text := Join(gaps, ", ");
    if gaps == [] {
      assert Trim(text) == "";
      assert Split("", ',') == [""];
      assert TrimAll([""]) == [""];
    } else {
      JoinEnds(gaps, ", ");
      assert Trim(text) == text;
      TrimmedPieces(gaps);
    }
  }

  // ---------------------------------------------------------------------
  // Request bodies, as the server receives them
  // ---------------------------------------------------------------------

  /** A number after the JSON round trip of the request body: NaN is written
      as `null` (section 25.5.2.2 of ECMA-262) and arrives as absent. */
  function OnWire(n: Option<Number>): (r: Option<Number>)
    ensures r.Some? <==> n.Some? && IsNumeric(n.value)
    ensures r.Some? ==> r == n
  {
    if n.Some? && n.value.NaN? then None else n
  }

  /** The weather object the generate button sends: the temperature is `null`
      exactly when the trimmed input is empty, otherwise the input converted
      to a number (`tempNumber`); the condition is `null` exactly when none is
      selected. */
  function ClientWeather(tempInput: string, tempNumber: Number, condition: string): (w: Weather)
    ensures w.temperatureC.None? <==> Trim(tempInput) == ""
    ensures w.temperatureC.Some? ==> w.temperatureC.value == tempNumber
    ensures w.condition.None? <==> condition == ""
    ensures w.condition.Some? ==> w.condition.value == condition
  {
    Weather(if Trim(tempInput) != "" then Some(tempNumber) else None,
            if condition != "" then Some(condition) else None)
  }

  /** The outfit request the generate button sends, or `None` when the
      wardrobe is empty and nothing is sent. */
  function GenerateRequest(wardrobe: seq<string>, preferences: seq<string>, styleProfile: string,
                           tempInput: string, tempNumber: Number, condition: string): (req: Option<Server.OutfitRequest>)
    ensures req.None? <==> wardrobe == []
    ensures req.Some? ==>
      && req.value.wardrobe == Some(wardrobe)
      && req.value.preferences == Some(preferences)
      && req.value.styleProfile == Some(styleProfile)
      && req.value.weather.Some?
      && req.value.weather.value.temperatureC
         == (if Trim(tempInput) != "" && tempNumber.Num? then Some(tempNumber) else None)
      && req.value.weather.value.condition == (if condition != "" then Some(condition) else None)
  {
    var weather := ClientWeather(tempInput, tempNumber, condition);
    if |wardrobe| == 0 then None
    else Some(Server.OutfitRequest(Some(wardrobe), Some(preferences), Some(styleProfile),
                                   Some(Weather(OnWire(weather.temperatureC), weather.condition))))
  }

  /** What the server makes of a request the client sends: the AI is called,
      the temperature part appears exactly when a temperature was typed and
      reads as a number, and the condition part exactly when one was
      selected. */
  lemma GenerateRequestWeather(wardrobe: seq<string>, preferences: seq<string>, styleProfile: string,
                               tempInput: string, tempNumber: Number, condition: string,
                               textReply: Outcome<Server.TextReply>, imageReply: Outcome<Server.ImageReply>)
    requires wardrobe != []
    ensures var req := GenerateRequest(wardrobe, preferences, styleProfile, tempInput, tempNumber, condition).value;
      && Server.Outfit(req, textReply, imageReply).calls != []
      && (HasTemperature(req.weather) <==> Trim(tempInput) != "" && tempNumber.Num?)
      && (HasCondition(req.weather) <==> condition != "")
  {
  }

  /** The body of the gap-analysis request, or `None` when the wardrobe is
      empty and nothing is sent. */
  function GapsRequest(wardrobe: seq<string>): (req: Option<seq<string>>)
    ensures req.None? <==> wardrobe == []
    ensures req.Some? ==> req.value == wardrobe
  {
    if |wardrobe| == 0 then None else Some(wardrobe)
  }

  /** The client never sends the gap analysis a request it would refuse. */
  lemma GapsRequestAccepted(wardrobe: seq<string>, reply: Outcome<Server.TextReply>)
    requires GapsRequest(wardrobe).Some?
    ensures Server.WardrobeGaps(Some(GapsRequest(wardrobe).value), reply).response.status != 400
  {
  }

  /** The shop request the suggestions button sends, or `None` when the gap
      text is blank or has no gap in it. The budget is `null` when its input
      is blank, otherwise the input converted to a number (`budgetNumber`). */
  function ShopRequest(gapsInput: string, budgetInput: string, budgetNumber: Number): (req: Option<Server.ShopRequest>)
    ensures req.None? <==> ParseGaps(gapsInput) == []
    ensures req.Some? ==>
      && req.value.gaps == Some(ParseGaps(gapsInput))
      && req.value.currency == Some("PLN")
      && req.value.country == Some("PL")
      && req.value.preferredStore == Some("Reserved")
      && (req.value.budgetPerItem.Some? <==> Trim(budgetInput) != "" && budgetNumber.Num?)
      && (req.value.budgetPerItem.Some? ==> req.value.budgetPerItem.value == budgetNumber)
  {
    var gapsText := Trim(gapsInput);
    if gapsText == "" then
      assert Trim(gapsText) == "" && TrimAll([""]) == [""];
      None
    else
      var gaps := ParseGaps(gapsInput);
      if |gaps| == 0 then None
      else
        var budget := if budgetInput != "" && Trim(budgetInput) != "" then Some(budgetNumber) else None;
        Some(Server.ShopRequest(Some(gaps), OnWire(budget), Some("PLN"), Some("PL"), Some("Reserved")))
  }

  /** Every request the shop form sends is answered with one suggestion per
      gap it parsed, in order, in the store and currency the client asks for. */
  lemma ShopRequestAnswered(gapsInput: string, budgetInput: string, budgetNumber: Number)
    requires ShopRequest(gapsInput, budgetInput, budgetNumber).Some?
    ensures var gaps := ParseGaps(gapsInput);
      var r := Server.ShopSuggestions(ShopRequest(gapsInput, budgetInput, budgetNumber).value);
      && r.status == 200
      && |r.body.suggestions| == |gaps|
      && forall k :: 0 <= k < |gaps| ==>
           r.body.suggestions[k].gap == gaps[k]
           && r.body.suggestions[k].store == Server.DefaultStore
           && r.body.suggestions[k].currency == Server.DefaultCurrency
  {
  }
}
