/**
 The browser-side state of script.js: the `localStorage` map, the wardrobe
 list `wardrobeState` with its add, delete, load and save operations and
 the batch analysis that feeds it, and the inspiration state (style
 profile and inspiration picture URLs).
 */
module Store {
  import opened Js
  import opened Json

  /** `localStorage`, as a map from keys to stored strings. */
  class Storage {
    var entries: map<string, string>

    constructor (entries: map<string, string>)
      ensures this.entries == entries
    {
      this.entries := entries;
    }

    /** `getItem(key)`: `null` for a missing key. */
    function GetItem(key: string): (r: Option<string>)
      reads this
      ensures r.Some? <==> key in entries
      ensures r.Some? ==> r.value == entries[key]
    {
      if key in entries then Some(entries[key]) else None
    }

    method SetItem(key: string, value: string)
      modifies this
      ensures entries == old(entries)[key := value]
    {
      entries := entries[key := value];
    }

    method RemoveItem(key: string)
      modifies this
      ensures entries == old(entries) - {key}
    {
      entries := entries - {key};
    }
  }

  const WardrobeKey := "szafaAI_wardrobe"
  const StyleProfileKey := "szafaAI_styleProfile"
  const StyleImagesKey := "szafaAI_styleImages"
  /** What a garment analysis adds when the server's answer has no description. */
  const NoServerDescription := "Brak opisu z serwera."
  /** What an inspiration analysis records when the answer has no profile. */
  const NoServerStyle := "Brak opisu stylu z serwera."

  /** `items.splice(index, 1)`: the item at `index` removed, nothing removed
      when `index` is past the end. */
  function RemoveAt(items: seq<string>, index: nat): (r: seq<string>)
    ensures index < |items| ==> |r| == |items| - 1
    ensures index < |items| ==> forall k :: 0 <= k < index ==> r[k] == items[k]
    ensures index < |items| ==> forall k :: index <= k < |r| ==> r[k] == items[k + 1]
    ensures index < |items| ==> multiset(r) + multiset{items[index]} == multiset(items)
    ensures index >= |items| ==> r == items
  {
    if index < |items| then
      assert items == items[..index] + [items[index]] + items[index + 1..];
      items[..index] + items[index + 1..]
    else items
  }

  /** The wardrobe list after loading the stored value `raw`: the parsed array
      when `raw` is present, not empty and parses as an array of strings;
      otherwise the list as it was. */
  function Loaded(raw: Option<string>, current: seq<string>): (r: seq<string>)
    ensures !IsTruthy(raw) ==> r == current
    ensures IsTruthy(raw) && ParseStringArray(raw.value).Some? ==> r == ParseStringArray(raw.value).value
    ensures IsTruthy(raw) && ParseStringArray(raw.value).None? ==> r == current
  {
    if !IsTruthy(raw) then current
    else match ParseStringArray(raw.value)
      case Some(parsed) => parsed
      case None => current
  }

  /** What `Save` stores, `Load` reads back, whatever the list held before. */
  lemma LoadAfterSave(entries: map<string, string>, items: seq<string>, current: seq<string>)
    ensures var saved := entries[WardrobeKey := StringifyArray(items)];
      Loaded(if WardrobeKey in saved then Some(saved[WardrobeKey]) else None, current) == items
  {
    StringifyParse(items);
    assert StringifyArray(items)[0] == '[';
  }

  /** The items a batch of garment analyses adds, in file order. A reply is
      `Ok` whenever the response body parses as JSON, a server error reply
      included, and then adds its `description` or the fallback text; it is
      `Err` only when `fetch` or `response.json()` throws, and then adds
      nothing. */
  function Analysed(replies: seq<Outcome<Option<string>>>): (added: seq<string>)
    ensures |added| <= |replies|
    ensures forall k :: 0 <= k < |added| ==> added[k] != ""
  {
    if replies == [] then []
    else
      Analysed(replies[..|replies| - 1])
      + match replies[|replies| - 1]
        case Ok(description) => [OrElse(description, NoServerDescription)]
        case Err => []
  }

  /** The batch works reply by reply: the items of two batches in a row are
      those of the first followed by those of the second. */
  lemma {:induction false} AnalysedAppend(a: seq<Outcome<Option<string>>>, b: seq<Outcome<Option<string>>>)
    ensures Analysed(a + b) == Analysed(a) + Analysed(b)
  {
    if b == [] {
      assert a + b == a;
    } else {
      assert (a + b)[..|a + b| - 1] == a + b[..|b| - 1];
      AnalysedAppend(a, b[..|b| - 1]);
    }
  }

  /** An answered reply, a server error reply included, adds its
      description or the fallback text; a request whose `fetch` or JSON
      parse throws adds nothing. */
  lemma AnalysedOne(reply: Outcome<Option<string>>)
    ensures reply.Ok? ==> Analysed([reply]) == [OrElse(reply.value, NoServerDescription)]
    ensures reply.Err? ==> Analysed([reply]) == []
  {
    assert [reply][..0] == [];
  }

  /** The items of the first `i + 1` replies: those of the first `i`, then
      what reply `i` adds. */
  lemma AnalysedStep(replies: seq<Outcome<Option<string>>>, i: nat)
    requires i < |replies|
    ensures Analysed(replies[..i + 1])
      == Analysed(replies[..i]) + (if replies[i].Ok? then [OrElse(replies[i].value, NoServerDescription)] else [])
  {
    assert replies[..i + 1][..i] == replies[..i];
  }

  /** The number of answered requests in a batch. */
  function Answered(replies: seq<Outcome<Option<string>>>): (n: nat)
    ensures n <= |replies|
  {
    if replies == [] then 0
    else Answered(replies[..|replies| - 1]) + if replies[|replies| - 1].Ok? then 1 else 0
  }

  /** A batch adds exactly one item per answered request. */
  lemma {:induction false} AnalysedCount(replies: seq<Outcome<Option<string>>>)
    ensures |Analysed(replies)| == Answered(replies)
  {
    if replies != [] {
      AnalysedCount(replies[..|replies| - 1]);
    }
  }

  /** A batch in which every request is answered adds one item per file; one
      in which every request fails adds nothing. */
  lemma {:induction false} AnalysedCounts(replies: seq<Outcome<Option<string>>>)
    ensures (forall k :: 0 <= k < |replies| ==> replies[k].Ok?) ==> |Analysed(replies)| == |replies|
    ensures (forall k :: 0 <= k < |replies| ==> replies[k].Err?) ==> Analysed(replies) == []
  {
    if replies != [] {
      AnalysedCounts(replies[..|replies| - 1]);
    }
  }

  /** A second save replaces what the first one stored. */
  lemma SaveOverwrites(entries: map<string, string>, first: string, second: string)
    ensures entries[WardrobeKey := first][WardrobeKey := second] == entries[WardrobeKey := second]
  {
  }

  /** `wardrobeState` and the storage it is saved to. */
  class Wardrobe {
    var items: seq<string>
    const storage: Storage

    /** `let wardrobeState = []` */
    constructor (storage: Storage)
      ensures items == [] && this.storage == storage
    {
      items := [];
      this.storage := storage;
    }

    /** `saveWardrobeToStorage`: the list, as JSON, under the wardrobe key. */
    method Save()
      modifies storage
      ensures storage.entries == old(storage.entries)[WardrobeKey := StringifyArray(items)]
    {
      storage.SetItem(WardrobeKey, StringifyArray(items));
    }

    /** `addGarmentToWardrobe`: the item appended at the end, then saved. */
    method Add(itemText: string)
      modifies this, storage
      ensures items == old(items) + [itemText]
      ensures storage.entries == old(storage.entries)[WardrobeKey := StringifyArray(items)]
    {
      items := items + [itemText];
      Save();
    }

    /** The delete button of the item at `index`: splice, then save. */
    method Delete(index: nat)
      modifies this, storage
      ensures items == RemoveAt(old(items), index)
      ensures storage.entries == old(storage.entries)[WardrobeKey := StringifyArray(items)]
    {
      if index < |items| {
        items := items[..index] + items[index + 1..];
      }
      Save();
    }

    /** `loadWardrobeFromStorage`: the list is replaced only by a stored value
        that parses as an array; the storage is only read. */
    method Load()
      modifies this
      ensures items == Loaded(storage.GetItem(WardrobeKey), old(items))
    {
      var raw := storage.GetItem(WardrobeKey);
      if raw.None? || raw.value == "" {
        return;
      }
      var parsed := ParseStringArray(raw.value);
      if parsed.Some? {
        items := parsed.value;
      }
    }

    /** The batch analysis of garment photos: one request per file, in order;
        an answered request adds its description and counts as a success, a
        failed one is skipped. */
    method AnalyzeBatch(replies: seq<Outcome<Option<string>>>) returns (successCount: nat)
      modifies this, storage
      ensures items == old(items) + Analysed(replies)
      ensures successCount == |Analysed(replies)| <= |replies|
      ensures successCount == 0 ==> storage.entries == old(storage.entries)
      ensures successCount > 0 ==> storage.entries == old(storage.entries)[WardrobeKey := StringifyArray(items)]
    {
      successCount := 0;
      var i := 0;
      while i < |replies|
        invariant 0 <= i <= |replies|
        invariant items == old(items) + Analysed(replies[..i])
        invariant successCount == |items| - |old(items)|
        invariant successCount == 0 ==> storage.entries == old(storage.entries)
        invariant successCount > 0 ==> storage.entries == old(storage.entries)[WardrobeKey := StringifyArray(items)]
      {
        AnalysedStep(replies, i);
        if replies[i].Ok? {
          ghost var saved := StringifyArray(items);
          Add(OrElse(replies[i].value, NoServerDescription));
          SaveOverwrites(old(storage.entries), saved, StringifyArray(items));
          successCount := successCount + 1;
        }
        i := i + 1;
      }
      assert replies[..i] == replies;
    }
  }

  /** A file picked as an inspiration picture: its MIME type and the data URL
      its reader produces. */
  datatype Picked = Picked(mimeType: string, dataUrl: string)

  predicate IsImage(file: Picked) {
    |file.mimeType| >= 6 && file.mimeType[..6] == "image/"
  }

  /** The data URLs of the picked files that are images, in order. */
  function ImageUrls(files: seq<Picked>): (urls: seq<string>)
    ensures |urls| <= |files|
    ensures (forall j :: 0 <= j < |files| ==> !IsImage(files[j])) <==> urls == []
  {
    if files == [] then []
    else
      var rest := ImageUrls(files[..|files| - 1]);
      var last := files[|files| - 1];
      assert forall j :: 0 <= j < |files| - 1 ==> files[..|files| - 1][j] == files[j];
      rest + if IsImage(last) then [last.dataUrl] else []
  }

  /** Every kept URL is the data URL of an image file, and the data URL of
      every image file is kept. */
  lemma {:induction false} ImageUrlsFrom(files: seq<Picked>)
    ensures forall k :: 0 <= k < |ImageUrls(files)| ==>
      exists j :: 0 <= j < |files| && IsImage(files[j]) && ImageUrls(files)[k] == files[j].dataUrl
    ensures forall j :: 0 <= j < |files| && IsImage(files[j]) ==> files[j].dataUrl in ImageUrls(files)
  {
    if files != [] {
      var init := files[..|files| - 1];
      var last := files[|files| - 1];
      var urls := ImageUrls(files);
      ImageUrlsFrom(init);
      assert forall j :: 0 <= j < |init| ==> init[j] == files[j];
      assert urls == ImageUrls(init) + if IsImage(last) then [last.dataUrl] else [];
      forall k | 0 <= k < |ImageUrls(files)|
        ensures exists j :: 0 <= j < |files| && IsImage(files[j]) && ImageUrls(files)[k] == files[j].dataUrl
      {
        if k < |ImageUrls(init)| {
          var j :| 0 <= j < |init| && IsImage(init[j]) && ImageUrls(init)[k] == init[j].dataUrl;
          assert IsImage(files[j]) && urls[k] == files[j].dataUrl;
        } else {
          assert IsImage(last) && urls[k] == last.dataUrl;
          assert IsImage(files[|files| - 1]) && urls[k] == files[|files| - 1].dataUrl;
        }
      }
      assert forall k :: 0 <= k < |ImageUrls(files)| ==>
        exists j :: 0 <= j < |files| && IsImage(files[j]) && ImageUrls(files)[k] == files[j].dataUrl;
    } else {
      assert ImageUrls(files) == [];
    }
  }

  /** The files are taken one after the other: the URLs of two selections
      in a row are those of the first followed by those of the second. */
  lemma {:induction false} ImageUrlsAppend(a: seq<Picked>, b: seq<Picked>)
    ensures ImageUrls(a + b) == ImageUrls(a) + ImageUrls(b)
  {
    if b == [] {
      assert a + b == a;
    } else {
      var last := b[|b| - 1];
      var tail := if IsImage(last) then [last.dataUrl] else [];
      assert (a + b)[..|a + b| - 1] == a + b[..|b| - 1];
      assert (a + b)[|a + b| - 1] == last;
      assert ImageUrls(a + b) == ImageUrls(a + b[..|b| - 1]) + tail;
      assert ImageUrls(b) == ImageUrls(b[..|b| - 1]) + tail;
      ImageUrlsAppend(a, b[..|b| - 1]);
    }
  }

  /** One file gives its data URL when it is an image, and nothing otherwise. */
  lemma ImageUrlsOne(file: Picked)
    ensures ImageUrls([file]) == if IsImage(file) then [file.dataUrl] else []
  {
    assert [file][..0] == [];
  }

  /** `currentStyleProfile` and `styleImagesDataUrls` with their storage. */
  class Inspirations {
    var profile: string
    var imageUrls: seq<string>
    const storage: Storage

    constructor (storage: Storage)
      ensures profile == "" && imageUrls == [] && this.storage == storage
    {
      profile := "";
      imageUrls := [];
      this.storage := storage;
    }

    /** A new selection of inspiration files: the list is reset, then every
        image file's data URL is appended and the list saved after each one;
        an empty selection removes the stored list. */
    method Select(files: seq<Picked>)
      modifies this, storage
      ensures imageUrls == ImageUrls(files)
      ensures profile == old(profile)
      ensures files == [] ==> storage.entries == old(storage.entries) - {StyleImagesKey}
      ensures files != [] && imageUrls == [] ==> storage.entries == old(storage.entries)
      ensures files != [] && imageUrls != [] ==>
        storage.entries == old(storage.entries)[StyleImagesKey := StringifyArray(imageUrls)]
    {
      imageUrls := [];
      if |files| == 0 {
        storage.RemoveItem(StyleImagesKey);
        return;
      }
      var i := 0;
      while i < |files|
        invariant 0 <= i <= |files|
        invariant imageUrls == ImageUrls(files[..i])
        invariant profile == old(profile)
        invariant imageUrls == [] ==> storage.entries == old(storage.entries)
        invariant imageUrls != [] ==> storage.entries == old(storage.entries)[StyleImagesKey := StringifyArray(imageUrls)]
      {
        assert files[..i + 1][..i] == files[..i];
        if IsImage(files[i]) {
          imageUrls := imageUrls + [files[i].dataUrl];
          storage.SetItem(StyleImagesKey, StringifyArray(imageUrls));
        }
        i := i + 1;
      }
      assert files[..i] == files;
    }

    /** The answer of the inspiration analysis: the profile, or its fallback
        text, becomes the current profile and is stored; a failed request
        changes nothing. */
    method RecordAnalysis(reply: Outcome<Option<string>>)
      modifies this, storage
      ensures imageUrls == old(imageUrls)
      ensures reply.Err? ==> profile == old(profile) && storage.entries == old(storage.entries)
      ensures reply.Ok? ==>
        && profile == OrElse(reply.value, NoServerStyle)
        && storage.entries == old(storage.entries)[StyleProfileKey := profile]
    {
      if reply.Ok? {
        var styleText := OrElse(reply.value, NoServerStyle);
        profile := styleText;
        storage.SetItem(StyleProfileKey, styleText);
      }
    }

    /** The clear button: no profile, no pictures, both keys removed. */
    method Clear()
      modifies this, storage
      ensures profile == "" && imageUrls == []
      ensures storage.entries == old(storage.entries) - {StyleImagesKey, StyleProfileKey}
    {
      imageUrls := [];
      profile := "";
      storage.RemoveItem(StyleImagesKey);
      storage.RemoveItem(StyleProfileKey);
    }
  }
}
