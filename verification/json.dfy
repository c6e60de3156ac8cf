/**
 `JSON.stringify` of an array of strings (sections 25.5.2 and 25.5.2.3 of
 ECMA-262) and `JSON.parse` of a text that denotes an array of strings
 (the grammar of RFC 8259). `ParseStringArray` answers `None` both for a
 text that is not JSON and for JSON that is not an array of strings.
 */
module Json {
  import opened Js

  // ---------------------------------------------------------------------
  // Serialisation
  // ---------------------------------------------------------------------

  function LowerHex(d: nat): (c: char)
    requires d < 16
    ensures HexValue(c) == Some(d)
  {
    "0123456789abcdef"[d]
  }

  /** One character inside a JSON string literal: the two-character escapes
      for quote, backslash and the five named control characters, `\u00xx`
      for the other control characters, and the character itself otherwise. */
  function EscapeChar(c: char): (r: string)
    ensures r != []
  {
    var n := c as int;
    if c == '"' then "\\\""
    else if c == '\\' then "\\\\"
    else if n == 0x08 then "\\b"
    else if n == 0x09 then "\\t"
    else if n == 0x0A then "\\n"
    else if n == 0x0C then "\\f"
    else if n == 0x0D then "\\r"
    else if n < 0x20 then "\\u00" + [LowerHex(n / 16), LowerHex(n % 16)]
    else [c]
  }

  function EscapeBody(s: string): string
  {
    if s == [] then "" else EscapeChar(s[0]) + EscapeBody(s[1..])
  }

  /** `JSON.stringify(s)` for a string `s` */
  function Quote(s: string): string
  {
    "\"" + EscapeBody(s) + "\""
  }

  function QuoteAll(xs: seq<string>): (r: seq<string>)
    ensures |r| == |xs|
  {
    if xs == [] then [] else [Quote(xs[0])] + QuoteAll(xs[1..])
  }

  /** `JSON.stringify(xs)` for an array of strings: no white space, items
      separated by commas. */
  function StringifyArray(xs: seq<string>): (r: string)
    ensures |r| >= 2 && r[0] == '[' && r[|r| - 1] == ']'
    ensures r == "[]" <==> xs == []
  {
    "[" + Join(QuoteAll(xs), ",") + "]"
  }

  // ---------------------------------------------------------------------
  // Parsing
  // ---------------------------------------------------------------------

  /** The insignificant white space of section 2 of RFC 8259. */
  predicate IsJsonSpace(c: char) {
    c == ' ' || c == '\t' || c == '\n' || c == '\r'
  }

  function SkipSpace(s: string): (r: string)
    ensures |r| <= |s|
    ensures r == [] || !IsJsonSpace(r[0])
  {
    if s != [] && IsJsonSpace(s[0]) then SkipSpace(s[1..]) else s
  }

  /** Four hexadecimal digits at the front of `s`. */
  function Hex4(s: string): (r: Option<nat>)
    ensures r.Some? ==> |s| >= 4 && r.value < 0x10000
  {
    if |s| < 4 then None
    else match (HexValue(s[0]), HexValue(s[1]), HexValue(s[2]), HexValue(s[3]))
      case (Some(a), Some(b), Some(c), Some(d)) => Some(((a * 16 + b) * 16 + c) * 16 + d)
      case _ => None
  }

  /** The escape after a backslash, and the text after it. A `\u` escape of
      a high surrogate followed by one of a low surrogate stands for one
      supplementary character. */
  function ParseEscape(s: string): (r: Option<(char, string)>)
    ensures r.Some? ==> |r.value.1| < |s|
  {
    if s == [] then None
    else if s[0] == '"' then Some(('"', s[1..]))
    else if s[0] == '\\' then Some(('\\', s[1..]))
    else if s[0] == '/' then Some(('/', s[1..]))
    else if s[0] == 'b' then Some((8 as char, s[1..]))
    else if s[0] == 'f' then Some((12 as char, s[1..]))
    else if s[0] == 'n' then Some((10 as char, s[1..]))
    else if s[0] == 'r' then Some((13 as char, s[1..]))
    else if s[0] == 't' then Some((9 as char, s[1..]))
    else if s[0] == 'u' then
      match Hex4(s[1..])
      case None => None
      case Some(u) =>
        if u < 0xD800 || 0xE000 <= u then Some((u as char, s[5..]))
        else if u < 0xDC00 && |s| >= 11 && s[5] == '\\' && s[6] == 'u' then
          match Hex4(s[7..])
          case Some(l) =>
            if 0xDC00 <= l < 0xE000 then Some(((0x10000 + (u - 0xD800) * 1024 + (l - 0xDC00)) as char, s[11..]))
            else None
          case None => None
        else None
    else None
  }

  /** The characters of a string literal up to its closing quote, and the
      text after that quote. */
  function ParseStringBody(s: string): (r: Option<(string, string)>)
    ensures r.Some? ==> |r.value.1| < |s|
    decreases |s|
  {
    if s == [] then None
    else if s[0] == '"' then Some(("", s[1..]))
    else if s[0] == '\\' then
      match ParseEscape(s[1..])
      case None => None
      case Some((c, rest)) =>
        match ParseStringBody(rest)
        case None => None
        case Some((t, after)) => Some(([c] + t, after))
    else if (s[0] as int) < 0x20 then None
    else
      match ParseStringBody(s[1..])
      case None => None
      case Some((t, after)) => Some(([s[0]] + t, after))
  }

  /** One or more string literals separated by commas, then the closing
      bracket; answers the strings and the text after the bracket. */
  function ParseItems(s: string): (r: Option<(seq<string>, string)>)
    ensures r.Some? ==> |r.value.1| < |s|
    decreases |s|
  {
    if s == [] || s[0] != '"' then None
    else
      match ParseStringBody(s[1..])
      case None => None
      case Some((x, rest)) =>
        var v := SkipSpace(rest);
        if v == [] then None
        else if v[0] == ']' then Some(([x], v[1..]))
        else if v[0] == ',' then
          match ParseItems(SkipSpace(v[1..]))
          case None => None
          case Some((xs, after)) => Some(([x] + xs, after))
        else None
  }

  /** `JSON.parse(s)` when it yields an array of strings, `None` otherwise. */
  function ParseStringArray(s: string): (r: Option<seq<string>>)
    ensures r.Some? ==> SkipSpace(s) != [] && SkipSpace(s)[0] == '['
  {
    var t := SkipSpace(s);
    if t == [] || t[0] != '[' then None
    else
      var u := SkipSpace(t[1..]);
      if u != [] && u[0] == ']' then
        if SkipSpace(u[1..]) == [] then Some([]) else None
      else
        match ParseItems(u)
        case None => None
        case Some((xs, after)) => if SkipSpace(after) == [] then Some(xs) else None
  }

  // ---------------------------------------------------------------------
  // Round trip
  // ---------------------------------------------------------------------

  lemma {:induction false} ParseEscapedChar(c: char, t: string)
    ensures ParseStringBody(EscapeChar(c) + t) ==
      match ParseStringBody(t)
      case None => None
      case Some((u, after)) => Some(([c] + u, after))
  {
    var n := c as int;
    var s := EscapeChar(c) + t;
    if c == '"' || c == '\\' || n == 0x08 || n == 0x09 || n == 0x0A || n == 0x0C || n == 0x0D {
      assert s[1..][1..] == t;
    } else if n < 0x20 {
      var e := s[1..];
      assert e[1..][..4] == "00" + [LowerHex(n / 16), LowerHex(n % 16)];
      assert Hex4(e[1..]) == Some(n);
      assert e[5..] == t;
    } else {
      assert s[1..] == t;
    }
  }

  /** The body of a quoted string parses back to the string. */
  lemma {:induction false} ParseEscapedBody(x: string, rest: string)
    ensures ParseStringBody(EscapeBody(x) + "\"" + rest) == Some((x, rest))
  {
    if x == [] {
      assert EscapeBody(x) + "\"" + rest == "\"" + rest;
    } else {
      var tail := EscapeBody(x[1..]) + "\"" + rest;
      ParseEscapedBody(x[1..], rest);
      assert EscapeBody(x) + "\"" + rest == EscapeChar(x[0]) + tail;
      ParseEscapedChar(x[0], tail);
      assert [x[0]] + x[1..] == x;
    }
  }

  /** A quoted string parses back to the string, whatever follows it. */
  lemma QuotedItem(x: string, v: string)
    ensures (Quote(x) + v)[0] == '"'
    ensures ParseStringBody((Quote(x) + v)[1..]) == Some((x, v))
  {
    assert (Quote(x) + v)[1..] == EscapeBody(x) + "\"" + v;
    ParseEscapedBody(x, v);
  }

  /** What follows a quoted string decides how the items go on. */
  lemma ItemThen(x: string, v: string)
    ensures ParseItems(Quote(x) + v) ==
      var w := SkipSpace(v);
      if w == [] then None
      else if w[0] == ']' then Some(([x], w[1..]))
      else if w[0] == ',' then
        match ParseItems(SkipSpace(w[1..]))
        case None => None
        case Some((xs, after)) => Some(([x] + xs, after))
      else None
  {
    QuotedItem(x, v);
  }

  /** A text that starts with a bracket or comma has no space to skip. */
  lemma PunctuationThen(p: char, rest: string)
    requires p == ']' || p == ','
    ensures SkipSpace([p] + rest) == [p] + rest
    ensures ([p] + rest)[0] == p && ([p] + rest)[1..] == rest
  {
  }

  /** A quoted string followed by the closing bracket is the last item. */
  lemma LastItem(x: string, rest: string)
    ensures ParseItems(Quote(x) + ("]" + rest)) == Some(([x], rest))
  {
    PunctuationThen(']', rest);
    ItemThen(x, "]" + rest);
  }

  /** A quoted string followed by a comma is an item followed by more. */
  lemma NextItem(x: string, more: string)
    ensures ParseItems(Quote(x) + ("," + more)) ==
      match ParseItems(SkipSpace(more))
      case None => None
      case Some((xs, after)) => Some(([x] + xs, after))
  {
    PunctuationThen(',', more);
    ItemThen(x, "," + more);
  }

  lemma Regroup(a: string, b: string, c: string, d: string, e: string)
    ensures a + b + c + d + e == a + (b + (c + d + e))
  {
  }

  lemma JoinQuoted(xs: seq<string>)
    requires |xs| >= 2
    ensures Join(QuoteAll(xs), ",") == Quote(xs[0]) + "," + Join(QuoteAll(xs[1..]), ",")
  {
    var q := QuoteAll(xs);
    assert q[0] == Quote(xs[0]);
    assert q[1..] == QuoteAll(xs[1..]);
  }

  /** The items of a stringified array start with a quote. */
  lemma StartsQuoted(xs: seq<string>, rest: string)
    requires |xs| >= 1
    ensures SkipSpace(Join(QuoteAll(xs), ",") + "]" + rest) == Join(QuoteAll(xs), ",") + "]" + rest
  {
    var q := QuoteAll(xs);
    assert q[0] == Quote(xs[0]);
    assert Join(q, ",")[0] == '"';
  }

  lemma OneQuotedItem(xs: seq<string>, rest: string)
    requires |xs| == 1
    ensures ParseItems(Join(QuoteAll(xs), ",") + "]" + rest) == Some((xs, rest))
  {
    LastItem(xs[0], rest);
    assert QuoteAll(xs)[0] == Quote(xs[0]);
    assert Join(QuoteAll(xs), ",") == Quote(xs[0]);
    assert Quote(xs[0]) + "]" + rest == Quote(xs[0]) + ("]" + rest);
    assert xs == [xs[0]];
  }

  lemma {:induction false} ParseQuotedItems(xs: seq<string>, rest: string)
    requires |xs| >= 1
    ensures ParseItems(Join(QuoteAll(xs), ",") + "]" + rest) == Some((xs, rest))
  {
    if |xs| == 1 {
      OneQuotedItem(xs, rest);
    } else {
      var j := Join(QuoteAll(xs[1..]), ",");
      var more := j + "]" + rest;
      JoinQuoted(xs);
      Regroup(Quote(xs[0]), ",", j, "]", rest);
      NextItem(xs[0], more);
      StartsQuoted(xs[1..], rest);
      ParseQuotedItems(xs[1..], rest);
      assert [xs[0]] + xs[1..] == xs;
    }
  }

  /** What `StringifyArray` writes, `ParseStringArray` reads back. */
  lemma StringifyParse(xs: seq<string>)
    ensures ParseStringArray(StringifyArray(xs)) == Some(xs)
  {
    var s := StringifyArray(xs);
    assert s[1..] == Join(QuoteAll(xs), ",") + "]" + "";
    if xs == [] {
      assert s == "[]";
    } else {
      ParseQuotedItems(xs, "");
    }
  }

  // ---------------------------------------------------------------------
  // Malformed arrays
  // ---------------------------------------------------------------------

  /** Quoted items, joined by commas, start with a quote, so there is no
      space in front of them to skip. */
  lemma QuotedStart(xs: seq<string>, t: string)
    requires |xs| >= 1
    ensures SkipSpace(Join(QuoteAll(xs), ",") + t) == Join(QuoteAll(xs), ",") + t
    ensures (Join(QuoteAll(xs), ",") + t)[0] == '"'
  {
    var q := QuoteAll(xs);
    assert q[0] == Quote(xs[0]);
    assert Join(q, ",")[0] == '"';
  }

  /** An item followed by a comma is rejected when what follows the comma
      is rejected. */
  lemma RejectedAfterComma(x: string, more: string)
    requires more != [] && more[0] == '"' && ParseItems(more) == None
    ensures ParseItems(Quote(x) + ("," + more)) == None
  {
    NextItem(x, more);
    assert SkipSpace(more) == more;
  }

  /** Items that run to the end of the text, with no closing bracket, do not
      parse. */
  lemma {:induction false} UnclosedItems(xs: seq<string>)
    requires |xs| >= 1
    ensures ParseItems(Join(QuoteAll(xs), ",")) == None
  {
    if |xs| == 1 {
      assert QuoteAll(xs)[0] == Quote(xs[0]);
      assert Join(QuoteAll(xs), ",") == Quote(xs[0]) + "";
      ItemThen(xs[0], "");
    } else {
      var j := Join(QuoteAll(xs[1..]), ",");
      JoinQuoted(xs);
      assert Join(QuoteAll(xs), ",") == Quote(xs[0]) + ("," + j);
      QuotedStart(xs[1..], "");
      assert j + "" == j;
      UnclosedItems(xs[1..]);
      RejectedAfterComma(xs[0], j);
    }
  }

  /** One item followed by a comma and the closing bracket is rejected. */
  lemma TrailingCommaOne(x: string, rest: string)
    ensures ParseItems(Quote(x) + ("," + ("]" + rest))) == None
  {
    NextItem(x, "]" + rest);
    PunctuationThen(']', rest);
  }

  /** Items whose last one is followed by a comma and then the closing
      bracket do not parse. */
  lemma {:induction false} TrailingCommaItems(xs: seq<string>, rest: string)
    requires |xs| >= 1
    ensures ParseItems(Join(QuoteAll(xs), ",") + ("," + ("]" + rest))) == None
  {
    var tail := "," + ("]" + rest);
    if |xs| == 1 {
      SingleQuoted(xs);
      TrailingCommaOne(xs[0], rest);
    } else {
      var more := Join(QuoteAll(xs[1..]), ",") + tail;
      QuotedThenMore(xs, tail);
      TrailingCommaItems(xs[1..], rest);
      RejectedAfterComma(xs[0], more);
    }
  }

  lemma SingleQuoted(xs: seq<string>)
    requires |xs| == 1
    ensures Join(QuoteAll(xs), ",") == Quote(xs[0])
  {
    assert QuoteAll(xs)[0] == Quote(xs[0]);
  }

  /** Two or more quoted items and a tail: the first item, a comma, and the
      other items with the tail, which start with a quote. */
  lemma QuotedThenMore(xs: seq<string>, tail: string)
    requires |xs| >= 2
    ensures var more := Join(QuoteAll(xs[1..]), ",") + tail;
      && Join(QuoteAll(xs), ",") + tail == Quote(xs[0]) + ("," + more)
      && more != [] && more[0] == '"'
  {
    var j := Join(QuoteAll(xs[1..]), ",");
    JoinQuoted(xs);
    QuotedStart(xs[1..], tail);
    Regroup4(Quote(xs[0]), ",", j, tail);
  }

  lemma Regroup4(a: string, b: string, c: string, d: string)
    ensures a + b + c + d == a + (b + (c + d))
  {
  }

  /** After the opening bracket, items that start with a quote but do not
      parse make the whole array fail. */
  lemma ItemsRejected(u: string)
    requires u != [] && u[0] == '"' && ParseItems(u) == None
    ensures ParseStringArray("[" + u) == None
  {
    var s := "[" + u;
    assert s[0] == '[' && s[1..] == u;
    assert SkipSpace(s) == s;
    assert SkipSpace(u) == u;
  }

  /** `JSON.parse` rejects an array of strings that is never closed, as in
      `["a"`, and the stored list is then left alone. */
  lemma UnclosedRejected(xs: seq<string>)
    ensures ParseStringArray("[" + Join(QuoteAll(xs), ",")) == None
  {
    if xs == [] {
      assert "[" + Join(QuoteAll(xs), ",") == "[";
      assert "["[1..] == [];
    } else {
      QuotedStart(xs, "");
      assert Join(QuoteAll(xs), ",") + "" == Join(QuoteAll(xs), ",");
      UnclosedItems(xs);
      ItemsRejected(Join(QuoteAll(xs), ","));
    }
  }

  /** `JSON.parse` rejects an array of strings with a comma after its last
      item, as in `["a",]`. */
  lemma TrailingCommaRejected(xs: seq<string>)
    requires |xs| >= 1
    ensures ParseStringArray("[" + (Join(QuoteAll(xs), ",") + ",]")) == None
  {
    var u := Join(QuoteAll(xs), ",") + ",]";
    assert u == Join(QuoteAll(xs), ",") + ("," + ("]" + ""));
    QuotedStart(xs, "," + ("]" + ""));
    TrailingCommaItems(xs, "");
    ItemsRejected(u);
  }
}
