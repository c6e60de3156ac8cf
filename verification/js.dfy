/**
 The few JavaScript built-ins that the server handlers and the browser
 client rely on, stated as Dafny functions: truthiness of optional values,
 `Array.prototype.join`, `String.prototype.split` with a one-character
 separator, `String.prototype.trim`, and the decimal rendering of integers.

 A JavaScript string is modelled as a Dafny `string`, a sequence of Unicode
 scalar values.
 */
module Js {

  datatype Option<+T> = None | Some(value: T)

  /** The outcome of a call into a service outside the model: it either
      returns a value or throws. */
  datatype Outcome<+T> = Ok(value: T) | Err

  /** A JavaScript number: NaN or an integral value. */
  datatype Number = NaN | Num(value: int)

  /** `typeof x === "number" && !Number.isNaN(x)` */
  predicate IsNumeric(n: Number) {
    n.Num?
  }

  /** Truthiness of a number: NaN and 0 are falsy. */
  predicate NumberIsTruthy(n: Number) {
    n.Num? && n.value != 0
  }

  /** Truthiness of a value that is either absent (`undefined`/`null`) or a string. */
  predicate IsTruthy(x: Option<string>) {
    x.Some? && x.value != ""
  }

  /** `x || fallback` for a value that is either absent or a string. */
  function OrElse(x: Option<string>, fallback: string): (r: string)
    ensures IsTruthy(x) ==> r == x.value
    ensures !IsTruthy(x) ==> r == fallback
  {
    if IsTruthy(x) then x.value else fallback
  }

  // ---------------------------------------------------------------------
  // Array.prototype.join and String.prototype.split
  // ---------------------------------------------------------------------

  /** `parts.join(sep)`: the parts in order with `sep` between each two;
      `SplitJoinIdentity` and `JoinSplit` relate it to `Split`. */
  function Join(parts: seq<string>, sep: string): (r: string)
    ensures |parts| == 0 ==> r == ""
    ensures |parts| == 1 ==> r == parts[0]
  {
    if |parts| == 0 then ""
    else if |parts| == 1 then parts[0]
    else parts[0] + sep + Join(parts[1..], sep)
  }

  /** `s.split(c)` for a one-character separator `c`: the maximal pieces
      between occurrences of `c`, in order (one piece more than there are
      occurrences). */
  function Split(s: string, c: char): (r: seq<string>)
    ensures |r| >= 1
    ensures forall i :: 0 <= i < |r| ==> c !in r[i]
  {
    if s == [] then [""]
    else
      var rest := Split(s[1..], c);
      if s[0] == c then [""] + rest
      else [[s[0]] + rest[0]] + rest[1..]
  }

  lemma {:induction false} SplitWithoutSeparator(s: string, c: char)
    requires c !in s
    ensures Split(s, c) == [s]
  {
    if s != [] {
      SplitWithoutSeparator(s[1..], c);
      assert [s[0]] + s[1..] == s;
    }
  }

  /** A piece free of the separator, then the separator: the piece comes out
      first and the rest is split on its own. */
  lemma {:induction false} SplitAfterPiece(a: string, c: char, b: string)
    requires c !in a
    ensures Split(a + [c] + b, c) == [a] + Split(b, c)
  {
    if a == [] {
      assert a + [c] + b == [c] + b;
      assert ([c] + b)[1..] == b;
    } else {
      assert (a + [c] + b)[1..] == a[1..] + [c] + b;
      SplitAfterPiece(a[1..], c, b);
      assert [a[0]] + a[1..] == a;
    }
  }

  /** A separator-free text in front of a string extends its first piece. */
  lemma {:induction false} SplitWithPrefix(t: string, c: char, b: string)
    requires c !in t
    ensures Split(t + b, c) == [t + Split(b, c)[0]] + Split(b, c)[1..]
  {
    if t != [] {
      assert (t + b)[1..] == t[1..] + b;
      SplitWithPrefix(t[1..], c, b);
      assert [t[0]] + (t[1..] + Split(b, c)[0]) == t + Split(b, c)[0];
    } else {
      var r := Split(b, c);
      assert t + b == b && t + r[0] == r[0];
      assert r == [r[0]] + r[1..];
    }
  }

  /** Joining with a separator that starts with `c` and splitting on `c`
      gives back every item; all but the first still carry the rest `t` of
      the separator in front. */
  lemma {:induction false} SplitJoin(xs: seq<string>, c: char, t: string)
    requires |xs| >= 1
    requires c !in t
    requires forall i :: 0 <= i < |xs| ==> c !in xs[i]
    ensures |Split(Join(xs, [c] + t), c)| == |xs|
    ensures Split(Join(xs, [c] + t), c)[0] == xs[0]
    ensures forall i :: 1 <= i < |xs| ==> Split(Join(xs, [c] + t), c)[i] == t + xs[i]
  {
    var sep := [c] + t;
    if |xs| == 1 {
      SplitWithoutSeparator(xs[0], c);
    } else {
      var tail := Join(xs[1..], sep);
      SplitJoin(xs[1..], c, t);
      assert Join(xs, sep) == xs[0] + [c] + (t + tail);
      SplitAfterPiece(xs[0], c, t + tail);
      SplitWithPrefix(t, c, tail);
    }
  }

  /** The plain round trip: joining on `c` and splitting on `c` is the identity
      when no item contains `c`. */
  lemma SplitJoinIdentity(xs: seq<string>, c: char)
    requires |xs| >= 1
    requires forall i :: 0 <= i < |xs| ==> c !in xs[i]
    ensures Split(Join(xs, [c]), c) == xs
  {
    SplitJoin(xs, c, "");
    assert [c] + "" == [c];
    var r := Split(Join(xs, [c]), c);
    assert forall i :: 1 <= i < |xs| ==> r[i] == "" + xs[i] == xs[i];
  }

  /** And the other way round: joining the pieces of `s` gives `s` back. */
  lemma {:induction false} JoinSplit(s: string, c: char)
    ensures Join(Split(s, c), [c]) == s
  {
    if s != [] {
      var rest := Split(s[1..], c);
      JoinSplit(s[1..], c);
      if s[0] == c {
        assert Join([""] + rest, [c]) == "" + [c] + Join(rest, [c]);
      } else {
        var r := [[s[0]] + rest[0]] + rest[1..];
        if |rest| == 1 {
          assert Join(r, [c]) == [s[0]] + rest[0];
        } else {
          assert r[1..] == rest[1..];
          assert Join(rest, [c]) == rest[0] + [c] + Join(rest[1..], [c]);
        }
      }
    }
  }

  // ---------------------------------------------------------------------
  // String.prototype.trim
  // ---------------------------------------------------------------------

  /** The WhiteSpace and LineTerminator code points that `trim` removes
      (section 22.1.3.32 of ECMA-262 with its references to sections 12.2
      and 12.3). */
  predicate IsWhitespace(c: char) {
    var n := c as int;
    n == 0x09 || n == 0x0A || n == 0x0B || n == 0x0C || n == 0x0D || n == 0x20
    || n == 0xA0 || n == 0x1680 || (0x2000 <= n <= 0x200A) || n == 0x2028
    || n == 0x2029 || n == 0x202F || n == 0x205F || n == 0x3000 || n == 0xFEFF
  }

  predicate IsTrimmed(s: string) {
    s == [] || (!IsWhitespace(s[0]) && !IsWhitespace(s[|s| - 1]))
  }

  /** How many white-space characters `s` starts with. */
  function LeadingBlanks(s: string): (n: nat)
    ensures n <= |s|
    ensures forall k :: 0 <= k < n ==> IsWhitespace(s[k])
    ensures n < |s| ==> !IsWhitespace(s[n])
  {
    if s != [] && IsWhitespace(s[0]) then
      var n := 1 + LeadingBlanks(s[1..]);
      assert forall k :: 1 <= k < n ==> s[k] == s[1..][k - 1];
      n
    else 0
  }

  /** How many white-space characters `s` ends with. */
  function TrailingBlanks(s: string): (n: nat)
    ensures n <= |s|
    ensures forall k :: |s| - n <= k < |s| ==> IsWhitespace(s[k])
    ensures n < |s| ==> !IsWhitespace(s[|s| - n - 1])
  {
    if s != [] && IsWhitespace(s[|s| - 1]) then
      var n := 1 + TrailingBlanks(s[..|s| - 1]);
      assert forall k :: |s| - n <= k < |s| - 1 ==> s[k] == s[..|s| - 1][k];
      n
    else 0
  }

  /** `s.trim()`: `s` without its leading and trailing white space. */
  function Trim(s: string): (r: string)
    ensures IsTrimmed(r)
    ensures IsTrimmed(s) ==> r == s
  {
    var i := LeadingBlanks(s);
    if i == |s| then ""
    else
      var j := |s| - TrailingBlanks(s);
      assert i < j;
      s[i..j]
  }

  /** `trim` removes white space at both ends and nothing else: the result
      is the slice of `s` between a white-space prefix and a white-space
      suffix. */
  lemma TrimIsSlice(s: string)
    ensures LeadingBlanks(s) + |Trim(s)| <= |s|
    ensures Trim(s) == s[LeadingBlanks(s)..LeadingBlanks(s) + |Trim(s)|]
    ensures forall k :: 0 <= k < LeadingBlanks(s) ==> IsWhitespace(s[k])
    ensures forall k :: LeadingBlanks(s) + |Trim(s)| <= k < |s| ==> IsWhitespace(s[k])
  {
    var i := LeadingBlanks(s);
    if i < |s| {
      var j := |s| - TrailingBlanks(s);
      assert Trim(s) == s[i..j];
    }
  }

  /** What `trim` keeps is a run of the characters of `s`, and it keeps
      nothing exactly when `s` is all white space. */
  lemma TrimKeeps(s: string)
    ensures forall c :: c in Trim(s) ==> c in s
    ensures Trim(s) == [] <==> forall k :: 0 <= k < |s| ==> IsWhitespace(s[k])
  {
    var i := LeadingBlanks(s);
    if i < |s| {
      var j := |s| - TrailingBlanks(s);
      forall c | c in Trim(s)
        ensures c in s
      {
        var k :| 0 <= k < |Trim(s)| && Trim(s)[k] == c;
        assert s[i + k] == c;
      }
    }
  }

  /** Trimming never brings in a character that was not there. */
  lemma TrimWithout(s: string, c: char)
    requires c !in s
    ensures c !in Trim(s)
  {
    TrimKeeps(s);
  }

  /** Trimming a leading blank off a trimmed non-empty text gives it back. */
  lemma TrimAfterBlank(g: string)
    requires g != [] && IsTrimmed(g)
    ensures Trim(" " + g) == g
  {
    var s := " " + g;
    assert s[1..] == g;
    assert LeadingBlanks(s) == 1;
    assert s[|s| - 1] == g[|g| - 1];
    assert TrailingBlanks(s) == 0;
  }

  /** The value of a hexadecimal digit of either case. */
  function HexValue(c: char): (r: Option<nat>)
    ensures r.Some? ==> r.value < 16
  {
    if '0' <= c <= '9' then Some(c as int - '0' as int)
    else if 'A' <= c <= 'F' then Some(c as int - 'A' as int + 10)
    else if 'a' <= c <= 'f' then Some(c as int - 'a' as int + 10)
    else None
  }

  // ---------------------------------------------------------------------
  // Number rendering
  // ---------------------------------------------------------------------

  function DigitChar(d: nat): (c: char)
    requires d < 10
    ensures '0' <= c <= '9' && c as int - '0' as int == d
  {
    ['0', '1', '2', '3', '4', '5', '6', '7', '8', '9'][d]
  }

  function Digits(n: nat): (r: string)
    ensures r != []
    ensures forall k :: 0 <= k < |r| ==> '0' <= r[k] <= '9'
  {
    if n < 10 then [DigitChar(n)] else Digits(n / 10) + [DigitChar(n % 10)]
  }

  predicate AllDigits(s: string) {
    forall k :: 0 <= k < |s| ==> '0' <= s[k] <= '9'
  }

  /** The number a string of decimal digits denotes. */
  function DigitsValue(s: string): nat
    requires AllDigits(s)
  {
    if s == [] then 0 else DigitsValue(s[..|s| - 1]) * 10 + (s[|s| - 1] as int - '0' as int)
  }

  /** The digits of `n` read back as `n`, and they have no leading zero. */
  lemma {:induction false} DigitsRoundTrip(n: nat)
    ensures AllDigits(Digits(n)) && DigitsValue(Digits(n)) == n
    ensures Digits(n)[0] == '0' ==> n == 0
  {
    if n >= 10 {
      DigitsRoundTrip(n / 10);
      var d := Digits(n);
      assert d[..|d| - 1] == Digits(n / 10);
    }
  }

  /** `String(n)` for an integral number, in plain decimal: a minus sign
      exactly for a negative number, then the digits of its magnitude, with
      no leading zero. */
  function DecimalText(n: int): (r: string)
    ensures r != [] && (r[0] == '-' <==> n < 0)
    ensures var d := if n < 0 then r[1..] else r;
      && d != []
      && AllDigits(d)
      && DigitsValue(d) == (if n < 0 then -n else n)
      && (d[0] == '0' ==> n == 0)
  {
    DigitsRoundTrip(if n < 0 then -n else n);
    if n < 0 then "-" + Digits(-n) else Digits(n)
  }
}
