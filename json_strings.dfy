/**
 * The JSON text the search page writes to and reads from local storage:
 * `JSON.stringify` of an array of strings, and the part of `JSON.parse`
 * that reads such an array back.
 */
module JsonStrings {

  datatype Result<T> = Ok(value: T) | Err(message: string)

  // ---------------------------------------------------------------------
  // JSON.stringify

  /** The lower-case hexadecimal digit for `n`, as `JSON.stringify` writes it. */
  function HexDigit(n: nat): (c: char)
    requires n < 16
    ensures HexValue(c) == n as int
  {
    if n < 10 then (n + 48) as char else (n + 87) as char
  }

  /** The value of a hexadecimal digit of either case, or -1 for any other character. */
  function HexValue(c: char): int {
    if '0' <= c <= '9' then c as int - 48
    else if 'a' <= c <= 'f' then c as int - 87
    else if 'A' <= c <= 'F' then c as int - 55
    else -1
  }

  /** A character below U+0020 that has no two-character escape. */
  predicate NeedsUnicodeEscape(c: char) {
    (c as int) < 0x20 && c !in {'\U{8}', '\t', '\n', '\U{C}', '\r'}
  }

  /** How `JSON.stringify` writes one character inside a string literal. */
  function EscapeChar(c: char): string {
    if c == '"' then ['\\', '"']
    else if c == '\\' then ['\\', '\\']
    else if c == '\U{8}' then ['\\', 'b']
    else if c == '\t' then ['\\', 't']
    else if c == '\n' then ['\\', 'n']
    else if c == '\U{C}' then ['\\', 'f']
    else if c == '\r' then ['\\', 'r']
    else if NeedsUnicodeEscape(c) then ['\\', 'u', '0', '0', HexDigit(c as int / 16), HexDigit(c as int % 16)]
    else [c]
  }

  function EscapeString(x: string): string {
    if x == [] then [] else EscapeChar(x[0]) + EscapeString(x[1..])
  }

  /** `JSON.stringify(x)` for a string `x`. */
  function EncodeString(x: string): string {
    ['"'] + EscapeString(x) + ['"']
  }

  function EncodeItems(xs: seq<string>): string
    decreases |xs|
  {
    if xs == [] then []
    else if |xs| == 1 then EncodeString(xs[0])
    else EncodeString(xs[0]) + [','] + EncodeItems(xs[1..])
  }

  /** `JSON.stringify(xs)` for an array of strings: no whitespace between tokens. */
  function Encode(xs: seq<string>): (r: string)
    ensures |r| >= 2 && r[0] == '[' && r[|r| - 1] == ']'
    ensures xs == [] ==> r == "[]"
  {
    ['['] + EncodeItems(xs) + [']']
  }

  // ---------------------------------------------------------------------
  // JSON.parse, for a payload that is an array of strings

  /** The four characters JSON allows between tokens. */
  predicate IsJsonSpace(c: char) {
    c == ' ' || c == '\t' || c == '\n' || c == '\r'
  }

  function SkipSpace(s: string): (r: string)
    ensures |r| <= |s|
    ensures r != [] ==> !IsJsonSpace(r[0])
    ensures |s| > 0 && !IsJsonSpace(s[0]) ==> r == s
  {
    if |s| > 0 && IsJsonSpace(s[0]) then SkipSpace(s[1..]) else s
  }

  /** Reads the escape that follows a backslash; yields the character and what follows it. */
  function ParseEscape(s: string): (r: Result<(char, string)>)
    ensures r.Ok? ==> |r.value.1| < |s|
  {
    if |s| == 0 then Err("Unterminated string in JSON")
    else if s[0] == '"' then Ok(('"', s[1..]))
    else if s[0] == '\\' then Ok(('\\', s[1..]))
    else if s[0] == '/' then Ok(('/', s[1..]))
    else if s[0] == 'b' then Ok(('\U{8}', s[1..]))
    else if s[0] == 't' then Ok(('\t', s[1..]))
    else if s[0] == 'n' then Ok(('\n', s[1..]))
    else if s[0] == 'f' then Ok(('\U{C}', s[1..]))
    else if s[0] == 'r' then Ok(('\r', s[1..]))
    else if s[0] == 'u' && |s| >= 5 && HexValue(s[1]) >= 0 && HexValue(s[2]) >= 0
            && HexValue(s[3]) >= 0 && HexValue(s[4]) >= 0 then
      var n := HexValue(s[1]) * 4096 + HexValue(s[2]) * 256 + HexValue(s[3]) * 16 + HexValue(s[4]);
      if 0xD800 <= n < 0xE000 then Err("Surrogate escape")
      else Ok((n as char, s[5..]))
    else Err("Bad escaped character in JSON")
  }

  /** Reads the characters of a string literal up to and including its closing quote. */
  function ParseChars(s: string): (r: Result<(string, string)>)
    ensures r.Ok? ==> |r.value.1| < |s|
    decreases |s|
  {
    if |s| == 0 then Err("Unterminated string in JSON")
    else if s[0] == '"' then Ok(([], s[1..]))
    else if s[0] == '\\' then
      match ParseEscape(s[1..])
      case Err(m) => Err(m)
      case Ok((c, t)) =>
        match ParseChars(t)
        case Err(m) => Err(m)
        case Ok((x, u)) => Ok(([c] + x, u))
    else if (s[0] as int) < 0x20 then Err("Bad control character in string literal")
    else
      match ParseChars(s[1..])
      case Err(m) => Err(m)
      case Ok((x, u)) => Ok(([s[0]] + x, u))
  }

  function ParseString(s: string): (r: Result<(string, string)>)
    ensures r.Ok? ==> |r.value.1| < |s|
  {
    if |s| > 0 && s[0] == '"' then ParseChars(s[1..]) else Err("Expected a string")
  }

  /** Reads `string (, string)* ]` and yields the strings and what follows the `]`. */
  function ParseItems(s: string): (r: Result<(seq<string>, string)>)
    ensures r.Ok? ==> |r.value.1| < |s| && r.value.0 != []
    decreases |s|
  {
    match ParseString(s)
    case Err(m) => Err(m)
    case Ok((x, t)) =>
      var u := SkipSpace(t);
      if |u| > 0 && u[0] == ']' then Ok(([x], u[1..]))
      else if |u| > 0 && u[0] == ',' then
        match ParseItems(SkipSpace(u[1..]))
        case Err(m) => Err(m)
        case Ok((xs, w)) => Ok(([x] + xs, w))
      else Err("Expected ',' or ']'")
  }

  /** `JSON.parse(text)` when the payload is an array of strings; any other payload is an error. */
  function Decode(text: string): (r: Result<seq<string>>)
    ensures r.Ok? ==> |SkipSpace(text)| >= 2 && SkipSpace(text)[0] == '['
  {
    var s := SkipSpace(text);
    if |s| == 0 || s[0] != '[' then Err("Expected an array")
    else
      var t := SkipSpace(s[1..]);
      if |t| > 0 && t[0] == ']' then
        if SkipSpace(t[1..]) == [] then Ok([]) else Err("Unexpected non-whitespace after JSON")
      else
        match ParseItems(t)
        case Err(m) => Err(m)
        case Ok((xs, u)) => if SkipSpace(u) == [] then Ok(xs) else Err("Unexpected non-whitespace after JSON")
  }

  // ---------------------------------------------------------------------
  // Sequence facts, stated on abstract strings so that the proofs below
  // need not unfold the encoder to regroup a concatenation

  lemma Concat3(a: string, b: string, c: string)
    ensures a + b + c == a + (b + c)
  {
  }

  lemma Concat4(a: string, b: string, c: string, d: string)
    ensures a + b + c + d == a + (b + c + d)
    ensures a + b + c + d == a + (b + (c + d))
  {
  }

  lemma ConsSplit(c: char, t: string)
    ensures ([c] + t)[0] == c && ([c] + t)[1..] == t
  {
  }

  lemma HeadTail(a: string, t: string)
    requires a != []
    ensures (a + t)[0] == a[0] && (a + t)[1..] == a[1..] + t
  {
  }

  lemma ConsPrefix(c: char, t: string, m: nat)
    requires 1 <= m <= |t| + 1
    ensures ([c] + t)[..m] == [c] + t[..m - 1]
  {
  }

  lemma PrefixOfConcat(a: string, b: string, j: nat)
    requires j <= |a| + |b|
    ensures j <= |a| ==> (a + b)[..j] == a[..j]
    ensures j >= |a| ==> (a + b)[..j] == a + b[..j - |a|]
  {
  }

  /** An encoded string literal opens with a quote, and the body, closing quote and rest follow it. */
  lemma OpenQuote(body: string, rest: string)
    ensures (['"'] + body + ['"'] + rest)[0] == '"'
    ensures (['"'] + body + ['"'] + rest)[1..] == body + ['"'] + rest
  {
  }

  lemma QuotedPrefix(body: string, j: nat)
    requires 0 < j <= |body| + 1
    ensures (['"'] + body + ['"'])[..j][0] == '"'
    ensures (['"'] + body + ['"'])[..j][1..] == body[..j - 1]
  {
  }

  // ---------------------------------------------------------------------
  // What follows a string literal inside an array

  /** A string followed by `]` closes the array. */
  lemma ItemsAfterClose(s: string, x: string, rest: string)
    requires ParseString(s) == Ok((x, [']'] + rest))
    ensures ParseItems(s) == Ok(([x], rest))
  {
    ConsSplit(']', rest);
  }

  /** A string followed by `,` and another string literal: the array continues with that literal. */
  lemma ItemsAfterComma(s: string, x: string, tail: string)
    requires ParseString(s) == Ok((x, [','] + tail))
    requires |tail| > 0 && tail[0] == '"'
    ensures ParseItems(s) == match ParseItems(tail)
                             case Err(m) => Err(m)
                             case Ok((xs, w)) => Ok(([x] + xs, w))
  {
    ConsSplit(',', tail);
    assert SkipSpace(tail) == tail;
  }

  /** A string followed by nothing is an unclosed array. */
  lemma ItemsEndAfterString(s: string, x: string)
    requires ParseString(s) == Ok((x, []))
    ensures ParseItems(s).Err?
  {
    assert SkipSpace([]) == [];
  }

  /** A string followed by a `,` and nothing else is an unclosed array. */
  lemma ItemsEndAfterComma(s: string, x: string)
    requires ParseString(s) == Ok((x, [',']))
    ensures ParseItems(s).Err?
  {
    assert [','][1..] == [];
    assert SkipSpace([]) == [];
  }

  // ---------------------------------------------------------------------
  // Round trip: what the page stores is what it reads back

  lemma EscapeCharParses(c: char, rest: string)
    requires EscapeChar(c) != [c]
    ensures EscapeChar(c)[0] == '\\'
    ensures ParseEscape(EscapeChar(c)[1..] + rest) == Ok((c, rest))
  {
    var e := EscapeChar(c)[1..] + rest;
    if NeedsUnicodeEscape(c) && c != '"' && c != '\\' {
      var n := c as int;
      assert e[0] == 'u' && e[1] == '0' && e[2] == '0';
      assert HexValue(e[3]) == n / 16 && HexValue(e[4]) == n % 16;
      assert e[5..] == rest;
    } else {
      assert e[1..] == rest;
    }
  }

  /** One more encoded character in front of a parsable string body is read back as that character. */
  lemma ParseCharsStep(c: char, t: string, x: string, u: string)
    requires ParseChars(t) == Ok((x, u))
    ensures ParseChars(EscapeChar(c) + t) == Ok(([c] + x, u))
  {
    HeadTail(EscapeChar(c), t);
    if EscapeChar(c) != [c] {
      EscapeCharParses(c, t);
    }
  }

  lemma EscapeStringStep(x: string, rest: string)
    requires x != []
    requires ParseChars(EscapeString(x[1..]) + ['"'] + rest) == Ok((x[1..], rest))
    ensures ParseChars(EscapeString(x) + ['"'] + rest) == Ok((x, rest))
  {
    var e, b := EscapeChar(x[0]), EscapeString(x[1..]);
    assert EscapeString(x) == e + b;
    Concat4(e, b, ['"'], rest);
    ParseCharsStep(x[0], b + ['"'] + rest, x[1..], rest);
    assert [x[0]] + x[1..] == x;
  }

  lemma {:induction false} EscapeStringParses(x: string, rest: string)
    ensures ParseChars(EscapeString(x) + ['"'] + rest) == Ok((x, rest))
  {
    if x == [] {
      assert EscapeString(x) + ['"'] + rest == ['"'] + rest;
    } else {
      EscapeStringParses(x[1..], rest);
      EscapeStringStep(x, rest);
    }
  }

  lemma EncodeStringParses(x: string, rest: string)
    ensures ParseString(EncodeString(x) + rest) == Ok((x, rest))
  {
    OpenQuote(EscapeString(x), rest);
    EscapeStringParses(x, rest);
  }

  /** The encoded elements of a non-empty array open with a quote. */
  lemma EncodeItemsOpens(xs: seq<string>)
    requires xs != []
    ensures |EncodeItems(xs)| > 0 && EncodeItems(xs)[0] == '"'
  {
    var e := EncodeString(xs[0]);
    assert e[0] == '"';
    if |xs| > 1 {
      HeadTail(e, [','] + EncodeItems(xs[1..]));
      Concat3(e, [','], EncodeItems(xs[1..]));
    }
  }

  /** An encoded string followed by `]` closes the array. */
  lemma LastItemParses(x: string, rest: string)
    ensures ParseItems(EncodeString(x) + [']'] + rest) == Ok(([x], rest))
  {
    var e, u := EncodeString(x), [']'] + rest;
    EncodeStringParses(x, u);
    Concat3(e, [']'], rest);
    ItemsAfterClose(e + u, x, rest);
  }

  /** An encoded string followed by `,` and a parsable remainder is read in front of it. */
  lemma NextItemParses(x: string, tail: string, xs: seq<string>, rest: string)
    requires |tail| > 0 && tail[0] == '"'
    requires ParseItems(tail) == Ok((xs, rest))
    ensures ParseItems(EncodeString(x) + [','] + tail) == Ok(([x] + xs, rest))
  {
    var e, u := EncodeString(x), [','] + tail;
    EncodeStringParses(x, u);
    Concat3(e, [','], tail);
    ItemsAfterComma(e + u, x, tail);
  }

  lemma {:induction false} EncodeItemsParses(xs: seq<string>, rest: string)
    requires xs != []
    ensures ParseItems(EncodeItems(xs) + [']'] + rest) == Ok((xs, rest))
    decreases |xs|
  {
    if |xs| == 1 {
      LastItemParses(xs[0], rest);
      assert [xs[0]] == xs;
    } else {
      var e, i := EncodeString(xs[0]), EncodeItems(xs[1..]);
      var tail := i + [']'] + rest;
      EncodeItemsParses(xs[1..], rest);
      EncodeItemsOpens(xs[1..]);
      HeadTail(i, [']'] + rest);
      Concat3(i, [']'], rest);
      NextItemParses(xs[0], tail, xs[1..], rest);
      assert EncodeItems(xs) == e + [','] + i;
      Concat4(e + [','], i, [']'], rest);
      assert [xs[0]] + xs[1..] == xs;
    }
  }

  /** Reading back what `JSON.stringify` wrote yields the same array of strings. */
  lemma RoundTrip(xs: seq<string>)
    ensures Decode(Encode(xs)) == Ok(xs)
  {
    var s, body := Encode(xs), EncodeItems(xs) + [']'];
    Concat3(['['], EncodeItems(xs), [']']);
    ConsSplit('[', body);
    assert SkipSpace(s) == s && s[1..] == body;
    if xs == [] {
      assert body == [']'] && body[1..] == [];
      assert SkipSpace(body) == body;
    } else {
      EncodeItemsParses(xs, []);
      assert body + [] == body;
      EncodeItemsOpens(xs);
      HeadTail(EncodeItems(xs), [']']);
      assert SkipSpace(body) == body;
      assert SkipSpace([]) == [];
    }
  }

  // ---------------------------------------------------------------------
  // A payload cut short is rejected

  /** A string body that fails to parse still fails with one more encoded character in front. */
  lemma ParseCharsStepErr(c: char, t: string)
    requires ParseChars(t).Err?
    ensures ParseChars(EscapeChar(c) + t).Err?
  {
    HeadTail(EscapeChar(c), t);
    if EscapeChar(c) != [c] {
      EscapeCharParses(c, t);
    }
  }

  /** An escape sequence cut short is an error. */
  lemma EscapeCharPrefixRejected(c: char, j: nat)
    requires 0 < j < |EscapeChar(c)|
    ensures ParseChars(EscapeChar(c)[..j]).Err?
  {
    var e := EscapeChar(c);
    var p := e[..j];
    EscapeCharParses(c, []);
    if NeedsUnicodeEscape(c) && c != '"' && c != '\\' {
      assert |e| == 6 && e[1] == 'u';
    } else {
      assert |e| == 2;
    }
    assert p[0] == '\\' && p[1..] == e[1..j];
    assert ParseEscape(p[1..]).Err?;
  }

  /** Any prefix of an escaped string body, which lacks the closing quote, is an error. */
  lemma {:induction false} EscapeStringPrefixRejected(x: string, j: nat)
    requires j <= |EscapeString(x)|
    ensures ParseChars(EscapeString(x)[..j]).Err?
    decreases |x|
  {
    if j == 0 {
      assert EscapeString(x)[..j] == [];
    } else {
      assert x != [];
      var e, b := EscapeChar(x[0]), EscapeString(x[1..]);
      assert EscapeString(x) == e + b;
      PrefixOfConcat(e, b, j);
      if j < |e| {
        EscapeCharPrefixRejected(x[0], j);
      } else {
        EscapeStringPrefixRejected(x[1..], j - |e|);
        ParseCharsStepErr(x[0], b[..j - |e|]);
      }
    }
  }

  /** Any proper prefix of an encoded string is not a string literal. */
  lemma EncodeStringPrefixRejected(x: string, j: nat)
    requires j < |EncodeString(x)|
    ensures ParseString(EncodeString(x)[..j]).Err?
  {
    if j == 0 {
      assert EncodeString(x)[..j] == [];
    } else {
      QuotedPrefix(EscapeString(x), j);
      EscapeStringPrefixRejected(x, j - 1);
    }
  }

  /** The first element cut short, or not followed by anything, is an error. */
  lemma FirstItemCut(x: string, k: nat)
    requires k <= |EncodeString(x)|
    ensures ParseItems(EncodeString(x)[..k]).Err?
  {
    var e := EncodeString(x);
    if k < |e| {
      EncodeStringPrefixRejected(x, k);
    } else {
      assert e[..k] == e + [];
      EncodeStringParses(x, []);
      ItemsEndAfterString(e[..k], x);
    }
  }

  /** After an element and its comma, a remainder that is empty or fails makes the whole an error. */
  lemma AfterCommaCut(x: string, q: string)
    requires q == [] || (q[0] == '"' && ParseItems(q).Err?)
    ensures ParseItems(EncodeString(x) + [','] + q).Err?
  {
    var e, u := EncodeString(x), [','] + q;
    EncodeStringParses(x, u);
    Concat3(e, [','], q);
    if q == [] {
      assert u == [','];
      ItemsEndAfterComma(e + u, x);
    } else {
      ItemsAfterComma(e + u, x, q);
    }
  }

  /** Any prefix of the array's elements and closing `]` that stops before the `]` is an error. */
  lemma {:induction false} ItemsPrefixRejected(xs: seq<string>, k: nat)
    requires xs != [] && k <= |EncodeItems(xs)|
    ensures ParseItems((EncodeItems(xs) + [']'])[..k]).Err?
    decreases |xs|
  {
    var e := EncodeString(xs[0]);
    if |xs| == 1 {
      assert EncodeItems(xs) == e;
      PrefixOfConcat(e, [']'], k);
      FirstItemCut(xs[0], k);
    } else {
      var i := EncodeItems(xs[1..]);
      var r := [','] + (i + [']']);
      assert EncodeItems(xs) == e + [','] + i;
      Concat4(e, [','], i, [']']);
      PrefixOfConcat(e, r, k);
      if k <= |e| {
        FirstItemCut(xs[0], k);
      } else {
        ConsPrefix(',', i + [']'], k - |e|);
        var q := (i + [']'])[..k - |e| - 1];
        Concat3(e, [','], q);
        if q != [] {
          EncodeItemsOpens(xs[1..]);
          HeadTail(i, [']']);
          ItemsPrefixRejected(xs[1..], k - |e| - 1);
        }
        AfterCommaCut(xs[0], q);
      }
    }
  }

  /** A payload cut short, as a truncated write leaves it, is never read as an array. */
  lemma TruncatedPayloadRejected(xs: seq<string>, k: nat)
    requires k < |Encode(xs)|
    ensures Decode(Encode(xs)[..k]).Err?
  {
    if k == 0 {
      assert Encode(xs)[..k] == [];
    } else {
      var body := EncodeItems(xs) + [']'];
      Concat3(['['], EncodeItems(xs), [']']);
      ConsPrefix('[', body, k);
      var cut := body[..k - 1];
      ConsSplit('[', cut);
      var s := Encode(xs)[..k];
      assert s[0] == '[' && SkipSpace(s) == s && s[1..] == cut;
      if cut == [] {
        assert SkipSpace(cut) == [];
      } else {
        assert xs != [];
        EncodeItemsOpens(xs);
        HeadTail(EncodeItems(xs), [']']);
        assert SkipSpace(cut) == cut;
        ItemsPrefixRejected(xs, k - 1);
      }
    }
  }
}
