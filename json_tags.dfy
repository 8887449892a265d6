/**
 * The text form of a tag list in the `tags` column: Python's
 * `json.dumps(tags, ensure_ascii=False)` for a list of strings, and the
 * `json.loads` reading of that form. The encoder writes the canonical layout
 * (`["a", "b"]`, `[]`); the decoder accepts that layout with every escape
 * JSON allows inside a string.
 */
module JsonTags {
  import opened Wrappers

  const HexDigits: string := "0123456789abcdef"

  /**
   * The characters `json.dumps` writes for one character when `ensure_ascii`
   * is off: quote, backslash and the control characters below U+0020 are
   * escaped (the five with a short form by it, the rest as `\u00xx`),
   * everything else is written as it is.
   */
  function EscapeChar(c: char): (r: string)
    ensures |r| >= 1
    ensures Plain(c) <==> r == [c]
    ensures !Plain(c) ==> r[0] == '\\'
    ensures forall i :: 0 <= i < |r| ==> r[i] as int >= 0x20
  {
    var n := c as int;
    if c == '"' then ['\\', '"']
    else if c == '\\' then ['\\', '\\']
    else if n == 0x08 then ['\\', 'b']
    else if n == 0x0C then ['\\', 'f']
    else if c == '\n' then ['\\', 'n']
    else if c == '\r' then ['\\', 'r']
    else if c == '\t' then ['\\', 't']
    else if n < 0x20 then ['\\', 'u', '0', '0', HexDigits[n / 16], HexDigits[n % 16]]
    else [c]
  }

  /** A character `json.dumps` writes as it is. */
  predicate Plain(c: char) {
    c != '"' && c != '\\' && c as int >= 0x20
  }

  /** The body of a JSON string literal: every character escaped in turn. */
  function Escape(s: string): (r: string)
    ensures |r| >= |s|
  {
    if s == [] then []
    else
      EscapeChar(s[0]) + Escape(s[1..])
  }

  /** Text made only of plain characters is written as it is. */
  lemma {:induction false} EscapePlain(s: string)
    requires forall i :: 0 <= i < |s| ==> Plain(s[i])
    ensures Escape(s) == s
  {
    if s != [] {
      assert forall i :: 0 <= i < |s[1..]| ==> Plain(s[1..][i]) by {
        forall i | 0 <= i < |s[1..]| ensures Plain(s[1..][i]) {
          assert s[1..][i] == s[i + 1];
        }
      }
      EscapePlain(s[1..]);
      assert [s[0]] + s[1..] == s;
    }
  }

  /** No raw control character is left in an escaped text. */
  lemma {:induction false} EscapePrintable(s: string)
    ensures forall i :: 0 <= i < |Escape(s)| ==> Escape(s)[i] as int >= 0x20
  {
    if s != [] {
      EscapePrintable(s[1..]);
      var e := EscapeChar(s[0]);
      var rest := Escape(s[1..]);
      assert Escape(s) == e + rest;
      forall i | 0 <= i < |e + rest| ensures (e + rest)[i] as int >= 0x20 {
        if i >= |e| {
          assert (e + rest)[i] == rest[i - |e|];
        }
      }
    }
  }

  /** A JSON string literal: the escaped text between two quotes. */
  function Quote(s: string): (r: string)
    ensures |r| >= |s| + 2 && r[0] == '"' && r[|r| - 1] == '"'
  {
    ['"'] + Escape(s) + ['"']
  }

  function JoinQuoted(tags: seq<string>): (r: string)
    ensures tags != [] ==> |r| >= 2 && r[0] == '"'
  {
    if tags == [] then []
    else if |tags| == 1 then Quote(tags[0])
    else Quote(tags[0]) + [',', ' '] + JoinQuoted(tags[1..])
  }

  /** `json.dumps(tags, ensure_ascii=False)`: items separated by `", "`, inside brackets. */
  function EncodeTags(tags: seq<string>): (r: string)
    ensures |r| >= 2 && r[0] == '[' && r[|r| - 1] == ']'
  {
    ['['] + JoinQuoted(tags) + [']']
  }

  /** The value of one hexadecimal digit, either case, as `json.loads` reads it. */
  function HexValue(c: char): Option<nat> {
    if '0' <= c <= '9' then Some(c as int - '0' as int)
    else if 'a' <= c <= 'f' then Some(c as int - 'a' as int + 10)
    else if 'A' <= c <= 'F' then Some(c as int - 'A' as int + 10)
    else None
  }

  /** The character a `\uXXXX` escape names; a surrogate code unit is not decoded. */
  function Unicode4(a: char, b: char, c: char, d: char): Option<char> {
    match (HexValue(a), HexValue(b), HexValue(c), HexValue(d))
    case (Some(x), Some(y), Some(z), Some(w)) =>
      var n := ((x * 16 + y) * 16 + z) * 16 + w;
      if n < 0xD800 || 0xE000 <= n < 0x110000 then Some(n as char) else None
    case _ => None
  }

  /**
   * The character an escape stands for, read from what follows the
   * backslash, and how many characters after the backslash it takes.
   */
  function Unescape(s: string): (r: Option<(char, nat)>)
    ensures r.Some? ==> 1 <= r.value.1 <= |s|
  {
    if s == [] then None
    else if s[0] == '"' || s[0] == '\\' || s[0] == '/' then Some((s[0], 1))
    else if s[0] == 'b' then Some((8 as char, 1))
    else if s[0] == 'f' then Some((12 as char, 1))
    else if s[0] == 'n' then Some(('\n', 1))
    else if s[0] == 'r' then Some(('\r', 1))
    else if s[0] == 't' then Some(('\t', 1))
    else if s[0] == 'u' && |s| >= 5 then
      match Unicode4(s[1], s[2], s[3], s[4])
      case Some(c) => Some((c, 5))
      case None => None
    else None
  }

  /**
   * Reads the body of a string literal whose opening quote is already
   * consumed: the decoded text and what follows the closing quote. Raw
   * control characters are refused, as the strict decoder does.
   */
  function ParseChars(s: string): (r: Option<(string, string)>)
    ensures r.Some? ==> |r.value.1| < |s|
    decreases |s|
  {
    if s == [] then None
    else if s[0] == '"' then Some(([], s[1..]))
    else if s[0] == '\\' then
      match Unescape(s[1..])
      case None => None
      case Some((c, k)) =>
        match ParseChars(s[1 + k..])
        case None => None
        case Some((t, rest)) => Some(([c] + t, rest))
    else if (s[0] as int) < 0x20 then None
    else
      match ParseChars(s[1..])
      case None => None
      case Some((t, rest)) => Some(([s[0]] + t, rest))
  }

  /** Reads `"…", "…", …]`: one or more string literals separated by `", "`, then the closing bracket. */
  function DecodeItems(s: string): Option<seq<string>>
    decreases |s|
  {
    if s == [] || s[0] != '"' then None
    else
      match ParseChars(s[1..])
      case None => None
      case Some((t, rest)) =>
        if rest == [']'] then Some([t])
        else if |rest| >= 2 && rest[0] == ',' && rest[1] == ' ' then
          match DecodeItems(rest[2..])
          case None => None
          case Some(ts) => Some([t] + ts)
        else None
  }

  /** `json.loads` of a list of strings in the layout `json.dumps` writes; `None` where it would raise. */
  function DecodeTags(s: string): (r: Option<seq<string>>)
    ensures r.Some? ==> |s| >= 2 && s[0] == '[' && s[|s| - 1] == ']'
    ensures r == Some([]) <==> s == ['[', ']']
  {
    DecodeItemsShape(if s == [] then [] else s[1..]);
    if s == ['[', ']'] then Some([])
    else if |s| >= 1 && s[0] == '[' then DecodeItems(s[1..])
    else None
  }

  /** What follows a string literal is the end of the text it was read from. */
  lemma {:induction false} ParseCharsSuffix(s: string)
    ensures var r := ParseChars(s); r.Some? ==> r.value.1 == s[|s| - |r.value.1|..]
    decreases |s|
  {
    if s != [] && s[0] == '\\' {
      match Unescape(s[1..])
      case None =>
      case Some((c, k)) =>
        ParseCharsSuffix(s[1 + k..]);
    } else if s != [] && s[0] != '"' {
      ParseCharsSuffix(s[1..]);
    }
  }

  /** A list that decodes holds at least one literal and ends with the closing bracket. */
  lemma {:induction false} DecodeItemsShape(s: string)
    ensures var r := DecodeItems(s); r.Some? ==> |r.value| >= 1 && |s| >= 2 && s[0] == '"' && s[|s| - 1] == ']'
    decreases |s|
  {
    if s != [] && s[0] == '"' {
      ParseCharsSuffix(s[1..]);
      match ParseChars(s[1..])
      case None =>
      case Some((t, rest)) =>
        if rest != [']'] && |rest| >= 2 && rest[0] == ',' && rest[1] == ' ' {
          DecodeItemsShape(rest[2..]);
        }
    }
  }

  /** The digits of a `\u00xx` escape read back to the character they encode. */
  lemma HexEscapeReads(c: char)
    requires c as int < 0x20
    ensures Unicode4('0', '0', HexDigits[c as int / 16], HexDigits[c as int % 16]) == Some(c)
  {
    var n := c as int;
    assert HexValue(HexDigits[n / 16]) == Some(n / 16);
    assert HexValue(HexDigits[n % 16]) == Some(n % 16);
  }

  /** One escaped character is read back, and reading continues right after it. */
  lemma ParseEscapeChar(c: char, tail: string)
    ensures ParseChars(EscapeChar(c) + tail) ==
      match ParseChars(tail)
      case None => None
      case Some((t, rest)) => Some(([c] + t, rest))
  {
    var e := EscapeChar(c);
    var s := e + tail;
    if Plain(c) {
      assert s[0] == c && s[1..] == tail;
    } else {
      assert s[0] == '\\';
      var k := UnescapeOf(c, tail);
      assert s[1..] == e[1..] + tail;
      assert s[1 + k..] == tail;
    }
  }

  /** The escape written for a character is read back to it, and takes all of the escape. */
  lemma UnescapeOf(c: char, tail: string) returns (k: nat)
    requires !Plain(c)
    ensures k == |EscapeChar(c)| - 1
    ensures Unescape(EscapeChar(c)[1..] + tail) == Some((c, k))
  {
    var e := EscapeChar(c);
    var u := e[1..] + tail;
    k := |e| - 1;
    if |e| == 2 {
      assert u[0] == e[1];
    } else {
      HexEscapeReads(c);
      assert u[..5] == e[1..];
    }
  }

  /** A quoted string's body is read back to the original text. */
  lemma {:induction false} ParseEscaped(t: string, rest: string)
    ensures ParseChars(Escape(t) + ['"'] + rest) == Some((t, rest))
  {
    if t == [] {
      assert Escape(t) + ['"'] + rest == ['"'] + rest;
    } else {
      var head, body := EscapeChar(t[0]), Escape(t[1..]);
      assert Escape(t) == head + body;
      Regroup(head, body, ['"'], rest);
      ParseEscaped(t[1..], rest);
      ParseEscapeChar(t[0], body + ['"'] + rest);
      assert [t[0]] + t[1..] == t;
    }
  }

  lemma Regroup(a: string, b: string, c: string, d: string)
    ensures a + b + c + d == a + (b + c + d)
  {
  }

  /** The first literal is read, then decoding continues after its separator or stops at the bracket. */
  lemma DecodeFirstItem(t: string, rest: string)
    ensures DecodeItems(['"'] + (Escape(t) + ['"'] + rest)) ==
      if rest == [']'] then Some([t])
      else if |rest| >= 2 && rest[0] == ',' && rest[1] == ' ' then
        match DecodeItems(rest[2..])
        case None => None
        case Some(ts) => Some([t] + ts)
      else None
  {
    var s := ['"'] + (Escape(t) + ['"'] + rest);
    assert s[1..] == Escape(t) + ['"'] + rest;
    ParseEscaped(t, rest);
  }

  lemma JoinQuotedShape(tags: seq<string>)
    requires |tags| > 1
    ensures JoinQuoted(tags) + [']'] == ['"'] + (Escape(tags[0]) + ['"'] + ([',', ' '] + (JoinQuoted(tags[1..]) + [']'])))
  {
    var e := Escape(tags[0]);
    var j := JoinQuoted(tags[1..]);
    assert JoinQuoted(tags) == Quote(tags[0]) + [',', ' '] + j;
    Reassociate(e, j);
  }

  lemma Reassociate(e: string, j: string)
    ensures ['"'] + e + ['"'] + [',', ' '] + j + [']'] == ['"'] + (e + ['"'] + ([',', ' '] + (j + [']'])))
  {
  }

  lemma {:induction false} DecodeJoined(tags: seq<string>)
    requires tags != []
    ensures DecodeItems(JoinQuoted(tags) + [']']) == Some(tags)
  {
    var t := tags[0];
    var rest := if |tags| == 1 then [']'] else [',', ' '] + (JoinQuoted(tags[1..]) + [']']);
    if |tags| > 1 {
      JoinQuotedShape(tags);
      DecodeFirstItem(t, rest);
      assert rest[2..] == JoinQuoted(tags[1..]) + [']'];
      DecodeJoined(tags[1..]);
      assert [t] + tags[1..] == tags;
    } else {
      assert JoinQuoted(tags) + [']'] == ['"'] + (Escape(t) + ['"'] + rest);
      DecodeFirstItem(t, rest);
      assert tags == [t];
    }
  }

  /** Decoding what the encoder wrote gives back the original list, the empty list included. */
  lemma DecodeEncode(tags: seq<string>)
    ensures DecodeTags(EncodeTags(tags)) == Some(tags)
  {
    var s := EncodeTags(tags);
    if tags == [] {
      assert s == ['[', ']'];
    } else {
      assert |s| > 2 && s[1..] == JoinQuoted(tags) + [']'];
      DecodeJoined(tags);
    }
  }
}
