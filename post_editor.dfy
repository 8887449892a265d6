/**
 * The post editor form: its state (`formData`), the prefill from the post
 * being edited, the per-input change handler, and the submit handler that
 * validates the form and normalises it into a payload.
 */
module PostEditor {
  import opened Wrappers
  import opened Strings
  import opened BlogTypes

  /** The form state; `tags` is the comma-separated text of the tags input. */
  datatype FormData = FormData(
    title: string,
    excerpt: string,
    content: string,
    author: string,
    date: string,
    coverImage: string,
    tags: string,
    readTime: int)

  /** The `name` attribute of the input a change comes from. */
  datatype Field = Title | Excerpt | Content | Author | Date | CoverImage | Tags | ReadTime

  const AnonymousAuthor: string := "匿名"
  const DefaultCoverImage: string :=
    "https://images.unsplash.com/photo-1499750310107-5fef28a66643?w=800&h=400&fit=crop"
  /** Characters of content taken into a derived excerpt. */
  const ExcerptLength: nat := 100
  /** Characters of content counted as one minute of reading. */
  const CharsPerMinute: nat := 500
  const Ellipsis: string := "..."
  /** The separator the prefill puts between tags. */
  const TagSeparator: string := ", "

  lemma AnonymousTrimmed()
    ensures AnonymousAuthor != "" && IsTrimmed(AnonymousAuthor)
  {
    assert AnonymousAuthor[0] as int == 0x533F;
    assert AnonymousAuthor[1] as int == 0x540D;
  }

  /** The empty form of a new post, dated `today`, with a read time of 5. */
  function InitialForm(today: string): (r: FormData)
    ensures r.date == today && r.readTime == 5
    ensures r.title == "" && r.content == "" && r.tags == ""
    ensures HandleSubmit(r).None?
  {
    FormData("", "", "", "", today, "", "", 5)
  }

  /** The form filled from the post being edited; the tags are joined with `", "`. */
  function PrefillForm(post: BlogPost): (r: FormData)
    ensures r.title == post.title && r.excerpt == post.excerpt && r.content == post.content
    ensures r.author == post.author && r.date == post.date && r.coverImage == post.coverImage
    ensures r.readTime == post.readTime
    ensures CanonicalTags(post.tags) ==> ParseTags(r.tags) == post.tags
  {
    assert CanonicalTags(post.tags) ==> ParseTags(Join(post.tags, TagSeparator)) == post.tags by {
      if CanonicalTags(post.tags) {
        TagsRoundTrip(post.tags);
      }
    }
    FormData(post.title, post.excerpt, post.content, post.author, post.date, post.coverImage,
             Join(post.tags, TagSeparator), post.readTime)
  }

  // ---------------------------------------------------------------------------
  // Tags: split on commas, trim every piece, drop the empty ones.

  /** `.map(t => t.trim()).filter(Boolean)`: every piece trimmed, the empty ones dropped, in order. */
  function TrimAndDrop(pieces: seq<string>): (r: seq<string>)
    ensures |r| <= |pieces|
    ensures forall i :: 0 <= i < |r| ==> r[i] != "" && IsTrimmed(r[i])
  {
    if pieces == [] then []
    else
      var t := Trim(pieces[0]);
      var rest := TrimAndDrop(pieces[1..]);
      if t == "" then rest
      else
        ConsTags(t, rest);
        [t] + rest
  }

  lemma ConsTags(t: string, rest: seq<string>)
    requires t != "" && IsTrimmed(t)
    requires forall i :: 0 <= i < |rest| ==> rest[i] != "" && IsTrimmed(rest[i])
    ensures forall i :: 0 <= i < |[t] + rest| ==> ([t] + rest)[i] != "" && IsTrimmed(([t] + rest)[i])
  {
    forall i | 0 <= i < |[t] + rest|
      ensures ([t] + rest)[i] != "" && IsTrimmed(([t] + rest)[i])
    {
      if i > 0 {
        assert ([t] + rest)[i] == rest[i - 1];
      }
    }
  }

  /** The pieces of a concatenation are trimmed and filtered each in turn. */
  lemma {:induction false} TrimAndDropConcat(a: seq<string>, b: seq<string>)
    ensures TrimAndDrop(a + b) == TrimAndDrop(a) + TrimAndDrop(b)
  {
    if a != [] {
      var ab := a + b;
      assert ab != [] && ab[0] == a[0] && ab[1..] == a[1..] + b;
      TrimAndDropConcat(a[1..], b);
      var t := Trim(a[0]);
      if t != "" {
        assert TrimAndDrop(ab) == [t] + TrimAndDrop(a[1..] + b);
        assert TrimAndDrop(a) == [t] + TrimAndDrop(a[1..]);
      }
    } else {
      assert a + b == b;
    }
  }

  /** One piece gives its trimmed text, or nothing when that is empty. */
  lemma TrimAndDropOne(piece: string)
    ensures TrimAndDrop([piece]) == if Trim(piece) == "" then [] else [Trim(piece)]
  {
    assert [piece][1..] == [];
  }

  /** A tag list the tags input can hold: no empty tag, no surrounding whitespace, no comma. */
  predicate CanonicalTags(tags: seq<string>) {
    forall i :: 0 <= i < |tags| ==> tags[i] != "" && IsTrimmed(tags[i]) && ',' !in tags[i]
  }

  /** `tags.split(',').map(t => t.trim()).filter(Boolean)`. */
  function ParseTags(s: string): (r: seq<string>)
    ensures CanonicalTags(r)
  {
    var pieces := Split(s, ',');
    TrimAndDropKeepsOut(pieces, ',');
    TrimAndDrop(pieces)
  }

  /** Trimming only removes characters: one absent before is absent after. */
  lemma TrimKeepsOut(s: string, c: char)
    requires c !in s
    ensures c !in Trim(s)
  {
    var t := TrimStart(s);
    var r := TrimEnd(t);
    forall k | 0 <= k < |r| ensures r[k] != c {
      assert r[k] == t[k] == s[|s| - |t| + k];
    }
  }

  lemma {:induction false} TrimAndDropKeepsOut(pieces: seq<string>, c: char)
    requires forall i :: 0 <= i < |pieces| ==> c !in pieces[i]
    ensures forall i :: 0 <= i < |TrimAndDrop(pieces)| ==> c !in TrimAndDrop(pieces)[i]
  {
    if pieces != [] {
      var t := Trim(pieces[0]);
      var rest := TrimAndDrop(pieces[1..]);
      TrimAndDropKeepsOut(pieces[1..], c);
      if t != "" {
        TrimKeepsOut(pieces[0], c);
        var r := [t] + rest;
        forall i | 0 <= i < |r| ensures c !in r[i] {
          if i > 0 {
            assert r[i] == rest[i - 1];
          }
        }
      }
    }
  }

  /** Pieces that trim to non-empty tags give exactly those tags. */
  lemma {:induction false} TrimAndDropTo(pieces: seq<string>, tags: seq<string>)
    requires |pieces| == |tags|
    requires forall i :: 0 <= i < |tags| ==> tags[i] != "" && Trim(pieces[i]) == tags[i]
    ensures TrimAndDrop(pieces) == tags
  {
    if pieces != [] {
      TrimAndDropTo(pieces[1..], tags[1..]);
      assert [tags[0]] + tags[1..] == tags;
    }
  }

  /** `[t0, " " + t1, " " + t2, …]`: what splitting a `", "`-joined list on commas gives. */
  function SpaceLed(tags: seq<string>): (r: seq<string>)
    requires tags != []
    ensures |r| == |tags| && r[0] == tags[0]
    ensures forall i :: 1 <= i < |r| ==> r[i] == [' '] + tags[i]
  {
    [tags[0]] + seq(|tags| - 1, i requires 0 <= i < |tags| - 1 => [' '] + tags[i + 1])
  }

  /** Splitting a `", "`-joined list on commas gives the tags, each after the first led by a space. */
  lemma {:induction false} SplitJoined(tags: seq<string>)
    requires tags != []
    requires forall i :: 0 <= i < |tags| ==> ',' !in tags[i]
    ensures Split(Join(tags, TagSeparator), ',') == SpaceLed(tags)
  {
    if |tags| == 1 {
      SplitNoSep(tags[0], ',');
    } else {
      var rest := tags[1..];
      var j := Join(rest, TagSeparator);
      JoinedTags(tags);
      SplitAfter(tags[0], [' '] + j, ',');
      SplitJoined(rest);
      SplitCons(' ', j, ',');
      SpaceLedCons(tags);
    }
  }

  lemma JoinedTags(tags: seq<string>)
    requires |tags| > 1
    ensures Join(tags, TagSeparator) == tags[0] + [','] + ([' '] + Join(tags[1..], TagSeparator))
  {
  }

  lemma SpaceLedCons(tags: seq<string>)
    requires |tags| > 1
    ensures SpaceLed(tags) == [tags[0]] + ([[' '] + tags[1]] + SpaceLed(tags[1..])[1..])
  {
  }

  /** Prefilling the tags input and submitting it gives back the same tag list. */
  lemma TagsRoundTrip(tags: seq<string>)
    requires CanonicalTags(tags)
    ensures ParseTags(Join(tags, TagSeparator)) == tags
  {
    if tags == [] {
      NoTags();
    } else {
      SplitJoined(tags);
      var led := SpaceLed(tags);
      forall i | 0 <= i < |tags| ensures Trim(led[i]) == tags[i] {
        if i == 0 {
          TrimTrimmed(tags[0]);
        } else {
          TrimSurrounded([' '], tags[i], []);
          assert [' '] + tags[i] + [] == led[i];
        }
      }
      TrimAndDropTo(led, tags);
      assert ParseTags(Join(tags, TagSeparator)) == TrimAndDrop(led);
    }
  }

  /** A blank piece between commas is dropped and the others are trimmed, in order. */
  lemma ParseTagsExample()
    ensures ParseTags("a, b, ,c") == ["a", "b", "c"]
  {
    SplitExample();
    TrimAndDropExample();
  }

  lemma SplitExample()
    ensures Split("a, b, ,c", ',') == ["a", " b", " ", "c"]
  {
    assert "a, b, ,c" == "a" + [','] + (" b" + [','] + (" " + [','] + "c"));
    SplitFour("a", " b", " ", "c", ',');
  }

  /** Four separator-free pieces joined by the separator split back into them. */
  lemma SplitFour(p0: string, p1: string, p2: string, p3: string, sep: char)
    requires sep !in p0 && sep !in p1 && sep !in p2 && sep !in p3
    ensures Split(p0 + [sep] + (p1 + [sep] + (p2 + [sep] + p3)), sep) == [p0, p1, p2, p3]
  {
    SplitNoSep(p3, sep);
    SplitAfter(p2, p3, sep);
    SplitAfter(p1, p2 + [sep] + p3, sep);
    SplitAfter(p0, p1 + [sep] + (p2 + [sep] + p3), sep);
  }

  lemma TrimAndDropExample()
    ensures TrimAndDrop(["a", " b", " ", "c"]) == ["a", "b", "c"]
  {
    TrimExamples();
    TrimAndDropOne("a");
    TrimAndDropOne(" b");
    TrimAndDropOne(" ");
    TrimAndDropOne("c");
    FourOfFour("a", " b", " ", "c");
    DropThirdPiece(["a"], [" b"], [" "], ["c"], "a", "b", "c");
  }

  /** Four runs of pieces, the third giving no tags: the other three's tags, in order. */
  lemma DropThirdPiece(a: seq<string>, b: seq<string>, c: seq<string>, d: seq<string>,
                       t0: string, t1: string, t3: string)
    requires TrimAndDrop(a) == [t0] && TrimAndDrop(b) == [t1]
    requires TrimAndDrop(c) == [] && TrimAndDrop(d) == [t3]
    ensures TrimAndDrop(a + b + c + d) == [t0, t1, t3]
  {
    var ab := a + b;
    TrimAndDropConcat(a, b);
    var abc := ab + c;
    TrimAndDropConcat(ab, c);
    TrimAndDropConcat(abc, d);
    ThreeOfFour(t0, t1, t3);
  }

  lemma FourOfFour(w: string, x: string, y: string, z: string)
    ensures [w, x, y, z] == [w] + [x] + [y] + [z]
  {
  }

  lemma ThreeOfFour(x: string, y: string, z: string)
    ensures [x] + [y] + [] + [z] == [x, y, z]
  {
  }

  lemma TrimExamples()
    ensures Trim("a") == "a" && Trim(" b") == "b" && Trim(" ") == "" && Trim("c") == "c"
  {
    TrimA();
    TrimC();
    TrimLedByBlank();
    TrimBlank();
  }

  lemma TrimA() ensures Trim("a") == "a" { TrimTrimmed("a"); }
  lemma TrimC() ensures Trim("c") == "c" { TrimTrimmed("c"); }
  lemma TrimBlank() ensures Trim(" ") == "" { assert AllSpace(" "); }

  lemma TrimLedByBlank()
    ensures Trim(" b") == "b"
  {
    var b := ['b'];
    var blank := [' '];
    assert " b" == blank + b + [];
    assert AllSpace(blank) && IsTrimmed(b);
    TrimSurrounded(blank, b, []);
  }

  /** An empty tags input gives no tags. */
  lemma NoTags()
    ensures ParseTags("") == []
  {
    assert Split("", ',') == [""];
    assert Trim("") == "";
    assert TrimAndDrop([""]) == [] + TrimAndDrop([]);
  }

  // ---------------------------------------------------------------------------
  // Read time: `parseInt(value) || 0` on input, `ceil(length / 500)` when zero on submit.

  /** The value of a digit in radix 10 or 16, if the character is one. */
  function DigitValue(c: char, radix: nat): Option<nat>
    requires radix == 10 || radix == 16
    ensures DigitValue(c, radix).Some? ==> DigitValue(c, radix).value < radix
  {
    if '0' <= c <= '9' then Some(c as int - '0' as int)
    else if radix == 16 && 'a' <= c <= 'f' then Some(c as int - 'a' as int + 10)
    else if radix == 16 && 'A' <= c <= 'F' then Some(c as int - 'A' as int + 10)
    else None
  }

  predicate AllDigits(s: string, radix: nat)
    requires radix == 10 || radix == 16
  {
    forall i :: 0 <= i < |s| ==> DigitValue(s[i], radix).Some?
  }

  /** How many characters at the front of `s` are digits. */
  function DigitRun(s: string, radix: nat): (n: nat)
    requires radix == 10 || radix == 16
    ensures n <= |s| && AllDigits(s[..n], radix)
    ensures n < |s| ==> DigitValue(s[n], radix).None?
  {
    if s == [] || DigitValue(s[0], radix).None? then 0
    else 1 + DigitRun(s[1..], radix)
  }

  /** The number a run of digits denotes, most significant first. */
  function DigitsValue(s: string, radix: nat): nat
    requires radix == 10 || radix == 16
    requires AllDigits(s, radix)
  {
    if s == [] then 0
    else DigitsValue(s[..|s| - 1], radix) * radix + DigitValue(s[|s| - 1], radix).value
  }

  /**
   * The unsigned part of `parseInt`: `0x`/`0X` selects hexadecimal, and the
   * longest run of digits that follows is the value; no digit at all is `None`.
   */
  function ParseMagnitude(u: string): (r: Option<int>)
    ensures r.Some? ==> r.value >= 0
    ensures !HexPrefixed(u) ==> (r.None? <==> u == [] || !('0' <= u[0] <= '9'))
    ensures HexPrefixed(u) ==> (r.None? <==> |u| == 2 || DigitValue(u[2], 16).None?)
    ensures r.Some? ==>
      var radix := if HexPrefixed(u) then 16 else 10;
      var digits := if HexPrefixed(u) then u[2..] else u;
      r.value == DigitsValue(digits[..DigitRun(digits, radix)], radix)
  {
    var hex := HexPrefixed(u);
    var radix := if hex then 16 else 10;
    var digits := if hex then u[2..] else u;
    var n := DigitRun(digits, radix);
    if n == 0 then None else Some(DigitsValue(digits[..n], radix))
  }

  /** `0x` or `0X` leads the text. */
  predicate HexPrefixed(u: string) {
    |u| >= 2 && u[0] == '0' && (u[1] == 'x' || u[1] == 'X')
  }

  /** A minus sign leads the text. */
  function Negative(t: string): bool {
    t != [] && t[0] == '-'
  }

  /** The text after a leading sign, if there is one. */
  function Unsigned(t: string): string {
    if t != [] && (t[0] == '-' || t[0] == '+') then t[1..] else t
  }

  /**
   * JavaScript `parseInt(s)` with no radix: leading whitespace is skipped, a
   * sign is read, then the magnitude; no digit at all is `NaN` (`None`).
   */
  function ParseInt(s: string): (r: Option<int>)
    ensures var u := Unsigned(TrimStart(s));
      && (!HexPrefixed(u) ==> (r.None? <==> u == [] || !('0' <= u[0] <= '9')))
      && (HexPrefixed(u) ==> (r.None? <==> |u| == 2 || DigitValue(u[2], 16).None?))
    ensures r.Some? ==>
      ParseMagnitude(Unsigned(TrimStart(s))) == Some(if Negative(TrimStart(s)) then -r.value else r.value)
    ensures r.Some? && Negative(TrimStart(s)) ==> r.value <= 0
    ensures r.Some? && !Negative(TrimStart(s)) ==> r.value >= 0
  {
    var t := TrimStart(s);
    match ParseMagnitude(Unsigned(t))
    case None => None
    case Some(v) => Some(if Negative(t) then -v else v)
  }

  /** The digit run stops at the first character that is not a digit. */
  lemma {:induction false} DigitRunStops(d: string, rest: string, radix: nat)
    requires radix == 10 || radix == 16
    requires AllDigits(d, radix) && (rest == [] || DigitValue(rest[0], radix).None?)
    ensures DigitRun(d + rest, radix) == |d|
  {
    if d != [] {
      assert (d + rest)[0] == d[0] && (d + rest)[1..] == d[1..] + rest;
      DigitRunStops(d[1..], rest, radix);
    } else {
      assert d + rest == rest;
    }
  }

  /** Decimal digits followed by anything else read as those digits' value. */
  lemma DecimalPrefix(d: string, rest: string)
    requires d != [] && AllDigits(d, 10) && (rest == [] || DigitValue(rest[0], 10).None?)
    requires !HexPrefixed(d + rest)
    ensures ParseMagnitude(d + rest) == Some(DigitsValue(d, 10))
  {
    DigitRunStops(d, rest, 10);
    assert (d + rest)[..|d|] == d;
  }

  /** `0x` and hexadecimal digits followed by anything else read as those digits' value. */
  lemma HexPrefix(x: char, h: string, rest: string)
    requires x == 'x' || x == 'X'
    requires h != [] && AllDigits(h, 16) && (rest == [] || DigitValue(rest[0], 16).None?)
    ensures ParseMagnitude(['0', x] + h + rest) == Some(DigitsValue(h, 16))
  {
    var u := ['0', x] + h + rest;
    assert HexPrefixed(u) && u[2..] == h + rest;
    DigitRunStops(h, rest, 16);
    assert (h + rest)[..|h|] == h;
  }

  /** Blanks, then decimal digits, then anything else: the digits' value. */
  lemma ParseIntDecimal(pre: string, d: string, rest: string)
    requires AllSpace(pre) && d != [] && AllDigits(d, 10)
    requires (rest == [] || DigitValue(rest[0], 10).None?) && !HexPrefixed(d + rest)
    ensures ParseInt(pre + d + rest) == Some(DigitsValue(d, 10))
  {
    var u := d + rest;
    DecimalPrefix(d, rest);
    assert '0' <= u[0] <= '9' by {
      assert u[0] == d[0] && DigitValue(d[0], 10).Some?;
    }
    UnsignedDigit(u);
    var s := pre + u;
    assert pre + d + rest == s;
    TrimStartDrops(pre, u);
    ParseLedByDigit(s, u, DigitsValue(d, 10));
  }

  /** Text whose trimmed form starts with a digit parses to that form's magnitude. */
  lemma ParseLedByDigit(s: string, u: string, v: int)
    requires TrimStart(s) == u && u != [] && '0' <= u[0] <= '9'
    requires ParseMagnitude(u) == Some(v)
    ensures ParseInt(s) == Some(v)
  {
    UnsignedDigit(u);
    ParseFromTrimmed(s, u, v);
  }

  /** Text led by a digit has no sign. */
  lemma UnsignedDigit(u: string)
    requires u != [] && '0' <= u[0] <= '9'
    ensures Unsigned(u) == u && !Negative(u) && !IsSpace(u[0])
  {
  }

  /** `parseInt` reads the text its leading blanks leave: the sign, then the magnitude. */
  lemma ParseFromTrimmed(s: string, t: string, v: int)
    requires TrimStart(s) == t && ParseMagnitude(Unsigned(t)) == Some(v)
    ensures ParseInt(s) == Some(if Negative(t) then -v else v)
  {
  }

  /** `0x`, hexadecimal digits, then anything else: the digits' value. */
  lemma ParseIntHex(x: char, h: string, rest: string)
    requires x == 'x' || x == 'X'
    requires h != [] && AllDigits(h, 16) && (rest == [] || DigitValue(rest[0], 16).None?)
    ensures ParseInt(['0', x] + h + rest) == Some(DigitsValue(h, 16))
  {
    var u := ['0', x] + h + rest;
    NothingToTrim(u);
    HexPrefix(x, h, rest);
    ParseAfterTrim(u, u, false, DigitsValue(h, 16));
  }

  /** `parseInt` stops at the first non-digit. */
  lemma ParseIntStopsAtLetter(s: string)
    requires s == "12abc"
    ensures ParseInt(s) == Some(12)
  {
    var pre, d, rest := "", "12", "abc";
    DecimalPieces(s, pre, d, rest, 12);
    ParseIntDecimal(pre, d, rest);
  }

  /** `parseInt` reads no fraction. */
  lemma ParseIntStopsAtPoint(s: string)
    requires s == "1.5"
    ensures ParseInt(s) == Some(1)
  {
    var pre, d, rest := "", "1", ".5";
    DecimalPieces(s, pre, d, rest, 1);
    ParseIntDecimal(pre, d, rest);
  }

  /** `parseInt` reads a leading zero as decimal. */
  lemma ParseIntLeadingZero(s: string)
    requires s == "05"
    ensures ParseInt(s) == Some(5)
  {
    var pre, d, rest := "", "05", "";
    DecimalPieces(s, pre, d, rest, 5);
    ParseIntDecimal(pre, d, rest);
  }

  /** `parseInt` skips leading blanks. */
  lemma ParseIntLeadingBlank(s: string)
    requires s == " 7"
    ensures ParseInt(s) == Some(7)
  {
    var pre, d, rest := " ", "7", "";
    DecimalPieces(s, pre, d, rest, 7);
    ParseIntDecimal(pre, d, rest);
  }

  /**
   * The literal facts the decimal examples rest on, kept apart from
   * `parseInt` so that they are checked on the literals alone.
   */
  lemma DecimalPieces(s: string, pre: string, d: string, rest: string, v: nat)
    requires (s, pre, d, rest, v) in
      {("12abc", "", "12", "abc", 12), ("1.5", "", "1", ".5", 1),
       ("05", "", "05", "", 5), (" 7", " ", "7", "", 7)}
    ensures s == pre + d + rest && AllSpace(pre) && d != [] && AllDigits(d, 10)
    ensures (rest == [] || DigitValue(rest[0], 10).None?) && !HexPrefixed(d + rest)
    ensures DigitsValue(d, 10) == v
  {
  }

  /** `parseInt` reads `0x` as hexadecimal. */
  lemma ParseIntHexText(s: string)
    requires s == "0x1A"
    ensures ParseInt(s) == Some(26)
  {
    var h: string := "1A";
    HexPieces(s, h);
    ParseIntHex('x', h, []);
  }

  lemma HexPieces(s: string, h: string)
    requires s == "0x1A" && h == "1A"
    ensures s == ['0', 'x'] + h + []
    ensures h != [] && AllDigits(h, 16)
    ensures DigitsValue(h, 16) == 26
  {
    var one := h[..1];
    assert one == "1" && one[..0] == [];
    assert DigitsValue(one, 16) == 1;
    assert DigitValue(h[1], 16) == Some(10);
  }

  /** Blank text is `NaN`. */
  lemma BlankIsNaN(s: string)
    requires AllSpace(s)
    ensures ParseInt(s).None?
  {
  }

  /** `parseInt(value) || 0`: `NaN` (and zero) become zero. */
  function ReadTimeValue(value: string): (r: int)
    ensures ParseInt(value).None? ==> r == 0
    ensures ParseInt(value).Some? ==> r == ParseInt(value).value
    ensures r != 0 ==> ParseInt(value) == Some(r)
  {
    ParseInt(value).GetOr(0)
  }

  const DigitChars: string := "0123456789"

  /** The decimal text of a natural number, as a number input shows it. */
  function Digits(n: nat): (r: string)
    ensures |r| >= 1 && AllDigits(r, 10)
    ensures r[0] == '0' ==> n == 0 && |r| == 1
  {
    if n < 10 then [DigitChars[n]] else Digits(n / 10) + [DigitChars[n % 10]]
  }

  /** The decimal text of an integer: a minus sign before negative ones. */
  function Decimal(n: int): (r: string)
    ensures |r| >= 1 && (r[0] == '-' <==> n < 0)
    ensures var digits := if n < 0 then r[1..] else r;
      digits != [] && AllDigits(digits, 10) && (digits[0] == '0' ==> n == 0 && r == "0")
  {
    if n < 0 then ['-'] + Digits(-n) else Digits(n)
  }

  lemma {:induction false} DigitsValueOf(n: nat)
    ensures DigitsValue(Digits(n), 10) == n
  {
    var d := Digits(n);
    if n >= 10 {
      DigitsValueOf(n / 10);
      assert d[..|d| - 1] == Digits(n / 10);
    }
  }

  lemma DigitRunAll(s: string, radix: nat)
    requires radix == 10 || radix == 16
    requires AllDigits(s, radix)
    ensures DigitRun(s, radix) == |s|
  {
  }

  /** Parsing the text of a number gives the number back. */
  lemma ParseDecimal(n: int)
    ensures ParseInt(Decimal(n)) == Some(n)
  {
    var m := if n < 0 then -n else n;
    var d := Digits(m);
    MagnitudeOfDigits(d);
    DigitsValueOf(m);
    assert '0' <= d[0] <= '9' by {
      assert DigitValue(d[0], 10).Some?;
    }
    if n < 0 {
      ParseNegative(d, m);
    } else {
      ParseUnsigned(d, m);
    }
  }

  /** Text that starts with a digit parses to its magnitude. */
  lemma ParseUnsigned(d: string, m: int)
    requires d != [] && '0' <= d[0] <= '9' && ParseMagnitude(d) == Some(m)
    ensures ParseInt(d) == Some(m)
  {
    DigitNotSpace(d[0]);
    NothingToTrim(d);
    ParseAfterTrim(d, d, false, m);
  }

  /** The same text after a minus sign parses to the negated magnitude. */
  lemma ParseNegative(d: string, m: int)
    requires d != [] && '0' <= d[0] <= '9' && ParseMagnitude(d) == Some(m)
    ensures ParseInt(['-'] + d) == Some(-m)
  {
    var s := ['-'] + d;
    assert s[0] == '-' && s[1..] == d;
    NothingToTrim(s);
    ParseAfterTrim(s, d, true, m);
  }

  lemma DigitNotSpace(c: char)
    requires '0' <= c <= '9'
    ensures !IsSpace(c)
  {
  }

  lemma NothingToTrim(s: string)
    requires s != [] && !IsSpace(s[0])
    ensures TrimStart(s) == s
  {
  }

  /** Text with nothing to trim parses to the signed magnitude of what follows its sign. */
  lemma ParseAfterTrim(s: string, u: string, negative: bool, v: int)
    requires TrimStart(s) == s && Unsigned(s) == u && Negative(s) == negative
    requires ParseMagnitude(u) == Some(v)
    ensures ParseInt(s) == Some(if negative then -v else v)
  {
  }

  lemma MagnitudeOfDigits(d: string)
    requires |d| >= 1 && AllDigits(d, 10) && (d[0] == '0' ==> |d| == 1)
    ensures ParseMagnitude(d) == Some(DigitsValue(d, 10))
  {
    DigitRunAll(d, 10);
    assert d[..|d|] == d;
  }

  /** A read time shown in the number input and read back by the change handler is unchanged. */
  lemma ReadTimeRoundTrip(n: int)
    ensures ReadTimeValue(Decimal(n)) == n
  {
    ParseDecimal(n);
  }

  /** `Math.ceil(length / 500)`: the least number of minutes whose characters cover the length. */
  function MinutesFor(length: nat): (m: nat)
    ensures m * CharsPerMinute >= length
    ensures m == 0 || (m - 1) * CharsPerMinute < length
  {
    (length + CharsPerMinute - 1) / CharsPerMinute
  }

  // ---------------------------------------------------------------------------
  // Submit.

  /**
   * `handleSubmit`: `None` when the trimmed title or content is empty (the
   * alert path, `onSave` is not called); otherwise the payload handed to `onSave`.
   */
  function HandleSubmit(form: FormData): (r: Option<PostData>)
    ensures r.None? <==> AllSpace(form.title) || AllSpace(form.content)
    ensures r.Some? ==> r.value.title != "" && IsTrimmed(r.value.title)
    ensures r.Some? ==> r.value.content != "" && IsTrimmed(r.value.content)
    ensures r.Some? ==> r.value.author != "" && IsTrimmed(r.value.author)
    ensures r.Some? ==> r.value.excerpt != "" && r.value.coverImage != ""
    ensures r.Some? ==> CanonicalTags(r.value.tags) && r.value.date == form.date
    ensures r.Some? ==> r.value.readTime != 0
  {
    var title := Trim(form.title);
    var content := Trim(form.content);
    if title == "" || content == "" then None
    else
      var excerpt := Trim(form.excerpt);
      var author := Trim(form.author);
      var cover := Trim(form.coverImage);
      AnonymousTrimmed();
      Some(PostData(
        title,
        if excerpt != "" then excerpt else Prefix(form.content, ExcerptLength) + Ellipsis,
        content,
        if author != "" then author else AnonymousAuthor,
        form.date,
        if cover != "" then cover else DefaultCoverImage,
        ParseTags(form.tags),
        if form.readTime != 0 then form.readTime else MinutesFor(|form.content|)))
  }

  /**
   * What the submitted payload derives from the raw form: the trimmed title
   * and content; a blank excerpt becomes the first 100 characters of the
   * untrimmed content and an ellipsis; a blank author the anonymous name; a
   * blank cover image the default picture; a zero read time the minutes the
   * untrimmed content needs, at least one.
   */
  lemma SubmitDerivations(form: FormData)
    requires !AllSpace(form.title) && !AllSpace(form.content)
    ensures var d := HandleSubmit(form).value;
      && d.title == Trim(form.title) && d.content == Trim(form.content)
      && (AllSpace(form.excerpt) ==>
            d.excerpt == Prefix(form.content, ExcerptLength) + Ellipsis &&
            |d.excerpt| <= ExcerptLength + |Ellipsis|)
      && (!AllSpace(form.excerpt) ==> d.excerpt == Trim(form.excerpt))
      && (AllSpace(form.author) <==> d.author == AnonymousAuthor && Trim(form.author) == "")
      && (!AllSpace(form.author) ==> d.author == Trim(form.author))
      && d.coverImage == (if AllSpace(form.coverImage) then DefaultCoverImage else Trim(form.coverImage))
      && (form.readTime == 0 ==>
            d.readTime == MinutesFor(|form.content|) &&
            d.readTime >= 1 && d.readTime * CharsPerMinute >= |form.content|)
      && (form.readTime != 0 ==> d.readTime == form.readTime)
      && d.tags == ParseTags(form.tags)
  {
  }

  /** A post every field of which the editor can reproduce unchanged. */
  predicate Canonical(post: BlogPost) {
    && post.title != "" && IsTrimmed(post.title)
    && post.content != "" && IsTrimmed(post.content)
    && post.excerpt != "" && IsTrimmed(post.excerpt)
    && post.author != "" && IsTrimmed(post.author)
    && post.coverImage != "" && IsTrimmed(post.coverImage)
    && CanonicalTags(post.tags)
    && post.readTime != 0
  }

  /** Opening a post in the editor and saving it without changes yields the post's own data. */
  lemma PrefillSubmitRoundTrip(post: BlogPost)
    requires Canonical(post)
    ensures HandleSubmit(PrefillForm(post)) == Some(DataOf(post))
  {
    TrimTrimmed(post.title);
    TrimTrimmed(post.content);
    TrimTrimmed(post.excerpt);
    TrimTrimmed(post.author);
    TrimTrimmed(post.coverImage);
    TagsRoundTrip(post.tags);
  }

  /** A blank title, for one, never reaches `onSave`. */
  lemma BlankTitleRejected(form: FormData)
    requires form.title == "" && form.content == "x"
    ensures HandleSubmit(form) == None
  {
  }

  /** The form state of the editor component. */
  class EditorForm {
    var formData: FormData

    constructor (today: string)
      ensures formData == InitialForm(today)
    {
      formData := InitialForm(today);
    }

    /** The prefill effect: with a post to edit, the form takes its fields; without one, it stays. */
    method Prefill(post: Option<BlogPost>)
      modifies this
      ensures post.Some? ==> formData == PrefillForm(post.value)
      ensures post.None? ==> formData == old(formData)
    {
      if post.Some? {
        formData := PrefillForm(post.value);
      }
    }

    /** `handleChange`: the named field takes the value (the read time parsed); nothing else changes. */
    method HandleChange(name: Field, value: string)
      modifies this
      ensures name == Title ==> formData == old(formData).(title := value)
      ensures name == Excerpt ==> formData == old(formData).(excerpt := value)
      ensures name == Content ==> formData == old(formData).(content := value)
      ensures name == Author ==> formData == old(formData).(author := value)
      ensures name == Date ==> formData == old(formData).(date := value)
      ensures name == CoverImage ==> formData == old(formData).(coverImage := value)
      ensures name == Tags ==> formData == old(formData).(tags := value)
      ensures name == ReadTime ==> formData == old(formData).(readTime := ReadTimeValue(value))
    {
      match name {
        case Title => formData := formData.(title := value);
        case Excerpt => formData := formData.(excerpt := value);
        case Content => formData := formData.(content := value);
        case Author => formData := formData.(author := value);
        case Date => formData := formData.(date := value);
        case CoverImage => formData := formData.(coverImage := value);
        case Tags => formData := formData.(tags := value);
        case ReadTime => formData := formData.(readTime := ReadTimeValue(value));
      }
    }

    /** `handleSubmit` on the current form; the form itself is left as it is. */
    method Submit() returns (r: Option<PostData>)
      ensures r.None? <==> AllSpace(formData.title) || AllSpace(formData.content)
      ensures r == HandleSubmit(formData)
    {
      r := HandleSubmit(formData);
    }
  }
}
