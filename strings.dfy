/**
 * String helpers shared by the front end and the back end: the whitespace
 * that JavaScript's `String.prototype.trim` removes, trimming, splitting on
 * one separator character (JavaScript `split(',')` and Python `split('.')`
 * agree on it), joining, and taking a prefix (`slice(0, n)`, `s[:n]`).
 */
module Strings {

  /** WhiteSpace and LineTerminator code points of ECMA-262, the set `trim` and `parseInt` skip. */
  predicate IsSpace(c: char) {
    var n := c as int;
    n == 0x09 || n == 0x0A || n == 0x0B || n == 0x0C || n == 0x0D || n == 0x20 ||
    n == 0xA0 || n == 0x1680 || (0x2000 <= n <= 0x200A) || n == 0x2028 || n == 0x2029 ||
    n == 0x202F || n == 0x205F || n == 0x3000 || n == 0xFEFF
  }

  predicate AllSpace(s: string) {
    forall i :: 0 <= i < |s| ==> IsSpace(s[i])
  }

  /** Neither end of `s` is whitespace. */
  predicate IsTrimmed(s: string) {
    s == [] || (!IsSpace(s[0]) && !IsSpace(s[|s| - 1]))
  }

  /** `s` with its leading whitespace removed. */
  function TrimStart(s: string): (r: string)
    ensures |r| <= |s| && r == s[|s| - |r|..]
    ensures forall i :: 0 <= i < |s| - |r| ==> IsSpace(s[i])
    ensures r == [] || !IsSpace(r[0])
  {
    if s != [] && IsSpace(s[0]) then TrimStart(s[1..]) else s
  }

  /** `s` with its trailing whitespace removed. */
  function TrimEnd(s: string): (r: string)
    ensures |r| <= |s| && r == s[..|r|]
    ensures forall i :: |r| <= i < |s| ==> IsSpace(s[i])
    ensures r == [] || !IsSpace(r[|r| - 1])
  {
    if s != [] && IsSpace(s[|s| - 1]) then TrimEnd(s[..|s| - 1]) else s
  }

  /** JavaScript `s.trim()`: the longest middle part of `s` that starts and ends with a non-space. */
  function Trim(s: string): (r: string)
    ensures IsTrimmed(r)
    ensures |r| <= |s|
    ensures r == [] <==> AllSpace(s)
  {
    TrimParts(s);
    TrimEnd(TrimStart(s))
  }

  /** What trimming removes is whitespace at the two ends and nothing else. */
  lemma TrimCuts(s: string)
    ensures exists a, b :: s == a + Trim(s) + b && AllSpace(a) && AllSpace(b)
  {
    var t := TrimStart(s);
    CutSides(s, t, TrimEnd(t));
  }

  /** Trimming leaves a trimmed string, empty exactly for blank input. */
  lemma TrimParts(s: string)
    ensures var r := TrimEnd(TrimStart(s)); IsTrimmed(r) && (r == [] <==> AllSpace(s))
  {
    var t := TrimStart(s);
    var r := TrimEnd(t);
    var a := |s| - |t|;
    if r == [] {
      assert t == [];
    } else {
      assert r[0] == t[0];
      assert s[a] == t[0];
      assert !IsSpace(s[a]);
    }
  }

  /**
   * Cutting whitespace from the front and then from the back leaves a middle
   * part: `s` is whitespace, that part, and whitespace.
   */
  lemma CutSides(s: string, t: string, r: string)
    requires |t| <= |s| && t == s[|s| - |t|..] && forall i :: 0 <= i < |s| - |t| ==> IsSpace(s[i])
    requires |r| <= |t| && r == t[..|r|] && forall i :: |r| <= i < |t| ==> IsSpace(t[i])
    ensures exists a, b :: s == a + r + b && AllSpace(a) && AllSpace(b)
  {
    var a := s[..|s| - |t|];
    var b := t[|r|..];
    assert s == a + t;
    assert t == r + b;
    assert s == a + r + b;
    forall i | 0 <= i < |a| ensures IsSpace(a[i]) {
      assert a[i] == s[i];
    }
    forall i | 0 <= i < |b| ensures IsSpace(b[i]) {
      assert b[i] == t[|r| + i];
    }
    assert AllSpace(a);
    assert AllSpace(b);
  }

  lemma AllSpaceConcat(a: string, b: string)
    requires AllSpace(a) && AllSpace(b)
    ensures AllSpace(a + b)
  {
  }

  /** Whitespace around a trimmed string is exactly what `trim` removes. */
  lemma {:induction false} TrimSurrounded(pre: string, t: string, post: string)
    requires AllSpace(pre) && AllSpace(post) && IsTrimmed(t)
    ensures Trim(pre + t + post) == t
  {
    if t == [] {
      assert pre + t + post == pre + post;
      AllSpaceConcat(pre, post);
    } else {
      TrimAroundWord(pre, t, post);
    }
  }

  lemma TrimAroundWord(pre: string, t: string, post: string)
    requires AllSpace(pre) && AllSpace(post) && IsTrimmed(t) && t != []
    ensures TrimEnd(TrimStart(pre + t + post)) == t
  {
    var x := t + post;
    assert pre + t + post == pre + x;
    assert TrimStart(pre + x) == x by {
      assert x[0] == t[0];
      TrimStartDrops(pre, x);
    }
    TrimEndDrops(t, post);
  }

  lemma {:induction false} TrimStartDrops(pre: string, rest: string)
    requires AllSpace(pre)
    requires rest == [] || !IsSpace(rest[0])
    ensures TrimStart(pre + rest) == rest
  {
    if pre != [] {
      assert (pre + rest)[1..] == pre[1..] + rest;
      TrimStartDrops(pre[1..], rest);
    }
  }

  lemma {:induction false} TrimEndDrops(rest: string, post: string)
    requires AllSpace(post)
    requires rest == [] || !IsSpace(rest[|rest| - 1])
    ensures TrimEnd(rest + post) == rest
  {
    if post != [] {
      assert (rest + post)[..|rest + post| - 1] == rest + post[..|post| - 1];
      TrimEndDrops(rest, post[..|post| - 1]);
    }
  }

  /** `trim` leaves an already trimmed string as it is, so trimming twice is trimming once. */
  lemma TrimTrimmed(t: string)
    requires IsTrimmed(t)
    ensures Trim(t) == t
  {
    TrimSurrounded([], t, []);
    assert [] + t + [] == t;
  }

  /**
   * `s.split(sep)` for a one-character separator: the pieces between
   * separators, in order; an empty input gives one empty piece.
   */
  function Split(s: string, sep: char): (r: seq<string>)
    ensures |r| >= 1
    ensures forall i :: 0 <= i < |r| ==> sep !in r[i]
  {
    if s == [] then [""]
    else if s[0] == sep then [""] + Split(s[1..], sep)
    else
      var rest := Split(s[1..], sep);
      [[s[0]] + rest[0]] + rest[1..]
  }

  /**
   * `parts.join(sep)`: the first piece leads the result, and a character in
   * no piece and not in the separator is not in the result.
   */
  function Join(parts: seq<string>, sep: string): (r: string)
    ensures parts != [] ==> |parts[0]| <= |r| && r[..|parts[0]|] == parts[0]
    ensures forall c :: c !in sep && (forall i :: 0 <= i < |parts| ==> c !in parts[i]) ==> c !in r
  {
    if parts == [] then ""
    else if |parts| == 1 then parts[0]
    else parts[0] + sep + Join(parts[1..], sep)
  }

  /** Splitting and joining back with the same separator restores the input. */
  lemma {:induction false} JoinSplit(s: string, sep: char)
    ensures Join(Split(s, sep), [sep]) == s
  {
    if s != [] {
      JoinSplit(s[1..], sep);
      var rest := Split(s[1..], sep);
      if s[0] == sep {
        assert Split(s, sep)[1..] == rest;
      } else {
        var r := Split(s, sep);
        assert r[0] == [s[0]] + rest[0];
        if |rest| == 1 {
        } else {
          assert r[1..] == rest[1..];
          assert rest[1..] == rest[1..];
          assert Join(rest, [sep]) == rest[0] + [sep] + Join(rest[1..], [sep]);
        }
      }
    }
  }

  /** A string with no separator is one piece. */
  lemma {:induction false} SplitNoSep(a: string, sep: char)
    requires sep !in a
    ensures Split(a, sep) == [a]
  {
    if a != [] {
      SplitNoSep(a[1..], sep);
      assert [a[0]] + a[1..] == a;
    }
  }

  /** A separator after a separator-free prefix closes the first piece. */
  lemma {:induction false} SplitAfter(a: string, b: string, sep: char)
    requires sep !in a
    ensures Split(a + [sep] + b, sep) == [a] + Split(b, sep)
  {
    if a == [] {
      assert a + [sep] + b == [sep] + b;
      assert ([sep] + b)[1..] == b;
    } else {
      assert (a + [sep] + b)[1..] == a[1..] + [sep] + b;
      SplitAfter(a[1..], b, sep);
      assert [a[0]] + a[1..] == a;
    }
  }

  /** A non-separator character in front joins the first piece. */
  lemma SplitCons(c: char, b: string, sep: char)
    requires c != sep
    ensures Split([c] + b, sep) == [[c] + Split(b, sep)[0]] + Split(b, sep)[1..]
  {
    assert ([c] + b)[1..] == b;
  }

  /** JavaScript `s.slice(0, n)` and Python `s[:n]` for `n >= 0`. */
  function Prefix(s: string, n: nat): (r: string)
    ensures |r| == if |s| < n then |s| else n
    ensures s == r + s[|r|..]
  {
    if |s| < n then s else s[..n]
  }

  /** JavaScript `s.startsWith(p)` and Python `s.startswith(p)`. */
  predicate StartsWith(s: string, p: string) {
    |p| <= |s| && s[..|p|] == p
  }
}
