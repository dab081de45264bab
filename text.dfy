/**
 * The few JavaScript string operations the request handlers rely on:
 * truthiness of an optional string, `String.prototype.split` with a
 * one-character separator, `trim` and `toLowerCase`.
 */
module Text {
  import opened Wrappers

  /** JavaScript truthiness of an optional string: `null`, `undefined` and `""` are falsy. */
  predicate Truthy(s: Option<string>) {
    s.Some? && s.value != ""
  }

  /** Inverse of `Split`: the parts glued back together with the separator between them. */
  function Join(parts: seq<string>, sep: char): string {
    if |parts| == 0 then ""
    else if |parts| == 1 then parts[0]
    else parts[0] + [sep] + Join(parts[1..], sep)
  }

  /**
   * `s.split(sep)`: always at least one part, no part holds the separator,
   * and joining the parts back gives `s`.
   */
  function Split(s: string, sep: char): (parts: seq<string>)
    ensures |parts| >= 1
    ensures forall i :: 0 <= i < |parts| ==> sep !in parts[i]
    ensures Join(parts, sep) == s
  {
    if s == [] then [""]
    else
      var rest := Split(s[1..], sep);
      if s[0] == sep then
        [""] + rest
      else
        var parts := [[s[0]] + rest[0]] + rest[1..];
        assert parts[1..] == rest[1..];
        assert Join(parts, sep) == [s[0]] + Join(rest, sep);
        parts
  }

  /** A string without the separator splits into itself alone. */
  lemma {:induction false} SplitNoSeparator(p: string, sep: char)
    requires sep !in p
    ensures Split(p, sep) == [p]
  {
    if p != [] {
      SplitNoSeparator(p[1..], sep);
    }
  }

  /** Splitting `p + sep + rest` yields `p` followed by the parts of `rest`. */
  lemma {:induction false} SplitCons(p: string, sep: char, rest: string)
    requires sep !in p
    ensures Split(p + [sep] + rest, sep) == [p] + Split(rest, sep)
  {
    if p == [] {
      assert ([] + [sep] + rest)[1..] == rest;
    } else {
      var whole := p + [sep] + rest;
      assert whole[0] == p[0] && whole[1..] == p[1..] + [sep] + rest;
      SplitCons(p[1..], sep, rest);
      assert [p[0]] + p[1..] == p;
    }
  }

  /** The split/join round trip in the other direction: separator-free parts survive a join and a split. */
  lemma {:induction false} SplitJoin(parts: seq<string>, sep: char)
    requires |parts| >= 1
    requires forall i :: 0 <= i < |parts| ==> sep !in parts[i]
    ensures Split(Join(parts, sep), sep) == parts
  {
    if |parts| == 1 {
      SplitNoSeparator(parts[0], sep);
    } else {
      SplitJoin(parts[1..], sep);
      SplitCons(parts[0], sep, Join(parts[1..], sep));
      assert [parts[0]] + parts[1..] == parts;
    }
  }

  /** `s.split(sep)` has one part more than `s` has separators. */
  lemma {:induction false} SplitCount(s: string, sep: char)
    ensures |Split(s, sep)| == 1 + multiset(s)[sep]
  {
    if s != [] {
      SplitCount(s[1..], sep);
      assert s == [s[0]] + s[1..];
      assert multiset(s) == multiset{s[0]} + multiset(s[1..]);
    }
  }

  /** The first part of a split is the text before the first separator. */
  lemma SplitHead(p: string, sep: char, rest: string)
    requires sep !in p
    ensures Split(p + [sep] + rest, sep)[0] == p
  {
    SplitCons(p, sep, rest);
  }

  /** The characters `String.prototype.trim` removes: ECMAScript WhiteSpace and LineTerminator. */
  predicate IsJsSpace(c: char) {
    || c == '\t' || c == '\n' || c == '\r' || c == ' '
    || c == '\U{000B}' || c == '\U{000C}' || c == '\U{00A0}' || c == '\U{1680}'
    || ('\U{2000}' <= c <= '\U{200A}')
    || c == '\U{2028}' || c == '\U{2029}' || c == '\U{202F}' || c == '\U{205F}'
    || c == '\U{3000}' || c == '\U{FEFF}'
  }

  /** `s` without its leading white space. */
  function TrimStart(s: string): (r: string)
    ensures |r| <= |s| && r == s[|s| - |r|..]
    ensures r == [] || !IsJsSpace(r[0])
    ensures forall i :: 0 <= i < |s| - |r| ==> IsJsSpace(s[i])
  {
    if s != [] && IsJsSpace(s[0]) then
      var r := TrimStart(s[1..]);
      assert s[1..][|s| - 1 - |r|..] == s[|s| - |r|..];
      assert forall i :: 1 <= i < |s| - |r| ==> s[i] == s[1..][i - 1];
      r
    else s
  }

  /** `s` without its trailing white space. */
  function TrimEnd(s: string): (r: string)
    ensures |r| <= |s| && r == s[..|r|]
    ensures r == [] || !IsJsSpace(r[|r| - 1])
    ensures forall i :: |r| <= i < |s| ==> IsJsSpace(s[i])
  {
    if s != [] && IsJsSpace(s[|s| - 1]) then
      var r := TrimEnd(s[..|s| - 1]);
      assert s[..|s| - 1][..|r|] == s[..|r|];
      assert forall i :: |r| <= i < |s| - 1 ==> s[i] == s[..|s| - 1][i];
      r
    else s
  }

  /** Trimming both ends keeps the slice of `s` that starts where the leading white space ends. */
  lemma TrimSlice(s: string)
    ensures var t := TrimStart(s);
            var k := |s| - |t|;
            var r := TrimEnd(t);
            k + |r| <= |s| && s[k..][..|r|] == r
            && (forall i :: 0 <= i < k ==> IsJsSpace(s[i]))
            && (forall i :: k + |r| <= i < |s| ==> IsJsSpace(s[i]))
            && (r == [] || (!IsJsSpace(r[0]) && !IsJsSpace(r[|r| - 1])))
  {
    var t := TrimStart(s);
    var k := |s| - |t|;
    var r := TrimEnd(t);
    assert s[k..] == t;
    assert t[..|r|] == r;
    assert forall i :: k + |r| <= i < |s| ==> s[i] == t[i - k];
    assert r != [] ==> r[0] == t[0];
  }

  /** Leading white space is dropped up to the first character that is not white space. */
  lemma {:induction false} TrimStartPadding(pad: string, s: string)
    requires forall i :: 0 <= i < |pad| ==> IsJsSpace(pad[i])
    requires s != [] && !IsJsSpace(s[0])
    ensures TrimStart(pad + s) == s
  {
    if pad == [] {
      assert pad + s == s;
    } else {
      assert (pad + s)[0] == pad[0] && (pad + s)[1..] == pad[1..] + s;
      assert TrimStart(pad + s) == TrimStart(pad[1..] + s);
      TrimStartPadding(pad[1..], s);
    }
  }

  /** Trailing white space is dropped back to the last character that is not white space. */
  lemma {:induction false} TrimEndPadding(s: string, pad: string)
    requires forall i :: 0 <= i < |pad| ==> IsJsSpace(pad[i])
    requires s != [] && !IsJsSpace(s[|s| - 1])
    ensures TrimEnd(s + pad) == s
  {
    if pad == [] {
      assert s + pad == s;
    } else {
      TrimEndPadding(s, pad[..|pad| - 1]);
      assert (s + pad)[..|s + pad| - 1] == s + pad[..|pad| - 1];
    }
  }

  /**
   * `s.trim()`: the contiguous middle of `s` that neither starts nor ends
   * with white space, everything cut off on either side being white space.
   */
  function Trim(s: string): (r: string)
    ensures var k := |s| - |TrimStart(s)|;
            k + |r| <= |s| && s[k..][..|r|] == r
            && (forall i :: 0 <= i < k ==> IsJsSpace(s[i]))
            && (forall i :: k + |r| <= i < |s| ==> IsJsSpace(s[i]))
    ensures r == [] || (!IsJsSpace(r[0]) && !IsJsSpace(r[|r| - 1]))
  {
    TrimSlice(s);
    TrimEnd(TrimStart(s))
  }

  /** A string that neither starts nor ends with white space is its own trim. */
  lemma TrimTrimmed(s: string)
    requires s != [] && !IsJsSpace(s[0]) && !IsJsSpace(s[|s| - 1])
    ensures Trim(s) == s
  {
    assert TrimStart(s) == s;
    assert TrimEnd(s) == s;
  }

  /** `trim()` gives back a string that neither starts nor ends with white space, whatever white space pads it. */
  lemma TrimPadding(lead: string, s: string, trail: string)
    requires forall i :: 0 <= i < |lead| ==> IsJsSpace(lead[i])
    requires forall i :: 0 <= i < |trail| ==> IsJsSpace(trail[i])
    requires s != [] && !IsJsSpace(s[0]) && !IsJsSpace(s[|s| - 1])
    ensures Trim(lead + s + trail) == s
  {
    assert lead + s + trail == lead + (s + trail);
    TrimStartPadding(lead, s + trail);
    TrimEndPadding(s, trail);
  }

  /** `toLowerCase` on one character, for the ASCII letters. */
  function LowerChar(c: char): (d: char)
    ensures 'A' <= c <= 'Z' ==> 'a' <= d <= 'z' && d as int - c as int == 32
    ensures !('A' <= c <= 'Z') ==> d == c
  {
    if 'A' <= c <= 'Z' then (c as int + 32) as char else c
  }

  /** `s.toLowerCase()` restricted to ASCII letters; every other character is kept. */
  function ToLower(s: string): (r: string)
    ensures |r| == |s| && forall i :: 0 <= i < |s| ==> r[i] == LowerChar(s[i])
  {
    seq(|s|, i requires 0 <= i < |s| => LowerChar(s[i]))
  }

  /** Lower-casing never introduces a character that is not an ASCII letter. */
  lemma ToLowerKeepsAbsent(s: string, c: char)
    requires c !in s && !('A' <= c <= 'Z') && !('a' <= c <= 'z')
    ensures c !in ToLower(s)
  {
    forall i | 0 <= i < |s|
      ensures ToLower(s)[i] != c
    {
      assert s[i] != c;
    }
  }

  /** A character outside the Basic Multilingual Plane, which JavaScript stores as two UTF-16 code units. */
  predicate IsAstral(c: char) {
    c as int > 0xFFFF
  }

  /** JavaScript's `s.length`: the number of UTF-16 code units. */
  function Utf16Length(s: string): (n: nat)
    ensures |s| <= n <= 2 * |s|
    ensures (forall i :: 0 <= i < |s| ==> !IsAstral(s[i])) ==> n == |s|
  {
    if s == [] then 0 else (if IsAstral(s[0]) then 2 else 1) + Utf16Length(s[1..])
  }

  /** A single character counts one code unit, or two when it is astral. */
  lemma Utf16Char(c: char)
    ensures Utf16Length([c]) == if IsAstral(c) then 2 else 1
  {
  }

  /** Code units add up over concatenation; with `Utf16Char` this pins `Utf16Length` on every string. */
  lemma {:induction false} Utf16Concat(a: string, b: string)
    ensures Utf16Length(a + b) == Utf16Length(a) + Utf16Length(b)
  {
    if a != [] {
      Utf16Concat(a[1..], b);
      assert (a + b)[0] == a[0] && (a + b)[1..] == a[1..] + b;
    } else {
      assert a + b == b;
    }
  }
}
