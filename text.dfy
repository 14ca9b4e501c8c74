/**
 * The string primitives the client forms rely on: the white space of
 * JavaScript (`\s` in a regular expression, and what `String.prototype.trim`
 * removes), `trim`, and lower-casing of ASCII letters.
 */
module Text {

  /**
   * ECMAScript WhiteSpace or LineTerminator: tab, vertical tab, form feed,
   * the byte order mark, every space separator of Unicode (category Zs),
   * line feed, carriage return, and the line and paragraph separators.
   */
  predicate IsJsSpace(c: char) {
    c in JsSpaces || '\U{2000}' <= c <= '\U{200A}'
  }

  /** The white space characters outside the range U+2000 to U+200A. */
  const JsSpaces: set<char> := {
    '\t', '\U{B}', '\U{C}', '\U{FEFF}', ' ', '\U{A0}', '\U{1680}',
    '\U{202F}', '\U{205F}', '\U{3000}', '\n', '\r', '\U{2028}', '\U{2029}'
  }

  /** No character of `s` is white space. */
  predicate NoSpace(s: string) {
    forall k :: 0 <= k < |s| ==> !IsJsSpace(s[k])
  }

  /** Every character of `s` is white space (true of the empty string). */
  predicate AllSpace(s: string) {
    forall k :: 0 <= k < |s| ==> IsJsSpace(s[k])
  }

  /** `s` with its leading white space removed. */
  function TrimStart(s: string): (r: string)
    ensures |r| <= |s| && r == s[|s| - |r|..]
    ensures AllSpace(s[..|s| - |r|])
    ensures r != [] ==> !IsJsSpace(r[0])
  {
    if s != [] && IsJsSpace(s[0]) then
      var r := TrimStart(s[1..]);
      assert s[1..][|s| - 1 - |r|..] == s[|s| - |r|..];
      forall k | 0 <= k < |s| - |r|
        ensures IsJsSpace(s[k])
      {
        if k > 0 {
          assert s[k] == s[1..][..|s| - 1 - |r|][k - 1];
        }
      }
      r
    else s
  }

  /** `s` with its trailing white space removed. */
  function TrimEnd(s: string): (r: string)
    ensures |r| <= |s| && r == s[..|r|]
    ensures AllSpace(s[|r|..])
    ensures r != [] ==> !IsJsSpace(r[|r| - 1])
  {
    if s != [] && IsJsSpace(s[|s| - 1]) then
      var r := TrimEnd(s[..|s| - 1]);
      assert s[..|s| - 1][..|r|] == s[..|r|];
      assert s[|r|..] == s[..|s| - 1][|r|..] + [s[|s| - 1]];
      r
    else s
  }

  /** `s.trim()` */
  function Trim(s: string): (r: string)
    ensures |r| <= |s|
  {
    TrimEnd(TrimStart(s))
  }

  /** What `trim` keeps: the part of `s` between its leading and its trailing white space. */
  lemma TrimIsSlice(s: string)
    ensures var i := |s| - |TrimStart(s)|; i + |Trim(s)| <= |s| && Trim(s) == s[i..i + |Trim(s)|]
  {
    var a := TrimStart(s);
    var t := TrimEnd(a);
    var i := |s| - |a|;
    assert Trim(s) == t;
    assert a == s[i..];
    assert t == a[..|t|] == s[i..][..|t|] == s[i..i + |t|];
  }

  /** What `trim` removes: white space only, on both sides of the slice it keeps. */
  lemma TrimRemovesOnlySpace(s: string)
    ensures var i := |s| - |TrimStart(s)|; i + |Trim(s)| <= |s| && AllSpace(s[..i]) && AllSpace(s[i + |Trim(s)|..])
  {
    var a := TrimStart(s);
    var i := |s| - |a|;
    var t := TrimEnd(a);
    assert Trim(s) == t;
    assert s[..i] == s[..|s| - |a|];
    assert s[i + |t|..] == a[|t|..];
  }

  /** The kept slice neither starts nor ends with white space. */
  lemma TrimEndsNonSpace(s: string)
    ensures Trim(s) != [] ==> !IsJsSpace(Trim(s)[0]) && !IsJsSpace(Trim(s)[|Trim(s)| - 1])
  {
    var a := TrimStart(s);
    if Trim(s) != [] {
      assert Trim(s)[0] == a[0];
    }
  }

  /** A string with no white space is its own trim. */
  lemma TrimNoSpace(s: string)
    requires NoSpace(s)
    ensures Trim(s) == s
  {
    if s != [] {
      assert !IsJsSpace(s[0]) && !IsJsSpace(s[|s| - 1]);
    }
  }

  /** `s.trim()` is empty, so falsy, exactly when `s` is all white space. */
  lemma {:induction false} TrimEmptyIffAllSpace(s: string)
    ensures Trim(s) == [] <==> AllSpace(s)
  {
    var a := TrimStart(s);
    if a == [] {
      assert s[..|s|] == s;
    } else {
      assert !IsJsSpace(s[|s| - |a|]);
      assert TrimEnd(a) != [];
    }
  }

  /** Trimming twice is trimming once. */
  lemma TrimIdempotent(s: string)
    ensures Trim(Trim(s)) == Trim(s)
  {
    TrimEndsNonSpace(s);
    var t := Trim(s);
    if t != [] {
      assert TrimStart(t) == t;
    }
  }

  /** `toLowerCase` on one character, for ASCII letters; every other character is kept. */
  function LowerChar(c: char): (d: char)
    ensures 'A' <= c <= 'Z' ==> 'a' <= d <= 'z' && d as int == c as int + 32
    ensures !('A' <= c <= 'Z') ==> d == c
  {
    if 'A' <= c <= 'Z' then (c as int + 32) as char else c
  }

  /** `s.toLowerCase()`, restricted to ASCII letters. */
  function Lower(s: string): (r: string)
    ensures |r| == |s|
    ensures forall k :: 0 <= k < |s| ==> r[k] == LowerChar(s[k])
  {
    seq(|s|, k requires 0 <= k < |s| => LowerChar(s[k]))
  }

  /** Lower-casing is idempotent and leaves white space, `@` and `.` where they were. */
  lemma LowerKeepsShape(s: string)
    ensures Lower(Lower(s)) == Lower(s)
    ensures forall k :: 0 <= k < |s| ==>
      && (IsJsSpace(Lower(s)[k]) <==> IsJsSpace(s[k]))
      && (Lower(s)[k] == '@' <==> s[k] == '@')
      && (Lower(s)[k] == '.' <==> s[k] == '.')
  {
  }
}
