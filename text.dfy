/**
 * The title check both the create and the save handler make:
 * `title.trim() === ''` (src/App.jsx lines 38 and 80).
 */
module Text {

  /**
   * The characters `String.prototype.trim` removes: ECMAScript's WhiteSpace
   * (tab, vertical tab, form feed, space, no-break space, the byte order
   * mark and the Unicode space separators) and LineTerminator (line feed,
   * carriage return, line and paragraph separator). All of them lie in the
   * Basic Multilingual Plane, so one `char` is one UTF-16 code unit here.
   */
  const Trimmable: seq<char> := [
    '\t', '\n', '\U{B}', '\U{C}', '\r', ' ', '\U{A0}', '\U{1680}',
    '\U{2000}', '\U{2001}', '\U{2002}', '\U{2003}', '\U{2004}', '\U{2005}',
    '\U{2006}', '\U{2007}', '\U{2008}', '\U{2009}', '\U{200A}',
    '\U{2028}', '\U{2029}', '\U{202F}', '\U{205F}', '\U{3000}', '\U{FEFF}'
  ]

  /** `c` occurs in `cs`. */
  predicate Listed(c: char, cs: seq<char>)
  {
    cs != [] && (cs[0] == c || Listed(c, cs[1..]))
  }

  /** `c` is one of the characters `trim` removes. */
  predicate IsTrimmable(c: char)
  {
    Listed(c, Trimmable)
  }

  /** `s` without its leading trimmable characters: the longest suffix that does not start with one. */
  function TrimStart(s: string): (r: string)
    ensures |r| <= |s| && r == s[|s| - |r|..]
    ensures forall i :: 0 <= i < |s| - |r| ==> IsTrimmable(s[i])
    ensures r != [] ==> !IsTrimmable(r[0])
  {
    if s != [] && IsTrimmable(s[0]) then TrimStart(s[1..]) else s
  }

  /** `s` without its trailing trimmable characters: the longest prefix that does not end with one. */
  function TrimEnd(s: string): (r: string)
    ensures |r| <= |s| && r == s[..|r|]
    ensures forall i :: |r| <= i < |s| ==> IsTrimmable(s[i])
    ensures r != [] ==> !IsTrimmable(r[|r| - 1])
  {
    if s != [] && IsTrimmable(s[|s| - 1]) then TrimEnd(s[..|s| - 1]) else s
  }

  /**
   * `String.prototype.trim`: what is left of `s` after dropping its leading
   * and its trailing trimmable characters. The result is the part of `s`
   * that starts where `TrimStart` starts; everything before and after it is
   * trimmable, and it neither begins nor ends with a trimmable character.
   */
  function Trim(s: string): (r: string)
    ensures |r| <= |TrimStart(s)| <= |s|
    ensures forall i :: 0 <= i < |r| ==> r[i] == s[|s| - |TrimStart(s)| + i]
    ensures forall i :: 0 <= i < |s| - |TrimStart(s)| ==> IsTrimmable(s[i])
    ensures forall i :: |s| - |TrimStart(s)| + |r| <= i < |s| ==> IsTrimmable(s[i])
    ensures r != [] ==> !IsTrimmable(r[0]) && !IsTrimmable(r[|r| - 1])
  {
    var t := TrimStart(s);
    var r := TrimEnd(t);
    TrimParts(s, t, r);
    r
  }

  /**
   * Dropping a trimmable prefix of `s` (leaving `t`) and then a trimmable
   * suffix of `t` (leaving `r`) drops a trimmable prefix and a trimmable
   * suffix of `s`, and leaves `r` as the part of `s` in between.
   */
  lemma TrimParts(s: string, t: string, r: string)
    requires |r| <= |t| <= |s| && t == s[|s| - |t|..] && r == t[..|r|]
    requires forall i :: 0 <= i < |s| - |t| ==> IsTrimmable(s[i])
    requires forall j :: |r| <= j < |t| ==> IsTrimmable(t[j])
    requires t != [] ==> !IsTrimmable(t[0])
    requires r != [] ==> !IsTrimmable(r[|r| - 1])
    ensures forall i :: 0 <= i < |r| ==> r[i] == s[|s| - |t| + i]
    ensures forall i :: |s| - |t| + |r| <= i < |s| ==> IsTrimmable(s[i])
    ensures r != [] ==> !IsTrimmable(r[0]) && !IsTrimmable(r[|r| - 1])
  {
    var d := |s| - |t|;
    forall i | d + |r| <= i < |s| ensures IsTrimmable(s[i]) {
      assert s[i] == t[i - d];
    }
    if r != [] {
      assert r[0] == t[0];
    }
  }

  /**
   * The validation both handlers apply before asking for confirmation: the
   * title is rejected when every character of it is trimmable (the empty
   * title included). `BlankIffTrimIsEmpty` shows this is `trim() === ''`.
   */
  predicate IsBlank(s: string)
  {
    forall i :: 0 <= i < |s| ==> IsTrimmable(s[i])
  }

  /** A title is blank exactly when `trim` turns it into the empty string. */
  lemma BlankIffTrimIsEmpty(s: string)
    ensures IsBlank(s) <==> Trim(s) == ""
  {
  }
}
