/** Character and string helpers: ASCII lower-casing, character classes, prefixes, substrings, trimming. */
module Text {
  import opened Wrappers

  predicate IsUpper(c: char) { 'A' <= c <= 'Z' }

  /** ASCII lower-casing of one character (what `toLowerCase` and SQL `LOWER` do on ASCII). */
  function Lower(c: char): (r: char)
    ensures !IsUpper(r)
    ensures IsUpper(c) <==> r != c
  {
    if IsUpper(c) then (c as int + 32) as char else c
  }

  function LowerStr(s: string): (r: string)
    ensures |r| == |s|
    ensures forall i :: 0 <= i < |s| ==> r[i] == Lower(s[i])
  {
    if s == [] then [] else [Lower(s[0])] + LowerStr(s[1..])
  }

  /** A character outside the Basic Multilingual Plane, which a JavaScript string holds as a surrogate pair. */
  predicate IsAstral(c: char) { c as int >= 0x1_0000 }

  /**
   * JavaScript's `length`, which zod's `min` and `max` compare as well: UTF-16 code units, two for an
   * astral character. A `varchar` column counts characters, each of which is one element of `s`.
   */
  function Utf16Length(s: string): (n: nat)
    ensures |s| <= n <= 2 * |s|
    ensures n == |s| <==> forall i :: 0 <= i < |s| ==> !IsAstral(s[i])
    ensures (forall i :: 0 <= i < |s| ==> IsAstral(s[i])) ==> n == 2 * |s|
  {
    if s == [] then 0
    else
      var n := (if IsAstral(s[0]) then 2 else 1) + Utf16Length(s[1..]);
      assert (forall i :: 0 <= i < |s| ==> !IsAstral(s[i])) <==>
             !IsAstral(s[0]) && forall i :: 0 <= i < |s[1..]| ==> !IsAstral(s[1..][i]);
      n
  }

  /** Lower-casing twice is lower-casing once. */
  lemma LowerStrIdempotent(s: string)
    ensures LowerStr(LowerStr(s)) == LowerStr(s)
  {
    var l := LowerStr(s);
    assert forall i :: 0 <= i < |l| ==> Lower(l[i]) == l[i];
  }

  /** `[a-zA-Z0-9]` */
  predicate IsAlnum(c: char) { 'a' <= c <= 'z' || 'A' <= c <= 'Z' || '0' <= c <= '9' }

  /** `[a-zA-Z0-9_]` */
  predicate IsWordChar(c: char) { IsAlnum(c) || c == '_' }

  predicate StartsWith(s: string, prefix: string) {
    |prefix| <= |s| && s[..|prefix|] == prefix
  }

  /** `sub` occurs in `s` starting at index `i`. */
  predicate OccursAt(s: string, sub: string, i: nat) {
    i + |sub| <= |s| && s[i..i + |sub|] == sub
  }

  /** `s` contains `sub` as a contiguous substring (SQL `LIKE '%sub%'` with no wildcards in `sub`). */
  function Contains(s: string, sub: string): (b: bool)
    ensures b <==> exists i: nat :: OccursAt(s, sub, i)
  {
    if |sub| > |s| then false
    else if s[..|sub|] == sub then assert OccursAt(s, sub, 0); true
    else
      var b := Contains(s[1..], sub);
      assert b ==> exists i: nat :: OccursAt(s, sub, i) by {
        if b {
          var i: nat :| OccursAt(s[1..], sub, i);
          assert s[i + 1..i + 1 + |sub|] == s[1..][i..i + |sub|];
          assert OccursAt(s, sub, i + 1);
        }
      }
      assert (exists i: nat :: OccursAt(s, sub, i)) ==> b by {
        if exists i: nat :: OccursAt(s, sub, i) {
          var i: nat :| OccursAt(s, sub, i);
          assert i != 0;
          assert s[1..][i - 1..i - 1 + |sub|] == s[i..i + |sub|];
          assert OccursAt(s[1..], sub, i - 1);
        }
      }
      b
  }

  /**
   * The white-space characters JavaScript's `trim` and `parseInt` skip: tab, vertical tab, form feed,
   * the byte-order mark, the line terminators (LF, CR, U+2028, U+2029) and every Unicode space
   * separator (U+0020, U+00A0, U+1680, U+2000 to U+200A, U+202F, U+205F, U+3000).
   */
  predicate IsSpace(c: char) {
    c == '\t' || c == '\U{000B}' || c == '\U{000C}' || c == '\U{FEFF}'
    || c == '\n' || c == '\r' || c == '\U{2028}' || c == '\U{2029}'
    || c == ' ' || c == '\U{00A0}' || c == '\U{1680}' || '\U{2000}' <= c <= '\U{200A}'
    || c == '\U{202F}' || c == '\U{205F}' || c == '\U{3000}'
  }

  function TrimStart(s: string): (r: string)
    ensures |r| <= |s| && r == s[|s| - |r|..]
    ensures r == [] || !IsSpace(r[0])
    ensures forall i :: 0 <= i < |s| - |r| ==> IsSpace(s[i])
  {
    if s != [] && IsSpace(s[0]) then TrimStart(s[1..]) else s
  }

  function TrimEnd(s: string): (r: string)
    ensures |r| <= |s| && r == s[..|r|]
    ensures r == [] || !IsSpace(r[|r| - 1])
    ensures forall i :: |r| <= i < |s| ==> IsSpace(s[i])
  {
    if s != [] && IsSpace(s[|s| - 1]) then TrimEnd(s[..|s| - 1]) else s
  }

  /** JavaScript `trim`: drop leading and trailing white space. */
  function Trim(s: string): (r: string)
    ensures r == [] || (!IsSpace(r[0]) && !IsSpace(r[|r| - 1]))
    ensures r == [] <==> forall i :: 0 <= i < |s| ==> IsSpace(s[i])
  {
    var t := TrimStart(s);
    var r := TrimEnd(t);
    assert r != [] ==> !IsSpace(r[0]) by {
      if r != [] { assert r[0] == t[0]; }
    }
    r
  }

  /** The Unicode space separators beyond Latin-1 are trimmed too: the ogham, typographic, narrow, mathematical and ideographic spaces. */
  lemma SpaceSeparatorsTrimmed()
    ensures Trim("\U{1680}\U{2000}\U{2005}\U{200A}\U{202F}\U{205F}\U{3000}") == []
  {
    var seps: string := "\U{1680}\U{2000}\U{2005}\U{200A}\U{202F}\U{205F}\U{3000}";
    assert forall i :: 0 <= i < |seps| ==> IsSpace(seps[i]);
  }

  /** Index of the first occurrence of `c` in `s`, if any. */
  function IndexOf(s: string, c: char): (r: Option<nat>)
    ensures r.Some? ==> r.value < |s| && s[r.value] == c && forall j :: 0 <= j < r.value ==> s[j] != c
    ensures r.None? ==> forall j :: 0 <= j < |s| ==> s[j] != c
  {
    if s == [] then None
    else if s[0] == c then Some(0)
    else match IndexOf(s[1..], c)
      case None => None
      case Some(k) => Some(k + 1)
  }

  /** JavaScript `s.split(sep)[1]`: the text between the first and the second `sep` (or the end); absent when `s` has no `sep`. */
  function SecondField(s: string, sep: char): (r: Option<string>)
    ensures r.None? <==> forall j :: 0 <= j < |s| ==> s[j] != sep
    ensures r.Some? ==> forall j :: 0 <= j < |r.value| ==> r.value[j] != sep
  {
    match IndexOf(s, sep)
    case None => None
    case Some(i) =>
      var rest := s[i + 1..];
      match IndexOf(rest, sep)
      case None => Some(rest)
      case Some(j) => Some(rest[..j])
  }

  /** The field after a fixed prefix ending in `sep` is the rest of the string, when the rest holds no `sep`. */
  lemma SecondFieldAfterPrefix(prefix: string, name: string, sep: char)
    requires |prefix| > 0 && prefix[|prefix| - 1] == sep
    requires forall j :: 0 <= j < |prefix| - 1 ==> prefix[j] != sep
    requires forall j :: 0 <= j < |name| ==> name[j] != sep
    ensures SecondField(prefix + name, sep) == Some(name)
  {
    var s := prefix + name;
    var idx := IndexOf(s, sep);
    assert s[|prefix| - 1] == sep;
    assert idx == Some(|prefix| - 1);
    assert s[|prefix|..] == name;
  }
}
