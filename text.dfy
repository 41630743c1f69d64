/** The PHP string helpers the observer relies on: `strtolower` (ASCII), `trim` and a
    search for the first occurrence of a character. */
module Text {

  import opened Wrappers

  /** `strtolower` on one character: only the ASCII letters A-Z change. */
  function LowerChar(c: char): (r: char)
    ensures 'A' <= c <= 'Z' ==> 'a' <= r <= 'z' && r as int == c as int + 32
    ensures !('A' <= c <= 'Z') ==> r == c
  {
    if 'A' <= c <= 'Z' then (c as int + 32) as char else c
  }

  function Lower(s: string): (r: string)
    ensures |r| == |s|
    ensures forall i :: 0 <= i < |s| ==> r[i] == LowerChar(s[i])
  {
    if s == [] then [] else [LowerChar(s[0])] + Lower(s[1..])
  }

  /** The characters PHP's `trim` strips by default: space, tab, newline, carriage return,
      NUL and vertical tab. */
  predicate IsTrimmed(c: char)
  {
    c == ' ' || c == '\t' || c == '\n' || c == '\r' || c == '\0' || c == '\U{B}'
  }

  function TrimStart(s: string): (r: string)
    ensures |r| <= |s| && r == s[|s| - |r|..]
    ensures r != [] ==> !IsTrimmed(r[0])
    ensures forall i :: 0 <= i < |s| - |r| ==> IsTrimmed(s[i])
  {
    if s != [] && IsTrimmed(s[0]) then TrimStart(s[1..]) else s
  }

  function TrimEnd(s: string): (r: string)
    ensures |r| <= |s| && r == s[..|r|]
    ensures r != [] ==> !IsTrimmed(r[|r| - 1])
    ensures forall i :: |r| <= i < |s| ==> IsTrimmed(s[i])
  {
    if s != [] && IsTrimmed(s[|s| - 1]) then TrimEnd(s[..|s| - 1]) else s
  }

  /** `trim`: strip the default characters from both ends; neither end of the result is
      trimmable. */
  function Trim(s: string): (r: string)
    ensures r != [] ==> !IsTrimmed(r[0]) && !IsTrimmed(r[|r| - 1])
  {
    TrimEnd(TrimStart(s))
  }

  /** `r` is `s` from position `a`, with only trimmable characters cut at either end. */
  predicate Stretch(s: string, r: string, a: int)
  {
    0 <= a && a + |r| <= |s| && r == s[a..a + |r|] &&
    (forall i :: 0 <= i < a ==> IsTrimmed(s[i])) &&
    (forall i :: a + |r| <= i < |s| ==> IsTrimmed(s[i]))
  }

  /** What `trim` keeps: one stretch of the input, from the first character that is not
      trimmable to the last. */
  lemma TrimStretch(s: string)
    ensures Stretch(s, Trim(s), |s| - |TrimStart(s)|)
  {
    TrimSlice(s);
    TrimCutAfter(s);
  }

  lemma TrimSlice(s: string)
    ensures var a := |s| - |TrimStart(s)|; a + |Trim(s)| <= |s| && Trim(s) == s[a..a + |Trim(s)|]
  {
    var m := TrimStart(s);
    var a := |s| - |m|;
    assert m == s[a..];
    assert Trim(s) == m[..|Trim(s)|];
  }

  /** `trim` keeps the stretch of the input from some offset `a`. */
  lemma TrimOffset(s: string) returns (a: nat)
    ensures a + |Trim(s)| <= |s| && Trim(s) == s[a..a + |Trim(s)|]
  {
    var m := TrimStart(s);
    a := |s| - |m|;
    assert m == s[a..];
    assert Trim(s) == m[..|Trim(s)|];
  }

  lemma TrimCutAfter(s: string)
    ensures forall i :: |s| - |TrimStart(s)| + |Trim(s)| <= i < |s| ==> IsTrimmed(s[i])
  {
    var m := TrimStart(s);
    var a := |s| - |m|;
    forall i | a + |Trim(s)| <= i < |s| ensures IsTrimmed(s[i]) {
      assert m[i - a] == s[i];
    }
  }

  /** The position of the first `c` in `s`, if any (`strpos` / the split point of `explode`). */
  function FirstIndexOf(s: string, c: char): (r: Option<nat>)
    ensures r.None? <==> c !in s
    ensures r.Some? ==> r.value < |s| && s[r.value] == c && c !in s[..r.value]
  {
    if s == [] then None
    else if s[0] == c then Some(0)
    else
      match FirstIndexOf(s[1..], c)
      case None => None
      case Some(i) =>
        assert s[1..][..i] == s[1..i + 1];
        Some(i + 1)
  }
}
