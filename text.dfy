/** The JavaScript string operations the core relies on: `toLowerCase`, `includes`
    and `trim`. A string is a sequence of `char`s, each a Unicode scalar value; JavaScript
    strings are sequences of UTF-16 code units, so a character outside the Basic
    Multilingual Plane is one `char` here and two code units there. */
module Text {

  /** `toLowerCase` on one character, for the ASCII letters. */
  function LowerChar(c: char): (d: char)
    ensures 'A' <= c <= 'Z' ==> 'a' <= d <= 'z' && d as int - c as int == 32
    ensures !('A' <= c <= 'Z') ==> d == c
  {
    if 'A' <= c <= 'Z' then (c as int + 32) as char else c
  }

  /** `s.toLowerCase()`, with case mapping restricted to ASCII. */
  function Lower(s: string): (r: string)
    ensures |r| == |s|
    ensures forall i :: 0 <= i < |s| ==> r[i] == LowerChar(s[i])
  {
    if s == [] then [] else [LowerChar(s[0])] + Lower(s[1..])
  }

  /** Lower-casing is idempotent: a lower-cased string has no upper-case letter left. */
  lemma LowerIdempotent(s: string)
    ensures Lower(Lower(s)) == Lower(s)
    ensures forall i :: 0 <= i < |s| ==> !('A' <= Lower(s)[i] <= 'Z')
  {
    assert forall i :: 0 <= i < |s| ==> Lower(Lower(s))[i] == Lower(s)[i];
  }

  /** `needle` occurs in `hay` starting at index `i`. */
  predicate OccursAt(hay: string, needle: string, i: int) {
    0 <= i && i + |needle| <= |hay| && hay[i..i + |needle|] == needle
  }

  /** `hay.includes(needle)`: the search is left to right; the empty string is in every string. */
  function Includes(hay: string, needle: string): (r: bool)
    ensures r <==> exists i :: OccursAt(hay, needle, i)
    decreases |hay|
  {
    if |needle| > |hay| then
      assert forall i :: !OccursAt(hay, needle, i);
      false
    else if hay[..|needle|] == needle then
      assert OccursAt(hay, needle, 0);
      true
    else
      var tail := Includes(hay[1..], needle);
      OccursInTail(hay, needle);
      tail
  }

  /** An occurrence at a positive index is an occurrence in the tail, one index earlier. */
  lemma OccursInTail(hay: string, needle: string)
    requires |needle| <= |hay| && hay[..|needle|] != needle
    ensures (exists i :: OccursAt(hay, needle, i)) <==> (exists i :: OccursAt(hay[1..], needle, i))
  {
    if exists i :: OccursAt(hay, needle, i) {
      var i :| OccursAt(hay, needle, i);
      assert i != 0;
      assert hay[1..][i - 1..i - 1 + |needle|] == hay[i..i + |needle|];
      assert OccursAt(hay[1..], needle, i - 1);
    }
    if exists i :: OccursAt(hay[1..], needle, i) {
      var i :| OccursAt(hay[1..], needle, i);
      assert hay[1..][i..i + |needle|] == hay[i + 1..i + 1 + |needle|];
      assert OccursAt(hay, needle, i + 1);
    }
  }

  /** The characters that `String.prototype.trim` removes: the ECMAScript WhiteSpace
      (tab, vertical tab, form feed, space, no-break space, byte order mark and the
      other Unicode space separators) and LineTerminator (LF, CR, U+2028, U+2029) sets. */
  predicate IsWhiteSpace(c: char) {
    var n := c as int;
    || n == 0x09 || n == 0x0B || n == 0x0C || n == 0x20 || n == 0xA0 || n == 0xFEFF
    || n == 0x1680 || 0x2000 <= n <= 0x200A || n == 0x202F || n == 0x205F || n == 0x3000
    || n == 0x0A || n == 0x0D || n == 0x2028 || n == 0x2029
  }

  function TrimStart(s: string): (r: string)
    ensures |r| <= |s| && r == s[|s| - |r|..]
    ensures r == [] || !IsWhiteSpace(r[0])
    ensures forall i :: 0 <= i < |s| - |r| ==> IsWhiteSpace(s[i])
  {
    if s != [] && IsWhiteSpace(s[0]) then
      var r := TrimStart(s[1..]);
      assert forall i :: 1 <= i < |s| - |r| ==> s[i] == s[1..][i - 1];
      r
    else s
  }

  function TrimEnd(s: string): (r: string)
    ensures |r| <= |s| && r == s[..|r|]
    ensures r == [] || !IsWhiteSpace(r[|r| - 1])
    ensures forall i :: |r| <= i < |s| ==> IsWhiteSpace(s[i])
  {
    if s != [] && IsWhiteSpace(s[|s| - 1]) then
      var r := TrimEnd(s[..|s| - 1]);
      assert forall i :: |r| <= i < |s| - 1 ==> s[i] == s[..|s| - 1][i];
      r
    else s
  }

  /** `s.trim()`: `s` without its leading and trailing white space. */
  function Trim(s: string): (r: string)
    ensures exists k :: OccursAt(s, r, k) && (forall i :: 0 <= i < k ==> IsWhiteSpace(s[i]))
                        && (forall i :: k + |r| <= i < |s| ==> IsWhiteSpace(s[i]))
    ensures r == [] || (!IsWhiteSpace(r[0]) && !IsWhiteSpace(r[|r| - 1]))
    ensures r == [] <==> forall i :: 0 <= i < |s| ==> IsWhiteSpace(s[i])
  {
    var e := TrimEnd(s);
    var r := TrimStart(e);
    TrimmedPart(s, e, r);
    TrimmedEnds(s, e, r);
    r
  }

  /** What `TrimEnd` and then `TrimStart` remove is white space on either side. */
  lemma TrimmedPart(s: string, e: string, r: string)
    requires |e| <= |s| && e == s[..|e|] && forall i :: |e| <= i < |s| ==> IsWhiteSpace(s[i])
    requires |r| <= |e| && r == e[|e| - |r|..]
    requires forall i :: 0 <= i < |e| - |r| ==> IsWhiteSpace(e[i])
    ensures exists k :: OccursAt(s, r, k) && (forall i :: 0 <= i < k ==> IsWhiteSpace(s[i]))
                        && (forall i :: k + |r| <= i < |s| ==> IsWhiteSpace(s[i]))
  {
    var k := |e| - |r|;
    assert s[k..k + |r|] == r by {
      forall i | 0 <= i < |r| ensures s[k + i] == r[i] {
        assert r[i] == e[k + i] == s[k + i];
      }
    }
    forall i | 0 <= i < k ensures IsWhiteSpace(s[i]) {
      assert s[i] == e[i];
    }
    assert OccursAt(s, r, k);
  }

  /** The trimmed string starts and ends with a character that is not white space,
      and is empty exactly when all of `s` is white space. */
  lemma TrimmedEnds(s: string, e: string, r: string)
    requires |e| <= |s| && e == s[..|e|] && forall i :: |e| <= i < |s| ==> IsWhiteSpace(s[i])
    requires e == [] || !IsWhiteSpace(e[|e| - 1])
    requires |r| <= |e| && r == e[|e| - |r|..]
    requires forall i :: 0 <= i < |e| - |r| ==> IsWhiteSpace(e[i])
    requires r == [] || !IsWhiteSpace(r[0])
    ensures r == [] || (!IsWhiteSpace(r[0]) && !IsWhiteSpace(r[|r| - 1]))
    ensures r == [] <==> forall i :: 0 <= i < |s| ==> IsWhiteSpace(s[i])
  {
    if r == [] {
      if e != [] {
        assert false;
      }
    } else {
      assert r[|r| - 1] == e[|e| - 1] == s[|e| - 1];
    }
  }

  /** Trimming is idempotent. */
  lemma TrimIdempotent(s: string)
    ensures Trim(Trim(s)) == Trim(s)
  {
    var t := Trim(s);
    assert TrimEnd(t) == t;
    assert TrimStart(t) == t;
  }
}
