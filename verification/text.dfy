/** The string primitives the components rely on: `String.prototype.trim`, the
    regular-expression class `\s`, `toLowerCase`, `includes`, `startsWith` and
    `length`. */
module Text {

  /** ECMAScript WhiteSpace and LineTerminator code points. `trim` strips exactly
      these, and the regular-expression class `\s` matches exactly these, so `\S`
      is their complement. */
  predicate IsSpace(c: char) {
    || c == '\t' || c == '\n' || c == '\U{000B}' || c == '\U{000C}' || c == '\r'
    || c == ' ' || c == '\U{00A0}' || c == '\U{1680}'
    || ('\U{2000}' <= c <= '\U{200A}')
    || c == '\U{2028}' || c == '\U{2029}' || c == '\U{202F}' || c == '\U{205F}'
    || c == '\U{3000}' || c == '\U{FEFF}'
  }

  /** Every character is whitespace (this includes the empty string). */
  ghost predicate IsBlank(s: string) {
    forall i :: 0 <= i < |s| ==> IsSpace(s[i])
  }

  /** Drops leading whitespace. */
  function TrimStart(s: string): string
    decreases |s|
  {
    if |s| > 0 && IsSpace(s[0]) then TrimStart(s[1..]) else s
  }

  /** Drops trailing whitespace. */
  function TrimEnd(s: string): string
    decreases |s|
  {
    if |s| > 0 && IsSpace(s[|s| - 1]) then TrimEnd(s[..|s| - 1]) else s
  }

  /** `TrimStart` drops a whitespace prefix and stops at the first other character. */
  lemma {:induction false} TrimStartMeaning(s: string)
    ensures |TrimStart(s)| <= |s| && TrimStart(s) == s[|s| - |TrimStart(s)|..]
    ensures forall i :: 0 <= i < |s| - |TrimStart(s)| ==> IsSpace(s[i])
    ensures |TrimStart(s)| > 0 ==> !IsSpace(TrimStart(s)[0])
    decreases |s|
  {
    if |s| > 0 && IsSpace(s[0]) {
      TrimStartMeaning(s[1..]);
    }
  }

  /** `TrimEnd` drops a whitespace suffix and stops at the last other character. */
  lemma {:induction false} TrimEndMeaning(s: string)
    ensures |TrimEnd(s)| <= |s| && TrimEnd(s) == s[..|TrimEnd(s)|]
    ensures forall i :: |TrimEnd(s)| <= i < |s| ==> IsSpace(s[i])
    ensures |TrimEnd(s)| > 0 ==> !IsSpace(TrimEnd(s)[|TrimEnd(s)| - 1])
    decreases |s|
  {
    if |s| > 0 && IsSpace(s[|s| - 1]) {
      TrimEndMeaning(s[..|s| - 1]);
    }
  }

  /** `r` is `s` with `k` leading and `|s| - k - |r|` trailing characters dropped, all of
      them whitespace. */
  ghost predicate TrimmedAt(s: string, r: string, k: int) {
    && OccursAt(s, r, k)
    && (forall i :: 0 <= i < k ==> IsSpace(s[i]))
    && (forall i :: k + |r| <= i < |s| ==> IsSpace(s[i]))
  }

  /** `s.trim()`. */
  function Trim(s: string): string {
    TrimEnd(TrimStart(s))
  }

  /** `s.trim()` drops only whitespace, from both ends, and neither end of what is
      left is whitespace; it leaves nothing exactly when `s` is blank. */
  lemma TrimMeaning(s: string)
    ensures exists k :: TrimmedAt(s, Trim(s), k)
    ensures |Trim(s)| > 0 ==> !IsSpace(Trim(s)[0]) && !IsSpace(Trim(s)[|Trim(s)| - 1])
    ensures |Trim(s)| == 0 <==> IsBlank(s)
  {
    TrimOfBlank(s);
    var t := TrimStart(s);
    TrimStartMeaning(s);
    TrimEndMeaning(t);
    var r := Trim(s);
    assert TrimmedAt(s, r, |s| - |t|);
    if |r| > 0 {
      assert r[0] == t[0];
    }
  }

  /** The two trimming passes together drop only whitespace, and leave nothing
      exactly when the string is blank. */
  lemma TrimOfBlank(s: string)
    ensures TrimmedAt(s, TrimEnd(TrimStart(s)), |s| - |TrimStart(s)|)
    ensures |TrimEnd(TrimStart(s))| == 0 <==> IsBlank(s)
  {
    var t := TrimStart(s);
    var r := TrimEnd(t);
    TrimStartMeaning(s);
    TrimEndMeaning(t);
    var k := |s| - |t|;
    assert t == s[k..];
    assert r == t[..|r|];
    assert forall i :: 0 <= i < k ==> IsSpace(s[i]);
    assert forall i :: |r| <= i < |t| ==> IsSpace(t[i]);
    forall i | k + |r| <= i < |s| ensures IsSpace(s[i]) {
      assert s[i] == t[i - k];
    }
    assert r == s[k..k + |r|];
    assert TrimmedAt(s, r, k);
    if |r| > 0 {
      assert s[k] == r[0];
      assert !IsBlank(s);
    } else {
      assert IsBlank(s);
    }
  }

  /** ASCII case folding of one character. */
  function LowerChar(c: char): (d: char)
    ensures 'A' <= c <= 'Z' ==> d as int == c as int + 32
    ensures !('A' <= c <= 'Z') ==> d == c
  {
    if 'A' <= c <= 'Z' then (c as int + 32) as char else c
  }

  /** `s.toLowerCase()`, restricted to ASCII letters. */
  function Lower(s: string): (r: string)
    ensures |r| == |s|
    ensures forall i :: 0 <= i < |s| ==> r[i] == LowerChar(s[i])
  {
    seq(|s|, i requires 0 <= i < |s| => LowerChar(s[i]))
  }

  /** Lowercasing is idempotent, and a lowercased string holds no upper-case ASCII letter. */
  lemma LowerIdempotent(s: string)
    ensures Lower(Lower(s)) == Lower(s)
    ensures forall i :: 0 <= i < |s| ==> !('A' <= Lower(s)[i] <= 'Z')
  {
  }

  /** `needle` occurs in `hay` at index `k`. */
  ghost predicate OccursAt(hay: string, needle: string, k: int) {
    0 <= k && k + |needle| <= |hay| && hay[k..k + |needle|] == needle
  }

  /** Does `needle` occur in `hay` at some index `k` or later? */
  function IncludesFrom(hay: string, needle: string, k: nat): (b: bool)
    requires k <= |hay|
    ensures b <==> exists j :: k <= j && OccursAt(hay, needle, j)
    decreases |hay| - k
  {
    if k + |needle| > |hay| then false
    else if hay[k..k + |needle|] == needle then assert OccursAt(hay, needle, k); true
    else IncludesFrom(hay, needle, k + 1)
  }

  /** `hay.includes(needle)`: a substring search. */
  function Includes(hay: string, needle: string): (b: bool)
    ensures b <==> exists j :: OccursAt(hay, needle, j)
  {
    IncludesFrom(hay, needle, 0)
  }

  /** `s.startsWith(prefix)`: an occurrence at index 0, hence also an `includes`. */
  predicate StartsWith(s: string, prefix: string): (b: bool)
    ensures b <==> OccursAt(s, prefix, 0)
    ensures b ==> Includes(s, prefix)
  {
    |prefix| <= |s| && s[..|prefix|] == prefix
  }

  /** `s.length`: JavaScript counts UTF-16 code units, so a code point outside the
      Basic Multilingual Plane counts twice. */
  function Utf16Length(s: string): (n: nat)
    ensures |s| <= n <= 2 * |s|
  {
    if |s| == 0 then 0
    else (if s[0] as int >= 0x1_0000 then 2 else 1) + Utf16Length(s[1..])
  }

  /** For text inside the Basic Multilingual Plane `length` is the number of characters. */
  lemma {:induction false} Utf16LengthOfBmp(s: string)
    requires forall i :: 0 <= i < |s| ==> s[i] as int < 0x1_0000
    ensures Utf16Length(s) == |s|
  {
    if |s| > 0 {
      Utf16LengthOfBmp(s[1..]);
    }
  }

  /** `length` adds up over concatenation, and one character counts two code units
      exactly when it lies outside the Basic Multilingual Plane. */
  lemma {:induction false} Utf16LengthAdditive(a: string, b: string)
    ensures Utf16Length(a + b) == Utf16Length(a) + Utf16Length(b)
    ensures |a| == 1 ==> Utf16Length(a) == if a[0] as int >= 0x1_0000 then 2 else 1
    decreases |a|
  {
    if |a| > 0 {
      assert (a + b)[0] == a[0];
      assert (a + b)[1..] == a[1..] + b;
      Utf16LengthAdditive(a[1..], b);
    } else {
      assert a + b == b;
    }
  }
}
