/**
 * The string primitives the request handlers rely on: Python's `str.strip()`,
 * `str.lower()`, `str.upper()`, the substring test `needle in hay` and
 * `sep.join(parts)`.
 */
module Text {

  /** Python's `str.isspace()` for one character: the code points `str.strip()` removes. */
  predicate IsSpace(c: char) {
    c == ' ' || ('\t' <= c <= '\r') || ('\U{1C}' <= c <= '\U{1F}') ||
    c == '\U{85}' || c == '\U{A0}' || c == '\U{1680}' || ('\U{2000}' <= c <= '\U{200A}') ||
    c == '\U{2028}' || c == '\U{2029}' || c == '\U{202F}' || c == '\U{205F}' || c == '\U{3000}'
  }

  ghost predicate AllSpace(s: string) {
    forall k :: 0 <= k < |s| ==> IsSpace(s[k])
  }

  /** `s.lstrip()`: drops leading whitespace. */
  function TrimStart(s: string): (r: string)
    ensures |r| <= |s|
    ensures r != [] ==> !IsSpace(r[0])
  {
    if s != [] && IsSpace(s[0]) then TrimStart(s[1..]) else s
  }

  /** What `s.lstrip()` drops is whitespace, and what it keeps is a suffix of `s`. */
  lemma {:induction false} TrimStartSuffix(s: string)
    ensures var r := TrimStart(s); r == s[|s| - |r|..] && AllSpace(s[..|s| - |r|])
  {
    if s != [] && IsSpace(s[0]) {
      TrimStartSuffix(s[1..]);
      var r := TrimStart(s);
      assert s[1..][|s| - 1 - |r|..] == s[|s| - |r|..];
      assert s[..|s| - |r|] == [s[0]] + s[1..][..|s| - 1 - |r|];
    }
  }

  /** `s.rstrip()`: drops trailing whitespace. */
  function TrimEnd(s: string): (r: string)
    ensures |r| <= |s|
    ensures r != [] ==> !IsSpace(r[|r| - 1])
  {
    if s != [] && IsSpace(s[|s| - 1]) then TrimEnd(s[..|s| - 1]) else s
  }

  /** What `s.rstrip()` drops is whitespace, and what it keeps is a prefix of `s`. */
  lemma {:induction false} TrimEndPrefix(s: string)
    ensures var r := TrimEnd(s); r == s[..|r|] && AllSpace(s[|r|..])
  {
    if s != [] && IsSpace(s[|s| - 1]) {
      TrimEndPrefix(s[..|s| - 1]);
      var r := TrimEnd(s);
      assert s[..|s| - 1][..|r|] == s[..|r|];
      assert s[|r|..] == s[..|s| - 1][|r|..] + [s[|s| - 1]];
    }
  }

  /** `s.strip()`: the stripped text neither starts nor ends with whitespace. */
  function Strip(s: string): (r: string)
    ensures r != [] ==> !IsSpace(r[0]) && !IsSpace(r[|r| - 1])
  {
    var t := TrimStart(s);
    TrimEndPrefix(t);
    TrimEnd(t)
  }

  /** The stripped text is empty exactly when `s` is all whitespace. */
  lemma StripEmptyIff(s: string)
    ensures Strip(s) == [] <==> AllSpace(s)
  {
    var t := TrimStart(s);
    TrimStartSuffix(s);
    TrimEndPrefix(t);
    if Strip(s) == [] {
      AllSpaceConcat(s[..|s| - |t|], t);
      assert s == s[..|s| - |t|] + t;
    }
  }

  lemma AllSpaceConcat(a: string, b: string)
    requires AllSpace(a) && AllSpace(b)
    ensures AllSpace(a + b)
  {
    forall k | 0 <= k < |a + b| ensures IsSpace((a + b)[k]) {
      if k < |a| { assert (a + b)[k] == a[k]; } else { assert (a + b)[k] == b[k - |a|]; }
    }
  }

  /** `s` is the stripped text with whitespace only before and after it. */
  lemma StripInfix(s: string)
    ensures var r := Strip(s);
      exists i :: 0 <= i <= |s| - |r| && s[i..i + |r|] == r && AllSpace(s[..i]) && AllSpace(s[i + |r|..])
  {
    var t := TrimStart(s);
    var r := TrimEnd(t);
    TrimStartSuffix(s);
    TrimEndPrefix(t);
    var i := |s| - |t|;
    assert s[i..i + |r|] == r;
    assert s[i + |r|..] == t[|r|..];
  }

  /** A text that neither starts nor ends with whitespace is left as it is. */
  lemma StripKeepsTrimmed(s: string)
    requires s != [] ==> !IsSpace(s[0]) && !IsSpace(s[|s| - 1])
    ensures Strip(s) == s
  {
    assert TrimStart(s) == s;
    assert TrimEnd(s) == s;
  }

  /** Stripping twice strips nothing more. */
  lemma StripIdempotent(s: string)
    ensures Strip(Strip(s)) == Strip(s)
  {
    StripKeepsTrimmed(Strip(s));
  }

  function LowerChar(c: char): char {
    if 'A' <= c <= 'Z' then (c as int + 32) as char else c
  }

  function UpperChar(c: char): char {
    if 'a' <= c <= 'z' then (c as int - 32) as char else c
  }

  /** `s.lower()`, on the ASCII letters. */
  function Lower(s: string): (r: string)
    ensures |r| == |s|
    ensures forall i :: 0 <= i < |s| ==> r[i] == LowerChar(s[i])
  {
    seq(|s|, i requires 0 <= i < |s| => LowerChar(s[i]))
  }

  /** `s.upper()`, on the ASCII letters. */
  function Upper(s: string): (r: string)
    ensures |r| == |s|
    ensures forall i :: 0 <= i < |s| ==> r[i] == UpperChar(s[i])
  {
    seq(|s|, i requires 0 <= i < |s| => UpperChar(s[i]))
  }

  predicate IsPrefix(p: string, s: string) {
    |p| <= |s| && s[..|p|] == p
  }

  /** The meaning of Python's `needle in hay`: `needle` starts at some position of `hay`. */
  ghost predicate Occurs(needle: string, hay: string) {
    exists i :: 0 <= i <= |hay| && IsPrefix(needle, hay[i..])
  }

  /** Python's `needle in hay`, scanning `hay` from the left. */
  function Contains(hay: string, needle: string): bool
  {
    IsPrefix(needle, hay) || (hay != [] && Contains(hay[1..], needle))
  }

  lemma {:induction false} ContainsIff(hay: string, needle: string)
    ensures Contains(hay, needle) <==> Occurs(needle, hay)
  {
    if IsPrefix(needle, hay) {
      assert hay[0..] == hay;
    } else if hay == [] {
      forall i | 0 <= i <= |hay| ensures !IsPrefix(needle, hay[i..]) {
        assert hay[i..] == hay;
      }
    } else {
      ContainsIff(hay[1..], needle);
      if Occurs(needle, hay[1..]) {
        var i :| 0 <= i <= |hay[1..]| && IsPrefix(needle, hay[1..][i..]);
        assert hay[1..][i..] == hay[i + 1..];
      }
      if Occurs(needle, hay) {
        var i :| 0 <= i <= |hay| && IsPrefix(needle, hay[i..]);
        assert i != 0 by { assert hay[0..] == hay; }
        assert hay[1..][i - 1..] == hay[i..];
      }
    }
  }

  /** A substring of a substring is a substring. */
  lemma OccursTransitive(a: string, b: string, c: string)
    requires Occurs(a, b) && Occurs(b, c)
    ensures Occurs(a, c)
  {
    var i :| 0 <= i <= |b| && IsPrefix(a, b[i..]);
    var j :| 0 <= j <= |c| && IsPrefix(b, c[j..]);
    forall t | 0 <= t < |a| ensures c[j + i + t] == a[t] {
      assert a[t] == b[i..][t] == b[i + t];
      assert b[i + t] == c[j..][i + t] == c[j + i + t];
    }
    assert c[j + i..][..|a|] == a;
  }

  /** Whenever `outer in hay` holds and `inner in outer`, then `inner in hay`. */
  lemma ContainsTransitive(hay: string, outer: string, inner: string)
    requires Contains(hay, outer) && Contains(outer, inner)
    ensures Contains(hay, inner)
  {
    ContainsIff(hay, outer);
    ContainsIff(outer, inner);
    OccursTransitive(inner, outer, hay);
    ContainsIff(hay, inner);
  }

  /** Every character of a substring occurs in the text. */
  lemma CharsOccur(hay: string, needle: string)
    requires Occurs(needle, hay)
    ensures forall c :: c in needle ==> c in hay
  {
    var i :| 0 <= i <= |hay| && IsPrefix(needle, hay[i..]);
    forall c | c in needle ensures c in hay {
      var j :| 0 <= j < |needle| && needle[j] == c;
      assert hay[i..][j] == hay[i + j];
    }
  }

  /** A text missing some character of `needle` does not contain `needle`. */
  lemma NotOccurs(hay: string, needle: string, c: char)
    requires c in needle && c !in hay
    ensures !Occurs(needle, hay)
  {
    if Occurs(needle, hay) { CharsOccur(hay, needle); }
  }

  lemma NotContains(hay: string, needle: string, c: char)
    requires c in needle && c !in hay
    ensures !Contains(hay, needle)
  {
    NotOccurs(hay, needle, c);
    ContainsIff(hay, needle);
  }

  /** Python's `sep.join(parts)`. */
  function Join(sep: string, parts: seq<string>): string
  {
    if parts == [] then "" else if |parts| == 1 then parts[0] else parts[0] + sep + Join(sep, parts[1..])
  }
}
