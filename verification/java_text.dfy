/** The parts of Java's `String`, `Pattern` and null references that the chat
    program relies on, written out so that the rest of the model can use them. */
module JavaText {

  /** A Java reference that may be `null`. */
  datatype Nullable<+T> = Null | Val(value: T)

  /** A Java call that either returns normally or throws an unchecked
      exception (`NullPointerException`, `StringIndexOutOfBoundsException`). */
  datatype Outcome<+T> = Normal(value: T) | Thrown

  /** `"" + s` in Java: a null string is rendered as "null". */
  function Show(s: Nullable<string>): string
  {
    match s
    case Null => "null"
    case Val(v) => v
  }

  // ---------------------------------------------------------------- \w+

  /** Java's default `\w`: `[a-zA-Z_0-9]`. */
  predicate IsWordChar(c: char)
  {
    ('a' <= c <= 'z') || ('A' <= c <= 'Z') || ('0' <= c <= '9') || c == '_'
  }

  /** `Pattern.matches("\\w+", s)`: the whole string is one or more word characters. */
  predicate IsValidName(s: string)
  {
    |s| > 0 && forall i :: 0 <= i < |s| ==> IsWordChar(s[i])
  }

  /** A direct transcription of the regular expression `\w+`: one word
      character, then the rest matches `\w*`. */
  predicate MatchesWordStar(s: string)
    decreases |s|
  {
    s == [] || (IsWordChar(s[0]) && MatchesWordStar(s[1..]))
  }

  /** The closed-form name check agrees with the regular expression `\w+`. */
  lemma {:induction false} ValidNameIsWordPlus(s: string)
    ensures IsValidName(s) <==> (|s| > 0 && IsWordChar(s[0]) && MatchesWordStar(s[1..]))
  {
    if |s| > 0 {
      WordStarAll(s[1..]);
      if IsValidName(s) {
        assert forall i :: 0 <= i < |s[1..]| ==> IsWordChar(s[1..][i]) by {
          forall i | 0 <= i < |s[1..]| ensures IsWordChar(s[1..][i]) {
            assert s[1..][i] == s[i + 1];
          }
        }
      }
      if IsWordChar(s[0]) && MatchesWordStar(s[1..]) {
        forall i | 0 <= i < |s| ensures IsWordChar(s[i]) {
          if i > 0 { assert s[i] == s[1..][i - 1]; }
        }
      }
    }
  }

  lemma {:induction false} WordStarAll(s: string)
    ensures MatchesWordStar(s) <==> forall i :: 0 <= i < |s| ==> IsWordChar(s[i])
    decreases |s|
  {
    if |s| > 0 {
      WordStarAll(s[1..]);
      assert forall i :: 0 < i < |s| ==> s[i] == s[1..][i - 1];
    }
  }

  /** A valid name contains none of the characters the sentinels and the
      message texts use as separators, so no sentinel is ever a valid name. */
  lemma NameHasNoSeparators(s: string)
    requires IsValidName(s)
    ensures ' ' !in s && '<' !in s && ':' !in s && '.' !in s
  {
  }

  // ---------------------------------------------------------------- trim

  /** `String.trim` removes every leading and trailing character whose code is
      at most U+0020. */
  predicate IsTrimmed(c: char)
  {
    c <= ' '
  }

  function TrimStart(s: string): string
    decreases |s|
  {
    if |s| > 0 && IsTrimmed(s[0]) then TrimStart(s[1..]) else s
  }

  function TrimEnd(s: string): string
    decreases |s|
  {
    if |s| > 0 && IsTrimmed(s[|s| - 1]) then TrimEnd(s[..|s| - 1]) else s
  }

  /** `s.trim()`: the result neither starts nor ends with a trimmed
      character (see `TrimIsSlice` for what is cut away). */
  function Trim(s: string): (r: string)
    ensures |r| <= |s|
    ensures r == "" || (!IsTrimmed(r[0]) && !IsTrimmed(r[|r| - 1]))
  {
    // The cut positions carry the facts about the ends of the result.
    var lo := TrimStartIndex(s);
    var hi := TrimEndIndex(s[lo..]);
    assert TrimEnd(TrimStart(s)) == s[lo..][..hi];
    TrimEnd(TrimStart(s))
  }

  /** The result of `trim()` is a slice of `s`, and everything cut away on
      either side is trimmed. */
  lemma TrimIsSlice(s: string)
    ensures exists lo, hi :: 0 <= lo <= hi <= |s| && Trim(s) == s[lo..hi] &&
                             (forall k :: 0 <= k < lo ==> IsTrimmed(s[k])) &&
                             (forall k :: hi <= k < |s| ==> IsTrimmed(s[k]))
  {
    var lo := TrimStartIndex(s);
    var hi := TrimEndIndex(s[lo..]);
    assert s[lo..][..hi] == s[lo..lo + hi];
    assert forall k :: lo + hi <= k < |s| ==> s[k] == s[lo..][k - lo];
  }

  /** Where `TrimStart` cuts: everything before it is trimmed. */
  function TrimStartIndex(s: string): (lo: nat)
    ensures lo <= |s| && TrimStart(s) == s[lo..]
    ensures forall k :: 0 <= k < lo ==> IsTrimmed(s[k])
    ensures lo < |s| ==> !IsTrimmed(s[lo])
    decreases |s|
  {
    if |s| > 0 && IsTrimmed(s[0]) then
      var lo' := TrimStartIndex(s[1..]);
      assert forall k :: 1 <= k < 1 + lo' ==> s[k] == s[1..][k - 1];
      assert s[1..][lo'..] == s[1 + lo'..];
      1 + lo'
    else 0
  }

  /** Where `TrimEnd` cuts: everything after it is trimmed. */
  function TrimEndIndex(s: string): (hi: nat)
    ensures hi <= |s| && TrimEnd(s) == s[..hi]
    ensures forall k :: hi <= k < |s| ==> IsTrimmed(s[k])
    ensures hi > 0 ==> !IsTrimmed(s[hi - 1])
    decreases |s|
  {
    if |s| > 0 && IsTrimmed(s[|s| - 1]) then
      var hi' := TrimEndIndex(s[..|s| - 1]);
      assert s[..|s| - 1][..hi'] == s[..hi'];
      assert forall k :: hi' <= k < |s| - 1 ==> s[k] == s[..|s| - 1][k];
      hi'
    else |s|
  }

  /** `s.trim().equals("")` holds exactly when every character of `s` is trimmed. */
  lemma TrimEmptyIffBlank(s: string)
    ensures Trim(s) == "" <==> forall k :: 0 <= k < |s| ==> IsTrimmed(s[k])
  {
    var lo := TrimStartIndex(s);
    var hi := TrimEndIndex(s[lo..]);
    if Trim(s) == "" {
      assert hi == 0;
    }
  }

  /** Trimming twice is trimming once. */
  lemma TrimIdempotent(s: string)
    ensures Trim(Trim(s)) == Trim(s)
  {
    var r := Trim(s);
    if r != "" {
      assert TrimStartIndex(r) == 0;
      assert TrimEndIndex(r) == |r|;
    }
  }

  /** Trimming strips exactly the padding around a text whose first and last
      characters are not trimmed. */
  lemma TrimOfPadded(a: string, x: string, b: string)
    requires x != [] && !IsTrimmed(x[0]) && !IsTrimmed(x[|x| - 1])
    requires forall k :: 0 <= k < |a| ==> IsTrimmed(a[k])
    requires forall k :: 0 <= k < |b| ==> IsTrimmed(b[k])
    ensures Trim(a + x + b) == x
  {
    var s := a + x + b;
    var lo := TrimStartIndex(s);
    assert s[|a|] == x[0];
    assert lo == |a|;
    var t := s[lo..];
    assert t == x + b;
    var hi := TrimEndIndex(t);
    assert t[|x| - 1] == x[|x| - 1];
    assert hi == |x|;
    assert t[..hi] == x;
  }

  // ---------------------------------------------------------------- search and slices

  /** `s.toLowerCase()` on ASCII letters. */
  function ToLower(s: string): (r: string)
    ensures |r| == |s|
  {
    seq(|s|, i requires 0 <= i < |s| => if 'A' <= s[i] <= 'Z' then (s[i] as int + 32) as char else s[i])
  }

  /** Lower-casing works character by character. */
  lemma ToLowerAppend(a: string, b: string)
    ensures ToLower(a + b) == ToLower(a) + ToLower(b)
  {
  }

  /** `s.startsWith(p)`. */
  predicate StartsWith(s: string, p: string)
  {
    |p| <= |s| && s[..|p|] == p
  }

  /** A text starting with `p + q` starts with `p`. */
  lemma StartsWithShorter(s: string, p: string, q: string)
    ensures StartsWith(s, p + q) ==> StartsWith(s, p)
  {
    if StartsWith(s, p + q) {
      assert s[..|p|] == (p + q)[..|p|];
    }
  }

  /** `s.indexOf(c)`: the first position of `c`, or -1. */
  function IndexOf(s: string, c: char): (r: int)
    ensures -1 <= r < |s|
    ensures r == -1 <==> c !in s
    ensures r >= 0 ==> s[r] == c && c !in s[..r]
    decreases |s|
  {
    if |s| == 0 then -1
    else if s[0] == c then 0
    else
      var r' := IndexOf(s[1..], c);
      assert r' >= 0 ==> s[..r' + 1] == [s[0]] + s[1..][..r'];
      assert r' == -1 ==> s == [s[0]] + s[1..];
      if r' == -1 then -1 else r' + 1
  }

  /** The first `c` of a text is the one after a `c`-free prefix. */
  lemma IndexOfFirst(x: string, c: char, y: string)
    requires c !in x
    ensures IndexOf(x + [c] + y, c) == |x|
  {
    var s := x + [c] + y;
    assert s[|x|] == c;
  }

  /** A position holding the first `c` is where `indexOf(c)` points. */
  lemma IndexOfUnique(s: string, c: char, k: nat)
    requires k < |s| && s[k] == c && c !in s[..k]
    ensures IndexOf(s, c) == k
  {
  }

  /** `s.substring(b)`: throws unless `0 <= b <= s.length()`. */
  function SubstringFrom(s: string, b: int): (r: Outcome<string>)
    ensures r.Normal? <==> 0 <= b <= |s|
  {
    if 0 <= b <= |s| then Normal(s[b..]) else Thrown
  }

  /** `s.substring(b, e)`: throws unless `0 <= b <= e <= s.length()`. */
  function Substring(s: string, b: int, e: int): (r: Outcome<string>)
    ensures r.Normal? <==> 0 <= b <= e <= |s|
  {
    if 0 <= b <= e <= |s| then Normal(s[b..e]) else Thrown
  }
}
