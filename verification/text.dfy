/** The JavaScript string operations the server relies on: the regular
    expression class `\s`, `toLowerCase`, `trim`, `split(/\s+/)` and the
    `length` of a string, which counts UTF-16 code units. */
module Text {

  /** ECMAScript WhiteSpace and LineTerminator code points: the class `\s`
      matches exactly these, and `String.prototype.trim` removes exactly
      these. */
  predicate IsWhitespace(c: char)
  {
    || c == '\t' || c == '\n' || c == '\U{000B}' || c == '\U{000C}' || c == '\r' || c == ' '
    || c == '\U{00A0}' || c == '\U{1680}' || ('\U{2000}' <= c <= '\U{200A}')
    || c == '\U{2028}' || c == '\U{2029}' || c == '\U{202F}' || c == '\U{205F}'
    || c == '\U{3000}' || c == '\U{FEFF}'
  }

  /** Every character is whitespace (the empty string included): `s.trim()`
      is then the falsy empty string. */
  predicate IsBlank(s: string)
  {
    forall i :: 0 <= i < |s| ==> IsWhitespace(s[i])
  }

  predicate HasNoWhitespace(s: string)
  {
    forall i :: 0 <= i < |s| ==> !IsWhitespace(s[i])
  }

  // ---------------------------------------------------------------------
  // toLowerCase
  // ---------------------------------------------------------------------

  /** The upper-case letters of Basic Latin and Latin-1 (U+00D7 is the
      multiplication sign, not a letter). */
  predicate IsUpper(c: char)
  {
    ('A' <= c <= 'Z') || ('\U{00C0}' <= c <= '\U{00DE}' && c != '\U{00D7}')
  }

  /** The lower-case mapping of one character: each upper-case letter of
      Basic Latin and Latin-1 maps to its small letter 32 code points on. */
  function LowerChar(c: char): (d: char)
    ensures !IsUpper(d)
    ensures !IsUpper(c) ==> d == c
    ensures IsWhitespace(d) <==> IsWhitespace(c)
  {
    if IsUpper(c) then (c as int + 32) as char else c
  }

  /** The small letters of Basic Latin and Latin-1 that have a capital in
      Latin-1 (U+00F7 is the division sign; ß and ÿ have none there). */
  predicate IsLower(c: char)
  {
    ('a' <= c <= 'z') || ('\U{00E0}' <= c <= '\U{00FE}' && c != '\U{00F7}')
  }

  /** The upper-case mapping, tabled on its own: each such small letter
      maps to its capital 32 code points back. */
  function UpperChar(c: char): char
  {
    if IsLower(c) then (c as int - 32) as char else c
  }

  /** The two case mappings undo one another on the letters they move. */
  lemma CaseRoundTrip(c: char)
    ensures IsUpper(c) ==> IsLower(LowerChar(c)) && UpperChar(LowerChar(c)) == c
    ensures IsLower(c) ==> IsUpper(UpperChar(c)) && LowerChar(UpperChar(c)) == c
  {
  }

  /** `s.toLowerCase()`: no capital is left, every capital becomes the
      small letter whose capital it is, and every other character stays. */
  function Lower(s: string): (r: string)
    ensures |r| == |s|
    ensures forall i :: 0 <= i < |s| ==> !IsUpper(r[i])
    ensures forall i :: 0 <= i < |s| ==> IsUpper(s[i]) ==> IsLower(r[i]) && UpperChar(r[i]) == s[i]
    ensures forall i :: 0 <= i < |s| ==> !IsUpper(s[i]) ==> r[i] == s[i]
  {
    seq(|s|, i requires 0 <= i < |s| => LowerChar(s[i]))
  }

  /** Lower-casing leaves the blank strings blank and the others non-blank. */
  lemma LowerKeepsBlankness(s: string)
    ensures IsBlank(Lower(s)) <==> IsBlank(s)
  {
  }

  lemma LowerIdempotent(s: string)
    ensures Lower(Lower(s)) == Lower(s)
  {
  }

  // ---------------------------------------------------------------------
  // trim
  // ---------------------------------------------------------------------

  /** `s` without its leading whitespace run. */
  function TrimStart(s: string): (r: string)
    ensures |r| <= |s| && r == s[|s| - |r|..]
    ensures IsBlank(s[..|s| - |r|])
    ensures r == [] || !IsWhitespace(r[0])
    ensures |s| > 0 && IsWhitespace(s[0]) ==> |r| < |s|
    decreases |s|
  {
    if |s| > 0 && IsWhitespace(s[0]) then
      var r := TrimStart(s[1..]);
      var k := |s| - |r|;
      assert s[..k] == [s[0]] + s[1..][..k - 1];
      BlankCons(s[0], s[1..][..k - 1]);
      assert s[k..] == s[1..][k - 1..];
      r
    else
      s
  }

  lemma BlankCons(c: char, s: string)
    requires IsWhitespace(c) && IsBlank(s)
    ensures IsBlank([c] + s)
  {
    assert forall i :: 0 < i <= |s| ==> ([c] + s)[i] == s[i - 1];
  }

  lemma BlankSnoc(s: string, c: char)
    requires IsBlank(s) && IsWhitespace(c)
    ensures IsBlank(s + [c])
  {
    assert forall i :: 0 <= i < |s| ==> (s + [c])[i] == s[i];
  }

  /** `s` without its trailing whitespace run. */
  function TrimEnd(s: string): (r: string)
    ensures |r| <= |s| && r == s[..|r|]
    ensures IsBlank(s[|r|..])
    ensures r == [] || !IsWhitespace(r[|r| - 1])
    decreases |s|
  {
    if |s| > 0 && IsWhitespace(s[|s| - 1]) then
      var init := s[..|s| - 1];
      var r := TrimEnd(init);
      assert r == s[..|r|];
      assert s[|r|..] == init[|r|..] + [s[|s| - 1]];
      BlankSnoc(init[|r|..], s[|s| - 1]);
      r
    else
      s
  }

  /** `s.trim()`: the result is empty exactly when `s` is blank, and
      otherwise starts and ends with a non-whitespace character. */
  function Trim(s: string): (r: string)
    ensures r == [] <==> IsBlank(s)
    ensures r != [] ==> !IsWhitespace(r[0]) && !IsWhitespace(r[|r| - 1])
  {
    var t := TrimStart(s);
    assert s == s[..|s| - |t|] + t;
    TrimEnd(t)
  }

  /** `trim` removes nothing but a blank prefix and a blank suffix. */
  lemma TrimPieces(s: string) returns (before: string, after: string)
    ensures s == before + Trim(s) + after
    ensures IsBlank(before) && IsBlank(after)
  {
    var t := TrimStart(s);
    var r := TrimEnd(t);
    before := s[..|s| - |t|];
    after := t[|r|..];
    Reassemble(s, |s| - |t|, |r|);
  }

  /** Cutting `s` at `k` and its tail again at `j` loses nothing. */
  lemma Reassemble(s: string, k: nat, j: nat)
    requires k + j <= |s|
    ensures s == s[..k] + s[k..][..j] + s[k..][j..]
  {
    assert s[k..] == s[k..][..j] + s[k..][j..];
    assert s == s[..k] + s[k..];
  }

  // ---------------------------------------------------------------------
  // split(/\s+/)
  // ---------------------------------------------------------------------

  /** The pieces `split(/\s+/)` produces from `s` once `current` has been
      collected into the piece under construction: every maximal run of
      whitespace ends a piece, so leading or trailing whitespace yields an
      empty first or last piece. */
  function SplitFrom(s: string, current: string): (r: seq<string>)
    ensures |r| >= 1
    decreases |s|
  {
    if |s| == 0 then [current]
    else if IsWhitespace(s[0]) then [current] + SplitFrom(TrimStart(s), [])
    else SplitFrom(s[1..], current + [s[0]])
  }

  /** `s.split(/\s+/)`; in particular `"".split(/\s+/)` is `[""]`. */
  function SplitOnWhitespace(s: string): (r: seq<string>)
    ensures |r| >= 1
  {
    SplitFrom(s, [])
  }

  /** `ts.join(" ")`. */
  function JoinWithSpace(ts: seq<string>): string
    requires |ts| >= 1
    decreases |ts|
  {
    if |ts| == 1 then ts[0] else ts[0] + " " + JoinWithSpace(ts[1..])
  }

  /** The pieces glued together with no separator. */
  function Concat(ts: seq<string>): string
    decreases |ts|
  {
    if |ts| == 0 then [] else ts[0] + Concat(ts[1..])
  }

  /** The characters of `s` that are not whitespace, in order. */
  function RemoveWhitespace(s: string): string
    decreases |s|
  {
    if |s| == 0 then []
    else (if IsWhitespace(s[0]) then [] else [s[0]]) + RemoveWhitespace(s[1..])
  }

  /** The shape of every result of `split(/\s+/)`: at least one piece, no
      whitespace inside any piece, and only the first and the last piece may
      be empty. */
  predicate IsSplitShape(ts: seq<string>)
  {
    && |ts| >= 1
    && (forall i :: 0 <= i < |ts| ==> HasNoWhitespace(ts[i]))
    && (forall i :: 0 < i < |ts| - 1 ==> ts[i] != [])
  }

  lemma {:induction false} SplitFromShape(s: string, current: string)
    requires HasNoWhitespace(current)
    ensures IsSplitShape(SplitFrom(s, current))
    ensures current != [] || (|s| > 0 && !IsWhitespace(s[0])) ==> SplitFrom(s, current)[0] != []
    decreases |s|
  {
    if |s| == 0 {
    } else if IsWhitespace(s[0]) {
      var t := TrimStart(s);
      SplitFromShape(t, []);
      var rest := SplitFrom(t, []);
      assert |rest| >= 2 ==> t != [];
      assert SplitFrom(s, current) == [current] + rest;
    } else {
      var next := current + [s[0]];
      assert HasNoWhitespace(next) by {
        forall i | 0 <= i < |next|
          ensures !IsWhitespace(next[i])
        {
          if i < |current| {
            assert next[i] == current[i];
          }
        }
      }
      SplitFromShape(s[1..], next);
    }
  }

  /** Every result of `split(/\s+/)` has the split shape. */
  lemma SplitShape(s: string)
    ensures IsSplitShape(SplitOnWhitespace(s))
  {
    SplitFromShape(s, []);
  }

  lemma {:induction false} RemoveWhitespaceAppend(a: string, b: string)
    ensures RemoveWhitespace(a + b) == RemoveWhitespace(a) + RemoveWhitespace(b)
    decreases |a|
  {
    if |a| == 0 {
      assert a + b == b;
    } else {
      assert (a + b)[0] == a[0];
      assert (a + b)[1..] == a[1..] + b;
      RemoveWhitespaceAppend(a[1..], b);
    }
  }

  lemma {:induction false} RemoveWhitespaceOfBlank(s: string)
    requires IsBlank(s)
    ensures RemoveWhitespace(s) == []
    decreases |s|
  {
    if |s| > 0 {
      RemoveWhitespaceOfBlank(s[1..]);
    }
  }

  /** Dropping the leading whitespace run drops no other character. */
  lemma RemoveWhitespaceOfTrimStart(s: string)
    ensures RemoveWhitespace(TrimStart(s)) == RemoveWhitespace(s)
  {
    var t := TrimStart(s);
    var lead := s[..|s| - |t|];
    assert s == lead + t;
    RemoveWhitespaceAppend(lead, t);
    RemoveWhitespaceOfBlank(lead);
    assert [] + RemoveWhitespace(t) == RemoveWhitespace(t);
  }

  lemma {:induction false} SplitFromKeepsText(s: string, current: string)
    ensures Concat(SplitFrom(s, current)) == current + RemoveWhitespace(s)
    decreases |s|
  {
    if |s| == 0 {
      assert Concat([current]) == current + Concat([]);
    } else if IsWhitespace(s[0]) {
      var t := TrimStart(s);
      var rest := SplitFrom(t, []);
      SplitFromKeepsText(t, []);
      assert ([current] + rest)[1..] == rest;
      assert Concat([current] + rest) == current + Concat(rest);
      RemoveWhitespaceOfTrimStart(s);
    } else {
      SplitFromKeepsText(s[1..], current + [s[0]]);
      assert current + [s[0]] + RemoveWhitespace(s[1..]) == current + ([s[0]] + RemoveWhitespace(s[1..]));
    }
  }

  /** Splitting drops exactly the whitespace: the pieces, glued together,
      are the non-whitespace characters of `s` in their original order. */
  lemma SplitKeepsText(s: string)
    ensures Concat(SplitOnWhitespace(s)) == RemoveWhitespace(s)
  {
    SplitFromKeepsText(s, []);
    assert [] + RemoveWhitespace(s) == RemoveWhitespace(s);
  }

  lemma {:induction false} SplitFromWord(w: string, s: string, current: string)
    requires HasNoWhitespace(w)
    ensures SplitFrom(w + s, current) == SplitFrom(s, current + w)
    decreases |w|
  {
    if w == [] {
      assert w + s == s;
      assert current + w == current;
    } else {
      assert (w + s)[0] == w[0];
      assert (w + s)[1..] == w[1..] + s;
      SplitFromWord(w[1..], s, current + [w[0]]);
      assert current + [w[0]] + w[1..] == current + w;
    }
  }

  /** What follows a separator in a joined list of split shape starts with
      a non-whitespace character, or is empty. */
  lemma JoinStart(ts: seq<string>)
    requires IsSplitShape(ts)
    requires |ts| == 1 || ts[0] != []
    ensures JoinWithSpace(ts) == [] || !IsWhitespace(JoinWithSpace(ts)[0])
  {
    if |ts| >= 2 {
      assert JoinWithSpace(ts)[0] == ts[0][0];
    } else if ts[0] != [] {
      assert HasNoWhitespace(ts[0]);
    }
  }

  lemma SplitAfterSeparator(first: string, rest: string)
    requires rest == [] || !IsWhitespace(rest[0])
    ensures SplitFrom(" " + rest, first) == [first] + SplitFrom(rest, [])
  {
    assert (" " + rest)[1..] == rest;
    assert TrimStart(" " + rest) == TrimStart(rest) == rest;
  }

  /** Splitting is the inverse of joining with a single space, for every
      list of pieces of the split shape. */
  lemma {:induction false} SplitJoinRoundTrip(ts: seq<string>)
    requires IsSplitShape(ts)
    ensures SplitOnWhitespace(JoinWithSpace(ts)) == ts
    decreases |ts|
  {
    if |ts| == 1 {
      SplitFromWord(ts[0], [], []);
      assert ts[0] + [] == ts[0];
      assert [] + ts[0] == ts[0];
    } else {
      var tail := ts[1..];
      assert IsSplitShape(tail) by {
        assert forall i :: 0 <= i < |tail| ==> tail[i] == ts[i + 1];
      }
      SplitJoinRoundTrip(tail);
      JoinStart(tail);
      var rest := JoinWithSpace(tail);
      assert JoinWithSpace(ts) == ts[0] + (" " + rest);
      SplitFromWord(ts[0], " " + rest, []);
      assert [] + ts[0] == ts[0];
      SplitAfterSeparator(ts[0], rest);
      assert [ts[0]] + tail == ts;
    }
  }

  /** A blank string splits into empty pieces only: one for the empty
      string, and two, before and after the whitespace run, otherwise. */
  lemma SplitOfBlank(s: string)
    requires IsBlank(s)
    ensures forall i :: 0 <= i < |SplitOnWhitespace(s)| ==> SplitOnWhitespace(s)[i] == []
    ensures SplitOnWhitespace(s) == if s == [] then [[]] else [[], []]
  {
    if |s| > 0 {
      var t := TrimStart(s);
      assert t == [];
      assert SplitFrom(t, []) == [[]];
      assert SplitFrom(s, []) == [[]] + SplitFrom(t, []);
    }
  }

  // ---------------------------------------------------------------------
  // length
  // ---------------------------------------------------------------------

  /** `s.length`: characters beyond the Basic Multilingual Plane take two
      UTF-16 code units. */
  function Utf16Length(s: string): (n: nat)
    ensures |s| <= n <= 2 * |s|
    decreases |s|
  {
    if |s| == 0 then 0
    else (if s[0] as int > 0xFFFF then 2 else 1) + Utf16Length(s[1..])
  }

  lemma {:induction false} Utf16LengthAppend(a: string, b: string)
    ensures Utf16Length(a + b) == Utf16Length(a) + Utf16Length(b)
    decreases |a|
  {
    if |a| == 0 {
      assert a + b == b;
    } else {
      assert (a + b)[0] == a[0];
      assert (a + b)[1..] == a[1..] + b;
      Utf16LengthAppend(a[1..], b);
    }
  }

  /** On text of the Basic Multilingual Plane, `length` is the number of
      characters. */
  lemma {:induction false} Utf16LengthOfBmp(s: string)
    requires forall i :: 0 <= i < |s| ==> s[i] as int <= 0xFFFF
    ensures Utf16Length(s) == |s|
    decreases |s|
  {
    if |s| > 0 {
      Utf16LengthOfBmp(s[1..]);
    }
  }
}
