/**
 * Characters and strings with the meaning Python 3 gives them: `str.isspace`,
 * `str.lower`, `str.strip`, `str.split`, `str.join`, `in`, `str.replace`.
 * Character classes are exact for ASCII and Latin-1; see README for the rest.
 */
module Text {
  import opened Common

  // ---------------------------------------------------------------------------
  // Characters

  predicate IsDigit(c: char) { '0' <= c <= '9' }

  predicate IsAsciiLetter(c: char) { 'a' <= c <= 'z' || 'A' <= c <= 'Z' }

  predicate IsAsciiLower(c: char) { 'a' <= c <= 'z' }

  /** Whitespace as `str.isspace()` and the `\s` class of a `str` pattern see it. */
  predicate IsSpace(c: char)
  {
    || '\t' <= c <= '\r'
    || '\U{1C}' <= c <= ' '
    || c == '\U{85}' || c == '\U{A0}' || c == '\U{1680}'
    || '\U{2000}' <= c <= '\U{200A}'
    || c == '\U{2028}' || c == '\U{2029}' || c == '\U{202F}' || c == '\U{205F}' || c == '\U{3000}'
  }

  /** Latin-1 letters and digits outside ASCII that `str.isalnum()` accepts. */
  predicate IsLatin1Alnum(c: char)
  {
    || c == '\U{AA}' || c == '\U{B2}' || c == '\U{B3}' || c == '\U{B5}' || c == '\U{B9}' || c == '\U{BA}'
    || '\U{BC}' <= c <= '\U{BE}'
    || '\U{C0}' <= c <= '\U{D6}' || '\U{D8}' <= c <= '\U{F6}' || '\U{F8}' <= c <= '\U{FF}'
  }

  /** A `\w` character: the side of a `\b` boundary that counts as a word. */
  predicate IsWordChar(c: char)
  {
    IsAsciiLetter(c) || IsDigit(c) || c == '_' || IsLatin1Alnum(c)
  }

  /** The letter class `[A-ZÄÖÜa-zäöüß]` the scrapers' patterns use. */
  predicate IsGermanLetter(c: char)
  {
    IsAsciiLetter(c) || c in {'\U{C4}', '\U{D6}', '\U{DC}', '\U{E4}', '\U{F6}', '\U{FC}', '\U{DF}'}
  }

  /** The city class `[A-ZÄÖÜa-zäöüß\s\-]`: letters, whitespace and hyphens. */
  predicate IsCityChar(c: char)
  {
    IsGermanLetter(c) || IsSpace(c) || c == '-'
  }

  /** The phone class `[0-9\s\-\/\(\)\+]`. */
  predicate IsPhoneChar(c: char)
  {
    IsDigit(c) || IsSpace(c) || c in {'-', '/', '(', ')', '+'}
  }

  /** Upper-case letters that `str.lower()` maps one-to-one onto a lower-case letter. */
  predicate IsUpperLatin1(c: char)
  {
    'A' <= c <= 'Z' || ('\U{C0}' <= c <= '\U{DE}' && c != '\U{D7}')
  }

  /** `c.lower()` for a single character. */
  function Lower(c: char): (r: char)
    ensures IsUpperLatin1(c) ==> r as int == c as int + 32
    ensures !IsUpperLatin1(c) ==> r == c
    ensures IsDigit(r) <==> IsDigit(c)
    ensures IsSpace(r) <==> IsSpace(c)
  {
    if IsUpperLatin1(c) then (c as int + 32) as char else c
  }

  /** The inverse of `Lower` on the letters it changes; used only for case-blind classes. */
  function Upper(c: char): (r: char)
    ensures r != c ==> IsUpperLatin1(r) && Lower(r) == c
  {
    if 'a' <= c <= 'z' || ('\U{E0}' <= c <= '\U{FE}' && c != '\U{F7}') then (c as int - 32) as char else c
  }

  // ---------------------------------------------------------------------------
  // Whole strings

  /** `s.lower()`. */
  function LowerStr(s: string): (r: string)
    ensures |r| == |s|
    ensures forall k | 0 <= k < |s| :: r[k] == Lower(s[k])
  {
    if s == [] then [] else [Lower(s[0])] + LowerStr(s[1..])
  }

  predicate AllDigits(s: string) { forall k | 0 <= k < |s| :: IsDigit(s[k]) }

  predicate NoSpace(s: string) { forall k | 0 <= k < |s| :: !IsSpace(s[k]) }

  predicate StartsWith(s: string, p: string) { |p| <= |s| && s[..|p|] == p }

  predicate EndsWith(s: string, p: string) { |p| <= |s| && s[|s| - |p|..] == p }

  lemma EndsWithAppend(a: string, b: string)
    ensures EndsWith(a + b, b)
  {
    assert (a + b)[|a|..] == b;
  }

  /** Whether `t` occurs in `s` at index `k`. */
  predicate OccursAt(s: string, t: string, k: int)
  {
    0 <= k && k + |t| <= |s| && s[k..k + |t|] == t
  }

  /** The first index at or after `from` where `t` occurs in `s` (`s.find(t, from)`). */
  function IndexFrom(s: string, t: string, from: nat): (r: Option<nat>)
    ensures r.Some? ==> from <= r.value && OccursAt(s, t, r.value)
    ensures r.Some? ==> forall k | from <= k < r.value :: !OccursAt(s, t, k)
    ensures r.None? ==> forall k | from <= k :: !OccursAt(s, t, k)
    decreases |s| - from
  {
    if from + |t| > |s| then None
    else if s[from..from + |t|] == t then Some(from)
    else IndexFrom(s, t, from + 1)
  }

  function IndexOf(s: string, t: string): (r: Option<nat>)
    ensures r.Some? ==> OccursAt(s, t, r.value) && forall k | 0 <= k < r.value :: !OccursAt(s, t, k)
    ensures r.None? ==> forall k :: !OccursAt(s, t, k)
  {
    IndexFrom(s, t, 0)
  }

  /** Python's `t in s` for two strings. */
  predicate Contains(s: string, t: string)
  {
    IndexOf(s, t).Some?
  }

  lemma ContainsAt(s: string, t: string, k: int)
    requires OccursAt(s, t, k)
    ensures Contains(s, t)
  {
  }

  /** `t` occurs in `a + t + b`. */
  lemma ContainsMiddle(a: string, t: string, b: string)
    ensures Contains(a + t + b, t)
  {
    assert (a + t + b)[|a|..|a| + |t|] == t;
    ContainsAt(a + t + b, t, |a|);
  }

  /** `t` occurs at the end of `a + t`. */
  lemma ContainsEnd(a: string, t: string)
    ensures Contains(a + t, t)
  {
    assert (a + t)[|a|..|a| + |t|] == t;
    ContainsAt(a + t, t, |a|);
  }

  /** What occurs in `s` still occurs once more text is appended. */
  lemma ContainsExtend(s: string, t: string, b: string)
    requires Contains(s, t)
    ensures Contains(s + b, t)
  {
    var k := IndexOf(s, t).value;
    assert (s + b)[k..k + |t|] == s[k..k + |t|];
    ContainsAt(s + b, t, k);
  }

  /** A prefix of `s` is still a prefix once more text is appended. */
  lemma StartsWithExtend(s: string, p: string, b: string)
    requires StartsWith(s, p)
    ensures StartsWith(s + b, p)
  {
    assert (s + b)[..|p|] == s[..|p|];
  }

  /** `any(w in s for w in words)`. */
  predicate ContainsAny(s: string, words: seq<string>)
  {
    exists k | 0 <= k < |words| :: Contains(s, words[k])
  }

  // ---------------------------------------------------------------------------
  // strip

  /** The number of leading characters of `s` that satisfy `p`. */
  function LeadCount(s: string, p: char -> bool): (n: nat)
    ensures n <= |s|
    ensures forall k | 0 <= k < n :: p(s[k])
    ensures n < |s| ==> !p(s[n])
  {
    if s != [] && p(s[0]) then 1 + LeadCount(s[1..], p) else 0
  }

  /** The number of trailing characters of `s` that satisfy `p`. */
  function TrailCount(s: string, p: char -> bool): (n: nat)
    ensures n <= |s|
    ensures forall k | |s| - n <= k < |s| :: p(s[k])
    ensures n < |s| ==> !p(s[|s| - 1 - n])
  {
    if s != [] && p(s[|s| - 1]) then 1 + TrailCount(s[..|s| - 1], p) else 0
  }

  /** `s` without its leading and trailing characters that satisfy `p`. */
  function StripBy(s: string, p: char -> bool): (r: string)
    ensures r == [] || (!p(r[0]) && !p(r[|r| - 1]))
    ensures LeadCount(s, p) == |s| ==> r == []
    ensures LeadCount(s, p) < |s| ==>
      LeadCount(s, p) + TrailCount(s, p) < |s| && r == s[LeadCount(s, p)..|s| - TrailCount(s, p)]
  {
    var a := LeadCount(s, p);
    var b := TrailCount(s, p);
    if a == |s| then []
    else
      assert !p(s[a]);
      s[a..|s| - b]
  }

  /** Stripping twice strips nothing more. */
  lemma StripByIdempotent(s: string, p: char -> bool)
    ensures StripBy(StripBy(s, p), p) == StripBy(s, p)
  {
    var r := StripBy(s, p);
    if r != [] {
      assert LeadCount(r, p) == 0;
      assert !p(r[|r| - 1]);
      assert r[0..|r|] == r;
    }
  }

  /** Stripping keeps a contiguous part of `s`, so any class that holds all of `s` holds the result. */
  lemma StripByKeeps(s: string, p: char -> bool, q: char -> bool)
    requires forall k | 0 <= k < |s| :: q(s[k])
    ensures forall k | 0 <= k < |StripBy(s, p)| :: q(StripBy(s, p)[k])
  {
    var r := StripBy(s, p);
    if r != [] {
      var a := LeadCount(s, p);
      forall k | 0 <= k < |r| ensures q(r[k]) {
        assert r[k] == s[a + k];
      }
    }
  }

  /** Stripping keeps a contiguous part of `s`, so it keeps `s` free of two spaces in a row. */
  lemma StripByNoDoubleSpace(s: string, p: char -> bool)
    requires forall k | 0 <= k < |s| - 1 :: !(s[k] == ' ' && s[k + 1] == ' ')
    ensures forall k | 0 <= k < |StripBy(s, p)| - 1 :: !(StripBy(s, p)[k] == ' ' && StripBy(s, p)[k + 1] == ' ')
  {
    var r := StripBy(s, p);
    if r != [] {
      var a := LeadCount(s, p);
      assert r == s[a..|s| - TrailCount(s, p)];
      forall k | 0 <= k < |r| - 1 ensures !(r[k] == ' ' && r[k + 1] == ' ') {
        assert r[k] == s[a + k];
        assert r[k + 1] == s[a + k + 1];
      }
    }
  }

  /** A string whose lower-case form holds a word with a non-space character does not strip to nothing. */
  lemma StripNotEmpty(s: string, t: string)
    requires Contains(LowerStr(s), t)
    requires t != [] && !IsSpace(t[0])
    ensures StripBy(s, IsSpace) != []
  {
    var k := IndexOf(LowerStr(s), t).value;
    assert LowerStr(s)[k..k + |t|][0] == t[0];
    assert !IsSpace(s[k]);
  }

  /** A string that neither starts nor ends with a stripped character is its own strip. */
  lemma StripByNothing(s: string, p: char -> bool)
    requires s == [] || (!p(s[0]) && !p(s[|s| - 1]))
    ensures StripBy(s, p) == s
  {
    if s != [] {
      assert LeadCount(s, p) == 0 && TrailCount(s, p) == 0;
      assert s[0..|s| - 0] == s;
    }
  }

  /** `s.strip()`: `s` without its leading and trailing whitespace. */
  function Strip(s: string): string
  {
    StripBy(s, IsSpace)
  }

  /** `s.strip(chars)`: removes leading and trailing characters that belong to `cs`. */
  function StripChars(s: string, cs: set<char>): string
  {
    StripBy(s, c => c in cs)
  }

  /** `s.lstrip()`. */
  function TrimLeft(s: string): (r: string)
    ensures |r| <= |s| && r == s[|s| - |r|..]
    ensures r == [] || !IsSpace(r[0])
    ensures forall k | 0 <= k < |s| - |r| :: IsSpace(s[k])
  {
    if s != [] && IsSpace(s[0]) then TrimLeft(s[1..]) else s
  }

  // ---------------------------------------------------------------------------
  // split / join

  /** `s.split(c)` for a single-character separator. */
  function Split(s: string, c: char): (parts: seq<string>)
    ensures |parts| >= 1
    ensures forall k | 0 <= k < |parts| :: c !in parts[k]
    ensures |parts[0]| <= |s| && parts[0] == s[..|parts[0]|]
    ensures |parts[0]| < |s| ==> s[|parts[0]|] == c
  {
    if s == [] then [""]
    else if s[0] == c then [""] + Split(s[1..], c)
    else
      var rest := Split(s[1..], c);
      [[s[0]] + rest[0]] + rest[1..]
  }

  /** `sep.join(parts)`. */
  function Join(parts: seq<string>, sep: string): (r: string)
    ensures |parts| == 0 ==> r == ""
    ensures |parts| == 1 ==> r == parts[0]
  {
    if |parts| == 0 then ""
    else if |parts| == 1 then parts[0]
    else parts[0] + sep + Join(parts[1..], sep)
  }

  lemma {:induction false} JoinSplit(s: string, c: char)
    ensures Join(Split(s, c), [c]) == s
  {
    if s == [] {
    } else if s[0] == c {
      JoinSplit(s[1..], c);
      var rest := Split(s[1..], c);
      assert Split(s, c)[1..] == rest;
    } else {
      JoinSplit(s[1..], c);
      var rest := Split(s[1..], c);
      if |rest| == 1 {
      } else {
        assert Split(s, c)[1..] == rest[1..];
      }
    }
  }

  /** The lines of `s`: `[l.strip() for l in s.split('\n') if l.strip()]`. */
  function NonBlankLines(s: string): (lines: seq<string>)
    ensures forall k | 0 <= k < |lines| :: lines[k] != "" && lines[k] == Strip(lines[k])
  {
    StrippedNonBlank(Split(s, '\n'))
  }

  function StrippedNonBlank(parts: seq<string>): (lines: seq<string>)
    ensures |lines| <= |parts|
    ensures forall k | 0 <= k < |lines| :: lines[k] != "" && lines[k] == Strip(lines[k])
  {
    if parts == [] then []
    else
      var t := Strip(parts[0]);
      StripByIdempotent(parts[0], IsSpace);
      if t == "" then StrippedNonBlank(parts[1..]) else [t] + StrippedNonBlank(parts[1..])
  }

  // ---------------------------------------------------------------------------
  // Whitespace collapsing and replacement

  /** `re.sub(r'\s+', ' ', s)`: every maximal run of whitespace becomes one space. */
  function CollapseSpaces(s: string): (r: string)
    ensures |r| <= |s|
    ensures r == [] <==> s == []
    ensures s != [] ==> (IsSpace(r[0]) <==> IsSpace(s[0]))
    decreases |s|
  {
    if s == [] then []
    else if IsSpace(s[0]) then [' '] + CollapseSpaces(TrimLeft(s[1..]))
    else [s[0]] + CollapseSpaces(s[1..])
  }

  /** The collapse holds no whitespace but the space, and never two spaces in a row. */
  lemma {:induction false} CollapseSpacesShape(s: string)
    ensures OnlyPlainSpaces(CollapseSpaces(s)) && NoDoubleSpace(CollapseSpaces(s))
    decreases |s|
  {
    if s == [] {
    } else if IsSpace(s[0]) {
      var rest := TrimLeft(s[1..]);
      CollapseSpacesShape(rest);
      ConsCollapsed(' ', CollapseSpaces(rest));
    } else {
      CollapseSpacesShape(s[1..]);
      ConsCollapsed(s[0], CollapseSpaces(s[1..]));
    }
  }

  /** The only whitespace character in `r` is the space. */
  predicate OnlyPlainSpaces(r: string)
  {
    forall k | 0 <= k < |r| :: IsSpace(r[k]) ==> r[k] == ' '
  }

  /** No two spaces in a row. */
  predicate NoDoubleSpace(r: string)
  {
    forall k | 0 <= k < |r| - 1 :: !(r[k] == ' ' && r[k + 1] == ' ')
  }

  /** Putting one character in front of a collapsed string keeps it collapsed, unless it doubles a space. */
  lemma ConsCollapsed(x: char, c: string)
    requires OnlyPlainSpaces(c) && NoDoubleSpace(c)
    requires IsSpace(x) ==> x == ' ' && (c == [] || !IsSpace(c[0]))
    ensures OnlyPlainSpaces([x] + c) && NoDoubleSpace([x] + c)
  {
    assert forall k | 1 <= k < |c| + 1 :: ([x] + c)[k] == c[k - 1];
  }

  /** A string with one space between words and no other whitespace is its own collapse. */
  lemma {:induction false} CollapseSpacesIdempotent(s: string)
    ensures CollapseSpaces(CollapseSpaces(s)) == CollapseSpaces(s)
    decreases |s|
  {
    if s == [] {
    } else if IsSpace(s[0]) {
      var rest := TrimLeft(s[1..]);
      var c := CollapseSpaces(rest);
      CollapseSpacesIdempotent(rest);
      assert c == [] || !IsSpace(c[0]);
      assert TrimLeft(c) == c;
    } else {
      CollapseSpacesIdempotent(s[1..]);
    }
  }

  /** Every character of `s` satisfies `p`. */
  predicate AllChars(s: string, p: char -> bool)
  {
    forall k | 0 <= k < |s| :: p(s[k])
  }

  /** Collapsing only ever writes a space: a class that holds the space and all of `s` holds the result. */
  lemma {:induction false} CollapseSpacesKeeps(s: string, p: char -> bool)
    requires p(' ') && AllChars(s, p)
    ensures AllChars(CollapseSpaces(s), p)
    decreases |s|
  {
    if s == [] {
    } else if IsSpace(s[0]) {
      var rest := TrimLeft(s[1..]);
      assert rest == s[1..][|s[1..]| - |rest|..];
      CollapseSpacesKeeps(rest, p);
      AllCharsCons(' ', CollapseSpaces(rest), p);
    } else {
      CollapseSpacesKeeps(s[1..], p);
      AllCharsCons(s[0], CollapseSpaces(s[1..]), p);
    }
  }

  /** A stretch without whitespace at the head of the collapse stands unchanged at the head of `s`. */
  lemma {:induction false} CollapseSpacesHead(s: string, n: nat)
    requires n <= |CollapseSpaces(s)|
    requires forall k | 0 <= k < n :: !IsSpace(CollapseSpaces(s)[k])
    ensures n <= |s| && CollapseSpaces(s)[..n] == s[..n]
    decreases |s|
  {
    if n > 0 {
      var c := CollapseSpaces(s);
      assert !IsSpace(c[0]);
      var c' := CollapseSpaces(s[1..]);
      assert c == [s[0]] + c';
      assert forall k | 0 <= k < n - 1 :: c'[k] == c[k + 1];
      CollapseSpacesHead(s[1..], n - 1);
      assert c[..n] == [s[0]] + c'[..n - 1];
      assert s[..n] == [s[0]] + s[1..][..n - 1];
    }
  }

  lemma AllCharsAppend(a: string, b: string, p: char -> bool)
    requires AllChars(a, p) && AllChars(b, p)
    ensures AllChars(a + b, p)
  {
    assert forall k | |a| <= k < |a| + |b| :: (a + b)[k] == b[k - |a|];
  }

  lemma AllCharsCons(x: char, c: string, p: char -> bool)
    requires p(x) && AllChars(c, p)
    ensures AllChars([x] + c, p)
  {
    assert forall k | 1 <= k < |c| + 1 :: ([x] + c)[k] == c[k - 1];
  }

  /** A non-empty suffix ends where the whole string ends. */
  lemma SuffixLast(s: string, j: nat)
    requires j < |s|
    ensures s[j..][|s| - j - 1] == s[|s| - 1]
  {
  }

  /** The collapse ends in a space exactly when `s` ends in whitespace. */
  lemma {:induction false} CollapseSpacesLast(s: string)
    requires s != []
    ensures IsSpace(CollapseSpaces(s)[|CollapseSpaces(s)| - 1]) <==> IsSpace(s[|s| - 1])
    decreases |s|
  {
    var r := CollapseSpaces(s);
    if IsSpace(s[0]) {
      var rest := TrimLeft(s[1..]);
      if rest == [] {
        assert r == [' '];
        if |s| > 1 {
          assert IsSpace(s[1..][|s| - 2]);
        }
      } else {
        var c := CollapseSpaces(rest);
        CollapseSpacesLast(rest);
        SuffixLast(s, |s| - |rest|);
        assert r[|r| - 1] == c[|c| - 1];
      }
    } else if |s| > 1 {
      var c := CollapseSpaces(s[1..]);
      CollapseSpacesLast(s[1..]);
      assert r[|r| - 1] == c[|c| - 1];
      assert s[1..][|s| - 2] == s[|s| - 1];
    } else {
      assert r == [s[0]];
    }
  }

  /** Collapsing a stripped string leaves nothing to strip. */
  lemma CollapseStripped(t: string)
    ensures Strip(CollapseSpaces(Strip(t))) == CollapseSpaces(Strip(t))
  {
    var s := Strip(t);
    var r := CollapseSpaces(s);
    if s != [] {
      CollapseSpacesLast(s);
      assert !IsSpace(r[0]) && !IsSpace(r[|r| - 1]);
    }
    StripByNothing(r, IsSpace);
  }

  /** A string whose characters `lower()` leaves alone is its own lower case. */
  lemma LowerStrFixed(s: string)
    requires forall k | 0 <= k < |s| :: Lower(s[k]) == s[k]
    ensures LowerStr(s) == s
  {
    assert forall k | 0 <= k < |s| :: LowerStr(s)[k] == s[k];
  }

  /** Lower-casing twice changes nothing more. */
  lemma LowerStrIdempotent(s: string)
    ensures LowerStr(LowerStr(s)) == LowerStr(s)
  {
    var l := LowerStr(s);
    forall k | 0 <= k < |s| ensures Lower(l[k]) == l[k] {
      assert !IsUpperLatin1(Lower(s[k]));
    }
  }

  /** Splitting at the first separator: the text before it is the first part. */
  lemma {:induction false} SplitAtFirst(a: string, b: string, c: char)
    requires c !in a
    ensures Split(a + [c] + b, c) == [a] + Split(b, c)
    decreases |a|
  {
    var s := a + [c] + b;
    if a == [] {
      assert s[1..] == b;
    } else {
      assert s[1..] == a[1..] + [c] + b;
      SplitAtFirst(a[1..], b, c);
      assert [a[0]] + a[1..] == a;
    }
  }

  lemma {:induction false} SplitWithoutSeparator(s: string, c: char)
    requires c !in s
    ensures Split(s, c) == [s]
    decreases |s|
  {
    if s != [] {
      SplitWithoutSeparator(s[1..], c);
      assert [s[0]] + s[1..] == s;
    }
  }

  /** `s.replace(pat, rep)`: leftmost, non-overlapping replacement. */
  function ReplaceAll(s: string, pat: string, rep: string): (r: string)
    requires pat != ""
    ensures !Contains(s, pat) ==> r == s
    decreases |s|
  {
    if |s| < |pat| then s
    else if s[..|pat|] == pat then rep + ReplaceAll(s[|pat|..], pat, rep)
    else
      assert !Contains(s, pat) ==> !Contains(s[1..], pat) by {
        if Contains(s[1..], pat) {
          var k := IndexOf(s[1..], pat).value;
          assert OccursAt(s, pat, k + 1) by { assert s[1..][k..k + |pat|] == s[k + 1..k + 1 + |pat|]; }
        }
      }
      [s[0]] + ReplaceAll(s[1..], pat, rep)
  }

  /** Decimal digits of a natural number, as `str(n)` prints them. */
  function NatToString(n: nat): (r: string)
    ensures r != "" && AllDigits(r)
    ensures n < 10 ==> |r| == 1
    decreases n
  {
    var d := ['0' + (n % 10) as char];
    if n < 10 then d else NatToString(n / 10) + d
  }

  /** The value of a string of decimal digits, as `int(s)` reads it. */
  function DigitsValue(s: string): (v: nat)
    requires AllDigits(s)
    ensures v < Pow10(|s|)
  {
    if s == [] then 0 else DigitsValue(s[..|s| - 1]) * 10 + (s[|s| - 1] as int - '0' as int)
  }

  function Pow10(n: nat): (r: nat)
    ensures r >= 1
  {
    if n == 0 then 1 else 10 * Pow10(n - 1)
  }

  lemma {:induction false} NatToStringValue(n: nat)
    ensures DigitsValue(NatToString(n)) == n
    decreases n
  {
    if n >= 10 {
      NatToStringValue(n / 10);
      var r := NatToString(n);
      assert r[..|r| - 1] == NatToString(n / 10);
    }
  }
}
