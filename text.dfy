/**
 * The string operations of Rust's `str` that the core relies on: `split`, `contains`,
 * `replace`, `trim_start_matches`/`trim_end_matches`, `trim`, `parse::<usize>`,
 * integer formatting and ASCII case mapping. Strings are sequences of Unicode scalar values.
 */
module Text {
  import opened Wrappers
  import opened Sequences

  // ---------------------------------------------------------------- split / join

  /**
   * `s.split(sep)` for a non-empty separator: the pieces between the leftmost
   * non-overlapping occurrences of `sep`. There is always at least one piece, and
   * `"".split(sep)` is `[""]`.
   */
  function SplitOn(s: string, sep: string): (r: seq<string>)
    requires |sep| > 0
    ensures |r| >= 1
    decreases |s|
  {
    if IsPrefix(sep, s) then [""] + SplitOn(s[|sep|..], sep)
    else if s == [] then [""]
    else var rest := SplitOn(s[1..], sep); [[s[0]] + rest[0]] + rest[1..]
  }

  /** `pieces.join(sep)`. */
  function Join(pieces: seq<string>, sep: string): string
    requires |pieces| > 0
  {
    if |pieces| == 1 then pieces[0] else pieces[0] + sep + Join(pieces[1..], sep)
  }

  /** No piece contains the character `c`. */
  predicate FreeOf(pieces: seq<string>, c: char)
  {
    forall i :: 0 <= i < |pieces| ==> c !in pieces[i]
  }

  /** Splitting and re-joining gives back the original string. */
  lemma {:induction false} JoinSplit(s: string, sep: string)
    requires |sep| > 0
    ensures Join(SplitOn(s, sep), sep) == s
    decreases |s|
  {
    if IsPrefix(sep, s) {
      JoinSplit(s[|sep|..], sep);
      assert s == sep + s[|sep|..];
    } else if s != [] {
      JoinSplit(s[1..], sep);
      JoinConsChar(s[0], SplitOn(s[1..], sep), sep);
      assert s == [s[0]] + s[1..];
    }
  }

  lemma JoinConsChar(c: char, pieces: seq<string>, sep: string)
    requires |pieces| > 0
    ensures Join([[c] + pieces[0]] + pieces[1..], sep) == [c] + Join(pieces, sep)
  {
    var r := [[c] + pieces[0]] + pieces[1..];
    if |pieces| > 1 {
      assert r[1..] == pieces[1..];
    }
  }

  /** A leading piece free of the separator's first character is split off whole. */
  lemma {:induction false} SplitPiece(a: string, sep: string, b: string)
    requires |sep| > 0 && sep[0] !in a
    ensures SplitOn(a + sep + b, sep) == [a] + SplitOn(b, sep)
  {
    var s := a + sep + b;
    if a == [] {
      assert s == sep + b;
      assert IsPrefix(sep, s);
      assert s[|sep|..] == b;
    } else {
      assert s[0] == a[0];
      assert |sep| <= |s| ==> s[..|sep|][0] == s[0];
      assert s[1..] == a[1..] + sep + b;
      SplitPiece(a[1..], sep, b);
      assert [a[0]] + a[1..] == a;
    }
  }

  /** A string free of the separator's first character is a single piece. */
  lemma {:induction false} SplitWhole(a: string, sep: string)
    requires |sep| > 0 && sep[0] !in a
    ensures SplitOn(a, sep) == [a]
  {
    if a != [] {
      assert |sep| <= |a| ==> a[..|sep|][0] == a[0];
      SplitWhole(a[1..], sep);
      assert [a[0]] + a[1..] == a;
    }
  }

  /** Joining pieces free of the separator and splitting again gives back the pieces. */
  lemma {:induction false} SplitJoin(pieces: seq<string>, sep: string)
    requires |pieces| > 0 && |sep| > 0 && FreeOf(pieces, sep[0])
    ensures SplitOn(Join(pieces, sep), sep) == pieces
  {
    if |pieces| == 1 {
      SplitWhole(pieces[0], sep);
    } else {
      SplitJoin(pieces[1..], sep);
      SplitPiece(pieces[0], sep, Join(pieces[1..], sep));
    }
  }

  /**
   * The first `/`-piece of `t` is `p` (a piece without `/`) exactly when `t` is `p`
   * or begins with `p` followed by `/`.
   */
  lemma {:induction false} FirstPiece(t: string, p: string)
    requires '/' !in p
    ensures SplitOn(t, "/")[0] == p <==> t == p || IsPrefix(p + "/", t)
    decreases |t|
  {
    if IsPrefix("/", t) {
      assert t[0] == '/';
      if p != "" {
        assert p[0] != '/' by { assert p[0] in p; }
        assert t != p;
        assert !IsPrefix(p + "/", t) by {
          if |p + "/"| <= |t| {
            var k := |p + "/"|;
            assert t[..k][0] == t[0];
            assert (p + "/")[0] == p[0];
          }
        }
      }
    } else if t != [] {
      var rest := SplitOn(t[1..], "/");
      assert SplitOn(t, "/")[0] == [t[0]] + rest[0];
      if p == "" {
        assert !IsPrefix(p + "/", t) by { assert (p + "/") == "/"; }
      } else {
        FirstPiece(t[1..], p[1..]);
        assert p == [p[0]] + p[1..];
        assert t == [t[0]] + t[1..];
        assert IsPrefix(p + "/", t) <==> t[0] == p[0] && IsPrefix(p[1..] + "/", t[1..]) by {
          assert p + "/" == [p[0]] + (p[1..] + "/");
        }
      }
    }
  }

  /** Keeps the non-empty strings, in order (`.filter(|s| !s.is_empty())`). */
  function DropEmpty(pieces: seq<string>): (r: seq<string>)
    ensures forall i :: 0 <= i < |r| ==> r[i] != "" && r[i] in pieces
    ensures forall i :: 0 <= i < |pieces| && pieces[i] != "" ==> pieces[i] in r
  {
    if pieces == [] then [] else (if pieces[0] == "" then [] else [pieces[0]]) + DropEmpty(pieces[1..])
  }

  // ---------------------------------------------------------------- contains / replace

  /** `s.contains(p)`. */
  predicate Contains(s: string, p: string)
    decreases |s|
  {
    IsPrefix(p, s) || (s != [] && Contains(s[1..], p))
  }

  /** A string holds every pattern placed inside it. */
  lemma {:induction false} ContainsAt(a: string, p: string, b: string)
    ensures Contains(a + p + b, p)
  {
    if a == [] {
      assert a + p + b == p + b && (p + b)[..|p|] == p;
    } else {
      ContainsAt(a[1..], p, b);
      assert (a + p + b)[1..] == a[1..] + p + b;
    }
  }

  /** Text placed in front keeps an occurrence. */
  lemma {:induction false} ContainsPrepend(a: string, s: string, p: string)
    requires Contains(s, p)
    ensures Contains(a + s, p)
  {
    if a != [] {
      ContainsPrepend(a[1..], s, p);
      assert (a + s)[1..] == a[1..] + s;
    } else {
      assert a + s == s;
    }
  }

  /** A joined string contains each of its pieces. */
  lemma {:induction false} JoinContainsPiece(pieces: seq<string>, k: nat, sep: string)
    requires k < |pieces|
    ensures Contains(Join(pieces, sep), pieces[k])
  {
    if k == 0 {
      if |pieces| == 1 {
        ContainsAt("", pieces[0], "");
        assert "" + pieces[0] + "" == pieces[0];
      } else {
        ContainsAt("", pieces[0], sep + Join(pieces[1..], sep));
        assert "" + pieces[0] + (sep + Join(pieces[1..], sep)) == Join(pieces, sep);
      }
    } else {
      JoinContainsPiece(pieces[1..], k - 1, sep);
      ContainsPrepend(pieces[0] + sep, Join(pieces[1..], sep), pieces[k]);
    }
  }

  /** A string without the pattern's first character does not contain the pattern. */
  lemma {:induction false} NotContainsFirstChar(s: string, p: string)
    requires p != [] && p[0] !in s
    ensures !Contains(s, p)
  {
    if s != [] {
      assert |p| <= |s| ==> s[..|p|][0] == s[0];
      NotContainsFirstChar(s[1..], p);
    }
  }

  /** `s.replace(pat, rep)` for a non-empty pattern: every leftmost non-overlapping occurrence replaced. */
  function Replace(s: string, pat: string, rep: string): string
    requires |pat| > 0
    decreases |s|
  {
    if IsPrefix(pat, s) then rep + Replace(s[|pat|..], pat, rep)
    else if s == [] then []
    else [s[0]] + Replace(s[1..], pat, rep)
  }

  /** A string without the pattern comes back unchanged. */
  lemma {:induction false} ReplaceAbsent(s: string, pat: string, rep: string)
    requires |pat| > 0 && !Contains(s, pat)
    ensures Replace(s, pat, rep) == s
    decreases |s|
  {
    if s != [] {
      ReplaceAbsent(s[1..], pat, rep);
      assert s == [s[0]] + s[1..];
    }
  }

  /**
   * The first occurrence is filled in: text in front of the pattern that cannot begin
   * an occurrence is kept, the pattern becomes the replacement, and replacing goes on
   * behind it.
   */
  lemma {:induction false} ReplaceFirst(a: string, pat: string, rep: string, b: string)
    requires |pat| > 0 && pat[0] !in a
    ensures Replace(a + pat + b, pat, rep) == a + rep + Replace(b, pat, rep)
    decreases |a|
  {
    var s := a + pat + b;
    if a == [] {
      assert s == pat + b;
      assert s[..|pat|] == pat && s[|pat|..] == b;
    } else {
      assert s[0] == a[0] != pat[0];
      assert !IsPrefix(pat, s) by {
        if |pat| <= |s| { assert s[..|pat|][0] == s[0]; }
      }
      assert s[1..] == a[1..] + pat + b;
      ReplaceFirst(a[1..], pat, rep, b);
      assert a + rep + Replace(b, pat, rep) == [a[0]] + (a[1..] + rep + Replace(b, pat, rep));
    }
  }

  /** Replacing the pattern by itself changes nothing. */
  lemma {:induction false} ReplaceSelf(s: string, pat: string)
    requires |pat| > 0
    ensures Replace(s, pat, pat) == s
    decreases |s|
  {
    if IsPrefix(pat, s) {
      ReplaceSelf(s[|pat|..], pat);
      assert s == pat + s[|pat|..];
    } else if s != [] {
      ReplaceSelf(s[1..], pat);
      assert s == [s[0]] + s[1..];
    }
  }

  // ---------------------------------------------------------------- trimming

  /** Drops the longest prefix whose characters all satisfy `f`. */
  function TrimStartBy(s: string, f: char -> bool): (r: string)
    ensures |r| <= |s| && r == s[|s| - |r|..]
    ensures r != [] ==> !f(r[0])
    ensures forall i :: 0 <= i < |s| - |r| ==> f(s[i])
  {
    if s != [] && f(s[0]) then TrimStartBy(s[1..], f) else s
  }

  /** Drops the longest suffix whose characters all satisfy `f`. */
  function TrimEndBy(s: string, f: char -> bool): (r: string)
    ensures |r| <= |s| && r == s[..|r|]
    ensures r != [] ==> !f(r[|r| - 1])
    ensures forall i :: |r| <= i < |s| ==> f(s[i])
  {
    if s != [] && f(s[|s| - 1]) then TrimEndBy(s[..|s| - 1], f) else s
  }

  /** `s.trim_end_matches('/').trim_start_matches('/')`. */
  function StripSlashes(s: string): (r: string)
  {
    TrimStartBy(TrimEndBy(s, c => c == '/'), c => c == '/')
  }

  /** Rust's `char::is_whitespace`: the Unicode White_Space property. */
  predicate IsWhitespace(c: char)
  {
    ('\U{9}' <= c <= '\U{D}') || c == ' ' || c == '\U{85}' || c == '\U{A0}' || c == '\U{1680}'
    || ('\U{2000}' <= c <= '\U{200A}') || c == '\U{2028}' || c == '\U{2029}' || c == '\U{202F}'
    || c == '\U{205F}' || c == '\U{3000}'
  }

  /** `s.trim()`. */
  function Trim(s: string): (r: string)
  {
    TrimEndBy(TrimStartBy(s, IsWhitespace), IsWhitespace)
  }

  /** A trimmed string neither starts nor ends with whitespace, and sits inside `s` between whitespace runs. */
  lemma TrimShape(s: string, k: nat, r: string)
    requires r == Trim(s) && k == |s| - |TrimStartBy(s, IsWhitespace)|
    ensures k + |r| <= |s| && r == s[k..k + |r|]
    ensures r != [] ==> !IsWhitespace(r[0]) && !IsWhitespace(r[|r| - 1])
    ensures forall i :: 0 <= i < k ==> IsWhitespace(s[i])
    ensures forall i :: k + |r| <= i < |s| ==> IsWhitespace(s[i])
  {
    var t := TrimStartBy(s, IsWhitespace);
    assert r == TrimEndBy(t, IsWhitespace);
    TrimWindow(s, k, t, r, IsWhitespace);
  }

  /** `r` is a prefix of the suffix `t == s[k..]`, and every character of `t` after `r` satisfies `f`. */
  lemma TrimWindow(s: string, k: nat, t: string, r: string, f: char -> bool)
    requires k <= |s| && t == s[k..] && |r| <= |t| && r == t[..|r|]
    requires t != [] ==> !f(t[0])
    requires forall j :: |r| <= j < |t| ==> f(t[j])
    ensures k + |r| <= |s| && r == s[k..k + |r|]
    ensures r != [] ==> r[0] == t[0]
    ensures forall i :: k + |r| <= i < |s| ==> f(s[i])
  {
    SliceOfSuffix(s, k, |r|);
    forall i | k + |r| <= i < |s| ensures f(s[i]) {
      assert s[i] == t[i - k];
    }
  }

  lemma SliceOfSuffix<T>(s: seq<T>, k: nat, m: nat)
    requires k + m <= |s|
    ensures s[k..][..m] == s[k..k + m]
  {
  }

  predicate AllSatisfy(w: string, f: char -> bool)
  {
    forall i :: 0 <= i < |w| ==> f(w[i])
  }

  /** Padding with whitespace on either side does not change the trimmed text. */
  lemma TrimPadded(w1: string, s: string, w2: string)
    requires AllSatisfy(w1, IsWhitespace) && AllSatisfy(w2, IsWhitespace)
    ensures Trim(w1 + s + w2) == Trim(s)
  {
    TrimStartPadded(w1, s + w2, IsWhitespace);
    assert w1 + s + w2 == w1 + (s + w2);
    TrimStartAppend(s, w2, IsWhitespace);
    TrimEndPadded(TrimStartBy(s, IsWhitespace), w2, IsWhitespace);
  }

  /** A path that neither begins nor ends with `/` is its own normal form. */
  lemma StripSlashesClean(s: string)
    requires s == [] || (s[0] != '/' && s[|s| - 1] != '/')
    ensures StripSlashes(s) == s
  {
    var f := c => c == '/';
    assert TrimEndBy(s, f) == s;
  }

  /** Extra slashes on either side do not change the normalised path. */
  lemma StripSlashesPadded(w1: string, s: string, w2: string)
    requires AllSatisfy(w1, c => c == '/') && AllSatisfy(w2, c => c == '/')
    ensures StripSlashes(w1 + s + w2) == StripSlashes(s)
  {
    var f := c => c == '/';
    TrimEndPadded(w1 + s, w2, f);
    TrimEndPrepend(w1, s, f);
    TrimStartPadded(w1, TrimEndBy(s, f), f);
  }

  lemma {:induction false} TrimStartPadded(w: string, s: string, f: char -> bool)
    requires AllSatisfy(w, f)
    ensures TrimStartBy(w + s, f) == TrimStartBy(s, f)
  {
    if w != [] {
      assert (w + s)[0] == w[0] && f(w[0]);
      assert (w + s)[1..] == w[1..] + s;
      assert TrimStartBy(w + s, f) == TrimStartBy(w[1..] + s, f);
      TrimStartPadded(w[1..], s, f);
    } else {
      assert w + s == s;
    }
  }

  lemma {:induction false} TrimEndPadded(s: string, w: string, f: char -> bool)
    requires AllSatisfy(w, f)
    ensures TrimEndBy(s + w, f) == TrimEndBy(s, f)
    decreases |w|
  {
    if w != [] {
      assert (s + w)[|s + w| - 1] == w[|w| - 1] && f(w[|w| - 1]);
      assert (s + w)[..|s + w| - 1] == s + w[..|w| - 1];
      assert TrimEndBy(s + w, f) == TrimEndBy(s + w[..|w| - 1], f);
      TrimEndPadded(s, w[..|w| - 1], f);
    } else {
      assert s + w == s;
    }
  }

  /** Trimming the start of `s + w` reaches into `w` only when `s` trims away entirely. */
  lemma {:induction false} TrimStartAppend(s: string, w: string, f: char -> bool)
    requires AllSatisfy(w, f)
    ensures TrimStartBy(s + w, f) == TrimStartBy(s, f) + w
         || (TrimStartBy(s, f) == [] && TrimStartBy(s + w, f) == [])
  {
    if s == [] {
      assert s + w == w;
      TrimStartPadded(w, [], f);
      assert w + [] == w;
    } else if f(s[0]) {
      assert (s + w)[0] == s[0];
      assert (s + w)[1..] == s[1..] + w;
      TrimStartAppend(s[1..], w, f);
    } else {
      assert (s + w)[0] == s[0];
    }
  }

  /** Trimming the end of `w + s` reaches into `w` only when `s` trims away entirely. */
  lemma {:induction false} TrimEndPrepend(w: string, s: string, f: char -> bool)
    requires AllSatisfy(w, f)
    ensures TrimEndBy(w + s, f) == w + TrimEndBy(s, f)
         || (TrimEndBy(s, f) == [] && TrimEndBy(w + s, f) == [])
    decreases |s|
  {
    if s == [] {
      assert w + s == w;
      TrimEndPadded([], w, f);
      assert [] + w == w;
    } else if f(s[|s| - 1]) {
      assert (w + s)[|w + s| - 1] == s[|s| - 1];
      assert (w + s)[..|w + s| - 1] == w + s[..|s| - 1];
      TrimEndPrepend(w, s[..|s| - 1], f);
    } else {
      assert (w + s)[|w + s| - 1] == s[|s| - 1];
    }
  }

  // ---------------------------------------------------------------- numbers

  const UsizeMax: nat := 0xFFFF_FFFF_FFFF_FFFF

  predicate IsDigit(c: char) { '0' <= c <= '9' }

  predicate AllDigits(s: string) { forall i :: 0 <= i < |s| ==> IsDigit(s[i]) }

  /** The value of a string of decimal digits, most significant first. */
  function DecimalValue(s: string): nat
    requires AllDigits(s)
  {
    if s == [] then 0 else 10 * DecimalValue(s[..|s| - 1]) + (s[|s| - 1] as int - '0' as int)
  }

  /** `s.parse::<usize>()` on a 64-bit target: an optional `+`, then one or more ASCII digits, no overflow. */
  function ParseUsize(s: string): Option<nat>
  {
    var digits := if |s| > 0 && s[0] == '+' then s[1..] else s;
    if |digits| == 0 || !AllDigits(digits) then None
    else if DecimalValue(digits) > UsizeMax then None
    else Some(DecimalValue(digits))
  }

  function DigitChar(d: nat): (c: char)
    requires d < 10
    ensures IsDigit(c) && c as int - '0' as int == d
  {
    (d + '0' as int) as char
  }

  /** Decimal formatting of a natural number (`format!("{}", n)`). */
  function NatToString(n: nat): (s: string)
    ensures |s| > 0 && AllDigits(s)
  {
    if n < 10 then [DigitChar(n)] else NatToString(n / 10) + [DigitChar(n % 10)]
  }

  lemma {:induction false} DecimalOfNatToString(n: nat)
    ensures DecimalValue(NatToString(n)) == n
  {
    if n >= 10 {
      DecimalOfNatToString(n / 10);
      var s := NatToString(n);
      assert s[..|s| - 1] == NatToString(n / 10);
    }
  }

  /** Formatting a number that fits a `usize` and parsing it back gives the number. */
  lemma ParseNatToString(n: nat)
    requires n <= UsizeMax
    ensures ParseUsize(NatToString(n)) == Some(n)
  {
    DecimalOfNatToString(n);
    assert NatToString(n)[0] != '+';
  }

  // ---------------------------------------------------------------- ASCII case

  function UpperChar(c: char): char
  {
    if 'a' <= c <= 'z' then (c as int - 32) as char else c
  }

  function LowerChar(c: char): char
  {
    if 'A' <= c <= 'Z' then (c as int + 32) as char else c
  }

  /** ASCII upper-casing, character by character. */
  function AsciiUpper(s: string): (r: string)
    ensures |r| == |s|
  {
    seq(|s|, i requires 0 <= i < |s| => UpperChar(s[i]))
  }

  /** ASCII lower-casing, character by character. */
  function AsciiLower(s: string): (r: string)
    ensures |r| == |s|
  {
    seq(|s|, i requires 0 <= i < |s| => LowerChar(s[i]))
  }

  lemma AsciiUpperIdempotent(s: string)
    ensures AsciiUpper(AsciiUpper(s)) == AsciiUpper(s)
    ensures forall i :: 0 <= i < |s| ==> !('a' <= AsciiUpper(s)[i] <= 'z')
  {
  }

  lemma AsciiLowerIdempotent(s: string)
    ensures AsciiLower(AsciiLower(s)) == AsciiLower(s)
    ensures forall i :: 0 <= i < |s| ==> !('A' <= AsciiLower(s)[i] <= 'Z')
  {
  }

  /** A string without upper-case ASCII letters is its own lower-case form. */
  lemma AsciiLowerFixed(s: string)
    requires forall i :: 0 <= i < |s| ==> !('A' <= s[i] <= 'Z')
    ensures AsciiLower(s) == s
  {
  }
}
