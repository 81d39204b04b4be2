/**
 * The pieces of JavaScript string handling the scraper relies on, written out:
 * the `\s` character class and `trim`, `toLowerCase`, `replace(/\s+/g, …)`,
 * digit runs as `\d+` matches them, `parseInt`, the default string order used
 * by `Array.prototype.sort`, `includes` and `substring(0, n)`.
 */
module Text {
  import opened Wrappers

  // ---------------------------------------------------------------------------
  // Character classes
  // ---------------------------------------------------------------------------

  /** JavaScript's `\s`: WhiteSpace and LineTerminator; also what `trim` removes. */
  predicate IsSpace(c: char) {
    var n := c as int;
    n == 0x09 || n == 0x0A || n == 0x0B || n == 0x0C || n == 0x0D || n == 0x20
    || n == 0xA0 || n == 0x1680 || (0x2000 <= n <= 0x200A) || n == 0x2028
    || n == 0x2029 || n == 0x202F || n == 0x205F || n == 0x3000 || n == 0xFEFF
  }

  /** JavaScript's `\d` (ASCII digits only). */
  predicate IsDigit(c: char) {
    '0' <= c <= '9'
  }

  predicate IsHexDigit(c: char) {
    IsDigit(c) || 'a' <= c <= 'f' || 'A' <= c <= 'F'
  }

  /** `[a-zA-Z]` */
  predicate IsAsciiLetter(c: char) {
    'a' <= c <= 'z' || 'A' <= c <= 'Z'
  }

  /** The characters `\b` treats as word characters: `[A-Za-z0-9_]`. */
  predicate IsWordChar(c: char) {
    IsAsciiLetter(c) || IsDigit(c) || c == '_'
  }

  predicate AllDigits(s: string) {
    forall i | 0 <= i < |s| :: IsDigit(s[i])
  }

  lemma AllDigitsConcat(a: string, b: string)
    requires AllDigits(a) && AllDigits(b)
    ensures AllDigits(a + b)
  {
    forall k | 0 <= k < |a + b|
      ensures IsDigit((a + b)[k])
    {
      if k < |a| {
        assert (a + b)[k] == a[k];
      } else {
        assert (a + b)[k] == b[k - |a|];
      }
    }
  }

  function DigitValue(c: char): nat
    requires IsDigit(c)
  {
    (c as int) - ('0' as int)
  }

  function HexDigitValue(c: char): nat
    requires IsHexDigit(c)
  {
    if IsDigit(c) then DigitValue(c)
    else if 'a' <= c <= 'f' then (c as int) - ('a' as int) + 10
    else (c as int) - ('A' as int) + 10
  }

  function DigitChar(d: nat): (c: char)
    requires d < 10
    ensures IsDigit(c) && DigitValue(c) == d
  {
    ('0' as int + d) as char
  }

  // ---------------------------------------------------------------------------
  // Numbers
  // ---------------------------------------------------------------------------

  /** The decimal value of a string of digits. */
  function DigitsValue(s: string): nat
    requires AllDigits(s)
  {
    if s == [] then 0 else 10 * DigitsValue(s[..|s| - 1]) + DigitValue(s[|s| - 1])
  }

  function HexDigitsValue(s: string): nat
    requires forall i | 0 <= i < |s| :: IsHexDigit(s[i])
  {
    if s == [] then 0 else 16 * HexDigitsValue(s[..|s| - 1]) + HexDigitValue(s[|s| - 1])
  }

  /** The decimal text of `n`, as `String(n)` writes a non-negative integer. */
  function NatToString(n: nat): (r: string)
    ensures |r| > 0 && AllDigits(r) && DigitsValue(r) == n
  {
    if n < 10 then [DigitChar(n)]
    else
      var r := NatToString(n / 10) + [DigitChar(n % 10)];
      assert r[..|r| - 1] == NatToString(n / 10);
      r
  }

  /** The end of the run of digits that starts at `i` (`i` itself when there is none). */
  function DigitRunEnd(s: string, i: nat): (j: nat)
    requires i <= |s|
    ensures i <= j <= |s|
    ensures forall k | i <= k < j :: IsDigit(s[k])
    ensures j == |s| || !IsDigit(s[j])
    decreases |s| - i
  {
    if i < |s| && IsDigit(s[i]) then DigitRunEnd(s, i + 1) else i
  }

  function HexRunEnd(s: string, i: nat): (j: nat)
    requires i <= |s|
    ensures i <= j <= |s|
    ensures forall k | i <= k < j :: IsHexDigit(s[k])
    decreases |s| - i
  {
    if i < |s| && IsHexDigit(s[i]) then HexRunEnd(s, i + 1) else i
  }

  /** The end of the run of whitespace that starts at `i`. */
  function SpaceRunEnd(s: string, i: nat): (j: nat)
    requires i <= |s|
    ensures i <= j <= |s|
    ensures forall k | i <= k < j :: IsSpace(s[k])
    ensures j == |s| || !IsSpace(s[j])
    decreases |s| - i
  {
    if i < |s| && IsSpace(s[i]) then SpaceRunEnd(s, i + 1) else i
  }

  /** What follows an optional leading `-` or `+`. */
  function Unsigned(t: string): string {
    if t != [] && (t[0] == '-' || t[0] == '+') then t[1..] else t
  }

  /** The leading run of decimal digits of `body` as a number; `None` when there is none. */
  function LeadingDecimal(body: string): Option<nat> {
    var e := DigitRunEnd(body, 0);
    if e == 0 then None else Some(DigitsValue(body[..e]))
  }

  /** The leading run of hexadecimal digits of `body` as a number; `None` when there is none. */
  function LeadingHex(body: string): Option<nat> {
    var e := HexRunEnd(body, 0);
    if e == 0 then None else Some(HexDigitsValue(body[..e]))
  }

  function Signed(negative: bool, v: Option<nat>): Option<int> {
    match v
    case None => None
    case Some(n) => Some(if negative then -(n as int) else n as int)
  }

  /**
   * `parseInt(s, 10)`: leading whitespace, an optional sign, then the longest
   * run of decimal digits; `None` is `NaN` (no digit after the sign).
   */
  function ParseIntDecimal(s: string): Option<int> {
    var t := TrimStart(s);
    Signed(t != [] && t[0] == '-', LeadingDecimal(Unsigned(t)))
  }

  /**
   * `parseInt(s)` with no radix: as `ParseIntDecimal`, except that a `0x` or
   * `0X` after the sign switches to hexadecimal.
   */
  function ParseInt(s: string): Option<int> {
    var t := TrimStart(s);
    var body := Unsigned(t);
    if |body| >= 2 && body[0] == '0' && (body[1] == 'x' || body[1] == 'X') then
      Signed(t != [] && t[0] == '-', LeadingHex(body[2..]))
    else
      Signed(t != [] && t[0] == '-', LeadingDecimal(body))
  }

  /** `n || 0` for the result of a `parseInt`: `NaN` becomes 0. */
  function OrZero(n: Option<int>): int {
    match n
    case Some(v) => v
    case None => 0
  }

  lemma {:induction false} ParseIntDecimalOfDigits(s: string)
    requires s != [] && AllDigits(s)
    ensures ParseIntDecimal(s) == Some(DigitsValue(s))
  {
    assert TrimStart(s) == s;
    assert DigitRunEnd(s, 0) == |s| by {
      DigitRunOfDigits(s, 0);
    }
    assert s[..|s|] == s;
  }

  lemma {:induction false} DigitRunOfDigits(s: string, i: nat)
    requires i <= |s| && AllDigits(s)
    ensures DigitRunEnd(s, i) == |s|
    decreases |s| - i
  {
    if i < |s| {
      DigitRunOfDigits(s, i + 1);
    }
  }

  // ---------------------------------------------------------------------------
  // Trimming and whitespace runs
  // ---------------------------------------------------------------------------

  /** `s` without its leading whitespace. */
  function TrimStart(s: string): (r: string)
    ensures |r| <= |s| && r == s[|s| - |r|..]
    ensures r == [] || !IsSpace(r[0])
    ensures forall k | 0 <= k < |s| - |r| :: IsSpace(s[k])
  {
    if s != [] && IsSpace(s[0]) then TrimStart(s[1..]) else s
  }

  /** `s` without its trailing whitespace. */
  function TrimEnd(s: string): (r: string)
    ensures |r| <= |s| && r == s[..|r|]
    ensures r == [] || !IsSpace(r[|r| - 1])
    ensures forall k | |r| <= k < |s| :: IsSpace(s[k])
  {
    if s != [] && IsSpace(s[|s| - 1]) then TrimEnd(s[..|s| - 1]) else s
  }

  /** `s.trim()` */
  function Trim(s: string): (r: string)
    ensures r == [] || (!IsSpace(r[0]) && !IsSpace(r[|r| - 1]))
  {
    TrimEnd(TrimStart(s))
  }

  /** No whitespace at either end: what `trim` leaves. */
  predicate Trimmed(s: string) {
    s == [] || (!IsSpace(s[0]) && !IsSpace(s[|s| - 1]))
  }

  /** `s.replace(/\s+/g, sep)`: each maximal run of whitespace becomes one `sep`. */
  function ReplaceSpaceRuns(s: string, sep: char): string
    decreases |s|
  {
    if s == [] then []
    else if IsSpace(s[0]) then [sep] + ReplaceSpaceRuns(TrimStart(s[1..]), sep)
    else [s[0]] + ReplaceSpaceRuns(s[1..], sep)
  }

  /** No two neighbouring characters of `s` are both whitespace. */
  predicate NoDoubleSpace(s: string) {
    forall i | 0 <= i < |s| - 1 :: !(IsSpace(s[i]) && IsSpace(s[i + 1]))
  }

  predicate NoSpace(s: string) {
    forall i | 0 <= i < |s| :: !IsSpace(s[i])
  }

  /** Replacing the runs by a non-whitespace separator leaves no whitespace at all. */
  lemma {:induction false} ReplaceSpaceRunsHasNoSpace(s: string, sep: char)
    requires !IsSpace(sep)
    ensures NoSpace(ReplaceSpaceRuns(s, sep))
    decreases |s|
  {
    if s == [] {
    } else if IsSpace(s[0]) {
      ReplaceSpaceRunsHasNoSpace(TrimStart(s[1..]), sep);
    } else {
      ReplaceSpaceRunsHasNoSpace(s[1..], sep);
    }
  }

  /** After the replacement no two whitespace characters stand side by side. */
  lemma {:induction false} ReplaceSpaceRunsNoDoubleSpace(s: string, sep: char)
    ensures NoDoubleSpace(ReplaceSpaceRuns(s, sep))
    ensures s != [] && !IsSpace(s[0]) ==> ReplaceSpaceRuns(s, sep)[0] == s[0]
    decreases |s|
  {
    if s == [] {
    } else if IsSpace(s[0]) {
      var t := TrimStart(s[1..]);
      ReplaceSpaceRunsNoDoubleSpace(t, sep);
    } else {
      ReplaceSpaceRunsNoDoubleSpace(s[1..], sep);
    }
  }

  /** Trimming keeps the property: its result is a slice of its argument. */
  lemma TrimKeepsNoDoubleSpace(s: string)
    requires NoDoubleSpace(s)
    ensures NoDoubleSpace(Trim(s))
  {
    var a := TrimStart(s);
    var off := |s| - |a|;
    var r := TrimEnd(a);
    assert r == s[off..off + |r|];
    SliceKeepsNoDoubleSpace(s, off, off + |r|);
  }

  /** Trimming only removes characters, so a character absent before is absent after. */
  lemma TrimKeepsAbsent(s: string, c: char)
    requires c !in s
    ensures c !in Trim(s)
  {
    var a := TrimStart(s);
    var r := TrimEnd(a);
    forall k | 0 <= k < |r|
      ensures r[k] != c
    {
      assert r[k] == a[k] == s[|s| - |a| + k];
    }
  }

  /** Text with non-whitespace at both ends is its own trim. */
  lemma TrimOfTrimmed(s: string)
    requires s != [] && !IsSpace(s[0]) && !IsSpace(s[|s| - 1])
    ensures Trim(s) == s
  {
  }

  /** The only whitespace in `s` is the plain space. */
  predicate OnlyPlainSpaces(s: string) {
    forall i | 0 <= i < |s| :: IsSpace(s[i]) ==> s[i] == ' '
  }

  /** Plain spaces, never two together: the whitespace replacement leaves the text as it is. */
  lemma {:induction false} ReplaceSpaceRunsOfSingleSpaced(s: string)
    requires OnlyPlainSpaces(s) && NoDoubleSpace(s)
    ensures ReplaceSpaceRuns(s, ' ') == s
    decreases |s|
  {
    if s != [] {
      var t := s[1..];
      assert OnlyPlainSpaces(t) by {
        forall i | 0 <= i < |t|
          ensures IsSpace(t[i]) ==> t[i] == ' '
        {
          assert t[i] == s[i + 1];
        }
      }
      assert NoDoubleSpace(t) by {
        SliceKeepsNoDoubleSpace(s, 1, |s|);
      }
      ReplaceSpaceRunsOfSingleSpaced(t);
      if IsSpace(s[0]) {
        assert s[0] == ' ';
        assert t == [] || !IsSpace(t[0]);
        assert TrimStart(t) == t;
      }
      assert s == [s[0]] + t;
    }
  }

  /** A single-spaced text ending in non-whitespace stays single-spaced with one space appended. */
  lemma SingleSpacedWithSpace(n: string)
    requires n != [] && !IsSpace(n[|n| - 1])
    requires OnlyPlainSpaces(n) && NoDoubleSpace(n)
    ensures OnlyPlainSpaces(n + " ") && NoDoubleSpace(n + " ")
  {
    var h := n + " ";
    assert forall i | 0 <= i < |n| :: h[i] == n[i];
  }

  /** One trailing space is trimmed away from text that has non-whitespace at both ends. */
  lemma TrimDropsTrailingSpace(n: string)
    requires n != [] && !IsSpace(n[0]) && !IsSpace(n[|n| - 1])
    ensures Trim(n + " ") == n
  {
    var h := n + " ";
    assert h[0] == n[0];
    assert TrimStart(h) == h;
    assert h[..|h| - 1] == n;
    assert TrimEnd(h) == TrimEnd(n);
  }

  lemma SliceKeepsNoDoubleSpace(s: string, lo: nat, hi: nat)
    requires lo <= hi <= |s| && NoDoubleSpace(s)
    ensures NoDoubleSpace(s[lo..hi])
  {
    var t := s[lo..hi];
    forall i | 0 <= i < |t| - 1
      ensures !(IsSpace(t[i]) && IsSpace(t[i + 1]))
    {
      assert t[i] == s[lo + i] && t[i + 1] == s[lo + i + 1];
    }
  }

  // ---------------------------------------------------------------------------
  // Case
  // ---------------------------------------------------------------------------

  /**
   * `toLowerCase` on one character, for ASCII, Latin-1 and Latin Extended-A
   * (which hold the Polish letters); other characters are left as they are.
   */
  function LowerChar(c: char): char {
    var n := c as int;
    if 'A' <= c <= 'Z' then (n + 32) as char
    else if 0xC0 <= n <= 0xDE && n != 0xD7 then (n + 32) as char
    else if 0x100 <= n <= 0x137 && n % 2 == 0 && n != 0x130 then (n + 1) as char
    else if 0x139 <= n <= 0x148 && n % 2 == 1 then (n + 1) as char
    else if 0x14A <= n <= 0x177 && n % 2 == 0 then (n + 1) as char
    else if n == 0x178 then 0xFF as char
    else if 0x179 <= n <= 0x17E && n % 2 == 1 then (n + 1) as char
    else c
  }

  /** `s.toLowerCase()` */
  function Lower(s: string): (r: string)
    ensures |r| == |s|
    ensures forall i | 0 <= i < |s| :: r[i] == LowerChar(s[i])
  {
    seq(|s|, i requires 0 <= i < |s| => LowerChar(s[i]))
  }

  /** Case folding as a regular expression with the `i` flag and no `u` flag sees an ASCII letter. */
  function AsciiFold(c: char): char {
    if 'A' <= c <= 'Z' then (c as int + 32) as char else c
  }

  /** `word` (lower-case ASCII) occurs at `i` in `s`, ignoring ASCII case. */
  predicate AsciiCaseInsensitiveAt(s: string, i: nat, word: string) {
    i + |word| <= |s| && forall k | 0 <= k < |word| :: AsciiFold(s[i + k]) == word[k]
  }

  // ---------------------------------------------------------------------------
  // Order, containment, prefixes
  // ---------------------------------------------------------------------------

  /** The order `Array.prototype.sort` uses on strings: lexicographic by character. */
  predicate LexLe(a: string, b: string)
    decreases |a|
  {
    a == [] || (b != [] && (a[0] < b[0] || (a[0] == b[0] && LexLe(a[1..], b[1..]))))
  }

  lemma {:induction false} LexLeTotal(a: string, b: string)
    ensures LexLe(a, b) || LexLe(b, a)
    decreases |a|
  {
    if a != [] && b != [] && a[0] == b[0] {
      LexLeTotal(a[1..], b[1..]);
    }
  }

  lemma {:induction false} LexLeAntisymmetric(a: string, b: string)
    requires LexLe(a, b) && LexLe(b, a)
    ensures a == b
    decreases |a|
  {
    if a != [] && b != [] {
      LexLeAntisymmetric(a[1..], b[1..]);
      assert a == [a[0]] + a[1..] && b == [b[0]] + b[1..];
    }
  }

  predicate OccursAt(s: string, sub: string, i: nat) {
    i + |sub| <= |s| && s[i..i + |sub|] == sub
  }

  /** `s.includes(sub)` */
  predicate Contains(s: string, sub: string) {
    exists i: nat | i <= |s| :: OccursAt(s, sub, i)
  }

  /** A one-character text occurs exactly when that character does. */
  lemma ContainsChar(s: string, c: char)
    ensures Contains(s, [c]) <==> c in s
  {
    if c in s {
      var i :| 0 <= i < |s| && s[i] == c;
      assert OccursAt(s, [c], i);
    }
    if Contains(s, [c]) {
      var i: nat :| i <= |s| && OccursAt(s, [c], i);
      assert s[i..i + 1][0] == s[i];
    }
  }

  /** `s.substring(0, n)` */
  function Take(s: string, n: nat): (r: string)
    ensures |r| == if |s| <= n then |s| else n
    ensures r == s[..|r|]
  {
    if |s| <= n then s else s[..n]
  }

  // ---------------------------------------------------------------------------
  // Page values with fallbacks
  // ---------------------------------------------------------------------------

  /**
   * `el?.textContent?.trim() || fallback`: the trimmed text of an element that
   * may be missing (`None`), or `fallback` when that text is empty.
   */
  function TextOr(text: Option<string>, fallback: string): (r: string)
    ensures text.None? ==> r == fallback
    ensures text.Some? && Trim(text.value) != [] ==> r == Trim(text.value)
    ensures text.Some? && Trim(text.value) == [] ==> r == fallback
    ensures Trimmed(fallback) ==> Trimmed(r)
  {
    if text.None? || Trim(text.value) == [] then fallback else Trim(text.value)
  }

  /** `el?.getAttribute(name) || fallback`: attributes are not trimmed. */
  function AttrOr(attr: Option<string>, fallback: string): (r: string)
    ensures r == fallback || (attr == Some(r) && r != [])
  {
    if attr.None? || attr.value == [] then fallback else attr.value
  }

  /** `parseInt('0')` is 0. */
  lemma ParseIntOfZero()
    ensures ParseInt("0") == Some(0)
  {
    assert TrimStart("0") == "0";
    assert Unsigned("0") == "0";
    assert DigitRunEnd("0", 1) == 1;
    assert "0"[..1] == "0";
  }
}
