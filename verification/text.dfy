/**
 Character-level helpers over `string` (= `seq<char>`): the subset of Python's
 `str.lower()`, `in` and the regular-expression class `\d` that the schedule
 and timestamp code relies on.
 */
module Text {

  /** The ASCII decimal digits; Python's `\d` also matches other Unicode digits, which are not modelled. */
  predicate IsDigit(c: char) {
    '0' <= c <= '9'
  }

  predicate AllDigits(s: string) {
    forall k :: 0 <= k < |s| ==> IsDigit(s[k])
  }

  /**
   The characters `\s` matches in a `str` pattern, i.e. those for which
   `str.isspace()` holds: the ASCII controls U+0009..U+000D and U+001C..U+001F,
   the space, U+0085, U+00A0, U+1680, U+2000..U+200A, U+2028, U+2029, U+202F,
   U+205F and U+3000.
   */
  predicate IsSpace(c: char) {
    ('\t' <= c <= '\r') || ('\U{1C}' <= c <= ' ')
    || c == '\U{85}' || c == '\U{A0}' || c == '\U{1680}'
    || ('\U{2000}' <= c <= '\U{200A}') || c == '\U{2028}' || c == '\U{2029}'
    || c == '\U{202F}' || c == '\U{205F}' || c == '\U{3000}'
  }

  /** True for the characters `LowerChar` maps to a different character. */
  predicate IsUpper(c: char) {
    ('A' <= c <= 'Z') || ('Ѐ' <= c <= 'Я')
  }

  /**
   Lower-case mapping of one character, restricted to ASCII and the Cyrillic
   block: A-Z to a-z, U+0410..U+042F (А..Я) to U+0430..U+044F (а..я) and
   U+0400..U+040F (Ѐ..Џ, among them Ё) to U+0450..U+045F.
   */
  function LowerChar(c: char): (l: char)
    ensures IsUpper(c) <==> l != c
    ensures IsUpper(c) ==> !IsDigit(l) && !IsSpace(l) && l != ':' && l != '-' && l != '.'
    ensures !IsUpper(l)
  {
    if 'A' <= c <= 'Z' then (c as int + 32) as char
    else if 'А' <= c <= 'Я' then (c as int + 0x20) as char
    else if 'Ѐ' <= c <= 'Џ' then (c as int + 0x50) as char
    else c
  }

  /** `s.lower()` for the characters `LowerChar` covers. */
  function Lower(s: string): string {
    seq(|s|, k requires 0 <= k < |s| => LowerChar(s[k]))
  }

  /** Lowering leaves a string without upper-case characters unchanged. */
  lemma LowerFixesLowered(s: string)
    requires forall k :: 0 <= k < |s| ==> !IsUpper(s[k])
    ensures Lower(s) == s
  {
  }

  /** Lowering works character by character, so it distributes over concatenation. */
  lemma LowerAppend(a: string, b: string)
    ensures Lower(a + b) == Lower(a) + Lower(b)
  {
  }

  /** Lowering is idempotent. */
  lemma LowerIdempotent(s: string)
    ensures Lower(Lower(s)) == Lower(s)
  {
    LowerFixesLowered(Lower(s));
  }

  /** `needle` occurs in `hay` starting at index `i`. */
  ghost predicate OccursAt(hay: string, needle: string, i: int) {
    0 <= i && i + |needle| <= |hay| && hay[i..i + |needle|] == needle
  }

  /** `needle` occurs in `hay` at index `i` or later. */
  predicate ContainsFrom(hay: string, needle: string, i: nat)
    decreases |hay| - i
  {
    i + |needle| <= |hay| && (hay[i..i + |needle|] == needle || ContainsFrom(hay, needle, i + 1))
  }

  /** Python's substring test `needle in hay`. */
  predicate Contains(hay: string, needle: string) {
    ContainsFrom(hay, needle, 0)
  }

  lemma {:induction false} ContainsFromIff(hay: string, needle: string, i: nat)
    ensures ContainsFrom(hay, needle, i) <==> exists j :: i <= j && OccursAt(hay, needle, j)
    decreases |hay| - i
  {
    if i + |needle| <= |hay| {
      ContainsFromIff(hay, needle, i + 1);
      if hay[i..i + |needle|] == needle {
        assert OccursAt(hay, needle, i);
      }
      if exists j :: i <= j && OccursAt(hay, needle, j) {
        var j :| i <= j && OccursAt(hay, needle, j);
        if j != i {
          assert i + 1 <= j && OccursAt(hay, needle, j);
        }
      }
    }
  }

  /** `Contains` holds exactly when the needle occurs at some index of the haystack. */
  lemma ContainsIff(hay: string, needle: string)
    ensures Contains(hay, needle) <==> exists i :: OccursAt(hay, needle, i)
  {
    ContainsFromIff(hay, needle, 0);
  }

  /** A needle with a character the haystack lacks does not occur in it. */
  lemma CharAbsent(hay: string, alphabet: set<char>, needle: string, j: nat)
    requires forall k :: 0 <= k < |hay| ==> hay[k] in alphabet
    requires j < |needle| && needle[j] !in alphabet
    ensures !Contains(hay, needle)
  {
    ContainsIff(hay, needle);
    forall i | 0 <= i && i + |needle| <= |hay|
      ensures !OccursAt(hay, needle, i)
    {
      assert hay[i + j] in alphabet;
    }
  }

  /** A needle with two adjacent characters the haystack never shows side by side does not occur in it. */
  lemma PairAbsent(hay: string, needle: string, j: nat)
    requires j + 1 < |needle|
    requires forall k :: 0 <= k < |hay| - 1 ==> hay[k] != needle[j] || hay[k + 1] != needle[j + 1]
    ensures !Contains(hay, needle)
  {
    ContainsIff(hay, needle);
    forall i | 0 <= i && i + |needle| <= |hay|
      ensures !OccursAt(hay, needle, i)
    {
      assert hay[i + j] != needle[j] || hay[i + j + 1] != needle[j + 1];
    }
  }

  /** The index just past the run of digits that starts at `i` (`i` itself when `s[i]` is no digit). */
  function DigitRunEnd(s: string, i: nat): (e: nat)
    requires i <= |s|
    ensures i <= e <= |s|
    ensures forall k :: i <= k < e ==> IsDigit(s[k])
    ensures e == |s| || !IsDigit(s[e])
    decreases |s| - i
  {
    if i < |s| && IsDigit(s[i]) then DigitRunEnd(s, i + 1) else i
  }

  /** Two starts inside one run of digits share its end. */
  lemma {:induction false} DigitRunEndInside(s: string, i: nat, j: nat)
    requires i <= |s| && i <= j <= DigitRunEnd(s, i)
    ensures DigitRunEnd(s, j) == DigitRunEnd(s, i)
    decreases j - i
  {
    if i < j {
      DigitRunEndInside(s, i + 1, j);
    }
  }

  /** A run of digits from `i` that cannot be extended ends where `DigitRunEnd` says. */
  lemma {:induction false} DigitRunEndAt(s: string, i: nat, e: nat)
    requires i <= e <= |s|
    requires forall k :: i <= k < e ==> IsDigit(s[k])
    requires e == |s| || !IsDigit(s[e])
    ensures DigitRunEnd(s, i) == e
    decreases e - i
  {
    if i < e {
      DigitRunEndAt(s, i + 1, e);
    }
  }

  /** The run of digits from `i` reaches at least as far as any digits that follow `i`. */
  lemma {:induction false} DigitRunEndBeyond(s: string, i: nat, e: nat)
    requires i <= e <= |s|
    requires forall k :: i <= k < e ==> IsDigit(s[k])
    ensures e <= DigitRunEnd(s, i)
    decreases e - i
  {
    if i < e {
      DigitRunEndBeyond(s, i + 1, e);
    }
  }

  /** The decimal value of a string of digits (Python's `int()` on it). */
  function DigitsValue(s: string): (n: nat)
    requires AllDigits(s)
  {
    if s == [] then 0 else DigitsValue(s[..|s| - 1]) * 10 + (s[|s| - 1] as int - '0' as int)
  }

  function Pow10(w: nat): (p: nat)
    ensures p >= 1
  {
    if w == 0 then 1 else 10 * Pow10(w - 1)
  }

  /** `n` written with exactly `w` digits, zero-padded on the left (Python's `'%0wd' % n` for `n < 10^w`). */
  function Fixed(n: nat, w: nat): (s: string)
    ensures |s| == w
    ensures AllDigits(s)
  {
    if w == 0 then [] else Fixed(n / 10, w - 1) + [('0' as int + n % 10) as char]
  }

  /** Reading back a zero-padded number gives the number, as long as it fits. */
  lemma {:induction false} FixedValue(n: nat, w: nat)
    requires n < Pow10(w)
    ensures DigitsValue(Fixed(n, w)) == n
  {
    if w > 0 {
      FixedValue(n / 10, w - 1);
      var s := Fixed(n, w);
      assert s[..|s| - 1] == Fixed(n / 10, w - 1);
    }
  }
}
