/**
 * String operations shared by the back end (Python) and the front end
 * (JavaScript), restricted to ASCII text: `\d` is `[0-9]`, case mapping
 * touches only `a`-`z` / `A`-`Z`, and one character is one code unit.
 */
module Text {
  import opened Wrappers

  // ---------------------------------------------------------------------
  // Characters

  predicate IsDigit(c: char) { '0' <= c <= '9' }

  predicate IsLowerLetter(c: char) { 'a' <= c <= 'z' }

  predicate IsUpperLetter(c: char) { 'A' <= c <= 'Z' }

  /** Python's `str.isspace()` restricted to ASCII: space, `\t` through `\r`, and `\x1c` through `\x1f`. */
  predicate IsSpace(c: char) {
    c == ' ' || '\t' <= c <= '\r' || '\U{1c}' <= c <= '\U{1f}'
  }

  function UpperChar(c: char): (u: char)
    ensures IsLowerLetter(c) ==> IsUpperLetter(u) && u as int == c as int - 32
    ensures !IsLowerLetter(c) ==> u == c
  {
    if IsLowerLetter(c) then (c as int - 32) as char else c
  }

  function LowerChar(c: char): (l: char)
    ensures IsUpperLetter(c) ==> IsLowerLetter(l) && l as int == c as int + 32
    ensures !IsUpperLetter(c) ==> l == c
  {
    if IsUpperLetter(c) then (c as int + 32) as char else c
  }

  /** `s.upper()` / `s.toUpperCase()` on ASCII text. */
  function Upper(s: string): (u: string)
    ensures |u| == |s|
    ensures forall i :: 0 <= i < |s| ==> u[i] == UpperChar(s[i])
  {
    seq(|s|, i requires 0 <= i < |s| => UpperChar(s[i]))
  }

  /** `s.lower()` on ASCII text. */
  function Lower(s: string): (l: string)
    ensures |l| == |s|
    ensures forall i :: 0 <= i < |s| ==> l[i] == LowerChar(s[i])
  {
    seq(|s|, i requires 0 <= i < |s| => LowerChar(s[i]))
  }


  /** Case mapping commutes with slicing. */
  lemma UpperSlice(s: string, i: nat, j: nat)
    requires i <= j <= |s|
    ensures Upper(s)[i..j] == Upper(s[i..j])
  {
  }

  // ---------------------------------------------------------------------
  // Substrings (Python's `p in s`, JavaScript's `s.includes(p)`)

  predicate StartsWith(s: string, p: string) {
    |p| <= |s| && s[..|p|] == p
  }

  /** `p` occurs in `s` starting at index `i`. */
  predicate OccursAt(s: string, p: string, i: int) {
    0 <= i && i + |p| <= |s| && s[i..i + |p|] == p
  }

  /** Python's `p in s` and JavaScript's `s.includes(p)`: `p` occurs somewhere in `s`. */
  predicate Contains(s: string, p: string) {
    exists i :: 0 <= i <= |s| - |p| && OccursAt(s, p, i)
  }

  /** An occurrence at a known index is enough. */
  lemma ContainsWitness(s: string, p: string, i: int)
    requires OccursAt(s, p, i)
    ensures Contains(s, p)
  {
    assert 0 <= i <= |s| - |p|;
  }

  /**
   * Python `for w in words: if w in s: ...; break` and JavaScript's
   * `if (s.includes(w)) return ...` chains: the index of the first entry of
   * `words` that occurs in `s`.
   */
  function FirstContained(s: string, words: seq<string>): (r: Option<nat>)
    ensures r.Some? ==> r.value < |words| && Contains(s, words[r.value])
    ensures r.Some? ==> forall j :: 0 <= j < r.value ==> !Contains(s, words[j])
    ensures r.None? <==> forall j :: 0 <= j < |words| ==> !Contains(s, words[j])
    decreases |words|
  {
    if words == [] then None
    else if Contains(s, words[0]) then Some(0)
    else
      match FirstContained(s, words[1..])
      case None => None
      case Some(k) => Some(k + 1)
  }

  /** The first-match index is unique: any contained entry with nothing contained before it is that index. */
  lemma FirstContainedUnique(s: string, words: seq<string>, k: nat)
    requires k < |words| && Contains(s, words[k])
    requires forall j :: 0 <= j < k ==> !Contains(s, words[j])
    ensures FirstContained(s, words) == Some(k)
  {
  }

  // ---------------------------------------------------------------------
  // Python `str.strip()`

  /** The number of whitespace characters `s` starts with. */
  function LeadingSpace(s: string): (n: nat)
    ensures n <= |s|
    ensures forall k :: 0 <= k < n ==> IsSpace(s[k])
    ensures n == |s| || !IsSpace(s[n])
    decreases |s|
  {
    if |s| > 0 && IsSpace(s[0]) then 1 + LeadingSpace(s[1..]) else 0
  }

  /** The length of `s` without the whitespace it ends with. */
  function TrailingCut(s: string): (n: nat)
    ensures n <= |s|
    ensures forall k :: n <= k < |s| ==> IsSpace(s[k])
    ensures n == 0 || !IsSpace(s[n - 1])
    decreases |s|
  {
    if |s| > 0 && IsSpace(s[|s| - 1]) then TrailingCut(s[..|s| - 1]) else |s|
  }

  /**
   * `s.strip()`: empty when `s` is all whitespace, and otherwise the infix
   * between the leading and the trailing whitespace, which neither starts
   * nor ends with whitespace.
   */
  function Strip(s: string): (r: string)
    ensures r == [] <==> LeadingSpace(s) == |s|
    ensures r != [] ==> LeadingSpace(s) < TrailingCut(s) && r == s[LeadingSpace(s)..TrailingCut(s)]
    ensures r == [] || (!IsSpace(r[0]) && !IsSpace(r[|r| - 1]))
  {
    var lead := LeadingSpace(s);
    if lead == |s| then [] else s[lead..TrailingCut(s)]
  }

  /** `strip()` gives the empty string exactly on all-whitespace input. */
  lemma StripEmpty(s: string)
    ensures Strip(s) == [] <==> forall k :: 0 <= k < |s| ==> IsSpace(s[k])
  {
  }

  /** A stretch of `s` that begins and ends with non-whitespace survives `strip()` intact. */
  lemma StripKeepsInner(s: string, i: nat, n: nat)
    requires 0 < n && i + n <= |s| && !IsSpace(s[i]) && !IsSpace(s[i + n - 1])
    ensures Strip(s) != [] && LeadingSpace(s) <= i
    ensures OccursAt(Strip(s), s[i..i + n], i - LeadingSpace(s))
  {
    var lead, cut := LeadingSpace(s), TrailingCut(s);
    assert lead <= i;
    assert i + n <= cut;
    SliceOccurs(s, lead, cut, i, n);
    assert Strip(s) == s[lead..cut];
  }

  /** A stretch of `s` inside `s[lo..hi]` occurs in that slice, shifted by `lo`. */
  lemma SliceOccurs(s: string, lo: nat, hi: nat, i: nat, n: nat)
    requires lo <= i && i + n <= hi <= |s|
    ensures OccursAt(s[lo..hi], s[i..i + n], i - lo)
  {
    var inner, piece := s[lo..hi][i - lo..i - lo + n], s[i..i + n];
    forall k | 0 <= k < n
      ensures inner[k] == piece[k]
    {
      assert inner[k] == s[lo..hi][i - lo + k] == s[lo + (i - lo + k)];
    }
    assert inner == piece;
  }

  /** An upper-cased occurrence that neither starts nor ends with whitespace survives `strip()`. */
  lemma UpperOccurrenceSurvivesStrip(s: string, w: string, i: nat)
    requires 0 < |w| && i + |w| <= |s| && Upper(s[i..i + |w|]) == w
    requires !IsSpace(s[i]) && !IsSpace(s[i + |w| - 1])
    ensures Contains(Upper(Strip(s)), w)
  {
    StripKeepsInner(s, i, |w|);
    UpperOccurrence(Strip(s), i - LeadingSpace(s), s[i..i + |w|], w);
  }

  /** A stretch of `x` that upper-cases to `w` makes `w` occur in the upper-cased `x`. */
  lemma UpperOccurrence(x: string, lo: nat, piece: string, w: string)
    requires OccursAt(x, piece, lo) && Upper(piece) == w
    ensures Contains(Upper(x), w)
  {
    UpperSlice(x, lo, lo + |piece|);
    ContainsWitness(Upper(x), w, lo);
  }

  // ---------------------------------------------------------------------
  // Splitting on one separator character, joining with a separator string

  /** JavaScript `s.split(sep)` for a one-character separator: always at least one piece. */
  function Split(s: string, sep: char): (parts: seq<string>)
    ensures |parts| >= 1
    ensures forall k :: 0 <= k < |parts| ==> sep !in parts[k]
    decreases |s|
  {
    if s == [] then [""]
    else
      var rest := Split(s[1..], sep);
      if s[0] == sep then [""] + rest
      else [[s[0]] + rest[0]] + rest[1..]
  }

  /** JavaScript `parts.join(sep)` / Python `sep.join(parts)`. */
  function Join(parts: seq<string>, sep: string): string
    decreases |parts|
  {
    if parts == [] then ""
    else if |parts| == 1 then parts[0]
    else parts[0] + sep + Join(parts[1..], sep)
  }

  lemma JoinConsFirst(c: char, x: string, ys: seq<string>, sep: string)
    ensures Join([[c] + x] + ys, sep) == [c] + Join([x] + ys, sep)
  {
    if ys != [] {
      assert ([[c] + x] + ys)[1..] == ys;
      assert ([x] + ys)[1..] == ys;
    }
  }

  /** Joining the pieces of a split with the separator gives back the original text. */
  lemma {:induction false} JoinSplit(s: string, sep: char)
    ensures Join(Split(s, sep), [sep]) == s
    decreases |s|
  {
    if s != [] {
      var rest := Split(s[1..], sep);
      JoinSplit(s[1..], sep);
      if s[0] == sep {
        assert ([""] + rest)[1..] == rest;
      } else {
        assert rest == [rest[0]] + rest[1..];
        JoinConsFirst(s[0], rest[0], rest[1..], [sep]);
      }
      assert s == [s[0]] + s[1..];
    }
  }

  /** Splitting a join of separator-free pieces gives back the pieces. */
  lemma {:induction false} SplitJoin(parts: seq<string>, sep: char)
    requires |parts| >= 1
    requires forall k :: 0 <= k < |parts| ==> sep !in parts[k]
    ensures Split(Join(parts, [sep]), sep) == parts
    decreases |parts|, |parts[0]|
  {
    var p := parts[0];
    if p == [] {
      if |parts| == 1 {
      } else {
        var tail := Join(parts[1..], [sep]);
        assert Join(parts, [sep]) == [sep] + tail;
        assert ([sep] + tail)[1..] == tail;
        SplitJoin(parts[1..], sep);
        assert parts == [""] + parts[1..];
      }
    } else {
      var shorter := [p[1..]] + parts[1..];
      assert shorter[1..] == parts[1..];
      assert forall k :: 0 <= k < |shorter| ==> sep !in shorter[k] by {
        forall k | 0 <= k < |shorter| ensures sep !in shorter[k] {
          if k == 0 {
            assert forall c :: c in p[1..] ==> c in p;
          } else {
            assert shorter[k] == parts[k];
          }
        }
      }
      SplitJoin(shorter, sep);
      assert p == [p[0]] + p[1..];
      assert parts == [[p[0]] + p[1..]] + parts[1..];
      JoinConsFirst(p[0], p[1..], parts[1..], [sep]);
      var whole := Join(parts, [sep]);
      assert whole == [p[0]] + Join(shorter, [sep]);
      assert whole[1..] == Join(shorter, [sep]);
      assert whole[0] == p[0] && p[0] != sep;
    }
  }

  // ---------------------------------------------------------------------
  // Decimal numbers (Python `str(n)` / `int(s)`, JavaScript `n.toString()`)

  predicate AllDigits(s: string) {
    forall k :: 0 <= k < |s| ==> IsDigit(s[k])
  }

  function DigitChar(d: nat): (c: char)
    requires d < 10
    ensures IsDigit(c)
  {
    ('0' as int + d) as char
  }

  function DigitValue(c: char): (d: nat)
    requires IsDigit(c)
    ensures d < 10
  {
    c as int - '0' as int
  }

  /** Decimal rendering of a natural number: digits only, no leading zero. */
  function NatToString(n: nat): (s: string)
    ensures |s| >= 1 && AllDigits(s)
    ensures s[0] == '0' ==> n == 0
    ensures |s| > 1 ==> s[0] != '0'
    decreases n
  {
    if n < 10 then [DigitChar(n)] else NatToString(n / 10) + [DigitChar(n % 10)]
  }

  /** `int(s)` for a non-empty digit string (leading zeros allowed); the empty string reads as 0. */
  function ParseDecimal(s: string): nat
    requires AllDigits(s)
    decreases |s|
  {
    if s == [] then 0 else 10 * ParseDecimal(s[..|s| - 1]) + DigitValue(s[|s| - 1])
  }

  /** Appending a digit shifts the value one decimal place and adds the digit. */
  lemma ParseDecimalSnoc(s: string, c: char)
    requires AllDigits(s) && IsDigit(c)
    ensures AllDigits(s + [c])
    ensures ParseDecimal(s + [c]) == 10 * ParseDecimal(s) + DigitValue(c)
  {
    assert (s + [c])[..|s|] == s;
  }

  /** Three more digits multiply the value by a thousand and add their own value. */
  lemma ParseDecimalGroup(s: string, group: string)
    requires AllDigits(s) && |group| == 3 && AllDigits(group)
    ensures AllDigits(s + group)
    ensures ParseDecimal(s + group) == 1000 * ParseDecimal(s) + ParseDecimal(group)
  {
    var g0, g1, g2 := group[0], group[1], group[2];
    var s1 := s + [g0];
    var s2 := s1 + [g1];
    assert s + group == s2 + [g2];
    ParseDecimalSnoc(s, g0);
    ParseDecimalSnoc(s1, g1);
    ParseDecimalSnoc(s2, g2);
    var y1 := [g0];
    var y2 := y1 + [g1];
    assert group == y2 + [g2];
    assert [] + [g0] == y1;
    ParseDecimalSnoc([], g0);
    ParseDecimalSnoc(y1, g1);
    ParseDecimalSnoc(y2, g2);
  }

  /** Rendering a number and reading it back gives the number. */
  lemma {:induction false} ParseNatToString(n: nat)
    ensures ParseDecimal(NatToString(n)) == n
    decreases n
  {
    var s := NatToString(n);
    if n >= 10 {
      ParseNatToString(n / 10);
      assert s[..|s| - 1] == NatToString(n / 10);
    }
  }

  /**
   * JavaScript `n.toString()` for a number holding an integer of magnitude
   * below `1e21` (so for every safe integer): a minus sign exactly for
   * negatives, then the decimal digits of the magnitude without a leading
   * zero.
   */
  function IntToString(n: int): (s: string)
    ensures |s| >= 1
    ensures n < 0 <==> s[0] == '-'
    ensures n < 0 ==> |s| >= 2 && AllDigits(s[1..]) && ParseDecimal(s[1..]) == -n && s[1] != '0'
    ensures n >= 0 ==> AllDigits(s) && ParseDecimal(s) == n && (|s| > 1 ==> s[0] != '0')
  {
    ParseNatToString(if n < 0 then -n else n);
    if n < 0 then
      var digits := NatToString(-n);
      assert ("-" + digits)[1..] == digits;
      "-" + digits
    else NatToString(n)
  }
}
