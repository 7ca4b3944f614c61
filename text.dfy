/**
 * The Python `str` operations the scripts rely on: strip, upper, `in`,
 * endswith, replace and the digit filters `str.isdigit` / `zfill`.
 * Whitespace is Python's for code points below U+0100 and upper-casing is
 * ASCII only; see README for what that leaves out.
 */
module Text {

  /** `str.isspace()` for code points below U+0100. */
  predicate IsSpace(c: char) {
    var n := c as int;
    (9 <= n <= 13) || (28 <= n <= 32) || n == 0x85 || n == 0xA0
  }

  predicate IsDigit(c: char) {
    '0' <= c <= '9'
  }

  predicate AllDigits(s: string) {
    forall i :: 0 <= i < |s| ==> IsDigit(s[i])
  }

  /** `any(ch.isdigit() for ch in s)` */
  predicate HasDigit(s: string) {
    exists i :: 0 <= i < |s| && IsDigit(s[i])
  }

  function LStrip(s: string): (r: string)
    ensures r == [] || !IsSpace(r[0])
    ensures |r| <= |s| && r == s[|s| - |r|..]
    ensures forall i :: 0 <= i < |s| - |r| ==> IsSpace(s[i])
  {
    if s != [] && IsSpace(s[0]) then LStrip(s[1..]) else s
  }

  function RStrip(s: string): (r: string)
    ensures r == [] || !IsSpace(r[|r| - 1])
    ensures |r| <= |s| && r == s[..|r|]
    ensures forall i :: |r| <= i < |s| ==> IsSpace(s[i])
  {
    if s != [] && IsSpace(s[|s| - 1]) then RStrip(s[..|s| - 1]) else s
  }

  /** r is s with the first n characters and everything after r cut off, all of them whitespace. */
  predicate TrimmedAt(s: string, r: string, n: int) {
    && 0 <= n <= |s| - |r|
    && r == s[n..n + |r|]
    && (forall i :: 0 <= i < n ==> IsSpace(s[i]))
    && (forall i :: n + |r| <= i < |s| ==> IsSpace(s[i]))
  }

  /**
   * `str.strip()`: the infix left once the leading and trailing whitespace
   * is cut off; it neither starts nor ends with whitespace.
   */
  function Strip(s: string): (r: string)
    ensures r == [] || (!IsSpace(r[0]) && !IsSpace(r[|r| - 1]))
    ensures exists n :: TrimmedAt(s, r, n)
  {
    var l := LStrip(s);
    var r := RStrip(l);
    StripTrims(s, l, r);
    r
  }

  lemma StripTrims(s: string, l: string, r: string)
    requires |l| <= |s| && l == s[|s| - |l|..] && forall i :: 0 <= i < |s| - |l| ==> IsSpace(s[i])
    requires |r| <= |l| && r == l[..|r|] && forall i :: |r| <= i < |l| ==> IsSpace(l[i])
    ensures TrimmedAt(s, r, |s| - |l|)
  {
    var n := |s| - |l|;
    forall i | n + |r| <= i < |s| ensures IsSpace(s[i]) {
      assert s[i] == l[i - n];
    }
  }

  function UpperChar(c: char): char {
    if 'a' <= c <= 'z' then (c as int - 32) as char else c
  }

  /** `str.upper()` on ASCII letters. */
  function Upper(s: string): (r: string)
    ensures |r| == |s|
    ensures forall i :: 0 <= i < |s| ==> r[i] == UpperChar(s[i])
  {
    seq(|s|, i requires 0 <= i < |s| => UpperChar(s[i]))
  }

  predicate OccursAt(s: string, sub: string, i: int) {
    0 <= i <= |s| - |sub| && s[i..i + |sub|] == sub
  }

  /** `sub in s` */
  predicate Contains(s: string, sub: string) {
    exists i :: 0 <= i <= |s| && OccursAt(s, sub, i)
  }

  predicate EndsWith(s: string, suffix: string) {
    |suffix| <= |s| && s[|s| - |suffix|..] == suffix
  }

  /** `s.replace(c, '')` */
  function RemoveAll(s: string, c: char): (r: string)
    ensures c !in r
    ensures |r| <= |s|
    ensures forall i :: 0 <= i < |r| ==> r[i] in s
  {
    if s == [] then []
    else if s[|s| - 1] == c then RemoveAll(s[..|s| - 1], c)
    else RemoveAll(s[..|s| - 1], c) + [s[|s| - 1]]
  }

  /** `s.replace(a, b)` for single characters a and b. */
  function ReplaceAll(s: string, a: char, b: char): (r: string)
    ensures |r| == |s|
    ensures forall i :: 0 <= i < |s| ==> r[i] == if s[i] == a then b else s[i]
  {
    seq(|s|, i requires 0 <= i < |s| => if s[i] == a then b else s[i])
  }

  /** `''.join(filter(str.isdigit, s))`: the digits of s, in order. */
  function DigitsOf(s: string): (r: string)
    ensures AllDigits(r)
    ensures |r| <= |s|
    ensures AllDigits(s) ==> r == s
    ensures |r| == |s| ==> r == s
  {
    if s == [] then []
    else if IsDigit(s[|s| - 1]) then DigitsOf(s[..|s| - 1]) + [s[|s| - 1]]
    else DigitsOf(s[..|s| - 1])
  }

  function Zeros(n: nat): (r: string)
    ensures |r| == n && forall i :: 0 <= i < n ==> r[i] == '0'
  {
    if n == 0 then [] else Zeros(n - 1) + ['0']
  }

  /** `s.zfill(width)` for a string with no sign character. */
  function ZFill(s: string, width: nat): (r: string)
    ensures |r| == if |s| >= width then |s| else width
    ensures EndsWith(r, s)
    ensures forall i :: 0 <= i < |r| - |s| ==> r[i] == '0'
  {
    if |s| >= width then s else Zeros(width - |s|) + s
  }

  // ---------------------------------------------------------------------
  // Facts about these operations
  // ---------------------------------------------------------------------

  lemma {:induction false} RemoveAllAppend(a: string, b: string, c: char)
    ensures RemoveAll(a + b, c) == RemoveAll(a, c) + RemoveAll(b, c)
    decreases |b|
  {
    if b == [] {
      assert a + b == a;
    } else {
      var b' := b[..|b| - 1];
      assert (a + b)[..|a + b| - 1] == a + b';
      RemoveAllAppend(a, b', c);
    }
  }

  /** The digits of a concatenation are the digits of each part, in order. */
  lemma {:induction false} DigitsOfAppend(a: string, b: string)
    ensures DigitsOf(a + b) == DigitsOf(a) + DigitsOf(b)
    decreases |b|
  {
    if b == [] {
      assert a + b == a;
    } else {
      var b' := b[..|b| - 1];
      assert (a + b)[..|a + b| - 1] == a + b';
      DigitsOfAppend(a, b');
    }
  }

  /** One character contributes itself when it is a digit, and nothing otherwise. */
  lemma DigitsOfChar(c: char)
    ensures DigitsOf([c]) == if IsDigit(c) then [c] else []
  {
    assert [c][..0] == [];
  }

  lemma {:induction false} RemoveAllAbsent(s: string, c: char)
    requires c !in s
    ensures RemoveAll(s, c) == s
  {
    if s != [] {
      assert c !in s[..|s| - 1];
      RemoveAllAbsent(s[..|s| - 1], c);
    }
  }

  /** Removing the one c between two texts without c joins them. */
  lemma RemoveBetween(a: string, b: string, c: char)
    requires c !in a && c !in b
    ensures RemoveAll(a + [c] + b, c) == a + b
  {
    RemoveAllAppend(a + [c], b, c);
    RemoveAllAbsent(b, c);
    assert (a + [c])[..|a|] == a;
    RemoveAllAbsent(a, c);
  }

  lemma ReplaceAllAppend(a: string, b: string, x: char, y: char)
    ensures ReplaceAll(a + b, x, y) == ReplaceAll(a, x, y) + ReplaceAll(b, x, y)
  {
  }

  lemma ReplaceAllAbsent(s: string, x: char, y: char)
    requires x !in s
    ensures ReplaceAll(s, x, y) == s
  {
  }

  /** A string that neither starts nor ends with whitespace is its own strip. */
  lemma StripTrimmed(s: string)
    requires s == [] || (!IsSpace(s[0]) && !IsSpace(s[|s| - 1]))
    ensures Strip(s) == s
  {
  }

  /** Stripping keeps only characters of the input. */
  lemma StripKeepsCharacters(s: string)
    ensures forall i :: 0 <= i < |Strip(s)| ==> Strip(s)[i] in s
  {
    var r := Strip(s);
    var n :| TrimmedAt(s, r, n);
    forall i | 0 <= i < |r| ensures r[i] in s {
      assert r[i] == s[n + i];
    }
  }

  /** A non-empty text that stripping leaves alone does not begin with whitespace. */
  lemma StrippedLeads(s: string)
    requires s != [] && Strip(s) == s
    ensures !IsSpace(s[0])
  {
    var r := Strip(s);
    assert r[0] == s[0];
  }

  lemma StripIdempotent(s: string)
    ensures Strip(Strip(s)) == Strip(s)
  {
    StripTrimmed(Strip(s));
  }

  lemma {:induction false} LStripUpper(s: string)
    ensures LStrip(Upper(s)) == Upper(LStrip(s))
  {
    if s != [] {
      assert Upper(s)[1..] == Upper(s[1..]);
      LStripUpper(s[1..]);
    }
  }

  lemma {:induction false} RStripUpper(s: string)
    ensures RStrip(Upper(s)) == Upper(RStrip(s))
  {
    if s != [] {
      assert Upper(s)[..|s| - 1] == Upper(s[..|s| - 1]);
      RStripUpper(s[..|s| - 1]);
    }
  }

  /** Upper-casing never creates or removes whitespace, so it commutes with strip. */
  lemma StripUpper(s: string)
    ensures Strip(Upper(s)) == Upper(Strip(s))
  {
    LStripUpper(s);
    RStripUpper(LStrip(s));
  }

  /** No lower-case ASCII letter occurs in s. */
  predicate NoLower(s: string) {
    forall i :: 0 <= i < |s| ==> !('a' <= s[i] <= 'z')
  }

  lemma UpperNoLower(s: string)
    ensures NoLower(Upper(s))
  {
  }

  /** Stripping only removes characters. */
  lemma StripNoLower(s: string)
    requires NoLower(s)
    ensures NoLower(Strip(s))
  {
    SuffixNoLower(s, |s| - |LStrip(s)|);
    PrefixNoLower(LStrip(s), |RStrip(LStrip(s))|);
  }

  lemma SuffixNoLower(s: string, n: nat)
    requires NoLower(s) && n <= |s|
    ensures NoLower(s[n..])
  {
    assert forall i :: 0 <= i < |s| - n ==> s[n..][i] == s[n + i];
  }

  lemma PrefixNoLower(s: string, n: nat)
    requires NoLower(s) && n <= |s|
    ensures NoLower(s[..n])
  {
  }

  /** Appending the exchange suffix keeps the prefix and the absence of lower-case letters. */
  lemma SuffixAppended(t: string)
    requires NoLower(t)
    ensures var r := t + ".SA"; |t| <= |r| && r[..|t|] == t && NoLower(r) && EndsWith(r, ".SA")
  {
    assert NoLower(".SA") by {
      assert ".SA"[0] == '.' && ".SA"[1] == 'S' && ".SA"[2] == 'A';
    }
    AppendKeeps(t, ".SA");
  }

  /** Appending keeps the text in front, ends in what was appended, and adds no lower-case letter unless it had one. */
  lemma AppendKeeps(t: string, x: string)
    ensures (t + x)[..|t|] == t && EndsWith(t + x, x)
    ensures NoLower(t) && NoLower(x) ==> NoLower(t + x)
  {
    EndsWithAppend(t, x);
    assert (t + x)[..|t|] == t;
  }

  lemma UpperIdempotent(s: string)
    ensures Upper(Upper(s)) == Upper(s)
  {
  }

  /** Padding digits to width w gives w digits, zeros in front, exactly when there are at most w. */
  lemma ZFillDigits(d: string, w: nat)
    requires AllDigits(d)
    ensures |ZFill(d, w)| == w <==> |d| <= w
    ensures |d| <= w ==> AllDigits(ZFill(d, w)) && forall i :: 0 <= i < w - |d| ==> ZFill(d, w)[i] == '0'
  {
    if |d| < w {
      var z := Zeros(w - |d|);
      assert ZFill(d, w) == z + d;
      forall i | 0 <= i < w ensures IsDigit(ZFill(d, w)[i]) {
        if i >= |z| {
          assert ZFill(d, w)[i] == d[i - |z|];
        }
      }
    }
  }

  lemma EndsWithAppend(s: string, suffix: string)
    ensures EndsWith(s + suffix, suffix)
  {
    assert (s + suffix)[|s|..] == suffix;
  }
}
