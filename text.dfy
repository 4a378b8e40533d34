/** String primitives with the meaning the extraction rules give them in
    Python, restricted to ASCII text: `str.upper`, `str.isdigit`,
    `str.isspace`/`str.strip`, the `in` substring test and `str.split`
    (both through a leftmost search), `str.replace` and `int()` on a run of
    decimal digits. */
module Text {

  /** An optional value; `None` stands for Python's `None`. */
  datatype Option<T> = None | Some(value: T)

  // ---------------------------------------------------------------------
  // Characters

  predicate IsLower(c: char) { 'a' <= c <= 'z' }

  /** `str.upper` on one ASCII character: a-z become A-Z, the rest stay. */
  function UpperChar(c: char): (u: char)
    ensures !IsLower(u)
    ensures IsLower(c) ==> u as int == c as int - 32 && 'A' <= u <= 'Z'
    ensures !IsLower(c) ==> u == c
  {
    if IsLower(c) then (c as int - 32) as char else c
  }

  predicate IsDigit(c: char) { '0' <= c <= '9' }

  /** The ASCII characters Python's `str.isspace` accepts (and `str.strip`
      removes): tab, line feed, vertical tab, form feed, carriage return,
      the four information separators 0x1C-0x1F, and the space. */
  predicate IsSpace(c: char) {
    var n := c as int;
    n == 32 || 9 <= n <= 13 || 28 <= n <= 31
  }

  function DigitValue(c: char): (d: nat)
    requires IsDigit(c)
    ensures d <= 9
  {
    c as int - '0' as int
  }

  // ---------------------------------------------------------------------
  // Whole-string predicates

  predicate NoLower(s: string) {
    forall i :: 0 <= i < |s| ==> !IsLower(s[i])
  }

  predicate AllDigits(s: string) {
    forall i :: 0 <= i < |s| ==> IsDigit(s[i])
  }

  /** `any(ch.isdigit() for ch in s)` */
  predicate HasDigit(s: string)
  {
    |s| > 0 && (IsDigit(s[0]) || HasDigit(s[1..]))
  }

  lemma {:induction false} HasDigitAt(s: string)
    ensures HasDigit(s) <==> exists i :: 0 <= i < |s| && IsDigit(s[i])
  {
    if |s| > 0 {
      HasDigitAt(s[1..]);
      if HasDigit(s[1..]) {
        var i :| 0 <= i < |s[1..]| && IsDigit(s[1..][i]);
        assert IsDigit(s[i + 1]);
      }
      if exists i :: 0 <= i < |s| && IsDigit(s[i]) {
        var i :| 0 <= i < |s| && IsDigit(s[i]);
        if i > 0 { assert IsDigit(s[1..][i - 1]); }
      }
    }
  }

  /** Every character is white space. */
  predicate AllSpace(s: string) {
    forall k :: 0 <= k < |s| ==> IsSpace(s[k])
  }

  /** Neither the first nor the last character is white space; this is
      what `str.strip` guarantees of its result. */
  predicate NoEdgeSpace(s: string) {
    s == [] || (!IsSpace(s[0]) && !IsSpace(s[|s| - 1]))
  }

  // ---------------------------------------------------------------------
  // Upper-casing

  /** `s.upper()` for ASCII text. */
  function Upper(s: string): (r: string)
    ensures |r| == |s|
    ensures forall i :: 0 <= i < |s| ==> r[i] == UpperChar(s[i])
    ensures NoLower(r)
  {
    if |s| == 0 then [] else [UpperChar(s[0])] + Upper(s[1..])
  }

  lemma {:induction false} UpperOfUpper(s: string)
    requires NoLower(s)
    ensures Upper(s) == s
  {
    if |s| > 0 {
      assert NoLower(s[1..]) by {
        forall i | 0 <= i < |s[1..]| ensures !IsLower(s[1..][i]) { assert s[1..][i] == s[i + 1]; }
      }
      UpperOfUpper(s[1..]);
    }
  }

  // ---------------------------------------------------------------------
  // Substring search

  /** `p` occurs in `s` starting at index `i`. */
  predicate OccursAt(s: string, p: string, i: nat) {
    i + |p| <= |s| && s[i..i + |p|] == p
  }

  /** The leftmost occurrence of `p` at or after index `from`. */
  function FindFrom(s: string, p: string, from: nat): (r: Option<nat>)
    ensures r.Some? ==> from <= r.value && OccursAt(s, p, r.value)
    ensures r.Some? ==> forall j :: from <= j < r.value ==> !OccursAt(s, p, j)
    ensures r.None? ==> forall j :: from <= j ==> !OccursAt(s, p, j)
    decreases |s| - from
  {
    if from + |p| > |s| then None
    else if s[from..from + |p|] == p then Some(from)
    else FindFrom(s, p, from + 1)
  }

  /** The leftmost occurrence of `p` in `s`, if any: `p in s` holds when
      there is one, and `s.split(p)[0]` is `s[..Find(s, p).value]`. */
  function Find(s: string, p: string): (r: Option<nat>)
    ensures r.Some? ==> OccursAt(s, p, r.value) && forall j :: 0 <= j < r.value ==> !OccursAt(s, p, j)
    ensures r.None? ==> forall j :: 0 <= j ==> !OccursAt(s, p, j)
  {
    FindFrom(s, p, 0)
  }

  /** The leftmost occurrence is the one `Find` reports. */
  lemma FindLeftmost(s: string, p: string, i: nat)
    requires OccursAt(s, p, i) && forall j :: 0 <= j < i ==> !OccursAt(s, p, j)
    ensures Find(s, p) == Some(i)
  {
  }

  /** Python's `p in s`. */
  predicate Contains(s: string, p: string) {
    Find(s, p).Some?
  }

  /** `any(k in s for k in keys)` */
  predicate ContainsAny(s: string, keys: seq<string>)
  {
    |keys| > 0 && (Contains(s, keys[0]) || ContainsAny(s, keys[1..]))
  }

  lemma {:induction false} ContainsAnyAt(s: string, keys: seq<string>)
    ensures ContainsAny(s, keys) <==> exists k :: 0 <= k < |keys| && Contains(s, keys[k])
  {
    if |keys| > 0 {
      ContainsAnyAt(s, keys[1..]);
      if ContainsAny(s, keys[1..]) {
        var k :| 0 <= k < |keys[1..]| && Contains(s, keys[1..][k]);
        assert Contains(s, keys[k + 1]);
      }
      if exists k :: 0 <= k < |keys| && Contains(s, keys[k]) {
        var k :| 0 <= k < |keys| && Contains(s, keys[k]);
        if k > 0 { assert Contains(s, keys[1..][k - 1]); }
      }
    }
  }

  // ---------------------------------------------------------------------
  // Replacement

  /** `s.replace(pat, rep)`: every occurrence of `pat`, found left to right
      without overlap, is replaced by `rep`. */
  function ReplaceAll(s: string, pat: string, rep: string): (r: string)
    requires |pat| > 0
    decreases |s|
  {
    if |s| < |pat| then s
    else if s[..|pat|] == pat then rep + ReplaceAll(s[|pat|..], pat, rep)
    else [s[0]] + ReplaceAll(s[1..], pat, rep)
  }

  /** A replacement no longer than the pattern never lengthens the text, and
      one of the same length (such as "O" by "0") keeps its length. */
  lemma {:induction false} ReplaceLength(s: string, pat: string, rep: string)
    requires |pat| > 0
    ensures |rep| <= |pat| ==> |ReplaceAll(s, pat, rep)| <= |s|
    ensures |rep| == |pat| ==> |ReplaceAll(s, pat, rep)| == |s|
    decreases |s|
  {
    if |s| >= |pat| {
      if s[..|pat|] == pat {
        ReplaceLength(s[|pat|..], pat, rep);
      } else {
        ReplaceLength(s[1..], pat, rep);
      }
    }
  }

  /** Every character of the result comes from `s` or from `rep`. */
  lemma {:induction false} ReplaceAllChars(s: string, pat: string, rep: string)
    requires |pat| > 0
    ensures forall c :: c in ReplaceAll(s, pat, rep) ==> c in s || c in rep
    decreases |s|
  {
    if |s| >= |pat| {
      var tail := if s[..|pat|] == pat then s[|pat|..] else s[1..];
      ReplaceAllChars(tail, pat, rep);
      forall c | c in tail ensures c in s {
        var i :| 0 <= i < |tail| && tail[i] == c;
        assert c == s[|s| - |tail| + i];
      }
    }
  }

  /** Replacing a pattern that does not occur changes nothing. */
  lemma {:induction false} ReplaceAbsent(s: string, pat: string, rep: string)
    requires |pat| > 0
    requires forall i :: 0 <= i <= |s| - |pat| ==> !OccursAt(s, pat, i)
    ensures ReplaceAll(s, pat, rep) == s
    decreases |s|
  {
    if |s| >= |pat| {
      assert !OccursAt(s, pat, 0);
      forall i | 0 <= i <= |s[1..]| - |pat| ensures !OccursAt(s[1..], pat, i) {
        assert !OccursAt(s, pat, i + 1);
        assert s[1..][i..i + |pat|] == s[i + 1..i + 1 + |pat|];
      }
      ReplaceAbsent(s[1..], pat, rep);
      assert [s[0]] + s[1..] == s;
    }
  }

  /** Replacing a one-character pattern works on each part of a
      concatenation separately. */
  lemma {:induction false} ReplaceCharAppend(a: string, b: string, c: char, rep: string)
    ensures ReplaceAll(a + b, [c], rep) == ReplaceAll(a, [c], rep) + ReplaceAll(b, [c], rep)
  {
    if |a| == 0 {
      assert a + b == b;
    } else {
      ReplaceCharAppend(a[1..], b, c, rep);
      assert (a + b)[..1] == a[..1] == [a[0]];
      assert (a + b)[1..] == a[1..] + b;
    }
  }

  /** Replacing a character that does not occur changes nothing. */
  lemma {:induction false} ReplaceCharAbsent(s: string, c: char, rep: string)
    requires c !in s
    ensures ReplaceAll(s, [c], rep) == s
  {
    if |s| > 0 {
      assert c !in s[1..] by { assert s == [s[0]] + s[1..]; }
      ReplaceCharAbsent(s[1..], c, rep);
      assert s[..1] == [s[0]];
      assert [s[0]] + s[1..] == s;
    }
  }

  /** Reference definition: `s` with every `c` dropped. */
  function Without(s: string, c: char): (r: string)
    ensures c !in r
  {
    if |s| == 0 then []
    else (if s[0] == c then [] else [s[0]]) + Without(s[1..], c)
  }

  /** Dropping a character adds none. */
  lemma {:induction false} WithoutKeepsAbsent(s: string, c: char, d: char)
    requires d !in s
    ensures d !in Without(s, c)
  {
    if |s| > 0 {
      assert d !in s[1..] by { assert s == [s[0]] + s[1..]; }
      WithoutKeepsAbsent(s[1..], c, d);
    }
  }

  /** Dropping a character that does not occur changes nothing. */
  lemma {:induction false} WithoutAbsent(s: string, c: char)
    requires c !in s
    ensures Without(s, c) == s
  {
    if |s| > 0 {
      assert c !in s[1..] by { assert s == [s[0]] + s[1..]; }
      WithoutAbsent(s[1..], c);
      assert [s[0]] + s[1..] == s;
    }
  }

  /** Dropping a character from a concatenation drops it from each part. */
  lemma {:induction false} WithoutAppend(a: string, b: string, c: char)
    ensures Without(a + b, c) == Without(a, c) + Without(b, c)
  {
    if |a| > 0 {
      WithoutAppend(a[1..], b, c);
      assert (a + b)[1..] == a[1..] + b;
    } else {
      assert a + b == b;
    }
  }

  /** Replacing a one-character string by nothing drops that character. */
  lemma {:induction false} ReplaceCharByNothing(s: string, c: char)
    ensures ReplaceAll(s, [c], "") == Without(s, c)
  {
    if |s| > 0 {
      ReplaceCharByNothing(s[1..], c);
      assert s[..1] == [s[0]];
    }
  }

  lemma RemovalKeepsNoLower(s: string, pat: string)
    requires |pat| > 0
    ensures NoLower(s) ==> NoLower(ReplaceAll(s, pat, ""))
  {
    var r := ReplaceAll(s, pat, "");
    ReplaceAllChars(s, pat, "");
    if NoLower(s) {
      forall k | 0 <= k < |r| ensures !IsLower(r[k]) {
        assert r[k] in r;
      }
    }
  }

  // ---------------------------------------------------------------------
  // Stripping white space

  /** `s.lstrip()` */
  function TrimLeft(s: string): (r: string)
    ensures |r| <= |s| && r == s[|s| - |r|..]
    ensures AllSpace(s[..|s| - |r|])
    ensures r == [] || !IsSpace(r[0])
  {
    if |s| > 0 && IsSpace(s[0]) then
      var r := TrimLeft(s[1..]);
      assert s[..|s| - |r|] == [s[0]] + s[1..][..|s| - 1 - |r|];
      r
    else s
  }

  /** `s.rstrip()` */
  function TrimRight(s: string): (r: string)
    ensures |r| <= |s| && r == s[..|r|]
    ensures AllSpace(s[|r|..])
    ensures r == [] || !IsSpace(r[|r| - 1])
  {
    if |s| > 0 && IsSpace(s[|s| - 1]) then
      var r := TrimRight(s[..|s| - 1]);
      assert s[|r|..] == s[..|s| - 1][|r|..] + [s[|s| - 1]];
      r
    else s
  }

  /** `s.strip()`: the longest middle part of `s` that does not begin or
      end with white space, obtained by removing only white space. */
  function Strip(s: string): (r: string)
    ensures NoEdgeSpace(r)
    ensures exists i: nat :: OccursAt(s, r, i) && AllSpace(s[..i]) && AllSpace(s[i + |r|..])
  {
    var l := TrimLeft(s);
    var r := TrimRight(l);
    StripParts(s, l, r);
    r
  }

  /** A middle part `r` of `s`: what is left of `s` after a white-space
      prefix is dropped (giving `l`) and a white-space suffix of `l` is
      dropped. */
  lemma StripParts(s: string, l: string, r: string)
    requires |l| <= |s| && l == s[|s| - |l|..] && AllSpace(s[..|s| - |l|])
    requires l == [] || !IsSpace(l[0])
    requires |r| <= |l| && r == l[..|r|] && AllSpace(l[|r|..])
    requires r == [] || !IsSpace(r[|r| - 1])
    ensures NoEdgeSpace(r)
    ensures exists i: nat :: OccursAt(s, r, i) && AllSpace(s[..i]) && AllSpace(s[i + |r|..])
  {
    var i := |s| - |l|;
    assert s[i + |r|..] == l[|r|..];
    assert OccursAt(s, r, i);
  }

  /** Stripping a string that has no white space at either end changes nothing. */
  lemma StripUnchanged(s: string)
    requires NoEdgeSpace(s)
    ensures Strip(s) == s
  {
  }

  lemma StripKeepsNoLower(s: string)
    requires NoLower(s)
    ensures NoLower(Strip(s))
  {
    var r := Strip(s);
    var i: nat :| OccursAt(s, r, i);
    forall k | 0 <= k < |r| ensures !IsLower(r[k]) { assert r[k] == s[i..i + |r|][k] == s[i + k]; }
  }

  // ---------------------------------------------------------------------
  // Decimal numbers

  /** Ten to the power `n`. */
  function Pow10(n: nat): (p: nat)
    ensures p >= 1
  {
    if n == 0 then 1 else 10 * Pow10(n - 1)
  }

  /** `int(s)` for a string of decimal digits (leading zeros allowed); a
      string of `n` digits denotes a number below ten to the `n`. */
  function DecimalValue(s: string): (v: nat)
    requires AllDigits(s)
    ensures v < Pow10(|s|)
  {
    if |s| == 0 then 0 else DecimalValue(s[..|s| - 1]) * 10 + DigitValue(s[|s| - 1])
  }
}
