/** Worked scenarios for the extraction rules: concrete lines and what the
    rules make of them.

    Where a scenario's proof walks through the text step by step, the lemma
    takes the text as a parameter fixed by its precondition
    (`requires t == "..."`). A string literal inside a contract makes the
    verifier unfold the recursive string functions on it wherever that
    contract is used, which is far costlier than reasoning about a named
    text. Scenarios with short proofs state their literal directly. */
module Scenarios {
  import opened Text
  import opened Selection
  import opened ExtractFields

  // =====================================================================
  // clean_model_name

  /** Cleaning is not idempotent: a noise word can be assembled from the
      pieces around a removed one, and a name made only of noise becomes the
      empty string, which a second cleaning turns into no name at all. */
  lemma CleanModelNotIdempotent()
    ensures CleanModel(Some("MO:-DEL")) == Some("MODEL")
    ensures CleanModel(Some("MODEL")) == Some("")
    ensures CleanModel(Some("")) == None
  {
    CleanSplitModel();
    CleanPlainModel();
  }

  /** "MO:-DEL" cleans to "MODEL". */
  lemma CleanSplitModel()
    ensures CleanModel(Some("MO:-DEL")) == Some("MODEL")
  {
    UpperOfUpper("MO:-DEL");
    SplitModelRemoved();
    StripUnchanged("MODEL");
  }

  lemma SplitModelRemoved()
    ensures RemoveEach("MO:-DEL", Noise) == "MODEL"
  {
    NoiseSteps("MO:-DEL");
    SplitModelSteps();
  }

  /** "MODEL" cleans to the empty name. */
  lemma CleanPlainModel()
    ensures CleanModel(Some("MODEL")) == Some("")
  {
    UpperOfUpper("MODEL");
    PlainModelRemoved();
    StripUnchanged("");
  }

  lemma PlainModelRemoved()
    ensures RemoveEach("MODEL", Noise) == ""
  {
    NoiseSteps("MODEL");
    ModelSteps();
  }

  /** Removing ":-" can leave a ":-" behind: "::--" cleans to ":-". */
  lemma CleanModelKeepsColonDash()
    ensures CleanModel(Some("::--")) == Some(":-")
  {
    UpperOfUpper("::--");
    NoiseSteps("::--");
    ColonDashSteps();
    StripUnchanged(":-");
  }

  /** One step of `ReplaceAll` where the pattern does not start at index 0. */
  lemma ReplaceSkips(s: string, pat: string)
    requires |pat| > 0 && |s| > 0 && !OccursAt(s, pat, 0)
    ensures ReplaceAll(s, pat, "") == [s[0]] + ReplaceAll(s[1..], pat, "")
  {
    if |s| < |pat| {
      KeepsWhenShorter(s[1..], pat);
    }
  }

  /** One step of `ReplaceAll` where the pattern starts at index 0. */
  lemma ReplaceHits(s: string, pat: string)
    requires 0 < |pat| && OccursAt(s, pat, 0)
    ensures ReplaceAll(s, pat, "") == ReplaceAll(s[|pat|..], pat, "")
  {
  }

  /** A pattern longer than the string cannot occur in it. */
  lemma KeepsWhenShorter(s: string, pat: string)
    requires 0 < |pat| && |s| < |pat|
    ensures ReplaceAll(s, pat, "") == s
  {
  }

  /** The four removals applied to "MO:-DEL". */
  lemma SplitModelSteps()
    ensures ReplaceAll("MO:-DEL", "COST OF", "") == "MO:-DEL"
    ensures ReplaceAll("MO:-DEL", "TRACTOR", "") == "MO:-DEL"
    ensures ReplaceAll("MO:-DEL", "MODEL", "") == "MO:-DEL"
    ensures ReplaceAll("MO:-DEL", ":-", "") == "MODEL"
  {
    var s := "MO:-DEL";
    assert !OccursAt(s, "COST OF", 0) by { assert s[0] != 'C'; }
    ReplaceAbsent(s, "COST OF", "");
    assert !OccursAt(s, "TRACTOR", 0) by { assert s[0] != 'T'; }
    ReplaceAbsent(s, "TRACTOR", "");
    assert !OccursAt(s, "MODEL", 0) by { assert s[0..5][2] == s[2] != 'D'; }
    assert !OccursAt(s, "MODEL", 1) by { assert s[1..6][0] == s[1] != 'M'; }
    assert !OccursAt(s, "MODEL", 2) by { assert s[2..7][0] == s[2] != 'M'; }
    ReplaceAbsent(s, "MODEL", "");
    ColonDashOnce();
  }

  /** The one occurrence of ":-" in "MO:-DEL" goes, joining "MO" and "DEL". */
  lemma ColonDashOnce()
    ensures ReplaceAll("MO:-DEL", ":-", "") == "MODEL"
  {
    var p := ":-";
    var s := "MO:-DEL";
    assert !OccursAt(s, p, 0) by { assert s[0] != ':'; }
    ReplaceSkips(s, p);
    var s1 := s[1..];
    assert s1 == "O:-DEL";
    assert !OccursAt(s1, p, 0) by { assert s1[0] != ':'; }
    ReplaceSkips(s1, p);
    var s2 := s1[1..];
    assert s2 == ":-DEL";
    assert OccursAt(s2, p, 0) by { assert s2[..2] == p; }
    ReplaceHits(s2, p);
    var s3 := s2[2..];
    assert s3 == "DEL";
    assert !OccursAt(s3, p, 0) && !OccursAt(s3, p, 1) by { assert s3[0] != ':' && s3[1] != ':'; }
    ReplaceAbsent(s3, p, "");
  }

  /** The four removals applied to "MODEL" and to "". */
  lemma ModelSteps()
    ensures ReplaceAll("MODEL", "COST OF", "") == "MODEL"
    ensures ReplaceAll("MODEL", "TRACTOR", "") == "MODEL"
    ensures ReplaceAll("MODEL", "MODEL", "") == ""
    ensures ReplaceAll("", ":-", "") == ""
  {
    KeepsWhenShorter("MODEL", "COST OF");
    KeepsWhenShorter("MODEL", "TRACTOR");
    assert OccursAt("MODEL", "MODEL", 0) by { assert "MODEL"[0..5] == "MODEL"; }
    ReplaceHits("MODEL", "MODEL");
    assert "MODEL"[5..] == "";
    KeepsWhenShorter("", "MODEL");
    KeepsWhenShorter("", ":-");
  }

  /** The four removals applied to "::--". */
  lemma ColonDashSteps()
    ensures ReplaceAll("::--", "COST OF", "") == "::--"
    ensures ReplaceAll("::--", "TRACTOR", "") == "::--"
    ensures ReplaceAll("::--", "MODEL", "") == "::--"
    ensures ReplaceAll("::--", ":-", "") == ":-"
  {
    var p := ":-";
    var s := "::--";
    KeepsWhenShorter(s, "COST OF");
    KeepsWhenShorter(s, "TRACTOR");
    KeepsWhenShorter(s, "MODEL");
    assert !OccursAt(s, p, 0) by { assert s[1] != '-'; }
    ReplaceSkips(s, p);
    var s1 := s[1..];
    assert s1 == ":--";
    assert OccursAt(s1, p, 0) by { assert s1[..2] == p; }
    ReplaceHits(s1, p);
    var s2 := s1[2..];
    assert s2 == "-";
    KeepsWhenShorter(s2, p);
  }

  /** `RemoveEach` over the noise list, one removal at a time. */
  lemma NoiseSteps(s: string)
    ensures RemoveEach(s, Noise) ==
            ReplaceAll(ReplaceAll(ReplaceAll(ReplaceAll(s, "COST OF", ""), "TRACTOR", ""), "MODEL", ""), ":-", "")
  {
    assert Noise[..3][..2] == Noise[..2];
    assert Noise[..2][..1] == Noise[..1];
    assert Noise[..1][..0] == [];
    var s1 := ReplaceAll(s, "COST OF", "");
    assert RemoveEach(s, Noise[..1]) == s1;
    var s2 := ReplaceAll(s1, "TRACTOR", "");
    assert RemoveEach(s, Noise[..2]) == s2;
    var s3 := ReplaceAll(s2, "MODEL", "");
    assert RemoveEach(s, Noise[..3]) == s3;
  }

  // =====================================================================
  // extract_horse_power

  /** A prefix without "O" and spaces passes through the pass-1 text steps. */
  lemma HpTextPrefix(p: string, q: string)
    requires NoLower(p + q) && 'O' !in p && ' ' !in p
    ensures |p| <= |HpText(Line(p + q))| && HpText(Line(p + q))[..|p|] == p
  {
    UpperOfUpper(p + q);
    ReplaceCharAppend(p, q, 'O', "0");
    ReplaceCharAbsent(p, 'O', "0");
    ReplaceCharAppend(p, ReplaceAll(q, "O", "0"), ' ', "");
    ReplaceCharAbsent(p, ' ', "");
    var r := ReplaceAll(ReplaceAll(q, "O", "0"), " ", "");
    assert HpText(Line(p + q)) == p + r;
    assert (p + r)[..|p|] == p;
  }

  /** A line whose pass-1 text begins with two digits and "HP", the pair
      not being preceded by a third digit, has the two-digit value. */
  lemma TwoDigitHp(s: string)
    requires |s| >= 4 && IsDigit(s[0]) && IsDigit(s[1]) && s[2] == 'H' && s[3] == 'P'
    ensures HpSearchFrom(s, 0) == Some(0)
    ensures HpMatchAt(s, 0) == Some(10 * DigitValue(s[0]) + DigitValue(s[1]))
  {
    assert !AllDigits(s[0..3]) by { assert s[0..3][2] == 'H'; }
    assert s[2..4] == "HP";
    var d := s[0..2];
    assert AllDigits(d);
    var d1 := d[..1];
    assert d1[..0] == [] && d1[0] == s[0] && d[1] == s[1];
    assert DecimalValue(d1) == DigitValue(s[0]);
    assert DecimalValue(d) == 10 * DigitValue(s[0]) + DigitValue(s[1]);
    assert HpMatchAt(s, 0) == Some(DecimalValue(d));
  }

  lemma LineHpOf45(t: string)
    requires t == "45HP TRACTOR"
    ensures LineHp(Line(t)) == Some(45)
  {
    var p, q := "45HP", " TRACTOR";
    assert t == p + q;
    HpTextPrefix(p, q);
    var s := HpText(Line(t));
    assert s[0] == '4' && s[1] == '5' && s[2] == 'H' && s[3] == 'P';
    TwoDigitHp(s);
  }

  /** An explicit "45HP" gives 45; the "O" of "TRACTOR" read as zero does
      not matter. */
  lemma HpOf45()
    ensures HorsePower([Line("45HP TRACTOR")]) == Some(45)
  {
    var t := "45HP TRACTOR";
    LineHpOf45(t);
    FirstOfStopsAt([Line(t)], LineHp, 0);
  }
  /** Pass 1 finds nothing in a line without a "P". */
  lemma NoPNoHp(line: Line)
    requires 'P' !in Upper(line.text)
    ensures LineHp(line).None?
  {
    var u := Upper(line.text);
    ReplaceAllChars(u, "O", "0");
    ReplaceAllChars(ReplaceAll(u, "O", "0"), " ", "");
    var s := HpText(line);
    assert 'P' !in s;
    forall j: nat ensures HpMatchAt(s, j).None? {
      if j + 5 <= |s| { assert s[j + 3..j + 5][1] == s[j + 4]; }
      if j + 4 <= |s| { assert s[j + 2..j + 4][1] == s[j + 3]; }
    }
  }

  /** A prefix without spaces passes through the pass-2 text step. */
  lemma FallbackTextPrefix(p: string, q: string)
    requires NoLower(p + q) && ' ' !in p
    ensures |p| <= |FallbackText(Line(p + q))| && FallbackText(Line(p + q))[..|p|] == p
  {
    UpperOfUpper(p + q);
    ReplaceCharAppend(p, q, ' ', "");
    ReplaceCharAbsent(p, ' ', "");
    var r := ReplaceAll(q, " ", "");
    assert FallbackText(Line(p + q)) == p + r;
    assert (p + r)[..|p|] == p;
  }

  lemma FallbackOfH8(t: string)
    requires t == "H8 MODEL"
    ensures LineFallbackDigit(Line(t)) == Some(8)
  {
    var p, q := "H8", " MODEL";
    assert t == p + q;
    FallbackTextPrefix(p, q);
    var s := FallbackText(Line(t));
    assert s[0] == 'H' && s[1] == '8';
    assert HDigitAt(s, 0);
  }

  lemma NoHpInH8()
    ensures LineHp(Line("H8 MODEL")) == None
  {
    var t := "H8 MODEL";
    assert NoLower(t);
    UpperOfUpper(t);
    assert 'P' !in t;
    NoPNoHp(Line(t));
  }

  /** Without any "HP", the fallback reads "H8" as 48. */
  lemma HpOfH8(t: string)
    requires t == "H8 MODEL"
    ensures HorsePower([Line(t)]) == Some(48)
  {
    NoHpInH8();
    FallbackOfH8(t);
    var lines := [Line(t)];
    assert lines[0] == Line(t) && lines[1..] == [];
    assert FirstOf(lines, LineHp) == None;
    FirstOfStopsAt(lines, LineFallbackDigit, 0);
  }

  /** A line whose pass-1 text begins with three digits and "HP" has the
      three-digit value. */
  lemma ThreeDigitHp(s: string)
    requires |s| >= 5 && IsDigit(s[0]) && IsDigit(s[1]) && IsDigit(s[2]) && s[3] == 'H' && s[4] == 'P'
    ensures HpSearchFrom(s, 0) == Some(0)
    ensures HpMatchAt(s, 0) == Some(100 * DigitValue(s[0]) + 10 * DigitValue(s[1]) + DigitValue(s[2]))
  {
    assert s[3..5] == "HP";
    var d := s[0..3];
    assert AllDigits(d);
    var d2 := d[..2];
    var d1 := d2[..1];
    assert d1[..0] == [] && d1[0] == s[0] && d2[1] == s[1] && d[2] == s[2];
    assert DecimalValue(d1) == DigitValue(s[0]);
    assert DecimalValue(d2) == 10 * DigitValue(s[0]) + DigitValue(s[1]);
    assert HpMatchAt(s, 0) == Some(DecimalValue(d));
  }

  /** Text with no space, no "O" and no lower case is its own pass-1 and
      pass-2 text. */
  lemma PlainTexts(t: string)
    requires NoLower(t) && ' ' !in t && 'O' !in t
    ensures HpText(Line(t)) == t && FallbackText(Line(t)) == t
  {
    UpperOfUpper(t);
    ReplaceCharAbsent(t, 'O', "0");
    ReplaceCharAbsent(t, ' ', "");
  }

  /** A one-line corpus whose leftmost `(\d{2,3})HP` match is out of range,
      and whose line has no "H" followed by a digit, yields no value,
      whatever later matches the line holds. */
  lemma LeadingOutOfRangeHp(line: Line)
    requires HpSearchFrom(HpText(line), 0).Some?
    requires !(20 <= HpMatchAt(HpText(line), HpSearchFrom(HpText(line), 0).value).value <= 120)
    requires LineFallbackDigit(line).None?
    ensures HorsePower([line]) == None
  {
    assert LineHp(line) == None;
    var lines := [line];
    assert lines[0] == line && lines[1..] == [];
    assert FirstOf(lines, LineHp) == None;
    assert FirstOf(lines, LineFallbackDigit) == None;
  }

  /** Only the leftmost match of a line counts: "145HP45HP" yields nothing,
      although its second match would be in range. */
  lemma HpLeftmostOnly()
    ensures HorsePower([Line("145HP45HP")]) == None
  {
    var t := "145HP45HP";
    assert t[3] == 'H' && t[4] == 'P' && t[7] == 'H' && t[8] == 'P';
    forall j | 0 <= j < |t| - 1 && t[j] == 'H' ensures !IsDigit(t[j + 1]) {
      assert j == 3 || j == 7;
    }
    PlainOutOfRangeHp(t);
    LeadingOutOfRangeHp(Line(t));
  }

  /** Plain text that begins with an out-of-range three-digit "NNNHP" and
      has no "H" followed by a digit meets the conditions above. */
  lemma PlainOutOfRangeHp(t: string)
    requires NoLower(t) && ' ' !in t && 'O' !in t
    requires |t| >= 5 && IsDigit(t[0]) && IsDigit(t[1]) && IsDigit(t[2]) && t[3] == 'H' && t[4] == 'P'
    requires !(20 <= 100 * DigitValue(t[0]) + 10 * DigitValue(t[1]) + DigitValue(t[2]) <= 120)
    requires forall j :: 0 <= j < |t| - 1 && t[j] == 'H' ==> !IsDigit(t[j + 1])
    ensures HpSearchFrom(HpText(Line(t)), 0) == Some(0)
    ensures !(20 <= HpMatchAt(HpText(Line(t)), 0).value <= 120)
    ensures LineFallbackDigit(Line(t)).None?
  {
    PlainTexts(t);
    ThreeDigitHp(t);
    assert HDigitSearchFrom(t, 0) == None;
  }

  // =====================================================================
  // extract_asset_cost

  /** Over digits only, the run is as long as the cap or the text allows. */
  lemma {:induction false} DigitRunDigits(s: string, i: nat, cap: nat)
    requires i <= |s|
    requires forall k :: i <= k < |s| && k < i + cap ==> IsDigit(s[k])
    ensures DigitRun(s, i, cap) == if i + cap <= |s| then cap else |s| - i
    decreases cap
  {
    if cap > 0 && i < |s| {
      DigitRunDigits(s, i + 1, cap - 1);
    }
  }

  /** For text without spaces, the cost text only drops the commas. */
  lemma CostTextNoSpace(t: string)
    requires ' ' !in t
    ensures CostText(Line(t)) == Without(t, ',')
  {
    ReplaceCharByNothing(t, ',');
    ReplaceCharByNothing(Without(t, ','), ' ');
    WithoutKeepsAbsent(t, ',', ' ');
    WithoutAbsent(Without(t, ','), ' ');
  }

  /** Commas between digit groups disappear. */
  lemma JoinedGroups(d1: string, d2: string, d3: string, d4: string)
    requires ',' !in d1 && ',' !in d2 && ',' !in d3 && ',' !in d4
    ensures Without(d1 + "," + d2 + "," + d3 + "," + d4, ',') == d1 + d2 + d3 + d4
  {
    var comma := ",";
    assert Without(comma, ',') == [] by { assert comma[1..] == []; }
    WithoutAbsent(d1, ',');
    WithoutAbsent(d2, ',');
    WithoutAbsent(d3, ',');
    WithoutAbsent(d4, ',');
    var a1 := d1 + comma;
    WithoutAppend(d1, comma, ',');
    assert Without(a1, ',') == d1;
    var a2 := a1 + d2;
    WithoutAppend(a1, d2, ',');
    var a3 := a2 + comma;
    WithoutAppend(a2, comma, ',');
    assert Without(a3, ',') == d1 + d2;
    var a4 := a3 + d3;
    WithoutAppend(a3, d3, ',');
    var a5 := a4 + comma;
    WithoutAppend(a4, comma, ',');
    assert Without(a5, ',') == d1 + d2 + d3;
    WithoutAppend(a5, d4, ',');
  }

  /** The cost text of four comma-separated groups is their concatenation. */
  lemma CostTextOfFour(t: string, d1: string, d2: string, d3: string, d4: string)
    requires t == d1 + "," + d2 + "," + d3 + "," + d4
    requires ',' !in d1 && ',' !in d2 && ',' !in d3 && ',' !in d4
    requires ' ' !in d1 && ' ' !in d2 && ' ' !in d3 && ' ' !in d4
    ensures CostText(Line(t)) == d1 + d2 + d3 + d4
  {
    assert ' ' !in t;
    CostTextNoSpace(t);
    JoinedGroups(d1, d2, d3, d4);
  }

  /** Eight digits give one seven-digit run; the eighth digit alone is too
      short to match. */
  lemma RunsOf12000000(s: string)
    requires s == "12000000"
    ensures FindCostRuns(s, 0) == ["1200000"]
  {
    assert forall k :: 0 <= k < |s| ==> IsDigit(s[k]);
    DigitRunDigits(s, 0, 7);
    DigitRunDigits(s, 7, 7);
    assert s[0..7] == "1200000";
    assert FindCostRuns(s, 8) == [];
    assert FindCostRuns(s, 7) == [];
  }
  /** One comma between two digit groups disappears. */
  lemma TwoGroups(d1: string, d2: string)
    requires ',' !in d1 && ',' !in d2
    ensures Without(d1 + "," + d2, ',') == d1 + d2
  {
    var comma := ",";
    assert Without(comma, ',') == [] by { assert comma[1..] == []; }
    WithoutAbsent(d1, ',');
    WithoutAbsent(d2, ',');
    var a1 := d1 + comma;
    WithoutAppend(d1, comma, ',');
    assert Without(a1, ',') == d1;
    WithoutAppend(a1, d2, ',');
  }

  /** A line whose cost text is `n` digits, 5 <= n <= 7, yields that one run. */
  lemma {:induction false} SingleRun(s: string)
    requires 5 <= |s| <= 7 && AllDigits(s)
    ensures FindCostRuns(s, 0) == [s]
  {
    DigitRunDigits(s, 0, 7);
    assert s[0..|s|] == s;
  }

  /** `int()` of a few digit strings. */
  lemma Value45000(s: string)
    requires s == "45000"
    ensures AllDigits(s) && DecimalValue(s) == 45000
  {
    var p1, p2, p3, p4 := s[..1], s[..2], s[..3], s[..4];
    assert p1[..0] == [] && DecimalValue(p1) == 4;
    assert p2[..1] == p1 && DecimalValue(p2) == 45;
    assert p3[..2] == p2 && DecimalValue(p3) == 450;
    assert p4[..3] == p3 && DecimalValue(p4) == 4500;
    assert s[..4] == p4;
  }
  lemma Value350000(s: string)
    requires s == "350000"
    ensures AllDigits(s) && DecimalValue(s) == 350000
  {
    var p1, p2, p3, p4, p5 := s[..1], s[..2], s[..3], s[..4], s[..5];
    assert p1[..0] == [] && DecimalValue(p1) == 3;
    assert p2[..1] == p1 && DecimalValue(p2) == 35;
    assert p3[..2] == p2 && DecimalValue(p3) == 350;
    assert p4[..3] == p3 && DecimalValue(p4) == 3500;
    assert p5[..4] == p4 && DecimalValue(p5) == 35000;
    assert s[..5] == p5;
  }

  lemma Value1200000(s: string)
    requires s == "1200000"
    ensures AllDigits(s) && DecimalValue(s) == 1200000
  {
    var p1, p2, p3, p4, p5, p6 := s[..1], s[..2], s[..3], s[..4], s[..5], s[..6];
    assert p1[..0] == [] && DecimalValue(p1) == 1;
    assert p2[..1] == p1 && DecimalValue(p2) == 12;
    assert p3[..2] == p2 && DecimalValue(p3) == 120;
    assert p4[..3] == p3 && DecimalValue(p4) == 1200;
    assert p5[..4] == p4 && DecimalValue(p5) == 12000;
    assert p6[..5] == p5 && DecimalValue(p6) == 120000;
    assert s[..6] == p6;
  }

  /** The cost text of two comma-separated groups is their concatenation. */
  lemma CostTextOfTwo(t: string, d1: string, d2: string)
    requires t == d1 + "," + d2
    requires ',' !in d1 && ',' !in d2 && ' ' !in d1 && ' ' !in d2
    ensures CostText(Line(t)) == d1 + d2
  {
    assert ' ' !in t;
    CostTextNoSpace(t);
    TwoGroups(d1, d2);
  }

  /** "45,000" is below the range. */
  lemma CostsOf45000(t: string)
    requires t == "45,000"
    ensures CostValues(Line(t)) == []
  {
    var d1, d2 := "45", "000";
    CostTextOfTwo(t, d1, d2);
    var s := d1 + d2;
    Value45000(s);
    SingleRun(s);
    var ms := [s];
    assert FindCostRuns(s, 0) == ms;
    assert ms[..0] == [] && ms[0] == s;
    assert InRangeCosts(ms) == [];
  }

  /** "350,000" is in range. */
  lemma CostsOf350000(t: string)
    requires t == "350,000"
    ensures CostValues(Line(t)) == [350000]
  {
    var d1, d2 := "350", "000";
    CostTextOfTwo(t, d1, d2);
    var s := d1 + d2;
    Value350000(s);
    SingleRun(s);
    var ms := [s];
    assert FindCostRuns(s, 0) == ms;
    assert ms[..0] == [] && ms[0] == s;
    assert InRangeCosts(ms) == [350000];
  }

  /** "1,20,00,000" becomes the eight digits "12000000", whose first seven
      form the in-range value 1200000. */
  lemma CostsOf12000000(t: string)
    requires t == "1,20,00,000"
    ensures CostValues(Line(t)) == [1200000]
  {
    var d1, d2, d3, d4 := "1", "20", "00", "000";
    CostTextOfFour(t, d1, d2, d3, d4);
    var s := d1 + d2 + d3 + d4;
    RunsOf12000000(s);
    var m := "1200000";
    Value1200000(m);
    var ms := [m];
    assert FindCostRuns(s, 0) == ms;
    assert ms[..0] == [] && ms[0] == m;
    assert InRangeCosts(ms) == [1200000];
  }

  /** Of "45,000", "350,000" and "1,20,00,000", the first is below the range
      and the last yields 1200000, which is the largest in-range value. */
  lemma AssetCostExample(a: string, b: string, c: string)
    requires a == "45,000" && b == "350,000" && c == "1,20,00,000"
    ensures AssetCost([Line(a), Line(b), Line(c)]) == Some(1200000)
  {
    var lines := [Line(a), Line(b), Line(c)];
    CostsOf45000(a);
    CostsOf350000(b);
    CostsOf12000000(c);
    var l1, l2 := lines[..1], lines[..2];
    assert l1[..0] == [] && l1[0] == Line(a);
    assert Gather(l1, CostValues) == [];
    assert l2[..1] == l1 && l2[1] == Line(b);
    assert Gather(l2, CostValues) == [350000];
    assert lines[..2] == l2 && lines[2] == Line(c);
    assert Gather(lines, CostValues) == [350000, 1200000];
  }

  // =====================================================================
  // extract_dealer_name

  /** When " LTD" occurs, and no "L" comes before that occurrence, the cut
      falls right after it, whatever the other suffixes. */
  lemma CutAtLtd(x: string, y: string)
    requires 'L' !in x
    ensures CutAtSuffix(x + " LTD" + y, LegalSuffixes) == x + " LTD"
  {
    var s, p := x + " LTD" + y, LegalSuffixes[0];
    assert p == " LTD";
    forall j | 0 <= j < |x| ensures !OccursAt(s, p, j) {
      if j + 4 <= |s| {
        assert s[j..j + 4][1] == s[j + 1];
        if j + 1 < |x| { assert s[j + 1] == x[j + 1]; } else { assert s[j + 1] == ' '; }
      }
    }
    assert OccursAt(s, p, |x|) by { assert s[|x|..|x| + 4] == p; }
    FindLeftmost(s, p, |x|);
    assert s[..|x|] == x;
  }

  /** The cut follows the suffix list, not the text: " LTD" is tried first
      and occurs, so the cut falls after it although " PVT" comes earlier in
      the line. */
  lemma CutSwarajLine(s: string)
    requires s == "SWARAJ TRACTORS PVT LTD, PUNE ROAD"
    ensures Strip(CutAtSuffix(s, LegalSuffixes)) == "SWARAJ TRACTORS PVT LTD"
  {
    var x, y := "SWARAJ TRACTORS PVT", ", PUNE ROAD";
    assert s == x + " LTD" + y;
    assert 'L' !in x;
    CutAtLtd(x, y);
    var r := x + " LTD";
    assert r == "SWARAJ TRACTORS PVT LTD";
    StripUnchanged(r);
  }
}
