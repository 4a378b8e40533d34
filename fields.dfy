/** The field extraction rules: from the ordered list of recognised text
    lines of one invoice, pick the tractor model line, the horse power, the
    asset cost and the dealer name, and normalise single strings.

    Each extractor whose source loops over the lines is a method with that
    loop; its postcondition ties the result to a specification function, and
    the lemmas after it state what that function selects, in terms of the
    individual lines. */
module ExtractFields {
  import opened Text
  import opened Selection

  /** One recognised line. The recognition engine also reports a polygon and
      a confidence; the extraction rules read only the text. */
  datatype Line = Line(text: string)

  // =====================================================================
  // clean_text

  /** `text.replace(",", "").replace(" ", "").upper()` */
  function CleanText(text: string): (r: string)
    ensures r == Upper(Without(Without(text, ','), ' '))
    ensures ',' !in r && ' ' !in r && NoLower(r)
  {
    ReplaceCharByNothing(text, ',');
    ReplaceCharByNothing(ReplaceAll(text, ",", ""), ' ');
    WithoutKeepsAbsent(Without(text, ','), ' ', ',');
    UpperKeepsOthers(Without(Without(text, ','), ' '), ',');
    UpperKeepsOthers(Without(Without(text, ','), ' '), ' ');
    Upper(ReplaceAll(ReplaceAll(text, ",", ""), " ", ""))
  }

  /** Upper-casing neither creates nor removes a character that is not a
      letter. */
  lemma UpperKeepsOthers(s: string, c: char)
    requires !IsLower(c) && !('A' <= c <= 'Z')
    ensures c in Upper(s) <==> c in s
  {
    if c in Upper(s) {
      var i :| 0 <= i < |s| && Upper(s)[i] == c;
      assert s[i] == c;
    }
    if c in s {
      var i :| 0 <= i < |s| && s[i] == c;
      assert Upper(s)[i] == c;
    }
  }

  // =====================================================================
  // clean_model_name

  /** The noise strings, removed in this order. */
  const Noise: seq<string> := ["COST OF", "TRACTOR", "MODEL", ":-"]

  /** `s` after `s = s.replace(n, "")` for each `n` of `noise`, in order. */
  function RemoveEach(s: string, noise: seq<string>): (r: string)
    requires forall k :: 0 <= k < |noise| ==> |noise[k]| > 0
    ensures NoLower(s) ==> NoLower(r)
    ensures |r| <= |s|
    decreases |noise|
  {
    if |noise| == 0 then s
    else
      var before := RemoveEach(s, noise[..|noise| - 1]);
      RemovalKeepsNoLower(before, noise[|noise| - 1]);
      ReplaceLength(before, noise[|noise| - 1], "");
      ReplaceAll(before, noise[|noise| - 1], "")
  }

  /** What `clean_model_name` returns. */
  function CleanModel(model: Option<string>): (r: Option<string>)
    ensures r.Some? ==> model.Some? && |r.value| <= |model.value|
  {
    if model.None? || model.value == "" then None
    else Some(Strip(RemoveEach(Upper(model.value), Noise)))
  }

  method CleanModelName(model: Option<string>) returns (r: Option<string>)
    ensures r == CleanModel(model)
  {
    if model.None? || model.value == "" {
      return None;
    }
    var m := Upper(model.value);
    for i := 0 to |Noise|
      invariant m == RemoveEach(Upper(model.value), Noise[..i])
    {
      assert Noise[..i + 1][..i] == Noise[..i];
      m := ReplaceAll(m, Noise[i], "");
    }
    assert Noise[..|Noise|] == Noise;
    r := Some(Strip(m));
  }

  /** No result exactly for a missing or empty name; otherwise the result is
      upper case and has no white space at either end. */
  lemma CleanModelShape(model: Option<string>)
    ensures CleanModel(model).None? <==> model.None? || model.value == ""
    ensures CleanModel(model).Some? ==> NoLower(CleanModel(model).value) && NoEdgeSpace(CleanModel(model).value)
  {
    if model.Some? && model.value != "" {
      StripKeepsNoLower(RemoveEach(Upper(model.value), Noise));
    }
  }

  // =====================================================================
  // extract_model_name

  const NegativeKeywords: seq<string> := [
    "WARRANTY", "PRICE", "DELIVERY", "BANK",
    "ISSUE", "LETTER", "TERMS", "SUBJECT",
    "TRANSACTION", "PAYMENT"
  ]

  const PositiveKeywords: seq<string> := [
    "TRACTOR", "SWARAJ", "MAHINDRA", "SONALIKA",
    "EICHER", "JOHN", "DEERE", "POWERTRAC",
    "FARMTRAC", "KUBOTA", "DI", "FE", "4WD"
  ]

  /** A line as the model rule reads it: upper-cased. */
  function ModelText(line: Line): string { Upper(line.text) }

  /** The filter applied to each upper-cased line. */
  predicate IsModelCandidate(text: string) {
    && !ContainsAny(text, NegativeKeywords)
    && HasDigit(text)
    && ContainsAny(text, PositiveKeywords)
    && |text| > 8
  }

  /** What `extract_model_name` returns: the candidate a stable sort by
      length puts first. */
  function ModelName(lines: seq<Line>): Option<string>
  {
    var c := Keep(lines, ModelText, IsModelCandidate);
    if c == [] then None else Some(c[ShortestIndex(c)])
  }

  method ExtractModelName(lines: seq<Line>) returns (r: Option<string>)
    ensures r == ModelName(lines)
  {
    var candidates: seq<string> := [];
    for i := 0 to |lines|
      invariant candidates == Keep(lines[..i], ModelText, IsModelCandidate)
    {
      KeepStep(lines, ModelText, IsModelCandidate, i);
      var text := ModelText(lines[i]);
      if ContainsAny(text, NegativeKeywords) {
        assert !IsModelCandidate(text);
        continue;
      }
      if !HasDigit(text) {
        assert !IsModelCandidate(text);
        continue;
      }
      if ContainsAny(text, PositiveKeywords) {
        if |text| > 8 {
          assert IsModelCandidate(text);
          candidates := candidates + [text];
        }
      }
    }
    assert lines[..|lines|] == lines;
    if candidates == [] {
      return None;
    }
    r := Some(candidates[ShortestIndex(candidates)]);
  }

  /** The model name is absent exactly when no line qualifies; otherwise it
      is the upper-cased text of a qualifying line that no qualifying line is
      shorter than and that every earlier qualifying line is longer than. */
  lemma ModelNameSelects(lines: seq<Line>)
    ensures ModelName(lines).None? <==>
              forall k :: 0 <= k < |lines| ==> !IsModelCandidate(ModelText(lines[k]))
    ensures ModelName(lines).Some? ==>
              exists k :: FirstShortest(lines, ModelText, IsModelCandidate, k) &&
                          ModelName(lines).value == ModelText(lines[k])
  {
    KeepShortest(lines, ModelText, IsModelCandidate);
  }

  /** A selected model name passes every part of the filter. */
  lemma ModelNameQualifies(lines: seq<Line>)
    requires ModelName(lines).Some?
    ensures var m := ModelName(lines).value;
            NoLower(m) && |m| > 8 && HasDigit(m) &&
            ContainsAny(m, PositiveKeywords) && !ContainsAny(m, NegativeKeywords)
  {
    ModelNameSelects(lines);
  }

  // =====================================================================
  // extract_horse_power

  /** Pass 1 text: upper-cased, every "O" read as the digit zero, spaces removed. */
  function HpText(line: Line): string {
    ReplaceAll(ReplaceAll(Upper(line.text), "O", "0"), " ", "")
  }

  /** The number captured by `(\d{2,3})HP` when a match begins at index `i`:
      three digits are tried before two. */
  function HpMatchAt(s: string, i: nat): (r: Option<int>)
    ensures r.Some? ==> 0 <= r.value < 1000
    ensures r.Some? ==> OccursAt(s, "HP", i + 3) || OccursAt(s, "HP", i + 2)
  {
    if i + 5 <= |s| && AllDigits(s[i..i + 3]) && s[i + 3..i + 5] == "HP" then
      assert OccursAt(s, "HP", i + 3) && Pow10(3) == 1000;
      Some(DecimalValue(s[i..i + 3]))
    else if i + 4 <= |s| && AllDigits(s[i..i + 2]) && s[i + 2..i + 4] == "HP" then
      assert OccursAt(s, "HP", i + 2) && Pow10(2) == 100;
      Some(DecimalValue(s[i..i + 2]))
    else None
  }

  /** Where `re.search` finds its match: the leftmost start index at or
      after `from` at which a match begins. */
  function HpSearchFrom(s: string, from: nat): (r: Option<nat>)
    ensures r.Some? ==> from <= r.value && HpMatchAt(s, r.value).Some?
    ensures r.Some? ==> forall j :: from <= j < r.value ==> HpMatchAt(s, j).None?
    ensures r.None? ==> forall j :: from <= j ==> HpMatchAt(s, j).None?
    decreases |s| - from
  {
    if from >= |s| then None
    else if HpMatchAt(s, from).Some? then Some(from)
    else HpSearchFrom(s, from + 1)
  }

  /** What pass 1 takes from one line: the value of the leftmost match, when
      there is one and it lies in [20, 120]. A leftmost match out of range
      rules the line out even when a later match in it would be in range. */
  function LineHp(line: Line): (r: Option<int>)
    ensures r.Some? ==> 20 <= r.value <= 120
  {
    var s := HpText(line);
    match HpSearchFrom(s, 0)
    case None => None
    case Some(at) =>
      var hp := HpMatchAt(s, at).value;
      if 20 <= hp <= 120 then Some(hp) else None
  }

  /** Pass 2 text: upper-cased and spaces removed, without the O-to-zero step. */
  function FallbackText(line: Line): string {
    ReplaceAll(Upper(line.text), " ", "")
  }

  /** `H(\d)` matches at index `i`. */
  predicate HDigitAt(s: string, i: nat) {
    i + 2 <= |s| && s[i] == 'H' && IsDigit(s[i + 1])
  }

  function HDigitSearchFrom(s: string, from: nat): (r: Option<nat>)
    ensures r.Some? ==> from <= r.value && HDigitAt(s, r.value)
    ensures r.Some? ==> forall j :: from <= j < r.value ==> !HDigitAt(s, j)
    ensures r.None? ==> forall j :: from <= j ==> !HDigitAt(s, j)
    decreases |s| - from
  {
    if from >= |s| then None
    else if HDigitAt(s, from) then Some(from)
    else HDigitSearchFrom(s, from + 1)
  }

  /** What pass 2 takes from one line: the digit after its leftmost "H<digit>". */
  function LineFallbackDigit(line: Line): (r: Option<int>)
    ensures r.Some? ==> 0 <= r.value <= 9
  {
    var s := FallbackText(line);
    match HDigitSearchFrom(s, 0)
    case None => None
    case Some(at) => Some(DigitValue(s[at + 1]))
  }

  /** What `extract_horse_power` returns: the first pass-1 value, or else
      40 plus the first pass-2 digit. */
  function HorsePower(lines: seq<Line>): (r: Option<int>)
    ensures r.Some? ==> 20 <= r.value <= 120
  {
    FirstOfFirst(lines, LineHp);
    FirstOfFirst(lines, LineFallbackDigit);
    match FirstOf(lines, LineHp)
    case Some(hp) => Some(hp)
    case None =>
      match FirstOf(lines, LineFallbackDigit)
      case None => None
      case Some(d) => Some(40 + d)
  }

  method ExtractHorsePower(lines: seq<Line>) returns (r: Option<int>)
    ensures r == HorsePower(lines)
  {
    for i := 0 to |lines|
      invariant FirstOf(lines, LineHp) == FirstOf(lines[i..], LineHp)
    {
      assert lines[i..][1..] == lines[i + 1..];
      var text := HpText(lines[i]);
      var found := HpSearchFrom(text, 0);
      if found.Some? {
        var hp := HpMatchAt(text, found.value).value;
        if 20 <= hp <= 120 {
          return Some(hp);
        }
      }
    }
    for i := 0 to |lines|
      invariant FirstOf(lines, LineFallbackDigit) == FirstOf(lines[i..], LineFallbackDigit)
    {
      assert lines[i..][1..] == lines[i + 1..];
      var text := FallbackText(lines[i]);
      var found := HDigitSearchFrom(text, 0);
      if found.Some? {
        return Some(40 + DigitValue(text[found.value + 1]));
      }
    }
    return None;
  }

  /** No value exactly when no line yields a pass-1 value and no line has an
      "H<digit>". */
  lemma HorsePowerAbsent(lines: seq<Line>)
    ensures HorsePower(lines).None? <==>
              (forall k :: 0 <= k < |lines| ==> LineHp(lines[k]).None?) &&
              (forall k :: 0 <= k < |lines| ==> LineFallbackDigit(lines[k]).None?)
  {
    FirstOfFirst(lines, LineHp);
    FirstOfFirst(lines, LineFallbackDigit);
  }

  /** When line `k` is the first to yield a pass-1 value, that value is the
      result, and the lines after `k` are never consulted. */
  lemma HorsePowerFirstLine(lines: seq<Line>, k: nat)
    requires k < |lines| && LineHp(lines[k]).Some?
    requires forall j :: 0 <= j < k ==> LineHp(lines[j]).None?
    ensures HorsePower(lines) == LineHp(lines[k])
    ensures HorsePower(lines) == HorsePower(lines[..k + 1])
  {
    FirstOfStopsAt(lines, LineHp, k);
  }

  /** The fallback fires only when no line yields a pass-1 value; it then
      gives 40 plus the digit of the first line that has an "H<digit>", so
      the value lies in [40, 49]. */
  lemma HorsePowerFallback(lines: seq<Line>)
    requires forall k :: 0 <= k < |lines| ==> LineHp(lines[k]).None?
    ensures HorsePower(lines).Some? ==>
              40 <= HorsePower(lines).value <= 49 &&
              exists k :: 0 <= k < |lines| && LineFallbackDigit(lines[k]).Some? &&
                          HorsePower(lines).value == 40 + LineFallbackDigit(lines[k]).value &&
                          forall j :: 0 <= j < k ==> LineFallbackDigit(lines[j]).None?
  {
    FirstOfFirst(lines, LineHp);
    FirstOfFirst(lines, LineFallbackDigit);
  }

  // =====================================================================
  // extract_asset_cost

  /** A line as the cost rule reads it: commas and spaces removed, case kept. */
  function CostText(line: Line): string {
    ReplaceAll(ReplaceAll(line.text, ",", ""), " ", "")
  }

  /** How many digits in a row start at index `i`, counting at most `cap`. */
  function DigitRun(s: string, i: nat, cap: nat): (n: nat)
    requires i <= |s|
    ensures n <= cap && i + n <= |s|
    ensures AllDigits(s[i..i + n])
    ensures n < cap ==> i + n == |s| || !IsDigit(s[i + n])
    decreases cap
  {
    if cap == 0 || i == |s| || !IsDigit(s[i]) then 0
    else
      var n := 1 + DigitRun(s, i + 1, cap - 1);
      assert s[i..i + n] == [s[i]] + s[i + 1..i + n];
      n
  }

  /** `re.findall(r"\d{5,7}", s[from..])`: scanning left to right, a match
      takes up to seven digits as soon as at least five follow; the scan
      resumes after each match, and moves one character on otherwise. */
  function FindCostRuns(s: string, from: nat): (ms: seq<string>)
    ensures forall k :: 0 <= k < |ms| ==> 5 <= |ms[k]| <= 7 && AllDigits(ms[k])
    decreases |s| - from
  {
    if from >= |s| then []
    else
      var n := DigitRun(s, from, 7);
      if n >= 5 then
        [s[from..from + n]] + FindCostRuns(s, from + n)
      else FindCostRuns(s, from + 1)
  }

  /** The values of `ms`, in order, that lie in [50000, 2000000]. */
  function InRangeCosts(ms: seq<string>): (r: seq<int>)
    requires forall k :: 0 <= k < |ms| ==> AllDigits(ms[k])
    ensures forall x :: x in r ==> 50000 <= x <= 2000000
  {
    if |ms| == 0 then []
    else
      var val := DecimalValue(ms[|ms| - 1]);
      InRangeCosts(ms[..|ms| - 1]) + (if 50000 <= val <= 2000000 then [val] else [])
  }

  /** The in-range values found in one line. */
  function CostValues(line: Line): (r: seq<int>)
    ensures forall x :: x in r ==> 50000 <= x <= 2000000
  {
    InRangeCosts(FindCostRuns(CostText(line), 0))
  }

  /** What `extract_asset_cost` returns: the largest in-range value of all lines. */
  function AssetCost(lines: seq<Line>): (r: Option<int>)
    ensures r.Some? ==> 50000 <= r.value <= 2000000
  {
    var numbers := Gather(lines, CostValues);
    if numbers == [] then None
    else
      GatherBounds(lines, CostValues, 50000, 2000000);
      Some(MaxOf(numbers))
  }

  method ExtractAssetCost(lines: seq<Line>) returns (r: Option<int>)
    ensures r == AssetCost(lines)
  {
    var numbers: seq<int> := [];
    for i := 0 to |lines|
      invariant numbers == Gather(lines[..i], CostValues)
    {
      assert lines[..i + 1][..i] == lines[..i];
      var text := CostText(lines[i]);
      var matches := FindCostRuns(text, 0);
      for j := 0 to |matches|
        invariant numbers == Gather(lines[..i], CostValues) + InRangeCosts(matches[..j])
      {
        assert matches[..j + 1][..j] == matches[..j];
        var val := DecimalValue(matches[j]);
        if 50000 <= val <= 2000000 {
          numbers := numbers + [val];
        }
      }
      assert matches[..|matches|] == matches;
    }
    assert lines[..|lines|] == lines;
    if numbers == [] {
      return None;
    }
    r := Some(MaxOf(numbers));
  }

  /** A value is kept from a line exactly when it is in range and is the
      value of one of the line's digit runs. */
  lemma {:induction false} InRangeCostsMembers(ms: seq<string>, x: int)
    requires forall k :: 0 <= k < |ms| ==> AllDigits(ms[k])
    ensures x in InRangeCosts(ms) <==>
              50000 <= x <= 2000000 && exists k :: 0 <= k < |ms| && DecimalValue(ms[k]) == x
  {
    if |ms| > 0 {
      var init := ms[..|ms| - 1];
      InRangeCostsMembers(init, x);
      assert forall k :: 0 <= k < |init| ==> init[k] == ms[k];
      if exists k :: 0 <= k < |ms| && DecimalValue(ms[k]) == x {
        var k :| 0 <= k < |ms| && DecimalValue(ms[k]) == x;
        if k < |init| { assert DecimalValue(init[k]) == x; }
      }
    }
  }

  /** The cost is absent exactly when no line has an in-range value;
      otherwise it is an in-range value of some line and no line has a
      larger one. */
  lemma AssetCostSelects(lines: seq<Line>)
    ensures AssetCost(lines).None? <==> forall k :: 0 <= k < |lines| ==> CostValues(lines[k]) == []
    ensures AssetCost(lines).Some? ==>
              (exists k :: 0 <= k < |lines| && AssetCost(lines).value in CostValues(lines[k])) &&
              forall k, x :: 0 <= k < |lines| && x in CostValues(lines[k]) ==> x <= AssetCost(lines).value
  {
    var numbers := Gather(lines, CostValues);
    if numbers == [] {
      forall k | 0 <= k < |lines| ensures CostValues(lines[k]) == [] {
        if CostValues(lines[k]) != [] {
          GatherHas(lines, CostValues, k, CostValues(lines[k])[0]);
        }
      }
    } else {
      var m := MaxOf(numbers);
      var k := GatherSource(lines, CostValues, m);
      forall k, x | 0 <= k < |lines| && x in CostValues(lines[k]) ensures x <= m {
        GatherHas(lines, CostValues, k, x);
      }
    }
  }

  // =====================================================================
  // extract_dealer_name

  const LegalTerms: seq<string> := [
    "LTD", "LIMITED", "PVT", "CORPORATION",
    "COMPANY", "CO.", "MOTORS", "TRACTORS", "AGRO"
  ]

  const BadKeywords: seq<string> := [
    "PIN", "MAIL", "EMAIL", "E-MAIL",
    "PHONE", "PH:", "FAX",
    "NOTE", "N.B", "COMMITTEE", "PURCHASE",
    "SELLING", "PRICE", "TERMS", "CONDITIONS",
    "DIFFERENT MAKE", "MODELS OF"
  ]

  /** The suffixes after which the chosen name is cut, tried in this order. */
  const LegalSuffixes: seq<string> := [" LTD", " LIMITED", " PVT", " CORPORATION", " MOTORS", " TRACTORS"]

  /** Only the first 30 lines are read. */
  const DealerWindow: nat := 30

  /** `lines[:30]` */
  function TopLines(lines: seq<Line>): (r: seq<Line>)
    ensures |r| == if |lines| < DealerWindow then |lines| else DealerWindow
    ensures r == lines[..|r|]
  {
    if |lines| < DealerWindow then lines else lines[..DealerWindow]
  }

  /** A line as the dealer rule reads it: upper-cased and stripped. */
  function DealerText(line: Line): string { Strip(Upper(line.text)) }

  /** The filter applied to each upper-cased, stripped line. */
  predicate IsDealerCandidate(text: string) {
    && |text| >= 10
    && !ContainsAny(text, BadKeywords)
    && ContainsAny(text, LegalTerms)
  }

  /** The suffix loop: `d` cut right after the first occurrence of the first
      suffix of `suffixes`, in list order, that occurs in `d`. */
  function CutAtSuffix(d: string, suffixes: seq<string>): (r: string)
    ensures |r| <= |d| && r == d[..|r|]
  {
    if |suffixes| == 0 then d
    else match Find(d, suffixes[0])
      case Some(at) =>
        assert d[..at] + suffixes[0] == d[..at + |suffixes[0]|];
        d[..at] + suffixes[0]
      case None => CutAtSuffix(d, suffixes[1..])
  }

  /** What `extract_dealer_name` returns. */
  function DealerName(lines: seq<Line>): Option<string>
  {
    var c := Keep(TopLines(lines), DealerText, IsDealerCandidate);
    if c == [] then None else Some(Strip(CutAtSuffix(c[LongestIndex(c)], LegalSuffixes)))
  }

  /** The dealer name is absent exactly when none of the first 30 lines
      qualifies; otherwise it is the first longest qualifying line among
      them, cut after its legal suffix and stripped. */
  lemma DealerNameSelects(lines: seq<Line>)
    ensures var top := TopLines(lines);
            DealerName(lines).None? <==>
              forall k :: 0 <= k < |top| ==> !IsDealerCandidate(DealerText(top[k]))
    ensures var top := TopLines(lines);
            DealerName(lines).Some? ==>
              exists k :: FirstLongest(top, DealerText, IsDealerCandidate, k) &&
                          DealerName(lines).value == Strip(CutAtSuffix(DealerText(top[k]), LegalSuffixes))
  {
    KeepLongest(TopLines(lines), DealerText, IsDealerCandidate);
  }

  /** The final `strip()` changes nothing: the dealer name is the selected
      line itself, cut right after its legal suffix. */
  lemma DealerNameIsCut(lines: seq<Line>)
    ensures var top := TopLines(lines);
            DealerName(lines).Some? ==>
              exists k :: FirstLongest(top, DealerText, IsDealerCandidate, k) &&
                          DealerName(lines).value == CutAtSuffix(DealerText(top[k]), LegalSuffixes)
  {
    DealerNameSelects(lines);
    var top := TopLines(lines);
    if DealerName(lines).Some? {
      var k :| FirstLongest(top, DealerText, IsDealerCandidate, k) &&
               DealerName(lines).value == Strip(CutAtSuffix(DealerText(top[k]), LegalSuffixes));
      var d := DealerText(top[k]);
      assert |d| >= 10;
      CutStaysStripped(d);
      StripUnchanged(CutAtSuffix(d, LegalSuffixes));
    }
  }

  /** Lines after the thirtieth are never read. */
  lemma DealerIgnoresLaterLines(lines: seq<Line>, more: seq<Line>)
    requires |lines| >= DealerWindow
    ensures DealerName(lines + more) == DealerName(lines)
  {
    assert (lines + more)[..DealerWindow] == lines[..DealerWindow];
    assert TopLines(lines + more) == TopLines(lines);
  }

  method ExtractDealerName(lines: seq<Line>) returns (r: Option<string>)
    ensures r == DealerName(lines)
  {
    var top := TopLines(lines);
    var candidates: seq<string> := [];
    for i := 0 to |top|
      invariant candidates == Keep(top[..i], DealerText, IsDealerCandidate)
    {
      KeepStep(top, DealerText, IsDealerCandidate, i);
      var text := DealerText(top[i]);
      if |text| < 10 {
        assert !IsDealerCandidate(text);
        continue;
      }
      if ContainsAny(text, BadKeywords) {
        assert !IsDealerCandidate(text);
        continue;
      }
      if !ContainsAny(text, LegalTerms) {
        assert !IsDealerCandidate(text);
        continue;
      }
      assert IsDealerCandidate(text);
      candidates := candidates + [text];
    }
    assert top[..|top|] == top;
    if candidates == [] {
      return None;
    }
    var dealer := CutAfterLegalSuffix(candidates[LongestIndex(candidates)]);
    r := Some(Strip(dealer));
  }

  /** The suffix loop of `extract_dealer_name`, which stops at the first
      suffix that occurs. */
  method CutAfterLegalSuffix(dealer: string) returns (cut: string)
    ensures cut == CutAtSuffix(dealer, LegalSuffixes)
  {
    cut := dealer;
    var i := 0;
    while i < |LegalSuffixes|
      invariant 0 <= i <= |LegalSuffixes|
      invariant cut == dealer
      invariant CutAtSuffix(dealer, LegalSuffixes) == CutAtSuffix(dealer, LegalSuffixes[i..])
    {
      var suffix := LegalSuffixes[i];
      var at := Find(cut, suffix);
      if at.Some? {
        cut := cut[..at.value] + suffix;
        return;
      }
      assert LegalSuffixes[i..][1..] == LegalSuffixes[i + 1..];
      i := i + 1;
    }
  }

  /** `suffixes[k]` is the first suffix in list order that occurs in `d`. */
  predicate FirstSuffixAt(d: string, suffixes: seq<string>, k: nat) {
    k < |suffixes| && Contains(d, suffixes[k]) &&
    forall j :: 0 <= j < k ==> !Contains(d, suffixes[j])
  }

  /** With no suffix occurring, the cut is all of `d`. */
  lemma {:induction false} CutWithoutSuffix(d: string, suffixes: seq<string>)
    requires forall k :: 0 <= k < |suffixes| ==> !Contains(d, suffixes[k])
    ensures CutAtSuffix(d, suffixes) == d
  {
    if |suffixes| > 0 {
      forall k | 0 <= k < |suffixes| - 1 ensures !Contains(d, suffixes[1..][k]) {
        assert suffixes[1..][k] == suffixes[k + 1];
      }
      CutWithoutSuffix(d, suffixes[1..]);
    }
  }

  /** For the first suffix in list order that occurs, the cut is `d` up to
      that suffix's first occurrence, followed by the suffix. */
  lemma {:induction false} CutAtFirstSuffix(d: string, suffixes: seq<string>, k: nat)
    requires FirstSuffixAt(d, suffixes, k)
    ensures CutAtSuffix(d, suffixes) == d[..Find(d, suffixes[k]).value] + suffixes[k]
  {
    if k > 0 {
      assert !Contains(d, suffixes[0]);
      var rest := suffixes[1..];
      assert rest[k - 1] == suffixes[k];
      forall j | 0 <= j < k - 1 ensures !Contains(d, rest[j]) {
        assert rest[j] == suffixes[j + 1];
      }
      CutAtFirstSuffix(d, rest, k - 1);
    }
  }

  /** If any suffix occurs, one of them is the first in list order to occur. */
  lemma {:induction false} FirstSuffixExists(d: string, suffixes: seq<string>, k: nat) returns (first: nat)
    requires k < |suffixes| && Contains(d, suffixes[k])
    ensures FirstSuffixAt(d, suffixes, first)
  {
    if exists j :: 0 <= j < k && Contains(d, suffixes[j]) {
      var j :| 0 <= j < k && Contains(d, suffixes[j]);
      first := FirstSuffixExists(d, suffixes, j);
    } else {
      first := k;
    }
  }

  /** When some suffix occurs, the cut ends with the first one (in list
      order) that occurs. */
  lemma CutEndsWithSuffix(d: string, k: nat)
    requires FirstSuffixAt(d, LegalSuffixes, k)
    ensures var r := CutAtSuffix(d, LegalSuffixes);
            |LegalSuffixes[k]| <= |r| && r[|r| - |LegalSuffixes[k]|..] == LegalSuffixes[k]
  {
    CutAtFirstSuffix(d, LegalSuffixes, k);
  }

  /** Every suffix starts with a space and ends with a letter. */
  lemma SuffixShape()
    ensures forall k :: 0 <= k < |LegalSuffixes| ==>
              |LegalSuffixes[k]| > 1 && IsSpace(LegalSuffixes[k][0]) &&
              !IsSpace(LegalSuffixes[k][|LegalSuffixes[k]| - 1])
  {
  }

  /** Cutting a stripped, non-empty line leaves it stripped, so the final
      `strip()` changes nothing. */
  lemma CutStaysStripped(d: string)
    requires d != [] && NoEdgeSpace(d)
    ensures NoEdgeSpace(CutAtSuffix(d, LegalSuffixes))
  {
    if k :| 0 <= k < |LegalSuffixes| && Contains(d, LegalSuffixes[k]) {
      var first := FirstSuffixExists(d, LegalSuffixes, k);
      CutAtFirstSuffix(d, LegalSuffixes, first);
      SuffixShape();
      var at := Find(d, LegalSuffixes[first]).value;
      assert d[at] == LegalSuffixes[first][0];
      assert at > 0;
    } else {
      CutWithoutSuffix(d, LegalSuffixes);
    }
  }
}
