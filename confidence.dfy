/** The confidence score of one extraction result: start from full
    confidence and take off a fixed weight for every field that is missing,
    never going below zero. Scores are integer hundredths, so 100 stands
    for 1.00 and a weight of 30 for 0.30. */
module Confidence {
  import opened Text

  /** Which of the six inputs count as present. */
  datatype Presence = Presence(dealer: bool, model: bool, hp: bool, cost: bool,
                               stamp: bool, signature: bool)

  /** One deduction rule: the field's presence and its weight. */
  datatype Check = Check(present: bool, weight: nat)

  /** Python truthiness of a name: `None` and `""` are missing. */
  predicate TextPresent(x: Option<string>) {
    x.Some? && x.value != ""
  }

  /** Python truthiness of a number: `None` and `0` are missing. */
  predicate NumberPresent(x: Option<int>) {
    x.Some? && x.value != 0
  }

  function PresenceOf(dealer: Option<string>, model: Option<string>, hp: Option<int>,
                      cost: Option<int>, stamp: bool, signature: bool): Presence
  {
    Presence(TextPresent(dealer), TextPresent(model), NumberPresent(hp),
             NumberPresent(cost), stamp, signature)
  }

  const Full: nat := 100

  /** The deduction rules in the order they are applied. */
  function Checks(p: Presence): (cs: seq<Check>)
    ensures |cs| == 6
  {
    [Check(p.dealer, 30), Check(p.model, 30), Check(p.cost, 30),
     Check(p.hp, 10), Check(p.stamp, 15), Check(p.signature, 15)]
  }

  /** What one rule takes off: its weight when its input is missing. */
  function Penalty(c: Check): nat {
    if c.present then 0 else c.weight
  }

  /** The total taken off by a list of rules. */
  function Deduction(cs: seq<Check>): (d: nat)
    ensures d == 0 <==> forall i :: 0 <= i < |cs| ==> Penalty(cs[i]) == 0
  {
    if cs == [] then 0
    else
      assert forall i :: 0 < i < |cs| ==> cs[1..][i - 1] == cs[i];
      Penalty(cs[0]) + Deduction(cs[1..])
  }

  /** The six rules' costs, added in the order they are applied. */
  lemma ChecksDeduction(p: Presence)
    ensures var cs := Checks(p);
            Deduction(cs) == Penalty(cs[0]) + Penalty(cs[1]) + Penalty(cs[2]) + Penalty(cs[3]) + Penalty(cs[4]) + Penalty(cs[5])
  {
    var cs := Checks(p);
    var t5 := [cs[5]];
    assert Deduction(t5) == Penalty(cs[5]) by { assert t5[1..] == []; }
    var t4 := [cs[4]] + t5;
    assert Deduction(t4) == Penalty(cs[4]) + Deduction(t5) by { assert t4[1..] == t5; }
    var t3 := [cs[3]] + t4;
    assert Deduction(t3) == Penalty(cs[3]) + Deduction(t4) by { assert t3[1..] == t4; }
    var t2 := [cs[2]] + t3;
    assert Deduction(t2) == Penalty(cs[2]) + Deduction(t3) by { assert t2[1..] == t3; }
    var t1 := [cs[1]] + t2;
    assert Deduction(t1) == Penalty(cs[1]) + Deduction(t2) by { assert t1[1..] == t2; }
    assert cs == [cs[0]] + t1 && cs[1..] == t1;
  }

  /** `round(max(conf, 0.0), 2)` in hundredths. */
  function Score(p: Presence): (s: int)
    ensures 0 <= s <= Full
  {
    var d := Deduction(Checks(p));
    if d >= Full then 0 else Full - d
  }

  /** `compute_confidence`: an accumulator decremented by one `if` per
      field, then clamped at zero. */
  method ComputeConfidence(dealer: Option<string>, model: Option<string>, hp: Option<int>,
                           cost: Option<int>, stamp: bool, signature: bool)
    returns (score: int)
    ensures score == Score(PresenceOf(dealer, model, hp, cost, stamp, signature))
  {
    ghost var p := PresenceOf(dealer, model, hp, cost, stamp, signature);
    ChecksDeduction(p);
    var conf: int := Full;
    if !TextPresent(dealer) {
      conf := conf - 30;
    }
    if !TextPresent(model) {
      conf := conf - 30;
    }
    if !NumberPresent(cost) {
      conf := conf - 30;
    }
    if !NumberPresent(hp) {
      conf := conf - 10;
    }
    if !stamp {
      conf := conf - 15;
    }
    if !signature {
      conf := conf - 15;
    }
    score := if conf < 0 then 0 else conf;
  }

  // ---------------------------------------------------------------------
  // Properties

  /** Everything present: full confidence. */
  lemma AllPresentFull()
    ensures Score(Presence(true, true, true, true, true, true)) == 100
  {
    ChecksDeduction(Presence(true, true, true, true, true, true));
  }

  /** Everything missing: the weights add up to 1.30, which the clamp turns
      into 0. */
  lemma AllMissingZero()
    ensures Deduction(Checks(Presence(false, false, false, false, false, false))) == 130
    ensures Score(Presence(false, false, false, false, false, false)) == 0
  {
    ChecksDeduction(Presence(false, false, false, false, false, false));
  }

  /** The deductions total at most 1.30, and exactly 1.30 only when every
      input is missing. */
  lemma MostDeduction(p: Presence)
    ensures Deduction(Checks(p)) <= 130
    ensures Deduction(Checks(p)) == 130 <==> p == Presence(false, false, false, false, false, false)
  {
    ChecksDeduction(p);
  }

  /** `Deduction` depends only on the multiset of rules, so the order in
      which the deductions are applied does not matter. */
  lemma {:induction false} DeductionOrderFree(a: seq<Check>, b: seq<Check>)
    requires multiset(a) == multiset(b)
    ensures Deduction(a) == Deduction(b)
    decreases |a|
  {
    if a == [] {
      assert |b| == |multiset(b)| == 0;
    } else {
      assert a[0] in multiset(b);
      var i :| 0 <= i < |b| && b[i] == a[0];
      var rest := b[..i] + b[i + 1..];
      RemoveMatched(a, b, i);
      DeductionOrderFree(a[1..], rest);
      DeductionRemove(b, i);
    }
  }

  /** Taking a matching element off both sides keeps two lists permutations
      of each other. */
  lemma RemoveMatched(a: seq<Check>, b: seq<Check>, i: nat)
    requires multiset(a) == multiset(b) && a != [] && i < |b| && b[i] == a[0]
    ensures multiset(a[1..]) == multiset(b[..i] + b[i + 1..])
  {
    var rest := b[..i] + b[i + 1..];
    assert b == b[..i] + [b[i]] + b[i + 1..];
    assert multiset(b) == multiset(rest) + multiset{a[0]};
    assert a == [a[0]] + a[1..];
    assert multiset(a) == multiset(a[1..]) + multiset{a[0]};
    assert multiset(a[1..]) == multiset(a) - multiset{a[0]};
    assert multiset(rest) == multiset(b) - multiset{a[0]};
  }

  /** `Deduction` takes each rule's cost once, wherever it stands. */
  lemma {:induction false} DeductionRemove(b: seq<Check>, i: nat)
    requires i < |b|
    ensures Deduction(b) == Penalty(b[i]) + Deduction(b[..i] + b[i + 1..])
  {
    if i > 0 {
      DeductionRemove(b[1..], i - 1);
      assert b[1..][..i - 1] + b[1..][i..] == (b[..i] + b[i + 1..])[1..];
    } else {
      assert b[..0] + b[1..] == b[1..];
    }
  }

  /** Fewer present fields, pointwise, never give a smaller deduction. */
  lemma {:induction false} DeductionMonotone(a: seq<Check>, b: seq<Check>)
    requires |a| == |b|
    requires forall i :: 0 <= i < |a| ==> a[i].weight == b[i].weight && (a[i].present ==> b[i].present)
    ensures Deduction(b) <= Deduction(a)
  {
    if a != [] {
      assert forall i :: 0 <= i < |a| - 1 ==> a[1..][i] == a[i + 1] && b[1..][i] == b[i + 1];
      DeductionMonotone(a[1..], b[1..]);
    }
  }

  /** `p` has every field of `q` that is missing also missing (and maybe more). */
  predicate FewerPresent(p: Presence, q: Presence) {
    && (p.dealer ==> q.dealer) && (p.model ==> q.model) && (p.hp ==> q.hp)
    && (p.cost ==> q.cost) && (p.stamp ==> q.stamp) && (p.signature ==> q.signature)
  }

  /** Making inputs absent never raises the score. */
  lemma ScoreMonotone(p: Presence, q: Presence)
    requires FewerPresent(p, q)
    ensures Score(p) <= Score(q)
  {
    ChecksDeduction(p);
    ChecksDeduction(q);
  }

  /** `p` with the input of rule `i` (in the order of `Checks`) made absent. */
  function Drop(p: Presence, i: nat): (q: Presence)
    requires i < 6
    ensures FewerPresent(q, p)
  {
    match i
    case 0 => p.(dealer := false)
    case 1 => p.(model := false)
    case 2 => p.(cost := false)
    case 3 => p.(hp := false)
    case 4 => p.(stamp := false)
    case _ => p.(signature := false)
  }

  /** Removing one present input lowers the score by exactly that input's
      weight, or to zero when the total deduction reaches 1.00. */
  lemma ScoreFlip(p: Presence, i: nat)
    requires i < 6 && Checks(p)[i].present
    ensures var w := Checks(p)[i].weight;
            Score(Drop(p, i)) == if Deduction(Checks(p)) + w >= Full then 0 else Score(p) - w
  {
    ChecksDeduction(p);
    ChecksDeduction(Drop(p, i));
    if i == 0 {
    } else if i == 1 {
    } else if i == 2 {
    } else if i == 3 {
    } else if i == 4 {
    }
  }

  /** The score is a function of presence alone: inputs with the same
      truthiness give the same score. */
  lemma SameTruthinessSameScore(dealer: Option<string>, model: Option<string>, hp: Option<int>,
                                cost: Option<int>, dealer': Option<string>, model': Option<string>,
                                hp': Option<int>, cost': Option<int>, stamp: bool, signature: bool)
    requires TextPresent(dealer) == TextPresent(dealer') && TextPresent(model) == TextPresent(model')
    requires NumberPresent(hp) == NumberPresent(hp') && NumberPresent(cost) == NumberPresent(cost')
    ensures Score(PresenceOf(dealer, model, hp, cost, stamp, signature)) ==
            Score(PresenceOf(dealer', model', hp', cost', stamp, signature))
  {
  }
}
