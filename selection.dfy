/** The selection steps the extractors share, stated once for any way of
    reading a line and any filter: keeping the qualifying texts in order, the
    first of the shortest (what `list.sort(key=len)` puts first), the first
    of the longest (what `max(..., key=len)` returns), and the first line
    that yields a value (a scan that returns early). */
module Selection {
  import opened Text

  /** The texts of the elements of `xs` that pass `q`, in order: the list a
      loop builds by appending each qualifying text. */
  function Keep<T>(xs: seq<T>, text: T -> string, q: string -> bool): (r: seq<string>)
    ensures |r| <= |xs|
    ensures forall j :: 0 <= j < |r| ==> q(r[j])
  {
    if |xs| == 0 then []
    else
      var last := text(xs[|xs| - 1]);
      Keep(xs[..|xs| - 1], text, q) + (if q(last) then [last] else [])
  }

  /** One more element considered: `Keep` grows by that element's text
      exactly when it qualifies. */
  lemma KeepStep<T>(xs: seq<T>, text: T -> string, q: string -> bool, i: nat)
    requires i < |xs|
    ensures Keep(xs[..i + 1], text, q) ==
            Keep(xs[..i], text, q) + (if q(text(xs[i])) then [text(xs[i])] else [])
  {
    assert xs[..i + 1][..i] == xs[..i];
  }

  /** The index that a stable sort by length moves to the front: the first
      of the shortest strings. */
  function ShortestIndex(c: seq<string>): (r: nat)
    requires c != []
    ensures r < |c|
    ensures forall k :: 0 <= k < |c| ==> |c[r]| <= |c[k]|
    ensures forall k :: 0 <= k < r ==> |c[r]| < |c[k]|
  {
    if |c| == 1 then 0
    else
      var p := ShortestIndex(c[..|c| - 1]);
      if |c[|c| - 1]| < |c[p]| then |c| - 1 else p
  }

  /** The index `max(c, key=len)` picks: the first of the longest strings. */
  function LongestIndex(c: seq<string>): (r: nat)
    requires c != []
    ensures r < |c|
    ensures forall k :: 0 <= k < |c| ==> |c[k]| <= |c[r]|
    ensures forall k :: 0 <= k < r ==> |c[k]| < |c[r]|
  {
    if |c| == 1 then 0
    else
      var p := LongestIndex(c[..|c| - 1]);
      if |c[|c| - 1]| > |c[p]| then |c| - 1 else p
  }

  /** Element `k` qualifies, no qualifying element has a shorter text, and
      every earlier qualifying element has a strictly longer one. */
  predicate FirstShortest<T>(xs: seq<T>, text: T -> string, q: string -> bool, k: int) {
    && 0 <= k < |xs|
    && q(text(xs[k]))
    && (forall j :: 0 <= j < |xs| && q(text(xs[j])) ==> |text(xs[k])| <= |text(xs[j])|)
    && (forall j :: 0 <= j < k && q(text(xs[j])) ==> |text(xs[k])| < |text(xs[j])|)
  }

  /** Element `k` qualifies, no qualifying element has a longer text, and
      every earlier qualifying element has a strictly shorter one. */
  predicate FirstLongest<T>(xs: seq<T>, text: T -> string, q: string -> bool, k: int) {
    && 0 <= k < |xs|
    && q(text(xs[k]))
    && (forall j :: 0 <= j < |xs| && q(text(xs[j])) ==> |text(xs[j])| <= |text(xs[k])|)
    && (forall j :: 0 <= j < k && q(text(xs[j])) ==> |text(xs[j])| < |text(xs[k])|)
  }

  /** Nothing is kept exactly when no element qualifies. */
  lemma {:induction false} KeepEmpty<T>(xs: seq<T>, text: T -> string, q: string -> bool)
    ensures Keep(xs, text, q) == [] <==> forall k :: 0 <= k < |xs| ==> !q(text(xs[k]))
  {
    if |xs| > 0 {
      var init := xs[..|xs| - 1];
      KeepEmpty(init, text, q);
      if Keep(init, text, q) == [] {
        forall k | 0 <= k < |init| ensures !q(text(xs[k])) { assert init[k] == xs[k]; }
      } else {
        var k :| 0 <= k < |init| && q(text(init[k]));
        assert init[k] == xs[k];
      }
    }
  }

  /** An element that was first-shortest stays so when the appended element
      does not have a shorter qualifying text. */
  lemma ShortestStays<T>(xs: seq<T>, text: T -> string, q: string -> bool, k: int)
    requires |xs| > 0 && FirstShortest(xs[..|xs| - 1], text, q, k)
    requires q(text(xs[|xs| - 1])) ==> |text(xs[k])| <= |text(xs[|xs| - 1])|
    ensures FirstShortest(xs, text, q, k)
  {
    var init := xs[..|xs| - 1];
    assert init[k] == xs[k];
    forall j | 0 <= j < |xs| - 1 ensures init[j] == xs[j] { }
  }

  /** The appended element is first-shortest when it qualifies and every
      earlier qualifying element is strictly longer. */
  lemma ShortestIsLast<T>(xs: seq<T>, text: T -> string, q: string -> bool)
    requires |xs| > 0 && q(text(xs[|xs| - 1]))
    requires forall j :: 0 <= j < |xs| - 1 && q(text(xs[j])) ==> |text(xs[|xs| - 1])| < |text(xs[j])|
    ensures FirstShortest(xs, text, q, |xs| - 1)
  {
  }

  /** Nothing is kept exactly when no element qualifies; otherwise the first
      shortest kept text is that of the element `FirstShortest` describes. */
  lemma {:induction false} KeepShortest<T>(xs: seq<T>, text: T -> string, q: string -> bool)
    ensures Keep(xs, text, q) == [] <==> forall k :: 0 <= k < |xs| ==> !q(text(xs[k]))
    ensures Keep(xs, text, q) != [] ==>
              exists k :: FirstShortest(xs, text, q, k) &&
                          Keep(xs, text, q)[ShortestIndex(Keep(xs, text, q))] == text(xs[k])
  {
    KeepEmpty(xs, text, q);
    if |xs| > 0 {
      var init, n := xs[..|xs| - 1], |xs| - 1;
      var last := text(xs[n]);
      var before := Keep(init, text, q);
      var c := Keep(xs, text, q);
      KeepShortest(init, text, q);
      KeepEmpty(init, text, q);
      if q(last) {
        assert c == before + [last];
        if before == [] {
          forall j | 0 <= j < n ensures !q(text(xs[j])) { assert init[j] == xs[j]; }
          ShortestIsLast(xs, text, q);
        } else {
          assert c[..|c| - 1] == before;
          var k :| FirstShortest(init, text, q, k) && before[ShortestIndex(before)] == text(init[k]);
          if |last| < |before[ShortestIndex(before)]| {
            forall j | 0 <= j < n && q(text(xs[j])) ensures |last| < |text(xs[j])| {
              assert init[j] == xs[j];
            }
            ShortestIsLast(xs, text, q);
          } else {
            ShortestStays(xs, text, q, k);
          }
        }
      } else {
        assert c == before;
        if before != [] {
          var k :| FirstShortest(init, text, q, k) && before[ShortestIndex(before)] == text(init[k]);
          ShortestStays(xs, text, q, k);
        }
      }
    }
  }

  /** An element that was first-longest stays so when the appended element
      does not have a longer qualifying text. */
  lemma LongestStays<T>(xs: seq<T>, text: T -> string, q: string -> bool, k: int)
    requires |xs| > 0 && FirstLongest(xs[..|xs| - 1], text, q, k)
    requires q(text(xs[|xs| - 1])) ==> |text(xs[|xs| - 1])| <= |text(xs[k])|
    ensures FirstLongest(xs, text, q, k)
  {
    var init := xs[..|xs| - 1];
    assert init[k] == xs[k];
    forall j | 0 <= j < |xs| - 1 ensures init[j] == xs[j] { }
  }

  /** The appended element is first-longest when it qualifies and every
      earlier qualifying element is strictly shorter. */
  lemma LongestIsLast<T>(xs: seq<T>, text: T -> string, q: string -> bool)
    requires |xs| > 0 && q(text(xs[|xs| - 1]))
    requires forall j :: 0 <= j < |xs| - 1 && q(text(xs[j])) ==> |text(xs[j])| < |text(xs[|xs| - 1])|
    ensures FirstLongest(xs, text, q, |xs| - 1)
  {
  }

  /** Nothing is kept exactly when no element qualifies; otherwise the first
      longest kept text is that of the element `FirstLongest` describes. */
  lemma {:induction false} KeepLongest<T>(xs: seq<T>, text: T -> string, q: string -> bool)
    ensures Keep(xs, text, q) == [] <==> forall k :: 0 <= k < |xs| ==> !q(text(xs[k]))
    ensures Keep(xs, text, q) != [] ==>
              exists k :: FirstLongest(xs, text, q, k) &&
                          Keep(xs, text, q)[LongestIndex(Keep(xs, text, q))] == text(xs[k])
  {
    KeepEmpty(xs, text, q);
    if |xs| > 0 {
      var init, n := xs[..|xs| - 1], |xs| - 1;
      var last := text(xs[n]);
      var before := Keep(init, text, q);
      var c := Keep(xs, text, q);
      KeepLongest(init, text, q);
      KeepEmpty(init, text, q);
      if q(last) {
        assert c == before + [last];
        if before == [] {
          forall j | 0 <= j < n ensures !q(text(xs[j])) { assert init[j] == xs[j]; }
          LongestIsLast(xs, text, q);
        } else {
          assert c[..|c| - 1] == before;
          var k :| FirstLongest(init, text, q, k) && before[LongestIndex(before)] == text(init[k]);
          if |last| > |before[LongestIndex(before)]| {
            forall j | 0 <= j < n && q(text(xs[j])) ensures |text(xs[j])| < |last| {
              assert init[j] == xs[j];
            }
            LongestIsLast(xs, text, q);
          } else {
            LongestStays(xs, text, q, k);
          }
        }
      } else {
        assert c == before;
        if before != [] {
          var k :| FirstLongest(init, text, q, k) && before[LongestIndex(before)] == text(init[k]);
          LongestStays(xs, text, q, k);
        }
      }
    }
  }

  /** The value of the first element for which `f` yields one. */
  function FirstOf<T>(xs: seq<T>, f: T -> Option<int>): Option<int>
  {
    if |xs| == 0 then None
    else if f(xs[0]).Some? then f(xs[0])
    else FirstOf(xs[1..], f)
  }

  /** `FirstOf` yields nothing exactly when no element yields a value, and
      otherwise the value of the first element that does. */
  lemma {:induction false} FirstOfFirst<T>(xs: seq<T>, f: T -> Option<int>)
    ensures FirstOf(xs, f).None? <==> forall k :: 0 <= k < |xs| ==> f(xs[k]).None?
    ensures FirstOf(xs, f).Some? ==>
              exists k :: 0 <= k < |xs| && f(xs[k]) == FirstOf(xs, f) &&
                          forall j :: 0 <= j < k ==> f(xs[j]).None?
  {
    if |xs| > 0 {
      FirstOfFirst(xs[1..], f);
      assert forall j :: 0 < j < |xs| ==> xs[1..][j - 1] == xs[j];
      if f(xs[0]).None? && FirstOf(xs[1..], f).Some? {
        var k :| 0 <= k < |xs[1..]| && f(xs[1..][k]) == FirstOf(xs[1..], f) &&
                 forall j :: 0 <= j < k ==> f(xs[1..][j]).None?;
        assert f(xs[k + 1]) == FirstOf(xs, f);
      }
    }
  }

  /** Once element `k` yields a value, the elements after it are not read. */
  lemma {:induction false} FirstOfStopsAt<T>(xs: seq<T>, f: T -> Option<int>, k: nat)
    requires k < |xs| && f(xs[k]).Some?
    requires forall j :: 0 <= j < k ==> f(xs[j]).None?
    ensures FirstOf(xs, f) == f(xs[k])
    ensures FirstOf(xs[..k + 1], f) == f(xs[k])
  {
    if k > 0 {
      assert forall j :: 0 <= j < k - 1 ==> xs[1..][j] == xs[j + 1];
      FirstOfStopsAt(xs[1..], f, k - 1);
      assert xs[..k + 1][1..] == xs[1..][..k];
    }
  }

  /** The values `f` yields for the elements of `xs`, concatenated in order:
      the list a loop builds by appending each element's values. */
  function Gather<T>(xs: seq<T>, f: T -> seq<int>): seq<int>
  {
    if |xs| == 0 then [] else Gather(xs[..|xs| - 1], f) + f(xs[|xs| - 1])
  }

  /** A value that some element yields is gathered. */
  lemma {:induction false} GatherHas<T>(xs: seq<T>, f: T -> seq<int>, k: nat, x: int)
    requires k < |xs| && x in f(xs[k])
    ensures x in Gather(xs, f)
  {
    var init := xs[..|xs| - 1];
    if k < |init| {
      assert init[k] == xs[k];
      GatherHas(init, f, k, x);
    }
  }

  /** A gathered value is yielded by some element. */
  lemma {:induction false} GatherSource<T>(xs: seq<T>, f: T -> seq<int>, x: int) returns (k: nat)
    requires x in Gather(xs, f)
    ensures k < |xs| && x in f(xs[k])
  {
    var init := xs[..|xs| - 1];
    if x in Gather(init, f) {
      k := GatherSource(init, f, x);
      assert init[k] == xs[k];
    } else {
      k := |xs| - 1;
    }
  }

  /** Bounds that hold of every element's values hold of all gathered values. */
  lemma {:induction false} GatherBounds<T>(xs: seq<T>, f: T -> seq<int>, lo: int, hi: int)
    requires forall k, x :: 0 <= k < |xs| && x in f(xs[k]) ==> lo <= x <= hi
    ensures forall x :: x in Gather(xs, f) ==> lo <= x <= hi
  {
    forall x | x in Gather(xs, f) ensures lo <= x <= hi {
      var k := GatherSource(xs, f, x);
    }
  }

  /** `max(xs)` */
  function MaxOf(xs: seq<int>): (m: int)
    requires xs != []
    ensures m in xs
    ensures forall x :: x in xs ==> x <= m
  {
    if |xs| == 1 then xs[0]
    else
      var rest := MaxOf(xs[1..]);
      assert forall x :: x in xs ==> x == xs[0] || x in xs[1..];
      if xs[0] >= rest then xs[0] else rest
  }
}
