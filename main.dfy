// The decision step of the classifier front-end: the per-class scores that
// the model writes into `probs` are reduced to one predicted class index by a
// linear scan that keeps the first index holding the largest score.
//
// The build-time class count N_CLASS is generalised to the length of the
// score array (at least one class); scores are mathematical reals.

module Decision {

  /** `k` is the first index of a maximum of `s`: it is in bounds, no score
    * exceeds `s[k]`, and every score before `k` is strictly smaller. */
  predicate IsFirstMax(s: seq<real>, k: int)
  {
    && 0 <= k < |s|
    && (forall j :: 0 <= j < |s| ==> s[j] <= s[k])
    && (forall j :: 0 <= j < k ==> s[j] < s[k])
  }

  /** At most one index of a score vector is the first index of its maximum. */
  lemma FirstMaxUnique(s: seq<real>, a: int, b: int)
    requires IsFirstMax(s, a) && IsFirstMax(s, b)
    ensures a == b
  {
    // each bounds the other's score, so the two scores are equal, and then
    // neither index can lie strictly before the other
    assert s[a] <= s[b] && s[b] <= s[a];
  }

  /** The decision as a function: the scan over a prefix of the scores,
    * extended by one index at a time exactly as the loop is. */
  function FirstMax(s: seq<real>): (k: nat)
    requires |s| >= 1
    ensures IsFirstMax(s, k)
    decreases |s|
  {
    if |s| == 1 then 0
    else
      var best := FirstMax(s[..|s| - 1]);
      if s[|s| - 1] > s[best] then |s| - 1 else best
  }

  /** The largest score of a non-empty score vector. */
  function MaxScore(s: seq<real>): (m: real)
    requires |s| >= 1
    ensures m in s
    ensures forall j :: 0 <= j < |s| ==> s[j] <= m
    decreases |s|
  {
    if |s| == 1 then s[0]
    else
      var m := MaxScore(s[..|s| - 1]);
      if s[|s| - 1] > m then s[|s| - 1] else m
  }

  /** The index of the first occurrence of `v` in `s`. */
  function FirstIndexOf(s: seq<real>, v: real): (i: nat)
    requires v in s
    ensures i < |s| && s[i] == v
    ensures forall j :: 0 <= j < i ==> s[j] != v
    decreases |s|
  {
    if s[0] == v then 0 else 1 + FirstIndexOf(s[1..], v)
  }

  /** The decision is the first occurrence of the maximum score. */
  lemma FirstMaxIsFirstOccurrenceOfMax(s: seq<real>)
    requires |s| >= 1
    ensures FirstMax(s) == FirstIndexOf(s, MaxScore(s))
  {
  }

  /** With a single class the result is 0, whatever its score. */
  lemma SingleClassIsZero(s: seq<real>)
    requires |s| == 1
    ensures FirstMax(s) == 0
  {
  }

  /** When every class has the same score the result is 0. */
  lemma AllEqualIsZero(s: seq<real>)
    requires |s| >= 1
    requires forall j :: 0 <= j < |s| ==> s[j] == s[0]
    ensures FirstMax(s) == 0
  {
  }

  /** A score strictly above every other score is the decision. */
  lemma UniqueMaxIsChosen(s: seq<real>, k: int)
    requires 0 <= k < |s|
    requires forall j :: 0 <= j < |s| && j != k ==> s[j] < s[k]
    ensures FirstMax(s) == k
  {
  }

  /** Among tied maxima the lowest index wins. */
  lemma TieGoesToFirst(s: seq<real>, i: int, j: int)
    requires 0 <= i < j < |s|
    requires s[i] == s[j] == MaxScore(s)
    ensures FirstMax(s) <= i
  {
  }

  /** Only the order of the scores matters: two score vectors whose entries
    * compare the same way pairwise lead to the same decision. */
  lemma OrderDeterminesDecision(s: seq<real>, t: seq<real>)
    requires |s| == |t| >= 1
    requires forall i, j :: 0 <= i < |s| && 0 <= j < |s| ==> (s[i] < s[j] <==> t[i] < t[j])
    ensures FirstMax(s) == FirstMax(t)
  {
  }

  /** Worked decisions: a tie between the two best classes, a leading first
    * class, negative scores, and a single class. */
  lemma ExampleDecisions()
    ensures FirstMax([0.2, 0.9, 0.9]) == 1
    ensures FirstMax([0.9, 0.2, 0.1]) == 0
    ensures FirstMax([-5.0, -1.0, -1.0, -3.0]) == 1
    ensures FirstMax([42.0]) == 0
  {
  }

  /** The scan of `app_main`: `cls` starts at 0 and moves to `i` only when
    * `probs[i]` is strictly greater than `probs[cls]`. */
  method ArgMax(probs: array<real>) returns (cls: int)
    requires probs.Length >= 1
    ensures IsFirstMax(probs[..], cls)
    ensures cls == FirstMax(probs[..])
  {
    cls := 0;
    var i := 1;
    while i < probs.Length
      invariant 1 <= i <= probs.Length
      invariant cls < i
      invariant IsFirstMax(probs[..i], cls)
    {
      if probs[i] > probs[cls] {
        cls := i;
      }
      i := i + 1;
    }
    assert probs[..i] == probs[..];
    FirstMaxUnique(probs[..], cls, FirstMax(probs[..]));
  }
}

module Pipeline {
  import opened Decision

  /** Stand-in for the model's `score` call, whose implementation is not part
    * of this model: `model` is the function the pretrained model computes,
    * and the call writes every slot of `probs` and leaves `x` as it was. */
  method Score(model: seq<real> -> seq<real>, x: array<real>, probs: array<real>)
    requires x != probs
    requires |model(x[..])| == probs.Length
    modifies probs
    ensures probs[..] == model(old(x[..]))
    ensures x[..] == old(x[..])
  {
    var scores := model(x[..]);
    forall i | 0 <= i < probs.Length {
      probs[i] := scores[i];
    }
  }

  /** One inference of `app_main`: score the features, then pick the class. */
  method AppMain(model: seq<real> -> seq<real>, x: array<real>, probs: array<real>) returns (cls: int)
    requires x != probs
    requires probs.Length >= 1
    requires |model(x[..])| == probs.Length
    modifies probs
    ensures probs[..] == model(old(x[..]))
    ensures x[..] == old(x[..])
    ensures cls == FirstMax(model(old(x[..])))
    ensures IsFirstMax(probs[..], cls)
  {
    Score(model, x, probs);
    cls := ArgMax(probs);
  }
}
