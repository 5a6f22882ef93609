/** The array comparator: decides whether a component's interpolated values
    changed between two renders. */
module ArrayCompare {
  import opened Wrappers
  import opened Values

  /** Both sequences present, of equal length, and position-wise equal under
      the value comparator. */
  predicate ArraysEqual(a: Option<seq<Value>>, b: Option<seq<Value>>)
  {
    a.Some? && b.Some? && |a.value| == |b.value| &&
    forall i :: 0 <= i < |a.value| ==> CompareTwo(a.value[i], b.value[i])
  }

  /** The first index at which the two sequences differ under the comparator,
      or their common length when they do not. */
  function FirstMismatch(a: seq<Value>, b: seq<Value>): (k: nat)
    requires |a| == |b|
    ensures k <= |a|
    ensures forall i :: 0 <= i < k ==> CompareTwo(a[i], b[i])
    ensures k < |a| ==> !CompareTwo(a[k], b[k])
    decreases |a|
  {
    if |a| == 0 then 0
    else if !CompareTwo(a[0], b[0]) then 0
    else 1 + FirstMismatch(a[1..], b[1..])
  }

  /** Compares two possibly absent sequences. An absent argument or a length
      difference gives "different" at once; otherwise the positions are
      compared in order and the scan stops at the first mismatch, whose index
      is reported in `stop` (the full length when there is none). */
  method Compare(a: Option<seq<Value>>, b: Option<seq<Value>>) returns (same: bool, ghost stop: nat)
    ensures same <==> ArraysEqual(a, b)
    ensures a.Some? && b.Some? && |a.value| == |b.value| ==> stop == FirstMismatch(a.value, b.value)
  {
    stop := 0;
    if a.None? || b.None? {
      return false, stop;
    }
    if |a.value| != |b.value| {
      return false, stop;
    }
    var i := 0;
    while i < |a.value|
      invariant 0 <= i <= |a.value|
      invariant forall j :: 0 <= j < i ==> CompareTwo(a.value[j], b.value[j])
      invariant i <= FirstMismatch(a.value, b.value)
    {
      if !CompareTwo(a.value[i], b.value[i]) {
        return false, i;
      }
      i := i + 1;
    }
    return true, i;
  }

  /** A sequence compares equal to itself. */
  lemma ArraysEqualReflexive(s: seq<Value>)
    ensures ArraysEqual(Some(s), Some(s))
  {
  }

  /** Comparing in the other order gives the same answer. */
  lemma ArraysEqualSymmetric(a: Option<seq<Value>>, b: Option<seq<Value>>)
    requires ArraysEqual(a, b)
    ensures ArraysEqual(b, a)
  {
    forall i | 0 <= i < |b.value|
      ensures CompareTwo(b.value[i], a.value[i])
    {
      CompareTwoSymmetric(a.value[i], b.value[i]);
    }
  }

  /** A position-wise deep-equal copy (fresh object references, same
      structure) compares equal to the original. */
  lemma DeepCopyIsEqual(s: seq<Value>, t: seq<Value>)
    requires |s| == |t|
    requires forall i :: 0 <= i < |s| ==> DeepEqual(s[i], t[i])
    ensures ArraysEqual(Some(s), Some(t))
  {
    forall i | 0 <= i < |s|
      ensures CompareTwo(s[i], t[i])
    {
      DeepEqualIsCompareEqual(s[i], t[i]);
    }
  }

  /** Changing the values at one position to a value the comparator tells
      apart from the old one makes the sequences different. */
  lemma OneChangeIsDifferent(s: seq<Value>, k: nat, v: Value)
    requires k < |s| && !CompareTwo(s[k], v)
    ensures !ArraysEqual(Some(s), Some(s[k := v]))
  {
  }
}
