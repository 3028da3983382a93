/** A table kept in an array, from which an entry is removed by moving the last one into its place. */
module Tables {

  function SwapRemove<T>(s: seq<T>, i: nat): seq<T>
    requires i < |s|
  {
    s[i := s[|s| - 1]][..|s| - 1]
  }

  lemma {:induction false} SwapRemoveLength<T>(s: seq<T>, i: nat)
    requires i < |s|
    ensures |SwapRemove(s, i)| == |s| - 1
    ensures forall j :: 0 <= j < |s| - 1 ==> SwapRemove(s, i)[j] == if j == i then s[|s| - 1] else s[j]
  {}

  lemma {:induction false} SwapRemoveParts<T>(s: seq<T>, i: nat)
    requires i < |s| - 1
    ensures SwapRemove(s, i) == s[..i] + [s[|s| - 1]] + s[i + 1..|s| - 1]
  {}

  lemma {:induction false} Parts<T>(s: seq<T>, i: nat)
    requires i < |s| - 1
    ensures s == s[..i] + [s[i]] + s[i + 1..|s| - 1] + [s[|s| - 1]]
  {}

  lemma {:induction false} SwapRemovedContents<T>(s: seq<T>, i: nat)
    requires i < |s|
    ensures multiset(SwapRemove(s, i)) == multiset(s) - multiset{s[i]}
  {
    if i == |s| - 1 {
      assert s == SwapRemove(s, i) + [s[i]];
    } else {
      SwapRemoveParts(s, i);
      Parts(s, i);
      hide *;
      SwappedContents(s[..i], s[i], s[i + 1..|s| - 1], s[|s| - 1]);
    }
  }

  lemma {:induction false} SwappedContents<T>(before: seq<T>, x: T, between: seq<T>, last: T)
    ensures multiset(before + [last] + between) == multiset(before + [x] + between + [last]) - multiset{x}
  {}

  /** What is removed is just the entry: every other is still there, the last one in its place. */
  lemma {:induction false} SwapRemoved<T>(s: seq<T>, i: nat)
    requires i < |s|
    ensures multiset(SwapRemove(s, i)) == multiset(s) - multiset{s[i]}
    ensures forall j :: 0 <= j < |s| - 1 ==> SwapRemove(s, i)[j] == if j == i then s[|s| - 1] else s[j]
    ensures forall x :: x in SwapRemove(s, i) ==> x in s
    ensures forall j :: 0 <= j < |s| && j != i ==> s[j] in SwapRemove(s, i)
  {
    SwapRemoveLength(s, i);
    SwapRemovedContents(s, i);
    hide SwapRemove;
    var r, last := SwapRemove(s, i), |s| - 1;
    forall x | x in r ensures x in s {
      var j :| 0 <= j < |r| && r[j] == x;
      assert x == s[if j == i then last else j];
    }
    forall j | 0 <= j < |s| && j != i ensures s[j] in r {
      var k := if j == last then i else j;
      assert k < |r| && r[k] == s[j];
    }
  }

  lemma {:induction false} SubsetSize<T>(a: set<T>, b: set<T>)
    requires a <= b
    ensures |a| <= |b|
  {
    assert |b - a| == |b| - |a|;
  }
}
