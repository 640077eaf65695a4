/**
 * Sequences of strings used as insertion-ordered sets, the way a JavaScript `Set`
 * keeps its members in the order in which they were first added, and the
 * order-preserving filter that `Array.prototype.filter` computes.
 */
module OrderedSets {

  /** No element occurs twice in `s`. */
  predicate NoDup(s: seq<string>) {
    forall i, j :: 0 <= i < j < |s| ==> s[i] != s[j]
  }

  /** The index at which `v` occurs for the first time in `s`. */
  function FirstIndex(s: seq<string>, v: string): (k: nat)
    requires v in s
    ensures k < |s| && s[k] == v
    ensures forall j :: 0 <= j < k ==> s[j] != v
  {
    var init := s[..|s| - 1];
    if v in init then FirstIndex(init, v)
    else
      assert forall j :: 0 <= j < |s| - 1 ==> s[j] == init[j];
      |s| - 1
  }

  /** Every member of `r` occurs in `s`, and the members of `r` come in the order of their first occurrences in `s`. */
  predicate InOrderOf(r: seq<string>, s: seq<string>) {
    && (forall i :: 0 <= i < |r| ==> r[i] in s)
    && (forall i, j :: 0 <= i < j < |r| ==> r[i] in s && r[j] in s && FirstIndex(s, r[i]) < FirstIndex(s, r[j]))
  }

  /** Set.prototype.add: `v` is appended unless it is already a member. */
  function Add(s: seq<string>, v: string): (r: seq<string>)
    ensures forall x :: x in r <==> x in s || x == v
    ensures NoDup(s) ==> NoDup(r)
    ensures |r| == if v in s then |s| else |s| + 1
  {
    if v in s then s else s + [v]
  }

  /** The set obtained by adding the elements of `xs` one by one to an empty set. */
  function FromSeq(xs: seq<string>): (r: seq<string>)
    ensures NoDup(r)
    ensures forall x :: x in r <==> x in xs
    ensures |r| <= |xs|
  {
    if xs == [] then []
    else
      var init := xs[..|xs| - 1];
      assert xs == init + [xs[|xs| - 1]];
      Add(FromSeq(init), xs[|xs| - 1])
  }

  /** The elements of `xs` that are not in `ys`, in the order of `xs`. */
  function Except(xs: seq<string>, ys: seq<string>): (r: seq<string>)
    ensures forall x :: x in r <==> x in xs && x !in ys
    ensures NoDup(xs) ==> NoDup(r)
    ensures |r| <= |xs|
  {
    if xs == [] then []
    else
      var init := xs[..|xs| - 1];
      var last := xs[|xs| - 1];
      assert xs == init + [last];
      Except(init, ys) + (if last in ys then [] else [last])
  }

  /** Filtering out nothing keeps the sequence as it is. */
  lemma {:induction false} ExceptNothing(xs: seq<string>)
    ensures Except(xs, []) == xs
  {
    if xs != [] {
      var init := xs[..|xs| - 1];
      ExceptNothing(init);
      assert xs == init + [xs[|xs| - 1]];
    }
  }

  /** Filtering out every element leaves nothing. */
  lemma {:induction false} ExceptCovered(xs: seq<string>, ys: seq<string>)
    requires forall x :: x in xs ==> x in ys
    ensures Except(xs, ys) == []
  {
    if xs != [] {
      var init := xs[..|xs| - 1];
      assert xs == init + [xs[|xs| - 1]];
      ExceptCovered(init, ys);
    }
  }

  /** Appending an element does not move the first occurrence of an element already present. */
  lemma FirstIndexSnoc(s: seq<string>, x: string, v: string)
    requires v in s
    ensures v in s + [x] && FirstIndex(s + [x], v) == FirstIndex(s, v)
  {
    assert (s + [x])[..|s|] == s;
  }

  /** An element appended to a sequence that lacks it first occurs at the end. */
  lemma FirstIndexSnocNew(s: seq<string>, v: string)
    requires v !in s
    ensures FirstIndex(s + [v], v) == |s|
  {
    assert (s + [v])[..|s|] == s;
  }

  /** A Set built from `xs` lists its members in the order of their first appearance in `xs`. */
  lemma {:induction false} FromSeqOrder(xs: seq<string>)
    ensures InOrderOf(FromSeq(xs), xs)
  {
    if xs != [] {
      var init, last := xs[..|xs| - 1], xs[|xs| - 1];
      assert xs == init + [last];
      FromSeqOrder(init);
      var d := FromSeq(init);
      forall v | v in init ensures FirstIndex(xs, v) == FirstIndex(init, v) {
        FirstIndexSnoc(init, last, v);
      }
      if last !in d {
        FirstIndexSnocNew(init, last);
        assert FromSeq(xs) == d + [last];
      }
    }
  }

  /** Filtering a duplicate-free sequence keeps the order of the survivors. */
  lemma {:induction false} ExceptOrder(xs: seq<string>, ys: seq<string>)
    requires NoDup(xs)
    ensures InOrderOf(Except(xs, ys), xs)
  {
    if xs != [] {
      var init, last := xs[..|xs| - 1], xs[|xs| - 1];
      assert xs == init + [last];
      assert NoDup(init);
      ExceptOrder(init, ys);
      var e := Except(init, ys);
      forall v | v in init ensures FirstIndex(xs, v) == FirstIndex(init, v) {
        FirstIndexSnoc(init, last, v);
      }
      if last !in ys {
        assert last !in init;
        FirstIndexSnocNew(init, last);
        assert Except(xs, ys) == e + [last];
      }
    }
  }
}
