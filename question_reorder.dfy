/**
 * `QuestionReorder`: the drag-and-drop reordering of the question list.
 * The list is copied into a fresh array; the dragged question is spliced
 * out at the source index and spliced back in at the destination index.
 * On a fixed-length array the two splices amount to shifting the questions
 * between the two indexes by one place and storing the dragged question at
 * the destination, which is how `Move` does it.
 */
module QuestionReorder {
  import opened Wrappers

  /** `s` without its element at `i` (`splice(i, 1)`). */
  function Removed<T>(s: seq<T>, i: nat): (r: seq<T>)
    requires i < |s|
    ensures |r| == |s| - 1
    ensures forall k :: 0 <= k < |r| ==> r[k] == if k < i then s[k] else s[k + 1]
  {
    s[..i] + s[i + 1..]
  }

  /** `x` put into `s` at index `i` (`splice(i, 0, x)`). */
  function Inserted<T>(s: seq<T>, i: nat, x: T): (r: seq<T>)
    requires i <= |s|
    ensures |r| == |s| + 1
    ensures forall k :: 0 <= k < |r| ==> r[k] == if k < i then s[k] else if k == i then x else s[k - 1]
  {
    s[..i] + [x] + s[i..]
  }

  /** The list after dragging the element at `src` to `dst`: removed at `src`, then inserted at `dst`. */
  function Moved<T>(s: seq<T>, src: nat, dst: nat): (r: seq<T>)
    requires src < |s| && dst < |s|
    ensures |r| == |s|
    ensures r[dst] == s[src]
  {
    Inserted(Removed(s, src), dst, s[src])
  }

  /** Where the element at index `k` of the dragged list comes from. */
  function MovedIndex(src: nat, dst: nat, k: nat): nat
  {
    if k == dst then src
    else if src <= k < dst then k + 1
    else if dst < k <= src then k - 1
    else k
  }

  /**
   * Element by element: the dragged element sits at `dst`, the elements
   * strictly between the two positions move one place towards `src`, and
   * every other element stays where it was.
   */
  lemma MovedAt<T>(s: seq<T>, src: nat, dst: nat)
    requires src < |s| && dst < |s|
    ensures forall k :: 0 <= k < |s| ==> MovedIndex(src, dst, k) < |s| && Moved(s, src, dst)[k] == s[MovedIndex(src, dst, k)]
  {
    var rest := Removed(s, src);
    forall k | 0 <= k < |s|
      ensures MovedIndex(src, dst, k) < |s| && Moved(s, src, dst)[k] == s[MovedIndex(src, dst, k)]
    {
      if k < dst {
        assert Moved(s, src, dst)[k] == rest[k];
      } else if k > dst {
        assert Moved(s, src, dst)[k] == rest[k - 1];
      }
    }
  }

  lemma RemovedMultiset<T>(s: seq<T>, i: nat)
    requires i < |s|
    ensures multiset(Removed(s, i)) + multiset{s[i]} == multiset(s)
  {
    assert s == s[..i] + [s[i]] + s[i + 1..];
  }

  lemma InsertedMultiset<T>(s: seq<T>, i: nat, x: T)
    requires i <= |s|
    ensures multiset(Inserted(s, i, x)) == multiset(s) + multiset{x}
  {
    assert s == s[..i] + s[i..];
  }

  /** The drag is a permutation: the same elements, each as often as before. */
  lemma MovedPermutation<T>(s: seq<T>, src: nat, dst: nat)
    requires src < |s| && dst < |s|
    ensures multiset(Moved(s, src, dst)) == multiset(s)
  {
    RemovedMultiset(s, src);
    InsertedMultiset(Removed(s, src), dst, s[src]);
  }

  /** Apart from the dragged element, the others keep their relative order. */
  lemma MovedKeepsOthers<T>(s: seq<T>, src: nat, dst: nat)
    requires src < |s| && dst < |s|
    ensures Removed(Moved(s, src, dst), dst) == Removed(s, src)
  {
  }

  /** Dragging the element back from `dst` to `src` restores the list. */
  lemma MovedBack<T>(s: seq<T>, src: nat, dst: nat)
    requires src < |s| && dst < |s|
    ensures Moved(Moved(s, src, dst), dst, src) == s
  {
    var m := Moved(s, src, dst);
    MovedAt(s, src, dst);
    MovedAt(m, dst, src);
    forall k | 0 <= k < |s|
      ensures Moved(m, dst, src)[k] == s[k]
    {
      assert MovedIndex(src, dst, MovedIndex(dst, src, k)) == k;
    }
  }

  /** Dropping an element where it was picked up changes nothing. */
  lemma MovedInPlace<T>(s: seq<T>, i: nat)
    requires i < |s|
    ensures Moved(s, i, i) == s
  {
    MovedAt(s, i, i);
  }

  /** Shifts `a[src+1..dst+1]` one place down, leaving `a[dst]` as it was. */
  method ShiftDown<T>(a: array<T>, src: nat, dst: nat)
    requires src <= dst < a.Length
    modifies a
    ensures forall j :: 0 <= j < a.Length ==> a[j] == if src <= j < dst then old(a[j + 1]) else old(a[j])
  {
    ghost var o := a[..];
    var k := src;
    while k < dst
      invariant src <= k <= dst
      invariant forall j :: src <= j < k ==> a[j] == o[j + 1]
      invariant forall j :: 0 <= j < src || k <= j < a.Length ==> a[j] == o[j]
    {
      a[k] := a[k + 1];
      k := k + 1;
    }
    assert forall j :: 0 <= j < a.Length ==> o[j] == old(a[j]);
  }

  /** Shifts `a[dst..src]` one place up, leaving `a[dst]` as it was. */
  method ShiftUp<T>(a: array<T>, src: nat, dst: nat)
    requires dst <= src < a.Length
    modifies a
    ensures forall j :: 0 <= j < a.Length ==> a[j] == if dst < j <= src then old(a[j - 1]) else old(a[j])
  {
    ghost var o := a[..];
    var k := src;
    while k > dst
      invariant dst <= k <= src
      invariant forall j :: k < j <= src ==> a[j] == o[j - 1]
      invariant forall j :: 0 <= j <= k || src < j < a.Length ==> a[j] == o[j]
    {
      a[k] := a[k - 1];
      k := k - 1;
    }
    assert forall j :: 0 <= j < a.Length ==> o[j] == old(a[j]);
  }

  /** The two splices on an array: shift the elements between the indexes by one place, then store the dragged one. */
  method Move<T>(a: array<T>, src: nat, dst: nat)
    requires src < a.Length && dst < a.Length
    modifies a
    ensures a[..] == Moved(old(a[..]), src, dst)
  {
    ghost var o := a[..];
    var moved := a[src];
    if src < dst {
      ShiftDown(a, src, dst);
    } else {
      ShiftUp(a, src, dst);
    }
    a[dst] := moved;
    MovedAt(o, src, dst);
    assert forall k :: 0 <= k < a.Length ==> a[k] == o[MovedIndex(src, dst, k)];
  }

  /**
   * `handleDragEnd`: without a destination, or with the destination equal
   * to the source, the reorder callback is not called (`None`); otherwise
   * it is called with a reordered copy, and the list passed in is left as it
   * was.
   */
  method HandleDragEnd<T>(questions: seq<T>, source: nat, destination: Option<nat>) returns (reordered: Option<seq<T>>)
    requires source < |questions|
    requires destination.Some? ==> destination.value < |questions|
    ensures reordered.None? <==> destination.None? || destination.value == source
    ensures reordered.Some? ==> reordered.value == Moved(questions, source, destination.value)
  {
    if destination.None? {
      return None;
    }
    if destination.value == source {
      return None;
    }
    var items := new T[|questions|](i requires 0 <= i < |questions| => questions[i]);
    assert items[..] == questions;
    Move(items, source, destination.value);
    return Some(items[..]);
  }
}
