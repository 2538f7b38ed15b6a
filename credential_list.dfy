/**
 * The array operations the handlers apply to a domain's ordered credential
 * list. A credential's identity is its position, so each operation is
 * described by where every entry ends up.
 */
module CredentialList {

  /** `list.splice(i, 1)`: entry `i` leaves, later entries shift down by one. */
  function RemoveAt<T>(c: seq<T>, i: nat): (r: seq<T>)
    requires i < |c|
    ensures |r| == |c| - 1
    ensures forall k :: 0 <= k < i ==> r[k] == c[k]
    ensures forall k :: i <= k < |r| ==> r[k] == c[k + 1]
    ensures multiset(r) + multiset{c[i]} == multiset(c)
  {
    assert c == c[..i] + [c[i]] + c[i + 1..];
    c[..i] + c[i + 1..]
  }

  /** `list.splice(i, 0, x)`: `x` lands at `i`, entries from `i` on shift up. */
  function InsertAt<T>(c: seq<T>, i: nat, x: T): (r: seq<T>)
    requires i <= |c|
    ensures |r| == |c| + 1
    ensures r[i] == x
    ensures forall k :: 0 <= k < i ==> r[k] == c[k]
    ensures forall k :: i < k < |r| ==> r[k] == c[k - 1]
    ensures multiset(r) == multiset(c) + multiset{x}
  {
    assert c == c[..i] + c[i..];
    c[..i] + [x] + c[i..]
  }

  /** Inserting what was removed, where it was, gives the list back; and
      removing what was inserted does too. */
  lemma RemoveInsertInverse<T>(c: seq<T>, i: nat, x: T)
    requires i < |c|
    ensures InsertAt(RemoveAt(c, i), i, c[i]) == c
    ensures RemoveAt(InsertAt(c, i, x), i) == c
  {
    var r := InsertAt(RemoveAt(c, i), i, c[i]);
    assert forall k :: 0 <= k < |c| ==> r[k] == c[k];
  }

  /** `push` then `splice` at the same index restores the list. */
  lemma AppendThenRemoveRestores<T>(c: seq<T>, x: T)
    ensures RemoveAt(c + [x], |c|) == c
  {
    assert (c + [x])[..|c|] == c;
  }

  /** `reorderCredentials`: remove the entry at `from`, then insert it at
      `to` in the shortened list. The result is a permutation of the input
      with the moved entry at `to`; entries outside the span between `from`
      and `to` keep their place and those inside shift by one toward `from`. */
  function Move<T>(c: seq<T>, from: nat, to: nat): (r: seq<T>)
    requires from < |c| && to < |c|
    ensures |r| == |c|
    ensures r[to] == c[from]
    ensures multiset(r) == multiset(c)
    ensures forall k :: 0 <= k < |c| && k < from && k < to ==> r[k] == c[k]
    ensures forall k :: 0 <= k < |c| && k > from && k > to ==> r[k] == c[k]
    ensures forall k :: from <= k < to ==> r[k] == c[k + 1]
    ensures forall k :: to < k <= from ==> r[k] == c[k - 1]
  {
    InsertAt(RemoveAt(c, from), to, c[from])
  }

  /** Moving back undoes a move. */
  lemma MoveUndo<T>(c: seq<T>, from: nat, to: nat)
    requires from < |c| && to < |c|
    ensures Move(Move(c, from, to), to, from) == c
  {
    var m := Move(c, from, to);
    var b := Move(m, to, from);
    forall k | 0 <= k < |c| ensures b[k] == c[k] {
      if k == from {
        assert b[k] == m[to];
      } else if from < to && from < k <= to {
        assert b[k] == m[k - 1] == c[k];
      } else if to < from && to <= k < from {
        assert b[k] == m[k + 1] == c[k];
      } else {
        assert b[k] == m[k] == c[k];
      }
    }
    assert |b| == |c|;
  }

  /** `moveCredentialToTop`: `splice(i, 1)` then `unshift` of the removed
      entry, which is the move of entry `i` to position 0. */
  function MoveToFront<T>(c: seq<T>, i: nat): (r: seq<T>)
    requires i < |c|
    ensures r == Move(c, i, 0)
    ensures r[0] == c[i] && multiset(r) == multiset(c)
  {
    [c[i]] + RemoveAt(c, i)
  }

  /** Promoting the entry already on top changes nothing. */
  lemma MoveToFrontOfFirst<T>(c: seq<T>)
    requires |c| > 0
    ensures MoveToFront(c, 0) == c
  {
    assert [c[0]] + c[1..] == c;
  }

  /** Reordering `[A, B, C, D]` from 2 to 0 gives `[C, A, B, D]`. */
  lemma MoveExample()
    ensures Move(['A', 'B', 'C', 'D'], 2, 0) == ['C', 'A', 'B', 'D']
  {
  }
}
