/**
 Singly linked lists and their reversal by rewriting the links, which turns every list that
 was built by prepending back into the order it was built in.
 */
module LinkedList {

  class Cell<T> {
    var value: T
    var next: Cell?<T>

    constructor (value: T, next: Cell?<T>)
      ensures this.value == value && this.next == next
    {
      this.value, this.next := value, next;
    }
  }

  function At<T>(cells: seq<Cell<T>>, k: int): Cell?<T> {
    if 0 <= k < |cells| then cells[k] else null
  }

  /** The list starting at `head` runs through exactly `cells`, in order, and ends there. */
  ghost predicate Runs<T>(head: Cell?<T>, cells: seq<Cell<T>>)
    reads cells
  {
    head == At(cells, 0)
    && (forall i :: 0 <= i < |cells| ==> cells[i].next == At(cells, i + 1))
    && Distinct(cells)
  }

  ghost predicate Distinct<T>(cells: seq<Cell<T>>) {
    forall i, j :: 0 <= i < j < |cells| ==> cells[i] != cells[j]
  }

  lemma OthersDiffer<T>(cells: seq<Cell<T>>, i: nat)
    requires Distinct(cells) && i < |cells|
    ensures forall k :: 0 <= k < |cells| && k != i ==> cells[k] != cells[i]
  {
  }

  function Reversed<T>(s: seq<T>): (r: seq<T>)
    ensures |r| == |s|
  {
    if s == [] then [] else Reversed(s[1..]) + [s[0]]
  }

  lemma {:induction false} ReversedAt<T>(s: seq<T>, k: nat)
    requires k < |s|
    ensures Reversed(s)[k] == s[|s| - 1 - k]
  {
    if k < |s| - 1 { ReversedAt(s[1..], k); }
  }

  lemma {:induction false} ReversedAppend<T>(s: seq<T>, x: T)
    ensures Reversed(s + [x]) == [x] + Reversed(s)
  {
    if s == [] {
      assert [] + [x] == [x] && [x][1..] == [];
    } else {
      ReversedAppend(s[1..], x);
      assert (s + [x])[1..] == s[1..] + [x];
    }
  }

  lemma {:induction false} ReversedTwice<T>(s: seq<T>)
    ensures Reversed(Reversed(s)) == s
  {
    if s != [] {
      ReversedAppend(Reversed(s[1..]), s[0]);
      ReversedTwice(s[1..]);
    }
  }

  /** Links so far turned round: before `i` they point back, from `i` on still forward. */
  ghost predicate Turned<T>(links: seq<Cell?<T>>, cells: seq<Cell<T>>, i: int) {
    |links| == |cells| && forall k :: 0 <= k < |cells| ==> links[k] == At(cells, if k < i then k - 1 else k + 1)
  }

  ghost function Links<T>(cells: seq<Cell<T>>): (links: seq<Cell?<T>>)
    reads cells
  {
    seq(|cells|, k reads cells requires 0 <= k < |cells| => cells[k].next)
  }

  lemma RunsForward<T>(head: Cell?<T>, cells: seq<Cell<T>>)
    requires Runs(head, cells)
    ensures Turned(Links(cells), cells, 0)
  {
    hide At;
  }

  lemma TurnOne<T>(links: seq<Cell?<T>>, cells: seq<Cell<T>>, i: nat)
    requires i < |cells| && Turned(links, cells, i)
    ensures links[i] == At(cells, i + 1)
    ensures Turned(links[i := At(cells, i - 1)], cells, i + 1)
  {
    hide At;
  }

  lemma TurnedIsReverse<T>(cells: seq<Cell<T>>)
    requires Distinct(cells) && Turned(Links(cells), cells, |cells|)
    ensures Runs(At(cells, |cells| - 1), Reversed(cells))
  {
    hide Reversed;
    var n, back := |cells|, Reversed(cells);
    forall k | 0 <= k < n ensures back[k] == cells[n - 1 - k] { ReversedAt(cells, k); }
    forall k | 0 <= k < n ensures back[k].next == At(back, k + 1) {
      assert back[k] == cells[n - 1 - k];
      assert Links(cells)[n - 1 - k] == At(cells, n - 2 - k);
    }
  }

  /** Afterwards the same cells, their values untouched, are linked the other way round. */
  method Reverse<T>(list: Cell?<T>, ghost cells: seq<Cell<T>>) returns (head: Cell?<T>)
    requires Runs(list, cells)
    modifies cells`next
    ensures Runs(head, Reversed(cells))
  {
    hide Reversed, Distinct, Turned;
    RunsForward(list, cells);
    head := null;
    var rest := list;
    ghost var i := 0;
    while rest != null
      invariant 0 <= i <= |cells|
      invariant rest == At(cells, i) && head == At(cells, i - 1)
      invariant Turned(Links(cells), cells, i)
      decreases |cells| - i
    {
      ghost var was := Links(cells);
      OthersDiffer(cells, i);
      TurnOne(was, cells, i);
      var next := rest.next;
      rest.next := head;
      assert Links(cells) == was[i := head];
      head := rest;
      rest := next;
      i := i + 1;
    }
    TurnedIsReverse(cells);
  }

  /** The same loop where a list is a sequence: heads of the one are prepended to the other. */
  method ReverseValues<T>(list: seq<T>) returns (prev: seq<T>)
    ensures prev == Reversed(list)
  {
    hide Reversed;
    prev := NothingYet();
    var rest := list;
    while rest != []
      invariant |rest| <= |list| && rest == list[|list| - |rest|..]
      invariant prev == Reversed(list[..|list| - |rest|])
    {
      ghost var i := |list| - |rest|;
      ReversedAppend(list[..i], list[i]);
      assert list[..i + 1] == list[..i] + [list[i]];
      prev := [rest[0]] + prev;
      rest := rest[1..];
    }
    assert list[..|list|] == list;
  }

  /** The empty list an accumulation starts from. */
  function NothingYet<T>(): (s: seq<T>)
    ensures s == [] && s == Reversed([])
  {
    []
  }
}
