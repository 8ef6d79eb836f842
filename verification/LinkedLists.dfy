/** Singly linked lists as the shell builds them: cells with a `next` pointer that may be NULL. */
module LinkedLists {

  class Cell<T> {
    var data: T
    var next: Cell?<T>

    constructor (data: T, next: Cell?<T>)
      ensures this.data == data && this.next == next
    {
      this.data, this.next := data, next;
    }
  }

  /** The cell at position `i`, or NULL at the end. */
  ghost function At<T>(spine: seq<Cell<T>>, i: nat): Cell?<T> {
    if i < |spine| then spine[i] else null
  }

  /** `head` points to the cells of `spine`, in order, each once, and they hold `items`. */
  ghost predicate Chain<T>(head: Cell?<T>, spine: seq<Cell<T>>, items: seq<T>)
    reads spine
  {
    && head == At(spine, 0)
    && |items| == |spine|
    && (forall i :: 0 <= i < |spine| ==> spine[i].next == At(spine, i + 1))
    && (forall i :: 0 <= i < |spine| ==> spine[i].data == items[i])
    && (forall i, j :: 0 <= i < j < |spine| ==> spine[i] != spine[j])
  }

  lemma Prepended<T>(cell: Cell<T>, head: Cell?<T>, spine: seq<Cell<T>>, items: seq<T>)
    requires Chain(head, spine, items) && cell !in spine && cell.next == head
    ensures Chain(cell, [cell] + spine, [cell.data] + items)
  {
    var s := [cell] + spine;
    forall i | 0 <= i < |s| ensures s[i].next == At(s, i + 1) && s[i].data == ([cell.data] + items)[i] {
      if i > 0 { assert s[i] == spine[i - 1]; }
    }
  }

  /** After the cell at `at` has been bypassed. */
  lemma Bypassed<T>(head: Cell?<T>, spine: seq<Cell<T>>, items: seq<T>, at: nat)
    requires at < |spine| == |items|
    requires forall i, j :: 0 <= i < j < |spine| ==> spine[i] != spine[j]
    requires forall i :: 0 <= i < |spine| ==> spine[i].data == items[i]
    requires forall i :: 0 <= i < |spine| && i + 1 != at ==> spine[i].next == At(spine, i + 1)
    requires at > 0 ==> spine[at - 1].next == At(spine, at + 1)
    requires head == if at == 0 then At(spine, 1) else spine[0]
    ensures Chain(head, spine[..at] + spine[at + 1..], items[..at] + items[at + 1..])
  {
    var s := spine[..at] + spine[at + 1..];
    forall i | 0 <= i < |s|
      ensures s[i].next == At(s, i + 1) && s[i].data == (items[..at] + items[at + 1..])[i]
      ensures s[i] == spine[if i < at then i else i + 1]
    {
      if i < at { assert s[i] == spine[i]; } else { assert s[i] == spine[i + 1]; }
    }
  }

  /** After `cell` has been hung behind the last one. */
  lemma Appended<T>(head: Cell?<T>, spine: seq<Cell<T>>, items: seq<T>, cell: Cell<T>)
    requires |items| == |spine|
    requires forall i, j :: 0 <= i < j < |spine| ==> spine[i] != spine[j]
    requires forall i :: 0 <= i < |spine| ==> spine[i].data == items[i]
    requires cell !in spine && cell.next == null
    requires forall i :: 0 <= i < |spine| ==> spine[i].next == At(spine + [cell], i + 1)
    requires head == if spine == [] then cell else spine[0]
    ensures Chain(head, spine + [cell], items + [cell.data])
  {
    var s := spine + [cell];
    forall i | 0 <= i < |s|
      ensures s[i].next == At(s, i + 1) && s[i].data == (items + [cell.data])[i]
    {
      if i < |spine| {
        assert s[i] == spine[i];
      } else {
        assert s[i] == cell;
      }
    }
  }
}
