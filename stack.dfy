/**
 * `rocal_ui::data_types::stack::Stack`: a singly linked stack whose `top`
 * node points at the node pushed before it, with a `len` counter.
 */
module DataStack {
  import opened Wrappers

  /** One cell of the list; the Rust cell is never changed after it is linked in. */
  class StackNode<T> {
    const value: T
    const next: StackNode?<T>

    constructor (value: T, next: StackNode?<T>)
      ensures this.value == value && this.next == next
    {
      this.value := value;
      this.next := next;
    }
  }

  class Stack<T> {
    var top: StackNode?<T>
    var len: nat
    /** The values on the stack, bottom first: the top is the last element. */
    ghost var Contents: seq<T>
    /** The cells holding `Contents`, in the same order. */
    ghost var Cells: seq<StackNode<T>>

    ghost predicate Valid()
      reads this
    {
      && |Cells| == |Contents| == len
      && top == (if Cells == [] then null else Cells[|Cells| - 1])
      && (forall i :: 0 <= i < |Cells| ==> Cells[i].value == Contents[i])
      && (Cells != [] ==> Cells[0].next == null)
      && (forall i :: 0 < i < |Cells| ==> Cells[i].next == Cells[i - 1])
    }

    /** `Stack::new`. */
    constructor ()
      ensures Valid() && Contents == []
    {
      top := null;
      len := 0;
      Contents := [];
      Cells := [];
    }

    /** `Stack::push`: the value becomes the top and `len` grows by one. */
    method Push(x: T)
      requires Valid()
      modifies this
      ensures Valid()
      ensures Contents == old(Contents) + [x]
      ensures len == old(len) + 1
    {
      var cell := new StackNode(x, top);
      top := cell;
      len := len + 1;
      Contents := Contents + [x];
      Cells := Cells + [cell];
      assert forall i :: 0 <= i < |Cells| - 1 ==> Cells[i] == old(Cells)[i];
    }

    /** `Stack::pop`: the top value, removed; `None` and no change when empty. */
    method Pop() returns (r: Option<T>)
      requires Valid()
      modifies this
      ensures Valid()
      ensures old(Contents) == [] ==> r == None && Contents == [] && len == 0
      ensures old(Contents) != [] ==>
        && r == Some(old(Contents)[|old(Contents)| - 1])
        && Contents == old(Contents)[..|old(Contents)| - 1]
        && len == old(len) - 1
    {
      if top != null {
        var cell := top;
        top := cell.next;
        len := len - 1;
        r := Some(cell.value);
        assert cell == Cells[|Cells| - 1];
        Contents := Contents[..|Contents| - 1];
        Cells := Cells[..|Cells| - 1];
        assert forall i :: 0 <= i < |Cells| ==> Cells[i] == old(Cells)[i];
      } else {
        r := None;
      }
    }

    /** `Stack::peek`: the top value, leaving the stack as it is. */
    method Peek() returns (r: Option<T>)
      requires Valid()
      ensures r == if Contents == [] then None else Some(Contents[|Contents| - 1])
    {
      if top != null {
        r := Some(top.value);
      } else {
        r := None;
      }
    }
  }

  /**
   * The stack test's scenario: three pushes come back in reverse order, popping
   * an empty stack gives `None` twice, and the emptied stack takes a new value.
   */
  method StackScenario() returns (peeked: Option<int>, pops: seq<Option<int>>)
    ensures peeked == Some(3)
    ensures pops == [Some(3), Some(2), Some(1), None, None, Some(4)]
  {
    var s := new Stack<int>();
    s.Push(1);
    s.Push(2);
    s.Push(3);
    peeked := s.Peek();
    var a := s.Pop();
    var b := s.Pop();
    var c := s.Pop();
    var d := s.Pop();
    var e := s.Pop();
    s.Push(4);
    var f := s.Pop();
    pops := [a, b, c, d, e, f];
  }
}
