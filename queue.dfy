/**
 * `rocal_ui::data_types::queue::Queue`: a doubly linked queue with `start`,
 * `end` and a `len` counter. Values leave at `start`, arrive behind `end`.
 *
 * As written, `dequeue` of the last element clears `start` but keeps `end`
 * pointing at the removed cell. Until an extra `dequeue` on the empty queue
 * clears `end`, the queue is "stale": an `enqueue` links the new cell behind
 * the removed one, `start` stays empty, and the value can never be dequeued.
 * `DequeueFixed` is the evidently intended `dequeue`, which clears both.
 */
module DataQueue {
  import opened Wrappers

  class QueueNode<T> {
    var right: QueueNode?<T>
    var left: QueueNode?<T>
    const value: T

    constructor (value: T)
      ensures this.value == value && right == null && left == null
    {
      this.value := value;
      right := null;
      left := null;
    }
  }

  class Queue<T> {
    var start: QueueNode?<T>
    var end: QueueNode?<T>
    var len: nat
    /** The values reachable from `start`, front first. */
    ghost var Contents: seq<T>
    /** The cells reachable from `start`, in the same order. */
    ghost var Cells: seq<QueueNode<T>>
    /** The most recently enqueued value while `end` is set: what `peek` returns. */
    ghost var Newest: Option<T>
    ghost var Repr: set<object>

    /** `start` is empty while `end` still points at a removed cell. */
    ghost predicate Stale()
      reads this
    {
      start == null && end != null
    }

    ghost predicate Valid()
      reads this, Repr
    {
      && this in Repr
      && (end != null ==> end in Repr)
      && (forall i :: 0 <= i < |Cells| ==> Cells[i] in Repr)
      && |Cells| == |Contents|
      && (forall i :: 0 <= i < |Cells| ==> Cells[i].value == Contents[i])
      && (forall i, j :: 0 <= i < j < |Cells| ==> Cells[i] != Cells[j])
      && (forall i :: 0 < i < |Cells| ==> Cells[i - 1].right == Cells[i])
      && start == (if Cells == [] then null else Cells[0])
      && (Cells != [] ==> end == Cells[|Cells| - 1] && end.right == null)
      && (end == null <==> Newest == None)
      && (end != null ==> Newest == Some(end.value))
      // while stale, `len` counts values that no `dequeue` can reach
      && (!Stale() ==> len == |Contents|)
    }

    /** `Queue::new`. */
    constructor ()
      ensures Valid() && fresh(Repr)
      ensures Contents == [] && len == 0 && !Stale() && Newest == None
    {
      start := null;
      end := null;
      len := 0;
      Contents := [];
      Cells := [];
      Newest := None;
      Repr := {this};
    }

    /**
     * `Queue::enqueue`: the value goes behind `end` and `len` grows by one. On a
     * stale queue the value is linked behind the removed cell and is lost.
     */
    method Enqueue(x: T)
      requires Valid()
      modifies Repr
      ensures Valid() && fresh(Repr - old(Repr))
      ensures Contents == if old(Stale()) then old(Contents) else old(Contents) + [x]
      ensures len == old(len) + 1
      ensures Stale() == old(Stale())
      ensures Newest == Some(x)
    {
      var cell := new QueueNode(x);
      if end != null {
        end.right := cell;
        cell.left := end;
      } else {
        start := cell;
      }
      end := cell;
      len := len + 1;
      Repr := Repr + {cell};
      Newest := Some(x);
      if start != null {
        Contents := Contents + [x];
        Cells := Cells + [cell];
        assert forall i :: 0 <= i < |Cells| - 1 ==> Cells[i] == old(Cells)[i];
      }
    }

    /**
     * `Queue::dequeue`: with `len > 0` the front value, removed, when `start`
     * holds one (a stale queue gives `None` and stays unchanged); with
     * `len == 0`, `None`, and both `start` and `end` are cleared.
     */
    method Dequeue() returns (r: Option<T>)
      requires Valid()
      modifies Repr
      ensures Valid() && Repr == old(Repr)
      ensures r == if old(len) > 0 && old(Contents) != [] then Some(old(Contents)[0]) else None
      ensures Contents == if r.Some? then old(Contents)[1..] else old(Contents)
      ensures len == if r.Some? then old(len) - 1 else old(len)
      ensures old(len) == 0 ==> start == null && end == null && Newest == None
      ensures r.Some? ==> Newest == old(Newest) && Stale() == (Contents == [])
      ensures old(len) > 0 && r.None? ==> Stale() && Newest == old(Newest)
    {
      r := None;
      if len > 0 {
        if start != null {
          var cell := start;
          start := cell.right;
          cell.left := null;
          cell.right := null;
          len := len - 1;
          r := Some(cell.value);
          Contents := Contents[1..];
          Cells := Cells[1..];
          assert forall i :: 0 <= i < |Cells| ==> Cells[i] == old(Cells)[i + 1];
        }
      } else {
        start := null;
        end := null;
        Newest := None;
      }
    }

    /**
     * `dequeue` as evidently intended: removing the last value also clears
     * `end`, so the queue never becomes stale.
     */
    method DequeueFixed() returns (r: Option<T>)
      requires Valid()
      modifies Repr
      ensures Valid() && Repr == old(Repr)
      ensures r == if old(len) > 0 && old(Contents) != [] then Some(old(Contents)[0]) else None
      ensures Contents == if r.Some? then old(Contents)[1..] else old(Contents)
      ensures len == if r.Some? then old(len) - 1 else old(len)
      ensures !old(Stale()) ==> !Stale()
    {
      r := None;
      if len > 0 {
        if start != null {
          var cell := start;
          start := cell.right;
          cell.left := null;
          cell.right := null;
          len := len - 1;
          r := Some(cell.value);
          Contents := Contents[1..];
          Cells := Cells[1..];
          assert forall i :: 0 <= i < |Cells| ==> Cells[i] == old(Cells)[i + 1];
          if start == null {
            end := null;
            Newest := None;
          }
        }
      } else {
        start := null;
        end := null;
        Newest := None;
      }
    }

    /** `Queue::peek`: the value at `end`, the most recently enqueued one, without changing the queue. */
    method Peek() returns (r: Option<T>)
      requires Valid()
      ensures r == Newest
    {
      if end != null {
        r := Some(end.value);
      } else {
        r := None;
      }
    }
  }

  /** The queue test's first scenario: values leave in the order they arrived. */
  method QueueScenario() returns (out: seq<Option<int>>)
    ensures out == [Some(1), Some(2), Some(3), Some(4), None, Some(5), None]
  {
    var q := new Queue<int>();
    q.Enqueue(1);
    q.Enqueue(2);
    q.Enqueue(3);
    var a := q.Dequeue();
    var b := q.Dequeue();
    q.Enqueue(4);
    var c := q.Dequeue();
    var d := q.Dequeue();
    var e := q.Dequeue();
    q.Enqueue(5);
    var f := q.Dequeue();
    var g := q.Dequeue();
    out := [a, b, c, d, e, f, g];
  }

  /** The queue test's second scenario: three values, then four dequeues. */
  method ThreeInFourOut() returns (out: seq<Option<int>>)
    ensures out == [Some(1), Some(2), Some(3), None]
  {
    var q := new Queue<int>();
    q.Enqueue(1);
    q.Enqueue(2);
    q.Enqueue(3);
    var a := q.Dequeue();
    var b := q.Dequeue();
    var c := q.Dequeue();
    var d := q.Dequeue();
    out := [a, b, c, d];
  }

  /**
   * As written: enqueueing right after the last value has been dequeued loses
   * the new value, and `peek` still reports the removed one before that.
   */
  method RefillAfterDrain() returns (peeked: Option<int>, r: Option<int>, len: nat)
    ensures peeked == Some(1)
    ensures r == None && len == 1
  {
    var q := new Queue<int>();
    q.Enqueue(1);
    var a := q.Dequeue();
    peeked := q.Peek();
    q.Enqueue(2);
    r := q.Dequeue();
    len := q.len;
  }

  /** With the corrected `dequeue`, the refilled value comes back out. */
  method RefillAfterDrainFixed() returns (r: Option<int>)
    ensures r == Some(2)
  {
    var q := new Queue<int>();
    q.Enqueue(1);
    var a := q.DequeueFixed();
    q.Enqueue(2);
    r := q.DequeueFixed();
  }
}
