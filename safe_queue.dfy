/** The thread-safe FIFO queue used between the ARQ stages, with its mutex and
    condition variable dropped: only the sequential effect of each operation is
    modelled, and the wait in pop_wait becomes the precondition that the queue
    is not empty. */
module SafeQueues {
  import opened ArqBasics

  class SafeQueue<T> {
    /** The queued elements, front first. */
    var contents: seq<T>

    constructor ()
      ensures contents == []
    {
      contents := [];
    }

    /** Adds an element at the back. */
    method Push(value: T)
      modifies this
      ensures contents == old(contents) + [value]
    {
      contents := contents + [value];
    }

    /** Removes and returns the front element. */
    method PopWait() returns (value: T)
      requires contents != []
      modifies this
      ensures [value] + contents == old(contents)
    {
      value := contents[0];
      contents := contents[1..];
    }

    /** Removes and returns the front element, or returns None and changes
        nothing when the queue is empty. */
    method TryPop() returns (r: Option<T>)
      modifies this
      ensures old(contents) == [] ==> r == None && contents == []
      ensures old(contents) != [] ==> r.Some? && [r.value] + contents == old(contents)
    {
      if contents == [] {
        return None;
      }
      r := Some(contents[0]);
      contents := contents[1..];
    }

    function Empty(): (r: bool)
      reads this
      ensures r <==> Size() == 0
    {
      |contents| == 0
    }

    function Size(): (r: nat)
      reads this
      ensures r == |contents|
    {
      |contents|
    }
  }

  /** Elements pushed one after another come out of pop_wait in the order they
      were pushed, and the queue is empty again afterwards. */
  method PushThenPop<T>(items: seq<T>) returns (popped: seq<T>, emptyAfter: bool)
    ensures popped == items
    ensures emptyAfter
  {
    var queue := new SafeQueue<T>();
    var i := 0;
    while i < |items|
      invariant 0 <= i <= |items|
      invariant queue.contents == items[..i]
    {
      queue.Push(items[i]);
      i := i + 1;
    }
    popped := [];
    while i > 0
      invariant 0 <= i <= |items|
      invariant |queue.contents| == i
      invariant popped + queue.contents == items
    {
      var value := queue.PopWait();
      popped := popped + [value];
      i := i - 1;
    }
    emptyAfter := queue.Empty();
  }
}
