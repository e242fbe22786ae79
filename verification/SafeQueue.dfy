/** The queue between the two threads of the client. Each method is one atomic step. */
module SafeQueue {

  class Queue<T> {
    var contents: seq<T>

    constructor ()
      ensures contents == []
    {
      contents := [];
    }

    method Front() returns (x: T)
      requires contents != []
      ensures x == contents[0]
    {
      x := contents[0];
    }

    method Empty() returns (r: bool)
      ensures r <==> contents == []
    {
      r := |contents| == 0;
    }

    method Pop()
      requires contents != []
      modifies this
      ensures contents == old(contents)[1..]
    {
      contents := contents[1..];
    }

    method Push(x: T)
      modifies this
      ensures contents == old(contents) + [x]
    {
      contents := contents + [x];
    }
  }
}
