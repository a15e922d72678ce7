/** The linked list behind `enqueue` and `dequeue`. */
module RequestQueue {

  class Request {
    var clientFd: int
    var ticket: nat
    var next: Request?

    constructor (fd: int)
      ensures clientFd == fd && next == null
    {
      clientFd, ticket, next := fd, 0, null;
    }
  }

  function After(nodes: seq<Request>, i: nat): Request? {
    if i + 1 < |nodes| then nodes[i + 1] else null
  }

  class Queue {
    var head: Request?
    var tail: Request?
    var nextSeq: nat
    ghost var nodes: seq<Request>

    /** The chain from head to tail runs through `nodes`, without repetition. */
    ghost predicate Valid()
      reads this, nodes
    {
      && (head == if nodes == [] then null else nodes[0])
      && (tail == if nodes == [] then null else nodes[|nodes| - 1])
      && (forall i :: 0 <= i < |nodes| ==> nodes[i].next == After(nodes, i))
      && (forall i, j :: 0 <= i < j < |nodes| ==> nodes[i] != nodes[j])
      && |nodes| <= nextSeq
      && (forall i :: 0 <= i < |nodes| ==> nodes[i].ticket == nextSeq - |nodes| + i)
    }

    constructor ()
      ensures Valid() && nodes == [] && nextSeq == 0
    {
      head, tail, nextSeq, nodes := null, null, 0, [];
    }

    /** Appends a fresh request under the next number. */
    method Enqueue(req: Request)
      requires Valid() && req !in nodes && req.next == null
      modifies this, nodes, req
      ensures Valid() && nodes == old(nodes) + [req]
      ensures req.ticket == old(nextSeq) && nextSeq == old(nextSeq) + 1
      ensures req.clientFd == old(req.clientFd)
    {
      req.ticket := nextSeq;
      nextSeq := nextSeq + 1;
      if tail == null {
        head := req;
      } else {
        tail.next := req;
      }
      tail := req;
      nodes := nodes + [req];
    }

    /** Removes the oldest request; null when there is none, where the source would wait. */
    method Dequeue() returns (req: Request?)
      requires Valid()
      modifies this`head, this`tail, this`nodes
      ensures Valid() && nextSeq == old(nextSeq)
      ensures req == null <==> old(nodes) == []
      ensures req != null ==> req == old(nodes)[0] && nodes == old(nodes)[1..]
      ensures req != null ==> req.ticket == nextSeq - |old(nodes)|
      ensures req == null ==> nodes == []
    {
      if head == null {
        return null;
      }
      req := head;
      head := req.next;
      if head == null {
        tail := null;
      }
      ghost var before := nodes;
      nodes := nodes[1..];
      forall i | 0 <= i < |nodes|
        ensures nodes[i].next == After(nodes, i) && nodes[i].ticket == nextSeq - |nodes| + i
      {
        assert nodes[i] == before[i + 1] && After(nodes, i) == After(before, i + 1);
      }
    }
  }
}
