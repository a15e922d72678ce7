/** The linked queue in the pool: what `enqueue` and `dequeue` do to the chain is what accepting
    and dequeueing do to the queue of the step system, numbers included. */
module PoolQueue {
  import opened RequestQueue
  import opened HttpdPool

  /** The chain holds the queued requests under their numbers, in order. */
  ghost predicate Refines(q: Queue, s: State)
    reads q, q.nodes
  {
    && q.Valid() && q.nextSeq == s.nextSeq && |q.nodes| == |s.queue|
    && forall i :: 0 <= i < |q.nodes| ==> q.nodes[i].ticket == s.queue[i]
  }

  /** The main thread accepts a connection; the number it is given is the one it is logged under. */
  method AcceptRequest(q: Queue, req: Request, wake: nat, ghost s: State)
    requires Refines(q, s) && Enabled(s, Accept(wake)) && req !in q.nodes && req.next == null
    modifies q, q.nodes, req
    ensures Refines(q, Next(s, Accept(wake))) && req.ticket == s.nextSeq
  {
    ghost var before := q.nodes;
    q.Enqueue(req);
    forall i | 0 <= i < |q.nodes| ensures q.nodes[i].ticket == Next(s, Accept(wake)).queue[i] {
      assert i < |before| ==> q.nodes[i].ticket == s.nextSeq - |before| + i;
    }
  }

  /** A worker dequeues: it gets the oldest request, under its number, or goes to sleep exactly
      when there is none. */
  method TakeRequest(q: Queue, w: nat, ghost s: State) returns (req: Request?)
    requires Refines(q, s) && Enabled(s, Dequeue(w))
    modifies q
    ensures Refines(q, Next(s, Dequeue(w)))
    ensures Next(s, Dequeue(w)).workers[w] == if req == null then QueueWait(false) else Handling(req.ticket)
  {
    req := q.Dequeue();
  }

  /** Before the first connection. */
  lemma StartRefines(q: Queue, s: State)
    requires Start(s) && q.Valid() && q.nodes == [] && q.nextSeq == 0
    ensures Refines(q, s)
  {
  }
}
