/** The client's list of accepted requests: a heap-allocated singly linked list. */
module RequestLists {
  import opened Hosting
  import opened Delivery
  import opened Requests

  /** `head` starts a list whose nodes, given oldest first, hold the entries of `log`. */
  ghost predicate Linked(head: Request?, nodes: seq<Request>, log: seq<Accepted>)
    requires |nodes| == |log|
    reads nodes, set n <- nodes :: n.transaction, set n <- nodes :: n.targets
  {
    if nodes == [] then head == null
    else
      var n := |nodes| - 1;
      head == nodes[n] && nodes[n].Holds(log[n]) && Linked(nodes[n].next, nodes[..n], log[..n])
  }

  /** The heap blocks of the list: three a node. */
  ghost function ChainBlocks(nodes: seq<Request>): set<object?>
    reads nodes
  {
    if nodes == [] then {}
    else
      var last := nodes[|nodes| - 1];
      ChainBlocks(nodes[..|nodes| - 1]) + last.Blocks()
  }

  /** No block belongs to the list twice. */
  ghost predicate Separate(nodes: seq<Request>)
    reads nodes
  {
    nodes == [] ||
    (var last := nodes[|nodes| - 1];
     && Separate(nodes[..|nodes| - 1]) && last.Distinct()
     && last.Blocks() !! ChainBlocks(nodes[..|nodes| - 1]))
  }

  /** Exactly three live blocks per accepted request. */
  lemma {:induction false} ThreeBlocksPerRequest(nodes: seq<Request>)
    requires Separate(nodes)
    ensures |ChainBlocks(nodes)| == 3 * |nodes| && null !in ChainBlocks(nodes)
  {
    if nodes != [] {
      var last := nodes[|nodes| - 1];
      ThreeBlocksPerRequest(nodes[..|nodes| - 1]);
      assert |last.Blocks()| == 3;
    }
  }

  /** Every node and its arrays are among the list's blocks. */
  lemma {:induction false} ListWithin(nodes: seq<Request>)
    ensures forall i :: 0 <= i < |nodes| ==>
      nodes[i] in ChainBlocks(nodes) && nodes[i].transaction in ChainBlocks(nodes) && nodes[i].targets in ChainBlocks(nodes)
  {
    if nodes != [] {
      ListWithin(nodes[..|nodes| - 1]);
    }
  }

  /** `head` is a list over exactly `blocks` that holds `log`. */
  ghost predicate ListIs(head: Request?, nodes: seq<Request>, log: seq<Accepted>, blocks: set<object?>)
    reads blocks
  {
    && (forall i :: 0 <= i < |nodes| ==> nodes[i] in blocks && nodes[i].transaction in blocks && nodes[i].targets in blocks)
    && Separate(nodes) && blocks == ChainBlocks(nodes)
    && |nodes| == |log| && Linked(head, nodes, log)
  }

  /** Linking a request in front. */
  lemma ListGrows(head: Request?, nodes: seq<Request>, log: seq<Accepted>, blocks: set<object?>, request: Request, a: Accepted)
    requires ListIs(head, nodes, log, blocks)
    requires request.Holds(a) && request.next == head && request.Distinct() && request.Blocks() !! blocks
    ensures ListIs(request, nodes + [request], log + [a], blocks + request.Blocks())
  {
    var more, entries := nodes + [request], log + [a];
    assert more[..|more| - 1] == nodes && entries[..|entries| - 1] == log;
    assert Separate(more) && Linked(request, more, entries);
  }

  /** Unlinking the newest request. */
  lemma ListShrinks(head: Request, nodes: seq<Request>, log: seq<Accepted>, blocks: set<object?>)
    requires ListIs(head, nodes, log, blocks)
    ensures
      var n := |nodes| - 1;
      var rest := ChainBlocks(nodes[..n]);
      && n >= 0 && ListIs(head.next, nodes[..n], log[..n], rest)
      && blocks == rest + head.Blocks() && rest !! head.Blocks() && head.Distinct()
  {
    ListWithin(nodes[..|nodes| - 1]);
  }

  /** Node `i` of the list, field by field, and the node it points to. */
  lemma {:induction false} LinkedAt(head: Request?, nodes: seq<Request>, log: seq<Accepted>, i: nat)
    requires i < |nodes| == |log| && Linked(head, nodes, log)
    ensures head == nodes[|nodes| - 1] && nodes[i].next == if i == 0 then null else nodes[i - 1]
    ensures
      var r, a := nodes[i], log[i];
      && r.id == a.id && r.generation == a.generation && r.routingSlot == a.routingSlot
      && r.state == a.state && r.nextSequence == a.nextSequence
      && r.transaction != null && r.transactionLength == r.transaction.Length && r.transaction[..] == a.transaction
      && r.targets != null && r.targetCount == r.targets.Length && r.targets[..] == a.targets
  {
    var n := |nodes| - 1;
    if i < n {
      LinkedAt(nodes[n].next, nodes[..n], log[..n], i);
    } else if n > 0 {
      LinkedAt(nodes[n].next, nodes[..n], log[..n], 0);
    }
  }

  /** `request_head` and the list behind it. */
  class RequestList {
    var head: Request?

    /** What the list holds, oldest first; its nodes in the same order; and its heap blocks. */
    ghost var log: seq<Accepted>
    ghost var nodes: seq<Request>
    ghost var blocks: set<object?>

    ghost predicate Valid()
      reads this, blocks
    {
      ListIs(head, nodes, log, blocks)
    }

    constructor ()
      ensures Valid() && log == [] && blocks == {}
    {
      head := null;
      log, nodes, blocks := [], [], {};
    }

    /** Exactly three blocks per accepted request. */
    lemma CountBlocks()
      requires Valid()
      ensures |blocks| == 3 * |log| && null !in blocks
    {
      ThreeBlocksPerRequest(nodes);
    }

    /** The heap holds exactly the logged requests, newest at the head, each pointing at the one
        accepted before it. */
    lemma NodesHoldLog(i: nat)
      requires Valid() && i < |log|
      ensures i < |nodes| == |log| && head == nodes[|nodes| - 1]
      ensures nodes[i].next == if i == 0 then null else nodes[i - 1]
      ensures
        var r, a := nodes[i], log[i];
        && r.id == a.id && r.generation == a.generation && r.routingSlot == a.routingSlot
        && r.state == a.state && r.nextSequence == a.nextSequence
        && r.transaction != null && r.transactionLength == r.transaction.Length && r.transaction[..] == a.transaction
        && r.targets != null && r.targetCount == r.targets.Length && r.targets[..] == a.targets
    {
      LinkedAt(head, nodes, log, i);
    }

    /** A new newest request. */
    method Prepend(request: Request, ghost a: Accepted)
      requires Valid() && request.Holds(a) && request.next == head
      requires request.Distinct() && request.Blocks() !! blocks && this !in blocks
      modifies this
      ensures Valid() && log == old(log) + [a]
      ensures blocks == old(blocks) + request.Blocks()
    {
      ListGrows(head, nodes, log, blocks, request, a);
      hide ListIs, Linked, Separate, ChainBlocks, Request.Holds, Request.Distinct;
      head := request;
      blocks, nodes, log := blocks + request.Blocks(), nodes + [request], log + [a];
    }

    /** The newest request leaves the list with its three blocks. */
    method Unlink() returns (request: Request)
      requires Valid() && head != null && this !in blocks
      modifies this
      ensures Valid() && |nodes| < |old(nodes)|
      ensures old(blocks) == blocks + request.Blocks() && blocks !! request.Blocks()
      ensures request.Distinct() && null !in old(blocks)
    {
      CountBlocks();
      ListShrinks(head, nodes, log, blocks);
      hide ListIs, Linked, Separate, ChainBlocks, Request.Distinct;
      ghost var fewer, entries := nodes[..|nodes| - 1], log[..|log| - 1];
      ghost var rest := ChainBlocks(fewer);
      request := head;
      head := request.next;
      blocks, nodes, log := rest, fewer, entries;
    }

    /** One turn of the release loop. */
    method ReleaseNewest(host: Host)
      requires Valid() && head != null && host.Valid() && blocks <= host.live && host !in blocks && this !in blocks
      modifies this, host, blocks
      ensures Valid() && |nodes| < |old(nodes)| && blocks <= old(blocks)
      ensures host.Valid() && host.live == old(host.live) - (old(blocks) - blocks) + {null} && blocks <= host.live
      ensures host.allocations == old(host.allocations) && host.samples == old(host.samples)
    {
      var request := Unlink();
      FreeRequest(host, request);
    }

    /** `owned_requests_release`: every block of the list is freed, each once. */
    method Release(host: Host)
      requires Valid() && host.Valid() && blocks <= host.live && host !in blocks && this !in blocks
      modifies this, host, blocks
      ensures Valid() && head == null && log == [] && blocks == {}
      ensures host.Valid() && host.live == old(host.live) - old(blocks) + {null}
      ensures host.allocations == old(host.allocations) && host.samples == old(host.samples)
    {
      ghost var all := blocks;
      while head != null
        invariant Valid() && host.Valid() && blocks <= host.live && blocks <= all
        invariant host.live == old(host.live) - (all - blocks) + {null}
        invariant host.allocations == old(host.allocations) && host.samples == old(host.samples)
        decreases |nodes|
      {
        ReleaseNewest(host);
      }
    }
  }

  method FreeRequest(host: Host, request: Request)
    requires host.Valid()
    requires request.Blocks() <= host.live && request.Distinct()
    modifies host, request, request.transaction, request.targets
    ensures host.Valid() && host.allocations == old(host.allocations) && host.samples == old(host.samples)
    ensures host.live == old(host.live) - old(request.Blocks()) + {null}
  {
    host.Free(request.transaction);
    host.Free(request.targets);
    host.Free(request);
  }
}
