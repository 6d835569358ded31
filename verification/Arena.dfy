/**
  The arena allocator (src/arena.cpp): a chain of blocks, each twice the size of the one before.
*/
module Arena {

  /** Size of a block and how much of it is given away. */
  datatype Link = Link(size: nat, index: nat)

  /** `size` bytes of block `block` of the chain, from `start` on. */
  datatype Region = Region(block: nat, start: nat, size: nat)

  predicate LinksOk(links: seq<Link>) {
    && links != []
    && (forall k :: 0 <= k < |links| ==> 0 < links[k].size && links[k].index <= links[k].size)
    && (forall k :: 0 < k < |links| ==> links[k].size == 2 * links[k - 1].size)
  }

  function LastSize(links: seq<Link>): nat {
    if links == [] then 0 else links[|links| - 1].size
  }

  /** What a request adds to a chain: the first block from `k` on with room serves it, or a new
      last block of twice the size, and so on until one is large enough. */
  function Allocated(links: seq<Link>, k: nat, size: nat): (r: (seq<Link>, Region))
    requires LinksOk(links) && k < |links|
    ensures LinksOk(r.0) && |links| <= |r.0| && r.1.block < |r.0|
    decreases if size > LastSize(links) then size - LastSize(links) else 0, |links| - k, links[k].index
  {
    var link := links[k];
    if size <= link.size - link.index then
      (links[k := link.(index := link.index + size)], Region(k, link.index, size))
    else if k + 1 < |links| then Allocated(links, k + 1, size)
    else Allocated(links + [Link(2 * link.size, 0)], k + 1, size)
  }

  class Block {
    const size: nat
    var index: nat
    var next: Block?

    constructor (size: nat)
      ensures this.size == size && index == 0 && next == null
    {
      this.size := size;
      index, next := 0, null;
    }
  }

  ghost function Links(chain: seq<Block>): (r: seq<Link>)
    reads chain
    ensures |r| == |chain| && forall k :: 0 <= k < |chain| ==> r[k] == Link(chain[k].size, chain[k].index)
  {
    seq(|chain|, k requires 0 <= k < |chain| reads chain => Link(chain[k].size, chain[k].index))
  }

  /** The blocks reached from the first one through `next`. */
  ghost predicate ChainOk(chain: seq<Block>)
    reads chain
  {
    && LinksOk(Links(chain)) && chain[|chain| - 1].next == null
    && (forall i, j :: 0 <= i < j < |chain| ==> chain[i] != chain[j])
    && (forall k :: 0 <= k < |chain| - 1 ==> chain[k].next == chain[k + 1])
  }

  /** `arena_create` of the next block. */
  method Extend(cont: Block, ghost chain: seq<Block>) returns (last: Block)
    requires ChainOk(chain) && cont == chain[|chain| - 1]
    modifies cont`next
    ensures fresh(last) && cont.next == last && ChainOk(chain + [last])
    ensures Links(chain + [last]) == old(Links(chain)) + [Link(2 * cont.size, 0)]
  {
    ghost var before := Links(chain);
    last := new Block(2 * cont.size);
    cont.next := last;
    assert Links(chain) == before;
    assert Links(chain + [last]) == old(Links(chain)) + [Link(2 * cont.size, 0)];
  }

  method Take(cont: Block, request: nat, ghost chain: seq<Block>, ghost k: nat)
    requires ChainOk(chain) && k < |chain| && chain[k] == cont && request <= cont.size - cont.index
    modifies cont`index
    ensures ChainOk(chain) && cont.index == old(cont.index) + request
    ensures Links(chain) == old(Links(chain))[k := Link(cont.size, cont.index)]
  {
    cont.index := cont.index + request;
    assert Links(chain) == old(Links(chain))[k := Link(cont.size, cont.index)];
  }

  /** `arena_allocate` on the block at position `k` of its chain. */
  method Allocate(cont: Block, request: nat, ghost chain: seq<Block>, ghost k: nat)
    returns (at: Block, start: nat, ghost after: seq<Block>, ghost region: Region)
    requires ChainOk(chain) && k < |chain| && chain[k] == cont
    modifies chain
    ensures chain <= after && ChainOk(after) && forall i :: |chain| <= i < |after| ==> fresh(after[i])
    ensures (Links(after), region) == Allocated(old(Links(chain)), k, request)
    ensures region.block < |after| && at == after[region.block] && start == region.start
    decreases if request > LastSize(Links(chain)) then request - LastSize(Links(chain)) else 0, |chain| - k, cont.index
  {
    ghost var links := Links(chain);
    if request <= cont.size - cont.index {
      start := cont.index;
      Take(cont, request, chain, k);
      return cont, start, chain, Region(k, start, request);
    }
    assert k < |chain| - 1 ==> cont.next == chain[k + 1];
    if cont.next != null {
      at, start, after, region := Allocate(cont.next, request, chain, k + 1);
    } else {
      var last := Extend(cont, chain);
      at, start, after, region := Allocate(last, request, chain + [last], k + 1);
    }
  }

  // ----- any number of requests -----

  function Chain(links: seq<Link>, requests: seq<nat>): seq<Link>
    requires LinksOk(links)
    decreases |requests|
  {
    if requests == [] then links else Chain(Allocated(links, 0, requests[0]).0, requests[1..])
  }

  /** The regions handed out for a list of requests, in order. */
  function Regions(links: seq<Link>, requests: seq<nat>): seq<Region>
    requires LinksOk(links)
    decreases |requests|
  {
    if requests == [] then [] else
    var r := Allocated(links, 0, requests[0]);
    [r.1] + Regions(r.0, requests[1..])
  }

  /** No byte of the region is given away in `links`. */
  predicate Unused(links: seq<Link>, r: Region) {
    r.block < |links| ==> links[r.block].index <= r.start
  }

  predicate Inside(links: seq<Link>, r: Region) {
    r.block < |links| && r.start + r.size <= links[r.block].size
  }

  predicate Disjoint(a: Region, b: Region) {
    a.block != b.block || a.start + a.size <= b.start || b.start + b.size <= a.start
  }

  /** Blocks only fill up: sizes stay, what is given away stays given away. */
  predicate Fills(links: seq<Link>, links': seq<Link>) {
    && |links| <= |links'|
    && forall k :: 0 <= k < |links| ==> links'[k].size == links[k].size && links[k].index <= links'[k].index
  }

  /** A request is served behind everything given away before, inside one block. */
  lemma {:induction false} Served(links: seq<Link>, k: nat, size: nat)
    requires LinksOk(links) && k < |links|
    ensures var r := Allocated(links, k, size);
            && Fills(links, r.0) && r.1.size == size && Unused(links, r.1) && Inside(r.0, r.1)
            && r.0[r.1.block].index == r.1.start + size
    decreases if size > LastSize(links) then size - LastSize(links) else 0, |links| - k, links[k].index
  {
    var link := links[k];
    if size > link.size - link.index {
      if k + 1 < |links| {
        Served(links, k + 1, size);
      } else {
        Served(links + [Link(2 * link.size, 0)], k + 1, size);
      }
    }
  }

  /** The blocks before the one that serves a request have too little room, those behind are not
      looked at; the request starts where that block was given away up to, and a block is new only
      when none had room. */
  predicate FirstWithRoom(links: seq<Link>, k: nat, size: nat, after: seq<Link>, r: Region) {
    var b := r.block;
    && b >= k && |after| == (if b < |links| then |links| else b + 1)
    && r.start == (if b < |links| then links[b].index else 0)
    && (forall j :: k <= j < b && j < |links| ==> size > links[j].size - links[j].index)
    && (forall j :: |links| <= j < b ==> size > after[j].size && after[j].index == 0)
    && (forall j :: 0 <= j < |links| && j != b ==> after[j] == links[j])
  }

  /** First fit. */
  lemma {:induction false} FirstFit(links: seq<Link>, k: nat, size: nat)
    requires LinksOk(links) && k < |links|
    ensures var r := Allocated(links, k, size); FirstWithRoom(links, k, size, r.0, r.1)
    decreases if size > LastSize(links) then size - LastSize(links) else 0, |links| - k, links[k].index
  {
    var link := links[k];
    if size > link.size - link.index {
      hide FirstWithRoom;
      if k + 1 < |links| {
        FirstFit(links, k + 1, size);
        FullBlock(links, k, size, Allocated(links, k, size).0, Allocated(links, k, size).1);
      } else {
        var more := links + [Link(2 * link.size, 0)];
        FirstFit(more, k + 1, size);
        NewBlock(links, size, Allocated(more, k + 1, size).0, Allocated(more, k + 1, size).1);
      }
    }
  }

  lemma FullBlock(links: seq<Link>, k: nat, size: nat, after: seq<Link>, r: Region)
    requires k + 1 < |links| && size > links[k].size - links[k].index && FirstWithRoom(links, k + 1, size, after, r)
    ensures FirstWithRoom(links, k, size, after, r)
  {
  }

  lemma NewBlock(links: seq<Link>, size: nat, after: seq<Link>, r: Region)
    requires links != [] && size > links[|links| - 1].size - links[|links| - 1].index
    requires FirstWithRoom(links + [Link(2 * links[|links| - 1].size, 0)], |links|, size, after, r)
    ensures FirstWithRoom(links, |links| - 1, size, after, r)
  {
    var more := links + [Link(2 * links[|links| - 1].size, 0)];
    assert forall j :: 0 <= j < |links| ==> more[j] == links[j];
    assert r.block > |links| ==> after[|links|] == more[|links|];
  }

  /** Over every list of requests the regions are pairwise disjoint and inside their blocks. */
  lemma {:induction false} RegionsDisjoint(links: seq<Link>, requests: seq<nat>)
    requires LinksOk(links)
    ensures var rs := Regions(links, requests);
            && |rs| == |requests| && LinksOk(Chain(links, requests)) && Fills(links, Chain(links, requests))
            && (forall i :: 0 <= i < |rs| ==>
                  rs[i].size == requests[i] && Unused(links, rs[i]) && Inside(Chain(links, requests), rs[i]))
            && (forall i, j :: 0 <= i < j < |rs| ==> Disjoint(rs[i], rs[j]))
    decreases |requests|
  {
    hide Allocated;
    if requests != [] {
      var r := Allocated(links, 0, requests[0]);
      Served(links, 0, requests[0]);
      RegionsDisjoint(r.0, requests[1..]);
    }
  }
}
