/** The linked list of connected peers of peers_pool.c. */
module PeerPool {
  import opened Protocol

  /** peer_t. */
  class PeerT {
    const connfd: int
    const ip: string
    var pieces: seq<int>
    var downloaded: int

    /** `initial` is what the freshly allocated state array happens to hold: it is not cleared. */
    constructor (connfd: int, ip: string, initial: seq<int>)
      ensures this.connfd == connfd && this.ip == ip && pieces == initial && downloaded == 0
    {
      this.connfd, this.ip, pieces, downloaded := connfd, ip, initial, 0;
    }

    function Value(): Peer
      reads this
    {
      Peer(connfd, ip, pieces, downloaded)
    }
  }

  /** peerpool_node_t. */
  class PoolNode {
    const peer: PeerT
    var next: PoolNode?

    constructor (peer: PeerT)
      ensures this.peer == peer && next == null
    {
      this.peer, next := peer, null;
    }
  }

  ghost function PeersOf(nodes: seq<PoolNode>): (peers: seq<PeerT>)
    ensures |peers| == |nodes| && forall i :: 0 <= i < |nodes| ==> peers[i] == nodes[i].peer
  {
    seq<PeerT>(|nodes|, i requires 0 <= i < |nodes| => nodes[i].peer)
  }

  ghost function NodeAt(nodes: seq<PoolNode>, i: nat): (node: PoolNode?) {
    if i < |nodes| then nodes[i] else null
  }

  datatype Layout = Layout(head: PoolNode?, nodes: seq<PoolNode>, values: seq<Peer>)

  ghost predicate Apart(a: PoolNode, b: PoolNode) {
    a != b && a.peer != b.peer
  }

  ghost predicate AllApart(nodes: seq<PoolNode>) {
    forall i, j {:trigger Apart(nodes[i], nodes[j])} :: 0 <= i < j < |nodes| ==> Apart(nodes[i], nodes[j])
  }

  lemma ApartCons(node: PoolNode, nodes: seq<PoolNode>)
    requires AllApart(nodes) && forall b <- nodes :: Apart(node, b)
    ensures AllApart([node] + nodes)
  {
    var after := [node] + nodes;
    forall i, j | 0 <= i < j < |after|
      ensures Apart(after[i], after[j])
    {
      assert after[j] == nodes[j - 1];
      if i > 0 {
        assert Apart(nodes[i - 1], nodes[j - 1]);
      }
    }
  }

  lemma ApartTail(nodes: seq<PoolNode>)
    requires AllApart(nodes) && nodes != []
    ensures AllApart(nodes[1..])
  {
    ApartWithout(nodes, 0);
    assert nodes[..0] + nodes[1..] == nodes[1..];
  }

  lemma ApartWithout(nodes: seq<PoolNode>, i: nat)
    requires AllApart(nodes) && i < |nodes|
    ensures AllApart(nodes[..i] + nodes[i + 1..])
  {
    var after := nodes[..i] + nodes[i + 1..];
    forall a, b | 0 <= a < b < |after|
      ensures Apart(after[a], after[b])
    {
      assert Apart(nodes[if a < i then a else a + 1], nodes[if b < i then b else b + 1]);
    }
  }

  /** An acyclic list that starts at `first`, ends in null, and holds no peer twice. */
  ghost predicate IsList(first: PoolNode?, nodes: seq<PoolNode>, values: seq<Peer>)
    reads nodes, PeersOf(nodes)
  {
    && (if |nodes| == 0 then first == null else first == nodes[0] && nodes[|nodes| - 1].next == null)
    && (forall i {:trigger nodes[i].next} :: 0 <= i < |nodes| - 1 ==> nodes[i].next == nodes[i + 1])
    && AllApart(nodes)
    && |values| == |nodes|
    && (forall i :: 0 <= i < |nodes| ==> values[i] == nodes[i].peer.Value())
  }

  /** The list behind g_peerpool_head; `spine` lists its nodes and `contents` what is known of their peers. */
  class Pool {
    var head: PoolNode?
    ghost var spine: seq<PoolNode>
    ghost var contents: seq<Peer>

    ghost function Peers(): (r: seq<PeerT>)
      reads this
    {
      PeersOf(spine)
    }

    /** The list is acyclic and ends in null, no peer is in it twice, and `contents` is what it holds. */
    ghost predicate Valid()
      reads this, spine, Peers()
    {
      match Layout(head, spine, contents)
      case Layout(first, nodes, values) => IsList(first, nodes, values)
    }

    /** The position of a peer object in the pool. */
    ghost predicate IsPeer(p: PeerT, k: nat)
      reads this
    {
      k < |spine| && spine[k].peer == p
    }

    lemma PeerIs(p: PeerT, k: nat)
      requires Valid() && IsPeer(p, k)
      ensures k < |contents| && contents[k] == p.Value() && contents[k] in contents
    {
    }

    /** How to walk the list. */
    lemma Links(i: nat)
      requires Valid() && i <= |spine|
      ensures |contents| == |spine| && head == NodeAt(spine, 0)
      ensures i < |spine| ==> spine[i].next == NodeAt(spine, i + 1) && IsPeer(spine[i].peer, i)
    {
    }

    lemma FirstIs(i: nat)
      requires Valid() && i < |spine|
      ensures head == spine[0] && (spine[i] == head <==> i == 0)
    {
      assert i > 0 ==> Apart(spine[0], spine[i]);
    }

    constructor ()
      ensures Valid() && contents == []
    {
      head, spine, contents := null, [], [];
    }

    /** Assignments to the fields of one peer. */
    method Update(p: PeerT, ghost k: nat, newPieces: seq<int>, newDownloaded: int)
      requires Valid() && IsPeer(p, k)
      modifies p`pieces, p`downloaded, this`contents
      ensures Valid()
      ensures contents == old(contents)[k := Peer(p.connfd, p.ip, newPieces, newDownloaded)]
    {
      forall j | 0 <= j < |spine| && j != k
        ensures spine[j].peer != p
      {
        assert j < k ==> Apart(spine[j], spine[k]);
        assert k < j ==> Apart(spine[k], spine[j]);
      }
      p.pieces, p.downloaded := newPieces, newDownloaded;
      contents := contents[k := p.Value()];
      assert IsList(head, spine, contents);
    }

    /** pool_add_peer: the new peer goes to the front. */
    method AddPeer(connfd: int, ip: string, initial: seq<int>) returns (p: PeerT)
      requires Valid()
      modifies this`head, this`spine, this`contents
      ensures Valid() && IsPeer(p, 0) && fresh(p)
      ensures contents == [Peer(connfd, ip, initial, 0)] + old(contents)
    {
      p := new PeerT(connfd, ip, initial);
      var node := new PoolNode(p);
      assert forall b <- spine :: Apart(node, b);
      Insert(node);
    }

    /** The insertion in pool_add_peer. */
    method Insert(node: PoolNode)
      requires Valid() && forall b <- spine :: Apart(node, b)
      modifies this`head, this`spine, this`contents, node`next
      ensures Valid() && spine == [node] + old(spine) && contents == [node.peer.Value()] + old(contents)
    {
      ghost var before := spine;
      forall a | 0 <= a < |before|
        ensures before[a] != node
      {
        assert Apart(node, before[a]);
      }
      if head != null {
        var temp := head;
        head := node;
        head.next := temp;
      } else {
        head := node;
        head.next := null;
      }
      ApartCons(node, before);
      spine, contents := [node] + before, [node.peer.Value()] + contents;
      forall a | 0 <= a < |spine| - 1
        ensures spine[a].next == spine[a + 1]
      {
        assert spine[a + 1] == before[a] && (a > 0 ==> spine[a] == before[a - 1]);
      }
      assert IsList(head, spine, contents);
    }

    /** find_peernode: the first node with the address, or null if there is none. */
    method FindPeerNode(ip: string) returns (node: PoolNode?)
      requires Valid()
      ensures Valid()
      ensures node == null <==> !Known(contents, ip)
      ensures node != null ==> exists k: nat :: k < |spine| && spine[k] == node && FirstAt(contents, ip, k)
    {
      node := head;
      ghost var i := 0;
      while node != null
        invariant 0 <= i <= |spine| && node == NodeAt(spine, i)
        invariant forall j :: 0 <= j < i ==> contents[j].ip != ip
        decreases |spine| - i
      {
        assert contents[i] == node.peer.Value();
        if node.peer.ip == ip {
          assert contents[i] in contents;
          return;
        }
        node := node.next;
        i := i + 1;
      }
    }

    /** find_peer_have_piece: the first least-used peer that has the piece. */
    method FindPeerHavePiece(index: nat, ghost n: nat) returns (found: PeerT?)
      requires Valid() && Sized(contents, n) && index < n
      ensures Valid()
      ensures found == null ==> IsLeastUsed(contents, index, -1)
      ensures found != null ==> exists k: nat :: IsPeer(found, k) && IsLeastUsed(contents, index, k)
    {
      var node := head;
      ghost var values := contents;
      ghost var i, k := 0, -1;
      found := null;
      while node != null
        invariant 0 <= i <= |values| && node == NodeAt(spine, i)
        invariant forall j :: 0 <= j < i ==> !Offers(values, j, index)
        decreases |values| - i
      {
        assert values[i] == node.peer.Value() && values[i] in values;
        if node.peer.pieces[index] > PEER_HAVNT {
          found, k := node.peer, i;
          break;
        }
        node := node.next;
        i := i + 1;
      }
      while node != null
        invariant 0 <= i <= |values| && node == NodeAt(spine, i)
        invariant found == null ==> node == null && k == -1 && forall j :: !Offers(values, j, index)
        invariant found != null ==> 0 <= k && IsPeer(found, k) && BestOfFirst(values, index, k, i)
        decreases |values| - i
      {
        assert values[i] == node.peer.Value() && values[i] in values && values[k] == found.Value();
        BestOneMore(values, index, k, i);
        if node.peer.pieces[index] > PEER_HAVNT && node.peer.downloaded < found.downloaded {
          found, k := node.peer, i;
        }
        node := node.next;
        i := i + 1;
      }
    }

    /** The loop of send_have: the connections of the peers that lack a piece, in the order of the list. */
    method PeersWithout(index: nat, ghost n: nat) returns (connfds: seq<int>)
      requires Valid() && Sized(contents, n) && index < n
      ensures connfds == Lacking(contents, index)
    {
      connfds := [];
      Links(0);
      var node := head;
      ghost var i := 0;
      assert contents[..0] == [];
      while node != null
        invariant 0 <= i <= |spine| && node == NodeAt(spine, i)
        invariant connfds == Lacking(contents[..i], index)
        decreases |spine| - i
      {
        Links(i);
        PeerIs(node.peer, i);
        LackingOneMore(contents, index, i);
        if node.peer.pieces[index] != PEER_HAVE {
          connfds := connfds + [node.peer.connfd];
        }
        node := node.next;
        i := i + 1;
      }
      assert contents[..i] == contents;
    }

    /** peerpool_remove_node: removes the first node that has the address of the peer, and nothing else. */
    method RemoveNode(peer: PeerT)
      requires Valid()
      modifies this`head, this`spine, this`contents, spine`next
      ensures Valid()
      ensures contents == RemoveIp(old(contents), peer.ip)
      ensures forall k :: 0 <= k < |old(spine)| && FirstAt(old(contents), peer.ip, k) ==>
                spine == old(spine)[..k] + old(spine)[k + 1..]
      ensures !Known(old(contents), peer.ip) ==> spine == old(spine)
    {
      hide Valid;
      Links(0);
      var node := head;
      var preNode: PoolNode? := null;
      ghost var i := 0;
      ghost var values := contents;
      while node != null
        invariant 0 <= i <= |spine| && node == NodeAt(spine, i)
        invariant preNode == if i == 0 then null else spine[i - 1]
        invariant Valid() && spine == old(spine) && contents == values
        invariant forall j :: 0 <= j < i ==> values[j].ip != peer.ip
        decreases |spine| - i
      {
        Links(i);
        PeerIs(node.peer, i);
        if peer.ip == node.peer.ip {
          RemoveIpAt(values, peer.ip, i);
          FirstIs(i);
          if node == head {
            UnlinkHead();
          } else {
            UnlinkAfter(preNode, node, i);
          }
          return;
        } else {
          preNode := node;
          node := node.next;
          i := i + 1;
        }
      }
      Links(i);
      RemoveIpNone(values, peer.ip);
    }

    /** The unlinking of the first node in peerpool_remove_node. */
    method UnlinkHead()
      requires Valid() && spine != []
      modifies this`head, this`spine, this`contents
      ensures Valid() && spine == old(spine)[1..] && contents == old(contents)[1..]
    {
      ghost var rest := spine[1..];
      ApartTail(spine);
      head, spine, contents := head.next, rest, contents[1..];
      assert IsList(head, spine, contents);
    }

    /** The unlinking of a later node in peerpool_remove_node. */
    method UnlinkAfter(preNode: PoolNode, node: PoolNode, ghost i: nat)
      requires Valid() && 0 < i < |spine| && node == spine[i] && preNode == spine[i - 1]
      modifies preNode`next, this`spine, this`contents
      ensures Valid()
      ensures spine == old(spine)[..i] + old(spine)[i + 1..] && contents == old(contents)[..i] + old(contents)[i + 1..]
    {
      ghost var before := spine;
      ApartWithout(before, i);
      forall a | 0 <= a < |before| && a != i - 1
        ensures before[a] != preNode
      {
        assert if a < i - 1 then Apart(before[a], preNode) else Apart(preNode, before[a]);
      }
      preNode.next := node.next;
      spine, contents := spine[..i] + spine[i + 1..], contents[..i] + contents[i + 1..];
      forall a | 0 <= a < |spine| - 1
        ensures spine[a].next == spine[a + 1]
      {
        var b := if a < i then a else a + 1;
        assert spine[a] == before[b] && before[b].next == if b == i - 1 then before[i + 1] else before[b + 1];
      }
      assert IsList(head, spine, contents);
    }
  }

  /** Peer `k` is the first least-used one with the piece, as far as the first `i` peers go. */
  ghost predicate BestOfFirst(pool: seq<Peer>, index: nat, k: nat, i: nat) {
    && k <= i && Offers(pool, k, index)
    && forall j :: 0 <= j < i && Offers(pool, j, index) ==>
         pool[k].downloaded <= pool[j].downloaded && (j < k ==> pool[k].downloaded < pool[j].downloaded)
  }

  lemma BestOneMore(pool: seq<Peer>, index: nat, k: nat, i: nat)
    requires i < |pool| && index < |pool[i].pieces| && BestOfFirst(pool, index, k, i)
    ensures if pool[i].pieces[index] > PEER_HAVNT && pool[i].downloaded < pool[k].downloaded
            then BestOfFirst(pool, index, i, i + 1)
            else BestOfFirst(pool, index, k, i + 1)
  {
  }

  /** The connections of the peers that do not have a piece. */
  ghost function Lacking(pool: seq<Peer>, index: nat): (connfds: seq<int>) {
    if pool == [] then []
    else
      var p := pool[|pool| - 1];
      Lacking(pool[..|pool| - 1], index) + if index < |p.pieces| && p.pieces[index] == PEER_HAVE then [] else [p.connfd]
  }

  lemma LackingOneMore(pool: seq<Peer>, index: nat, i: nat)
    requires i < |pool|
    ensures var p := pool[i];
            Lacking(pool[..i + 1], index) ==
            Lacking(pool[..i], index) + if index < |p.pieces| && p.pieces[index] == PEER_HAVE then [] else [p.connfd]
  {
    assert pool[..i + 1][..i] == pool[..i];
  }

  /** Exactly the peers without the piece are named. */
  lemma {:induction false} LackingNamesExactly(pool: seq<Peer>, index: nat, connfd: int)
    ensures connfd in Lacking(pool, index) <==>
            exists p <- pool :: p.connfd == connfd && !(index < |p.pieces| && p.pieces[index] == PEER_HAVE)
  {
    if pool != [] {
      LackingNamesExactly(pool[..|pool| - 1], index, connfd);
      assert pool == pool[..|pool| - 1] + [pool[|pool| - 1]];
    }
  }

  ghost predicate FirstAt(pool: seq<Peer>, ip: string, k: nat) {
    k < |pool| && pool[k].ip == ip && forall j :: 0 <= j < k ==> pool[j].ip != ip
  }

  lemma {:induction false} RemoveIpAt(pool: seq<Peer>, ip: string, k: nat)
    requires FirstAt(pool, ip, k)
    ensures RemoveIp(pool, ip) == pool[..k] + pool[k + 1..] && Known(pool, ip)
  {
    assert pool[k] in pool;
    if k > 0 {
      RemoveIpAt(pool[1..], ip, k - 1);
    }
  }

  lemma {:induction false} RemoveIpNone(pool: seq<Peer>, ip: string)
    requires forall j :: 0 <= j < |pool| ==> pool[j].ip != ip
    ensures RemoveIp(pool, ip) == pool && !Known(pool, ip)
  {
    if pool != [] {
      RemoveIpNone(pool[1..], ip);
    }
  }
}
