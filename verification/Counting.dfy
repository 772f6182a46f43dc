/** How the counts of the protocol change when one entry, or one peer, changes. */
module Counting {
  import opened Protocol

  // ----- Count

  lemma {:induction false} CountUpdate(s: seq<int>, i: nat, x: int, v: int)
    requires i < |s|
    ensures Count(s[i := x], v) == Count(s, v) - (if s[i] == v then 1 else 0) + (if x == v then 1 else 0)
  {
    var n := |s| - 1;
    if i == n {
      assert s[i := x][..n] == s[..n];
    } else {
      CountUpdate(s[..n], i, x, v);
      assert s[i := x][..n] == s[..n][i := x];
    }
  }

  lemma CountAppend(s: seq<int>, x: int, v: int)
    ensures Count(s + [x], v) == Count(s, v) + if x == v then 1 else 0
  {
    assert (s + [x])[..|s|] == s;
  }

  lemma {:induction false} CountPositive(s: seq<int>, v: int)
    ensures Count(s, v) <= |s|
    ensures Count(s, v) > 0 <==> exists i :: 0 <= i < |s| && s[i] == v
    ensures Count(s, v) == |s| <==> forall i :: 0 <= i < |s| ==> s[i] == v
  {
    if s != [] {
      var n := |s| - 1;
      CountPositive(s[..n], v);
      assert forall i :: 0 <= i < n ==> s[i] == s[..n][i];
    }
  }

  /** The count is the number of positions. */
  lemma {:induction false} CountIsNumber(s: seq<int>, v: int)
    ensures Count(s, v) == |set i: nat | i < |s| && s[i] == v|
  {
    var all := set i: nat | i < |s| && s[i] == v;
    if s == [] {
      assert all == {};
    } else {
      var n := |s| - 1;
      var before := set i: nat | i < n && s[..n][i] == v;
      CountIsNumber(s[..n], v);
      assert all == if s[n] == v then before + {n} else before;
    }
  }

  /** A sequence of pieces in the four kinds of state. */
  lemma {:induction false} CountsPartition(s: seq<int>)
    requires forall i :: 0 <= i < |s| ==> 0 <= s[i] <= 2
    ensures Count(s, PIECE_REQUESTING) + Count(s, PIECE_COMPLETED) + Count(s, PIECE_HAVNT) == |s|
  {
    if s != [] {
      CountsPartition(s[..|s| - 1]);
    }
  }

  /** A disconnect moves the pieces that go back from one count to the other. */
  lemma {:induction false} CountBack(pieces: seq<int>, states: seq<int>, n: nat)
    requires n <= |pieces| == |states|
    ensures var back := BackCount(pieces, states, n);
            && Count(PiecesBack(pieces, states)[..n], PIECE_HAVNT) == Count(pieces[..n], PIECE_HAVNT) + back
            && Count(PiecesBack(pieces, states)[..n], PIECE_REQUESTING) == Count(pieces[..n], PIECE_REQUESTING) - back
            && Count(PiecesBack(pieces, states)[..n], PIECE_COMPLETED) == Count(pieces[..n], PIECE_COMPLETED)
  {
    if n > 0 {
      CountBack(pieces, states, n - 1);
      var after := PiecesBack(pieces, states);
      assert after[..n][..n - 1] == after[..n - 1] && pieces[..n][..n - 1] == pieces[..n - 1];
    }
  }

  lemma {:induction false} BackCountPositive(pieces: seq<int>, states: seq<int>, n: nat)
    requires n <= |pieces| == |states|
    ensures BackCount(pieces, states, n) > 0 <==> exists i: nat :: i < n && GoesBack(pieces, states, i)
  {
    if n > 0 {
      BackCountPositive(pieces, states, n - 1);
    }
  }

  // ----- Tally

  ghost predicate Covered(pool: seq<Peer>, i: nat) {
    forall p <- pool :: i < |p.pieces|
  }

  lemma {:induction false} TallyUpdate(pool: seq<Peer>, k: nat, p: Peer, i: nat, level: int)
    requires k < |pool| && Covered(pool, i) && i < |p.pieces|
    ensures Covered(pool[k := p], i)
    ensures Tally(pool[k := p], i, level) ==
            Tally(pool, i, level) - (if pool[k].pieces[i] >= level then 1 else 0)
            + (if p.pieces[i] >= level then 1 else 0)
  {
    var n := |pool| - 1;
    if k == n {
      assert pool[k := p][..n] == pool[..n];
    } else {
      TallyUpdate(pool[..n], k, p, i, level);
      assert pool[k := p][..n] == pool[..n][k := p];
    }
  }

  lemma {:induction false} TallyCons(pool: seq<Peer>, p: Peer, i: nat, level: int)
    requires Covered(pool, i) && i < |p.pieces|
    ensures Covered([p] + pool, i)
    ensures Tally([p] + pool, i, level) == Tally(pool, i, level) + (if p.pieces[i] >= level then 1 else 0)
  {
    var n := |pool| - 1;
    if pool == [] {
      assert ([p] + pool)[..0] == [];
    } else {
      TallyCons(pool[..n], p, i, level);
      assert ([p] + pool)[..|pool|] == [p] + pool[..n];
    }
  }

  lemma TallyAppend(pool: seq<Peer>, p: Peer, i: nat, level: int)
    requires Covered(pool, i) && i < |p.pieces|
    ensures Covered(pool + [p], i)
    ensures Tally(pool + [p], i, level) == Tally(pool, i, level) + if p.pieces[i] >= level then 1 else 0
  {
    assert (pool + [p])[..|pool|] == pool;
  }

  lemma {:induction false} TallyRemove(pool: seq<Peer>, k: nat, i: nat, level: int)
    requires k < |pool| && Covered(pool, i)
    ensures Covered(pool[..k] + pool[k + 1..], i)
    ensures Tally(pool[..k] + pool[k + 1..], i, level) ==
            Tally(pool, i, level) - (if pool[k].pieces[i] >= level then 1 else 0)
  {
    var n := |pool| - 1;
    var rest := pool[..k] + pool[k + 1..];
    if k == n {
      assert rest == pool[..n];
    } else {
      TallyRemove(pool[..n], k, i, level);
      var shorter := pool[..n][..k] + pool[..n][k + 1..];
      assert rest == shorter + [pool[n]];
      TallyAppend(shorter, pool[n], i, level);
    }
  }

  lemma {:induction false} TallyPositive(pool: seq<Peer>, i: nat, level: int)
    requires Covered(pool, i)
    ensures Tally(pool, i, level) > 0 <==> exists k :: 0 <= k < |pool| && pool[k].pieces[i] >= level
  {
    if pool != [] {
      var n := |pool| - 1;
      TallyPositive(pool[..n], i, level);
      assert forall k :: 0 <= k < n ==> pool[k] == pool[..n][k];
    }
  }

  /** The peers that have at least state `level` for piece `i`. */
  ghost function Having(pool: seq<Peer>, i: nat, level: int): (ks: set<nat>) {
    set k: nat | k < |pool| && i < |pool[k].pieces| && pool[k].pieces[i] >= level
  }

  lemma HavingOneMore(pool: seq<Peer>, p: Peer, i: nat, level: int)
    requires i < |p.pieces|
    ensures Having(pool + [p], i, level) == Having(pool, i, level) + if p.pieces[i] >= level then {|pool|} else {}
  {
  }

  /** The tally is their number. */
  lemma {:induction false} TallyIsNumber(pool: seq<Peer>, i: nat, level: int)
    requires Covered(pool, i)
    ensures Tally(pool, i, level) == |Having(pool, i, level)|
  {
    if pool == [] {
      assert Having(pool, i, level) == {};
    } else {
      var n := |pool| - 1;
      TallyIsNumber(pool[..n], i, level);
      assert pool[n] in pool && pool == pool[..n] + [pool[n]];
      HavingOneMore(pool[..n], pool[n], i, level);
    }
  }

  /** Two different peers count twice. */
  lemma {:induction false} TallyTwo(pool: seq<Peer>, j: nat, k: nat, i: nat, level: int)
    requires j < k < |pool| && Covered(pool, i)
    requires pool[j].pieces[i] >= level && pool[k].pieces[i] >= level
    ensures Tally(pool, i, level) >= 2
  {
    TallyRemove(pool, k, i, level);
    var rest := pool[..k] + pool[k + 1..];
    assert rest[j] == pool[j];
    TallyPositive(rest, i, level);
  }

  // ----- Tallies of all pieces at once

  /** `want` lists, piece by piece, how many peers have at least state `level`. */
  ghost predicate TallyIs(pool: seq<Peer>, level: int, want: seq<int>) {
    && Sized(pool, |want|)
    && forall i: nat :: i < |want| ==> Tally(pool, i, level) == want[i]
  }

  ghost function One(states: seq<int>, i: nat, level: int): int
    requires i < |states|
  {
    if states[i] >= level then 1 else 0
  }

  lemma TallyIsReplace(pool: seq<Peer>, k: nat, p: Peer, level: int, want: seq<int>, want': seq<int>)
    requires TallyIs(pool, level, want) && k < |pool| && |p.pieces| == |want| == |want'|
    requires forall i: nat :: i < |want| ==>
               want'[i] == want[i] - One(pool[k].pieces, i, level) + One(p.pieces, i, level)
    ensures TallyIs(pool[k := p], level, want')
  {
    forall i: nat | i < |want|
      ensures Covered(pool[k := p], i) && Tally(pool[k := p], i, level) == want'[i]
    {
      TallyUpdate(pool, k, p, i, level);
    }
  }

  lemma TallyIsCons(pool: seq<Peer>, p: Peer, level: int, want: seq<int>)
    requires TallyIs(pool, level, want) && |p.pieces| == |want|
    requires forall i :: 0 <= i < |want| ==> p.pieces[i] < level
    ensures TallyIs([p] + pool, level, want)
  {
    forall i: nat | i < |want|
      ensures Covered([p] + pool, i) && Tally([p] + pool, i, level) == want[i]
    {
      TallyCons(pool, p, i, level);
    }
  }

  lemma TallyIsRemove(pool: seq<Peer>, k: nat, level: int, want: seq<int>, want': seq<int>)
    requires TallyIs(pool, level, want) && k < |pool| && |want| == |want'|
    requires forall i: nat :: i < |want| ==> want'[i] == want[i] - One(pool[k].pieces, i, level)
    ensures TallyIs(pool[..k] + pool[k + 1..], level, want')
  {
    var after := pool[..k] + pool[k + 1..];
    forall i: nat | i < |want|
      ensures Covered(after, i) && Tally(after, i, level) == want'[i]
    {
      TallyRemove(pool, k, i, level);
    }
  }

  // ----- Positions in the pool

  ghost predicate Differ(p: Peer, q: Peer) {
    p.connfd != q.connfd && p.ip != q.ip
  }

  /** One entry a connection and an address. */
  ghost predicate Distinct(pool: seq<Peer>) {
    forall j, k {:trigger Differ(pool[j], pool[k])} :: 0 <= j < k < |pool| ==> Differ(pool[j], pool[k])
  }

  lemma PositionIs(pool: seq<Peer>, k: nat)
    requires Distinct(pool) && k < |pool|
    ensures Connected(pool, pool[k].connfd) && Position(pool, pool[k].connfd) == k
  {
    assert pool[k] in pool;
    var j := Position(pool, pool[k].connfd);
    assert j < k ==> Differ(pool[j], pool[k]);
    assert k < j ==> Differ(pool[k], pool[j]);
  }

  /** Changing what is known of a peer moves nobody. */
  lemma ReplaceKeepsPositions(pool: seq<Peer>, k: nat, p: Peer)
    requires Distinct(pool) && k < |pool| && p.connfd == pool[k].connfd && p.ip == pool[k].ip
    ensures Distinct(pool[k := p])
    ensures forall c :: Connected(pool, c) ==>
              Connected(pool[k := p], c) && Position(pool[k := p], c) == Position(pool, c)
  {
    var after := pool[k := p];
    forall i, j | 0 <= i < j < |pool|
      ensures Differ(after[i], after[j])
    {
      assert Differ(pool[i], pool[j]);
    }
    forall c | Connected(pool, c)
      ensures Connected(pool[k := p], c) && Position(pool[k := p], c) == Position(pool, c)
    {
      PositionIs(pool[k := p], Position(pool, c));
    }
  }

  lemma ConsKeepsPositions(pool: seq<Peer>, p: Peer)
    requires Distinct(pool) && !Connected(pool, p.connfd) && !Known(pool, p.ip)
    ensures Distinct([p] + pool)
    ensures forall c :: Connected(pool, c) ==>
              Connected([p] + pool, c) && Position([p] + pool, c) == Position(pool, c) + 1
  {
    var after := [p] + pool;
    forall i, j | 0 <= i < j < |after|
      ensures Differ(after[i], after[j])
    {
      assert pool[j - 1] in pool;
      if i > 0 {
        assert Differ(pool[i - 1], pool[j - 1]);
      }
    }
    forall c | Connected(pool, c)
      ensures Connected([p] + pool, c) && Position([p] + pool, c) == Position(pool, c) + 1
    {
      PositionIs([p] + pool, Position(pool, c) + 1);
    }
  }

  /** With one peer for an address, removing by address removes just that peer and keeps the order of the rest. */
  lemma {:induction false} RemoveIpIs(pool: seq<Peer>, k: nat)
    requires Distinct(pool) && k < |pool|
    ensures RemoveIp(pool, pool[k].ip) == pool[..k] + pool[k + 1..]
    ensures Distinct(RemoveIp(pool, pool[k].ip))
  {
    if k > 0 {
      assert Differ(pool[0], pool[k]);
      var others := pool[1..];
      forall i, j | 0 <= i < j < |others|
        ensures Differ(others[i], others[j])
      {
        assert Differ(pool[i + 1], pool[j + 1]);
      }
      RemoveIpIs(others, k - 1);
    }
    DistinctWithout(pool, k);
  }

  lemma FannedKeepsPositions(pool: seq<Peer>, index: nat)
    requires Distinct(pool)
    ensures Distinct(FannedPool(pool, index))
  {
    var after := FannedPool(pool, index);
    forall i, j | 0 <= i < j < |after|
      ensures Differ(after[i], after[j])
    {
      assert Differ(pool[i], pool[j]);
    }
  }

  lemma DistinctWithout(pool: seq<Peer>, k: nat)
    requires Distinct(pool) && k < |pool|
    ensures Distinct(pool[..k] + pool[k + 1..])
  {
    var after := pool[..k] + pool[k + 1..];
    forall i, j | 0 <= i < j < |after|
      ensures Differ(after[i], after[j])
    {
      assert Differ(pool[if i < k then i else i + 1], pool[if j < k then j else j + 1]);
    }
  }

  lemma RemoveKeepsPeers(pool: seq<Peer>, k: nat, c: int)
    requires Distinct(pool) && k < |pool| && Connected(pool, c) && c != pool[k].connfd
    ensures var after := RemoveIp(pool, pool[k].ip);
            Connected(after, c) && after[Position(after, c)] == pool[Position(pool, c)]
  {
    RemoveIpIs(pool, k);
    var j := Position(pool, c);
    var after := pool[..k] + pool[k + 1..];
    var j' := if j < k then j else j - 1;
    assert after[j'] == pool[j];
    PositionIs(after, j');
  }
}
