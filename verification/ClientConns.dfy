/** The connections of dev/svr/common/client_conn_manager.cpp with their index from user to
  connection, a multimap kept beside the map of connections. */
module ClientConns {
  import opened Common
  import opened Managers

  /** Key, user, and what else the connection head says. */
  datatype Conn = Conn(id: int, uid: int, head: string)

  type Index = seq<(int, int)>

  /** The index holds the pair (user, connection) of every live connection once, and nothing else. */
  ghost predicate Indexed(items: map<int, Conn>, index: Index) {
    && (forall k :: k in items ==> (items[k].uid, k) in index)
    && (forall p :: p in index ==> p.1 in items && items[p.1].uid == p.0)
    && Distinct(index)
  }

  ghost predicate ById(items: map<int, Conn>) {
    forall k :: k in items ==> items[k].id == k
  }

  /** The place of the first such pair; |index| when there is none. */
  function PairAt(index: Index, p: (int, int)): (k: nat)
    ensures k <= |index| && (k < |index| ==> index[k] == p)
    ensures forall j :: 0 <= j < k ==> index[j] != p
  {
    if index == [] || index[0] == p then 0 else 1 + PairAt(index[1..], p)
  }

  /** The first entry of a user: insertion order decides among equals. */
  function UserAt(index: Index, uid: int): (k: nat)
    ensures k <= |index| && (k < |index| ==> index[k].0 == uid)
    ensures forall j :: 0 <= j < k ==> index[j].0 != uid
  {
    if index == [] || index[0].0 == uid then 0 else 1 + UserAt(index[1..], uid)
  }

  function Without(index: Index, p: (int, int)): Index {
    var k := PairAt(index, p);
    if k < |index| then index[..k] + index[k + 1..] else index
  }

  datatype Conns = Conns(items: map<int, Conn>, index: Index)

  function Created(s: Conns, conn: Conn): Conns {
    Conns(s.items[conn.id := conn], s.index + [(conn.uid, conn.id)])
  }

  function Released(s: Conns, id: int): Conns {
    if id !in s.items then s else Conns(s.items - {id}, Without(s.index, (s.items[id].uid, id)))
  }

  /** The index agrees after a connection is created exactly when its id was not in use. */
  lemma CreatedAgreesIff(s: Conns, conn: Conn)
    requires Indexed(s.items, s.index)
    ensures var t := Created(s, conn); Indexed(t.items, t.index) <==> conn.id !in s.items
  {
    var t := Created(s, conn);
    var p := (conn.uid, conn.id);
    var n := |s.index|;
    assert t.index[n] == p;
    if conn.id in s.items {
      var stale := (s.items[conn.id].uid, conn.id);
      assert stale in s.index;
      var i :| 0 <= i < n && s.index[i] == stale;
      assert t.index[i] == stale && stale in t.index;
      if stale == p {
        assert t.index[i] == t.index[n];
      } else {
        assert t.items[conn.id].uid != stale.0;
      }
    } else {
      forall k | k in t.items
        ensures (t.items[k].uid, k) in t.index
      {
        if k == conn.id { assert p in t.index; } else { assert (s.items[k].uid, k) in s.index; }
      }
    }
  }

  ghost predicate Distinct(index: Index) {
    forall i, j :: 0 <= i < j < |index| ==> index[i] != index[j]
  }

  lemma StillIn(index: Index, k: nat, q: (int, int))
    requires k < |index| && q in index && q != index[k]
    ensures q in index[..k] + index[k + 1..]
  {
    var i :| 0 <= i < |index| && index[i] == q;
    var r := index[..k] + index[k + 1..];
    assert if i < k then r[i] == q else r[i - 1] == q;
  }

  lemma WasIn(index: Index, k: nat, q: (int, int))
    requires k < |index| && Distinct(index) && q in index[..k] + index[k + 1..]
    ensures q in index && q != index[k]
  {
    var r := index[..k] + index[k + 1..];
    var i :| 0 <= i < |r| && r[i] == q;
    assert index[if i < k then i else i + 1] == q;
  }

  lemma StillDistinct(index: Index, k: nat)
    requires k < |index| && Distinct(index)
    ensures Distinct(index[..k] + index[k + 1..])
  {
    var r := index[..k] + index[k + 1..];
    forall i, j | 0 <= i < j < |r|
      ensures r[i] != r[j]
    {
      assert r[i] == index[if i < k then i else i + 1] && r[j] == index[if j < k then j else j + 1];
    }
  }

  lemma ReleasedAgrees(s: Conns, id: int)
    requires Indexed(s.items, s.index)
    ensures var t := Released(s, id); Indexed(t.items, t.index)
  {
    if id in s.items {
      var t := Released(s, id);
      var p := (s.items[id].uid, id);
      var k := PairAt(s.index, p);
      assert p in s.index && k < |s.index|;
      StillDistinct(s.index, k);
      forall j | j in t.items
        ensures (t.items[j].uid, j) in t.index
      {
        StillIn(s.index, k, (s.items[j].uid, j));
      }
      forall q | q in t.index
        ensures q.1 in t.items && t.items[q.1].uid == q.0
      {
        WasIn(s.index, k, q);
      }
    }
  }

  // ---- histories -----------------------------------------------------------

  /** A restart walks the old map in one order to write it, and what came back in another to index it. */
  datatype Op = Create(conn: Conn) | Release(id: int) | Restart(order: seq<int>, size: nat, walk: seq<int>)

  datatype Server = Server(conns: Conns, maxSize: nat)

  ghost predicate Suits(c: Codec<Conn>) {
    Lawful(c) && forall conn: Conn :: c.key(conn) == conn.id
  }

  function Pairs(items: map<int, Conn>, order: seq<int>): (index: Index)
    requires forall i :: 0 <= i < |order| ==> order[i] in items
    ensures |index| == |order| && forall i :: 0 <= i < |order| ==> index[i] == (items[order[i]].uid, order[i])
  {
    seq(|order|, i requires 0 <= i < |order| => (items[order[i]].uid, order[i]))
  }

  lemma PairsAgree(items: map<int, Conn>, order: seq<int>)
    requires Walks(order, items)
    ensures Indexed(items, Pairs(items, order))
  {
    var index := Pairs(items, order);
    forall k | k in items
      ensures (items[k].uid, k) in index
    {
      var i :| 0 <= i < |order| && order[i] == k;
      assert index[i] == (items[k].uid, k);
    }
  }

  /** What a process of that size reads back from the image of the one before. */
  ghost function Recalled(c: Codec<Conn>, items: map<int, Conn>, order: seq<int>, size: nat): Option<map<int, Conn>>
    requires Walks(order, items)
  {
    Recover(c, Image(c, Along(items, order)), size)
  }

  /** Created with ids not in use, and restarted with the orders in which the maps are walked. */
  ghost predicate Allowed(c: Codec<Conn>, s: Server, op: Op) {
    match op
    case Create(conn) => conn.id !in s.conns.items && |c.bytes(conn)| < SIZE
    case Release(id) => true
    case Restart(order, size, walk) =>
      && Walks(order, s.conns.items) && 0 < size < SIZE
      && var r := Recalled(c, s.conns.items, order, size); r.Some? ==> Walks(walk, r.value)
  }

  /** A process that cannot read its image does not start, and serves nothing. */
  ghost function Applied(c: Codec<Conn>, s: Server, op: Op): Server
    requires Allowed(c, s, op)
  {
    match op
    case Create(conn) => if |s.conns.items| >= s.maxSize then s else s.(conns := Created(s.conns, conn))
    case Release(id) => s.(conns := Released(s.conns, id))
    case Restart(order, size, walk) =>
      var r := Recalled(c, s.conns.items, order, size);
      Server(if r.Some? then Conns(r.value, Pairs(r.value, walk)) else Conns(map[], []), size)
  }

  ghost predicate Possible(c: Codec<Conn>, s: Server, ops: seq<Op>)
    decreases |ops|
  {
    ops == [] || (Allowed(c, s, ops[0]) && Possible(c, Applied(c, s, ops[0]), ops[1..]))
  }

  ghost function After(c: Codec<Conn>, s: Server, ops: seq<Op>): Server
    requires Possible(c, s, ops)
    decreases |ops|
  {
    if ops == [] then s else After(c, Applied(c, s, ops[0]), ops[1..])
  }

  /** The index agrees, elements lie under their own key, and the next image can hold them all. */
  ghost predicate Sound(c: Codec<Conn>, s: Server) {
    && Indexed(s.conns.items, s.conns.index) && ById(s.conns.items)
    && |s.conns.items| <= s.maxSize < SIZE
    && forall k :: k in s.conns.items ==> |c.bytes(s.conns.items[k])| < SIZE
  }

  lemma CreateKeeps(c: Codec<Conn>, s: Server, conn: Conn)
    requires Sound(c, s) && Allowed(c, s, Create(conn))
    ensures Sound(c, Applied(c, s, Create(conn)))
  {
    if |s.conns.items| < s.maxSize {
      CreatedAgreesIff(s.conns, conn);
      hide Indexed;
      OneMore(s.conns.items, conn.id, conn);
    }
  }

  lemma OneMore(items: map<int, Conn>, id: int, conn: Conn)
    requires id !in items
    ensures |items[id := conn]| == |items| + 1
  {
    assert items[id := conn].Keys == items.Keys + {id};
  }

  lemma ReleaseKeeps(c: Codec<Conn>, s: Server, id: int)
    requires Sound(c, s)
    ensures Sound(c, Applied(c, s, Release(id)))
  {
    ReleasedAgrees(s.conns, id);
    hide Indexed;
    assert (s.conns.items - {id}).Keys == s.conns.items.Keys - {id};
  }

  /** A restart always starts.  It brings back exactly the connections that come first in the order the
    old map was walked, as many as the new size allows, and an index that agrees with them; these are
    all of them exactly when the new size is enough. */
  lemma RestartRestores(c: Codec<Conn>, s: Server, op: Op)
    requires Suits(c) && Sound(c, s) && op.Restart? && Allowed(c, s, op)
    ensures var t := Applied(c, s, op);
            && t.conns.items == Restricted(s.conns.items, op.order, Least(|op.order|, op.size))
            && (t.conns.items == s.conns.items <==> |s.conns.items| <= op.size)
            && Sound(c, t)
  {
    hide Recover, Image, Lawful, Indexed;
    var items, n := s.conns.items, Least(|op.order|, op.size);
    WalkLength(op.order, items);
    assert Keyed(c, items);
    ImageRoundTrip(c, items, op.order, op.size);
    SameMapIff(c, items, op.order, op.size);
    var back := Restricted(items, op.order, n);
    RestrictedLength(items, op.order, n);
    PairsAgree(back, op.walk);
  }

  lemma {:induction false} HistoryKeeps(c: Codec<Conn>, s: Server, ops: seq<Op>)
    requires Suits(c) && Sound(c, s) && Possible(c, s, ops)
    ensures Sound(c, After(c, s, ops))
    decreases |ops|
  {
    hide Sound, Allowed, Applied, Suits;
    if ops != [] {
      match ops[0] {
        case Create(conn) => CreateKeeps(c, s, conn);
        case Release(id) => ReleaseKeeps(c, s, id);
        case Restart(_, _, _) => RestartRestores(c, s, ops[0]);
      }
      HistoryKeeps(c, Applied(c, s, ops[0]), ops[1..]);
    }
  }

  /** After any history of fresh-id creates, releases and restarts through the image, to any sizes and
    with any walks, the index is exactly the pairs of live connections, each under its own id. */
  lemma EveryHistory(c: Codec<Conn>, maxSize: nat, ops: seq<Op>)
    requires Suits(c) && maxSize < SIZE && Possible(c, Server(Conns(map[], []), maxSize), ops)
    ensures var t := After(c, Server(Conns(map[], []), maxSize), ops);
            && Indexed(t.conns.items, t.conns.index) && ById(t.conns.items) && |t.conns.items| <= t.maxSize
  {
    HistoryKeeps(c, Server(Conns(map[], []), maxSize), ops);
  }

  lemma HasElement(s: set<int>)
    ensures s != {} ==> exists k :: k in s
  {
    if forall k :: k !in s { assert s == {}; }
  }

  class ClientConnManager {
    const base: Manager<Conn>
    var index: Index
    var enableUidIndex: bool

    ghost function State(): Conns
      reads this, base
    {
      Conns(base.items, index)
    }

    ghost predicate Agrees()
      reads this, base
    {
      enableUidIndex ==> Indexed(base.items, index)
    }

    constructor (codec: Codec<Conn>, memory: SharedMemory)
      ensures fresh(base) && base.codec == codec && base.memory == memory && base.items == map[] && index == []
    {
      base := new Manager<Conn>(codec, memory);
      index, enableUidIndex := [], false;
    }

    /** The recovered connections are indexed in the order in which the map is walked. */
    method Init(key: int, size: nat, enable: bool) returns (ok: bool, ghost walk: seq<int>)
      requires index == [] && base.items == map[]
      modifies this, base, base.memory
      ensures enableUidIndex == enable && (ok ==> Agrees())
      ensures ok && enable ==> Walks(walk, base.items) && index == Pairs(base.items, walk)
      ensures ok && key != 0 && key in old(base.memory.segments) ==>
                Recover(base.codec, old(base.memory.segments)[key], size) == Some(base.items)
    {
      hide Recovered, ReadElem;
      enableUidIndex, walk := enable, [];
      ok := base.Init(key, size);
      if !ok {
        return;
      }
      if enableUidIndex {
        var rest: set<int> := base.items.Keys;
        ghost var items := base.items;
        while rest != {}
          invariant rest <= base.items.Keys
          invariant forall i :: 0 <= i < |walk| ==> walk[i] in base.items && walk[i] !in rest
          invariant index == Pairs(base.items, walk)
          invariant forall k :: k in base.items && k !in rest ==> k in walk
          invariant forall i, j :: 0 <= i < j < |walk| ==> walk[i] != walk[j]
          invariant enableUidIndex == enable && base.items == items
          decreases |rest|
        {
          HasElement(rest);
          var k: int :| k in rest;
          index := index + [(base.items[k].uid, k)];
          rest := rest - {k};
          walk := walk + [k];
        }
        PairsAgree(base.items, walk);
      }
    }

    /** The callbacks on creation are not modelled. */
    method CreateClientConn(conn: Conn) returns (created: Option<Conn>)
      modifies this, base`items
      ensures if |old(base.items)| >= base.maxSize then created == None && State() == old(State())
              else created == Some(conn) && base.items == Created(old(State()), conn).items
      ensures enableUidIndex == old(enableUidIndex)
      ensures created.Some? && enableUidIndex ==> State() == Created(old(State()), conn)
      ensures created.Some? && enableUidIndex && old(Agrees()) ==> (Agrees() <==> conn.id !in old(base.items))
    {
      hide Indexed;
      if |base.items| >= base.maxSize {
        return None;
      }
      base.items := base.items[conn.id := conn];
      if enableUidIndex {
        index := index + [(conn.uid, conn.id)];
        if old(Agrees()) { CreatedAgreesIff(old(State()), conn); }
      }
      created := Some(conn);
    }

    method ReleaseClientConn(id: int)
      requires ById(base.items)
      modifies this, base`items
      ensures ById(base.items) && enableUidIndex == old(enableUidIndex)
      ensures base.items == old(base.items) - {id}
      ensures enableUidIndex ==> State() == Released(old(State()), id)
      ensures old(Agrees()) ==> Agrees()
    {
      hide Indexed;
      if id !in base.items {
        assert base.items - {id} == base.items;
        return;
      }
      var conn := base.items[id];
      if enableUidIndex {
        var k := 0;
        while k < |index|
          invariant k <= |index| && k <= PairAt(index, (conn.uid, id))
          invariant index == old(index)
        {
          if index[k].0 == conn.uid && index[k].1 == conn.id {
            index := index[..k] + index[k + 1..];
            break;
          }
          k := k + 1;
        }
      }
      base.items := base.items - {id};
      if enableUidIndex && old(Agrees()) { ReleasedAgrees(old(State()), id); }
    }

    method GetClientConn(id: int) returns (conn: Option<Conn>)
      ensures conn == if id in base.items then Some(base.items[id]) else None
    {
      conn := if id in base.items then Some(base.items[id]) else None;
    }

    /** A live connection of that user, if and only if there is one. */
    method GetClientConnByUid(uid: int) returns (conn: Option<Conn>)
      ensures !enableUidIndex ==> conn == None
      ensures enableUidIndex && Agrees() ==>
                && (conn.Some? <==> exists k :: k in base.items && base.items[k].uid == uid)
                && (conn.Some? ==> conn.value in base.items.Values && conn.value.uid == uid)
    {
      if !enableUidIndex {
        return None;
      }
      var k := UserAt(index, uid);
      if k == |index| {
        if Agrees() { NoneOfUser(base.items, index, uid); }
        return None;
      }
      assert Agrees() ==> index[k] in index;
      conn := GetClientConn(index[k].1);
    }
  }

  lemma NoneOfUser(items: map<int, Conn>, index: Index, uid: int)
    requires Indexed(items, index) && UserAt(index, uid) == |index|
    ensures !exists k :: k in items && items[k].uid == uid
  {
    forall k | k in items
      ensures items[k].uid != uid
    {
      var p := (items[k].uid, k);
      var i :| 0 <= i < |index| && index[i] == p;
    }
  }
}
