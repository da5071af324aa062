/**
 The keepalive pool as a recency list, and the ownership of upstream connections as a state
 machine over connect, clear and peer-close events. `C` stands for connections and `U` for the
 per-request upstreams.
 */
module PoolSpec {
  import opened Common

  /** An idle connection: the peer address it was made for, and the time of its release. */
  datatype Entry<C> = Entry(conn: C, addr: seq<byte>, stamp: nat)

  /** The `cache` queue from its head to its tail, the length of the `free` queue, and a clock. */
  datatype Pool<C> = Pool(cache: seq<Entry<C>>, free: nat, clock: nat)

  predicate Newest<C>(cache: seq<Entry<C>>) {
    forall i, j :: 0 <= i < j < |cache| ==> cache[i].stamp > cache[j].stamp
  }

  predicate PoolInv<C>(p: Pool<C>, max: nat) {
    && |p.cache| + p.free == max
    && Newest(p.cache)
    && forall i :: 0 <= i < |p.cache| ==> p.cache[i].stamp < p.clock
  }

  /** The position at which the walk of the cache queue stops: a hit, or the sentinel. */
  function Find<C>(cache: seq<Entry<C>>, addr: seq<byte>): (i: nat)
    ensures i <= |cache|
    ensures i < |cache| ==> cache[i].addr == addr
    ensures forall j :: 0 <= j < i ==> cache[j].addr != addr
  {
    if cache == [] || cache[0].addr == addr then 0 else 1 + Find(cache[1..], addr)
  }

  function RemoveAt<T>(s: seq<T>, i: nat): (r: seq<T>)
    requires i < |s|
  {
    s[..i] + s[i + 1..]
  }

  lemma RemoveAtIs<T>(s: seq<T>, i: nat)
    requires i < |s|
    requires forall j, k :: 0 <= j < k < |s| ==> s[j] != s[k]
    ensures forall x :: x in RemoveAt(s, i) <==> x in s && x != s[i]
  {
  }

  function Acquire<C>(p: Pool<C>, addr: seq<byte>): (Pool<C>, Option<C>) {
    var i := Find(p.cache, addr);
    if i < |p.cache| then
      (Pool(RemoveAt(p.cache, i), p.free + 1, p.clock), Some(p.cache[i].conn))
    else
      (p, None)
  }

  /** Frees a slot when none is free, at the expense of the last of the cache. */
  function MakeRoom<C>(p: Pool<C>): (r: (Pool<C>, Option<C>))
    requires |p.cache| + p.free > 0
    ensures r.0.free > 0 && |r.0.cache| + r.0.free == |p.cache| + p.free
  {
    if p.free == 0 then
      var n := |p.cache| - 1;
      (Pool(p.cache[..n], 1, p.clock), Some(p.cache[n].conn))
    else
      (p, None)
  }

  function Put<C>(p: Pool<C>, c: C, addr: seq<byte>): Pool<C>
    requires p.free > 0
  {
    Pool([Entry(c, addr, p.clock)] + p.cache, p.free - 1, p.clock + 1)
  }

  /** Puts `c` at the head of the cache; the second component is the connection evicted for it. */
  function Release<C>(p: Pool<C>, c: C, addr: seq<byte>): (Pool<C>, Option<C>)
    requires |p.cache| + p.free > 0
  {
    var (q, evicted) := MakeRoom(p);
    (Put(q, c, addr), evicted)
  }

  function Drop<C>(p: Pool<C>, i: nat): Pool<C>
    requires i < |p.cache|
  {
    Pool(RemoveAt(p.cache, i), p.free + 1, p.clock)
  }

  lemma DropInv<C>(p: Pool<C>, i: nat, max: nat)
    requires PoolInv(p, max) && i < |p.cache|
    ensures PoolInv(Drop(p, i), max)
  {
    var r := RemoveAt(p.cache, i);
    assert forall j :: 0 <= j < |r| ==> r[j] == p.cache[if j < i then j else j + 1];
  }

  lemma MakeRoomInv<C>(p: Pool<C>, max: nat)
    requires PoolInv(p, max) && max > 0
    ensures PoolInv(MakeRoom(p).0, max)
  {
  }

  lemma PutInv<C>(p: Pool<C>, c: C, addr: seq<byte>, max: nat)
    requires PoolInv(p, max) && p.free > 0
    ensures PoolInv(Put(p, c, addr), max)
  {
    var r := Put(p, c, addr).cache;
    assert forall j {:trigger r[j]} :: 1 <= j < |r| ==> r[j] == p.cache[j - 1];
  }

  lemma ReleaseInv<C>(p: Pool<C>, c: C, addr: seq<byte>, max: nat)
    requires PoolInv(p, max) && max > 0
    ensures PoolInv(Release(p, c, addr).0, max)
  {
    MakeRoomInv(p, max);
    PutInv(MakeRoom(p).0, c, addr, max);
  }

  /** A lookup takes the most recently released connection of that address, and misses only if
      the cache holds none. */
  lemma AcquireTakesNewest<C>(p: Pool<C>, addr: seq<byte>, max: nat)
    requires PoolInv(p, max)
    ensures PoolInv(Acquire(p, addr).0, max)
    ensures Acquire(p, addr).1 == None <==> forall e :: e in p.cache ==> e.addr != addr
    ensures Acquire(p, addr).1.Some? ==>
              exists e :: e in p.cache && e.conn == Acquire(p, addr).1.value && e.addr == addr
                && (forall f :: f in p.cache && f.addr == addr ==> f.stamp <= e.stamp)
                && (forall f :: f in Acquire(p, addr).0.cache <==> f in p.cache && f != e)
  {
    var i := Find(p.cache, addr);
    if i < |p.cache| {
      RemoveAtIs(p.cache, i);
      DropInv(p, i, max);
    }
  }

  /** A release keeps every idle connection but, when no slot is free, the one released longest
      ago; the connection released is then the newest. */
  lemma ReleaseEvictsOldest<C>(p: Pool<C>, c: C, addr: seq<byte>, max: nat)
    requires PoolInv(p, max) && max > 0
    ensures var (q, evicted) := Release(p, c, addr);
            && PoolInv(q, max)
            && q.cache[0] == Entry(c, addr, p.clock)
            && (evicted == None <==> |p.cache| < max)
            && (evicted == None ==> forall f :: f in p.cache ==> f in q.cache)
            && (evicted.Some? ==>
                  exists e :: e in p.cache && e.conn == evicted.value
                    && (forall f :: f in p.cache ==> e.stamp <= f.stamp)
                    && (forall f :: f in p.cache && f != e ==> f in q.cache)
                    && e !in q.cache)
  {
  }

  // ---- Ownership of connections ----

  /** What opening a new socket does to the peer's connection pointer. */
  datatype Outcome<C> =
    | Opened(conn: C)  // connected, or connecting
    | NoSocket         // failed before a connection was allocated: the pointer is not touched
    | Refused          // failed afterwards: the pointer is set to null

  /**
   held: peer.connection of each upstream, where it is not null
   addr: peer.sockaddr of each upstream, where it is not null
   open, closed: the connections now open, and each close that was made
   */
  datatype Sys<U, C> = Sys(max: nat, pool: Pool<C>, held: map<U, C>, addr: map<U, seq<byte>>,
                           open: set<C>, closed: multiset<C>)

  datatype Op<U, C> =
    | Connect(u: U, to: seq<byte>, outcome: Outcome<C>)
    | Clear(u: U, eventOk: bool)
    | PeerEvent(c: C, hangup: bool)

  ghost function CacheConns<U, C>(s: Sys<U, C>): set<C> {
    set i | 0 <= i < |s.pool.cache| :: s.pool.cache[i].conn
  }

  ghost function Owners<U, C>(s: Sys<U, C>): set<C> {
    s.held.Values + CacheConns(s)
  }

  /** No connection is pointed to from two places. */
  ghost predicate Linked<U, C>(s: Sys<U, C>) {
    && PoolInv(s.pool, s.max)
    && (forall i, j :: 0 <= i < j < |s.pool.cache| ==> s.pool.cache[i].conn != s.pool.cache[j].conn)
    && (forall u, v :: u in s.held && v in s.held && s.held[u] == s.held[v] ==> u == v)
    && (forall u, i :: u in s.held && 0 <= i < |s.pool.cache| ==> s.held[u] != s.pool.cache[i].conn)
  }

  /** The connections pointed to are exactly the open ones, and none was closed twice. */
  ghost predicate Owned<U, C>(s: Sys<U, C>) {
    && Linked(s)
    && Owners(s) == s.open
    && (forall u :: u in s.held ==> u in s.addr)
    && (forall c :: c in s.closed ==> c !in s.open && s.closed[c] == 1)
  }

  /** A connection that is opened is a new one. */
  ghost predicate FreshOp<U, C>(s: Sys<U, C>, op: Op<U, C>) {
    op.Connect? && op.outcome.Opened? ==>
      op.outcome.conn !in Owners(s) && op.outcome.conn !in s.open && op.outcome.conn !in s.closed
  }

  predicate Hit<U, C>(s: Sys<U, C>, to: seq<byte>) {
    s.max > 0 && Find(s.pool.cache, to) < |s.pool.cache|
  }

  function CloseConn<U, C(==)>(s: Sys<U, C>, c: C): Sys<U, C> {
    s.(open := s.open - {c}, closed := s.closed + multiset{c})
  }

  function StepConnect<U(==), C(==)>(s: Sys<U, C>, u: U, to: seq<byte>, outcome: Outcome<C>): Sys<U, C> {
    var s1 := s.(addr := s.addr[u := to]);
    if Hit(s, to) then
      var (p, c) := Acquire(s.pool, to);
      s1.(pool := p, held := s.held[u := c.value])
    else match outcome
      case Opened(c) => s1.(held := s.held[u := c], open := s.open + {c})
      case NoSocket => s1
      case Refused => s1.(held := s.held - {u})
  }

  /** The two queues together hold every slot. */
  predicate Sized<U, C>(s: Sys<U, C>) {
    |s.pool.cache| + s.pool.free == s.max
  }

  function StepClear<U(==), C(==)>(s: Sys<U, C>, u: U, eventOk: bool): Sys<U, C>
    requires Sized(s)
  {
    if u !in s.held then s
    else if u in s.addr && s.max > 0 && eventOk then
      var (p, evicted) := Release(s.pool, s.held[u], s.addr[u]);
      var s1 := s.(pool := p, held := s.held - {u}, addr := s.addr - {u});
      if evicted.Some? then CloseConn(s1, evicted.value) else s1
    else
      CloseConn(s.(addr := s.addr - {u}), s.held[u])
  }

  function IndexOf<C(==)>(cache: seq<Entry<C>>, c: C): (i: nat)
    ensures i <= |cache|
    ensures i < |cache| ==> cache[i].conn == c
    ensures forall j :: 0 <= j < i ==> cache[j].conn != c
  {
    if cache == [] || cache[0].conn == c then 0 else 1 + IndexOf(cache[1..], c)
  }

  predicate Caches<C(==)>(cache: seq<Entry<C>>, c: C) {
    cache != [] && (cache[0].conn == c || Caches(cache[1..], c))
  }

  lemma CachesIndexOf<C>(cache: seq<Entry<C>>, c: C)
    ensures Caches(cache, c) <==> IndexOf(cache, c) < |cache|
  {
  }

  lemma ReleaseKeeps<C>(p: Pool<C>, c: C, addr: seq<byte>, x: C)
    requires |p.cache| + p.free > 0 && Caches(p.cache, x) && MakeRoom(p).1 != Some(x)
    ensures Caches(Release(p, c, addr).0.cache, x)
  {
    var q := Release(p, c, addr).0.cache;
    CachesIndexOf(p.cache, x);
    CachesIndexOf(q, x);
    var i := IndexOf(p.cache, x);
    assert q[i + 1] == p.cache[i];
  }

  lemma DropKeeps<C>(cache: seq<Entry<C>>, i: nat, x: C)
    requires i < |cache| && Caches(cache, x) && cache[i].conn != x
    ensures Caches(RemoveAt(cache, i), x)
  {
    var r := RemoveAt(cache, i);
    CachesIndexOf(cache, x);
    CachesIndexOf(r, x);
    var j := IndexOf(cache, x);
    assert r[if j < i then j else j - 1] == cache[j];
  }

  function StepPeer<U(==), C(==)>(s: Sys<U, C>, c: C, hangup: bool): Sys<U, C> {
    var i := IndexOf(s.pool.cache, c);
    if hangup && i < |s.pool.cache| then CloseConn(s.(pool := Drop(s.pool, i)), c) else s
  }

  function Step<U(==), C(==)>(s: Sys<U, C>, op: Op<U, C>): Sys<U, C>
    requires Sized(s)
  {
    match op
    case Connect(u, to, outcome) => StepConnect(s, u, to, outcome)
    case Clear(u, eventOk) => StepClear(s, u, eventOk)
    case PeerEvent(c, hangup) => StepPeer(s, c, hangup)
  }

  /** What a caller can check before a step. */
  predicate Proper<U, C>(s: Sys<U, C>, op: Op<U, C>) {
    match op
    case Connect(u, to, outcome) => u !in s.held || (outcome.NoSocket? && !Hit(s, to))
    case Clear(u, eventOk) => u !in s.held || (s.max > 0 && eventOk)
    case PeerEvent(_, _) => true
  }

  lemma StepConnectLinked<U, C>(s: Sys<U, C>, u: U, to: seq<byte>, o: Outcome<C>)
    requires Linked(s) && FreshOp(s, Connect(u, to, o))
    ensures Linked(StepConnect(s, u, to, o))
  {
    var i := Find(s.pool.cache, to);
    var r := StepConnect(s, u, to, o);
    if Hit(s, to) {
      DropInv(s.pool, i, s.max);
      assert forall j :: 0 <= j < |r.pool.cache| ==> r.pool.cache[j] == s.pool.cache[if j < i then j else j + 1];
      assert r.held[u] == s.pool.cache[i].conn;
    } else if o.Opened? {
      assert forall j :: 0 <= j < |s.pool.cache| ==> s.pool.cache[j].conn in CacheConns(s);
      assert forall v :: v in s.held ==> s.held[v] in s.held.Values;
    }
  }

  lemma StepClearLinked<U, C>(s: Sys<U, C>, u: U, eventOk: bool)
    requires Linked(s)
    ensures Linked(StepClear(s, u, eventOk))
  {
    var r := StepClear(s, u, eventOk);
    if u in s.held && u in s.addr && s.max > 0 && eventOk {
      ReleaseInv(s.pool, s.held[u], s.addr[u], s.max);
      assert r.pool.cache[0].conn == s.held[u];
      assert forall j :: 1 <= j < |r.pool.cache| ==> r.pool.cache[j] == s.pool.cache[j - 1];
    }
  }

  lemma StepPeerLinked<U, C>(s: Sys<U, C>, c: C, hangup: bool)
    requires Linked(s)
    ensures Linked(StepPeer(s, c, hangup))
  {
    var i := IndexOf(s.pool.cache, c);
    var r := StepPeer(s, c, hangup);
    if hangup && i < |s.pool.cache| {
      DropInv(s.pool, i, s.max);
      assert forall j :: 0 <= j < |r.pool.cache| ==> r.pool.cache[j] == s.pool.cache[if j < i then j else j + 1];
    }
  }

  /** Whatever the environment does, no connection comes to be pointed to from two places, and
      the two queues keep their total length. */
  lemma {:induction false} StepLinked<U, C>(s: Sys<U, C>, op: Op<U, C>)
    requires Linked(s) && FreshOp(s, op)
    ensures Linked(Step(s, op))
  {
    match op {
      case Connect(u, to, o) => StepConnectLinked(s, u, to, o);
      case Clear(u, eventOk) => StepClearLinked(s, u, eventOk);
      case PeerEvent(c, hangup) => StepPeerLinked(s, c, hangup);
    }
  }

  /** A connect gives the upstream the newest idle connection of the address, and takes exactly that out
      of the pool; where there is none the pool is left alone and the outcome of the network counts. */
  lemma ConnectTakes<U, C>(s: Sys<U, C>, u: U, to: seq<byte>, o: Outcome<C>)
    requires Linked(s)
    ensures var t := StepConnect(s, u, to, o);
            && t.addr == s.addr[u := to] && t.max == s.max && t.closed == s.closed
            && ((exists e :: e in s.pool.cache && e.addr == to) ==>
                  && t.open == s.open
                  && exists e :: e in s.pool.cache && e.addr == to && t.held == s.held[u := e.conn]
                       && (forall f :: f in s.pool.cache && f.addr == to ==> f.stamp <= e.stamp)
                       && (forall f :: f in t.pool.cache <==> f in s.pool.cache && f != e))
            && ((forall e :: e in s.pool.cache ==> e.addr != to) ==>
                  && t.pool == s.pool
                  && match o
                     case Opened(c) => t.held == s.held[u := c] && t.open == s.open + {c}
                     case NoSocket => t.held == s.held && t.open == s.open
                     case Refused => t.held == s.held - {u} && t.open == s.open)
  {
    var i := Find(s.pool.cache, to);
    if i < |s.pool.cache| {
      RemoveAtIs(s.pool.cache, i);
      var e := s.pool.cache[i];
      assert e in s.pool.cache;
    }
  }

  /** A clear puts the connection at the head of the pool under the address that it was made to, and closes
      nothing but the oldest idle one of a full pool; where pooling is off, or the event cannot be added, it
      closes the connection, and the pool and the pointer are left alone. */
  lemma ClearParks<U, C>(s: Sys<U, C>, u: U, eventOk: bool)
    requires Linked(s) && u in s.held
    ensures var t := StepClear(s, u, eventOk);
            && t.max == s.max && t.addr == s.addr - {u}
            && (u in s.addr && s.max > 0 && eventOk ==>
                  && t.held == s.held - {u}
                  && t.pool.cache[..1] == [Entry(s.held[u], s.addr[u], s.pool.clock)]
                  && (|s.pool.cache| < s.max ==>
                        t.open == s.open && t.closed == s.closed && forall f :: f in s.pool.cache ==> f in t.pool.cache)
                  && (|s.pool.cache| == s.max ==>
                        exists e :: e in s.pool.cache && e !in t.pool.cache
                          && t.open == s.open - {e.conn} && t.closed == s.closed + multiset{e.conn}
                          && (forall f :: f in s.pool.cache ==> e.stamp <= f.stamp)
                          && (forall f :: f in s.pool.cache && f != e ==> f in t.pool.cache)))
            && (!(u in s.addr && s.max > 0 && eventOk) ==>
                  && t.held == s.held && t.pool == s.pool
                  && t.open == s.open - {s.held[u]} && t.closed == s.closed + multiset{s.held[u]})
  {
    if u in s.addr && s.max > 0 && eventOk {
      ReleaseEvictsOldest(s.pool, s.held[u], s.addr[u], s.max);
    }
  }

  /** A hangup of an idle connection takes it out of the pool and closes it. Nothing else does anything. */
  lemma PeerCloses<U, C>(s: Sys<U, C>, c: C, hangup: bool)
    requires Linked(s)
    ensures var t := StepPeer(s, c, hangup);
            && t.max == s.max && t.held == s.held && t.addr == s.addr
            && (!hangup ==> t == s)
            && ((forall e :: e in s.pool.cache ==> e.conn != c) ==> t == s)
            && (hangup ==> forall e :: e in s.pool.cache && e.conn == c ==>
                  && t.open == s.open - {c} && t.closed == s.closed + multiset{c}
                  && forall f :: f in t.pool.cache <==> f in s.pool.cache && f != e)
  {
    var i := IndexOf(s.pool.cache, c);
    if hangup && i < |s.pool.cache| {
      RemoveAtIs(s.pool.cache, i);
    }
  }

  lemma RemoveAtConns<C>(cache: seq<Entry<C>>, i: nat)
    requires i < |cache|
    requires forall j, k :: 0 <= j < k < |cache| ==> cache[j].conn != cache[k].conn
    ensures var r := RemoveAt(cache, i);
            (set j | 0 <= j < |r| :: r[j].conn) == (set j | 0 <= j < |cache| :: cache[j].conn) - {cache[i].conn}
  {
    var r := RemoveAt(cache, i);
    var a := set j | 0 <= j < |r| :: r[j].conn;
    var b := set j | 0 <= j < |cache| :: cache[j].conn;
    forall c | c in b && c != cache[i].conn ensures c in a {
      var j :| 0 <= j < |cache| && cache[j].conn == c;
      assert r[if j < i then j else j - 1].conn == c;
    }
    forall c | c in a ensures c in b && c != cache[i].conn {
      var j :| 0 <= j < |r| && r[j].conn == c;
      assert cache[if j < i then j else j + 1].conn == c;
    }
  }

  lemma UpdateValues<U, C>(m: map<U, C>, u: U, c: C)
    requires u !in m
    ensures m[u := c].Values == m.Values + {c}
  {
    var n := m[u := c];
    assert n[u] == c;
    forall x | x in m.Values ensures x in n.Values {
      var v :| v in m && m[v] == x;
      assert n[v] == x;
    }
  }

  lemma RemoveValues<U, C>(m: map<U, C>, u: U)
    requires u in m
    requires forall x, y :: x in m && y in m && m[x] == m[y] ==> x == y
    ensures (m - {u}).Values == m.Values - {m[u]}
  {
    var n := m - {u};
    forall x | x in m.Values && x != m[u] ensures x in n.Values {
      var v :| v in m && m[v] == x;
      assert n[v] == x;
    }
  }

  lemma ConnectLeaks<U, C>(s: Sys<U, C>, u: U, to: seq<byte>, o: Outcome<C>)
    requires Owned(s) && FreshOp(s, Connect(u, to, o)) && u in s.held && !(o.NoSocket? && !Hit(s, to))
    ensures !Owned(StepConnect(s, u, to, o))
  {
    var r := StepConnect(s, u, to, o);
    assert s.held[u] in Owners(s);
    assert s.held[u] !in r.held.Values;
    if Hit(s, to) {
      RemoveAtConns(s.pool.cache, Find(s.pool.cache, to));
    }
    assert s.held[u] !in Owners(r);
  }

  /** A connect keeps exact ownership if and only if the upstream held no connection, or the
      attempt failed without touching its pointer: otherwise the held connection leaks. */
  lemma ConnectOwned<U, C>(s: Sys<U, C>, u: U, to: seq<byte>, o: Outcome<C>)
    requires Owned(s) && FreshOp(s, Connect(u, to, o))
    ensures Owned(StepConnect(s, u, to, o)) <==> Proper(s, Connect(u, to, o))
  {
    if u in s.held && !(o.NoSocket? && !Hit(s, to)) {
      ConnectLeaks(s, u, to, o);
    } else {
      StepConnectLinked(s, u, to, o);
      var i := Find(s.pool.cache, to);
      if Hit(s, to) {
        RemoveAtConns(s.pool.cache, i);
        UpdateValues(s.held, u, s.pool.cache[i].conn);
      } else if o.Opened? {
        UpdateValues(s.held, u, o.conn);
      } else if o.Refused? {
        assert s.held - {u} == s.held;
      }
    }
  }

  /** A clear keeps exact ownership if and only if the upstream holds nothing, or pooling is on and
      the read event could be registered: otherwise its pointer is left on a closed connection. */
  lemma ClearOwned<U, C>(s: Sys<U, C>, u: U, eventOk: bool)
    requires Owned(s)
    ensures Owned(StepClear(s, u, eventOk)) <==> Proper(s, Clear(u, eventOk))
  {
    StepClearLinked(s, u, eventOk);
    var r := StepClear(s, u, eventOk);
    if u in s.held {
      if s.max > 0 && eventOk {
        RemoveValues(s.held, u);
        ReleaseConns(s.pool, s.held[u], s.addr[u]);
      } else {
        assert s.held[u] in r.held.Values;
      }
    }
  }

  lemma ReleaseConns<C>(p: Pool<C>, c: C, addr: seq<byte>)
    requires |p.cache| + p.free > 0
    requires forall j, k :: 0 <= j < k < |p.cache| ==> p.cache[j].conn != p.cache[k].conn
    ensures var (q, evicted) := Release(p, c, addr);
            var before := set j | 0 <= j < |p.cache| :: p.cache[j].conn;
            && (set j | 0 <= j < |q.cache| :: q.cache[j].conn)
               == {c} + (if evicted.Some? then before - {evicted.value} else before)
            && (evicted.Some? ==> evicted.value in before)
  {
    var q := Release(p, c, addr).0;
    var a := set j | 0 <= j < |q.cache| :: q.cache[j].conn;
    var b := set j | 0 <= j < |p.cache| :: p.cache[j].conn;
    assert q.cache[0].conn == c;
    assert forall j :: 1 <= j < |q.cache| ==> q.cache[j] == p.cache[j - 1];
    forall x | x in b && (p.free == 0 ==> x != p.cache[|p.cache| - 1].conn) ensures x in a {
      var j :| 0 <= j < |p.cache| && p.cache[j].conn == x;
      assert q.cache[j + 1].conn == x;
    }
  }

  lemma PeerOwned<U, C>(s: Sys<U, C>, c: C, hangup: bool)
    requires Owned(s)
    ensures Owned(StepPeer(s, c, hangup))
  {
    StepPeerLinked(s, c, hangup);
    var i := IndexOf(s.pool.cache, c);
    if hangup && i < |s.pool.cache| {
      RemoveAtConns(s.pool.cache, i);
      assert c in CacheConns(s);
    }
  }

  lemma StepOwned<U, C>(s: Sys<U, C>, op: Op<U, C>)
    requires Owned(s) && FreshOp(s, op)
    ensures Owned(Step(s, op)) <==> Proper(s, op)
  {
    match op {
      case Connect(u, to, o) => ConnectOwned(s, u, to, o);
      case Clear(u, eventOk) => ClearOwned(s, u, eventOk);
      case PeerEvent(c, hangup) => PeerOwned(s, c, hangup);
    }
  }

  // ---- Runs ----

  /** Every connection that a run opens is a new one. */
  ghost predicate FreshRun<U, C>(s: Sys<U, C>, ops: seq<Op<U, C>>)
    requires Linked(s)
    decreases |ops|
  {
    ops != [] ==>
      && FreshOp(s, ops[0])
      && (StepLinked(s, ops[0]); FreshRun(Step(s, ops[0]), ops[1..]))
  }

  ghost predicate ProperRun<U, C>(s: Sys<U, C>, ops: seq<Op<U, C>>)
    requires Linked(s) && FreshRun(s, ops)
    decreases |ops|
  {
    ops != [] ==>
      && Proper(s, ops[0])
      && (StepLinked(s, ops[0]); ProperRun(Step(s, ops[0]), ops[1..]))
  }

  ghost predicate OwnedThroughout<U, C>(s: Sys<U, C>, ops: seq<Op<U, C>>)
    requires Linked(s) && FreshRun(s, ops)
    decreases |ops|
  {
    && Owned(s)
    && (ops != [] ==> (StepLinked(s, ops[0]); OwnedThroughout(Step(s, ops[0]), ops[1..])))
  }

  ghost function Run<U, C>(s: Sys<U, C>, ops: seq<Op<U, C>>): (r: Sys<U, C>)
    requires Linked(s) && FreshRun(s, ops)
    ensures Linked(r) && r.max == s.max
    decreases |ops|
  {
    if ops == [] then s else
      StepLinked(s, ops[0]);
      Run(Step(s, ops[0]), ops[1..])
  }

  /** Over any interleaving of connects, clears and peer closes: each open connection has exactly
      one owner, and none is closed twice, in every state of the run, if and only if every step
      was a proper one. */
  lemma {:induction false} OwnershipOverRuns<U, C>(s: Sys<U, C>, ops: seq<Op<U, C>>)
    requires Owned(s) && FreshRun(s, ops)
    ensures OwnedThroughout(s, ops) <==> ProperRun(s, ops)
    decreases |ops|
  {
    if ops != [] {
      StepLinked(s, ops[0]);
      StepOwned(s, ops[0]);
      if Proper(s, ops[0]) {
        OwnershipOverRuns(Step(s, ops[0]), ops[1..]);
      }
    }
  }

  lemma {:induction false} ProperRunEndsOwned<U, C>(s: Sys<U, C>, ops: seq<Op<U, C>>)
    requires Owned(s) && FreshRun(s, ops) && ProperRun(s, ops)
    ensures Owned(Run(s, ops))
    ensures |Run(s, ops).pool.cache| <= s.max
    decreases |ops|
  {
    if ops != [] {
      StepLinked(s, ops[0]);
      StepOwned(s, ops[0]);
      ProperRunEndsOwned(Step(s, ops[0]), ops[1..]);
    }
  }

  function Start<U(==), C(==)>(max: nat): (s: Sys<U, C>) {
    Sys(max, Pool([], max, 0), map[], map[], {}, multiset{})
  }

  lemma StartOwned<U, C>(max: nat)
    ensures Owned(Start<U, C>(max))
  {
  }

  /** With pooling off, clearing an upstream twice closes its connection twice. */
  lemma DoubleCloseWithoutPool<U, C>(u: U, c: C, to: seq<byte>)
    ensures var s := Start<U, C>(0);
            var ops := [Connect(u, to, Opened(c)), Clear(u, true), Clear(u, true)];
            FreshRun(s, ops) && Run(s, ops).closed[c] == 2
  {
    var s := Start<U, C>(0);
    var op0, op1 := Connect(u, to, Opened(c)), Op<U, C>.Clear(u, true);
    var s1 := Step(s, op0);
    StepLinked(s, op0);
    StepLinked(s1, op1);
    var s2 := Step(s1, op1);
    StepLinked(s2, op1);
    assert [op0, op1, op1][1..] == [op1, op1];
    assert [op1, op1][1..] == [op1];
    assert [op1][1..] == [];
    assert FreshRun(s2, [op1]);
    assert FreshRun(s1, [op1, op1]);
    assert Run(s2, [op1]) == Step(s2, op1);
    assert Run(s1, [op1, op1]) == Run(s2, [op1]);
  }
}
