/**
 The ownership of upstream connections, as in ngx_http_php_socket.c: connecting through the pool,
 finalizing, and the read events of idle connections. Every method is tied to the step of the
 state machine in PoolSpec that it makes.
 */
module Socket {
  import opened Common
  import opened PoolSpec
  import opened Keepalive

  /** What ngx_event_connect_peer meets when the pool has no connection to give. */
  datatype Net = Connected | Connecting | NoFd | Unreachable

  datatype Result = OK | AGAIN | ERROR

  type State = Sys<Peer, Connection>

  /** What the state machine records of an upstream. */
  ghost predicate PeerOk(u: Peer, held: map<Peer, Connection>, addr: map<Peer, seq<byte>>)
    reads u
  {
    && (if u in held then u.connection == held[u] else u.connection == null)
    && u.socklen <= STORAGE
    && match u.sockaddr
       case None => u !in addr
       case Some(a) => u.socklen <= |a| && u in addr && addr[u] == a[..u.socklen]
  }

  ghost predicate PeersOk(ups: set<Peer>, held: map<Peer, Connection>, addr: map<Peer, seq<byte>>)
    reads ups
  {
    && held.Keys <= ups && addr.Keys <= ups
    && forall u :: u in ups ==> PeerOk(u, held, addr)
  }

  lemma PeersForget(ups: set<Peer>, held: map<Peer, Connection>, addr: map<Peer, seq<byte>>, u: Peer)
    requires held.Keys <= ups && addr.Keys <= ups
    requires (forall v :: v in ups && v != u ==> PeerOk(v, held, addr)) && PeerOk(u, map[], map[])
    ensures PeersOk(ups, held - {u}, addr - {u})
  {
  }

  /** A connection in use points back to its upstream. */
  ghost predicate HeldLinks(conns: set<Connection>, held: map<Peer, Connection>)
    reads conns`data
  {
    forall u {:trigger u in held} :: u in held ==> held[u] in conns && held[u].data == ToPeer(u)
  }

  /** An idle connection points back to its slot. */
  ghost predicate CacheLinks(conns: set<Connection>, cache: seq<Entry<Connection>>, q: seq<Slot>)
    reads conns`data
  {
    && |cache| == |q|
    && forall i {:trigger cache[i]} :: 0 <= i < |q| ==> cache[i].conn in conns && cache[i].conn.data == ToSlot(q[i])
  }

  /** An open connection that points to a slot is in the cache. */
  ghost predicate IdleLinks(conns: set<Connection>, open: set<Connection>, cache: seq<Entry<Connection>>)
    reads conns`data
  {
    forall c :: c in conns && c in open && c.data.ToSlot? ==> Caches(cache, c)
  }

  ghost predicate BackLinks(conns: set<Connection>, sys: State, q: seq<Slot>)
    reads conns`data
  {
    && Whole(HeldLinks(conns, sys.held))
    && Whole(CacheLinks(conns, sys.pool.cache, q))
    && Whole(IdleLinks(conns, sys.open, sys.pool.cache))
  }

  lemma ParkedLinks(conns: set<Connection>, sys: State, u: Peer, c: Connection, q: seq<Slot>)
    requires Sized(sys) && sys.max > 0 && c in conns && c.data.ToSlot? && u in sys.addr
    requires CacheLinks(conns, sys.pool.cache, q) && IdleLinks(conns, sys.open - {c}, sys.pool.cache)
    ensures var (p, evicted) := Release(sys.pool, c, sys.addr[u]);
            && CacheLinks(conns, p.cache, [c.data.slot] + q[..|p.cache| - 1])
            && IdleLinks(conns, if evicted.Some? then sys.open - {evicted.value} else sys.open, p.cache)
  {
    var p := Release(sys.pool, c, sys.addr[u]).0;
    forall x | Caches(sys.pool.cache, x) && MakeRoom(sys.pool).1 != Some(x) ensures Caches(p.cache, x) {
      ReleaseKeeps(sys.pool, c, sys.addr[u], x);
    }
  }

  ghost predicate Known(conns: set<Connection>, sys: State) {
    sys.open <= conns && forall c :: c in sys.closed ==> c in conns
  }

  lemma StrangerOwnsNothing(conns: set<Connection>, sys: State, q: seq<Slot>, u: Peer, c: Connection)
    requires BackLinks(conns, sys, q) && Known(conns, sys) && c !in conns
    ensures FreshOp(sys, Op.Connect(u, [], Opened(c)))
  {
    assert forall i :: 0 <= i < |sys.pool.cache| ==> sys.pool.cache[i].conn in conns;
    assert forall u :: u in sys.held ==> sys.held[u] in conns;
  }

  ghost predicate NetOutcome(net: Net, o: Outcome<Connection>) {
    match net
    case NoFd => o.NoSocket?
    case Unreachable => o.Refused?
    case _ => o.Opened?
  }

  /** A connect of `u` to `to` led from `s` to `t`: a hit asks nothing of the network, a miss does, and
      opens a new connection if the network gives one. */
  ghost predicate ConnectMade(s: State, u: Peer, to: seq<byte>, net: Net, o: Outcome<Connection>, t: State) {
    && (if Hit(s, to) then o == NoSocket else NetOutcome(net, o))
    && FreshOp(s, Op.Connect(u, to, o))
    && t == StepConnect(s, u, to, o)
  }

  lemma MadeAfterAddr(s: State, u: Peer, to: seq<byte>, net: Net, o: Outcome<Connection>, t: State)
    requires Whole(ConnectMade(s.(addr := s.addr[u := to]), u, to, net, o, t))
    ensures Whole(ConnectMade(s, u, to, net, o, t))
  {
    var s1 := s.(addr := s.addr[u := to]);
    assert s1.addr[u := to] == s1.addr;
  }

  /** The same for the part that asks the pool */
  ghost predicate PoolMade(s: State, u: Peer, hit: bool, t: State) {
    && u in s.addr
    && (hit <==> Hit(s, s.addr[u]))
    && t == if hit then
              var (p, c) := Acquire(s.pool, s.addr[u]);
              s.(pool := p, held := s.held[u := c.value])
            else s
  }

  lemma MadeByHit(s: State, u: Peer, to: seq<byte>, net: Net, t: State)
    requires u in s.addr && s.addr[u] == to && PoolMade(s, u, true, t)
    ensures Whole(ConnectMade(s, u, to, net, NoSocket, t))
  {
    assert s.addr[u := to] == s.addr;
  }

  lemma MadeByNet(s: State, u: Peer, to: seq<byte>, net: Net, o: Outcome<Connection>, t: State)
    requires u in s.addr && s.addr[u] == to && !Hit(s, to)
    requires Whole(OpenMade(s, u, net, o, t))
    ensures Whole(ConnectMade(s, u, to, net, o, t))
  {
    assert s.addr[u := to] == s.addr;
  }

  function NewConn(o: Outcome<Connection>): set<Connection> {
    if o.Opened? then {o.conn} else {}
  }

  /** The same for the part that makes a new socket */
  ghost predicate OpenMade(s: State, u: Peer, net: Net, o: Outcome<Connection>, t: State) {
    && NetOutcome(net, o)
    && FreshOp(s, Op.Connect(u, [], o))
    && match o
       case NoSocket => t == s
       case Refused => t == s.(held := s.held - {u})
       case Opened(c) => t == s.(held := s.held[u := c], open := s.open + {c})
  }

  // ---- Runs of calls ----

  /** What scripts and the event engine make a worker do. A read event is for the connection at `index`
      among those that are open. */
  datatype Call =
    | ConnectCall(u: Peer, sockaddr: seq<byte>, socklen: nat, addEventOk: bool, net: Net, eventsOk: bool)
    | ClearCall(u: Peer, readEventOk: bool)
    | ReadCall(index: nat, closing: bool, peek: Peek, readEventOk: bool)

  predicate CallOk(call: Call, ups: set<Peer>) {
    match call
    case ConnectCall(u, sockaddr, socklen, _, _, _) => u in ups && socklen <= |sockaddr| && socklen <= STORAGE
    case ClearCall(u, _) => u in ups
    case ReadCall(_, _, _, _) => true
  }

  ghost predicate AllOpen(live: seq<Connection>, open: set<Connection>) {
    forall c :: c in live ==> c in open
  }

  function Minus(live: seq<Connection>, closed: seq<Connection>): seq<Connection> {
    if live == [] then []
    else if live[0] in closed then Minus(live[1..], closed)
    else [live[0]] + Minus(live[1..], closed)
  }

  lemma {:induction false} MinusIs(live: seq<Connection>, closed: seq<Connection>)
    ensures forall c :: c in Minus(live, closed) ==> c in live && c !in closed
  {
    if live != [] {
      MinusIs(live[1..], closed);
    }
  }

  /** The step that a call is; a read event is none if there is no such connection. */
  ghost predicate OpOf(call: Call, op: Option<Op<Peer, Connection>>) {
    match call
    case ConnectCall(u, sockaddr, socklen, _, net, _) =>
      && op.Some? && op.value.Connect? && socklen <= |sockaddr|
      && op.value.u == u && op.value.to == sockaddr[..socklen]
      && (op.value.outcome == NoSocket || NetOutcome(net, op.value.outcome))
    case ClearCall(u, readEventOk) => op == Some(Op.Clear(u, readEventOk))
    case ReadCall(_, closing, peek, readEventOk) =>
      op.Some? ==> op.value.PeerEvent? && op.value.hangup == (closing || peek != WouldBlock || !readEventOk)
  }

  /** The steps that the calls are, in order */
  ghost predicate OpsOf(calls: seq<Call>, ops: seq<Op<Peer, Connection>>)
    decreases |calls|
  {
    if calls == [] then ops == []
    else
      || (ops != [] && OpOf(calls[0], Some(ops[0])) && OpsOf(calls[1..], ops[1..]))
      || (OpOf(calls[0], None) && OpsOf(calls[1..], ops))
  }

  /** The call was this step of the state machine, or none. */
  ghost predicate Performed(s: State, op: Option<Op<Peer, Connection>>, t: State) {
    match op
    case None => t == s
    case Some(o) => Sized(s) && FreshOp(s, o) && t == Step(s, o)
  }

  lemma ConnectPerformed(s: State, u: Peer, to: seq<byte>, net: Net, o: Outcome<Connection>, t: State,
                         live: seq<Connection>, live1: seq<Connection>)
    requires Sized(s) && Whole(ConnectMade(s, u, to, net, o, t)) && AllOpen(live, s.open)
    requires live1 == if o.Opened? then live + [o.conn] else live
    ensures Whole(Performed(s, Some(Op.Connect(u, to, o)), t) && AllOpen(live1, t.open))
  {
  }

  lemma ClosePerformed(s: State, op: Op<Peer, Connection>, closed: seq<Connection>, live: seq<Connection>)
    requires Sized(s) && !op.Connect? && AllOpen(live, s.open)
    requires Step(s, op).closed == s.closed + multiset(closed)
    ensures Whole(Performed(s, Some(op), Step(s, op)) && AllOpen(Minus(live, closed), Step(s, op).open))
  {
    forall c | c in s.open && c !in Step(s, op).open ensures c in closed {
      assert Step(s, op).closed[c] == s.closed[c] + 1;
      assert c in multiset(closed);
    }
    MinusIs(live, closed);
  }

  lemma PerformedLinked(s: State, op: Option<Op<Peer, Connection>>, t: State)
    requires Linked(s) && Performed(s, op, t)
    ensures Linked(t)
  {
    if op.Some? {
      StepLinked(s, op.value);
    }
  }

  lemma RunCons(s: State, op: Option<Op<Peer, Connection>>, rest: seq<Op<Peer, Connection>>)
    requires Linked(s) && (op.Some? ==> FreshOp(s, op.value))
    requires var t := if op.Some? then Step(s, op.value) else s;
             Linked(t) && FreshRun(t, rest)
    ensures var ops := if op.Some? then [op.value] + rest else rest;
            var t := if op.Some? then Step(s, op.value) else s;
            FreshRun(s, ops) && Run(s, ops) == Run(t, rest)
  {
    if op.Some? {
      HeadTail(op.value, rest);
    }
  }

  lemma RunOwned(s: State, ops: seq<Op<Peer, Connection>>)
    requires Linked(s) && FreshRun(s, ops)
    ensures Owned(s) ==> (OwnedThroughout(s, ops) <==> ProperRun(s, ops))
    ensures Owned(s) && ProperRun(s, ops) ==> Owned(Run(s, ops))
  {
    if Owned(s) {
      OwnershipOverRuns(s, ops);
      if ProperRun(s, ops) {
        ProperRunEndsOwned(s, ops);
      }
    }
  }

  /** One worker: the pool, the upstreams of its requests, and every connection it made. */
  class Cycle {
    const kc: Conf
    ghost var ups: set<Peer>
    ghost var conns: set<Connection>
    ghost var sys: State

    ghost predicate Valid()
      reads this, kc, kc.cache, kc.free, kc.slots, ups, conns
    {
      && Whole(kc.Valid())
      && sys.max == kc.maxCached && sys.pool == kc.view
      && PeersOk(ups, sys.held, sys.addr)
      && BackLinks(conns, sys, kc.cacheQ)
      && Known(conns, sys)
    }

    constructor (max: nat)
      ensures Valid() && sys == Start(max) && ups == {}
    {
      kc := new Conf(max);
      ups, conns, sys := {}, {}, Start(max);
    }

    /** The upstream of a new request. */
    method NewPeer() returns (u: Peer)
      requires Valid()
      modifies this`ups
      ensures Valid() && fresh(u) && ups == old(ups) + {u} && u !in sys.held
    {
      u := new Peer();
      ups := ups + {u};
    }

    /** A read event of an open connection: an idle one is looked at by the keepalive handler. */
    method ReadEvent(c: Connection, closing: bool, peek: Peek, readEventOk: bool) returns (closed: seq<Connection>)
      requires Valid() && c in sys.open
      modifies this`sys, kc`cacheQ, kc`freeQ, kc`view
      modifies kc.cache`prev, kc.cache`next, kc.free`prev, kc.free`next, kc.slots`prev, kc.slots`next
      ensures Valid()
      ensures sys == Step(old(sys), PeerEvent(c, closing || peek != WouldBlock || !readEventOk))
      ensures sys.closed == old(sys).closed + multiset(closed)
    {
      closed := [];
      ghost var i := IndexOf(sys.pool.cache, c);
      CachesIndexOf(sys.pool.cache, c);
      if c.data.ToSlot? {
        ghost var q := kc.cacheQ;
        assert EntryOf(q[i], sys.pool.cache[i]);
        var hangup := kc.OnRead(c, closing, peek, readEventOk, i);
        if hangup {
          closed := [c];
          Dropped(c, i, q);
        }
      }
    }

    /** The bookkeeping after idle connection `c` was closed and its slot freed. */
    ghost method Dropped(c: Connection, i: nat, q: seq<Slot>)
      requires Whole(kc.Valid()) && PeersOk(ups, sys.held, sys.addr) && BackLinks(conns, sys, q) && Known(conns, sys)
      requires i < |sys.pool.cache| && i == IndexOf(sys.pool.cache, c)
      requires sys.max == kc.maxCached && kc.view == Drop(sys.pool, i) && kc.cacheQ == RemoveAt(q, i)
      modifies this`sys
      ensures Valid() && sys == StepPeer(old(sys), c, true)
    {
      ghost var cache := sys.pool.cache;
      forall x | x != c && Caches(cache, x) ensures Caches(RemoveAt(cache, i), x) {
        DropKeeps(cache, i, x);
      }
      RemoveAtIndex(q, i);
      RemoveAtIndex(cache, i);
      sys := StepPeer(sys, c, true);
    }

    /** ngx_http_php_socket_resolve_retval_handler, with ngx_event_connect_peer inlined: the pool is
        asked first, and a failure to add the read event of a pooled connection is not noticed. Only on a
        miss is the network asked, and a connection that it gives is opened. */
    method Connect(u: Peer, sockaddr: seq<byte>, socklen: nat, addEventOk: bool, net: Net, eventsOk: bool)
      returns (rc: Result, o: Outcome<Connection>)
      requires Valid() && u in ups && socklen <= |sockaddr| && socklen <= STORAGE
      modifies this`sys, this`conns, kc`cacheQ, kc`freeQ, kc`view, u, conns`data
      modifies kc.cache`prev, kc.cache`next, kc.free`prev, kc.free`next, kc.slots`prev, kc.slots`next
      ensures Whole(Valid()) && conns == old(conns) + NewConn(o) && fresh(NewConn(o))
      ensures Whole(ConnectMade(old(sys), u, sockaddr[..socklen], net, o, sys))
      ensures u.cached == (old(u.cached) || Hit(old(sys), sockaddr[..socklen]))
      ensures rc == ERROR <==>
                !Hit(old(sys), sockaddr[..socklen]) && (!o.Opened? || (net.Connected? && !eventsOk))
      ensures rc == OK <==> !Hit(old(sys), sockaddr[..socklen]) && net.Connected? && eventsOk
      ensures o.Opened? <==> !Hit(old(sys), sockaddr[..socklen]) && (net.Connected? || net.Connecting?)
      ensures o.Refused? <==> !Hit(old(sys), sockaddr[..socklen]) && net.Unreachable?
    {
      ghost var s := sys;
      SetAddr(u, sockaddr, socklen);
      rc, o := ConnectPeer(u, addEventOk, net, eventsOk);
      MadeAfterAddr(s, u, sockaddr[..socklen], net, o, sys);
    }

    /** ngx_event_connect_peer, to the address of the peer */
    method ConnectPeer(u: Peer, addEventOk: bool, net: Net, eventsOk: bool) returns (rc: Result, o: Outcome<Connection>)
      requires Whole(Valid()) && u in ups && u in sys.addr
      modifies this`sys, this`conns, kc`cacheQ, kc`freeQ, kc`view, u`connection, u`cached, conns`data
      modifies kc.cache`prev, kc.cache`next, kc.free`prev, kc.free`next, kc.slots`prev, kc.slots`next
      ensures Whole(Valid()) && conns == old(conns) + NewConn(o) && fresh(NewConn(o))
      ensures Whole(ConnectMade(old(sys), u, old(sys).addr[u], net, o, sys))
      ensures u.cached == (old(u.cached) || Hit(old(sys), old(sys).addr[u]))
      ensures rc == ERROR <==> !Hit(old(sys), old(sys).addr[u]) && (!o.Opened? || (net.Connected? && !eventsOk))
      ensures rc == OK <==> !Hit(old(sys), old(sys).addr[u]) && net.Connected? && eventsOk
    {
      ghost var (s, to) := (sys, sys.addr[u]);
      var hit := FromPool(u, addEventOk);
      rc, o := AGAIN, NoSocket;
      if hit {
        MadeByHit(s, u, to, net, sys);
      } else {
        o := OpenNew(u, net);
        MadeByNet(s, u, to, net, o, sys);
        if net.Connected? {
          rc := if eventsOk then OK else ERROR;
        } else if !o.Opened? {
          rc := ERROR;
        }
      }
    }

    /** ngx_http_php_socket_get_peer: any result of the keepalive lookup but OK is a hit. */
    method FromPool(u: Peer, addEventOk: bool) returns (hit: bool)
      requires Valid() && u in ups && u in sys.addr
      modifies this`sys, kc`cacheQ, kc`freeQ, kc`view, u`connection, u`cached, conns`data
      modifies kc.cache`prev, kc.cache`next, kc.free`prev, kc.free`next, kc.slots`prev, kc.slots`next
      ensures Whole(Valid())
      ensures Whole(PoolMade(old(sys), u, hit, sys))
      ensures u.cached == (old(u.cached) || hit)
    {
      hit := false;
      if kc.maxCached > 0 {
        hit := AskPool(u, addEventOk);
      }
    }

    /** The same with pooling on */
    method AskPool(u: Peer, addEventOk: bool) returns (hit: bool)
      requires Whole(Valid()) && u in ups && u in sys.addr && kc.maxCached > 0
      modifies this`sys, kc`cacheQ, kc`freeQ, kc`view, u`connection, u`cached, conns`data
      modifies kc.cache`prev, kc.cache`next, kc.free`prev, kc.free`next, kc.slots`prev, kc.slots`next
      ensures Whole(Valid())
      ensures Whole(PoolMade(old(sys), u, hit, sys))
      ensures u.cached == (old(u.cached) || hit)
    {
      ghost var i, q := Find(sys.pool.cache, sys.addr[u]), kc.cacheQ;
      var got := kc.GetPeer(u, addEventOk);
      hit := got != Rc.Ok;
      assert forall v :: v in ups && v != u ==> PeerOk(v, sys.held, sys.addr);
      if hit {
        Adopt(u, u.connection, i, q);
      } else {
        assert PeerOk(u, sys.held, sys.addr);
      }
    }

    /** The part of ngx_event_connect_peer that makes a new socket. */
    method OpenNew(u: Peer, net: Net) returns (o: Outcome<Connection>)
      requires Valid() && u in ups
      modifies this`sys, this`conns, u`connection
      ensures Whole(Valid()) && conns == old(conns) + NewConn(o) && fresh(NewConn(o))
      ensures Whole(OpenMade(old(sys), u, net, o, sys))
    {
      match net {
        case NoFd =>
          o := NoSocket;
        case Unreachable =>
          o := Refused;
          DropPointer(u);
        case _ =>
          var c := AdoptNew(u);
          o := Opened(c);
      }
    }

    method DropPointer(u: Peer)
      requires Valid() && u in ups
      modifies this`sys, u`connection
      ensures Valid() && sys == old(sys).(held := old(sys).held - {u})
    {
      u.connection := null;
      sys := sys.(held := sys.held - {u});
    }

    method SetAddr(u: Peer, sockaddr: seq<byte>, socklen: nat)
      requires Valid() && u in ups && socklen <= |sockaddr| && socklen <= STORAGE
      modifies this`sys, u`sockaddr, u`socklen
      ensures Valid() && sys == old(sys).(addr := old(sys).addr[u := sockaddr[..socklen]])
      ensures u.sockaddr == Some(sockaddr) && u.socklen == socklen
    {
      u.sockaddr := Some(sockaddr);
      u.socklen := socklen;
      sys := sys.(addr := sys.addr[u := sockaddr[..socklen]]);
    }

    /** Hands a connection that came from position `i` of the cache to upstream `u`. */
    method Adopt(u: Peer, c: Connection, ghost i: nat, ghost q: seq<Slot>)
      requires Whole(kc.Valid()) && sys.max == kc.maxCached && BackLinks(conns, sys, q) && Known(conns, sys)
      requires i < |q| && sys.pool.cache[i].conn == c
      requires forall j, k :: 0 <= j < k < |q| ==> q[j] != q[k]
      requires kc.view == Drop(sys.pool, i) && kc.cacheQ == RemoveAt(q, i)
      requires u in ups && sys.held.Keys <= ups && sys.addr.Keys <= ups
      requires forall v :: v in ups && v != u ==> PeerOk(v, sys.held, sys.addr)
      requires PeerOk(u, sys.held[u := c], sys.addr)
      modifies this`sys, c`data
      ensures Valid() && sys == old(sys).(pool := Drop(old(sys).pool, i), held := old(sys).held[u := c])
    {
      ghost var cache := sys.pool.cache;
      forall x | x != c && Caches(cache, x) ensures Caches(RemoveAt(cache, i), x) {
        DropKeeps(cache, i, x);
      }
      RemoveAtIndex(q, i);
      RemoveAtIndex(cache, i);
      c.data := ToPeer(u);
      sys := sys.(pool := Drop(sys.pool, i), held := sys.held[u := c]);
    }

    /** Hands a new connection to upstream `u`. */
    method AdoptNew(u: Peer) returns (c: Connection)
      requires Valid() && u in ups
      modifies this`sys, this`conns, u`connection
      ensures fresh(c) && conns == old(conns) + {c}
      ensures Valid() && sys == old(sys).(held := old(sys).held[u := c], open := old(sys).open + {c})
      ensures FreshOp(old(sys), Op.Connect(u, [], Opened(c)))
    {
      c := new Connection(ToPeer(u));
      StrangerOwnsNothing(conns, sys, kc.cacheQ, u, c);
      u.connection := c;
      Adopted(u, c);
    }

    /** The bookkeeping after upstream `u` was given the new connection `c`. */
    ghost method Adopted(u: Peer, c: Connection)
      requires Whole(kc.Valid()) && sys.max == kc.maxCached && sys.pool == kc.view
      requires BackLinks(conns, sys, kc.cacheQ) && Known(conns, sys)
      requires c !in conns && c.data == ToPeer(u)
      requires u in ups && sys.held.Keys <= ups && sys.addr.Keys <= ups
      requires forall v :: v in ups && v != u ==> PeerOk(v, sys.held, sys.addr)
      requires PeerOk(u, sys.held[u := c], sys.addr)
      modifies this`sys, this`conns
      ensures conns == old(conns) + {c}
      ensures Valid() && sys == old(sys).(held := old(sys).held[u := c], open := old(sys).open + {c})
    {
      conns := conns + {c};
      sys := sys.(held := sys.held[u := c], open := sys.open + {c});
    }

    /** ngx_http_php_socket_clear and ngx_http_php_socket_finalize. The connection goes back to the
        pool if finalize gets to call free_peer, pooling is on, and free_peer does not give up. */
    method Clear(u: Peer, readEventOk: bool) returns (closed: seq<Connection>)
      requires Valid() && u in ups
      modifies this`sys, kc`cacheQ, kc`freeQ, kc`view, u`connection, u`sockaddr, conns`data
      modifies kc.cache`prev, kc.cache`next, kc.free`prev, kc.free`next, kc.slots
      ensures Valid()
      ensures sys == Step(old(sys), Op.Clear(u, readEventOk))
      ensures sys.closed == old(sys).closed + multiset(closed)
    {
      if u.connection == null {
        return [];
      }
      if u.sockaddr.Some? && kc.maxCached > 0 && readEventOk {
        closed := Park(u, u.connection);
      } else {
        closed := Abandon(u, u.connection, readEventOk);
      }
    }

    /** Finalize, when free_peer takes the connection: its pointer is null by then. */
    method Park(u: Peer, c: Connection) returns (closed: seq<Connection>)
      requires Valid() && u in ups && u.connection == c && u.sockaddr.Some? && kc.maxCached > 0
      modifies this`sys, kc`cacheQ, kc`freeQ, kc`view, u`connection, u`sockaddr, c`data
      modifies kc.cache`prev, kc.cache`next, kc.free`prev, kc.free`next, kc.slots
      ensures Whole(Valid())
      ensures sys == StepClear(old(sys), u, true)
      ensures sys.closed == old(sys).closed + multiset(closed)
    {
      ghost var q := kc.cacheQ;
      var evicted := kc.FreePeer(u, c);
      u.sockaddr := None;
      assert |kc.view.cache| > 0;
      Parked(u, c, q);
      closed := if evicted.Some? then [evicted.value] else [];
    }

    /** The bookkeeping after the connection of `u` went back to the pool. */
    ghost method Parked(u: Peer, c: Connection, q: seq<Slot>)
      requires Whole(kc.Valid()) && sys.max == kc.maxCached > 0 && Sized(sys) && Known(conns, sys)
      requires u in sys.held && sys.held[u] == c && u in sys.addr && u in ups && c in conns
      requires HeldLinks(conns, sys.held - {u}) && CacheLinks(conns, sys.pool.cache, q) && c.data.ToSlot?
      requires IdleLinks(conns, sys.open - {c}, sys.pool.cache)
      requires kc.view == Release(sys.pool, c, sys.addr[u]).0 && kc.cacheQ == [c.data.slot] + q[..|kc.view.cache| - 1]
      requires sys.held.Keys <= ups && sys.addr.Keys <= ups
      requires (forall v :: v in ups && v != u ==> PeerOk(v, sys.held, sys.addr)) && PeerOk(u, map[], map[])
      modifies this`sys
      ensures Whole(Valid()) && sys == StepClear(old(sys), u, true)
    {
      assert kc.view.cache == Release(sys.pool, c, sys.addr[u]).0.cache;
      ParkedLinks(conns, sys, u, c, q);
      PeersForget(ups, sys.held, sys.addr, u);
      sys := StepClear(sys, u, true);
    }

    /** Finalize, when nobody takes the connection: it is closed, and the pointer to it stays. */
    method Abandon(u: Peer, c: Connection, readEventOk: bool) returns (closed: seq<Connection>)
      requires Valid() && u in ups && u.connection == c
      requires !(u.sockaddr.Some? && kc.maxCached > 0 && readEventOk)
      modifies this`sys, u`sockaddr
      ensures Whole(Valid())
      ensures sys == StepClear(old(sys), u, readEventOk)
      ensures sys.closed == old(sys).closed + multiset(closed)
    {
      u.sockaddr := None;
      closed := [c];
      Abandoned(u, c, readEventOk);
    }

    /** The bookkeeping after the connection of `u` was closed. */
    ghost method Abandoned(u: Peer, c: Connection, readEventOk: bool)
      requires Whole(kc.Valid()) && sys.max == kc.maxCached && sys.pool == kc.view && Sized(sys)
      requires BackLinks(conns, sys, kc.cacheQ) && Known(conns, sys)
      requires u in sys.held && sys.held[u] == c && u in ups && c in conns
      requires !(u in sys.addr && sys.max > 0 && readEventOk)
      requires sys.held.Keys <= ups && sys.addr.Keys <= ups
      requires (forall v :: v in ups && v != u ==> PeerOk(v, sys.held, sys.addr)) && PeerOk(u, sys.held, map[])
      modifies this`sys
      ensures Whole(Valid()) && sys == StepClear(old(sys), u, readEventOk)
    {
      sys := StepClear(sys, u, readEventOk);
    }

    /** One call; a read event comes for a connection of `live`, all of which are open. Connections that are
        closed leave it, and one that is opened joins it. */
    method Perform(call: Call, live: seq<Connection>)
      returns (live1: seq<Connection>, ghost op: Option<Op<Peer, Connection>>)
      requires Valid() && Linked(sys) && CallOk(call, ups) && AllOpen(live, sys.open)
      modifies this`sys, this`conns, kc`cacheQ, kc`freeQ, kc`view, ups, conns`data
      modifies kc.cache`prev, kc.cache`next, kc.free`prev, kc.free`next, kc.slots
      ensures Whole(Valid()) && forall c :: c in conns && c !in old(conns) ==> fresh(c)
      ensures OpOf(call, op) && Whole(Performed(old(sys), op, sys) && AllOpen(live1, sys.open))
    {
      match call
      case ConnectCall(u, sockaddr, socklen, addEventOk, net, eventsOk) =>
        ghost var s := sys;
        var rc, o := Connect(u, sockaddr, socklen, addEventOk, net, eventsOk);
        op := Some(Op.Connect(u, sockaddr[..socklen], o));
        live1 := if o.Opened? then live + [o.conn] else live;
        ConnectPerformed(s, u, sockaddr[..socklen], net, o, sys, live, live1);
      case ClearCall(u, readEventOk) =>
        ghost var s := sys;
        var closed := Clear(u, readEventOk);
        op := Some(Op.Clear(u, readEventOk));
        live1 := Minus(live, closed);
        ClosePerformed(s, op.value, closed, live);
      case ReadCall(i, closing, peek, readEventOk) =>
        live1, op := live, None;
        if i < |live| {
          ghost var s := sys;
          var closed := ReadEvent(live[i], closing, peek, readEventOk);
          op := Some(PeerEvent(live[i], closing || peek != WouldBlock || !readEventOk));
          live1 := Minus(live, closed);
          ClosePerformed(s, op.value, closed, live);
        }
    }

    /** A run of calls is a run of the state machine. If it is a proper one, then from a state in which
        every open connection has one owner, and none was closed twice, it leads to another. */
    method Drive(calls: seq<Call>, live: seq<Connection>) returns (ghost ops: seq<Op<Peer, Connection>>)
      requires Valid() && Linked(sys) && AllOpen(live, sys.open)
      requires forall call :: call in calls ==> CallOk(call, ups)
      modifies this`sys, this`conns, kc`cacheQ, kc`freeQ, kc`view, ups, conns`data
      modifies kc.cache`prev, kc.cache`next, kc.free`prev, kc.free`next, kc.slots
      ensures Whole(Valid()) && OpsOf(calls, ops)
      ensures Linked(old(sys)) && FreshRun(old(sys), ops) && sys == Run(old(sys), ops)
      ensures Owned(old(sys)) ==> (OwnedThroughout(old(sys), ops) <==> ProperRun(old(sys), ops))
      ensures Owned(old(sys)) && ProperRun(old(sys), ops) ==> Owned(sys)
      decreases |calls|
    {
      ghost var s := sys;
      ops := [];
      if calls != [] {
        var live1, op := Perform(calls[0], live);
        PerformedLinked(s, op, sys);
        var rest := Drive(calls[1..], live1);
        ops := if op.Some? then [op.value] + rest else rest;
        assert op.Some? ==> ops[0] == op.value && ops[1..] == rest;
        RunCons(s, op, rest);
      }
      RunOwned(s, ops);
    }
  }
}
