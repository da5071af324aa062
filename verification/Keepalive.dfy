/**
 The keepalive slots and their two intrusive circular queues, as in ngx_http_php_keepalive.c. The
 queue operations are nginx's ngx_queue macros, written out.
 */
module Keepalive {
  import opened Common
  import opened PoolSpec

  /** ngx_connection_t. A close of a connection is an output of the method that makes it. */
  class Connection {
    var data: Data

    constructor (d: Data)
      ensures data == d
    {
      data := d;
    }
  }

  /** c->data with c->read->handler, which are set together: an idle connection points to its slot
      and has ngx_http_php_keepalive_close_handler, one in use points to its upstream and has
      ngx_http_php_socket_handler. */
  datatype Data = ToSlot(slot: Slot) | ToPeer(peer: Peer)

  /** ngx_peer_connection_t, embedded in the upstream of one request. */
  class Peer {
    var sockaddr: Option<seq<byte>>
    var socklen: nat
    var connection: Connection?
    var cached: bool

    constructor ()
      ensures sockaddr == None && socklen == 0 && connection == null && !cached
    {
      sockaddr, socklen, connection, cached := None, 0, null, false;
    }
  }

  const STORAGE := 128  // sizeof(struct sockaddr_storage)

  /** ngx_http_php_keepalive_cache_t with its queue node. A queue head is a Slot of which only the
      links are used. */
  class Slot {
    var prev: Slot?
    var next: Slot?
    var connection: Connection?
    var sockaddr: seq<byte>
    var socklen: nat

    /** A zeroed slot, its node initialised as an empty queue. */
    constructor ()
      ensures prev == this && next == this && connection == null
      ensures sockaddr == seq(STORAGE, _ => 0) && socklen == 0
    {
      prev, next, connection := this, this, null;
      sockaddr, socklen := seq(STORAGE, _ => 0), 0;
    }
  }

  /** The node at position `i` of the queue with head `h`: the head itself off either end. */
  ghost function At(h: Slot, s: seq<Slot>, i: int): Slot {
    if 0 <= i < |s| then s[i] else h
  }

  /** `s` is what a walk along `next` from the head `h` meets, and back along `prev`. */
  ghost predicate Ring(h: Slot, s: seq<Slot>)
    reads h`prev, h`next, s`prev, s`next
  {
    && h !in s
    && (forall i, j :: 0 <= i < j < |s| ==> s[i] != s[j])
    && h.next == At(h, s, 0)
    && h.prev == At(h, s, |s| - 1)
    && (forall i {:trigger s[i].next} :: 0 <= i < |s| ==> s[i].next == At(h, s, i + 1))
    && (forall i {:trigger s[i].prev} :: 0 <= i < |s| ==> s[i].prev == At(h, s, i - 1))
  }

  lemma NoSelfRing(h: Slot, s: seq<Slot>)
    requires Ring(h, s) && s != []
    ensures h.prev != h && h.next != h
  {
    assert s[0] in s && s[|s| - 1] in s;
  }

  /** ngx_queue_insert_head */
  method InsertHead(h: Slot, x: Slot, ghost s: seq<Slot>)
    requires Ring(h, s) && x != h && x !in s
    modifies h`prev, h`next, x`prev, x`next, s`prev, s`next
    ensures Ring(h, [x] + s)
  {
    x.next := h.next;
    x.next.prev := x;
    x.prev := h;
    h.next := x;
  }

  /** `r` is `s` without its element at `k`. */
  ghost predicate Without<T>(s: seq<T>, k: nat, r: seq<T>) {
    && k < |s| && |r| == |s| - 1
    && (forall j {:trigger r[j]} :: 0 <= j < k ==> r[j] == s[j])
    && (forall j {:trigger r[j]} :: k <= j < |r| ==> r[j] == s[j + 1])
  }

  /** ngx_queue_remove */
  method Remove(x: Slot, ghost h: Slot, ghost s: seq<Slot>, ghost k: nat, ghost r: seq<Slot>)
    requires Ring(h, s) && Without(s, k, r) && s[k] == x
    modifies h`prev, h`next, s`prev, s`next
    ensures Ring(h, r) && x !in r
    ensures forall y :: y in r ==> y in s
  {
    x.next.prev := x.prev;
    x.prev.next := x.next;
    forall j {:trigger r[j].next} | 0 <= j < |r| ensures r[j].next == At(h, r, j + 1) {
      assert r[j] == (if j < k then s[j] else s[j + 1]);
    }
    forall j {:trigger r[j].prev} | 0 <= j < |r| ensures r[j].prev == At(h, r, j - 1) {
      assert r[j] == (if j < k then s[j] else s[j + 1]);
    }
  }

  /** Two queues that share the nodes of `slots` out between them. */
  ghost predicate TwoRings(a: Slot, b: Slot, slots: set<Slot>, p: seq<Slot>, q: seq<Slot>)
    reads a`prev, a`next, b`prev, b`next, slots`prev, slots`next
  {
    && a != b && a !in slots && b !in slots
    && (forall x :: x in p ==> x in slots && x !in q)
    && (forall x :: x in q ==> x in slots)
    && (forall x :: x in slots ==> x in p || x in q)
    && Ring(a, p) && Ring(b, q)
  }

  /** Takes node `k` out of the queue at `a`. */
  method Detach(x: Slot, ghost a: Slot, ghost b: Slot, ghost slots: set<Slot>, ghost p: seq<Slot>, ghost q: seq<Slot>,
                ghost k: nat, ghost r: seq<Slot>)
    requires TwoRings(a, b, slots, p, q) && Without(p, k, r) && p[k] == x
    modifies a`prev, a`next, slots`prev, slots`next
    ensures TwoRings(a, b, slots - {x}, r, q) && x in slots
  {
    assert p[k] in p;
    assert forall j {:trigger q[j]} :: 0 <= j < |q| ==> q[j] in q && q[j] !in p && q[j] != a;
    Remove(x, a, p, k, r);
    assert Ring(b, q);
    forall y | y in p && y != x ensures y in r {
      var j :| 0 <= j < |p| && p[j] == y;
      assert r[if j < k then j else j - 1] == y;
    }
  }

  /** Puts a node that is in neither queue at the head of the queue at `a`. */
  method Attach(x: Slot, a: Slot, ghost b: Slot, ghost slots: set<Slot>, ghost p: seq<Slot>, ghost q: seq<Slot>)
    requires TwoRings(a, b, slots, p, q) && x !in slots && x != a && x != b
    modifies a`prev, a`next, x`prev, x`next, slots`prev, slots`next
    ensures TwoRings(a, b, slots + {x}, [x] + p, q)
  {
    assert forall j {:trigger q[j]} :: 0 <= j < |q| ==> q[j] in q && q[j] !in p && q[j] != a;
    InsertHead(a, x, p);
    assert Ring(b, q);
  }

  /** Moves the last node of the queue at `a` to its head. */
  method Rotate(x: Slot, a: Slot, ghost b: Slot, ghost slots: set<Slot>, ghost r: seq<Slot>, ghost q: seq<Slot>)
    requires TwoRings(a, b, slots, r + [x], q)
    modifies a`prev, a`next, slots`prev, slots`next
    ensures TwoRings(a, b, slots, [x] + r, q)
  {
    Detach(x, a, b, slots, r + [x], q, |r|, r);
    Attach(x, a, b, slots - {x}, r, q);
    assert slots - {x} + {x} == slots;
  }

  /** Takes node `k` out of the queue at `a` and puts it at the head of the queue at `b`. */
  method Move(x: Slot, ghost a: Slot, b: Slot, ghost slots: set<Slot>, ghost p: seq<Slot>, ghost q: seq<Slot>,
              ghost k: nat, ghost r: seq<Slot>)
    requires TwoRings(a, b, slots, p, q) && Without(p, k, r) && p[k] == x
    modifies a`prev, a`next, b`prev, b`next, slots`prev, slots`next
    ensures TwoRings(a, b, slots, r, [x] + q)
  {
    Detach(x, a, b, slots, p, q, k, r);
    Attach(x, b, a, slots - {x}, q, r);
    assert slots - {x} + {x} == slots;
  }

  /** The comparison of memcmp on the first `n` bytes. */
  function MemCmp(a: seq<byte>, b: seq<byte>, n: nat): (r: int)
    requires n <= |a| && n <= |b|
    ensures r == 0 <==> a[..n] == b[..n]
  {
    if n == 0 then 0
    else if a[0] != b[0] then assert a[..n][0] != b[..n][0]; a[0] - b[0]
    else
      assert a[..n] == [a[0]] + a[1..][..n - 1] && b[..n] == [b[0]] + b[1..][..n - 1];
      MemCmp(a[1..], b[1..], n - 1)
  }

  /** ngx_memn2cmp: zero exactly on equal bytes of equal length. */
  function MemN2Cmp(a: seq<byte>, b: seq<byte>, n1: nat, n2: nat): (r: int)
    requires n1 <= |a| && n2 <= |b|
    ensures r == 0 <==> a[..n1] == b[..n2]
  {
    var n := if n1 <= n2 then n1 else n2;
    var z := if n1 <= n2 then -1 else 1;
    var m := MemCmp(a, b, n);
    if m != 0 || n1 == n2 then
      assert m != 0 ==> a[..n1][..n] != b[..n2][..n];
      m
    else z
  }

  lemma FindIs<C>(cache: seq<Entry<C>>, addr: seq<byte>, i: nat)
    requires i <= |cache| && (i < |cache| ==> cache[i].addr == addr)
    requires forall j :: 0 <= j < i ==> cache[j].addr != addr
    ensures Find(cache, addr) == i
  {
  }

  datatype Rc = Ok | Done | Error

  /** What a slot of the cache queue records. */
  ghost predicate EntryOf(x: Slot, e: Entry<Connection>)
    reads x`connection, x`socklen, x`sockaddr
  {
    && x.connection == e.conn
    && x.socklen <= |x.sockaddr|
    && x.sockaddr[..x.socklen] == e.addr
  }

  ghost predicate Entries(q: seq<Slot>, v: seq<Entry<Connection>>)
    reads q`connection, q`socklen, q`sockaddr
  {
    |q| == |v| && forall i {:trigger EntryOf(q[i], v[i])} :: 0 <= i < |q| ==> EntryOf(q[i], v[i])
  }

  lemma EntriesCons(x: Slot, e: Entry<Connection>, q: seq<Slot>, v: seq<Entry<Connection>>)
    requires EntryOf(x, e) && Entries(q, v)
    ensures Entries([x] + q, [e] + v)
  {
    forall i | 0 <= i < |q| + 1 ensures EntryOf(([x] + q)[i], ([e] + v)[i]) {
      assert i > 0 ==> EntryOf(q[i - 1], v[i - 1]);
    }
  }

  lemma EntriesWithout(q: seq<Slot>, v: seq<Entry<Connection>>, k: nat)
    requires Entries(q, v) && k < |q|
    ensures Entries(RemoveAt(q, k), RemoveAt(v, k))
  {
    forall i | 0 <= i < |q| - 1 ensures EntryOf(RemoveAt(q, k)[i], RemoveAt(v, k)[i]) {
      assert EntryOf(q[if i < k then i else i + 1], v[if i < k then i else i + 1]);
    }
  }

  lemma EntriesTake(q: seq<Slot>, v: seq<Entry<Connection>>, k: nat)
    requires Entries(q, v) && k <= |q|
    ensures Entries(q[..k], v[..k])
  {
    forall i | 0 <= i < k ensures EntryOf(q[..k][i], v[..k][i]) {
      assert EntryOf(q[i], v[i]);
    }
  }

  /** The part of free_peer that records connection `c` in slot `q`. */
  method Fill(q: Slot, c: Connection, pc: Peer, ghost p: seq<Slot>, ghost v: seq<Entry<Connection>>, ghost clock: nat)
    requires |q.sockaddr| == STORAGE
    requires pc.sockaddr.Some? && pc.socklen <= |pc.sockaddr.value| && pc.socklen <= STORAGE
    requires q !in p && Entries(p, v)
    modifies q`connection, q`socklen, q`sockaddr, pc`connection, c`data
    ensures |q.sockaddr| == STORAGE && pc.connection == null && c.data == ToSlot(q)
    ensures Entries([q] + p, [Entry(c, pc.sockaddr.value[..pc.socklen], clock)] + v)
  {
    q.connection := c;
    pc.connection := null;
    c.data := ToSlot(q);
    q.socklen := pc.socklen;
    q.sockaddr := pc.sockaddr.value[..pc.socklen] + q.sockaddr[pc.socklen..];
    assert q.sockaddr[..q.socklen] == pc.sockaddr.value[..pc.socklen];
    assert Entries(p, v);
    EntriesCons(q, Entry(c, pc.sockaddr.value[..pc.socklen], clock), p, v);
  }

  /** ngx_http_php_keepalive_conf_t */
  class Conf {
    const maxCached: nat
    const cache: Slot
    const free: Slot
    ghost const slots: set<Slot>
    ghost var cacheQ: seq<Slot>
    ghost var freeQ: seq<Slot>
    ghost var view: Pool<Connection>

    /** Both queues are well formed and disjoint and hold exactly the slots made by the constructor;
        `view` is what the cache queue and its payloads stand for. */
    ghost predicate Valid()
      reads this, cache, free, slots
    {
      match view
      case Pool(entries, nfree, _) =>
        && TwoRings(cache, free, slots, cacheQ, freeQ)
        && |slots| == maxCached == |cacheQ| + |freeQ|
        && (forall x :: x in slots ==> |x.sockaddr| == STORAGE)
        && nfree == |freeQ|
        && Entries(cacheQ, entries)
    }

    /** ngx_http_php_keepalive_init */
    constructor (max: nat)
      ensures Valid() && maxCached == max && view == Pool([], max, 0)
      ensures fresh(cache) && fresh(free) && fresh(slots)
    {
      var c := new Slot();
      var f := new Slot();
      ghost var made: set<Slot> := {};
      ghost var q: seq<Slot> := [];
      var i := 0;
      while i < max
        invariant 0 <= i <= max
        invariant fresh(c) && fresh(f) && c != f && c !in made && f !in made
        invariant fresh(made) && forall j {:trigger q[j]} :: 0 <= j < |q| ==> fresh(q[j])
        invariant |q| == |made| == i
        invariant forall x :: x in made <==> x in q
        invariant Ring(c, []) && Ring(f, q)
        invariant forall x :: x in made ==> |x.sockaddr| == STORAGE && x.socklen == 0
      {
        var x := new Slot();
        InsertHead(f, x, q);
        q := [x] + q;
        made := made + {x};
        i := i + 1;
      }
      maxCached, cache, free, slots := max, c, f, made;
      cacheQ, freeQ, view := [], q, Pool([], max, 0);
    }

    /** Moves a slot from the cache queue to the head of the free queue. Its connection field is
        left as it was. */
    method MoveToFree(x: Slot, ghost i: nat)
      requires Valid() && i < |cacheQ| && cacheQ[i] == x
      modifies this`cacheQ, this`freeQ, this`view, cache`prev, cache`next, free`prev, free`next, slots`prev, slots`next
      ensures Valid() && view == Drop(old(view), i) && cacheQ == RemoveAt(old(cacheQ), i)
    {
      ghost var r, v := RemoveAt(cacheQ, i), Drop(view, i);
      RemoveAtIndex(cacheQ, i);
      Move(x, cache, free, slots, cacheQ, freeQ, i, r);
      EntriesWithout(cacheQ, view.cache, i);
      cacheQ, freeQ, view := r, [x] + freeQ, v;
    }

    /** The part of get_peer behind a hit at `q`: the slot is freed, and its connection given out. */
    method GiveOut(pc: Peer, q: Slot, ghost i: nat)
      requires Valid() && i < |cacheQ| && cacheQ[i] == q
      modifies this`cacheQ, this`freeQ, this`view, cache`prev, cache`next, free`prev, free`next, slots`prev, slots`next
      modifies pc`connection, pc`cached
      ensures Valid() && view == Drop(old(view), i) && cacheQ == RemoveAt(old(cacheQ), i)
      ensures pc.connection != null && pc.connection == old(view).cache[i].conn && pc.cached
    {
      assert EntryOf(cacheQ[i], view.cache[i]);
      var c := q.connection;
      RemoveAtElems(cacheQ, i);
      MoveToFree(q, i);
      pc.connection := c;
      pc.cached := true;
    }

    /** ngx_http_php_keepalive_get_peer: the walk of the cache queue. Whether the read event could
        be added shows in the result only. */
    method GetPeer(pc: Peer, addEventOk: bool) returns (rc: Rc)
      requires Valid()
      requires pc.sockaddr.Some? && pc.socklen <= |pc.sockaddr.value|
      modifies this`cacheQ, this`freeQ, this`view, cache`prev, cache`next, free`prev, free`next, slots`prev, slots`next
      modifies pc`connection, pc`cached
      ensures Valid()
      ensures var (p, hit) := Acquire(old(view), old(pc.sockaddr.value[..pc.socklen]));
              && view == p
              && (rc == Ok <==> hit == None)
              && (rc == Done <==> hit.Some? && addEventOk)
              && (hit.None? ==> pc.connection == old(pc.connection))
              && (hit.Some? ==> pc.connection != null && pc.connection == hit.value)
              && cacheQ == (if hit.Some? then
                              RemoveAt(old(cacheQ), Find(old(view.cache), old(pc.sockaddr.value[..pc.socklen])))
                            else old(cacheQ))
      ensures pc.cached == (old(pc.cached) || rc != Ok)
    {
      ghost var to := pc.sockaddr.value[..pc.socklen];
      ghost var i := 0;
      var q := cache.next;
      while q != cache
        invariant 0 <= i <= |cacheQ| && q == At(cache, cacheQ, i)
        invariant forall j :: 0 <= j < i ==> view.cache[j].addr != to
        decreases |cacheQ| - i
      {
        assert EntryOf(cacheQ[i], view.cache[i]);
        if MemN2Cmp(q.sockaddr, pc.sockaddr.value, q.socklen, pc.socklen) == 0 {
          FindIs(view.cache, to, i);
          GiveOut(pc, q, i);
          return if addEventOk then Done else Error;
        }
        q := q.next;
        i := i + 1;
      }
      FindIs(view.cache, to, |view.cache|);
      return Ok;
    }

    /** Takes a slot for a release: the first free one or, when there is none, the last of the
        cache, whose connection is to be closed. It is put at the head of the cache. */
    method TakeSlot() returns (q: Slot, evicted: Option<Connection>, ghost p: seq<Slot>, ghost f: seq<Slot>)
      requires Valid() && maxCached > 0
      modifies cache`prev, cache`next, free`prev, free`next, slots`prev, slots`next
      ensures TwoRings(cache, free, slots, [q] + p, f) && q in slots && q !in p
      ensures evicted == MakeRoom(view).1
      ensures if |freeQ| == 0 then p == cacheQ[..maxCached - 1] && f == [] else p == cacheQ && f == freeQ[1..]
      ensures var v := MakeRoom(view).0; Entries(p, v.cache) && v.free == 1 + |f|
    {
      EntriesTake(cacheQ, view.cache, if |freeQ| == 0 then maxCached - 1 else |cacheQ|);
      if free == free.prev {
        assert freeQ == [] by {
          if freeQ != [] { NoSelfRing(free, freeQ); }
        }
        q := cache.prev;
        p, f := cacheQ[..maxCached - 1], [];
        assert cacheQ[maxCached - 1] == q && EntryOf(q, view.cache[maxCached - 1]);
        evicted := Some(q.connection);
        Rotate(q, cache, free, slots, p, freeQ);
      } else {
        q := free.next;
        evicted := None;
        p, f := cacheQ, freeQ[1..];
        Move(q, free, cache, slots, freeQ, cacheQ, 0, f);
      }
    }

    /** ngx_http_php_keepalive_free_peer, for a connection whose read event could be registered; when
        it could not, free_peer returns at once. The connection it closes is returned. */
    method FreePeer(pc: Peer, c: Connection) returns (evicted: Option<Connection>)
      requires Valid() && maxCached > 0 && pc.connection == c
      requires pc.sockaddr.Some? && pc.socklen <= |pc.sockaddr.value| && pc.socklen <= STORAGE
      modifies this`cacheQ, this`freeQ, this`view, cache`prev, cache`next, free`prev, free`next, slots
      modifies pc`connection, c`data
      ensures Valid()
      ensures (view, evicted) == Release(old(view), c, pc.sockaddr.value[..pc.socklen])
      ensures pc.connection == null && c.data.ToSlot?
      ensures cacheQ == [c.data.slot] + old(cacheQ)[..|view.cache| - 1]
    {
      ghost var p, f;
      var q;
      q, evicted, p, f := TakeSlot();
      Commit(q, c, pc, p, f);
    }

    /** The part of free_peer that fills the slot taken. */
    method Commit(q: Slot, c: Connection, pc: Peer, ghost p: seq<Slot>, ghost f: seq<Slot>)
      requires |view.cache| + view.free > 0
      requires var v := MakeRoom(view).0; Entries(p, v.cache) && v.free == 1 + |f|
      requires |slots| == maxCached == 1 + |p| + |f| && (forall x :: x in slots ==> |x.sockaddr| == STORAGE)
      requires TwoRings(cache, free, slots, [q] + p, f) && q in slots && q !in p
      requires pc.sockaddr.Some? && pc.socklen <= |pc.sockaddr.value| && pc.socklen <= STORAGE
      modifies this`cacheQ, this`freeQ, this`view, q`connection, q`socklen, q`sockaddr, pc`connection, c`data
      ensures Valid()
      ensures view == Release(old(view), c, pc.sockaddr.value[..pc.socklen]).0
      ensures pc.connection == null && c.data == ToSlot(q) && cacheQ == [q] + p
    {
      ghost var v := MakeRoom(view).0;
      Fill(q, c, pc, p, v.cache, v.clock);
      cacheQ, freeQ, view := [q] + p, f, Put(v, c, pc.sockaddr.value[..pc.socklen]);
    }

    /** ngx_http_php_keepalive_close_handler: `peek` is the result of the one-byte MSG_PEEK, and
        `hangup` tells whether the connection was closed. */
    method OnRead(c: Connection, closing: bool, peek: Peek, readEventOk: bool, ghost i: nat) returns (hangup: bool)
      requires Valid() && i < |cacheQ| && cacheQ[i].connection == c && c.data == ToSlot(cacheQ[i])
      modifies this`cacheQ, this`freeQ, this`view, cache`prev, cache`next, free`prev, free`next, slots`prev, slots`next
      ensures Valid()
      ensures hangup <==> closing || peek != WouldBlock || !readEventOk
      ensures view == (if hangup then Drop(old(view), i) else old(view))
      ensures cacheQ == (if hangup then RemoveAt(old(cacheQ), i) else old(cacheQ))
    {
      if !closing && peek == WouldBlock && readEventOk {
        return false;
      }
      MoveToFree(c.data.slot, i);
      return true;
    }
  }

  datatype Peek = WouldBlock | HasData | AtEof | Failed

  lemma RemoveAtIndex<T>(s: seq<T>, k: nat)
    requires k < |s|
    ensures Without(s, k, RemoveAt(s, k))
  {
  }

  lemma RemoveAtElems<T>(s: seq<T>, i: nat)
    requires i < |s|
    ensures forall x :: x in s <==> x == s[i] || x in RemoveAt(s, i)
  {
    assert s == s[..i] + [s[i]] + s[i + 1..];
  }
}
