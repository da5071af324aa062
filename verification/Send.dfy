/**
 Sending a request over a non-blocking socket, as in ngx_http_php_socket.c: partial sends, a full
 socket buffer, and the write events that carry on from where a send stopped.
 */
module Send {
  import opened Common

  /** What one call of c->send does: takes up to `n` of the bytes offered, or nothing. */
  datatype Kernel = Took(n: nat) | WouldBlock | Broken

  datatype Handler = Dummy | SendHandler

  datatype Rc = OK | AGAIN | ERROR

  /** request_bufs->buf: `data` from the start of the buffer to `last`, and `pos` in it. */
  datatype Buf = Buf(data: seq<byte>, pos: nat) {
    predicate Valid() { pos <= |data| }

    function Rest(): seq<byte>
      requires Valid()
    {
      data[pos..]
    }
  }

  /** wire: the bytes the kernel took; armed: the write timer; waiting: phase_status is NGX_AGAIN */
  datatype State = State(wire: seq<byte>, req: Option<Buf>, handler: Handler, armed: bool, waiting: bool) {
    predicate Valid() { req.Some? ==> req.value.Valid() }
  }

  function Min(a: nat, b: nat): nat { if a <= b then a else b }

  /** The loop of upstream_send over the answers of the kernel. A script that is used up stands for
      a socket that can take no more. */
  function Loop(wire: seq<byte>, b: Buf, script: seq<Kernel>): (r: (seq<byte>, Buf, Rc))
    requires b.Valid()
    ensures r.1.Valid()
    decreases |script|
  {
    if script == [] || script[0].WouldBlock? then (wire, b, AGAIN)
    else if script[0].Broken? then (wire, b, ERROR)
    else
      var n := Min(script[0].n, |b.Rest()|);
      var b1 := b.(pos := b.pos + n);
      if b1.pos == |b.data| then (wire + b.Rest()[..n], b1, OK)
      else Loop(wire + b.Rest()[..n], b1, script[1..])
  }

  /** ngx_http_php_socket_upstream_send */
  function Upstream(s: State, script: seq<Kernel>, eventOk: bool): (r: (State, Rc))
    requires s.Valid() && s.req.Some?
    ensures r.0.Valid()
  {
    var (wire, b, rc) := Loop(s.wire, s.req.value, script);
    match rc
    case OK => (State(wire, None, Dummy, false, s.waiting), if eventOk then OK else ERROR)
    case ERROR => (s.(wire := wire, req := Some(b)), ERROR)
    case AGAIN => (State(wire, Some(b), SendHandler, true, true), if eventOk then AGAIN else ERROR)
  }

  /** ngx_socket_send: a new request replaces the old one and is sent as far as possible. */
  function Start(s: State, data: seq<byte>, script: seq<Kernel>, eventOk: bool): (State, Rc)
    requires s.Valid()
  {
    Upstream(s.(req := Some(Buf(data, 0))), script, eventOk)
  }

  datatype Event = Event(timedOut: bool, script: seq<Kernel>, eventOk: bool)

  /** A write event, which goes to the handler that is installed. */
  function OnWrite(s: State, e: Event): (r: State)
    requires s.Valid()
    ensures r.Valid()
  {
    if s.handler == Dummy || e.timedOut || s.req.None? then s
    else Upstream(s, e.script, e.eventOk).0
  }

  function OnWrites(s: State, es: seq<Event>): (r: State)
    requires s.Valid()
    ensures r.Valid()
    decreases |es|
  {
    if es == [] then s else OnWrites(OnWrite(s, es[0]), es[1..])
  }

  // ---- What one call or event moves ----

  /** How many bytes the kernel would take before it first refuses */
  function Given(script: seq<Kernel>): nat {
    if script == [] || !script[0].Took? then 0 else script[0].n + Given(script[1..])
  }

  predicate TakesAny(script: seq<Kernel>) {
    script != [] && script[0].Took?
  }

  /** Its first refusal is an error. */
  predicate Breaks(script: seq<Kernel>) {
    script != [] && (script[0].Broken? || (script[0].Took? && Breaks(script[1..])))
  }

  /** The kernel takes something, and as much as the rest has. An empty rest also needs a call. */
  predicate AllOut(rest: seq<byte>, script: seq<Kernel>) {
    TakesAny(script) && |rest| <= Given(script)
  }

  /** From `s` to `t` exactly what the kernel took up to its first refusal went out: then the request is
      dropped if that was its rest, and else it waits at the byte reached; for the next write event,
      unless the connection broke. */
  predicate Advanced(s: State, script: seq<Kernel>, t: State)
    requires s.Valid() && s.req.Some?
  {
    var rest := s.req.value.Rest();
    var n := Min(Given(script), |rest|);
    && t.wire == s.wire + rest[..n]
    && if AllOut(rest, script) then
         t.req == None && t.handler == Dummy && !t.armed && t.waiting == s.waiting
       else
         && t.req == Some(Buf(s.req.value.data, s.req.value.pos + n))
         && if Breaks(script) then t.handler == s.handler && t.armed == s.armed && t.waiting == s.waiting
            else t.handler == SendHandler && t.armed && t.waiting
  }

  /** OK is the answer exactly if everything went out and the event could be registered, and an error
      exactly if it could not, or the connection broke before the last byte was out. */
  predicate Reported(s: State, script: seq<Kernel>, eventOk: bool, rc: Rc)
    requires s.Valid() && s.req.Some?
  {
    var out := AllOut(s.req.value.Rest(), script);
    && (rc == OK <==> out && eventOk)
    && (rc == ERROR <==> !eventOk || (!out && Breaks(script)))
  }

  lemma TwoParts(wire: seq<byte>, b: Buf, n: nat, m: nat)
    requires b.Valid() && n + m <= |b.Rest()|
    ensures var rest1 := Buf(b.data, b.pos + n).Rest();
            m <= |rest1| && wire + b.Rest()[..n] + rest1[..m] == wire + b.Rest()[..n + m]
  {
    var rest1 := Buf(b.data, b.pos + n).Rest();
    assert b.Rest()[..n] + rest1[..m] == b.Rest()[..n + m];
    Assoc(wire, b.Rest()[..n], rest1[..m]);
  }

  lemma {:induction false} LoopAdvances(wire: seq<byte>, b: Buf, script: seq<Kernel>)
    requires b.Valid()
    ensures var n := Min(Given(script), |b.Rest()|);
            var out := AllOut(b.Rest(), script);
            Loop(wire, b, script) == (wire + b.Rest()[..n], Buf(b.data, b.pos + n),
                                      if out then OK else if Breaks(script) then ERROR else AGAIN)
    decreases |script|
  {
    var rest := b.Rest();
    if TakesAny(script) {
      var n := Min(script[0].n, |rest|);
      var b1 := b.(pos := b.pos + n);
      if n < |rest| {
        LoopAdvances(wire + rest[..n], b1, script[1..]);
        var m := Min(Given(script[1..]), |b1.Rest()|);
        TwoParts(wire, b, n, m);
      }
    } else {
      assert wire + rest[..0] == wire;
    }
  }

  /** What a call of upstream_send does, for whatever the kernel answers */
  lemma UpstreamAdvances(s: State, script: seq<Kernel>, eventOk: bool)
    requires s.Valid() && s.req.Some?
    ensures Advanced(s, script, Upstream(s, script, eventOk).0)
    ensures Reported(s, script, eventOk, Upstream(s, script, eventOk).1)
  {
    LoopAdvances(s.wire, s.req.value, script);
  }

  /** Of request `data`, sent on a wire that had carried `base`, the wire has carried exactly the
      part before `pos`; all of it, once the request is dropped. */
  predicate Carries(s: State, base: seq<byte>, data: seq<byte>)
    requires s.Valid()
  {
    match s.req
    case Some(b) => b.data == data && s.wire == base + data[..b.pos]
    case None => s.wire == base + data
  }

  lemma {:induction false} LoopCarries(base: seq<byte>, wire: seq<byte>, b: Buf, script: seq<Kernel>)
    requires b.Valid() && wire == base + b.data[..b.pos]
    ensures var (w, b1, rc) := Loop(wire, b, script);
            && b1.data == b.data && b.pos <= b1.pos
            && w == base + b.data[..b1.pos]
            && (rc == OK ==> b1.pos == |b.data|)
    decreases |script|
  {
    if script != [] && script[0].Took? {
      var n := Min(script[0].n, |b.Rest()|);
      assert b.data[..b.pos] + b.Rest()[..n] == b.data[..b.pos + n];
      assert wire + b.Rest()[..n] == base + b.data[..b.pos + n];
      if b.pos + n < |b.data| {
        LoopCarries(base, wire + b.Rest()[..n], b.(pos := b.pos + n), script[1..]);
      }
    }
  }

  lemma UpstreamCarries(s: State, base: seq<byte>, data: seq<byte>, script: seq<Kernel>, eventOk: bool)
    requires s.Valid() && s.req.Some? && Carries(s, base, data)
    ensures var (r, rc) := Upstream(s, script, eventOk);
            && Carries(r, base, data)
            && (rc == OK ==> r.req == None && r.wire == base + data)
            && (rc == AGAIN ==> r.req.Some? && r.handler == SendHandler && r.waiting)
  {
    LoopCarries(base, s.wire, s.req.value, script);
    assert data[..|data|] == data;
  }

  /** Whatever the kernel does, from the call that starts a request over any run of write events
      the wire carries each byte of it at most once and in order, the unsent rest stays queued, and
      the call reports OK only if every byte went out. */
  lemma {:induction false} SendConserves(s: State, data: seq<byte>, script: seq<Kernel>, eventOk: bool, es: seq<Event>)
    requires s.Valid()
    ensures var (s1, rc) := Start(s, data, script, eventOk);
            && s1.Valid()
            && (rc == OK ==> s1.wire == s.wire + data && s1.req == None)
            && Carries(OnWrites(s1, es), s.wire, data)
  {
    var s0 := s.(req := Some(Buf(data, 0)));
    assert s.wire + data[..0] == s.wire;
    UpstreamCarries(s0, s.wire, data, script, eventOk);
    WritesCarry(Start(s, data, script, eventOk).0, s.wire, data, es);
  }

  lemma {:induction false} WritesCarry(s: State, base: seq<byte>, data: seq<byte>, es: seq<Event>)
    requires s.Valid() && Carries(s, base, data)
    ensures Carries(OnWrites(s, es), base, data)
    decreases |es|
  {
    if es != [] {
      if s.handler != Dummy && !es[0].timedOut && s.req.Some? {
        UpstreamCarries(s, base, data, es[0].script, es[0].eventOk);
      }
      WritesCarry(OnWrite(s, es[0]), base, data, es[1..]);
    }
  }

  /** Once the last byte is out, no write event sends anything. */
  lemma {:induction false} NothingAfterLast(s: State, es: seq<Event>)
    requires s.req == None
    ensures OnWrites(s, es) == s
    decreases |es|
  {
    if es != [] {
      NothingAfterLast(s, es[1..]);
    }
  }

  /** How many bytes the kernel would take over a run of write events; one that timed out offers none. */
  function Offered(es: seq<Event>): nat {
    if es == [] then 0 else (if es[0].timedOut then 0 else Given(es[0].script)) + Offered(es[1..])
  }

  /** A request that is waiting for write events is sent as far as they let it, also behind an event in which
      the connection broke, and it is dropped exactly when they have taken its rest. */
  lemma {:induction false} WritesDeliver(s: State, es: seq<Event>)
    requires s.Valid() && s.handler == SendHandler && s.req.Some? && s.req.value.Rest() != []
    ensures var rest := s.req.value.Rest();
            var t := OnWrites(s, es);
            && t.wire == s.wire + rest[..Min(Offered(es), |rest|)]
            && (t.req == None <==> |rest| <= Offered(es))
    decreases |es|
  {
    var rest := s.req.value.Rest();
    if es == [] {
      assert s.wire + rest[..0] == s.wire;
    } else if es[0].timedOut {
      WritesDeliver(s, es[1..]);
    } else {
      UpstreamAdvances(s, es[0].script, es[0].eventOk);
      var s1 := OnWrite(s, es[0]);
      if s1.req.Some? {
        WritesDeliver(s1, es[1..]);
        TwoParts(s.wire, s.req.value, Given(es[0].script), Min(Offered(es[1..]), |s1.req.value.Rest()|));
      } else {
        NothingAfterLast(s1, es[1..]);
      }
    }
  }

  /** The sending side of ngx_http_php_socket_upstream_t. */
  class Upload {
    var wire: seq<byte>
    var req: Option<Buf>
    var handler: Handler
    var armed: bool
    var waiting: bool

    constructor ()
      ensures View() == State([], None, Dummy, false, false)
    {
      wire, req, handler, armed, waiting := [], None, Dummy, false, false;
    }

    ghost function View(): State
      reads this
    {
      State(wire, req, handler, armed, waiting)
    }

    /** c->send on the unsent rest: advances over what the kernel took. */
    method KernelSend(k: Kernel) returns (n: int)
      requires req.Some? && req.value.Valid()
      modifies this`wire
      ensures match k
              case Took(m) => n == Min(m, |req.value.Rest()|) && wire == old(wire) + req.value.Rest()[..n]
              case WouldBlock => n == -2 && wire == old(wire)
              case Broken => n == -1 && wire == old(wire)
    {
      match k {
        case WouldBlock => n := -2;
        case Broken => n := -1;
        case Took(m) =>
          n := Min(m, |req.value.Rest()|);
          wire := wire + req.value.Rest()[..n];
      }
    }

    method UpstreamSend(script: seq<Kernel>, eventOk: bool) returns (rc: Rc)
      requires View().Valid() && req.Some?
      modifies this
      ensures (View(), rc) == Upstream(old(View()), script, eventOk)
      ensures Advanced(old(View()), script, View()) && Reported(old(View()), script, eventOk, rc)
    {
      UpstreamAdvances(View(), script, eventOk);
      var i := 0;
      var n := -2;
      while i < |script|
        invariant i <= |script| && req.Some? && req.value.Valid() && n == -2
        invariant View() == old(View()).(wire := wire, req := req)
        invariant Loop(wire, req.value, script[i..]) == Loop(old(wire), old(req).value, script)
      {
        var b := req.value;
        n := KernelSend(script[i]);
        assert script[i..][0] == script[i] && script[i..][1..] == script[i + 1..];
        if n < 0 {
          break;
        }
        req := Some(b.(pos := b.pos + n));
        if req.value.pos == |b.data| {
          armed, req, handler := false, None, Dummy;
          return if eventOk then OK else ERROR;
        }
        n := -2;
        i := i + 1;
      }
      if n == -1 {
        return ERROR;
      }
      waiting, handler, armed := true, SendHandler, true;
      return if eventOk then AGAIN else ERROR;
    }

    method SocketSend(data: seq<byte>, script: seq<Kernel>, eventOk: bool) returns (rc: Rc)
      requires View().Valid()
      modifies this
      ensures (View(), rc) == Start(old(View()), data, script, eventOk)
      ensures var s := old(View()).(req := Some(Buf(data, 0)));
              Advanced(s, script, View()) && Reported(s, script, eventOk, rc)
    {
      req := Some(Buf(data, 0));
      rc := UpstreamSend(script, eventOk);
    }

    /** ngx_http_php_socket_handler with a write event, and ngx_http_php_socket_send_handler. */
    method WriteEvent(e: Event)
      requires View().Valid()
      modifies this
      ensures View() == OnWrite(old(View()), e)
      ensures if old(handler) == SendHandler && !e.timedOut && old(req).Some? then
                Advanced(old(View()), e.script, View())
              else View() == old(View())
    {
      if handler == SendHandler && !e.timedOut {
        if req.Some? {
          var _ := UpstreamSend(e.script, e.eventOk);
        }
      }
    }
  }
}
