/**
 Receiving over a non-blocking socket, as in ngx_http_php_socket.c: a buffer that is allocated when
 there is none, filled by a receive call or by a later read event, handed to the script, and given
 up by setting its start pointer to null.
 */
module Recv {
  import opened Common

  /** What c->recv meets: bytes of the peer (as many as fit are taken), its close, nothing yet, or
      an error. */
  datatype Kernel = Bytes(data: seq<byte>) | Eof | WouldBlock | Broken

  const NGX_ERROR := -1
  const NGX_AGAIN := -2

  /** The read event before and after the call of c->recv, and whether it could be registered. */
  datatype Input = Input(active: bool, ready: bool, kernel: Kernel, readyAfter: bool, eventOk: bool)

  /**
   started: buffer.start is not null; cap: the size of that buffer
   chunk: the script's variable; taken: what c->recv took from the socket, in order
   collected: what the script had read from its variable when it made the last receive call
   */
  datatype State = State(started: bool, cap: nat, page: bool, chunk: seq<byte>, code: int, waiting: bool,
                         handler: bool, enabled: bool, taken: seq<byte>, collected: seq<byte>)

  function Min(a: nat, b: nat): nat { if a <= b then a else b }

  /** The result of c->recv on a buffer of `cap` bytes, and the bytes it stores there. */
  function Answer(cap: nat, k: Kernel): (int, seq<byte>) {
    match k
    case Bytes(data) => (Min(|data|, cap), data[..Min(|data|, cap)])
    case Eof => (0, [])
    case WouldBlock => (NGX_AGAIN, [])
    case Broken => (NGX_ERROR, [])
  }

  /** ngx_http_php_socket_upstream_recv: its for(;;) is left in the first pass on every path. */
  function Upstream(s: State, size: nat, x: Input): (State, int) {
    var cap := if s.started then s.cap else size;
    if cap == 0 then
      Tail(s.(started := false, cap := 0), 0, x.eventOk)
    else if x.active && !x.ready then
      Tail(s.(started := true, cap := cap), NGX_AGAIN, x.eventOk)
    else
      var paged := s.page && x.active && !x.readyAfter;
      var (n, got) := Answer(cap, x.kernel);
      var s1 := s.(started := n < 0, cap := cap, code := if paged then n else s.code,
                   chunk := if n > 0 then got else s.chunk, taken := s.taken + got);
      if n == NGX_ERROR then (s1, NGX_ERROR)
      else if n > 0 && !paged then (s1, NGX_AGAIN)
      else Tail(s1, n, x.eventOk)
  }

  function Tail(s: State, n: int, eventOk: bool): (State, int) {
    (s.(waiting := true), if eventOk then n else NGX_ERROR)
  }

  /** A receive call of the script, which has read its variable before and finds it empty now. */
  datatype Event =
    | Call(size: nat, paged: bool, x: Input, addOk: bool)
    | Read(timedOut: bool, x: Input)

  function SocketRecv(s: State, size: nat, paged: bool, x: Input, addOk: bool): (State, int) {
    var (s1, rc) := Upstream(Ask(s, paged), size, x);
    Register(s1, rc, addOk)
  }

  function Ask(s: State, paged: bool): State {
    s.(collected := s.collected + s.chunk, chunk := [], page := s.page || paged)
  }

  /** The end of ngx_http_php_socket_recv: the handler stays as it was if the event cannot be added. */
  function Register(s: State, rc: int, addOk: bool): (State, int) {
    if !s.enabled then (s.(enabled := true, handler := true), rc)
    else if addOk then (s.(handler := true), rc)
    else (s, NGX_ERROR)
  }

  /** A read event, through the handler that is installed; `size` is not used, a buffer being there. */
  function OnRead(s: State, timedOut: bool, x: Input): State {
    if !s.handler || timedOut then s
    else if s.started then Upstream(s.(enabled := true), 0, x).0
    else s.(enabled := true)
  }

  function Step(s: State, e: Event): State {
    match e
    case Call(size, paged, x, addOk) => SocketRecv(s, size, paged, x, addOk).0
    case Read(timedOut, x) => OnRead(s, timedOut, x)
  }

  function Run(s: State, es: seq<Event>): State
    decreases |es|
  {
    if es == [] then s else Run(Step(s, es[0]), es[1..])
  }

  // ---- What one call or event delivers ----

  /** The kernel is asked at all. */
  predicate Asked(cap: nat, x: Input) {
    cap > 0 && (x.ready || !x.active)
  }

  /** What the kernel has for a buffer of `cap` bytes: None if the peer may still send something */
  function Offer(cap: nat, x: Input): Option<seq<byte>> {
    if !Asked(cap, x) then None
    else match x.kernel
      case Bytes(data) => Some(data[..Min(|data|, cap)])
      case Eof => Some([])
      case _ => None
  }

  /** A page is being read, and the event has nothing more. */
  predicate LastOfPage(s: State, x: Input) {
    s.page && x.active && !x.readyAfter
  }

  /** From `s` to `t`, with a buffer of `cap` bytes: what the kernel has becomes the script's chunk and is taken
      from the socket, and the buffer is given up, also at the end of the file and where it has no room; else
      it stays, and nothing is taken. `code` is the number of bytes, or -1 or -2, behind the last of a page. */
  predicate Delivered(s: State, cap: nat, x: Input, t: State) {
    && t.page == s.page && t.handler == s.handler && t.enabled == s.enabled && t.collected == s.collected
    && t.cap == cap
    && (match Offer(cap, x)
        case Some(data) =>
          && !t.started && t.taken == s.taken + data
          && t.chunk == (if data == [] then s.chunk else data)
        case None => t.started == (cap > 0) && t.taken == s.taken && t.chunk == s.chunk)
    && t.code == (if Asked(cap, x) && LastOfPage(s, x) then
                    match Offer(cap, x)
                    case Some(data) => |data|
                    case None => if x.kernel.Broken? then -1 else -2
                  else s.code)
    && t.waiting == (s.waiting || !Asked(cap, x) || match Offer(cap, x)
                                                     case Some(data) => data == [] || LastOfPage(s, x)
                                                     case None => !x.kernel.Broken?)
  }

  /** The answer is -1 if the connection broke or the event could not be registered; but bytes that are not the
      last of a page are answered by -2 without an event. Of the last ones of a page it is the number; the end
      of the file, and a buffer without room, are answered by 0, and nothing yet by -2. */
  predicate Answered(s: State, cap: nat, x: Input, rc: int) {
    match Offer(cap, x)
    case Some(data) =>
      if data != [] && !LastOfPage(s, x) then rc == -2 else rc == if x.eventOk then |data| else -1
    case None =>
      if Asked(cap, x) && x.kernel.Broken? then rc == -1
      else rc == if !x.eventOk then -1 else if cap == 0 then 0 else -2
  }

  lemma UpstreamDelivers(s: State, size: nat, x: Input)
    ensures var cap := if s.started then s.cap else size;
            var (t, rc) := Upstream(s, size, x);
            Delivered(s, cap, x, t) && Answered(s, cap, x, rc)
  {
    assert s.taken + [] == s.taken;
  }

  /** The same for a receive call, which starts a new chunk and leaves its handler for the read events; not
      so if that fails, which only can behind the first call. */
  predicate CallDelivered(s: State, size: nat, paged: bool, x: Input, addOk: bool, t: State, rc: int) {
    var s0 := s.(collected := s.collected + s.chunk, chunk := [], page := s.page || paged);
    var cap := if s.started then s.cap else size;
    && Delivered(s0, cap, x, t.(handler := s.handler, enabled := s.enabled))
    && t.enabled && t.handler == (s.handler || !s.enabled || addOk)
    && if s.enabled && !addOk then rc == -1 else Answered(s0, cap, x, rc)
  }

  /** A read event does nothing if it timed out or no call left a handler for it, and delivers if a
      buffer is held. */
  predicate ReadDelivered(s: State, timedOut: bool, x: Input, t: State) {
    if !s.handler || timedOut then t == s
    else if !s.started then t == s.(enabled := true)
    else Delivered(s.(enabled := true), s.cap, x, t)
  }

  lemma CallDelivers(s: State, size: nat, paged: bool, x: Input, addOk: bool)
    ensures var (t, rc) := SocketRecv(s, size, paged, x, addOk);
            Whole(CallDelivered(s, size, paged, x, addOk, t, rc))
  {
    UpstreamDelivers(Ask(s, paged), size, x);
  }

  lemma ReadDelivers(s: State, timedOut: bool, x: Input)
    ensures ReadDelivered(s, timedOut, x, OnRead(s, timedOut, x))
  {
    UpstreamDelivers(s.(enabled := true), 0, x);
  }

  /** What the read events bring for a buffer of `cap` bytes: what the kernel has at the first of them
      that is not timed out and finds something, or the end of the file */
  function Brought(cap: nat, es: seq<Event>): Option<seq<byte>>
    requires forall e :: e in es ==> e.Read?
  {
    if es == [] then None
    else if !es[0].timedOut && Offer(cap, es[0].x).Some? then Offer(cap, es[0].x)
    else Brought(cap, es[1..])
  }

  /** A receive call that found nothing is served by the read events that follow, however many of them find
      nothing, fail or time out: by the first that finds something, and by no other. */
  lemma {:induction false} ReadsDeliver(s: State, es: seq<Event>)
    requires s.started && s.handler && s.cap > 0 && forall e :: e in es ==> e.Read?
    ensures var t := Run(s, es);
            match Brought(s.cap, es)
            case None => t.started && t.cap == s.cap && t.taken == s.taken && t.chunk == s.chunk
            case Some(data) =>
              !t.started && t.taken == s.taken + data && t.chunk == if data == [] then s.chunk else data
    decreases |es|
  {
    if es != [] {
      assert es[0] in es;
      var s1 := Step(s, es[0]);
      if !es[0].timedOut {
        UpstreamDelivers(s.(enabled := true), 0, es[0].x);
      }
      if s1.started {
        ReadsDeliver(s1, es[1..]);
      } else {
        ReadsIdle(s1, es[1..]);
      }
    }
  }

  /** Where no buffer is held, read events take nothing. */
  lemma {:induction false} ReadsIdle(s: State, es: seq<Event>)
    requires !s.started && forall e :: e in es ==> e.Read?
    ensures var t := Run(s, es); !t.started && t.taken == s.taken && t.chunk == s.chunk
    decreases |es|
  {
    if es != [] {
      assert es[0] in es;
      ReadsIdle(Step(s, es[0]), es[1..]);
    }
  }

  /** What the script has read, with what waits in its variable, is what was taken from the socket;
      and a chunk waits only while no buffer is held. */
  predicate Conserved(s: State) {
    && s.taken == s.collected + s.chunk
    && (s.started ==> s.chunk == [])
  }

  lemma UpstreamConserves(s: State, size: nat, x: Input)
    requires s.taken == s.collected && s.chunk == []
    ensures Conserved(Upstream(s, size, x).0)
  {
    assert s.collected + [] == s.collected;
  }

  lemma StepConserves(s: State, e: Event)
    requires Conserved(s)
    ensures Conserved(Step(s, e))
  {
    match e
    case Call(size, paged, x, addOk) =>
      UpstreamConserves(Ask(s, paged), size, x);
    case Read(timedOut, x) =>
      if s.started {
        assert s.collected + s.chunk == s.collected;
        UpstreamConserves(s.(enabled := true), 0, x);
      }
  }

  /** Over any run of receive calls and read events, nothing is lost or delivered twice. */
  lemma {:induction false} RecvConserves(s: State, es: seq<Event>)
    requires Conserved(s)
    ensures Conserved(Run(s, es))
    decreases |es|
  {
    if es != [] {
      StepConserves(s, es[0]);
      RecvConserves(Step(s, es[0]), es[1..]);
    }
  }

  /** After a delivery, no read event touches the chunk or the socket before the next call. */
  lemma {:induction false} ReadsKeepChunk(s: State, es: seq<Event>)
    requires Conserved(s) && s.chunk != [] && forall e :: e in es ==> e.Read?
    ensures Run(s, es).chunk == s.chunk && Run(s, es).taken == s.taken
  {
    ReadsIdle(s, es);
  }

  /** The size of a delivered chunk is bounded by the buffer, which a call allocates only when none
      is pending: the size the call asks for bounds every possible chunk if and only if no larger
      buffer is held. */
  lemma ChunkBound(s: State, size: nat, paged: bool)
    ensures (forall x, addOk :: |SocketRecv(s, size, paged, x, addOk).0.chunk| <= size)
            <==> !(s.started && s.cap > size)
  {
    if s.started && s.cap > size {
      var x := Input(false, true, Bytes(seq(s.cap, _ => 0)), true, true);
      assert |SocketRecv(s, size, paged, x, true).0.chunk| == s.cap;
    }
  }

  /** The receiving side of ngx_http_php_socket_upstream_t. */
  class Download {
    var mem: array<byte>    // the memory of u->buffer, from the start it was allocated at to its end
    var started: bool
    var pos: nat
    var last: nat
    var bufferSize: nat
    var page: bool
    var chunk: seq<byte>    // ctx->recv_buf
    var code: int           // ctx->recv_code
    var waiting: bool
    var handler: bool
    var enabled: bool
    ghost var taken: seq<byte>
    ghost var collected: seq<byte>

    /** Bytes are in the buffer only after they were delivered. */
    ghost predicate Valid()
      reads this
    {
      started ==> pos == last == 0
    }

    ghost function View(): State
      reads this
    {
      State(started, mem.Length, page, chunk, code, waiting, handler, enabled, taken, collected)
    }

    constructor ()
      ensures Valid() && Conserved(View()) && !started && fresh(mem)
    {
      mem := new byte[0];
      started, pos, last, bufferSize, page, chunk, code := false, 0, 0, 0, false, [], 0;
      waiting, handler, enabled, taken, collected := false, false, false, [], [];
    }

    /** c->recv into the free part of the buffer. */
    method KernelRecv(k: Kernel) returns (n: int)
      requires started && Valid() && mem.Length > 0
      modifies mem, this`taken
      ensures n == Answer(mem.Length, k).0 && taken == old(taken) + Answer(mem.Length, k).1
      ensures n > 0 ==> mem[..n] == Answer(mem.Length, k).1
    {
      match k {
        case Eof => n := 0;
        case WouldBlock => n := NGX_AGAIN;
        case Broken => n := NGX_ERROR;
        case Bytes(data) =>
          n := Min(|data|, mem.Length);
          forall i | 0 <= i < n { mem[i] := data[i]; }
          taken := taken + data[..n];
      }
    }

    /** The allocation of the buffer, when its start is null. */
    method Allocate()
      requires Valid()
      modifies this`mem, this`started, this`pos, this`last
      ensures Valid() && started && (mem == old(mem) || fresh(mem))
      ensures mem.Length == if old(started) then old(mem.Length) else bufferSize
    {
      if !started {
        mem := new byte[bufferSize];
        started, pos, last := true, 0, 0;
      }
    }

    method UpstreamRecv(x: Input) returns (rc: int)
      requires Valid()
      modifies this, mem
      ensures Valid() && (mem == old(mem) || fresh(mem)) && bufferSize == old(bufferSize)
      ensures (View(), rc) == Upstream(old(View()), old(bufferSize), x)
    {
      Allocate();
      var n := 0;
      var size := mem.Length - last;
      if size == 0 {
        started := false;
      } else if x.active && !x.ready {
        n := NGX_AGAIN;
      } else {
        n := KernelRecv(x.kernel);
        var paged := page && x.active && !x.readyAfter;
        if paged {
          code := n;
        }
        if n == NGX_ERROR {
          return NGX_ERROR;
        }
        if n > 0 {
          Deliver(n);
          if !paged {
            return NGX_AGAIN;
          }
        } else if n == 0 {
          started := false;
        }
      }
      waiting := true;
      return if x.eventOk then n else NGX_ERROR;
    }

    /** Hands the bytes just received to the script and gives the buffer up. */
    method Deliver(n: nat)
      requires Valid() && started && n <= mem.Length
      modifies this`last, this`started, this`chunk
      ensures Valid() && !started && chunk == mem[..n]
    {
      last := last + n;
      started := false;
      chunk := mem[pos..last];
    }

    /** ngx_socket_recv and ngx_socket_recvpage, with ngx_http_php_socket_recv. */
    method SocketRecvCall(size: nat, paged: bool, x: Input, addOk: bool) returns (rc: int)
      requires Valid()
      modifies this, mem
      ensures Valid() && (mem == old(mem) || fresh(mem))
      ensures (View(), rc) == SocketRecv(old(View()), size, paged, x, addOk)
      ensures Whole(CallDelivered(old(View()), size, paged, x, addOk, View(), rc))
    {
      collected := collected + chunk;
      chunk := [];
      bufferSize := size;
      page := page || paged;
      ghost var s0 := View();
      assert s0 == Ask(old(View()), paged);
      rc := UpstreamRecv(x);
      rc := Finish(rc, addOk);
      assert (View(), rc) == Register(Upstream(s0, size, x).0, Upstream(s0, size, x).1, addOk);
      CallDelivers(old(View()), size, paged, x, addOk);
    }

    method Finish(r: int, addOk: bool) returns (rc: int)
      requires Valid()
      modifies this`enabled, this`handler
      ensures Valid() && (View(), rc) == Register(old(View()), r, addOk)
    {
      if !enabled {
        enabled := true;
      } else if !addOk {
        return NGX_ERROR;
      }
      handler := true;
      return r;
    }

    /** ngx_http_php_socket_upstream_recv_handler */
    method ReadEvent(timedOut: bool, x: Input)
      requires Valid()
      modifies this, mem
      ensures Valid() && (mem == old(mem) || fresh(mem))
      ensures View() == OnRead(old(View()), timedOut, x)
      ensures ReadDelivered(old(View()), timedOut, x, View())
    {
      ReadDelivers(View(), timedOut, x);
      if !handler || timedOut {
        return;
      }
      enabled := true;
      if started {
        var _ := UpstreamRecv(x);
      }
    }
  }
}
