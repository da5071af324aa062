/**
 The output of a request: ngx_http_php_code_ub_write of ngx_http_php_core.c appends to a chain of
 buffers, and the content handlers of ngx_http_php_handler.c mark its end and send it. The body of a
 request is joined from such a chain too.
 */
module Output {
  import opened Common
  import opened Text

  /** A chain link with its buffer, whose bytes are not changed once they are there. */
  class Link {
    const data: string
    var lastBuf: bool
    var next: Link?

    constructor (data: string)
      ensures this.data == data && !lastBuf && next == null
    {
      this.data := data;
      lastBuf, next := false, null;
    }
  }

  /** A pointer to a pointer to a link: &chain->out or &link->next */
  datatype Where = Out | NextOf(link: Link)

  function Datas(links: seq<Link>): (r: seq<string>)
    ensures |r| == |links|
  {
    if links == [] then [] else [links[0].data] + Datas(links[1..])
  }

  lemma {:induction false} DatasAppend(links: seq<Link>, x: Link)
    ensures Datas(links + [x]) == Datas(links) + [x.data]
  {
    if links == [] {
      assert [] + [x] == [x] && [x][1..] == [];
    } else {
      assert (links + [x])[1..] == links[1..] + [x];
      DatasAppend(links[1..], x);
      Assoc([links[0].data], Datas(links[1..]), [x.data]);
    }
  }

  /** ngx_http_php_rputs_chain_list_t with the fields of the request that go with it */
  class Request {
    var hasChain: bool
    var out: Link?
    var last: Where
    var contentLength: int
    ghost var links: seq<Link>
    ghost var ended: bool

    /** The links from `out` on are `links`, `last` is where the pointer to the final one is, and only
        a final buffer of an output that was ended is marked. */
    ghost predicate Valid()
      reads this, links
    {
      && hasChain == (links != [])
      && (forall i, j :: 0 <= i < j < |links| ==> links[i] != links[j])
      && (links != [] ==>
            && out == links[0]
            && last == (if |links| == 1 then Out else NextOf(links[|links| - 2]))
            && links[|links| - 1].next == null)
      && (forall i :: 0 <= i < |links| - 1 ==> links[i].next == links[i + 1])
      && (forall i :: 0 <= i < |links| ==> links[i].lastBuf == (ended && i == |links| - 1))
    }

    /** `content_length_n` is -1 unless a script set it. */
    constructor (contentLength: int)
      ensures Valid() && links == [] && !ended && this.contentLength == contentLength
    {
      hasChain, out, last := false, null, Out;
      this.contentLength := contentLength;
      links, ended := [], false;
    }

    /** *chain->last */
    method Final() returns (link: Link)
      requires Valid() && hasChain
      ensures link == links[|links| - 1]
    {
      match last
      case Out => link := out;
      case NextOf(l) => link := l.next;
    }

    /** Appends a buffer, and moves `last` to it. */
    method Append(str: string)
      requires Valid() && !ended
      modifies this, links
      ensures Valid() && !ended && contentLength == old(contentLength)
      ensures |links| == |old(links)| + 1 && links[..|links| - 1] == old(links)
      ensures fresh(links[|links| - 1]) && links[|links| - 1].data == str
    {
      ghost var was := links;
      var link := new Link(str);
      if !hasChain {
        out := link;
        last := Out;
      } else {
        var final := Final();
        final.next := link;
        last := NextOf(final);
      }
      hasChain := true;
      links := links + [link];
      assert links[..|was|] == was;
    }

    /** The branch on content_length_n, which starts from -1 */
    method Count(n: nat)
      modifies this`contentLength
      ensures contentLength == Counted(old(contentLength), n)
    {
      if contentLength == -1 {
        contentLength := contentLength + n + 1;
      } else {
        contentLength := contentLength + n;
      }
    }

    /** ngx_http_php_code_ub_write for the content type of output */
    method UbWrite(str: string)
      requires Valid() && !ended
      modifies this, links
      ensures Valid() && !ended
      ensures Datas(links) == Datas(old(links)) + [str]
      ensures contentLength == Counted(old(contentLength), |str|)
      ensures |links| == |old(links)| + 1 && links[..|links| - 1] == old(links) && fresh(links[|links| - 1])
    {
      ghost var was := links;
      Append(str);
      DatasAppend(was, links[|was|]);
      assert links == was + [links[|was|]];
      Count(|str|);
    }

    /** The end of a content handler: an empty output gets a space, and the final buffer is marked. */
    method SetOutput()
      requires Valid() && !ended
      modifies this, links
      ensures Valid() && ended && links != []
      ensures Datas(links) == if old(links) == [] then [" "] else Datas(old(links))
      ensures contentLength == if old(links) == [] then Counted(old(contentLength), 1) else old(contentLength)
    {
      if !hasChain {
        UbWrite(" ");
      }
      var final := Final();
      final.lastBuf := true;
      ended := true;
    }

    /** What a filter reads that follows the chain from `out` */
    method ReadChain() returns (text: string)
      requires Valid()
      ensures text == Concat(Datas(links))
    {
      text := "";
      var cl := if hasChain then out else null;
      ghost var i := 0;
      while cl != null
        invariant i <= |links| && cl == (if i < |links| then links[i] else null)
        invariant text + Concat(Datas(links[i..])) == Concat(Datas(links))
        decreases |links| - i
      {
        assert links[i..][1..] == links[i + 1..];
        HeadTail(cl.data, Datas(links[i + 1..]));
        Assoc(text, cl.data, Concat(Datas(links[i + 1..])));
        text := text + cl.data;
        cl := cl.next;
        i := i + 1;
      }
    }
  }

  /** content_length_n after `n` more bytes: -1 stands for no bytes yet. */
  function Counted(length: int, n: nat): int {
    if length == -1 then n else length + n
  }

  function CountAll(length: int, writes: seq<string>): int
    decreases |writes|
  {
    if writes == [] then length else CountAll(Counted(length, |writes[0]|), writes[1..])
  }

  /** The length counted over a run of writes is the sum of theirs, added to what a script set. */
  lemma {:induction false} CountIsTotal(length: int, writes: seq<string>)
    requires length >= -1
    ensures CountAll(length, writes)
            == if writes == [] then length else (if length == -1 then 0 else length) + |Concat(writes)|
    decreases |writes|
  {
    if writes != [] {
      CountIsTotal(Counted(length, |writes[0]|), writes[1..]);
    }
  }

  /** A run of a script, from its first write to the chain that is sent: what is read from `out` is the
      concatenation of the writes, or one space if there were none; only the final buffer is marked; and
      unless the script set a length, the length is that of the text. */
  method Respond(writes: seq<string>, length: int) returns (r: Request, text: string)
    requires length >= -1
    ensures fresh(r) && r.Valid() && r.ended && r.links != []
    ensures text == (if writes == [] then " " else Concat(writes))
    ensures r.contentLength == (if length == -1 then 0 else length) + |text|
  {
    r := new Request(length);
    for i := 0 to |writes|
      invariant fresh(r) && r.Valid() && !r.ended
      invariant forall j :: 0 <= j < |r.links| ==> fresh(r.links[j])
      invariant Datas(r.links) == writes[..i]
      invariant CountAll(r.contentLength, writes[i..]) == CountAll(length, writes)
    {
      assert writes[i..][1..] == writes[i + 1..];
      assert writes[..i + 1] == writes[..i] + [writes[i]];
      ghost var was := r.links;
      r.UbWrite(writes[i]);
      assert forall j :: 0 <= j < |was| ==> r.links[j] == r.links[..|was|][j];
    }
    assert writes[..|writes|] == writes && writes[|writes|..] == [];
    CountIsTotal(length, writes);
    assert r.links == [] <==> writes == [];
    r.SetOutput();
    text := r.ReadChain();
    assert Concat([" "]) == " " + Concat([" "][1..]);
  }

  // ---- The body of a request ----

  /** request_body_ctx and the two flags of ngx_http_php_read_request_body_callback */
  class Body {
    var data: string
    var more: bool
    var done: bool

    constructor (more: bool)
      ensures data == "" && this.more == more && !done
    {
      data, done := "", false;
      this.more := more;
    }

    /** ngx_http_php_read_request_body_callback: the buffers in memory are joined, one alone is taken as
        it is. The phase engine is entered if there is no body to take, or the handler waits for it. */
    method ReadCallback(inMemory: bool, chain: seq<string>) returns (run: bool)
      modifies this
      ensures done
      ensures data == if inMemory && Concat(chain) != "" then Concat(chain) else old(data)
      ensures run == (!inMemory || Concat(chain) == "" || old(more))
      ensures more == (old(more) && (!inMemory || Concat(chain) == ""))
    {
      done := true;
      if !inMemory || chain == [] {
        return true;
      }
      if |chain| == 1 {
        assert Concat(chain) == chain[0] + Concat(chain[1..]);
        assert Concat(chain) == chain[0];
        if |chain[0]| == 0 {
          return true;
        }
        data := chain[0];
        run := more;
        more := false;
        return;
      }
      var buf := JoinChain(chain);
      if |buf| == 0 {
        return true;
      }
      data := buf;
      run := more;
      more := false;
    }
  }
}
