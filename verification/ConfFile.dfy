/**
 The reader of php code blocks in the configuration, as in ngx_php_conf_file.c: a scan for the
 first unmatched closing brace, through a buffer of 4096 bytes that slides over the file.
 */
module ConfFile {
  import opened Common

  const NGX_CONF_BUFFER := 4096
  const LF: byte := 10
  const OPEN: byte := 123   // '{'
  const CLOSE: byte := 125  // '}'

  // ---- What the reader is to find, over the whole file ----

  /** Opening minus closing braces in file[a..b]. */
  function Net(file: seq<byte>, a: nat, b: nat): int
    requires a <= b <= |file|
    decreases b
  {
    if a == b then 0
    else Net(file, a, b - 1) + (if file[b - 1] == OPEN then 1 else if file[b - 1] == CLOSE then -1 else 0)
  }

  function Lines(file: seq<byte>, a: nat, b: nat): nat
    requires a <= b <= |file|
    decreases b
  {
    if a == b then 0 else Lines(file, a, b - 1) + (if file[b - 1] == LF then 1 else 0)
  }

  /** No prefix of file[a..b] closes more braces than it opens. */
  predicate Balanced(file: seq<byte>, a: nat, b: nat)
    requires a <= b <= |file|
    decreases b
  {
    a == b || (Balanced(file, a, b - 1) && Net(file, a, b) >= 0)
  }

  /** Balanced, said of all prefixes at once. */
  predicate NeverNegative(file: seq<byte>, a: nat, b: nat)
    requires a <= b <= |file|
  {
    forall j :: a <= j <= b ==> Net(file, a, j) >= 0
  }

  lemma {:induction false} BalancedPrefixes(file: seq<byte>, a: nat, b: nat)
    requires a <= b <= |file|
    ensures Balanced(file, a, b) <==> NeverNegative(file, a, b)
    decreases b
  {
    if a < b {
      BalancedPrefixes(file, a, b - 1);
      assert NeverNegative(file, a, b) <==> NeverNegative(file, a, b - 1) && Net(file, a, b) >= 0;
    }
  }

  /** `k` is the first closing brace from `a` that no opening brace before it matches. */
  predicate ClosesAt(file: seq<byte>, a: nat, k: nat)
    requires a <= |file|
  {
    a <= k < |file| && Balanced(file, a, k) && Net(file, a, k + 1) < 0
  }

  lemma ClosedBefore(file: seq<byte>, a: nat, k: nat, b: nat)
    requires a <= |file| && ClosesAt(file, a, k) && k < b <= |file|
    ensures !Balanced(file, a, b)
  {
    BalancedPrefixes(file, a, b);
    assert Net(file, a, k + 1) < 0;
  }

  lemma ClosesAtUnique(file: seq<byte>, a: nat, k: nat, m: nat)
    requires a <= |file| && ClosesAt(file, a, k) && ClosesAt(file, a, m)
    ensures k == m
  {
    if k < m {
      ClosedBefore(file, a, k, m);
    } else if m < k {
      ClosedBefore(file, a, m, k);
    }
  }

  /** A one-pass scan of the file with a depth counter. */
  function Scan(file: seq<byte>, i: nat, deep: nat): Option<nat>
    requires i <= |file|
    decreases |file| - i
  {
    if i == |file| then None
    else if file[i] == OPEN then Scan(file, i + 1, deep + 1)
    else if file[i] == CLOSE then
      if deep == 0 then Some(i) else Scan(file, i + 1, deep - 1)
    else Scan(file, i + 1, deep)
  }

  /** The scan finds the first unmatched closing brace, and nothing only if there is none. */
  lemma {:induction false} ScanFindsClose(file: seq<byte>, a: nat, i: nat)
    requires a <= i <= |file| && Balanced(file, a, i)
    ensures match Scan(file, i, Net(file, a, i))
            case Some(k) => i <= k && ClosesAt(file, a, k)
            case None => Balanced(file, a, |file|)
    decreases |file| - i
  {
    if i < |file| && !(file[i] == CLOSE && Net(file, a, i) == 0) {
      assert Net(file, a, i + 1) >= 0;
      ScanFindsClose(file, a, i + 1);
    }
  }

  // ---- What one call returns ----

  datatype Outcome =
    | BlockDone(text: seq<byte>, len: nat)  // NGX_CONF_BLOCK_DONE; len: code->len
    | FileDone                              // NGX_CONF_FILE_DONE
    | TooLong                               // NGX_ERROR, "too long parameter"
    | ReadError                             // NGX_ERROR, the file could not be read

  /** ngx_cpystrn stops at the first NUL. */
  function UpToNul(s: seq<byte>): (r: seq<byte>)
    ensures r <= s && 0 !in r
    ensures r == s <==> 0 !in s
    ensures |r| < |s| ==> s[|r|] == 0
  {
    if s == [] || s[0] == 0 then [] else [s[0]] + UpToNul(s[1..])
  }

  /** The outcome of reading from offset `a`: it does not depend on what was buffered. */
  ghost predicate Returns(file: seq<byte>, a: nat, line: nat, rc: Outcome, a1: nat, line1: nat)
    requires a <= |file|
  {
    match rc
    case BlockDone(text, len) =>
      && a < a1 <= |file| && a1 - a <= NGX_CONF_BUFFER
      && ClosesAt(file, a, a1 - 1)
      && text == UpToNul(file[a..a1 - 1]) && len == a1 - a
      && line1 == line + Lines(file, a, a1)
    case FileDone =>
      && a1 == |file| <= a + NGX_CONF_BUFFER && Balanced(file, a, |file|)
      && line1 == line + Lines(file, a, |file|)
    case TooLong =>
      && a + NGX_CONF_BUFFER < |file| && Balanced(file, a, a + NGX_CONF_BUFFER)
      && line1 == line
    case ReadError => true
  }

  /** Which of the three a file gets is decided by its bytes alone. */
  lemma OutcomeDecided(file: seq<byte>, a: nat, line: nat, rc: Outcome, a1: nat, line1: nat)
    requires a <= |file| && rc != ReadError && Returns(file, a, line, rc, a1, line1)
    ensures rc.BlockDone? <==> exists k: nat :: ClosesAt(file, a, k) && k < a + NGX_CONF_BUFFER
    ensures rc == FileDone <==> |file| <= a + NGX_CONF_BUFFER && Balanced(file, a, |file|)
    ensures rc == TooLong <==> a + NGX_CONF_BUFFER < |file| && Balanced(file, a, a + NGX_CONF_BUFFER)
    ensures rc.BlockDone? ==> Scan(file, a, 0) == Some(a1 - 1)
    ensures rc.BlockDone? ==> (rc.text == file[a..a1 - 1] <==> 0 !in file[a..a1 - 1])
  {
    ScanFindsClose(file, a, a);
    if rc.BlockDone? {
      ClosedBefore(file, a, a1 - 1, |file|);
      if a + NGX_CONF_BUFFER <= |file| {
        ClosedBefore(file, a, a1 - 1, a + NGX_CONF_BUFFER);
      }
      ClosesAtUnique(file, a, Scan(file, a, 0).value, a1 - 1);
    } else {
      var b := if rc == FileDone then |file| else a + NGX_CONF_BUFFER;
      BalancedPrefixes(file, a, b);
      forall k: nat | ClosesAt(file, a, k) ensures b <= k {
        assert Net(file, a, k + 1) < 0;
      }
    }
  }

  datatype Fill = Ready | AtEnd | Full | Short

  /** What the file system does with one read: all bytes, fewer than asked for, or none and an error */
  datatype Answer = Complete | Part(n: nat) | Failed

  /** cf->conf_file with its buffer; `offset` is how much of the file was read into it, `disk` answers the
      reads, of which there were `readCount`. */
  class Reader {
    const file: seq<byte>
    const disk: nat -> Answer
    const buf: array<byte>
    var readCount: nat
    var offset: nat
    var pos: nat
    var last: nat
    var line: nat

    /** The buffer ends with the last bytes read; `pos` is the next one to look at. */
    ghost predicate Valid()
      reads this, buf
    {
      && buf.Length == NGX_CONF_BUFFER
      && pos <= last <= NGX_CONF_BUFFER && last <= offset <= |file|
      && forall i :: 0 <= i < last ==> buf[i] == file[offset - last + i]
    }

    /** The offset in the file of the next byte to look at. */
    ghost function At(): nat
      requires last <= offset && pos <= last
      reads this
    {
      offset - (last - pos)
    }

    /** The state in which ngx_php_conf_parse opens a file. */
    constructor (content: seq<byte>, disk: nat -> Answer)
      ensures Valid() && file == content && this.disk == disk && readCount == 0 && At() == 0 && line == 1 && fresh(buf)
    {
      file := content;
      this.disk, readCount := disk, 0;
      buf := new byte[NGX_CONF_BUFFER];
      offset, pos, last, line := 0, 0, 0, 1;
    }

    /** Some read since the first `r0` failed or came short. */
    predicate SomeFailed(r0: nat)
      requires r0 <= readCount
      reads this`readCount
    {
      exists i :: r0 <= i < readCount && disk(i) != Complete
    }

    /** ngx_read_file at the current offset, to buf[at..at+size] */
    method ReadFile(at: nat, size: nat) returns (n: int)
      requires at + size <= buf.Length && offset + size <= |file| && size > 0
      modifies buf, this`offset, this`readCount
      ensures readCount == old(readCount) + 1 && (n == size <==> disk(old(readCount)) == Complete)
      ensures -1 <= n <= size && forall i :: 0 <= i < at ==> buf[i] == old(buf[i])
      ensures n == size ==> offset == old(offset) + size
      ensures n == size ==> forall i :: at <= i < at + size ==> buf[i] == file[old(offset) + (i - at)]
    {
      var answer := disk(readCount);
      readCount := readCount + 1;
      n := match answer
           case Failed => -1
           case Part(k) => if k < size then k else size - 1
           case Complete => size;
      if n > 0 {
        forall i | 0 <= i < n { buf[at + i] := file[offset + i]; }
        offset := offset + n;
      }
    }

    /** The copy of buf[start..end] that is handed out, which ngx_cpystrn ends at a NUL. */
    method CopyToken(start: nat, end: nat, ghost a: nat, ghost e: nat) returns (text: seq<byte>)
      requires Valid() && start <= end <= pos && a == At() - (pos - start) && e == At() - (pos - end)
      ensures text == UpToNul(file[a..e])
    {
      assert buf[start..end] == file[a..e];
      text := UpToNul(buf[start..end]);
    }

    /** Makes sure that there is a byte to look at; `start` follows the token when it is moved. */
    method More(start: nat) returns (st: Fill, start1: nat)
      requires Valid() && start <= pos
      modifies this`offset, this`pos, this`last, this`readCount, buf
      ensures readCount >= old(readCount) && (st == Short <==> SomeFailed(old(readCount)))
      ensures readCount > old(readCount) ==> old(pos == last && offset < |file| && pos - start < NGX_CONF_BUFFER)
      ensures st != Short ==> Valid() && At() == old(At())
      ensures st == Ready ==> start1 <= pos < last && pos - start1 == old(pos) - start
      ensures st == AtEnd ==> At() == |file| && pos - start <= NGX_CONF_BUFFER
      ensures st == Full ==> At() < |file| && pos - start == NGX_CONF_BUFFER
      ensures st == AtEnd || st == Full ==> pos == old(pos)
    {
      start1 := start;
      if pos < last {
        return Ready, start;
      }
      if offset >= |file| {
        return AtEnd, start;
      }
      var len := pos - start;
      if len == NGX_CONF_BUFFER {
        return Full, start;
      }
      var ok := Refill(start, len);
      return if ok then Ready else Short, 0;
    }

    /** Takes the next byte, counting a line feed. */
    method Next() returns (ch: byte)
      requires Valid() && pos < last
      modifies this`pos, this`line
      ensures Valid() && pos == old(pos) + 1 && old(At()) < |file| && ch == file[old(At())]
      ensures line == old(line) + (if ch == LF then 1 else 0)
    {
      ch := buf[pos];
      pos := pos + 1;
      if ch == LF {
        line := line + 1;
      }
    }

    /** The end of a call that met an unmatched brace at offset `e`. */
    method Close(start: nat, ghost a: nat, ghost e: nat, ghost startLine: nat) returns (rc: Outcome)
      requires Valid() && start < pos && a == At() - (pos - start) && e == At() - 1
      requires Balanced(file, a, e) && Net(file, a, e) == 0 && file[e] == CLOSE
      requires line == startLine + Lines(file, a, e + 1)
      ensures rc.BlockDone? && Whole(Returns(file, a, startLine, rc, At(), line))
    {
      assert ClosesAt(file, a, e);
      var text := CopyToken(start, pos - 1, a, e);
      return BlockDone(text, pos - 1 - start + 1);
    }

    /** ngx_php_conf_read_token */
    method ReadToken() returns (rc: Outcome)
      requires Valid()
      modifies this`offset, this`pos, this`last, this`line, this`readCount, buf
      ensures readCount >= old(readCount) && (rc == ReadError <==> SomeFailed(old(readCount)))
      ensures rc != ReadError ==> Whole(Valid()) && Whole(Returns(file, old(At()), old(line), rc, At(), line))
    {
      ghost var a, i := At(), At();
      var startLine := line;
      var start: nat, deep: nat := pos, 0;
      while true
        invariant Whole(Valid()) && start <= pos && a + (pos - start) == i == At()
        invariant Balanced(file, a, i) && deep == Net(file, a, i)
        invariant line == startLine + Lines(file, a, i)
        invariant readCount >= old(readCount) && !SomeFailed(old(readCount))
        decreases |file| - i
      {
        var st: Fill;
        st, start := More(start);
        match st {
          case AtEnd => return FileDone;
          case Full =>
            line := startLine;
            return TooLong;
          case Short => return ReadError;
          case Ready =>
        }
        var ch := Next();
        i := i + 1;
        if ch == OPEN {
          deep := deep + 1;
        } else if ch == CLOSE {
          if deep == 0 {
            rc := Close(start, a, i - 1, startLine);
            return;
          }
          deep := deep - 1;
        }
      }
    }

    /** Moves the unfinished token to the front of the buffer and reads on behind it. */
    method Refill(start: nat, len: nat) returns (ok: bool)
      requires Valid() && pos == last && start + len == pos && len < NGX_CONF_BUFFER && offset < |file|
      modifies this`offset, this`pos, this`last, this`readCount, buf
      ensures readCount == old(readCount) + 1 && (ok <==> disk(old(readCount)) == Complete)
      ensures ok ==> Valid() && At() == old(At()) && pos == len < last
    {
      forall i | 0 <= i < len { buf[i] := buf[start + i]; }
      assert forall i :: 0 <= i < len ==> buf[i] == file[offset - len + i];
      var size := if |file| - offset > buf.Length - len then buf.Length - len else |file| - offset;
      var n := ReadFile(len, size);
      if n != size {
        return false;
      }
      pos := len;
      last := pos + n;
      return true;
    }
  }

  // ---- ngx_php_conf_parse ----

  datatype Kind = ParseFile | ParseBlock | ParseParam

  /** Whether a parse succeeds: a block must be closed and a file must not be, and the directive's
      handler, which is called in any case, must not fail. */
  function ParseOk(kind: Kind, rc: Outcome, handlerOk: bool): bool {
    handlerOk && match rc
      case BlockDone(_, _) => kind == ParseBlock
      case FileDone => kind != ParseBlock
      case _ => false
  }

  /** A block parse succeeds exactly when the block is closed within one buffer of its start, and any other
      exactly when nothing closes and the rest of the file is no longer than a buffer; if the handler does. */
  lemma ParsesWhen(file: seq<byte>, a: nat, line: nat, kind: Kind, handlerOk: bool, rc: Outcome, a1: nat, line1: nat)
    requires a <= |file| && (rc != ReadError ==> Returns(file, a, line, rc, a1, line1))
    ensures ParseOk(kind, rc, handlerOk) <==>
              && rc != ReadError && handlerOk
              && if kind == ParseBlock then exists k: nat :: ClosesAt(file, a, k) && k < a + NGX_CONF_BUFFER
                 else |file| <= a + NGX_CONF_BUFFER && Balanced(file, a, |file|)
  {
    if rc != ReadError {
      OutcomeDecided(file, a, line, rc, a1, line1);
    }
  }

  /** The loop of conf_parse is left after one token: the reader never returns NGX_OK or a block
      start. */
  method ConfParse(r: Reader, kind: Kind, handlerOk: bool) returns (ok: bool, rc: Outcome)
    requires r.Valid()
    modifies r`offset, r`pos, r`last, r`line, r`readCount, r.buf
    ensures r.readCount >= old(r.readCount) && (rc == ReadError <==> r.SomeFailed(old(r.readCount)))
    ensures rc != ReadError ==> r.Valid() && Returns(r.file, old(r.At()), old(r.line), rc, r.At(), r.line)
    ensures ok <==>
              && !r.SomeFailed(old(r.readCount)) && handlerOk
              && var a := old(r.At());
                 if kind == ParseBlock then exists k: nat :: ClosesAt(r.file, a, k) && k < a + NGX_CONF_BUFFER
                 else |r.file| <= a + NGX_CONF_BUFFER && Balanced(r.file, a, |r.file|)
  {
    rc := r.ReadToken();
    ghost var end := if rc == ReadError then 0 else r.At();
    ParsesWhen(r.file, old(r.At()), old(r.line), kind, handlerOk, rc, end, r.line);
    var failed := match rc
                  case BlockDone(_, _) => kind != ParseBlock
                  case FileDone => kind == ParseBlock
                  case _ => true;
    ok := handlerOk && !failed;
  }
}
