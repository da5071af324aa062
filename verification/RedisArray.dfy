/**
 Arrays in replies of the Redis client of t/lib/redis.php: its loop takes each element to have two lines,
 as bulk strings have, but nil and integers have one.
 */
module RedisArray {
  import opened Common
  import opened Redis

  /** An element of an array: a bulk string, nil or an integer */
  datatype Element = Value(s: string) | Nil | Number(i: int)

  /** The line of an element that has only one */
  function Line(e: Element): string
    requires !e.Value?
  {
    if e.Nil? then "$-1" else ":" + (if e.i < 0 then "-" + Decimal(-e.i) else Decimal(e.i))
  }

  function Encode(e: Element): string {
    if e.Value? then Bulk(e.s) else Line(e) + CRLF
  }

  function Elements(es: seq<Element>): string {
    if es == [] then "" else Encode(es[0]) + Elements(es[1..])
  }

  /** The text of an array */
  function Array(es: seq<Element>): string {
    "*" + Decimal(|es|) + (CRLF + Elements(es))
  }

  function Decoded(e: Element): Reply {
    match e case Value(s) => Str(s) case Nil => Null case Number(i) => Int(i)
  }

  function DecodedAll(es: seq<Element>): (r: seq<Reply>)
    ensures |r| == |es|
  {
    if es == [] then [] else [Decoded(es[0])] + DecodedAll(es[1..])
  }

  predicate AllNil(es: seq<Element>) {
    es == [] || (es[0].Nil? && AllNil(es[1..]))
  }

  /** An array that comes back: bulks that do, then at most one integer other than 0, and nothing but nil
      behind it. */
  predicate Returns(es: seq<Element>) {
    es == [] || match es[0]
      case Value(s) => Clean(s) && Returns(es[1..])
      case Nil => AllNil(es[1..])
      case Number(i) => i != 0 && AllNil(es[1..])
  }

  lemma LineNoBreak(e: Element)
    requires !e.Value?
    ensures NoBreak(Line(e)) && Line(e)[0] != '+'
  {
    NoBreakOf("$-1");
    NoBreakOf("-");
    NoBreakOf(":");
    if e.Number? {
      var n := if e.i < 0 then -e.i else e.i;
      DecimalNoBreak(n);
      NoBreakAppend("-", Decimal(n));
      NoBreakAppend(":", "-" + Decimal(n));
      NoBreakAppend(":", Decimal(n));
    }
  }

  lemma ParseNil(tail: string)
    requires tail != "" && !IsDigit(tail[0])
    ensures Parse("$-1" + tail) == Null
  {
    assert Decimal(1) == "1";
    assert "$-1" == "$" + ("-" + "1");
    Assoc("$", "-" + "1", tail);
    Assoc("-", "1", tail);
    HeadTail('$', "-" + ("1" + tail));
    NegativeInt(1, tail);
  }

  lemma ParseNegative(n: nat, tail: string)
    requires tail != "" && !IsDigit(tail[0])
    ensures Parse(":" + ("-" + (Decimal(n) + tail))) == Int(0 - n)
  {
    HeadTail(':', "-" + (Decimal(n) + tail));
    NegativeInt(n, tail);
  }

  lemma ParsePositive(n: nat, tail: string)
    requires tail != "" && !IsDigit(tail[0])
    ensures Parse(":" + (Decimal(n) + tail)) == Int(n)
  {
    HeadTail(':', Decimal(n) + tail);
    IntvalOfDecimal(n, tail);
  }

  lemma LineText(i: int, tail: string)
    ensures Line(Number(i)) + tail
            == if i < 0 then ":" + ("-" + (Decimal(-i) + tail)) else ":" + (Decimal(i) + tail)
  {
    if i < 0 {
      Assoc(":", "-" + Decimal(-i), tail);
      Assoc("-", Decimal(-i), tail);
    } else {
      Assoc(":", Decimal(i), tail);
    }
  }

  lemma ParseNumber(i: int, tail: string, data: string)
    requires tail != "" && !IsDigit(tail[0])
    requires data == if i < 0 then ":" + ("-" + (Decimal(-i) + tail)) else ":" + (Decimal(i) + tail)
    ensures Parse(data) == Int(i)
  {
    if i < 0 {
      ParseNegative(-i, tail);
    } else {
      ParsePositive(i, tail);
    }
  }

  lemma ParseLine(e: Element, tail: string)
    requires !e.Value? && tail != "" && !IsDigit(tail[0])
    ensures Parse(Line(e) + tail) == Decoded(e)
  {
    match e
    case Nil => ParseNil(tail);
    case Number(i) =>
      LineText(i, tail);
      ParseNumber(i, tail, Line(e) + tail);
  }

  lemma OneLine(e: Element, rest: string)
    requires !e.Value?
    ensures NextLine(Encode(e) + rest) == rest && Parse(Encode(e) + rest) == Decoded(e)
  {
    Assoc(Line(e), CRLF, rest);
    LineNoBreak(e);
    StrposOf(Line(e), rest);
    ParseLine(e, CRLF + rest);
  }

  /** `s` behind its first `d` lines */
  function Behind(s: string, d: nat): string
    decreases d
  {
    if d == 0 then s else Behind(NextLine(s), d - 1)
  }

  lemma {:induction false} BehindNext(s: string, d: nat)
    ensures NextLine(Behind(s, d)) == Behind(s, d + 1)
    decreases d
  {
    if d > 0 {
      BehindNext(NextLine(s), d - 1);
    }
  }

  lemma BehindElement(e: Element, rest: string, d: nat)
    requires e.Value? ==> NoBreak(e.s)
    ensures !e.Value? ==> Behind(Encode(e) + rest, d + 1) == Behind(rest, d)
    ensures e.Value? ==> Behind(Encode(e) + rest, d + 2) == Behind(rest, d)
  {
    var s := Encode(e) + rest;
    if e.Value? {
      ParseBulk(e.s, rest);
      assert Behind(s, d + 2) == Behind(NextLine(s), d + 1) == Behind(NextLine(NextLine(s)), d);
    } else {
      OneLine(e, rest);
    }
  }

  /** Behind any line of nil elements there are only nil elements. */
  lemma {:induction false} NilBehind(es: seq<Element>, d: nat) returns (r: seq<Element>)
    requires AllNil(es)
    ensures AllNil(r) && Behind(Elements(es), d) == Elements(r)
    decreases d
  {
    r := es;
    if d > 0 {
      if es != [] {
        r := es[1..];
        BehindElement(Nil, Elements(es[1..]), d - 1);
      }
      r := NilBehind(r, d - 1);
    }
  }

  lemma NilText(es: seq<Element>)
    requires AllNil(es)
    ensures Parse(Elements(es)) == Null
  {
    if es != [] {
      OneLine(Nil, Elements(es[1..]));
    }
  }

  /** One turn of the loop */
  lemma Item(s: string, n: nat, r: Reply, next: string)
    requires Stored(Parse(s)) == r && NextLine(NextLine(s)) == next
    ensures Items(s, n + 1) == [r] + Items(next, n)
  {
  }

  function Nulls(n: nat): seq<Reply> {
    if n == 0 then [] else [Null] + Nulls(n - 1)
  }

  lemma {:induction false} NilItems(es: seq<Element>, n: nat)
    requires AllNil(es)
    ensures Items(Elements(es), n) == Nulls(n)
    decreases n
  {
    if n > 0 {
      var s := Elements(es);
      NilText(es);
      var r := NilBehind(es, 2);
      assert NextLine(NextLine(s)) == Elements(r) by {
        assert Behind(s, 2) == Behind(NextLine(s), 1) == Behind(NextLine(NextLine(s)), 0);
      }
      ItemsStep(s, n);
      NilItems(r, n - 1);
    }
  }

  lemma {:induction false} NilDecoded(es: seq<Element>)
    requires AllNil(es)
    ensures DecodedAll(es) == Nulls(|es|)
  {
    if es != [] {
      NilDecoded(es[1..]);
    }
  }

  predicate AllUnbroken(es: seq<Element>) {
    es == [] || ((es[0].Value? ==> NoBreak(es[0].s)) && AllUnbroken(es[1..]))
  }

  lemma {:induction false} NoBreakAt(s: string, i: nat)
    requires NoBreak(s) && i < |s|
    ensures !IsBreak(s[i])
  {
    if i > 0 {
      NoBreakAt(s[1..], i - 1);
    }
  }

  /** Trim takes characters from both ends, and leaves others there. */
  lemma {:induction false} TrimIs(s: string) returns (i: nat, j: nat)
    ensures i <= j <= |s| && Trim(s) == s[i..j]
    ensures i < j ==> !IsTrimmed(s[i]) && !IsTrimmed(s[j - 1])
    ensures forall k :: 0 <= k < i || j <= k < |s| ==> IsTrimmed(s[k])
  {
    if s != "" && IsTrimmed(s[0]) {
      var a, b := TrimIs(s[1..]);
      i, j := a + 1, b + 1;
      assert s[1..][a..b] == s[i..j];
      assert forall k :: 1 <= k < |s| ==> s[k] == s[1..][k - 1];
    } else if s != "" && IsTrimmed(s[|s| - 1]) {
      var t := s[..|s| - 1];
      i, j := TrimIs(t);
      assert t[i..j] == s[i..j];
      assert forall k :: 0 <= k < |t| ==> s[k] == t[k];
    } else {
      i, j := 0, |s|;
      assert s[0..|s|] == s;
    }
  }

  /** A line that is a value by itself, with nothing but nil behind it, is not taken for that value. */
  lemma LineIsNotValue(arg: string, es: seq<Element>)
    requires NoBreak(arg) && AllNil(es)
    ensures Stored(Parse(arg + (CRLF + Elements(es)))) != Str(arg)
  {
    var rest := Elements(es);
    var data := arg + (CRLF + rest);
    if arg != "" {
      assert data[0] == arg[0];
      if arg[0] == '$' {
        DollarLine(arg, es);
      } else if arg[0] == '+' {
        PlusLine(arg, es);
      }
    }
  }

  lemma DollarLine(arg: string, es: seq<Element>)
    requires NoBreak(arg) && AllNil(es) && arg != "" && arg[0] == '$'
    ensures Parse(arg + (CRLF + Elements(es))) != Str(arg)
  {
    var rest := Elements(es);
    if arg == "$-1" {
      ParseLine(Nil, CRLF + rest);
    } else {
      FirstToken(arg, rest);
      SecondToken(es);
    }
  }

  lemma SecondToken(es: seq<Element>)
    requires AllNil(es)
    ensures Strtok(CRLF + Elements(es)).0 == if es == [] then None else Some("$-1")
  {
    var rest := Elements(es);
    assert (CRLF + rest)[1..][1..] == rest;
    assert Skip(CRLF + rest) == Skip(rest);
    if es != [] {
      var more := Elements(es[1..]);
      Assoc("$-1", CRLF, more);
      LineNoBreak(Nil);
      FirstToken("$-1", more);
    }
  }

  lemma PlusLine(arg: string, es: seq<Element>)
    requires NoBreak(arg) && AllNil(es) && arg != "" && arg[0] == '+'
    ensures Parse(arg + (CRLF + Elements(es))) != Str(arg)
  {
    var x := arg[1..];
    var s := x + (CRLF + Elements(es));
    assert (arg + (CRLF + Elements(es)))[1..] == s;
    if Trim(s) == arg {
      TrimCrosses(s, arg, |x|);
    }
  }

  /** What is left of a string with a line end in it, and nothing or a dollar sign behind that, is shorter
      than what is before the line end, or has the line end in it, or starts with the dollar sign. */
  lemma TrimCrosses(s: string, arg: string, n: nat)
    requires n + 2 <= |s| && s[n] == '\r' && s[n + 1] == '\n' && (n + 2 < |s| ==> s[n + 2] == '$')
    requires NoBreak(arg) && |arg| == n + 1 && arg[0] == '+'
    ensures Trim(s) != arg
  {
    var i, j := TrimIs(s);
    if s[i..j] == arg {
      assert s[i] == s[i..j][0] == '+';
      assert i < n;
      if n < j {
        assert s[i..j][n - i] == s[n];
        NoBreakAt(arg, n - i);
      }
    }
  }

  /** The first of elements behind `d` lines, if those behind it are all nil */
  lemma FirstBehind(e: Element, more: seq<Element>, d: nat)
    requires (e.Value? ==> NoBreak(e.s)) && AllNil(more) && d >= 1 && !e.Nil?
    ensures Stored(Parse(Behind(Encode(e) + Elements(more), d))) != Decoded(e)
  {
    if e.Value? && d == 1 {
      LinesOfBulk(e.s, Elements(more));
      LineIsNotValue(e.s, more);
    } else {
      var r := PastFirst(e, more, d);
      NilText(r);
    }
  }

  lemma PastFirst(e: Element, more: seq<Element>, d: nat) returns (r: seq<Element>)
    requires (e.Value? ==> NoBreak(e.s) && d >= 2) && AllNil(more) && d >= 1
    ensures AllNil(r) && Behind(Encode(e) + Elements(more), d) == Elements(r)
  {
    if e.Value? {
      BehindElement(e, Elements(more), d - 2);
      r := NilBehind(more, d - 2);
    } else {
      BehindElement(e, Elements(more), d - 1);
      r := NilBehind(more, d - 1);
    }
  }

  lemma ItemsCons(e: Element, rest: string, d: nat, n: nat)
    requires e.Value? ==> NoBreak(e.s)
    ensures var data := Behind(Encode(e) + rest, d);
            var items := Items(data, n + 1);
            && items[0] == Stored(Parse(data))
            && items[1..] == Items(Behind(rest, if e.Value? then d else d + 1), n)
  {
    var all := Encode(e) + rest;
    var data := Behind(all, d);
    BehindNext(all, d);
    BehindNext(all, d + 1);
    HeadTail(Stored(Parse(data)), Items(NextLine(NextLine(data)), n));
    if e.Value? {
      BehindElement(e, rest, d);
    } else {
      BehindElement(e, rest, d + 1);
    }
  }

  /** From behind a line on, elements without breaks come back only if they are all nil. */
  lemma {:induction false} OnlyNilBehind(es: seq<Element>, d: nat)
    requires AllUnbroken(es) && d >= 1 && Items(Behind(Elements(es), d), |es|) == DecodedAll(es)
    ensures AllNil(es)
    decreases |es|
  {
    if es != [] {
      var (e, more) := (es[0], es[1..]);
      ItemsCons(e, Elements(more), d, |more|);
      HeadTail(Decoded(e), DecodedAll(more));
      OnlyNilBehind(more, if e.Value? then d else d + 1);
      if !e.Nil? {
        FirstBehind(e, more, d);
      }
    }
  }

  /** No line of `s` starts with a plus sign. */
  predicate PlusFree(s: string) {
    && (s != "" ==> s[0] != '+')
    && forall i :: 0 <= i < |s| - 2 && s[i] == '\r' && s[i + 1] == '\n' ==> s[i + 2] != '+'
  }

  predicate AllPlusFree(es: seq<Element>) {
    es == [] || ((es[0].Value? ==> PlusFree(es[0].s)) && AllPlusFree(es[1..]))
  }

  predicate Ended(s: string) {
    s == "" || (|s| >= 2 && s[|s| - 2..] == CRLF)
  }

  lemma {:induction false} StrposFinds(s: string)
    requires Ended(s) && s != ""
    ensures Strpos(s) + 2 <= |s| && s[Strpos(s)] == '\r' && s[Strpos(s) + 1] == '\n'
  {
    assert s[|s| - 2..][0] == s[|s| - 2] && s[|s| - 2..][1] == s[|s| - 1];
    if s[..2] == CRLF {
      assert s[0] == s[..2][0] && s[1] == s[..2][1];
    } else if |s| > 2 {
      assert s[1..][|s[1..]| - 2..] == s[|s| - 2..];
      StrposFinds(s[1..]);
      assert Strpos(s[1..]) == 0 ==> s[1..3] == CRLF;
    } else {
      assert s == CRLF;
    }
  }

  lemma PlusFreeNext(s: string)
    requires Ended(s) && PlusFree(s)
    ensures Ended(NextLine(s)) && PlusFree(NextLine(s))
  {
    if s != "" {
      StrposFinds(s);
      var (k, r) := (Strpos(s) + 2, NextLine(s));
      if k < |s| {
        assert r[0] == s[k];
        assert forall i :: 0 <= i < |r| ==> r[i] == s[k + i];
        assert |r| >= 2;
        assert r[|r| - 2..] == s[|s| - 2..];
      }
    }
  }

  /** Where no line starts with a plus sign, every string that is read is free of CR and LF. */
  lemma {:induction false} ItemsUnbroken(s: string, n: nat, k: nat)
    requires Ended(s) && PlusFree(s) && k < n && Items(s, n)[k].Str?
    ensures NoBreak(Items(s, n)[k].s)
    decreases n
  {
    ItemsStep(s, n);
    HeadTail(Stored(Parse(s)), Items(NextLine(NextLine(s)), n - 1));
    if k == 0 {
      ReadUnbroken(s);
    } else {
      PlusFreeNext(s);
      PlusFreeNext(NextLine(s));
      ItemsUnbroken(NextLine(NextLine(s)), n - 1, k - 1);
    }
  }

  lemma ReadUnbroken(s: string)
    requires (s == "" || s[0] != '+') && Parse(s).Str?
    ensures NoBreak(Parse(s).s)
  {
    assert s[0] == '$';
    var t := Strtok(Strtok(s).1).0.value;
    assert Parse(s) == Str(t);
    NoBreakOf(t);
  }

  lemma PlusFreeLines(a: string, b: string)
    requires PlusFree(a) && PlusFree(b) && Ended(b)
    ensures PlusFree(a + (CRLF + b)) && Ended(a + (CRLF + b))
  {
    var s := a + (CRLF + b);
    if b == "" {
      assert s[|s| - 2..] == CRLF;
    } else {
      assert s[|s| - 2..] == b[|b| - 2..];
    }
    forall i | 0 <= i < |s| - 2 && s[i] == '\r' && s[i + 1] == '\n' ensures s[i + 2] != '+' {
      if i + 2 < |a| {
        assert s[i + 2] == a[i + 2];
      } else if i >= |a| + 2 {
        assert s[i + 2] == b[i - |a|];
      }
    }
  }

  lemma NoBreakPlusFree(s: string)
    requires NoBreak(s) && s != "" && s[0] != '+'
    ensures PlusFree(s)
  {
    forall i | 0 <= i < |s| ensures !IsBreak(s[i]) {
      NoBreakAt(s, i);
    }
  }

  lemma {:induction false} PlusFreeElements(es: seq<Element>)
    requires AllPlusFree(es)
    ensures PlusFree(Elements(es)) && Ended(Elements(es))
  {
    if es != [] {
      var (e, rest) := (es[0], Elements(es[1..]));
      PlusFreeElements(es[1..]);
      if e.Value? {
        var head := "$" + Decimal(|e.s|);
        Head('$', |e.s|, e.s + (CRLF + rest));
        NoBreakPlusFree(head);
        PlusFreeLines(e.s, rest);
        PlusFreeLines(head, e.s + (CRLF + rest));
        Assoc(head, CRLF + (e.s + CRLF), rest);
        Assoc(CRLF, e.s + CRLF, rest);
        Assoc(e.s, CRLF, rest);
      } else {
        LineNoBreak(e);
        NoBreakPlusFree(Line(e));
        PlusFreeLines(Line(e), rest);
        Assoc(Line(e), CRLF, rest);
      }
    }
  }

  lemma {:induction false} UnbrokenOf(es: seq<Element>)
    requires forall k :: 0 <= k < |es| && es[k].Value? ==> NoBreak(es[k].s)
    ensures AllUnbroken(es)
  {
    if es != [] {
      UnbrokenOf(es[1..]);
    }
  }

  lemma {:induction false} DecodedAt(es: seq<Element>, k: nat)
    requires k < |es|
    ensures DecodedAll(es)[k] == Decoded(es[k])
  {
    if k > 0 {
      DecodedAt(es[1..], k - 1);
    }
  }

  /** Elements no part of which can be mistaken for a status with lines behind it: no bulk has a CR or LF,
      or no line of a bulk starts with a plus sign. */
  predicate Tame(es: seq<Element>) {
    AllUnbroken(es) || AllPlusFree(es)
  }

  /** The elements behind the first that has one line are tame. */
  predicate TameBehind(es: seq<Element>) {
    es == [] || (if es[0].Value? then TameBehind(es[1..]) else Tame(es[1..]))
  }

  /** The elements behind one of one line come back exactly if they are all nil. */
  lemma {:induction false} BehindOneLine(es: seq<Element>)
    ensures AllNil(es) ==> Items(NextLine(Elements(es)), |es|) == DecodedAll(es)
    ensures Tame(es) && Items(NextLine(Elements(es)), |es|) == DecodedAll(es) ==> AllNil(es)
  {
    var data := NextLine(Elements(es));
    assert Behind(Elements(es), 1) == data;
    if AllNil(es) {
      var r := NilBehind(es, 1);
      NilItems(r, |es|);
      NilDecoded(es);
    } else if Tame(es) && Items(data, |es|) == DecodedAll(es) {
      if AllPlusFree(es) {
        PlusFreeElements(es);
        PlusFreeNext(Elements(es));
        forall k | 0 <= k < |es| && es[k].Value? ensures NoBreak(es[k].s) {
          DecodedAt(es, k);
          ItemsUnbroken(data, |es|, k);
        }
        UnbrokenOf(es);
      }
      OnlyNilBehind(es, 1);
    }
  }

  lemma {:induction false} ItemsReturn(es: seq<Element>)
    ensures Returns(es) ==> Items(Elements(es), |es|) == DecodedAll(es)
    ensures TameBehind(es) && Items(Elements(es), |es|) == DecodedAll(es) ==> Returns(es)
    decreases |es|
  {
    if es != [] {
      var (e, more, rest) := (es[0], es[1..], Elements(es[1..]));
      var data := Encode(e) + rest;
      ItemsStep(data, |es|);
      HeadTail(Stored(Parse(data)), Items(NextLine(NextLine(data)), |more|));
      HeadTail(Decoded(e), DecodedAll(more));
      if !e.Value? {
        OneLine(e, rest);
        BehindOneLine(more);
      } else if Clean(e.s) {
        ParseBulk(e.s, rest);
        ItemsReturn(more);
      } else {
        Misread(e.s, rest);
      }
    }
  }

  /** An array of bulks, integers and nil comes back if its bulks are not empty, not "0" and free of CR and
      LF, its integers are not 0, and everything behind the first element of one line is nil; and only
      then, where what is behind that element is tame. */
  lemma {:induction false} ArrayRoundTrip(es: seq<Element>)
    ensures Returns(es) ==> Parse(Array(es)) == Arr(DecodedAll(es))
    ensures TameBehind(es) && Parse(Array(es)) == Arr(DecodedAll(es)) ==> Returns(es)
  {
    Head('*', |es|, Elements(es));
    assert Parse(Array(es)) == Arr(Items(Elements(es), |es|));
    ItemsReturn(es);
  }

  const WILD := "0" + (CRLF + ("$-1" + (CRLF + ("$2" + (CRLF + ("+0" + (CRLF + "$-1")))))))

  /** An array that is not tame can come back all the same: the last two elements are in the text of the
      bulk before them, and from its fourth line on it is read as a status that ends with them. */
  lemma WildArrayReturns()
    ensures var es := [Nil, Nil] + ([Nil, Nil] + [Value(WILD), Value("+0"), Nil]);
            !Returns(es) && Items(Elements(es), 7) == DecodedAll(es)
  {
    var last := [Value(WILD), Value("+0"), Nil];
    var d := DecodedAll(last);
    WildTail();
    NilFour(last, 5, [Null] + ([Null] + d));
    FourNulls(d);
    NotReturned(last);
  }

  lemma FourNulls(d: seq<Reply>)
    ensures [Null, Null] + ([Null, Null] + d) == [Null] + ([Null] + ([Null] + ([Null] + d)))
  {
  }

  lemma NotReturned(last: seq<Element>)
    requires last != [] && last[0].Value?
    ensures !Returns([Nil, Nil] + ([Nil, Nil] + last))
  {
    var es := [Nil] + ([Nil, Nil] + last);
    assert ([Nil, Nil] + ([Nil, Nil] + last))[1..] == es;
    if AllNil(es) {
      AllNilAt(es, 3);
    }
  }

  lemma NilFour(es: seq<Element>, n: nat, items: seq<Reply>)
    requires Items(Elements(es), n) == items
    ensures Items(Elements([Nil, Nil] + ([Nil, Nil] + es)), n + 2) == [Null] + ([Null] + items)
    ensures DecodedAll([Nil, Nil] + ([Nil, Nil] + es)) == [Null, Null] + ([Null, Null] + DecodedAll(es))
  {
    NilPair(es, n);
    NilPair([Nil, Nil] + es, n + 1);
  }

  lemma {:induction false} AllNilAt(es: seq<Element>, k: nat)
    requires AllNil(es) && k < |es|
    ensures es[k].Nil?
  {
    if k > 0 {
      AllNilAt(es[1..], k - 1);
    }
  }

  /** Of two nil elements the loop takes one, and goes on behind both. */
  lemma NilPair(es: seq<Element>, n: nat)
    ensures Items(Elements([Nil, Nil] + es), n + 1) == [Null] + Items(Elements(es), n)
    ensures DecodedAll([Nil, Nil] + es) == [Null, Null] + DecodedAll(es)
  {
    var all := [Nil, Nil] + es;
    assert all[1..] == [Nil] + es && all[1..][1..] == es;
    var (rest, t) := (Elements([Nil] + es), Elements(es));
    assert rest == Encode(Nil) + t && Elements(all) == Encode(Nil) + rest;
    NilStep(rest, t, n);
    assert DecodedAll([Nil] + es) == [Null] + DecodedAll(es);
  }

  lemma NilStep(rest: string, t: string, n: nat)
    requires rest == Encode(Nil) + t
    ensures Items(Encode(Nil) + rest, n + 1) == [Null] + Items(t, n)
  {
    OneLine(Nil, rest);
    assert NextLine(rest) == t by { OneLine(Nil, t); }
    Item(Encode(Nil) + rest, n, Null, t);
  }

  lemma WildDecoded()
    ensures DecodedAll([Value(WILD), Value("+0"), Nil]) == [Str(WILD)] + [Str("+0"), Null]
  {
    var es := [Value(WILD), Value("+0"), Nil];
    assert es[1..] == [Value("+0"), Nil] && es[1..][1..] == [Nil] && [Nil][1..] == [];
    assert DecodedAll([Nil]) == [Null];
  }

  lemma WildTail()
    ensures var es := [Value(WILD), Value("+0"), Nil];
            Items(Elements(es), 5) == [Null] + ([Null] + DecodedAll(es))
  {
    var es := [Value(WILD), Value("+0"), Nil];
    var t6 := "$-1" + CRLF;
    assert Elements(es) == Bulk(WILD) + (Bulk("+0") + t6) by {
      assert es[1..] == [Value("+0"), Nil] && es[1..][1..] == [Nil] && [Nil][1..] == [];
      assert Elements([Nil]) == t6;
    }
    WildSteps(Bulk("+0") + t6, t6);
    WildDecoded();
  }

  lemma WildSteps(t5: string, t6: string)
    requires t6 == "$-1" + CRLF && t5 == Bulk("+0") + t6
    ensures Items(Bulk(WILD) + t5, 5) == [Null] + ([Null] + ([Str(WILD)] + [Str("+0"), Null]))
  {
    var w3 := "+0" + (CRLF + ("$-1" + (CRLF + t5)));
    var w1 := "$-1" + (CRLF + ("$2" + (CRLF + w3)));
    var e := [Str("+0"), Null];
    WildEnd(t5, t6);
    ThirdItem(t5, t6, w3, e);
    SecondItem(w1, w3, [Str(WILD)] + e);
    FirstItem(t5, w1, w3, [Null] + ([Str(WILD)] + e));
  }

  lemma FirstItem(t5: string, w1: string, w3: string, rest: seq<Reply>)
    requires w3 == "+0" + (CRLF + ("$-1" + (CRLF + t5))) && w1 == "$-1" + (CRLF + ("$2" + (CRLF + w3)))
    requires Items(w1, 4) == rest
    ensures Items(Bulk(WILD) + t5, 5) == [Null] + rest
  {
    WildFirst(t5, w1, w3);
    Item(Bulk(WILD) + t5, 4, Null, w1);
  }

  lemma SecondItem(w1: string, w3: string, rest: seq<Reply>)
    requires w1 == "$-1" + (CRLF + ("$2" + (CRLF + w3))) && Items(w3, 3) == rest
    ensures Items(w1, 4) == [Null] + rest
  {
    WildSecond(w1, w3);
    Item(w1, 3, Null, w3);
  }

  lemma ThirdItem(t5: string, t6: string, w3: string, rest: seq<Reply>)
    requires t6 == "$-1" + CRLF && t5 == Bulk("+0") + t6 && w3 == "+0" + (CRLF + ("$-1" + (CRLF + t5)))
    requires Items(t5, 2) == rest
    ensures Items(w3, 3) == [Str(WILD)] + rest
  {
    WildThird(t5, t6, w3);
    Item(w3, 2, Str(WILD), t5);
  }

  lemma WildEnd(t5: string, t6: string)
    requires t6 == "$-1" + CRLF && t5 == Bulk("+0") + t6
    ensures Items(t5, 2) == [Str("+0"), Null]
  {
    NoBreakOf("+0");
    ParseBulk("+0", t6);
    OneLine(Nil, "");
    assert Encode(Nil) + "" == t6;
    Item(t5, 1, Str("+0"), t6);
    Item(t6, 0, Null, NextLine(NextLine(t6)));
  }

  lemma Shift(a: string, b: string, c: string)
    ensures (a + (CRLF + b)) + c == a + (CRLF + (b + c))
  {
    Assoc(a, CRLF + b, c);
    Assoc(CRLF, b, c);
  }

  /** The text of the bulk with something behind it */
  lemma WildText(t: string)
    ensures WILD + t == "0" + (CRLF + ("$-1" + (CRLF + ("$2" + (CRLF + ("+0" + (CRLF + ("$-1" + t))))))))
  {
    var w4 := "+0" + (CRLF + "$-1");
    var w3 := "$2" + (CRLF + w4);
    var w2 := "$-1" + (CRLF + w3);
    Shift("0", w2, t);
    Shift("$-1", w3, t);
    Shift("$2", w4, t);
    Shift("+0", "$-1", t);
  }

  lemma WildFirst(t5: string, w1: string, w3: string)
    requires w3 == "+0" + (CRLF + ("$-1" + (CRLF + t5))) && w1 == "$-1" + (CRLF + ("$2" + (CRLF + w3)))
    ensures Parse(Bulk(WILD) + t5) == Str("0") && NextLine(NextLine(Bulk(WILD) + t5)) == w1
  {
    WildText(CRLF + t5);
    LinesOfBulk(WILD, t5);
    ParseBulk(WILD, t5);
    NoBreakOf("0");
    StrposOf("0", w1);
    FirstToken("0", w1);
  }

  lemma WildSecond(w1: string, w3: string)
    requires w1 == "$-1" + (CRLF + ("$2" + (CRLF + w3)))
    ensures Parse(w1) == Null && NextLine(NextLine(w1)) == w3
  {
    NoBreakOf("$-1");
    NoBreakOf("$2");
    StrposOf("$-1", "$2" + (CRLF + w3));
    StrposOf("$2", w3);
    ParseNil(CRLF + ("$2" + (CRLF + w3)));
  }

  lemma WildThird(t5: string, t6: string, w3: string)
    requires t6 == "$-1" + CRLF && t5 == Bulk("+0") + t6 && w3 == "+0" + (CRLF + ("$-1" + (CRLF + t5)))
    ensures Parse(w3) == Str(WILD) && NextLine(NextLine(w3)) == t5
  {
    NoBreakOf("+0");
    NoBreakOf("$-1");
    StrposOf("+0", "$-1" + (CRLF + t5));
    StrposOf("$-1", t5);
    WildStatus(t5, t6, w3);
    WildText(CRLF);
    WildText("");
    assert WILD + "" == WILD;
    assert WILD[0] == '0' && WILD[|WILD| - 1] == '1';
    StatusReply(WILD);
  }

  lemma WildStatus(t5: string, t6: string, w3: string)
    requires t6 == "$-1" + CRLF && t5 == Bulk("+0") + t6 && w3 == "+0" + (CRLF + ("$-1" + (CRLF + t5)))
    ensures w3 == "+" + (WILD + CRLF)
  {
    WildText(CRLF);
    assert Decimal(2) == "2";
    assert "$" + Decimal(2) == "$2" && "+" + "0" == "+0";
    Assoc("$2", CRLF + ("+0" + CRLF), t6);
    Assoc(CRLF, "+0" + CRLF, t6);
    Assoc("+0", CRLF, t6);
    Assoc("+", "0", CRLF + ("$-1" + (CRLF + t5)));
  }

  /** An element that is nil has one line, not two, and the loop loses its place: of what comes behind it in
      the array the first line is skipped. */
  lemma {:induction false} NilLosesPlace(rest: string, n: nat)
    ensures Items("$-1\r\n" + rest, n + 1) == [Null] + Items(NextLine(rest), n)
  {
    OneLine(Nil, rest);
    assert Encode(Nil) == "$-1\r\n";
    ItemsStep("$-1\r\n" + rest, n + 1);
  }
}
