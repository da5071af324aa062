/**
 ngx_query_args and ngx_post_args of php_ngx_core.c: one cursor cuts "a=1&b=2" into an array.
 */
module QueryArgs {
  import opened Common
  import opened Text

  /** The calls of add_assoc_stringl, in order */
  type Adds = seq<(string, string)>

  /** What the array has after them */
  function ToArray(adds: Adds): map<string, string> {
    if adds == [] then map[] else ToArray(adds[..|adds| - 1])[adds[|adds| - 1].0 := adds[|adds| - 1].1]
  }

  /** `buf` and `p` as offsets; the key is NULL until there was a '='. */
  datatype Cursor = Cursor(buf: nat, p: nat, key: Option<string>, parsing: bool, adds: Adds)

  predicate Valid(s: string, c: Cursor) {
    c.p <= c.buf <= |s| && (c.parsing ==> c.key.Some?)
  }

  const START := Cursor(0, 0, None, false, [])

  /** The last statement of the loop: whatever is at the cursor is passed unless it is a '&', also the
      first character behind a '=' or a '&'. */
  function Bump(s: string, c: Cursor): Cursor {
    if c.buf < |s| && s[c.buf] != '&' then c.(buf := c.buf + 1) else c
  }

  /** One turn of the loop; None if it reads a NULL key. */
  function Step(s: string, c: Cursor): (r: Option<Cursor>)
    requires Valid(s, c) && c.buf < |s|
    ensures r.Some? ==> Valid(s, r.value) && c.buf < r.value.buf
  {
    if s[c.buf] == '=' then
      Some(Bump(s, Cursor(c.buf + 1, c.buf + 1, Some(CString(s[c.p..c.buf])), true, c.adds)))
    else if s[c.buf] == '&' then
      match c.key
      case None => None
      case Some(k) => Some(Bump(s, Cursor(c.buf + 1, c.buf + 1, c.key, false, c.adds + [(k, s[c.p..c.buf])])))
    else Some(Bump(s, c))
  }

  function Scan(s: string, c: Cursor): Option<Adds>
    requires Valid(s, c)
    decreases |s| - c.buf
  {
    if c.buf == |s| then
      Some(if c.parsing then c.adds + [(c.key.value, s[c.p..c.buf])] else c.adds)
    else
      match Step(s, c)
      case None => None
      case Some(c1) => Scan(s, c1)
  }

  function ArrayOf(adds: Option<Adds>): Option<map<string, string>> {
    match adds case None => None case Some(a) => Some(ToArray(a))
  }

  lemma ToArrayAdd(adds: Adds, key: string, value: string)
    ensures ToArray(adds + [(key, value)]) == ToArray(adds)[key := value]
  {
    var all := adds + [(key, value)];
    assert all[..|all| - 1] == adds;
  }

  // ---- The functions ----

  /** The loop of ngx_query_args and ngx_post_args. On every input each turn moves the cursor forward,
      and none moves it past the end. */
  method Split(s: string) returns (r: Option<map<string, string>>)
    ensures r == ArrayOf(Scan(s, START))
  {
    var buf, p := 0, 0;
    var key: Option<string> := None;
    var parsing := false;
    var result: map<string, string> := map[];
    ghost var c := START;
    while buf != |s|
      invariant c == Cursor(buf, p, key, parsing, c.adds) && Valid(s, c) && result == ToArray(c.adds)
      invariant Scan(s, c) == Scan(s, START)
      decreases |s| - buf
    {
      ghost var d := c;
      if s[buf] == '=' {
        key := Some(CString(s[p..buf]));
        buf := buf + 1;
        p := buf;
        parsing := true;
        d := Cursor(buf, p, key, true, c.adds);
        assert Step(s, c) == Some(Bump(s, d));
      } else if s[buf] == '&' {
        if key.None? {
          return None;
        }
        var value := s[p..buf];
        ToArrayAdd(c.adds, key.value, value);
        result := result[key.value := value];
        buf := buf + 1;
        p := buf;
        parsing := false;
        d := Cursor(buf, p, key, false, c.adds + [(key.value, value)]);
        assert Step(s, c) == Some(Bump(s, d));
      }
      assert Step(s, c) == Some(Bump(s, d));
      if buf != |s| && s[buf] != '&' {
        buf := buf + 1;
      }
      c := Step(s, c).value;
    }
    if parsing {
      ToArrayAdd(c.adds, key.value, s[p..buf]);
      result := result[key.value := s[p..buf]];
    }
    r := Some(result);
  }

  method QueryArgs(args: string) returns (r: Option<map<string, string>>)
    ensures r == ArrayOf(Scan(args, START))
  {
    if |args| == 0 {
      return Some(map[]);
    }
    r := Split(args);
  }

  /** The buffers of the body are copied into one before it is split; a body that was discarded, or is
      missing or in a file gives an empty array. */
  method PostArgs(inMemory: bool, chain: seq<string>) returns (r: Option<map<string, string>>)
    ensures r == if inMemory then ArrayOf(Scan(Concat(chain), START)) else Some(map[])
  {
    if !inMemory {
      return Some(map[]);
    }
    var buf := JoinChain(chain);
    if |buf| == 0 {
      return Some(map[]);
    }
    r := Split(buf);
  }

  // ---- When it faults ----

  /** The offset of the first '=' or '&' from `i` on */
  function FirstSep(s: string, i: nat): (r: nat)
    requires i <= |s|
    ensures i <= r <= |s|
    ensures r < |s| ==> s[r] == '=' || s[r] == '&'
    ensures forall j :: i <= j < r ==> s[j] != '=' && s[j] != '&'
    decreases |s| - i
  {
    if i == |s| || s[i] == '=' || s[i] == '&' then i else FirstSep(s, i + 1)
  }

  lemma {:induction false} KeyStays(s: string, c: Cursor)
    requires Valid(s, c) && c.key.Some?
    ensures Scan(s, c).Some?
    decreases |s| - c.buf
  {
    if c.buf < |s| {
      KeyStays(s, Step(s, c).value);
    }
  }

  lemma {:induction false} SkipPlain(s: string, c: Cursor, end: nat)
    requires Valid(s, c) && c.buf <= end <= |s|
    requires forall j :: c.buf <= j < end ==> s[j] != '=' && s[j] != '&'
    ensures Scan(s, c) == Scan(s, c.(buf := end))
    decreases end - c.buf
  {
    if c.buf < end {
      SkipPlain(s, c.(buf := c.buf + 1), end);
    }
  }

  /** A NULL key is read exactly when there is a '&' and no '=' before the first one. */
  lemma FaultsWhen(s: string)
    ensures Scan(s, START).None? <==> FirstSep(s, 0) < |s| && s[FirstSep(s, 0)] == '&'
  {
    var i := FirstSep(s, 0);
    SkipPlain(s, START, i);
    var c := START.(buf := i);
    if i < |s| && s[i] == '=' {
      KeyStays(s, Step(s, c).value);
    }
  }

  // ---- Pairs ----

  /** A key that is found as one, and a value that is not cut */
  predicate Proper(pair: (string, string)) {
    pair.0 != "" && Free(pair.0, '=') && Free(pair.0, '&') && Free(pair.1, '&')
  }

  predicate AllProper(pairs: Adds) {
    pairs == [] || (Proper(pairs[0]) && AllProper(pairs[1..]))
  }

  function Joined(pairs: Adds): string {
    if pairs == [] then ""
    else if |pairs| == 1 then pairs[0].0 + "=" + pairs[0].1
    else pairs[0].0 + "=" + pairs[0].1 + ("&" + Joined(pairs[1..]))
  }

  predicate AllClean(pairs: Adds) {
    pairs == [] || (Clean(pairs[0].1) && AllClean(pairs[1..]))
  }

  function Expected(pairs: Adds): (r: Adds)
    ensures |r| == |pairs|
  {
    if pairs == [] then [] else [(CString(pairs[0].0), pairs[0].1)] + Expected(pairs[1..])
  }

  // ---- Any query ----

  predicate NoAmpersand(items: seq<string>) {
    items == [] || (Free(items[0], '&') && NoAmpersand(items[1..]))
  }

  /** The items behind the first one, each with its '&' */
  function Tail(items: seq<string>): string {
    if items == [] then "" else "&" + (items[0] + Tail(items[1..]))
  }

  /** The key, whether it is one of this item, and the value, at the end of an item */
  type Found = (Option<string>, bool, string)

  /** An item is cut at each '=' behind the first character of what is left of it: the part before the last cut
      is the key. Without a '=' the key before it stays. */
  function Cuts(key: Option<string>, parsing: bool, text: string): (r: Found)
    ensures (parsing ==> r.1) && (key.Some? ==> r.0.Some?)
    ensures if Clean(text) then r == (key, parsing, text) else r.1 && r.0.Some? && |r.2| < |text|
    decreases |text|
  {
    if Clean(text) then (key, parsing, text)
    else Cuts(Some(CString(text[..LaterEq(text)])), true, text[LaterEq(text) + 1..])
  }

  /** Of the first item of all the first character is seen as well. */
  function FirstCuts(text: string): Found {
    if Free(text, '=') then (None, false, text)
    else Cuts(Some(CString(text[..EqAt(text, 0)])), true, text[EqAt(text, 0) + 1..])
  }

  /** Each item that another follows is added under the key that it ends with, its own or one before it; the last
      item only under its own. None if there is no key. */
  function Entries(last: Found, items: seq<string>): Option<Adds>
    decreases |items|
  {
    if items == [] then (if last.1 && last.0.Some? then Some([(last.0.value, last.2)]) else Some([]))
    else if last.0.None? then None
    else
      match Entries(Cuts(last.0, false, items[0]), items[1..])
      case None => None
      case Some(more) => Some([(last.0.value, last.2)] + more)
  }

  predicate ItemAt(s: string, c: Cursor, end: nat, text: string) {
    && Valid(s, c) && c.p <= end <= |s| && s[c.p..end] == text && Free(text, '&')
    && (end < |s| ==> s[end] == '&') && c.buf == Look(c.p, end)
  }

  /** The first cut of an item leads to what is left of it. */
  lemma CutItem(s: string, c: Cursor, end: nat, text: string) returns (d: Cursor)
    requires ItemAt(s, c, end, text) && !Clean(text)
    ensures ItemAt(s, d, end, text[LaterEq(text) + 1..]) && Scan(s, c) == Scan(s, d)
    ensures d.key == Some(CString(text[..LaterEq(text)])) && d.parsing && d.adds == c.adds
  {
    var (i, eq) := (LaterEq(text), c.p + LaterEq(text));
    assert forall j :: c.p <= j < end ==> s[j] == text[j - c.p];
    SkipPlain(s, c, eq);
    assert s[c.p..eq] == text[..i] && s[eq + 1..end] == text[i + 1..];
    d := Step(s, c.(buf := eq)).value;
  }

  lemma PassItem(s: string, c: Cursor, end: nat, text: string)
    requires ItemAt(s, c, end, text) && Clean(text)
    ensures Scan(s, c) == Scan(s, c.(buf := end))
  {
    if c.p < end {
      assert text[1..] == s[c.p + 1..end];
      FreeSlice(s, c.p + 1, end, '=');
      FreeSlice(s, c.p, end, '&');
      SkipPlain(s, c, end);
    }
  }

  /** Through an item the cursor comes to its end. */
  lemma {:induction false} ScanItem(s: string, c: Cursor, end: nat, text: string) returns (d: Cursor)
    requires ItemAt(s, c, end, text)
    ensures Valid(s, d) && d.buf == end && d.adds == c.adds && Scan(s, c) == Scan(s, d)
    ensures (d.key, d.parsing, s[d.p..end]) == Cuts(c.key, c.parsing, text)
    decreases |text|
  {
    if Clean(text) {
      PassItem(s, c, end, text);
      d := c.(buf := end);
    } else {
      var c1 := CutItem(s, c, end, text);
      d := ScanItem(s, c1, end, text[LaterEq(text) + 1..]);
    }
  }

  /** From the end of an item on it adds the entries of that item and those behind it. */
  lemma {:induction false} ScanItems(s: string, c: Cursor, items: seq<string>)
    requires Valid(s, c) && s[c.buf..] == Tail(items) && NoAmpersand(items)
    ensures Scan(s, c) == match Entries((c.key, c.parsing, s[c.p..c.buf]), items)
                          case None => None
                          case Some(adds) => Some(c.adds + adds)
    decreases |items|
  {
    if items == [] {
      assert c.adds + [] == c.adds;
    } else {
      var (next, end) := (c.buf + 1, c.buf + 1 + |items[0]|);
      Cut(s, c.buf, "&", items[0] + Tail(items[1..]));
      Cut(s, next, items[0], Tail(items[1..]));
      assert s[c.buf] == s[c.buf..next][0];
      assert end < |s| ==> s[end] == s[end..][0];
      if c.key.Some? {
        assert next < end ==> s[next] == items[0][0];
        var c1 := Step(s, c).value;
        var d := ScanItem(s, c1, end, items[0]);
        ScanItems(s, d, items[1..]);
        var more := Entries(Cuts(c.key, false, items[0]), items[1..]);
        if more.Some? {
          Assoc(c.adds, [(c.key.value, s[c.p..c.buf])], more.value);
        }
      }
    }
  }

  /** What is added for a query, whatever its items are; every string is the items between its '&'. */
  lemma ArgsScanned(first: string, items: seq<string>)
    requires Free(first, '&') && NoAmpersand(items)
    ensures Scan(first + Tail(items), START) == Entries(FirstCuts(first), items)
  {
    var (s, end) := (first + Tail(items), |first|);
    assert s[end..] == Tail(items) && s[..end] == first;
    assert end < |s| ==> s[end] == s[end..][0];
    assert forall j :: 0 <= j < end ==> s[j] == first[j];
    var d := START.(buf := end);
    if Free(first, '=') {
      SkipPlain(s, START, end);
      assert s[0..end] == first;
    } else {
      var i := EqAt(first, 0);
      SkipPlain(s, START, i);
      var c := Step(s, START.(buf := i)).value;
      assert s[0..i] == first[..i] && s[i + 1..end] == first[i + 1..];
      d := ScanItem(s, c, end, first[i + 1..]);
    }
    ScanItems(s, d, items);
    var adds := Entries(FirstCuts(first), items);
    if adds.Some? {
      EmptyLeft(adds.value);
    }
  }

  lemma {:induction false} CutItems(s: string) returns (first: string, items: seq<string>)
    ensures Free(first, '&') && NoAmpersand(items) && s == first + Tail(items)
    decreases |s|
  {
    if s == "" {
      first, items := "", [];
    } else {
      first, items := CutItems(s[1..]);
      if s[0] == '&' {
        HeadTail(first, items);
        first, items := "", [first] + items;
      } else {
        first := [s[0]] + first;
      }
    }
  }

  // ---- Queries of pairs ----

  function PairItems(pairs: Adds): seq<string> {
    if pairs == [] then [] else [PairText(pairs[0])] + PairItems(pairs[1..])
  }

  /** The first cut of a pair is that between its key and its value. */
  lemma PairCuts(pair: (string, string), key: Option<string>, parsing: bool)
    requires Proper(pair)
    ensures Free(PairText(pair), '&')
    ensures Cuts(key, parsing, PairText(pair)) == FirstCuts(PairText(pair)) == Cuts(Some(CString(pair.0)), true, pair.1)
  {
    var (text, n) := (PairText(pair), |pair.0|);
    EqOfPair(pair, 0);
    EqOfPair(pair, 1);
    assert text[1..][n - 1] == text[n] == '=';
    assert !Clean(text) && LaterEq(text) == n;
    assert text[..n] == pair.0 && text[n + 1..] == pair.1;
  }

  /** One entry is added for each pair; it is that of the pair exactly if the value is clean. */
  lemma {:induction false} PairEntries(last: Found, pairs: Adds)
    requires last.0.Some? && last.1 && AllProper(pairs)
    ensures var r := Entries(last, PairItems(pairs));
            && r.Some? && |r.value| == 1 + |pairs| && r.value[0] == (last.0.value, last.2)
            && (r.value[1..] == Expected(pairs) <==> AllClean(pairs))
    ensures NoAmpersand(PairItems(pairs))
    decreases |pairs|
  {
    if pairs != [] {
      var (text, rest) := (PairText(pairs[0]), PairItems(pairs[1..]));
      HeadTail(text, rest);
      PairCuts(pairs[0], last.0, false);
      var next := Cuts(last.0, false, text);
      PairEntries(next, pairs[1..]);
      var more := Entries(next, rest).value;
      HeadTail((last.0.value, last.2), more);
      SameAdds(pairs, more);
    }
  }

  lemma SameAdds(pairs: Adds, adds: Adds)
    requires pairs != [] && |adds| == |pairs|
    requires if Clean(pairs[0].1) then adds[0] == (CString(pairs[0].0), pairs[0].1) else |adds[0].1| < |pairs[0].1|
    requires adds[1..] == Expected(pairs[1..]) <==> AllClean(pairs[1..])
    ensures adds == Expected(pairs) <==> AllClean(pairs)
  {
    HeadTail((CString(pairs[0].0), pairs[0].1), Expected(pairs[1..]));
    assert adds == [adds[0]] + adds[1..];
  }

  lemma {:induction false} JoinedItems(pairs: Adds)
    requires pairs != []
    ensures Joined(pairs) == PairText(pairs[0]) + Tail(PairItems(pairs[1..]))
  {
    Assoc(pairs[0].0, "=", pairs[0].1);
    if |pairs| > 1 {
      JoinedItems(pairs[1..]);
      HeadTail(PairText(pairs[1]), PairItems(pairs[2..]));
      assert pairs[1..][1..] == pairs[2..];
    }
  }

  lemma PairsScanned(pairs: Adds)
    requires pairs != [] && AllProper(pairs)
    ensures Scan(Joined(pairs), START) == Entries(FirstCuts(PairText(pairs[0])), PairItems(pairs[1..]))
  {
    PairCuts(pairs[0], None, false);
    PairEntries(FirstCuts(PairText(pairs[0])), pairs[1..]);
    JoinedItems(pairs);
    ArgsScanned(PairText(pairs[0]), PairItems(pairs[1..]));
  }

  /** Pairs joined by '&' come back, in order, exactly when no value has a '=' behind its first
      character. */
  lemma PairsRoundTrip(pairs: Adds)
    requires AllProper(pairs)
    ensures Scan(Joined(pairs), START) == Some(Expected(pairs)) <==> AllClean(pairs)
  {
    if pairs != [] {
      var last := FirstCuts(PairText(pairs[0]));
      PairsScanned(pairs);
      PairCuts(pairs[0], None, false);
      PairEntries(last, pairs[1..]);
      SameAdds(pairs, Entries(last, PairItems(pairs[1..])).value);
    }
  }

  /** And then the array is what setting the keys from left to right gives. */
  lemma PairsToArray(pairs: Adds)
    requires AllProper(pairs) && AllClean(pairs)
    ensures ArrayOf(Scan(Joined(pairs), START)) == Some(ToArray(Expected(pairs)))
  {
    PairsRoundTrip(pairs);
  }

  /** An item without a '=' behind its first character is added under the key before it if another item follows,
      and lost if not: of "a=1&flag&c=2" the key a gets 1 and then "flag", of "a=1&flag" only 1. */
  lemma KeySetAgain(pair: (string, string), flag: string, next: (string, string))
    requires Proper(pair) && Clean(pair.1) && Free(flag, '&') && Clean(flag) && Proper(next) && Clean(next.1)
    ensures var (k, text) := (CString(pair.0), PairText(pair));
            && Scan(text + ("&" + flag), START) == Some([(k, pair.1)])
            && Scan(text + ("&" + (flag + ("&" + PairText(next)))), START)
               == Some([(k, pair.1), (k, flag), (CString(next.0), next.1)])
  {
    var (k, text, last) := (Some(CString(pair.0)), PairText(pair), PairText(next));
    PairCuts(pair, None, false);
    PairCuts(next, k, false);
    ArgsScanned(text, [flag]);
    ArgsScanned(text, [flag, last]);
    TwoItems((k, true, pair.1), flag, last);
  }

  lemma TwoItems(found: Found, flag: string, text: string)
    requires found.0.Some? && found.1 && Clean(flag)
    ensures Tail([flag]) == "&" + flag && Tail([flag, text]) == "&" + (flag + ("&" + text))
    ensures Entries(found, [flag]) == Some([(found.0.value, found.2)])
    ensures var end := Cuts(found.0, false, text);
            end.1 ==> Entries(found, [flag, text])
                      == Some([(found.0.value, found.2), (found.0.value, flag), (end.0.value, end.2)])
    ensures NoAmpersand([flag, text]) <==> Free(flag, '&') && Free(text, '&')
  {
    var (k, one, two) := (found.0, [flag], [flag, text]);
    var end := Cuts(k, false, text);
    assert one[0] == two[0] == flag && one[1..] == [] && two[1..] == [text] && [text][0] == text && [text][1..] == [];
    assert Tail([text]) == "&" + text;
    assert Entries((k, false, flag), []) == Some([]);
    assert Entries(found, one) == Some([(k.value, found.2)] + []);
    assert [(k.value, found.2)] + [] == [(k.value, found.2)];
    assert NoAmpersand([text]) <==> Free(text, '&');
    if end.1 {
      var (a, b, c) := ((k.value, found.2), (k.value, flag), (end.0.value, end.2));
      assert Entries(end, []) == Some([c]);
      assert [b] + [c] == [b, c] && [a] + [b, c] == [a, b, c];
      assert Entries((k, false, flag), [text]) == Some([b] + [c]);
      assert Entries(found, two) == Some([a] + [b, c]);
    }
  }
}
