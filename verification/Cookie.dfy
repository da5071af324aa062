/**
 ngx_cookie_get of php_ngx_cookie.c: a cookie is looked up by name in one pass over each header.
 */
module Cookie {
  import opened Common
  import opened Text

  // ---- Comparing names ----

  function Lower(c: char): char {
    if 'A' <= c <= 'Z' then c + 32 as char else c
  }

  /** Only the two cases of a letter are taken for one another. */
  lemma LowerFolds(c: char, d: char)
    ensures Lower(c) == Lower(d) <==>
              c == d || ('A' <= c <= 'Z' && d as int == c as int + 32) || ('A' <= d <= 'Z' && c as int == d as int + 32)
  {
  }

  /** The character at `i` of a string that a NUL ends */
  function CharAt(s: string, i: nat): char {
    if i < |s| then s[i] else '\0'
  }

  /** ngx_strncasecmp(a, b, n) == 0, from character `i` on */
  predicate SameN(a: string, b: string, i: nat, n: nat)
    requires i <= n
    decreases n - i
  {
    i == n
    || (Lower(CharAt(a, i)) == Lower(CharAt(b, i)) && (CharAt(a, i) == '\0' || SameN(a, b, i + 1, n)))
  }

  method StrNCaseCmp(a: string, b: string, n: nat) returns (same: bool)
    ensures same == SameN(a, b, 0, n)
  {
    var i := 0;
    while i < n
      invariant i <= n && SameN(a, b, i, n) == SameN(a, b, 0, n)
    {
      var (c1, c2) := (Lower(CharAt(a, i)), Lower(CharAt(b, i)));
      if c1 != c2 {
        return false;
      }
      if c1 == '\0' {
        return true;
      }
      i := i + 1;
    }
    same := true;
  }

  /** Whether a name is taken for `key`: it is enough that it starts with it. */
  predicate Matches(key: string, name: string) {
    SameN(key, CString(name), 0, |key|)
  }

  /** `b` starts with `a`, ignoring the case of letters. */
  predicate StartsWith(b: string, a: string) {
    |a| <= |b| && forall i :: 0 <= i < |a| ==> Lower(a[i]) == Lower(b[i])
  }

  lemma {:induction false} CStringIs(s: string)
    ensures var c := CString(s);
            |c| <= |s| && c == s[..|c|] && Free(c, '\0') && (|c| < |s| ==> s[|c|] == '\0')
  {
    if s != "" && s[0] != '\0' {
      CStringIs(s[1..]);
    }
  }

  /** The first of two strings is compared up to its end; a NUL in it has to be the end of both. */
  predicate Begins(b: string, a: string) {
    StartsWith(b, CString(a)) && (|CString(a)| < |a| ==> |b| == |CString(a)|)
  }

  lemma {:induction false} SameNBegins(a: string, b: string, i: nat)
    requires i <= |CString(a)| <= |a| && Free(b, '\0') && StartsWith(b, CString(a)[..i])
    ensures SameN(a, b, i, |a|) <==> Begins(b, a)
    decreases |a| - i
  {
    var c := CString(a);
    CStringIs(a);
    if i < |c| {
      assert a[i] == c[i] != '\0';
      assert StartsWith(b, c[..i + 1]) <==> Lower(c[i]) == Lower(CharAt(b, i)) by {
        assert c[..i + 1][i] == c[i];
        assert forall j :: 0 <= j < i ==> c[..i + 1][j] == c[..i][j];
      }
      if Lower(c[i]) == Lower(CharAt(b, i)) {
        SameNBegins(a, b, i + 1);
      }
    } else {
      assert c[..i] == c;
    }
  }

  /** A name matches exactly when it starts with the key, ignoring case. */
  lemma MatchesIsPrefix(key: string, name: string)
    ensures Matches(key, name) <==> Begins(CString(name), key)
    ensures Free(key, '\0') && Free(name, '\0') ==> (Matches(key, name) <==> StartsWith(name, key))
  {
    CStringIs(key);
    CStringIs(name);
    assert CString(key)[..0] == "";
    SameNBegins(key, CString(name), 0);
  }

  // ---- The scanner ----

  /** Passes one character, unless the end is reached. */
  function Bump(s: string, i: nat): (r: nat)
    requires i <= |s|
    ensures i <= r <= |s|
  {
    if i < |s| then i + 1 else i
  }

  function AfterSemicolon(s: string, i: nat): (r: nat)
    requires i < |s|
    ensures i < r <= |s|
  {
    if i + 1 < |s| && s[i + 1] == ' ' then i + 2 else i + 1
  }

  /** The scan of one header from `start` on: a name or value began at `p`, and `found` tells that a
      name matched and its value is looked at. */
  function Scan(s: string, key: string, start: nat, p: nat, found: bool): Option<string>
    requires p <= start <= |s|
    decreases |s| - start
  {
    if start == |s| then
      if found then Some(s[p..start]) else None
    else if s[start] == '=' then
      var found1 := found || Matches(key, s[p..start]);
      var next := start + 1;
      if next < |s| && s[next] == ';' then Scan(s, key, next, next, found1)
      else Scan(s, key, Bump(s, next), next, found1)
    else if s[start] == ';' then
      if found then Some(s[p..start])
      else
        var next := AfterSemicolon(s, start);
        Scan(s, key, Bump(s, next), next, false)
    else Scan(s, key, start + 1, p, found)
  }

  /** Headers whose name is the start of "cookie", ignoring case, are looked at. */
  predicate CookieName(name: string) {
    Begins("cookie", name)
  }

  method GetFromHeader(s: string, key: string) returns (r: Option<string>)
    ensures r == Scan(s, key, 0, 0, false)
  {
    var start, p := 0, 0;
    var found := false;
    r := None;
    while start != |s|
      invariant p <= start <= |s| && r == None
      invariant Scan(s, key, start, p, found) == Scan(s, key, 0, 0, false)
      decreases |s| - start
    {
      if s[start] == '=' {
        var same := StrNCaseCmp(key, CString(s[p..start]), |key|);
        if same {
          found := true;
        }
        start := start + 1;
        p := start;
        if start < |s| && s[start] == ';' {
          continue;
        }
      } else if s[start] == ';' {
        if found {
          return Some(s[p..start]);
        }
        start := start + 1;
        if start < |s| && s[start] == ' ' {
          start := start + 1;
        }
        p := start;
      }
      if start != |s| {
        start := start + 1;
      }
    }
    if found {
      r := Some(s[p..start]);
    }
  }

  // ---- Cookies ----

  /** A name and a value as section 4.2.1 of RFC 6265 has them, but for a '=' in the value. */
  predicate Proper(pair: (string, string)) {
    pair.0 != "" && Free(pair.0, '=') && Free(pair.0, ';') && Free(pair.1, ';')
  }

  predicate AllProper(pairs: seq<(string, string)>) {
    pairs == [] || (Proper(pairs[0]) && AllProper(pairs[1..]))
  }

  function Header(pairs: seq<(string, string)>): string {
    if pairs == [] then ""
    else pairs[0].0 + ("=" + (pairs[0].1 + (if |pairs| == 1 then "" else ";" + (" " + Header(pairs[1..])))))
  }

  /** The value of the first cookie whose name matches */
  function FirstMatch(pairs: seq<(string, string)>, key: string): Option<string> {
    if pairs == [] then None
    else if Matches(key, pairs[0].0) then Some(pairs[0].1)
    else FirstMatch(pairs[1..], key)
  }

  /** What the scan takes for the value, which it cuts at each '=' it sees: that is the first one behind
      the first character, and then the first one behind the first character of the rest. */
  function Tail(value: string): string
    decreases |value|
  {
    if Clean(value) then value else Tail(value[LaterEq(value) + 1..])
  }

  /** A part of a value that the scan takes for a name, since it cuts it at a '=', and that starts with
      the key */
  predicate Hits(key: string, value: string)
    decreases |value|
  {
    !Clean(value)
    && (Matches(key, value[..LaterEq(value)]) || Hits(key, value[LaterEq(value) + 1..]))
  }

  /** What the scan finds: in the first cookie whose name starts with the key, or whose value has a part
      that it takes for such a name, what is behind the last cut */
  function FirstHit(pairs: seq<(string, string)>, key: string): Option<string> {
    if pairs == [] then None
    else if Matches(key, pairs[0].0) || Hits(key, pairs[0].1) then Some(Tail(pairs[0].1))
    else FirstHit(pairs[1..], key)
  }

  /** The right value is found: in front of the first match no part of a value starts with the key, and
      the value of the match is clean; or the first such part happens to be followed by the value of the
      match. */
  predicate Right(pairs: seq<(string, string)>, key: string) {
    pairs == []
    || if Matches(key, pairs[0].0) then Clean(pairs[0].1)
       else if Hits(key, pairs[0].1) then FirstMatch(pairs[1..], key) == Some(Tail(pairs[0].1))
       else Right(pairs[1..], key)
  }

  /** No value in front of the first match has a part that starts with the key. */
  predicate NoHitBefore(pairs: seq<(string, string)>, key: string) {
    pairs == [] || Matches(key, pairs[0].0) || (!Hits(key, pairs[0].1) && NoHitBefore(pairs[1..], key))
  }

  lemma {:induction false} TailIsClean(value: string)
    ensures Clean(Tail(value)) && |Tail(value)| <= |value|
    ensures Tail(value) == value <==> Clean(value)
    decreases |value|
  {
    if !Clean(value) {
      TailIsClean(value[LaterEq(value) + 1..]);
    }
  }

  /** The first hit is the first match, if no value in front of it has a hit. */
  lemma {:induction false} RightIsFirstHit(pairs: seq<(string, string)>, key: string)
    ensures FirstHit(pairs, key) == FirstMatch(pairs, key) <==> Right(pairs, key)
    ensures NoHitBefore(pairs, key) ==>
              var m := FirstMatch(pairs, key);
              Right(pairs, key) <==> (m.Some? ==> Clean(m.value))
  {
    if pairs != [] {
      TailIsClean(pairs[0].1);
      RightIsFirstHit(pairs[1..], key);
    }
  }

  lemma {:induction false} SkipPlain(s: string, key: string, start: nat, p: nat, found: bool, end: nat)
    requires p <= start <= end <= |s|
    requires forall j :: start <= j < end ==> s[j] != '=' && s[j] != ';'
    ensures Scan(s, key, start, p, found) == Scan(s, key, end, p, found)
    decreases end - start
  {
    if start < end {
      SkipPlain(s, key, start + 1, p, found, end);
    }
  }

  /** From `p` to `end` there is a value, or a part of the header, whose first character is passed unseen. */
  predicate ValueAt(s: string, p: nat, end: nat, value: string) {
    && p <= end <= |s| && s[p..end] == value && (value != "" ==> Free(value[1..], ';'))
    && (end < |s| ==> s[end] == ';')
  }

  /** The first cut of a value that is not clean leads to the rest of it. */
  lemma CutValue(s: string, key: string, p: nat, end: nat, value: string, found: bool) returns (q: nat)
    requires ValueAt(s, p, end, value) && !Clean(value)
    ensures ValueAt(s, q, end, value[LaterEq(value) + 1..]) && q == p + LaterEq(value) + 1
    ensures Scan(s, key, Look(p, end), p, found)
            == Scan(s, key, Look(q, end), q, found || Matches(key, value[..LaterEq(value)]))
  {
    var i := LaterEq(value);
    q := p + i + 1;
    assert forall j :: 0 <= j < |value| ==> s[p + j] == value[j];
    assert forall j :: 1 <= j < |value| ==> value[j] == value[1..][j - 1];
    assert forall j :: p + 1 <= j < p + i ==> s[j] == value[j - p];
    SkipPlain(s, key, p + 1, p, found, p + i);
    assert s[p..p + i] == value[..i];
    assert s[q..end] == value[i + 1..];
    assert q < end ==> s[q] == value[i + 1];
  }

  lemma PassClean(s: string, key: string, p: nat, end: nat, value: string, found: bool)
    requires ValueAt(s, p, end, value) && Clean(value)
    ensures Scan(s, key, Look(p, end), p, found) == Scan(s, key, end, p, found)
  {
    if p < end {
      assert value[1..] == s[p + 1..end];
      FreeSlice(s, p + 1, end, ';');
      FreeSlice(s, p + 1, end, '=');
      SkipPlain(s, key, p + 1, p, found, end);
    }
  }

  /** In the value of a match the scan takes what is behind the last cut. */
  lemma {:induction false} ScanFound(s: string, key: string, p: nat, end: nat, value: string)
    requires ValueAt(s, p, end, value)
    ensures Scan(s, key, Look(p, end), p, true) == Some(Tail(value))
    decreases |value|
  {
    if Clean(value) {
      PassClean(s, key, p, end, value, true);
    } else {
      var q := CutValue(s, key, p, end, value, true);
      ScanFound(s, key, q, end, value[LaterEq(value) + 1..]);
    }
  }

  /** Through any other value it comes to the end, unless a part of it starts with the key. */
  lemma {:induction false} ScanOther(s: string, key: string, p: nat, end: nat, value: string) returns (q: nat)
    requires ValueAt(s, p, end, value)
    ensures q <= end
    ensures Scan(s, key, Look(p, end), p, false)
            == if Hits(key, value) then Some(Tail(value)) else Scan(s, key, end, q, false)
    decreases |value|
  {
    if Clean(value) {
      PassClean(s, key, p, end, value, false);
      q := p;
    } else {
      var i := LaterEq(value);
      q := CutValue(s, key, p, end, value, false);
      if Matches(key, value[..i]) {
        ScanFound(s, key, q, end, value[i + 1..]);
      } else {
        q := ScanOther(s, key, q, end, value[i + 1..]);
      }
    }
  }

  // ---- Any header ----

  /** What stands behind a ';' of a header. Its first character is passed unseen, whatever it is. */
  datatype Part = Part(spaced: bool, text: string)

  /** Only the last part can be empty. A space behind the ';' is not in the part. */
  predicate AllParts(parts: seq<Part>) {
    parts == []
    || var (spaced, text) := (parts[0].spaced, parts[0].text);
       && (text == "" ==> |parts| == 1)
       && (text != "" ==> Free(text[1..], ';') && (text[0] == ' ' ==> spaced))
       && AllParts(parts[1..])
  }

  function Joined(parts: seq<Part>): string {
    if parts == [] then ""
    else ";" + ((if parts[0].spaced then " " else "") + (parts[0].text + Joined(parts[1..])))
  }

  /** The scan takes each part as it takes a value. */
  function PartsFound(parts: seq<Part>, key: string): Option<string> {
    if parts == [] then None
    else if Hits(key, parts[0].text) then Some(Tail(parts[0].text))
    else PartsFound(parts[1..], key)
  }

  /** Of what stands before the first ';' it also sees the first character. */
  function HeaderFound(first: string, parts: seq<Part>, key: string): Option<string> {
    if Free(first, '=') then PartsFound(parts, key)
    else
      var i := EqAt(first, 0);
      var value := first[i + 1..];
      if Matches(key, first[..i]) || Hits(key, value) then Some(Tail(value)) else PartsFound(parts, key)
  }

  /** The end of the part that starts at `i` */
  function SemicolonAt(s: string, i: nat): (r: nat)
    requires i <= |s|
    ensures i <= r <= |s| && (r < |s| ==> s[r] == ';') && Free(s[i..r], ';')
    decreases |s| - i
  {
    if i == |s| || s[i] == ';' then i
    else
      var r := SemicolonAt(s, i + 1);
      FreeSlice(s, i + 1, r, ';');
      FreeSlice(s, i, r, ';');
      r
  }

  lemma {:induction false} CutParts(s: string) returns (parts: seq<Part>)
    requires s == "" || s[0] == ';'
    ensures AllParts(parts) && Joined(parts) == s
    decreases |s|
  {
    if s == "" {
      parts := [];
    } else {
      var spaced := |s| > 1 && s[1] == ' ';
      var from := if spaced then 2 else 1;
      var end := if from < |s| then SemicolonAt(s, from + 1) else from;
      assert from < |s| ==> s[from..end][1..] == s[from + 1..end];
      var rest := CutParts(s[end..]);
      parts := [Part(spaced, s[from..end])] + rest;
      HeadTail(Part(spaced, s[from..end]), rest);
      assert s == ";" + ((if spaced then " " else "") + (s[from..end] + s[end..]));
    }
  }

  /** Every header is made of parts. */
  lemma CutHeader(s: string) returns (first: string, parts: seq<Part>)
    ensures Free(first, ';') && AllParts(parts) && s == first + Joined(parts)
  {
    var end := SemicolonAt(s, 0);
    first := s[..end];
    parts := CutParts(s[end..]);
    assert s[0..end] == first;
    assert s == s[..end] + s[end..];
  }

  /** From a ';' the scan goes behind the space after it, if there is one, and passes one character. */
  lemma Enters(s: string, end: nat, next: nat, e: nat, part: Part)
    requires end < next <= e <= |s| && s[next..e] == part.text
    requires if part.spaced then next == end + 2 && s[end + 1] == ' ' else next == end + 1
    requires part.text != "" && part.text[0] == ' ' ==> part.spaced
    requires part.text == "" ==> e == |s|
    ensures AfterSemicolon(s, end) == next && Bump(s, next) == Look(next, e)
  {
    if next < e {
      assert s[next] == s[next..e][0];
    }
  }

  lemma Leads(s: string, i: nat, c: char, rest: string)
    requires i <= |s| && s[i..] == [c] + rest
    ensures i < |s| && s[i] == c && s[i + 1..] == rest
  {
    Cut(s, i, [c], rest);
    assert s[i] == s[i..][0];
  }

  lemma JoinedIs(parts: seq<Part>, behind: string)
    requires parts != [] && behind == parts[0].text + Joined(parts[1..])
    ensures Joined(parts) == if parts[0].spaced then [';'] + ([' '] + behind) else [';'] + behind
  {
    EmptyLeft(behind);
  }

  lemma CutPart(s: string, end: nat, part: Part, rest: string, whole: string) returns (next: nat, e: nat)
    requires end <= |s| && s[end..] == whole
    requires whole == if part.spaced then [';'] + ([' '] + (part.text + rest)) else [';'] + (part.text + rest)
    ensures end < next <= e <= |s| && s[end] == ';' && s[next..e] == part.text && s[e..] == rest
    ensures if part.spaced then next == end + 2 && s[end + 1] == ' ' else next == end + 1
  {
    next := end + 1;
    if part.spaced {
      Leads(s, end, ';', [' '] + (part.text + rest));
      Leads(s, next, ' ', part.text + rest);
      next := end + 2;
    } else {
      Leads(s, end, ';', part.text + rest);
    }
    e := next + |part.text|;
    Cut(s, next, part.text, rest);
  }

  /** Where a part stands, and what is behind it */
  lemma PartAt(s: string, end: nat, parts: seq<Part>) returns (next: nat, e: nat)
    requires end <= |s| && parts != [] && AllParts(parts) && s[end..] == Joined(parts)
    ensures end < |s| && s[end] == ';' && ValueAt(s, next, e, parts[0].text) && s[e..] == Joined(parts[1..])
    ensures AfterSemicolon(s, end) == next && Bump(s, next) == Look(next, e)
  {
    var (part, rest) := (parts[0], Joined(parts[1..]));
    JoinedIs(parts, part.text + rest);
    next, e := CutPart(s, end, part, rest, Joined(parts));
    assert |s| == e + |rest|;
    assert e < |s| ==> s[e] == s[e..][0];
    Enters(s, end, next, e, part);
  }

  /** From the end of a part on the scan finds what it finds in the parts behind it. */
  lemma {:induction false} ScanParts(s: string, key: string, end: nat, p: nat, parts: seq<Part>)
    requires p <= end <= |s| && AllParts(parts) && s[end..] == Joined(parts)
    ensures Scan(s, key, end, p, false) == PartsFound(parts, key)
    decreases |parts|
  {
    if parts != [] {
      var next, e := PartAt(s, end, parts);
      var q := ScanOther(s, key, next, e, parts[0].text);
      if !Hits(key, parts[0].text) {
        ScanParts(s, key, e, q, parts[1..]);
      }
    }
  }

  lemma FirstCut(s: string, first: string, key: string)
    requires |first| <= |s| && s[..|first|] == first && (|first| < |s| ==> s[|first|] == ';')
    requires Free(first, ';') && !Free(first, '=')
    ensures var (i, end) := (EqAt(first, 0), |first|);
            && Scan(s, key, 0, 0, false) == Scan(s, key, Look(i + 1, end), i + 1, Matches(key, first[..i]))
            && ValueAt(s, i + 1, end, first[i + 1..])
  {
    var (i, end) := (EqAt(first, 0), |first|);
    assert forall j :: 0 <= j < |first| ==> s[j] == first[j];
    SkipPlain(s, key, 0, 0, false, i);
    assert s[0..i] == first[..i] && s[i + 1..end] == first[i + 1..];
    FreeSlice(first, 0, end, ';');
    if i + 1 < end {
      assert first[i + 1..][1..] == first[i + 2..end];
      FreeSlice(first, i + 2, end, ';');
    }
  }

  /** What is found in a header, whatever it is made of */
  lemma HeaderScanned(first: string, parts: seq<Part>, key: string)
    requires Free(first, ';') && AllParts(parts)
    ensures Scan(first + Joined(parts), key, 0, 0, false) == HeaderFound(first, parts, key)
  {
    var (s, end) := (first + Joined(parts), |first|);
    assert s[end..] == Joined(parts) && s[..end] == first;
    assert end < |s| ==> s[end] == s[end..][0];
    assert forall j :: 0 <= j < end ==> s[j] == first[j];
    if Free(first, '=') {
      SkipPlain(s, key, 0, 0, false, end);
      ScanParts(s, key, end, 0, parts);
    } else {
      var i := EqAt(first, 0);
      var value := first[i + 1..];
      FirstCut(s, first, key);
      if Matches(key, first[..i]) {
        ScanFound(s, key, i + 1, end, value);
      } else {
        var q := ScanOther(s, key, i + 1, end, value);
        if !Hits(key, value) {
          ScanParts(s, key, end, q, parts);
        }
      }
    }
  }

  // ---- Headers of cookies ----

  function PairParts(pairs: seq<(string, string)>): seq<Part> {
    if pairs == [] then [] else [Part(true, PairText(pairs[0]))] + PairParts(pairs[1..])
  }

  /** The first cut of a pair is that between its name and its value. */
  lemma PairHits(pair: (string, string), key: string)
    requires Proper(pair)
    ensures var text := PairText(pair);
            && Free(text, ';')
            && (Hits(key, text) <==> Matches(key, pair.0) || Hits(key, pair.1))
            && Tail(text) == Tail(pair.1)
  {
    var (text, n) := (PairText(pair), |pair.0|);
    EqOfPair(pair, 1);
    assert text[1..][n - 1] == text[n] == '=';
    assert !Clean(text) && LaterEq(text) == n;
    assert text[..n] == pair.0 && text[n + 1..] == pair.1;
  }

  lemma {:induction false} PartsOfPairs(pairs: seq<(string, string)>, key: string)
    requires AllProper(pairs)
    ensures var parts := PairParts(pairs);
            && AllParts(parts)
            && Joined(parts) == (if pairs == [] then "" else ";" + (" " + Header(pairs)))
            && PartsFound(parts, key) == FirstHit(pairs, key)
  {
    if pairs != [] {
      var (text, rest) := (PairText(pairs[0]), PairParts(pairs[1..]));
      PairHits(pairs[0], key);
      PartsOfPairs(pairs[1..], key);
      HeadTail(Part(true, text), rest);
      HeaderOfPairs(pairs, key);
    }
  }

  lemma HeaderOfPairs(pairs: seq<(string, string)>, key: string)
    requires pairs != []
    requires Joined(PairParts(pairs[1..])) == if |pairs| == 1 then "" else ";" + (" " + Header(pairs[1..]))
    ensures Header(pairs) == PairText(pairs[0]) + Joined(PairParts(pairs[1..]))
  {
    var tail := Joined(PairParts(pairs[1..]));
    Assoc(pairs[0].0, "=" + pairs[0].1, tail);
    Assoc("=", pairs[0].1, tail);
  }

  /** What is found in a header that is made of cookies */
  lemma CookieScanned(pairs: seq<(string, string)>, key: string)
    requires AllProper(pairs)
    ensures Scan(Header(pairs), key, 0, 0, false) == FirstHit(pairs, key)
  {
    if pairs != [] {
      var text := PairText(pairs[0]);
      PairHits(pairs[0], key);
      PartsOfPairs(pairs[1..], key);
      HeaderOfPairs(pairs, key);
      EqOfPair(pairs[0], 0);
      HeaderScanned(text, PairParts(pairs[1..]), key);
      assert text[|pairs[0].0|] == '=';
      assert text[..|pairs[0].0|] == pairs[0].0 && text[|pairs[0].0| + 1..] == pairs[0].1;
    }
  }

  /** The value of the first cookie whose name starts with the key is found, or nothing if there is none,
      exactly when Right says so; if no value in front of the match has a part that starts with the key,
      that is when the value of the match is clean. */
  lemma CookieFound(pairs: seq<(string, string)>, key: string)
    requires AllProper(pairs)
    ensures var (r, m) := (Scan(Header(pairs), key, 0, 0, false), FirstMatch(pairs, key));
            && (r == m <==> Right(pairs, key))
            && (NoHitBefore(pairs, key) ==> (r == m <==> (m.Some? ==> Clean(m.value))))
  {
    CookieScanned(pairs, key);
    RightIsFirstHit(pairs, key);
  }

  /** The part of a value before a later '=' can be the key, and what is behind it the value looked for: of
      "a=k=v; k=v" the key k finds v. */
  lemma RightByChance()
    ensures var pairs := [("a", "k=v"), ("k", "v")];
            !NoHitBefore(pairs, "k") && Right(pairs, "k")
  {
    var (pairs, value) := ([("a", "k=v"), ("k", "v")], "k=v");
    MatchesIsPrefix("k", "a");
    MatchesIsPrefix("k", "k");
    assert value[1..][0] == '=';
    assert !Clean(value) && LaterEq(value) == 1;
    assert value[..1] == "k" && value[2..] == "v";
    assert Hits("k", value) && Tail(value) == Tail("v") == "v";
    assert pairs[1..] == [("k", "v")];
  }

  /** Behind a '=' in a value there can be a match that no cookie is: of "a=b=1" the key b finds 1. */
  lemma ValueTakenForName()
    ensures var pairs := [("a", "b=1")];
            Scan(Header(pairs), "b", 0, 0, false) == Some("1") && FirstMatch(pairs, "b") == None
  {
    var pairs := [("a", "b=1")];
    assert pairs[1..] == [];
    MatchesIsPrefix("b", "a");
    MatchesIsPrefix("b", "b");
    var value := "b=1";
    assert value[1..][0] == '=';
    assert !Clean(value) && LaterEq(value) == 1 && value[..1] == "b" && value[2..] == "1";
    assert Hits("b", value) && Tail(value) == Tail("1") == "1";
    CookieScanned(pairs, "b");
  }

  // ---- Any request ----

  /** The header at `at` is made of cookies, and no other has a name that "cookie" starts with. */
  predicate CookiesAt(headers: seq<(string, string)>, at: nat, pairs: seq<(string, string)>) {
    && at < |headers| && headers[at].1 == Header(pairs) && AllProper(pairs)
    && forall i :: 0 <= i < |headers| ==>
         Free(headers[i].0, '\0') && (StartsWith("cookie", headers[i].0) <==> i == at)
  }

  lemma NamesBegin(headers: seq<(string, string)>)
    ensures forall i :: 0 <= i < |headers| && Free(headers[i].0, '\0') ==>
              (CookieName(headers[i].0) <==> StartsWith("cookie", headers[i].0))
  {
    forall i | 0 <= i < |headers| && Free(headers[i].0, '\0')
      ensures CookieName(headers[i].0) <==> StartsWith("cookie", headers[i].0)
    {
      CStringIs(headers[i].0);
    }
  }

  /** Of the headers that are looked at, the last in which something is found counts. */
  method CookieGet(headers: seq<(string, string)>, key: string) returns (r: Option<string>)
    ensures r == None <==>
              forall i :: 0 <= i < |headers| && CookieName(headers[i].0) ==>
                Scan(headers[i].1, key, 0, 0, false) == None
    ensures r.Some? ==>
              exists i :: 0 <= i < |headers| && CookieName(headers[i].0) && Scan(headers[i].1, key, 0, 0, false) == r
                && forall j :: i < j < |headers| && CookieName(headers[j].0) ==>
                     Scan(headers[j].1, key, 0, 0, false) == None
    ensures forall at, pairs :: CookiesAt(headers, at, pairs) ==>
              r == FirstHit(pairs, key) && (r == FirstMatch(pairs, key) <==> Right(pairs, key))
  {
    r := None;
    ghost var at := 0;
    for i := 0 to |headers|
      invariant r == None ==>
                  forall j :: 0 <= j < i && CookieName(headers[j].0) ==> Scan(headers[j].1, key, 0, 0, false) == None
      invariant r.Some? ==> at < i && CookieName(headers[at].0) && Scan(headers[at].1, key, 0, 0, false) == r
      invariant r.Some? ==>
                  forall j :: at < j < i && CookieName(headers[j].0) ==> Scan(headers[j].1, key, 0, 0, false) == None
    {
      var name := headers[i].0;
      var cookie := StrNCaseCmp(name, "cookie", |name|);
      assert cookie == CookieName(name) by {
        CStringIs(name);
        assert CString(name)[..0] == "";
        SameNBegins(name, "cookie", 0);
      }
      if cookie {
        var x := GetFromHeader(headers[i].1, key);
        if x.Some? {
          r, at := x, i;
        }
      }
    }
    forall k, pairs | CookiesAt(headers, k, pairs)
      ensures r == FirstHit(pairs, key) && (r == FirstMatch(pairs, key) <==> Right(pairs, key))
    {
      CookieScanned(pairs, key);
      RightIsFirstHit(pairs, key);
      NamesBegin(headers);
    }
  }
}
