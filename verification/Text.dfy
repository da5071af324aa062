/** Substrings, and the characters in them, for the scanners of queries and cookies; chains of
    buffers. */
module Text {
  import opened Common

  /** A string of C ends at a NUL. */
  function CString(s: string): string {
    if s == "" || s[0] as nat == 0 then "" else [s[0]] + CString(s[1..])
  }

  predicate Free(s: string, c: char) {
    forall i :: 0 <= i < |s| ==> s[i] != c
  }

  /** No '=' behind the first character: the scanners take one for the end of a key, but pass the
      first character of a value unseen. */
  predicate Clean(value: string) {
    value == "" || Free(value[1..], '=')
  }

  lemma FreeSlice(s: string, a: nat, b: nat, c: char)
    requires a <= b <= |s|
    ensures Free(s[a..b], c) <==> forall j :: a <= j < b ==> s[j] != c
  {
    assert forall j :: a <= j < b ==> s[j] == s[a..b][j - a];
  }

  lemma Cut(s: string, start: nat, a: string, b: string)
    requires start <= |s| && s[start..] == a + b
    ensures start + |a| <= |s| && s[start..start + |a|] == a && s[start + |a|..] == b
  {
    assert s[start..start + |a|] == s[start..][..|a|];
    assert s[start + |a|..] == s[start..][|a|..];
  }

  /** The offset of the first '=' behind the first character */
  function LaterEq(value: string): (i: nat)
    requires !Clean(value)
    ensures 1 <= i < |value| && value[i] == '=' && forall j :: 1 <= j < i ==> value[j] != '='
  {
    EqAt(value, 1)
  }

  function EqAt(value: string, i: nat): (r: nat)
    requires i <= |value| && exists j :: i <= j < |value| && value[j] == '='
    ensures i <= r < |value| && value[r] == '=' && forall j :: i <= j < r ==> value[j] != '='
    decreases |value| - i
  {
    if value[i] == '=' then i else EqAt(value, i + 1)
  }

  /** The first character behind a separator is passed unseen, unless nothing is there. */
  function Look(p: nat, end: nat): nat {
    if p < end then p + 1 else p
  }

  function PairText(pair: (string, string)): string {
    pair.0 + ("=" + pair.1)
  }

  lemma EqOfPair(pair: (string, string), i: nat)
    requires Free(pair.0, '=') && i <= |pair.0|
    ensures var text := PairText(pair); text[|pair.0|] == '=' && EqAt(text, i) == |pair.0|
    decreases |pair.0| - i
  {
    var text := PairText(pair);
    assert text[|pair.0|] == '=';
    if i < |pair.0| {
      assert text[i] == pair.0[i];
      EqOfPair(pair, i + 1);
    }
  }

  function Concat(s: seq<string>): string {
    if s == [] then "" else s[0] + Concat(s[1..])
  }

  /** The loops over a chain of buffers that measure it and then copy it into one buffer */
  method JoinChain(chain: seq<string>) returns (buf: string)
    ensures buf == Concat(chain)
  {
    var len := 0;
    for i := 0 to |chain|
      invariant len + |Concat(chain[i..])| == |Concat(chain)|
    {
      len := len + |chain[i]|;
    }
    buf := "";
    if len == 0 {
      return;
    }
    for i := 0 to |chain|
      invariant buf + Concat(chain[i..]) == Concat(chain)
    {
      assert chain[i..][1..] == chain[i + 1..];
      Assoc(buf, chain[i], Concat(chain[i + 1..]));
      buf := buf + chain[i];
    }
  }
}
