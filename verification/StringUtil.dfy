/**
 String replacement with a size computed in advance, as in ngx_http_php_util.c. A C string is
 modelled by its bytes before the terminating NUL.
 */
module StringUtil {
  import opened Common

  type cstring = s: seq<byte> | 0 !in s

  // ---- Leftmost non-overlapping occurrences ----

  predicate OccursAt(s: seq<byte>, sub: seq<byte>, i: nat) {
    i + |sub| <= |s| && s[i..i + |sub|] == sub
  }

  /** strstr from position `from` on */
  function StrStr(s: seq<byte>, sub: seq<byte>, from: nat): (r: Option<nat>)
    requires from <= |s|
    ensures r.Some? ==> from <= r.value && r.value + |sub| <= |s|
    decreases |s| - from
  {
    if OccursAt(s, sub, from) then Some(from)
    else if from == |s| then None
    else StrStr(s, sub, from + 1)
  }

  /** `sub` does not occur at any position in from..to. */
  predicate Free(s: seq<byte>, sub: seq<byte>, from: nat, to: nat) {
    forall j: nat :: from <= j < to ==> !OccursAt(s, sub, j)
  }

  lemma {:induction false} StrStrLeast(s: seq<byte>, sub: seq<byte>, from: nat)
    requires from <= |s|
    ensures match StrStr(s, sub, from)
            case Some(i) => OccursAt(s, sub, i) && Free(s, sub, from, i)
            case None => Free(s, sub, from, |s| + 1)
    decreases |s| - from
  {
    if !OccursAt(s, sub, from) && from < |s| {
      StrStrLeast(s, sub, from + 1);
    }
  }

  /** `s` from `from` on, cut at the occurrences of `sub`. */
  function Split(s: seq<byte>, sub: seq<byte>, from: nat): (r: seq<seq<byte>>)
    requires from <= |s| && sub != []
    ensures |r| >= 1
    decreases |s| - from
  {
    match StrStr(s, sub, from)
    case None => [s[from..]]
    case Some(i) => [s[from..i]] + Split(s, sub, i + |sub|)
  }

  function Join(pieces: seq<seq<byte>>, glue: seq<byte>): seq<byte>
    requires |pieces| >= 1
  {
    if |pieces| == 1 then pieces[0] else pieces[0] + glue + Join(pieces[1..], glue)
  }

  /** Leftmost non-overlapping replacement. */
  function Replace(s: seq<byte>, sub: seq<byte>, rep: seq<byte>): seq<byte> {
    if sub == [] then s else Join(Split(s, sub, 0), rep)
  }

  /** Cutting loses nothing: the pieces glued with `sub` are the string again. */
  lemma {:induction false} SplitJoin(s: seq<byte>, sub: seq<byte>, from: nat)
    requires from <= |s| && sub != []
    ensures Join(Split(s, sub, from), sub) == s[from..]
    decreases |s| - from
  {
    StrStrLeast(s, sub, from);
    match StrStr(s, sub, from)
    case None =>
    case Some(i) =>
      SplitJoin(s, sub, i + |sub|);
      assert Split(s, sub, from)[1..] == Split(s, sub, i + |sub|);
      assert s[from..] == s[from..i] + s[i..i + |sub|] + s[i + |sub|..];
  }

  lemma SplitStep(s: seq<byte>, sub: seq<byte>, from: nat)
    requires from <= |s| && sub != [] && StrStr(s, sub, from).Some?
    ensures var i := StrStr(s, sub, from).value;
            && |Split(s, sub, from)| > 1
            && Split(s, sub, from)[0] == s[from..i]
            && Split(s, sub, from)[1..] == Split(s, sub, i + |sub|)
  {
  }

  /** The first `offset` bytes of the result are in place, and a NUL behind them. */
  predicate Written(result: array<byte>, whole: seq<byte>, offset: nat)
    requires result.Length == |whole| + 1
    reads result
  {
    offset <= |whole| && (forall i :: 0 <= i < offset ==> result[i] == whole[i]) && result[offset] == 0
  }

  /** Each cut is at the leftmost occurrence that is left: no piece, with the `sub` after it,
      contains an earlier one, and the last piece contains none. */
  lemma {:induction false} SplitLeftmost(s: seq<byte>, sub: seq<byte>, from: nat, p: nat)
    requires from <= |s| && sub != [] && p < |Split(s, sub, from)|
    ensures var pieces := Split(s, sub, from);
            if p < |pieces| - 1 then Free(pieces[p] + sub, sub, 0, |pieces[p]|)
            else Free(pieces[p], sub, 0, |pieces[p]| + 1)
    decreases |s| - from
  {
    StrStrLeast(s, sub, from);
    match StrStr(s, sub, from)
    case None =>
      FreeSlice(s, sub, from, |s|, |s| - from + 1);
      assert s[from..|s|] == s[from..];
    case Some(i) =>
      SplitStep(s, sub, from);
      if p == 0 {
        FirstPiece(s, sub, from, i, s[from..i]);
      } else {
        SplitLeftmost(s, sub, i + |sub|, p - 1);
        assert Split(s, sub, from)[p] == Split(s, sub, from)[1..][p - 1];
      }
  }

  lemma FirstPiece(s: seq<byte>, sub: seq<byte>, from: nat, i: nat, piece: seq<byte>)
    requires from <= i && i + |sub| <= |s| && piece == s[from..i]
    requires OccursAt(s, sub, i) && Free(s, sub, from, i)
    ensures Free(piece + sub, sub, 0, |piece|)
  {
    FreeSlice(s, sub, from, i + |sub|, i - from);
    assert piece + sub == s[from..i + |sub|];
  }

  lemma FreeSlice(s: seq<byte>, sub: seq<byte>, from: nat, to: nat, b: nat)
    requires from <= to <= |s| && Free(s, sub, from, from + b)
    ensures Free(s[from..to], sub, 0, b)
  {
    forall j: nat | j < b && OccursAt(s[from..to], sub, j) ensures OccursAt(s, sub, from + j) {
      SliceOfSlice(s, from, to, j, j + |sub|);
    }
  }

  lemma SliceOfSlice<T>(s: seq<T>, a: nat, b: nat, c: nat, d: nat)
    requires a <= b <= |s| && c <= d <= b - a
    ensures s[a..b][c..d] == s[a + c..a + d]
  {
    assert forall k {:trigger s[a..b][c..d][k]} :: 0 <= k < d - c ==> s[a..b][c..d][k] == s[a..b][c + k];
  }

  /** Replacing a substring by itself is the identity. */
  lemma ReplaceBySelf(s: seq<byte>, sub: seq<byte>)
    ensures Replace(s, sub, sub) == s
  {
    if sub != [] {
      SplitJoin(s, sub, 0);
      assert s[0..] == s;
    }
  }

  function Sum(pieces: seq<seq<byte>>): nat {
    if pieces == [] then 0 else |pieces[0]| + Sum(pieces[1..])
  }

  lemma {:induction false} JoinLength(pieces: seq<seq<byte>>, glue: seq<byte>)
    requires |pieces| >= 1
    ensures |Join(pieces, glue)| == Sum(pieces) + |glue| * (|pieces| - 1)
    decreases |pieces|
  {
    if |pieces| > 1 {
      JoinLength(pieces[1..], glue);
      assert |glue| * (|pieces| - 1) == |glue| + |glue| * (|pieces| - 2);
    } else {
      assert pieces[1..] == [];
    }
  }

  /** The size str_replace allocates: the length of the result and its terminator. */
  lemma SizeExact(s: seq<byte>, sub: seq<byte>, rep: seq<byte>)
    requires sub != []
    ensures var count := |Split(s, sub, 0)| - 1;
            |s| - |sub| * count + |rep| * count + 1 == |Replace(s, sub, rep)| + 1
  {
    SplitJoin(s, sub, 0);
    JoinLength(Split(s, sub, 0), sub);
    JoinLength(Split(s, sub, 0), rep);
    assert s[0..] == s;
  }

  // ---- The code ----

  /** occurrences, for non-null strings */
  method Occurrences(needle: cstring, haystack: cstring) returns (i: nat)
    ensures i == if needle == [] then 0 else |Split(haystack, needle, 0)| - 1
  {
    i := 0;
    if |needle| == 0 {
      return;
    }
    var from := 0;
    var pos := StrStr(haystack, needle, 0);
    while pos.Some?
      invariant from <= |haystack| && pos == StrStr(haystack, needle, from)
      invariant i + |Split(haystack, needle, from)| == |Split(haystack, needle, 0)|
      decreases |haystack| - from
    {
      from := pos.value + |needle|;
      i := i + 1;
      pos := StrStr(haystack, needle, from);
    }
  }

  /** snprintf(result + offset, room, "%.*s", ...): as much of `text` as fits, and a NUL. */
  method Snprintf(result: array<byte>, offset: nat, room: nat, text: seq<byte>)
    requires offset + room == result.Length
    modifies result
    ensures forall i :: 0 <= i < offset ==> result[i] == old(result[i])
    ensures |text| < room ==>
              && (forall i :: offset <= i < offset + |text| ==> result[i] == text[i - offset])
              && result[offset + |text|] == 0
  {
    if room > 0 {
      var n := if |text| < room then |text| else room - 1;
      forall i | 0 <= i < n { result[offset + i] := text[i]; }
      result[offset + n] := 0;
    }
  }

  /** str_replace, for non-null strings: the buffer it allocates is filled to its last byte with the
      replaced string and the terminator. */
  method StrReplace(str: cstring, sub: cstring, replace: cstring) returns (result: array<byte>)
    ensures fresh(result)
    ensures result[..] == Replace(str, sub, replace) + [0]
    ensures sub == [] ==> result[..] == str + [0]
  {
    var count := Occurrences(sub, str);
    if count <= 0 {
      var copy := str + [0];
      result := new byte[|copy|](i requires 0 <= i < |copy| => copy[i]);
      return;
    }
    ghost var whole := Replace(str, sub, replace);
    SizeExact(str, sub, replace);
    assert whole[0..] == whole;
    var size := |str| - |sub| * count + |replace| * count + 1;
    result := new byte[size](_ => 0);
    var pos, offset := Fill(str, sub, replace, result, size, whole);
    if pos < |str| {
      Snprintf(result, offset, size - offset, str[pos..]);
    }
    assert result[..] == whole + [0];
  }

  /** The copying loop of str_replace. */
  method Fill(str: cstring, sub: cstring, replace: cstring, result: array<byte>, size: nat, ghost whole: seq<byte>)
    returns (pos: nat, offset: nat)
    requires sub != [] && result.Length == size == |whole| + 1 && result[0] == 0
    requires Cut(whole, 0, Split(str, sub, 0), replace)
    modifies result
    ensures pos <= |str| && offset <= |whole| && Written(result, whole, offset)
    ensures offset + |str| - pos == |whole| && whole[offset..] == str[pos..]
  {
    pos, offset := 0, 0;
    var current := StrStr(str, sub, pos);
    while current.Some?
      invariant pos <= |str| && current == StrStr(str, sub, pos)
      invariant Whole(Cut(whole, offset, Split(str, sub, pos), replace)) && Whole(Written(result, whole, offset))
      decreases |str| - pos
    {
      offset := Round(str, sub, replace, result, size, whole, pos, current.value, offset);
      pos := current.value + |sub|;
      current := StrStr(str, sub, pos);
    }
    assert Split(str, sub, pos) == [str[pos..]];
  }

  /** The two snprintf calls of one round: the text up to an occurrence, and its replacement. */
  method Round(str: cstring, sub: cstring, replace: cstring, result: array<byte>, size: nat, ghost whole: seq<byte>,
               pos: nat, current: nat, offset: nat) returns (offset1: nat)
    requires sub != [] && result.Length == size == |whole| + 1 && pos <= |str|
    requires StrStr(str, sub, pos) == Some(current)
    requires Whole(Cut(whole, offset, Split(str, sub, pos), replace)) && Whole(Written(result, whole, offset))
    modifies result
    ensures Whole(Cut(whole, offset1, Split(str, sub, current + |sub|), replace))
    ensures Whole(Written(result, whole, offset1))
  {
    FillStep(str, sub, replace, whole, offset, pos, current);
    var len := current - pos;
    Append(result, offset, size, str[pos..current], whole);
    offset1 := offset + len;
    Append(result, offset1, size, replace, whole);
    offset1 := offset1 + |replace|;
  }

  /** What one round of the loop is to write, and what is left after it. */
  lemma FillStep(str: cstring, sub: cstring, replace: cstring, whole: seq<byte>, offset: nat, pos: nat, current: nat)
    requires sub != [] && pos <= |str| && StrStr(str, sub, pos) == Some(current)
    requires Cut(whole, offset, Split(str, sub, pos), replace)
    ensures Whole(Matches(whole, offset, str[pos..current]))
    ensures Whole(Matches(whole, offset + (current - pos), replace))
    ensures Whole(Cut(whole, offset + (current - pos) + |replace|, Split(str, sub, current + |sub|), replace))
  {
    SplitStep(str, sub, pos);
    CutStep(whole, offset, Split(str, sub, pos), replace);
  }

  /** A snprintf that has room for its text. */
  method Append(result: array<byte>, offset: nat, size: nat, text: seq<byte>, ghost whole: seq<byte>)
    requires result.Length == size == |whole| + 1 && Whole(Written(result, whole, offset))
    requires Whole(Matches(whole, offset, text))
    modifies result
    ensures Whole(Written(result, whole, offset + |text|))
  {
    assert forall i :: offset <= i < offset + |text| ==> whole[i] == whole[offset..offset + |text|][i - offset];
    Snprintf(result, offset, size - offset, text);
  }

  /** From `offset` on, `whole` is the pieces glued together. */
  predicate Cut(whole: seq<byte>, offset: nat, pieces: seq<seq<byte>>, glue: seq<byte>) {
    |pieces| >= 1 && offset <= |whole| && whole[offset..] == Join(pieces, glue)
  }

  /** `whole` reads `text` at `offset`. */
  predicate Matches(whole: seq<byte>, offset: nat, text: seq<byte>) {
    offset + |text| <= |whole| && whole[offset..offset + |text|] == text
  }

  lemma CutStep(whole: seq<byte>, offset: nat, pieces: seq<seq<byte>>, glue: seq<byte>)
    requires Cut(whole, offset, pieces, glue)
    ensures Matches(whole, offset, pieces[0])
    ensures |pieces| == 1 ==> offset + |pieces[0]| == |whole|
    ensures |pieces| > 1 ==>
              var mid := offset + |pieces[0]|;
              Matches(whole, mid, glue) && Cut(whole, mid + |glue|, pieces[1..], glue)
  {
    var before := whole[..offset];
    assert whole == before + whole[offset..];
    if |pieces| > 1 {
      var tail := Join(pieces[1..], glue);
      Reads(before, pieces[0], glue + tail, whole);
      Reads(before + pieces[0], glue, tail, whole);
    } else {
      Reads(before, pieces[0], [], whole);
    }
  }

  lemma Reads(before: seq<byte>, text: seq<byte>, after: seq<byte>, whole: seq<byte>)
    requires whole == before + (text + after)
    ensures whole == before + text + after
    ensures Matches(whole, |before|, text) && whole[|before| + |text|..] == after
  {
  }
}
