/**
 The Redis client of t/lib/redis.php: the writer of commands and the parser of replies.
 */
module Redis {
  import opened Common

  /** What data_parse returns */
  datatype Reply = Null | False | Int(i: int) | Str(s: string) | Arr(items: seq<Reply>)

  const CRLF: string := "\r\n"

  // ---- PHP's functions on strings ----

  function Digit(d: nat): char
    requires d < 10
  {
    '0' + d as char
  }

  predicate IsDigit(c: char) {
    '0' <= c <= '9'
  }

  /** An int as a string */
  function Decimal(n: nat): (r: string)
    ensures r != ""
  {
    if n < 10 then [Digit(n)] else Decimal(n / 10) + [Digit(n % 10)]
  }

  /** The number that the leading digits of `s` continue */
  function Digits(s: string, n: nat): nat {
    if s == "" || !IsDigit(s[0]) then n else Digits(s[1..], n * 10 + (s[0] as nat - '0' as nat))
  }

  predicate IsSpace(c: char) {
    c == ' ' || c == '\t' || c == '\n' || c == '\r' || c as nat == 11 || c as nat == 12
  }

  /** intval of a string without fraction and exponent */
  function Intval(s: string): int {
    if s == "" then 0
    else if IsSpace(s[0]) then Intval(s[1..])
    else if s[0] == '-' then 0 - Digits(s[1..], 0)
    else if s[0] == '+' then Digits(s[1..], 0)
    else Digits(s, 0)
  }

  predicate IsBreak(c: char) {
    c == '\r' || c == '\n'
  }

  /** strtok with the characters of CRLF: delimiters are skipped, then a token goes to the next one. */
  function Skip(s: string): (r: string)
    ensures |r| <= |s| && (r != "" ==> !IsBreak(r[0]))
  {
    if s != "" && IsBreak(s[0]) then Skip(s[1..]) else s
  }

  function Token(s: string): (r: string)
    ensures r <= s && forall i :: 0 <= i < |r| ==> !IsBreak(r[i])
  {
    if s == "" || IsBreak(s[0]) then "" else [s[0]] + Token(s[1..])
  }

  function Strtok(s: string): (Option<string>, string) {
    var t := Skip(s);
    if t == "" then (None, "") else (Some(Token(t)), t[|Token(t)|..])
  }

  predicate IsTrimmed(c: char) {
    c == ' ' || c == '\t' || c == '\n' || c == '\r' || c as nat == 0 || c as nat == 11
  }

  function Trim(s: string): string {
    if s != "" && IsTrimmed(s[0]) then Trim(s[1..])
    else if s != "" && IsTrimmed(s[|s| - 1]) then Trim(s[..|s| - 1])
    else s
  }

  /** strpos for CRLF, where false counts as 0 */
  function Strpos(s: string): (r: nat)
    ensures r == 0 || r + 2 <= |s|
  {
    if |s| < 2 || s[..2] == CRLF then 0
    else
      var r := Strpos(s[1..]);
      if r == 0 && !(|s| > 2 && s[1..3] == CRLF) then 0 else r + 1
  }

  /** substr($data, strpos($data, CRLF) + 2) */
  function NextLine(s: string): (r: string)
    ensures |r| <= |s| && (s != "" ==> |r| < |s|)
  {
    if Strpos(s) + 2 >= |s| then "" else s[Strpos(s) + 2..]
  }

  // ---- The parser ----

  /** What the loop of the array case stores: what is empty() becomes null. */
  function Stored(r: Reply): Reply {
    if r == False || r == Int(0) || r == Str("") || r == Str("0") || r == Arr([]) then Null else r
  }

  /** data_parse. It ends on every string, since an array is parsed from a string that is shorter. */
  function Parse(data: string): Reply
    decreases |data|, 0
  {
    if data == "" then Null
    else match data[0]
      case '$' =>
        if Intval(data[1..]) < 0 then Null
        else (match Strtok(Strtok(data).1).0 case Some(t) => Str(t) case None => False)
      case '+' => Str(Trim(data[1..]))
      case '*' =>
        var size := Intval(data[1..]);
        if size < 0 then Null else Arr(Items(NextLine(data), size))
      case ':' => Int(Intval(data[1..]))
      case '-' => False
      case _ => Null
  }

  /** `n` turns of the loop of the array case: each element is taken to have two lines. */
  function Items(data: string, n: nat): (r: seq<Reply>)
    ensures |r| == n
    decreases |data|, n + 1
  {
    if n == 0 then [] else [Stored(Parse(data))] + Items(NextLine(NextLine(data)), n - 1)
  }

  lemma ItemsStep(data: string, n: nat)
    requires n > 0
    ensures Items(data, n) == [Stored(Parse(data))] + Items(NextLine(NextLine(data)), n - 1)
  {
  }

  method DataParse(data: string) returns (r: Reply)
    ensures r == Parse(data)
    decreases |data|
  {
    if data == "" {
      return Null;
    }
    match data[0]
    case '$' =>
      var size := Intval(data[1..]);
      if size < 0 {
        return Null;
      }
      var (_, rest) := Strtok(data);
      var (token, _) := Strtok(rest);
      r := if token.Some? then Str(token.value) else False;
    case '+' => r := Str(Trim(data[1..]));
    case '*' =>
      var size := Intval(data[1..]);
      if size < 0 {
        return Null;
      }
      var output := [];
      var d := NextLine(data);
      ghost var items: seq<Reply> := Items(d, size);
      ghost var left := size;
      EmptyLeft(items);
      for i := 0 to size
        invariant left == size - i && |d| < |data|
        invariant output + Items(d, left) == items
      {
        var res := DataParse(d);
        ItemsStep(d, left);
        left := left - 1;
        Assoc(output, [Stored(res)], Items(NextLine(NextLine(d)), left));
        output := output + [Stored(res)];
        d := NextLine(d);
        d := NextLine(d);
      }
      r := Arr(output);
    case ':' => r := Int(Intval(data[1..]));
    case '-' => r := False;
    case _ => r := Null;
  }

  // ---- The writer ----

  function Bulk(arg: string): string {
    "$" + Decimal(|arg|) + (CRLF + (arg + CRLF))
  }

  function Bulks(args: seq<string>): string {
    if args == [] then "" else Bulk(args[0]) + Bulks(args[1..])
  }

  /** The text of a command */
  function Command(args: seq<string>): string {
    "*" + Decimal(|args|) + (CRLF + Bulks(args))
  }

  method WriteData(args: seq<string>) returns (payload: string)
    ensures payload == Command(args)
  {
    payload := "";
    for i := 0 to |args|
      invariant payload + Bulks(args[i..]) == Bulks(args)
    {
      assert args[i..][1..] == args[i + 1..];
      Assoc(payload, Bulk(args[i]), Bulks(args[i + 1..]));
      payload := payload + ("$" + Decimal(|args[i]|) + (CRLF + (args[i] + CRLF)));
    }
    assert args[|args|..] == [];
    assert payload == Bulks(args);
    payload := "*" + Decimal(|args|) + (CRLF + payload);
  }

  // ---- Round trip ----

  predicate NoBreak(s: string) {
    s == "" || (!IsBreak(s[0]) && NoBreak(s[1..]))
  }

  lemma {:induction false} NoBreakAppend(a: string, b: string)
    ensures NoBreak(a + b) <==> NoBreak(a) && NoBreak(b)
  {
    if a == "" {
      assert a + b == b;
    } else {
      assert (a + b)[1..] == a[1..] + b;
      NoBreakAppend(a[1..], b);
    }
  }

  lemma {:induction false} DecimalNoBreak(n: nat)
    ensures NoBreak(Decimal(n)) && IsDigit(Decimal(n)[0])
  {
    if n >= 10 {
      DecimalNoBreak(n / 10);
      NoBreakAppend(Decimal(n / 10), [Digit(n % 10)]);
    }
  }

  lemma {:induction false} DigitsOfDecimal(n: nat, rest: string)
    ensures Digits(Decimal(n) + rest, 0) == Digits(rest, n)
  {
    if n < 10 {
      assert (Decimal(n) + rest)[1..] == rest;
    } else {
      var tail := [Digit(n % 10)] + rest;
      assert Decimal(n) + rest == Decimal(n / 10) + tail;
      DigitsOfDecimal(n / 10, tail);
      assert tail[1..] == rest;
    }
  }

  lemma IntvalOfDecimal(n: nat, rest: string)
    requires rest != "" && !IsDigit(rest[0])
    ensures Intval(Decimal(n) + rest) == n
  {
    DecimalNoBreak(n);
    DigitsOfDecimal(n, rest);
    assert (Decimal(n) + rest)[0] == Decimal(n)[0];
  }

  lemma {:induction false} TokenOf(a: string, rest: string)
    requires NoBreak(a) && (rest == "" || IsBreak(rest[0]))
    ensures Token(a + rest) == a
  {
    if a == "" {
      assert a + rest == rest;
    } else {
      assert (a + rest)[1..] == a[1..] + rest;
      TokenOf(a[1..], rest);
    }
  }

  lemma {:induction false} StrposOf(a: string, rest: string)
    requires NoBreak(a)
    ensures Strpos(a + (CRLF + rest)) == |a| && NextLine(a + (CRLF + rest)) == rest
  {
    var s := a + (CRLF + rest);
    if a == "" {
      assert s == CRLF + rest;
      assert s[..2] == CRLF && s[2..] == rest;
    } else {
      assert s[1..] == a[1..] + (CRLF + rest);
      StrposOf(a[1..], rest);
      assert |a| == 1 ==> s[1..3] == CRLF;
      assert s[0] != '\r';
      assert s[..2][0] == s[0];
      assert s[|a| + 2..] == rest;
    }
  }

  /** An argument that comes back */
  predicate Clean(arg: string) {
    arg != "" && arg != "0" && NoBreak(arg)
  }

  lemma FirstToken(head: string, tail: string)
    requires NoBreak(head) && head != ""
    ensures Strtok(head + (CRLF + tail)) == (Some(head), CRLF + tail)
  {
    var s := head + (CRLF + tail);
    TokenOf(head, CRLF + tail);
    assert s[0] == head[0];
    assert s[|head|..] == CRLF + tail;
  }

  lemma Head(c: char, n: nat, tail: string)
    requires !IsBreak(c)
    ensures var (head, data) := ([c] + Decimal(n), [c] + Decimal(n) + (CRLF + tail));
            && NoBreak(head)
            && data[0] == c && Intval(data[1..]) == n && NextLine(data) == tail
  {
    var head := [c] + Decimal(n);
    DecimalNoBreak(n);
    NoBreakAppend([c], Decimal(n));
    StrposOf(head, tail);
    Assoc([c], Decimal(n), CRLF + tail);
    HeadTail(c, Decimal(n) + (CRLF + tail));
    IntvalOfDecimal(n, CRLF + tail);
  }

  lemma LinesOfBulk(arg: string, rest: string)
    ensures var data := Bulk(arg) + rest;
            && data[0] == '$' && Intval(data[1..]) == |arg|
            && NextLine(data) == arg + (CRLF + rest)
            && Strtok(data) == (Some("$" + Decimal(|arg|)), CRLF + (arg + (CRLF + rest)))
  {
    var (head, tail) := ("$" + Decimal(|arg|), arg + (CRLF + rest));
    Head('$', |arg|, tail);
    FirstToken(head, tail);
    Assoc(head, CRLF + (arg + CRLF), rest);
    Assoc(CRLF, arg + CRLF, rest);
    Assoc(arg, CRLF, rest);
  }

  /** Whatever the argument is, the parser takes the first run of characters other than CR and LF
      behind the length for it. */
  lemma ParseBulk(arg: string, rest: string)
    ensures var t := Skip(arg + (CRLF + rest));
            Parse(Bulk(arg) + rest) == if t == "" then False else Str(Token(t))
    ensures Clean(arg) ==> Parse(Bulk(arg) + rest) == Str(arg)
    ensures NoBreak(arg) ==> NextLine(NextLine(Bulk(arg) + rest)) == rest
  {
    LinesOfBulk(arg, rest);
    var s := arg + (CRLF + rest);
    assert (CRLF + s)[1..][1..] == s;
    assert Skip(CRLF + s) == Skip(s);
    if NoBreak(arg) {
      StrposOf(arg, rest);
      TokenOf(arg, CRLF + rest);
    }
  }

  lemma {:induction false} NoBreakOf(s: string)
    requires forall i :: 0 <= i < |s| ==> !IsBreak(s[i])
    ensures NoBreak(s)
  {
    if s != "" {
      NoBreakOf(s[1..]);
    }
  }

  /** What cannot come back */
  lemma Misread(arg: string, rest: string)
    requires !Clean(arg)
    ensures Stored(Parse(Bulk(arg) + rest)) != Str(arg)
  {
    ParseBulk(arg, rest);
    var t := Skip(arg + (CRLF + rest));
    if t != "" {
      var token := Token(t);
      NoBreakOf(token);
      assert token != "" by { assert !IsBreak(t[0]); }
    }
  }

  function Strs(args: seq<string>): (r: seq<Reply>)
    ensures |r| == |args|
  {
    if args == [] then [] else [Str(args[0])] + Strs(args[1..])
  }

  predicate AllClean(args: seq<string>) {
    args == [] || (Clean(args[0]) && AllClean(args[1..]))
  }

  lemma {:induction false} ItemsOfBulks(args: seq<string>)
    ensures Items(Bulks(args), |args|) == Strs(args) <==> AllClean(args)
  {
    if args != [] {
      var (arg, rest) := (args[0], Bulks(args[1..]));
      var data := Bulk(arg) + rest;
      ItemsStep(data, |args|);
      HeadTail(Stored(Parse(data)), Items(NextLine(NextLine(data)), |args| - 1));
      HeadTail(Str(arg), Strs(args[1..]));
      if Clean(arg) {
        ParseBulk(arg, rest);
        ItemsOfBulks(args[1..]);
      } else {
        Misread(arg, rest);
      }
    }
  }

  /** A list of arguments comes back from the text of its command exactly when no argument is empty,
      "0", or has a CR or LF in it. */
  lemma {:induction false} CommandRoundTrip(args: seq<string>)
    ensures Parse(Command(args)) == Arr(Strs(args)) <==> AllClean(args)
  {
    Head('*', |args|, Bulks(args));
    ItemsOfBulks(args);
  }

  // ---- The writer and the protocol ----

  /** A bulk as the protocol has it: as many characters as its length says, whatever they are, and CRLF. */
  function ReadBulk(s: string): Option<(string, string)> {
    if s == "" || s[0] != '$' || Intval(s[1..]) < 0 then None
    else
      var (n, rest) := (Intval(s[1..]), NextLine(s));
      if |rest| < n + 2 || rest[n..n + 2] != CRLF then None else Some((rest[..n], rest[n + 2..]))
  }

  function ReadBulks(s: string, n: nat): Option<seq<string>> {
    if n == 0 then (if s == "" then Some([]) else None)
    else match ReadBulk(s)
      case None => None
      case Some((arg, rest)) =>
        match ReadBulks(rest, n - 1)
        case None => None
        case Some(more) => Some([arg] + more)
  }

  /** What a server takes a command for */
  function ReadCommand(s: string): Option<seq<string>> {
    if s == "" || s[0] != '*' || Intval(s[1..]) < 0 then None else ReadBulks(NextLine(s), Intval(s[1..]))
  }

  lemma BulkIsRead(arg: string, rest: string)
    ensures ReadBulk(Bulk(arg) + rest) == Some((arg, rest))
  {
    var s := arg + (CRLF + rest);
    LinesOfBulk(arg, rest);
    assert s[..|arg|] == arg && s[|arg|..|arg| + 2] == CRLF && s[|arg| + 2..] == rest;
  }

  lemma {:induction false} BulksAreRead(args: seq<string>)
    ensures ReadBulks(Bulks(args), |args|) == Some(args)
  {
    if args != [] {
      BulkIsRead(args[0], Bulks(args[1..]));
      BulksAreRead(args[1..]);
      assert args == [args[0]] + args[1..];
    }
  }

  /** A server reads from the text of a command exactly its arguments, whatever is in them. */
  lemma {:induction false} CommandIsRead(args: seq<string>)
    ensures ReadCommand(Command(args)) == Some(args)
  {
    Head('*', |args|, Bulks(args));
    BulksAreRead(args);
  }

  predicate Trimmed(s: string) {
    s == "" || (!IsTrimmed(s[0]) && !IsTrimmed(s[|s| - 1]))
  }

  lemma TrimLine(s: string)
    requires Trimmed(s)
    ensures Trim(s + CRLF) == s
  {
    var t := s + "\r";
    assert (s + CRLF)[..|s| + 1] == t && t[..|s|] == s;
    if s == "" {
      assert s + CRLF == CRLF && CRLF[1..] == "\n" && "\n"[1..] == "";
    } else {
      assert Trim(s + CRLF) == Trim(t) == Trim(s);
    }
  }

  /** A status comes back without the spaces around it. */
  lemma StatusReply(status: string)
    requires Trimmed(status)
    ensures Parse("+" + (status + CRLF)) == Str(status)
  {
    HeadTail('+', status + CRLF);
    TrimLine(status);
  }

  /** An integer comes back, of either sign; a bulk of negative length is null, and an error false. */
  lemma NumberReply(n: nat, error: string)
    ensures Parse(":" + (Decimal(n) + CRLF)) == Int(n)
    ensures Parse(":" + ("-" + (Decimal(n) + CRLF))) == Int(0 - n)
    ensures Parse(":" + ("+" + (Decimal(n) + CRLF))) == Int(n)
    ensures n > 0 ==> Parse("$" + ("-" + (Decimal(n) + CRLF))) == Null
    ensures Parse("-" + (error + CRLF)) == False
  {
    HeadTail(':', Decimal(n) + CRLF);
    IntvalOfDecimal(n, CRLF);
    HeadTail(':', "-" + (Decimal(n) + CRLF));
    NegativeInt(n, CRLF);
    HeadTail(':', "+" + (Decimal(n) + CRLF));
    HeadTail('+', Decimal(n) + CRLF);
    DigitsOfDecimal(n, CRLF);
    HeadTail('$', "-" + (Decimal(n) + CRLF));
    HeadTail('-', error + CRLF);
  }

  lemma NegativeInt(n: nat, rest: string)
    requires rest != "" && !IsDigit(rest[0])
    ensures Intval("-" + (Decimal(n) + rest)) == 0 - n
  {
    HeadTail('-', Decimal(n) + rest);
    DigitsOfDecimal(n, rest);
  }

  /** An array of negative size is null, whatever follows, and so is a reply of no known kind, or none. */
  lemma NullReply(n: nat, rest: string, other: string)
    requires n > 0 && rest != "" && !IsDigit(rest[0])
    requires other == "" || other[0] !in "$+*:-"
    ensures Parse("*" + ("-" + (Decimal(n) + rest))) == Null
    ensures Parse("$" + ("-" + (Decimal(n) + rest))) == Null
    ensures Parse(other) == Null
  {
    HeadTail('*', "-" + (Decimal(n) + rest));
    HeadTail('$', "-" + (Decimal(n) + rest));
    NegativeInt(n, rest);
    assert other != "" ==> forall c :: c in "$+*:-" ==> other[0] != c;
    assert '$' in "$+*:-" && '+' in "$+*:-" && '*' in "$+*:-" && ':' in "$+*:-" && '-' in "$+*:-";
  }

  /** In an array an error is null, and so is what PHP takes for empty: 0, an empty status or bulk, the bulk "0",
      and an array of no elements. */
  lemma EmptyIsNull(error: string)
    ensures Items("-" + (error + CRLF), 1) == [Null]
    ensures Items(":" + (Decimal(0) + CRLF), 1) == [Null]
    ensures Items("+" + ("" + CRLF), 1) == [Null]
    ensures Items(Bulk("") + "", 1) == [Null] && Items(Bulk("0") + "", 1) == [Null]
    ensures Items("*" + Decimal(0) + (CRLF + ""), 1) == [Null]
  {
    OneItem("-" + (error + CRLF));
    OneItem(":" + (Decimal(0) + CRLF));
    NumberReply(0, error);
    OneItem("+" + ("" + CRLF));
    StatusReply("");
    EmptyBulks();
    OneItem(Bulk("") + "");
    OneItem(Bulk("0") + "");
    EmptyArray();
    OneItem("*" + Decimal(0) + (CRLF + ""));
  }

  lemma OneItem(data: string)
    ensures Items(data, 1) == [Stored(Parse(data))]
  {
    ItemsStep(data, 1);
    assert Items(NextLine(NextLine(data)), 0) == [];
  }

  lemma EmptyArray()
    ensures Parse("*" + Decimal(0) + (CRLF + "")) == Arr([])
  {
    Head('*', 0, "");
  }

  lemma EmptyBulks()
    ensures Parse(Bulk("") + "") == False && Parse(Bulk("0") + "") == Str("0")
  {
    ParseBulk("", "");
    assert "" + (CRLF + "") == CRLF && CRLF[1..] == "\n" && "\n"[1..] == "";
    assert Skip(CRLF) == Skip("\n") == "";
    ParseBulk("0", "");
    NoBreakOf("0");
    TokenOf("0", CRLF + "");
    assert ("0" + (CRLF + ""))[0] == '0';
  }
}
