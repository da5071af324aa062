/**
 The MySQL client of t/lib/mysql.php: the packets that were received are walked recursively, and a
 state in the object tells what the next one is.
 */
module Mysql {
  import opened Common

  /** PHP's strings: each character is one byte. */
  type Bytes = string
  type Row = map<Bytes, Bytes>

  /** What a column is described by; a number is missing where the packet is too short. */
  datatype Field = Field(catalog: Bytes, db: Bytes, table: Bytes, oriTable: Bytes, column: Bytes, oriColumn: Bytes,
                         charset: Option<int>, length: Option<int>, kind: Option<int>, flag: Option<int>,
                         decimals: Option<int>)
  {
    function Strings(): seq<Bytes> {
      [catalog, db, table, oriTable, column, oriColumn]
    }

    function Numbers(): seq<Option<int>> {
      [charset, length, kind, flag, decimals]
    }
  }

  // ---- PHP's strings ----

  function Ord(s: Bytes): nat {
    if s == [] then 0 else s[0] as nat
  }

  /** substr(s, offset, n) for n >= 0 and an offset that is not negative */
  function Slice(s: Bytes, offset: nat, n: nat): (r: Bytes) {
    if offset >= |s| then [] else if n > |s| - offset then s[offset..] else s[offset..offset + n]
  }

  /** substr of PHP 8: a negative offset or length counts from the end, no length means the rest. */
  function Substr(s: Bytes, offset: int, length: Option<int>): Bytes {
    var f := if offset >= 0 then offset else if -offset > |s| then 0 else |s| + offset;
    match length
    case None => Slice(s, f, |s|)
    case Some(l) => Slice(s, f, if l >= 0 then l else if f > |s| || -l > |s| - f then 0 else |s| - f + l)
  }

  function LittleEndian(s: Bytes): nat {
    if s == [] then 0 else s[0] as nat + 256 * LittleEndian(s[1..])
  }

  /** The element [1] of unpack with a code of `n` bytes; the string may be too short for it. */
  function Unpack(s: Bytes, n: nat): Option<int> {
    if |s| < n then None else Some(LittleEndian(s[..n]))
  }

  function Signed64(v: Option<int>): Option<int> {
    if v.Some? && v.value >= 0x8000_0000_0000_0000 then Some(v.value - 0x1_0000_0000_0000_0000) else v
  }

  // ---- The parser on values ----

  /** length_encoded_integer: the number, which may be null, and the offset behind it */
  function LengthEncodedInteger(data: Bytes, start: int): (Option<int>, int) {
    var first := Ord(Substr(data, start, Some(1)));
    if first <= 250 then (Some(first), start + 1)
    else if first == 251 then (None, start + 1)
    else if first == 252 then (Unpack(Substr(data, start, Some(2)), 2), start + 2)
    else if first == 253 then (Unpack(Substr(data, start, Some(3)) + [0 as char], 4), start + 3)
    else (Signed64(Unpack(Substr(data, start, Some(8)), 8)), start + 8)
  }

  /** substr gives what is between two ends, each counted from the end of the string if it is negative. */
  lemma SubstrIs(s: Bytes, offset: int, length: Option<int>)
    ensures var from := if offset >= 0 then offset else if |s| + offset >= 0 then |s| + offset else 0;
            var end := match length
                       case None => |s|
                       case Some(l) => if l >= 0 then from + l else |s| + l;
            Substr(s, offset, length) == if from >= |s| || end <= from then []
                                         else if end >= |s| then s[from..] else s[from..end]
  {
  }

  /** A length of one byte is read as the protocol has it, and 251 as null. Of longer ones the driver takes the
      byte that announces them for their lowest, and one that is cut off for null. */
  lemma Lengths(data: Bytes, start: nat)
    requires start < |data|
    ensures var (first, r) := (data[start] as nat, LengthEncodedInteger(data, start));
            && (first <= 250 ==> r == (Some(first), start + 1))
            && (first == 251 ==> r == (None, start + 1))
            && (first == 252 && start + 2 <= |data| ==> r == (Some(252 + 0x100 * data[start + 1] as nat), start + 2))
            && (first == 252 && start + 2 > |data| ==> r == (None, start + 2))
            && (first == 253 && start + 3 <= |data| ==>
                  r == (Some(253 + 0x100 * data[start + 1] as nat + 0x1_0000 * data[start + 2] as nat), start + 3))
            && (first == 253 && start + 3 > |data| ==> r == (None, start + 3))
            && (first >= 254 && start + 8 > |data| ==> r == (None, start + 8))
            && (first >= 254 && start + 8 <= |data| ==>
                  var v := LittleEndian(data[start..start + 8]);
                  r == (Some(if v < 0x8000_0000_0000_0000 then v else v - 0x1_0000_0000_0000_0000), start + 8))
  {
    var first := data[start] as nat;
    if first == 252 && start + 2 <= |data| {
      var s := data[start..start + 2];
      TwoBytes(s);
      assert s[..2] == s;
    } else if first == 253 {
      var s := Substr(data, start, Some(3)) + [0 as char];
      if start + 3 <= |data| {
        assert s == data[start..start + 3] + [0 as char] && s[..4] == s;
        TwoBytes(s);
        TwoBytes(s[2..]);
      }
    } else if first >= 254 && start + 8 <= |data| {
      var s := data[start..start + 8];
      assert s[..8] == s;
    }
  }

  lemma TwoBytes(s: Bytes)
    requires |s| >= 2
    ensures LittleEndian(s) == s[0] as nat + 0x100 * s[1] as nat + 0x1_0000 * LittleEndian(s[2..])
  {
    assert s[1..][1..] == s[2..];
  }

  /** parse_field_data */
  function ParseFieldData(result: Bytes, start: nat): (Bytes, nat) {
    var len := Ord(Slice(result, start, 1));
    (Slice(result, start + 1, len), start + 1 + len)
  }

  /** `n` calls of parse_field_data */
  function Strings(result: Bytes, start: nat, n: nat): (r: (seq<Bytes>, nat))
    ensures |r.0| == n
    decreases n, result
  {
    if n == 0 then ([], start)
    else
      var (s, next) := ParseFieldData(result, start);
      var (rest, end) := Strings(result, next, n - 1);
      ([s] + rest, end)
  }

  /** Numbers of these sizes in bytes; one byte is read with ord, which takes 0 for a missing one. */
  function Numbers(result: Bytes, start: nat, sizes: seq<nat>): (r: seq<Option<int>>)
    ensures |r| == |sizes|
    decreases |sizes|, result
  {
    if sizes == [] then []
    else
      var s := Slice(result, start, sizes[0]);
      [if sizes[0] == 1 then Some(Ord(s)) else Unpack(s, sizes[0])] + Numbers(result, start + sizes[0], sizes[1..])
  }

  /** The sizes of the charset, the length, the type, the flags and the decimals */
  const SIZES: seq<nat> := [2, 4, 1, 2, 2]

  function MakeField(s: seq<Bytes>, n: seq<Option<int>>): Field
    requires |s| == 6 && |n| == |SIZES|
  {
    Field(s[0], s[1], s[2], s[3], s[4], s[5], n[0], n[1], n[2], n[3], n[4])
  }

  /** What field_data_packet appends */
  function FieldOf(result: Bytes): Field {
    var (strings, next) := Strings(result, 0, 6);
    MakeField(strings, Numbers(result, next + 1, SIZES))
  }

  /** A value of a row, and the offset behind it */
  function Value(data: Bytes, start: int): (Bytes, int) {
    var (len, at) := LengthEncodedInteger(data, start);
    (Substr(data, at, len), at + (if len.Some? then len.value else 0))
  }

  /** A null value takes all that is left of the row for itself, and leaves all but its first byte to the next. */
  lemma NullValue(data: Bytes, start: nat)
    requires start < |data| && data[start] as nat == 251
    ensures Value(data, start) == (data[start + 1..], start + 1)
  {
    Lengths(data, start);
    SubstrIs(data, start + 1, None);
    assert data[|data|..] == [];
  }

  /** What row_data_packet makes of the data from `start` on */
  function RowFrom(fields: seq<Field>, data: Bytes, start: int, row: Row): Row {
    if fields == [] then row
    else
      var (value, next) := Value(data, start);
      RowFrom(fields[1..], data, next, row[fields[0].column := value])
  }

  /** A packet: the length in its header, and what there is of its body */
  datatype Packet = Packet(len: nat, body: Bytes)

  function PacketLength(data: Bytes, offset: nat): nat {
    LittleEndian(Slice(data, offset, 2))
  }

  /** The packets from `offset` on. Each moves the offset by at least four, so there are finitely many
      in every string of bytes. */
  function Cut(data: Bytes, offset: nat): seq<Packet>
    decreases if offset < |data| then |data| - offset else 0
  {
    if offset >= |data| then []
    else
      var len := PacketLength(data, offset);
      [Packet(len, Slice(data, offset + 4, len))] + Cut(data, offset + 4 + len)
  }

  /** Each packet takes at least the four bytes of its header, though of the last they may be missing. */
  lemma {:induction false} CutBound(data: Bytes, offset: nat)
    ensures offset < |data| ==> 4 * |Cut(data, offset)| < |data| - offset + 4
    ensures offset >= |data| ==> Cut(data, offset) == []
    decreases if offset < |data| then |data| - offset else 0
  {
    if offset < |data| {
      CutBound(data, offset + 4 + PacketLength(data, offset));
    }
  }

  /** resultState, headerNum and headerCurr */
  datatype Control = Control(state: int, num: nat, curr: nat)

  const RESET := Control(0, 0, 0)

  datatype Reaction = Stop | Eof | Header(num: nat) | Column(last: bool) | Line

  /** What a packet is taken for: one of length 1 never for an OK, error or EOF packet. */
  function React(c: Control, p: Packet): Reaction {
    var tag := if p.len == 1 then 1 else Ord(p.body);
    if tag == 0x00 || tag == 0xff then Stop
    else if tag == 0xfe then Eof
    else if tag == 1 && c.state == 0 then Header(Ord(p.body))
    else if c.state == 1 then Column(c.curr >= c.num - 1)
    else if c.state == 2 || c.state == 201 then Line
    else Stop
  }

  /** At or past the end a packet without bytes is read, and stops the recursion in every state. */
  lemma StopsAtEnd(c: Control, data: Bytes, offset: nat)
    requires offset >= |data|
    ensures PacketLength(data, offset) == 0 && Slice(data, offset + 4, 0) == []
    ensures React(c, Packet(0, [])) == Stop
  {
  }

  /** How a walk over packets ends, and the packets it took for columns and for rows */
  datatype Parsed = Parsed(control: Control, columns: seq<Bytes>, rows: seq<Bytes>)

  /** The end of the EOF branch */
  function Leave(r: Parsed): Parsed {
    if r.control.state == 201 then r.(control := r.control.(state := 0)) else r
  }

  function Walk(c: Control, packets: seq<Packet>): Parsed
    decreases |packets|
  {
    if packets == [] then Parsed(c, [], [])
    else
      var (body, rest) := (packets[0].body, packets[1..]);
      match React(c, packets[0])
      case Stop => Parsed(c, [], [])
      case Eof => Leave(if c.state == 2 then Walk(c, rest) else Parsed(c, [], []))
      case Header(num) => Walk(c.(num := num, state := 1), rest)
      case Column(last) =>
        var r := Walk(c.(curr := c.curr + 1, state := if last then 2 else 1), rest);
        r.(columns := [body] + r.columns)
      case Line =>
        var r := Walk(c.(state := 201), rest);
        r.(rows := [body] + r.rows)
  }

  lemma HeaderStep(c: Control, packets: seq<Packet>)
    requires packets != [] && React(c, packets[0]).Header?
    ensures Walk(c, packets) == Walk(Control(1, Ord(packets[0].body), c.curr), packets[1..])
  {
  }

  lemma EofStep(c: Control, packets: seq<Packet>)
    requires packets != [] && React(c, packets[0]) == Eof
    ensures Walk(c, packets) == Leave(if c.state == 2 then Walk(c, packets[1..]) else Parsed(c, [], []))
  {
  }

  lemma StopStep(c: Control, packets: seq<Packet>)
    requires packets != [] && React(c, packets[0]) == Stop
    ensures Walk(c, packets) == Parsed(c, [], [])
  {
  }

  lemma ColumnStep(c: Control, packets: seq<Packet>)
    requires packets != [] && React(c, packets[0]).Column?
    ensures var r := Walk(Control(if c.curr >= c.num - 1 then 2 else 1, c.num, c.curr + 1), packets[1..]);
            Walk(c, packets) == r.(columns := [packets[0].body] + r.columns)
  {
  }

  lemma LineStep(c: Control, packets: seq<Packet>)
    requires packets != [] && React(c, packets[0]) == Line
    ensures var r := Walk(c.(state := 201), packets[1..]);
            Walk(c, packets) == r.(rows := [packets[0].body] + r.rows)
  {
  }

  /** Once rows are expected no further column is. */
  lemma {:induction false} NoMoreColumns(c: Control, packets: seq<Packet>)
    requires c.state == 2 || c.state == 201
    ensures Walk(c, packets).columns == []
    decreases |packets|
  {
    if packets != [] {
      match React(c, packets[0])
      case Eof => NoMoreColumns(c, packets[1..]);
      case Line => NoMoreColumns(c.(state := 201), packets[1..]);
      case _ =>
    }
  }

  function FieldsOf(columns: seq<Bytes>): seq<Field> {
    if columns == [] then [] else [FieldOf(columns[0])] + FieldsOf(columns[1..])
  }

  function RowsOf(fields: seq<Field>, rows: seq<Bytes>): seq<Row> {
    if rows == [] then [] else [RowFrom(fields, rows[0], 0, map[])] + RowsOf(fields, rows[1..])
  }

  /** What is in the object */
  datatype Content = Content(control: Control, fields: seq<Field>, rows: seq<Row>)

  /** The object after it took the packets of `r` */
  function Take(o: Content, r: Parsed): Content {
    var fields := o.fields + FieldsOf(r.columns);
    Content(r.control, fields, o.rows + RowsOf(fields, r.rows))
  }

  lemma TakeColumn(o: Content, c: Control, r: Parsed, body: Bytes)
    ensures Take(o, r.(columns := [body] + r.columns)) == Take(Content(c, o.fields + [FieldOf(body)], o.rows), r)
  {
    HeadTail(body, r.columns);
    Assoc(o.fields, [FieldOf(body)], FieldsOf(r.columns));
  }

  lemma TakeLine(o: Content, c: Control, r: Parsed, body: Bytes)
    requires r.columns == []
    ensures Take(o, r.(rows := [body] + r.rows))
            == Take(Content(c, o.fields, o.rows + [RowFrom(o.fields, body, 0, map[])]), r)
  {
    var row := RowFrom(o.fields, body, 0, map[]);
    assert o.fields + [] == o.fields;
    HeadTail(body, r.rows);
    Assoc(o.rows, [row], RowsOf(o.fields, r.rows));
  }

  lemma TakeNothing(o: Content)
    ensures Take(o, Parsed(o.control, [], [])) == o
  {
  }

  lemma TakeLeave(o: Content, r: Parsed)
    ensures Take(o, Leave(r))
            == if r.control.state == 201 then Take(o, r).(control := r.control.(state := 0)) else Take(o, r)
  {
  }

  lemma CutCons(data: Bytes, offset: nat)
    requires offset < |data|
    ensures var len := PacketLength(data, offset);
            && Cut(data, offset) != []
            && Cut(data, offset)[0] == Packet(len, Slice(data, offset + 4, len))
            && Cut(data, offset)[1..] == Cut(data, offset + 4 + len)
  {
  }

  lemma RowFromStep(fields: seq<Field>, i: nat, data: Bytes, start: int, row: Row)
    requires i < |fields|
    ensures var (value, next) := Value(data, start);
            RowFrom(fields[i..], data, start, row)
            == RowFrom(fields[i + 1..], data, next, row[fields[i].column := value])
  {
    assert fields[i..][1..] == fields[i + 1..];
  }

  /** What ends the walk: a packet without bytes, or one that starts like OK or an error, in every state; one that
      starts like EOF, unless rows are expected and none has come; and any other where nothing is expected. A
      single byte does not count as such a start. Columns and rows stay, and so does the state, but for the
      last of a result set. */
  lemma WalkEnds(c: Control, p: Packet, rest: seq<Packet>)
    ensures var (r, tag) := (Walk(c, [p] + rest), if p.body == [] then 0 else p.body[0] as nat);
            && (p.len != 1 && tag in {0x00, 0xff} ==> r == Parsed(c, [], []))
            && (p.len != 1 && tag == 0xfe && c.state == 201 ==> r == Parsed(c.(state := 0), [], []))
            && (p.len != 1 && tag == 0xfe && c.state !in {2, 201} ==> r == Parsed(c, [], []))
            && (p.len != 1 && tag !in {0x00, 0xfe, 0xff} && c.state !in {1, 2, 201} && (tag != 1 || c.state != 0) ==>
                  r == Parsed(c, [], []))
            && (p.len == 1 && c.state !in {0, 1, 2, 201} ==> r == Parsed(c, [], []))
  {
    HeadTail(p, rest);
  }

  // ---- The object ----

  class Client {
    var resultState: int
    var headerNum: nat
    var headerCurr: nat
    var resultFields: seq<Field>
    var resultRows: seq<Row>

    function View(): Content
      reads this
    {
      Content(Control(resultState, headerNum, headerCurr), resultFields, resultRows)
    }

    constructor ()
      ensures View() == Content(RESET, [], [])
    {
      resultState, headerNum, headerCurr, resultFields, resultRows := 0, 0, 0, [], [];
    }

    method Reset()
      modifies this
      ensures View() == Content(RESET, [], [])
    {
      headerNum := 0;
      headerCurr := 0;
      resultState := 0;
      resultFields, resultRows := [], [];
    }

    method FieldDataPacket(result: Bytes)
      modifies this`resultFields
      ensures resultFields == old(resultFields) + [FieldOf(result)]
    {
      var field := FieldOf(result);
      resultFields := resultFields + [field];
    }

    method RowDataPacket(data: Bytes)
      modifies this`resultRows
      ensures resultRows == old(resultRows) + [RowFrom(resultFields, data, 0, map[])]
    {
      var start: int := 0;
      var row: Row := map[];
      assert resultFields[0..] == resultFields;
      for i := 0 to |resultFields|
        invariant resultRows == old(resultRows)
        invariant RowFrom(resultFields[i..], data, start, row) == RowFrom(resultFields, data, 0, map[])
      {
        RowFromStep(resultFields, i, data, start, row);
        var (len, at) := LengthEncodedInteger(data, start);
        var value := Substr(data, at, len);
        start := at + (if len.Some? then len.value else 0);
        row := row[resultFields[i].column := value];
      }
      assert resultFields[|resultFields|..] == [];
      resultRows := resultRows + [row];
    }

    /** _parse_read_packet2 */
    method ParseReadPacket(data: Bytes, offset: nat)
      modifies this
      ensures View() == Take(old(View()), Walk(old(View()).control, Cut(data, offset)))
      decreases if offset < |data| then |data| - offset else 0
    {
      var len := PacketLength(data, offset);
      var body := Slice(data, offset + 4, len);
      if offset >= |data| {
        StopsAtEnd(View().control, data, offset);
        TakeNothing(View());
      } else {
        CutCons(data, offset);
        ParsePacket(data, offset + 4 + len, Packet(len, body), Cut(data, offset));
      }
    }

    /** _parse_read_packet2 from where the packet is there */
    method ParsePacket(data: Bytes, next: nat, p: Packet, ghost packets: seq<Packet>)
      requires 4 <= next - p.len < |data| + 4
      requires packets != [] && packets[0] == p && packets[1..] == Cut(data, next)
      modifies this
      ensures View() == Take(old(View()), Walk(old(View()).control, packets))
      decreases |data| - (next - p.len - 4), 0
    {
      ghost var (o, rest) := (View(), Cut(data, next));
      var fieldCount := p.len;
      if fieldCount != 1 {
        fieldCount := Ord(p.body);
      }
      if fieldCount == 0x00 || fieldCount == 0xff {
        // ok_packet and error_packet change nothing
        TakeNothing(o);
        StopStep(o.control, packets);
      } else if fieldCount == 0xfe {
        EofStep(o.control, packets);
        if resultState == 2 {
          ParseReadPacket(data, next);
          TakeLeave(o, Walk(o.control, rest));
        } else {
          TakeNothing(o);
          TakeLeave(o, Parsed(o.control, [], []));
        }
        if resultState == 201 {
          resultState := 0;
        }
      } else if fieldCount == 1 && resultState == 0 {
        HeaderStep(o.control, packets);
        headerNum := Ord(p.body);
        resultState := 1;
        ParseReadPacket(data, next);
      } else if resultState == 1 {
        var more := headerCurr < headerNum - 1;
        FieldDataPacket(p.body);
        headerCurr := headerCurr + 1;
        if !more {
          resultState := 2;
        }
        ghost var c := o.control;
        ghost var c1 := Control(if c.curr >= c.num - 1 then 2 else 1, c.num, c.curr + 1);
        assert View() == Content(c1, o.fields + [FieldOf(p.body)], o.rows);
        ColumnStep(c, packets);
        TakeColumn(o, c1, Walk(c1, rest), p.body);
        ParseReadPacket(data, next);
      } else if resultState == 2 || resultState == 201 {
        resultState := 201;
        RowDataPacket(p.body);
        LineStep(o.control, packets);
        NoMoreColumns(View().control, rest);
        TakeLine(o, View().control, Walk(View().control, rest), p.body);
        ParseReadPacket(data, next);
      } else {
        TakeNothing(o);
        StopStep(o.control, packets);
      }
    }
  }

  // ---- Packets on the wire ----

  /** A packet with its header: the length in three bytes, and a sequence id. */
  function Frame(id: char, body: Bytes): Bytes
    requires |body| < 0x10000
  {
    Le(|body|, 2) + ([0 as char, id] + body)
  }

  /** Every packet has an id, and a length of at most two bytes. */
  predicate Framed(ids: Bytes, bodies: seq<Bytes>) {
    && |ids| == |bodies|
    && (bodies == [] || (|bodies[0]| < 0x10000 && Framed(ids[1..], bodies[1..])))
  }

  function Wire(ids: Bytes, bodies: seq<Bytes>): Bytes
    requires Framed(ids, bodies)
  {
    if bodies == [] then [] else Frame(ids[0], bodies[0]) + Wire(ids[1..], bodies[1..])
  }

  function Packets(bodies: seq<Bytes>): (r: seq<Packet>)
    ensures |r| == |bodies|
  {
    if bodies == [] then [] else [Packet(|bodies[0]|, bodies[0])] + Packets(bodies[1..])
  }

  /** `piece` is in `data` from `start` on. */
  predicate At(data: Bytes, start: nat, piece: Bytes) {
    start + |piece| <= |data| && data[start..start + |piece|] == piece
  }

  lemma AtParts(data: Bytes, start: nat, a: Bytes, b: Bytes)
    requires At(data, start, a + b)
    ensures At(data, start, a) && At(data, start + |a|, b)
  {
    var ab := data[start..start + |a + b|];
    assert ab == a + b;
    assert data[start..start + |a|] == ab[..|a|] == a;
    assert data[start + |a|..start + |a| + |b|] == ab[|a|..] == b;
  }

  lemma SliceAt(data: Bytes, start: nat, a: Bytes)
    requires At(data, start, a)
    ensures Slice(data, start, |a|) == a
  {
  }

  lemma FrameAt(data: Bytes, offset: nat, id: char, body: Bytes)
    requires |body| < 0x10000 && At(data, offset, Frame(id, body))
    ensures PacketLength(data, offset) == |body| && offset + 4 + |body| == offset + |Frame(id, body)|
    ensures Slice(data, offset + 4, |body|) == body
  {
    var mid := [0 as char, id];
    AtParts(data, offset, Le(|body|, 2), mid + body);
    AtParts(data, offset + 2, mid, body);
    SliceAt(data, offset, Le(|body|, 2));
    SliceAt(data, offset + 4, body);
    LeRoundTrip(|body|, 2);
  }

  /** Where packets are, the first is cut off, and the others are behind it. */
  lemma WireHead(data: Bytes, offset: nat, ids: Bytes, bodies: seq<Bytes>) returns (next: nat)
    requires Framed(ids, bodies) && bodies != [] && At(data, offset, Wire(ids, bodies))
    ensures offset < |data| && Cut(data, offset) == [Packet(|bodies[0]|, bodies[0])] + Cut(data, next)
    ensures At(data, next, Wire(ids[1..], bodies[1..]))
    ensures offset + |Wire(ids, bodies)| == next + |Wire(ids[1..], bodies[1..])|
  {
    next := offset + |Frame(ids[0], bodies[0])|;
    AtParts(data, offset, Frame(ids[0], bodies[0]), Wire(ids[1..], bodies[1..]));
    FrameAt(data, offset, ids[0], bodies[0]);
  }

  /** The bytes of packets are cut into these packets again. */
  lemma {:induction false} CutWire(data: Bytes, offset: nat, ids: Bytes, bodies: seq<Bytes>)
    requires Framed(ids, bodies) && At(data, offset, Wire(ids, bodies)) && offset + |Wire(ids, bodies)| == |data|
    ensures Cut(data, offset) == Packets(bodies)
    decreases |bodies|
  {
    if bodies != [] {
      var next := WireHead(data, offset, ids, bodies);
      CutWire(data, next, ids[1..], bodies[1..]);
    }
  }

  lemma ParseOfWire(c: Control, ids: Bytes, bodies: seq<Bytes>)
    requires Framed(ids, bodies)
    ensures Walk(c, Cut(Wire(ids, bodies), 0)) == Walk(c, Packets(bodies))
  {
    var data := Wire(ids, bodies);
    CutWire(data, 0, ids, bodies);
  }

  // ---- A result set ----

  /** A string of at most 250 bytes with its length */
  function Str(s: Bytes): Bytes
    requires |s| <= 250
  {
    [|s| as char] + s
  }

  predicate AllShort(strings: seq<Bytes>) {
    strings == [] || (|strings[0]| <= 250 && AllShort(strings[1..]))
  }

  /** A column with short strings, of which the catalog is not empty, and numbers that fit. */
  predicate Short(f: Field) {
    f.catalog != [] && AllShort(f.Strings()) && Fit(f.Numbers(), SIZES)
  }

  predicate AllFieldsShort(fields: seq<Field>) {
    fields == [] || (Short(fields[0]) && AllFieldsShort(fields[1..]))
  }

  function Limit(size: nat): nat {
    if size == 1 then 0x100 else if size == 2 then 0x10000 else if size == 4 then 0x1_0000_0000 else 0
  }

  predicate Fit(numbers: seq<Option<int>>, sizes: seq<nat>) {
    && |numbers| == |sizes|
    && (numbers == [] || (numbers[0].Some? && 0 <= numbers[0].value < Limit(sizes[0]) && Fit(numbers[1..], sizes[1..])))
  }

  function Le(v: nat, n: nat): (r: Bytes)
    ensures |r| == n
  {
    if n == 0 then [] else [(v % 256) as char] + Le(v / 256, n - 1)
  }

  function Strs(strings: seq<Bytes>): Bytes
    requires AllShort(strings)
  {
    if strings == [] then [] else Str(strings[0]) + Strs(strings[1..])
  }

  function Les(numbers: seq<Option<int>>, sizes: seq<nat>): Bytes
    requires Fit(numbers, sizes)
  {
    if numbers == [] then [] else Le(numbers[0].value, sizes[0]) + Les(numbers[1..], sizes[1..])
  }

  /** The column definition of the protocol: six strings, 0x0c, the numbers and filler bytes, of which
      the first is read as the high byte of the decimals. */
  function FieldBody(f: Field): Bytes
    requires Short(f)
  {
    Strs(f.Strings()) + ([0x0c as char] + (Les(f.Numbers(), SIZES) + [0 as char]))
  }

  /** The values by the names of their columns; of columns with one name, the last counts. */
  function RowMap(fields: seq<Field>, values: seq<Bytes>, row: Row): Row
    requires |fields| == |values|
  {
    if fields == [] then row else RowMap(fields[1..], values[1..], row[fields[0].column := values[0]])
  }

  lemma StrAt(data: Bytes, start: nat, s: Bytes)
    requires |s| <= 250 && At(data, start, Str(s))
    ensures ParseFieldData(data, start) == (s, start + |Str(s)|)
    ensures Value(data, start) == (s, start + |Str(s)|)
  {
    AtParts(data, start, [|s| as char], s);
    SliceAt(data, start, [|s| as char]);
    SliceAt(data, start + 1, s);
  }

  lemma {:induction false} LeRoundTrip(v: nat, n: nat)
    requires (n == 1 && v < 256) || (n == 2 && v < 0x10000)
             || (n == 3 && v < 0x100_0000) || (n == 4 && v < 0x1_0000_0000)
    ensures LittleEndian(Le(v, n)) == v
  {
    if n > 1 {
      LeRoundTrip(v / 256, n - 1);
    }
    assert Le(v, n)[1..] == Le(v / 256, n - 1);
  }

  lemma UnpackAt(data: Bytes, start: nat, v: nat, n: nat)
    requires v < Limit(n) && At(data, start, Le(v, n))
    ensures Unpack(Slice(data, start, n), n) == Some(v) && (n == 1 ==> Ord(Slice(data, start, n)) == v)
  {
    SliceAt(data, start, Le(v, n));
    assert Le(v, n)[..n] == Le(v, n);
    LeRoundTrip(v, n);
  }

  lemma NumbersHead(data: Bytes, start: nat, numbers: seq<Option<int>>, sizes: seq<nat>)
    requires numbers != [] && Fit(numbers, sizes) && At(data, start, Les(numbers, sizes))
    ensures var s := Slice(data, start, sizes[0]);
            (if sizes[0] == 1 then Some(Ord(s)) else Unpack(s, sizes[0])) == numbers[0]
    ensures At(data, start + sizes[0], Les(numbers[1..], sizes[1..]))
  {
    var (v, n) := (numbers[0].value, sizes[0]);
    AtParts(data, start, Le(v, n), Les(numbers[1..], sizes[1..]));
    UnpackAt(data, start, v, n);
  }

  lemma {:induction false} NumbersAt(data: Bytes, start: nat, numbers: seq<Option<int>>, sizes: seq<nat>)
    requires Fit(numbers, sizes) && At(data, start, Les(numbers, sizes))
    ensures Numbers(data, start, sizes) == numbers
    decreases |numbers|
  {
    if numbers != [] {
      NumbersHead(data, start, numbers, sizes);
      NumbersAt(data, start + sizes[0], numbers[1..], sizes[1..]);
      assert numbers == [numbers[0]] + numbers[1..];
    }
  }

  /** Where strings are, the first is read, and the others are behind it. */
  lemma StringsHead(data: Bytes, start: nat, strings: seq<Bytes>) returns (next: nat)
    requires AllShort(strings) && strings != [] && At(data, start, Strs(strings))
    ensures ParseFieldData(data, start) == (strings[0], next) && Value(data, start) == (strings[0], next)
    ensures At(data, next, Strs(strings[1..]))
    ensures next + |Strs(strings[1..])| == start + |Strs(strings)|
  {
    next := start + |Str(strings[0])|;
    AtParts(data, start, Str(strings[0]), Strs(strings[1..]));
    StrAt(data, start, strings[0]);
  }

  lemma {:induction false} StringsAt(data: Bytes, start: nat, strings: seq<Bytes>)
    requires AllShort(strings) && At(data, start, Strs(strings))
    ensures Strings(data, start, |strings|) == (strings, start + |Strs(strings)|)
    decreases |strings|
  {
    if strings == [] {
      assert Strs(strings) == [] && Strings(data, start, 0) == ([], start);
    } else {
      var next := StringsHead(data, start, strings);
      StringsAt(data, next, strings[1..]);
      StringsStep(data, start, strings, next, next + |Strs(strings[1..])|);
    }
  }

  lemma StringsStep(data: Bytes, start: nat, strings: seq<Bytes>, next: nat, end: nat)
    requires strings != [] && ParseFieldData(data, start) == (strings[0], next)
    requires Strings(data, next, |strings[1..]|) == (strings[1..], end)
    ensures Strings(data, start, |strings|) == (strings, end)
  {
    assert strings == [strings[0]] + strings[1..];
  }

  /** A column definition is read back as it was written. */
  lemma FieldRoundTrip(f: Field)
    requires Short(f)
    ensures FieldOf(FieldBody(f)) == f
  {
    var data := FieldBody(f);
    var next := |Strs(f.Strings())|;
    FieldBodyParts(f);
    StringsAt(data, 0, f.Strings());
    NumbersAt(data, next + 1, f.Numbers(), SIZES);
    FieldParts(f);
    FieldFrom(data, f.Strings(), f.Numbers(), next);
  }

  lemma FieldBodyParts(f: Field)
    requires Short(f)
    ensures var (data, strs) := (FieldBody(f), Strs(f.Strings()));
            At(data, 0, strs) && At(data, |strs| + 1, Les(f.Numbers(), SIZES))
  {
    var data := FieldBody(f);
    var (strs, les) := (Strs(f.Strings()), Les(f.Numbers(), SIZES));
    AtParts(data, 0, strs, [0x0c as char] + (les + [0 as char]));
    AtParts(data, |strs|, [0x0c as char], les + [0 as char]);
    AtParts(data, |strs| + 1, les, [0 as char]);
  }

  lemma FieldParts(f: Field)
    ensures |f.Strings()| == 6 && |f.Numbers()| == 5 && MakeField(f.Strings(), f.Numbers()) == f
  {
  }

  lemma FieldFrom(data: Bytes, strings: seq<Bytes>, numbers: seq<Option<int>>, next: nat)
    requires |strings| == 6 && |numbers| == 5
    requires Strings(data, 0, 6) == (strings, next) && Numbers(data, next + 1, SIZES) == numbers
    ensures FieldOf(data) == MakeField(strings, numbers)
  {
  }

  lemma {:induction false} RowRoundTrip(fields: seq<Field>, values: seq<Bytes>, data: Bytes, start: nat, row: Row)
    requires |fields| == |values| && AllShort(values) && At(data, start, Strs(values))
    ensures RowFrom(fields, data, start, row) == RowMap(fields, values, row)
    decreases |fields|
  {
    if fields != [] {
      var next := StringsHead(data, start, values);
      RowRoundTrip(fields[1..], values[1..], data, next, row[fields[0].column := values[0]]);
    }
  }

  /** Where no two columns have one name, each value is found under its own. */
  lemma {:induction false} RowMapAt(fields: seq<Field>, values: seq<Bytes>, row: Row, i: nat)
    requires |fields| == |values| && i < |fields|
    requires forall j, k :: 0 <= j < k < |fields| ==> fields[j].column != fields[k].column
    ensures fields[i].column in RowMap(fields, values, row)
    ensures RowMap(fields, values, row)[fields[i].column] == values[i]
    decreases |fields|
  {
    var row1 := row[fields[0].column := values[0]];
    if i > 0 {
      RowMapAt(fields[1..], values[1..], row1, i - 1);
    } else {
      RowMapOther(fields[1..], values[1..], row1, fields[0].column);
    }
  }

  lemma {:induction false} RowMapOther(fields: seq<Field>, values: seq<Bytes>, row: Row, column: Bytes)
    requires |fields| == |values| && column in row
    requires forall j :: 0 <= j < |fields| ==> fields[j].column != column
    ensures column in RowMap(fields, values, row) && RowMap(fields, values, row)[column] == row[column]
    decreases |fields|
  {
    if fields != [] {
      RowMapOther(fields[1..], values[1..], row[fields[0].column := values[0]], column);
    }
  }

  function FieldBodies(fields: seq<Field>): (r: seq<Bytes>)
    requires AllFieldsShort(fields)
    ensures |r| == |fields|
  {
    if fields == [] then [] else [FieldBody(fields[0])] + FieldBodies(fields[1..])
  }

  predicate Rectangular(n: nat, rows: seq<seq<Bytes>>) {
    rows == [] || (|rows[0]| == n && AllShort(rows[0]) && Rectangular(n, rows[1..]))
  }

  function RowBodies(n: nat, rows: seq<seq<Bytes>>): (r: seq<Bytes>)
    requires Rectangular(n, rows)
    ensures |r| == |rows|
  {
    if rows == [] then [] else [Strs(rows[0])] + RowBodies(n, rows[1..])
  }

  /** A row the client takes for one: the packet of a row of several columns whose first value is
      empty looks like an OK packet. */
  predicate Readable(row: seq<Bytes>) {
    |row| == 1 || (row != [] && row[0] != [])
  }

  /** The rows before the first that is not readable */
  function Read(n: nat, rows: seq<seq<Bytes>>): (r: seq<seq<Bytes>>)
    requires Rectangular(n, rows)
    ensures Rectangular(n, r)
  {
    if rows == [] || !Readable(rows[0]) then [] else [rows[0]] + Read(n, rows[1..])
  }

  function RowMaps(fields: seq<Field>, rows: seq<seq<Bytes>>): (r: seq<Row>)
    requires Rectangular(|fields|, rows)
    ensures |r| == |rows|
  {
    if rows == [] then [] else [RowMap(fields, rows[0], map[])] + RowMaps(fields, rows[1..])
  }

  /** The bodies of an EOF packet: more than one byte, of which the first is 0xfe */
  predicate IsEof(e: Bytes) {
    |e| > 1 && e[0] == 0xfe as char
  }

  lemma FieldsCons(body: Bytes, bodies: seq<Bytes>)
    ensures FieldsOf([body] + bodies) == [FieldOf(body)] + FieldsOf(bodies)
  {
    HeadTail(body, bodies);
  }

  lemma {:induction false} FieldsRoundTrip(fields: seq<Field>)
    requires AllFieldsShort(fields)
    ensures FieldsOf(FieldBodies(fields)) == fields
  {
    if fields != [] {
      FieldRoundTrip(fields[0]);
      FieldsRoundTrip(fields[1..]);
      FieldsCons(FieldBody(fields[0]), FieldBodies(fields[1..]));
    }
  }

  lemma {:induction false} RowsRoundTrip(fields: seq<Field>, rows: seq<seq<Bytes>>)
    requires Rectangular(|fields|, rows)
    ensures RowsOf(fields, RowBodies(|fields|, rows)) == RowMaps(fields, rows)
  {
    if rows != [] {
      RowRoundTrip(fields, rows[0], Strs(rows[0]), 0, map[]);
      RowsRoundTrip(fields, rows[1..]);
      assert RowBodies(|fields|, rows)[1..] == RowBodies(|fields|, rows[1..]);
    }
  }

  lemma PacketsCons(bodies: seq<Bytes>, rest: seq<Packet>)
    requires bodies != []
    ensures var p := Packets(bodies) + rest;
            && p[0] == Packet(|bodies[0]|, bodies[0])
            && p[1..] == Packets(bodies[1..]) + rest
  {
    var first := Packet(|bodies[0]|, bodies[0]);
    Assoc([first], Packets(bodies[1..]), rest);
    HeadTail(first, Packets(bodies[1..]) + rest);
  }

  lemma ConsAppend<T>(xs: seq<T>, ys: seq<T>)
    requires xs != []
    ensures [xs[0]] + (xs[1..] + ys) == xs + ys
  {
  }

  /** Packets that are taken for columns where columns are expected */
  predicate Columns(bodies: seq<Bytes>) {
    bodies == [] || (|bodies[0]| > 1 && 0 < Ord(bodies[0]) <= 250 && Columns(bodies[1..]))
  }

  lemma {:induction false} WalkColumns(c: Control, columns: seq<Bytes>, rest: seq<Packet>)
    requires Columns(columns)
    requires c.state == 1 && c.curr + |columns| == c.num && columns != []
    ensures var r := Walk(Control(2, c.num, c.num), rest);
            Walk(c, Packets(columns) + rest) == r.(columns := columns + r.columns)
    decreases |columns|
  {
    var r := Walk(Control(2, c.num, c.num), rest);
    PacketsCons(columns, rest);
    ColumnStep(c, Packets(columns) + rest);
    ConsAppend(columns, r.columns);
    if |columns| > 1 {
      WalkColumns(c.(curr := c.curr + 1), columns[1..], rest);
    } else {
      assert Packets(columns[1..]) + rest == rest;
    }
  }

  /** The packet of a row that is not readable stops the walk. */
  lemma ReactToRow(c: Control, row: seq<Bytes>)
    requires (c.state == 2 || c.state == 201) && row != [] && AllShort(row)
    ensures React(c, Packet(|Strs(row)|, Strs(row))) == if Readable(row) then Line else Stop
  {
    assert Strs(row)[0] == |row[0]| as char;
    assert |row| > 1 ==> |Strs(row[1..])| > 0;
  }

  lemma {:induction false} WalkRows(c: Control, n: nat, rows: seq<seq<Bytes>>, rest: seq<Packet>)
    requires (c.state == 2 || c.state == 201) && n > 0 && Rectangular(n, rows)
    requires |rest| == 1 && rest[0].len > 1 && Ord(rest[0].body) == 0xfe
    ensures Leave(Walk(c, Packets(RowBodies(n, rows)) + rest))
            == Parsed(c.(state := if c.state == 2 && Read(n, rows) == [] then 2 else 0),
                      [], RowBodies(n, Read(n, rows)))
    decreases |rows|
  {
    var bodies := RowBodies(n, rows);
    var packets := Packets(bodies) + rest;
    if rows == [] {
      assert packets == rest && rest[1..] == [];
      EofStep(c, packets);
    } else {
      ReactToRow(c, rows[0]);
      PacketsCons(bodies, rest);
      if !Readable(rows[0]) {
        StopStep(c, packets);
      } else {
        LineStep(c, packets);
        WalkRows(c.(state := 201), n, rows[1..], rest);
        HeadTail(rows[0], Read(n, rows[1..]));
      }
    }
  }

  lemma {:induction false} PacketsConcat(a: seq<Bytes>, b: seq<Bytes>)
    ensures Packets(a + b) == Packets(a) + Packets(b)
  {
    if a == [] {
      assert a + b == b;
    } else {
      assert (a + b)[1..] == a[1..] + b;
      PacketsConcat(a[1..], b);
    }
  }

  /** The packets of a result set */
  function ResultSet(fields: seq<Field>, rows: seq<seq<Bytes>>, eof1: Bytes, eof2: Bytes): seq<Bytes>
    requires |fields| <= 250 && AllFieldsShort(fields) && Rectangular(|fields|, rows)
  {
    [[|fields| as char]] + (FieldBodies(fields) + ([eof1] + (RowBodies(|fields|, rows) + [eof2])))
  }

  lemma PacketsOf(fields: seq<Field>, rows: seq<seq<Bytes>>, eof1: Bytes, eof2: Bytes)
    requires |fields| <= 250 && AllFieldsShort(fields) && Rectangular(|fields|, rows)
    ensures var last := Packets([eof2]);
            var tail := [Packet(|eof1|, eof1)] + (Packets(RowBodies(|fields|, rows)) + last);
            Packets(ResultSet(fields, rows, eof1, eof2))
            == [Packet(1, [|fields| as char])] + (Packets(FieldBodies(fields)) + tail)
  {
    var rowBodies := RowBodies(|fields|, rows);
    PacketsConcat(rowBodies, [eof2]);
    PacketsConcat([eof1], rowBodies + [eof2]);
    PacketsConcat(FieldBodies(fields), [eof1] + (rowBodies + [eof2]));
    PacketsConcat([[|fields| as char]], FieldBodies(fields) + ([eof1] + (rowBodies + [eof2])));
  }

  /** The walk over a header, columns, an EOF packet, and rows with an EOF packet behind them */
  lemma WalkParts(n: nat, columns: seq<Bytes>, eof1: Packet, rows: seq<seq<Bytes>>, last: seq<Packet>)
    requires 1 <= n <= 250 && |columns| == n && Columns(columns)
    requires Rectangular(n, rows) && eof1.len > 1 && Ord(eof1.body) == 0xfe
    requires |last| == 1 && last[0].len > 1 && Ord(last[0].body) == 0xfe
    ensures Walk(RESET, [Packet(1, [n as char])] + (Packets(columns) + ([eof1] + (Packets(RowBodies(n, rows)) + last))))
            == Parsed(Control(if Read(n, rows) == [] then 2 else 0, n, n), columns, RowBodies(n, Read(n, rows)))
  {
    var body := Packets(RowBodies(n, rows)) + last;
    WalkRows(Control(2, n, n), n, rows, last);
    HeadTail(eof1, body);
    EofStep(Control(2, n, n), [eof1] + body);
    WalkColumns(Control(1, n, 0), columns, [eof1] + body);
    HeadTail(Packet(1, [n as char]), Packets(columns) + ([eof1] + body));
    HeaderStep(RESET, [Packet(1, [n as char])] + (Packets(columns) + ([eof1] + body)));
    assert columns + [] == columns;
  }

  lemma WalkResultSet(fields: seq<Field>, rows: seq<seq<Bytes>>, eof1: Bytes, eof2: Bytes)
    requires 1 <= |fields| <= 250 && AllFieldsShort(fields)
    requires Rectangular(|fields|, rows) && IsEof(eof1) && IsEof(eof2)
    ensures var n := |fields|;
            Walk(RESET, Packets(ResultSet(fields, rows, eof1, eof2)))
            == Parsed(Control(if Read(n, rows) == [] then 2 else 0, n, n),
                      FieldBodies(fields), RowBodies(n, Read(n, rows)))
  {
    PacketsOf(fields, rows, eof1, eof2);
    ColumnBodies(fields);
    assert Packets([eof2]) == [Packet(|eof2|, eof2)];
    WalkParts(|fields|, FieldBodies(fields), Packet(|eof1|, eof1), rows, Packets([eof2]));
  }

  lemma {:induction false} ColumnBodies(fields: seq<Field>)
    requires AllFieldsShort(fields)
    ensures Columns(FieldBodies(fields))
  {
    if fields != [] {
      assert FieldBody(fields[0])[0] == Strs(fields[0].Strings())[0] == |fields[0].catalog| as char;
      assert FieldBodies(fields)[1..] == FieldBodies(fields[1..]);
      ColumnBodies(fields[1..]);
    }
  }

  /** What the client makes of the bytes of a result set: the columns, and the rows up to the first
      whose packet looks like an OK packet; the final state is 0 if there is a row before that, and 2
      otherwise. */
  lemma {:induction false} ResultSetParses(fields: seq<Field>, rows: seq<seq<Bytes>>,
                                           eof1: Bytes, eof2: Bytes, ids: Bytes)
    requires 1 <= |fields| <= 250 && AllFieldsShort(fields)
    requires Rectangular(|fields|, rows) && IsEof(eof1) && IsEof(eof2)
    requires Framed(ids, ResultSet(fields, rows, eof1, eof2))
    ensures var n := |fields|;
            var r := Walk(RESET, Cut(Wire(ids, ResultSet(fields, rows, eof1, eof2)), 0));
            && r.control == Control(if Read(n, rows) == [] then 2 else 0, n, n)
            && FieldsOf(r.columns) == fields
            && RowsOf(fields, r.rows) == RowMaps(fields, Read(n, rows))
  {
    ParseOfWire(RESET, ids, ResultSet(fields, rows, eof1, eof2));
    WalkResultSet(fields, rows, eof1, eof2);
    FieldsRoundTrip(fields);
    RowsRoundTrip(fields, Read(|fields|, rows));
  }

  lemma {:induction false} ReadIsPrefix(n: nat, rows: seq<seq<Bytes>>)
    requires Rectangular(n, rows)
    ensures var r := Read(n, rows);
            && r <= rows
            && (forall i :: 0 <= i < |r| ==> Readable(rows[i]))
            && (|r| < |rows| ==> !Readable(rows[|r|]))
  {
    if rows != [] && Readable(rows[0]) {
      ReadIsPrefix(n, rows[1..]);
    }
  }

  /** A result set comes back, and the client is ready for the next, exactly when there is a row and
      no row of several columns starts with an empty value. */
  lemma ResultSetRoundTrip(fields: seq<Field>, rows: seq<seq<Bytes>>, eof1: Bytes, eof2: Bytes, ids: Bytes)
    requires 1 <= |fields| <= 250 && AllFieldsShort(fields)
    requires Rectangular(|fields|, rows) && IsEof(eof1) && IsEof(eof2)
    requires Framed(ids, ResultSet(fields, rows, eof1, eof2))
    ensures var r := Walk(RESET, Cut(Wire(ids, ResultSet(fields, rows, eof1, eof2)), 0));
            (RowsOf(fields, r.rows) == RowMaps(fields, rows) && r.control.state == 0)
            <==> rows != [] && forall i :: 0 <= i < |rows| ==> Readable(rows[i])
  {
    ResultSetParses(fields, rows, eof1, eof2, ids);
    AllRead(fields, rows);
  }

  /** What an object that was reset has after it took a result set */
  lemma ResultSetTaken(fields: seq<Field>, rows: seq<seq<Bytes>>, eof1: Bytes, eof2: Bytes, ids: Bytes)
    requires 1 <= |fields| <= 250 && AllFieldsShort(fields)
    requires Rectangular(|fields|, rows) && IsEof(eof1) && IsEof(eof2)
    requires Framed(ids, ResultSet(fields, rows, eof1, eof2))
    ensures var n := |fields|;
            var data := Wire(ids, ResultSet(fields, rows, eof1, eof2));
            Take(Content(RESET, [], []), Walk(RESET, Cut(data, 0)))
            == Content(Control(if Read(n, rows) == [] then 2 else 0, n, n), fields, RowMaps(fields, Read(n, rows)))
  {
    ResultSetParses(fields, rows, eof1, eof2, ids);
    EmptyLeft(fields);
    EmptyLeft(RowMaps(fields, Read(|fields|, rows)));
  }

  /** query2, behind the sending of the statement: `data` is what was received for it. Of a result set the
      object has the columns, and the rows that can be read; it is ready for the next one if and only if
      there is a row that can. */
  method Query(client: Client, data: Bytes, ghost fields: seq<Field>, ghost rows: seq<seq<Bytes>>, ghost eof1: Bytes,
               ghost eof2: Bytes, ghost ids: Bytes) returns (result: seq<Row>)
    requires 1 <= |fields| <= 250 && AllFieldsShort(fields)
    requires Rectangular(|fields|, rows) && IsEof(eof1) && IsEof(eof2)
    requires Framed(ids, ResultSet(fields, rows, eof1, eof2)) && data == Wire(ids, ResultSet(fields, rows, eof1, eof2))
    modifies client
    ensures client.resultFields == fields
    ensures result == client.resultRows == RowMaps(fields, Read(|fields|, rows))
    ensures client.resultState == if Read(|fields|, rows) == [] then 2 else 0
    ensures (result == RowMaps(fields, rows) && client.resultState == 0)
            <==> rows != [] && forall i :: 0 <= i < |rows| ==> Readable(rows[i])
  {
    client.Reset();
    client.ParseReadPacket(data, 0);
    result := client.resultRows;
    ResultSetTaken(fields, rows, eof1, eof2, ids);
    AllRead(fields, rows);
  }

  lemma AllRead(fields: seq<Field>, rows: seq<seq<Bytes>>)
    requires fields != [] && Rectangular(|fields|, rows)
    ensures var read := Read(|fields|, rows);
            (RowMaps(fields, read) == RowMaps(fields, rows) && read != [])
            <==> rows != [] && forall i :: 0 <= i < |rows| ==> Readable(rows[i])
  {
    var read := Read(|fields|, rows);
    ReadIsPrefix(|fields|, rows);
    if |read| == |rows| {
      assert read == rows;
    } else {
      assert |RowMaps(fields, read)| == |read|;
    }
  }
}
