/**
 Binding the arguments of a call into its frame, as in ngx_http_php8_zend_uthread.c: positional
 arguments, and named ones that are looked up by parameter name and may leave gaps.
 */
module NamedArgs {
  import opened Common

  /** A value, a reference to one, or the placeholder that zend_hash_add_empty_element puts. */
  datatype Val = Null | Plain(v: int) | Ref(v: int)

  /** An argument, and whether a warning about it is turned into an exception by the error handler. */
  datatype Arg = Arg(val: Val, throws: bool)

  /** How a parameter is sent. */
  datatype Mode = ByValue | ByRef | PreferRef

  /** A function: its parameters, the mode of a variadic one if it has one. */
  datatype Fn = Fn(names: seq<string>, modes: seq<Mode>, variadic: Option<Mode>, trampoline: bool) {
    predicate Valid() { |names| == |modes| }

    function ModeOf(offset: nat): Mode
      requires Valid()
    {
      if offset < |modes| then modes[offset] else if variadic.Some? then variadic.value else ByValue
    }
  }

  /** A slot of the frame: memory that nothing was written to, UNDEF, or an argument. */
  datatype Slot = Garbage | Undef | Bound(val: Val)

  /** The slots below the argument count, ZEND_CALL_MAY_HAVE_UNDEF, ZEND_CALL_HAS_EXTRA_NAMED_PARAMS
      and the extra named parameters. */
  datatype Frame = Frame(slots: seq<Slot>, mayUndef: bool, hasExtra: bool, extra: map<string, Val>)

  datatype Status = Ok | Unknown | Overwrites | NotByRef | PositionalAfterNamed

  function FindName(names: seq<string>, name: string, i: nat): (r: nat)
    requires i <= |names|
    ensures i <= r <= |names|
    ensures r < |names| ==> names[r] == name
    ensures forall j :: i <= j < r ==> names[j] != name
    decreases |names| - i
  {
    if i == |names| || names[i] == name then i else FindName(names, name, i + 1)
  }

  /** The offset a name stands for: a parameter's, or that of the variadic one. */
  function Lookup(fn: Fn, name: string): (r: Option<nat>)
    ensures r.Some? ==> r.value <= |fn.names|
  {
    var i := FindName(fn.names, name, 0);
    if i < |fn.names| || fn.variadic.Some? then Some(i) else None
  }

  /** What is stored for `arg`, or nothing if the warning about it turned into an exception. */
  function Pass(fn: Fn, offset: nat, arg: Arg): Option<Val>
    requires fn.Valid()
  {
    var (mode, v) := (fn.ModeOf(offset), arg.val);
    if mode != ByValue then
      if !v.Ref? && mode != PreferRef && arg.throws then None else Some(v)
    else
      Some(if v.Ref? && !fn.trampoline then Plain(v.v) else v)
  }

  function Repeat(x: Slot, n: nat): (r: seq<Slot>)
    ensures |r| == n && forall i :: 0 <= i < n ==> r[i] == x
  {
    if n == 0 then [] else [x] + Repeat(x, n - 1)
  }

  /** handle_named_arg: makes room for the argument and finds its place. */
  function Handle(fn: Fn, fr: Frame, name: string): (r: (Frame, Status, nat))
    ensures r.1 == Ok ==> r.2 <= |fn.names| && (r.2 < |fn.names| ==> r.2 < |r.0.slots|)
  {
    match Lookup(fn, name)
    case None => (fr, Unknown, 0)
    case Some(off) =>
      var n := |fr.slots|;
      if off == |fn.names| then
        var fr1 := fr.(hasExtra := true);
        if name in fr.extra then (fr1, Overwrites, off) else (fr1.(extra := fr.extra[name := Null]), Ok, off)
      else if off >= n then
        (fr.(slots := fr.slots + Repeat(Undef, off - n) + [Garbage], mayUndef := fr.mayUndef || off > n), Ok, off)
      else if fr.slots[off] != Undef then (fr, Overwrites, off)
      else (fr, Ok, off)
  }

  /** The ZVAL_COPY into the place that was found. */
  function Write(fn: Fn, fr: Frame, name: string, off: nat, v: Val): Frame
    requires off < |fn.names| ==> off < |fr.slots|
  {
    if off == |fn.names| then fr.(extra := fr.extra[name := v])
    else if off < |fr.slots| then fr.(slots := fr.slots[off := Bound(v)])
    else fr
  }

  /** One named argument of zend_call_function */
  function Bind(fn: Fn, fr: Frame, name: string, arg: Arg): (Frame, Status)
    requires fn.Valid()
  {
    var (fr1, st, off) := Handle(fn, fr, name);
    if st != Ok then (fr1, st)
    else match Pass(fn, off, arg)
      case None => (fr1, NotByRef)
      case Some(v) => (Write(fn, fr1, name, off, v), Ok)
  }

  type Args = seq<(string, Arg)>

  /** The items of the table, with or without a name */
  type Items = seq<(Option<string>, Arg)>

  /** The named arguments in the order of the table; the first failure ends the binding. */
  function BindAll(fn: Fn, fr: Frame, args: Args): (Frame, Status)
    requires fn.Valid()
    decreases |args|
  {
    if args == [] then (fr, Ok)
    else
      var (fr1, st) := Bind(fn, fr, args[0].0, args[0].1);
      if st != Ok then (fr1, st) else BindAll(fn, fr1, args[1..])
  }

  // ---- What every frame keeps ----

  /** Every slot below the argument count is an argument or UNDEF, and UNDEF is announced. */
  predicate FrameOk(fr: Frame) {
    && Garbage !in fr.slots
    && (Undef in fr.slots ==> fr.mayUndef)
  }

  /** An argument for a parameter that must be a reference, is none, and for which the warning becomes an
      exception */
  predicate Unpassable(fn: Fn, offset: nat, arg: Arg)
    requires fn.Valid()
  {
    fn.ModeOf(offset) == ByRef && !arg.val.Ref? && arg.throws
  }

  /** Such an argument by name, for a parameter beyond the argument count `n` */
  predicate LeavesUnwritten(fn: Fn, n: nat, name: string, arg: Arg)
    requires fn.Valid()
  {
    var off := FindName(fn.names, name, 0);
    n <= off < |fn.names| && Unpassable(fn, off, arg)
  }

  /** No bind overwrites an argument. The frame stays well formed, with one exception: an argument that
      cannot be passed, to a parameter beyond the argument count, leaves a slot below the new count that
      nothing was written to. */
  lemma BindKeeps(fn: Fn, fr: Frame, name: string, arg: Arg)
    requires fn.Valid() && FrameOk(fr)
    ensures var r := Bind(fn, fr, name, arg).0;
            && |fr.slots| <= |r.slots|
            && (forall i :: 0 <= i < |fr.slots| && fr.slots[i].Bound? ==> r.slots[i] == fr.slots[i])
            && (forall n :: n in fr.extra ==> n in r.extra && r.extra[n] == fr.extra[n])
            && (FrameOk(r) <==> !LeavesUnwritten(fn, |fr.slots|, name, arg))
  {
  }

  /** The frame of a failed call can hold an unwritten slot: f(&$a) called with a: 1. */
  lemma UnwrittenSlot()
    ensures var fn := Fn(["a"], [ByRef], None, false);
            var (r, st) := Bind(fn, Frame([], false, false, map[]), "a", Arg(Plain(1), true));
            st == NotByRef && r.slots == [Garbage]
  {
  }

  // ---- The meaning of a set of named arguments ----

  /** The offset of a name that is known. */
  function Off(fn: Fn, name: string): nat {
    match Lookup(fn, name) case Some(i) => i case None => 0
  }

  /** An argument that can be bound on its own to the frame the positional arguments left. */
  predicate Bindable(fn: Fn, fr: Frame, name: string, arg: Arg)
    requires fn.Valid()
  {
    && Lookup(fn, name).Some?
    && (Off(fn, name) < |fr.slots| && Off(fn, name) < |fn.names| ==> fr.slots[Off(fn, name)] == Undef)
    && (Off(fn, name) == |fn.names| ==> name !in fr.extra)
    && Pass(fn, Off(fn, name), arg).Some?
  }

  predicate Positional(fn: Fn, m: map<string, Arg>, i: nat) {
    i < |fn.names| && fn.names[i] in m && Off(fn, fn.names[i]) == i
  }

  /** The content of slot `i` when the arguments of `m` were bound to frame `fr0`. */
  function SlotOf(fn: Fn, fr0: Frame, m: map<string, Arg>, i: nat): Slot
    requires fn.Valid()
  {
    if Positional(fn, m, i) then
      match Pass(fn, i, m[fn.names[i]]) case Some(v) => Bound(v) case None => Garbage
    else if i < |fr0.slots| then fr0.slots[i]
    else Undef
  }

  /** The argument count is the least that covers the old one and every parameter named. */
  ghost predicate CountOk(fn: Fn, m: map<string, Arg>, n0: nat, n: nat) {
    && n0 <= n
    && (forall i: nat :: Positional(fn, m, i) ==> i < n)
    && (n > n0 ==> Positional(fn, m, n - 1))
  }

  ghost predicate SlotsOk(fn: Fn, fr0: Frame, m: map<string, Arg>, slots: seq<Slot>)
    requires fn.Valid()
  {
    forall i {:trigger slots[i]} :: 0 <= i < |slots| ==> slots[i] == SlotOf(fn, fr0, m, i)
  }

  predicate Collected(fn: Fn, m: map<string, Arg>, n: string) {
    n in m && Off(fn, n) == |fn.names|
  }

  /** The names that stand for no parameter are collected. */
  ghost predicate ExtraOk(fn: Fn, fr0: Frame, m: map<string, Arg>, extra: map<string, Val>)
    requires fn.Valid()
  {
    && (forall n :: n in extra <==> n in fr0.extra || Collected(fn, m, n))
    && (forall n :: n in extra ==>
          if Collected(fn, m, n) then Pass(fn, |fn.names|, m[n]) == Some(extra[n])
          else extra[n] == fr0.extra[n])
  }

  /** `fr` is what binding the arguments of `m` to `fr0` is to give, whatever their order. */
  ghost predicate Means(fn: Fn, fr0: Frame, m: map<string, Arg>, fr: Frame)
    requires fn.Valid()
  {
    && CountOk(fn, m, |fr0.slots|, |fr.slots|)
    && SlotsOk(fn, fr0, m, fr.slots)
    && ExtraOk(fn, fr0, m, fr.extra)
    && (fr.hasExtra <==> fr0.hasExtra || exists n :: Collected(fn, m, n))
  }

  lemma MeansUnique(fn: Fn, fr0: Frame, m: map<string, Arg>, a: Frame, b: Frame)
    requires fn.Valid() && Means(fn, fr0, m, a) && Means(fn, fr0, m, b)
    ensures a.slots == b.slots && a.extra == b.extra && a.hasExtra == b.hasExtra
  {
    assert |a.slots| == |b.slots|;
    assert forall n :: n in a.extra <==> n in b.extra;
    assert forall n :: n in a.extra ==> a.extra[n] == b.extra[n];
  }

  // ---- Order does not matter ----

  /** Adding a name to the set changes what it means for that name's place only. */
  lemma AddName(fn: Fn, fr0: Frame, m: map<string, Arg>, name: string, arg: Arg, i: nat)
    requires fn.Valid() && name !in m && Lookup(fn, name).Some?
    ensures var m1 := m[name := arg];
            if i == Off(fn, name) && i < |fn.names| then
              !Positional(fn, m, i) && Positional(fn, m1, i)
            else
              && Positional(fn, m1, i) == Positional(fn, m, i)
              && SlotOf(fn, fr0, m1, i) == SlotOf(fn, fr0, m, i)
  {
    if i < |fn.names| {
      assert fn.names[i] == name ==> Off(fn, name) <= i;
    }
  }

  lemma CollectedAfter(fn: Fn, m: map<string, Arg>, name: string, arg: Arg, n: string)
    ensures Collected(fn, m[name := arg], n) == (if n == name then Off(fn, name) == |fn.names| else Collected(fn, m, n))
  {
  }

  lemma BindMeans(fn: Fn, fr0: Frame, m: map<string, Arg>, fr: Frame, name: string, arg: Arg)
    requires fn.Valid() && Means(fn, fr0, m, fr) && name !in m
    ensures Bind(fn, fr, name, arg).1 == Ok <==> Bindable(fn, fr0, name, arg)
    ensures Bind(fn, fr, name, arg).1 == Ok ==>
              Means(fn, fr0, m[name := arg], Bind(fn, fr, name, arg).0)
  {
    if Lookup(fn, name).Some? {
      if Off(fn, name) == |fn.names| {
        BindExtraMeans(fn, fr0, m, fr, name, arg);
      } else {
        BindSlotMeans(fn, fr0, m, fr, name, arg);
      }
    }
  }

  lemma BindExtraMeans(fn: Fn, fr0: Frame, m: map<string, Arg>, fr: Frame, name: string, arg: Arg)
    requires fn.Valid() && Means(fn, fr0, m, fr) && name !in m && Lookup(fn, name) == Some(|fn.names|)
    ensures Bind(fn, fr, name, arg).1 == Ok <==> Bindable(fn, fr0, name, arg)
    ensures Bind(fn, fr, name, arg).1 == Ok ==>
              Means(fn, fr0, m[name := arg], Bind(fn, fr, name, arg).0)
  {
    assert name in fr.extra <==> name in fr0.extra;
    var (r, st) := Bind(fn, fr, name, arg);
    if st == Ok {
      var m1 := m[name := arg];
      var v := Pass(fn, |fn.names|, arg).value;
      assert r.slots == fr.slots && r.extra == fr.extra[name := v] && r.hasExtra;
      forall i: nat ensures Positional(fn, m1, i) == Positional(fn, m, i)
                         && SlotOf(fn, fr0, m1, i) == SlotOf(fn, fr0, m, i) {
        AddName(fn, fr0, m, name, arg, i);
      }
      assert CountOk(fn, m1, |fr0.slots|, |r.slots|);
      assert SlotsOk(fn, fr0, m1, r.slots);
      ExtraAfter(fn, fr0, m, fr.extra, name, arg);
      assert Collected(fn, m1, name);
    }
  }

  lemma ExtraAfter(fn: Fn, fr0: Frame, m: map<string, Arg>, extra: map<string, Val>,
                   name: string, arg: Arg)
    requires fn.Valid() && ExtraOk(fn, fr0, m, extra) && name !in m && Lookup(fn, name) == Some(|fn.names|)
    requires name !in extra && Pass(fn, |fn.names|, arg).Some?
    ensures ExtraOk(fn, fr0, m[name := arg], extra[name := Pass(fn, |fn.names|, arg).value])
  {
    forall n ensures Collected(fn, m[name := arg], n) == (n == name || Collected(fn, m, n)) {
      CollectedAfter(fn, m, name, arg, n);
    }
  }

  lemma BindSlotMeans(fn: Fn, fr0: Frame, m: map<string, Arg>, fr: Frame, name: string, arg: Arg)
    requires fn.Valid() && Means(fn, fr0, m, fr) && name !in m
    requires Lookup(fn, name).Some? && Off(fn, name) < |fn.names|
    ensures Bind(fn, fr, name, arg).1 == Ok <==> Bindable(fn, fr0, name, arg)
    ensures Bind(fn, fr, name, arg).1 == Ok ==>
              Means(fn, fr0, m[name := arg], Bind(fn, fr, name, arg).0)
  {
    var off := Off(fn, name);
    AddName(fn, fr0, m, name, arg, off);
    if off < |fr.slots| {
      assert fr.slots[off] == SlotOf(fn, fr0, m, off);
    }
    var (r, st) := Bind(fn, fr, name, arg);
    if st == Ok {
      var m1 := m[name := arg];
      SlotsAfter(fn, fr, name, arg);
      forall i: nat ensures i == off || Positional(fn, m1, i) == Positional(fn, m, i) {
        AddName(fn, fr0, m, name, arg, i);
      }
      assert CountOk(fn, m1, |fr0.slots|, |r.slots|);
      forall i {:trigger r.slots[i]} | 0 <= i < |r.slots| ensures r.slots[i] == SlotOf(fn, fr0, m1, i) {
        AddName(fn, fr0, m, name, arg, i);
        if i != off && i < |fr.slots| {
          assert fr.slots[i] == SlotOf(fn, fr0, m, i);
        }
      }
      forall n ensures Collected(fn, m1, n) == Collected(fn, m, n) {
        CollectedAfter(fn, m, name, arg, n);
      }
      assert ExtraOk(fn, fr0, m1, r.extra);
    }
  }

  /** The slots after a successful bind to a parameter. */
  lemma SlotsAfter(fn: Fn, fr: Frame, name: string, arg: Arg)
    requires fn.Valid() && Lookup(fn, name).Some? && Off(fn, name) < |fn.names|
    requires Bind(fn, fr, name, arg).1 == Ok
    ensures var (r, off) := (Bind(fn, fr, name, arg).0, Off(fn, name));
            && |r.slots| == (if off >= |fr.slots| then off + 1 else |fr.slots|)
            && r.slots[off] == Bound(Pass(fn, off, arg).value)
            && (forall i {:trigger r.slots[i]} :: 0 <= i < |r.slots| && i != off ==>
                  r.slots[i] == if i < |fr.slots| then fr.slots[i] else Undef)
            && r.extra == fr.extra && r.hasExtra == fr.hasExtra
  {
  }

  function ToMap(args: Args): map<string, Arg> {
    if args == [] then map[] else ToMap(args[1..])[args[0].0 := args[0].1]
  }

  /** No name comes twice, as in the table the arguments come from. */
  predicate Distinct(args: Args) {
    args == [] || (args[0].0 !in ToMap(args[1..]) && Distinct(args[1..]))
  }

  ghost predicate AllBindable(fn: Fn, fr: Frame, m: map<string, Arg>)
    requires fn.Valid()
  {
    forall n :: n in m ==> Bindable(fn, fr, n, m[n])
  }

  lemma MapCons(m: map<string, Arg>, args: Args)
    requires args != [] && Distinct(args) && ToMap(args).Keys !! m.Keys
    ensures var m1 := m[args[0].0 := args[0].1];
            && args[0].0 !in m && ToMap(args[1..]).Keys !! m1.Keys && Distinct(args[1..])
            && m1 + ToMap(args[1..]) == m + ToMap(args)
  {
    assert args[0].0 in ToMap(args).Keys;
    assert ToMap(args[1..]).Keys <= ToMap(args).Keys;
  }

  /** Binding succeeds exactly when each argument could be bound on its own, and then the frame is
      what the set of them means. */
  lemma {:induction false} BindAllMeans(fn: Fn, fr0: Frame, m: map<string, Arg>, fr: Frame, args: Args)
    requires fn.Valid() && Whole(Means(fn, fr0, m, fr)) && Distinct(args) && ToMap(args).Keys !! m.Keys
    ensures BindAll(fn, fr, args).1 == Ok <==> AllBindable(fn, fr0, ToMap(args))
    ensures BindAll(fn, fr, args).1 == Ok ==>
              Whole(Means(fn, fr0, m + ToMap(args), BindAll(fn, fr, args).0))
    decreases |args|
  {
    if args == [] {
      assert m + map[] == m;
    } else {
      var (name, arg) := args[0];
      var (m1, rest) := (m[name := arg], ToMap(args[1..]));
      MapCons(m, args);
      AllBindableCons(fn, fr0, rest, name, arg);
      var (fr1, st) := Bind(fn, fr, name, arg);
      assert (st == Ok <==> Bindable(fn, fr0, name, arg))
          && (st == Ok ==> Whole(Means(fn, fr0, m1, fr1))) by {
        BindMeans(fn, fr0, m, fr, name, arg);
      }
      if st == Ok {
        BindAllMeans(fn, fr0, m1, fr1, args[1..]);
      }
    }
  }

  lemma AllBindableCons(fn: Fn, fr: Frame, m: map<string, Arg>, name: string, arg: Arg)
    requires fn.Valid() && name !in m
    ensures AllBindable(fn, fr, m[name := arg])
            <==> Bindable(fn, fr, name, arg) && AllBindable(fn, fr, m)
  {
    var m1 := m[name := arg];
    if AllBindable(fn, fr, m1) {
      assert name in m1;
      forall n | n in m ensures Bindable(fn, fr, n, m[n]) {
        assert n in m1 && m1[n] == m[n];
      }
    }
  }

  /** Whether binding succeeds, the slots, the argument count and the extra named parameters do not
      depend on the order in which distinct names are processed. */
  lemma OrderIrrelevant(fn: Fn, fr: Frame, a: Args, b: Args)
    requires fn.Valid() && Distinct(a) && Distinct(b) && ToMap(a) == ToMap(b)
    ensures BindAll(fn, fr, a).1 == Ok <==> BindAll(fn, fr, b).1 == Ok
    ensures BindAll(fn, fr, a).1 == Ok ==>
              var (x, y) := (BindAll(fn, fr, a).0, BindAll(fn, fr, b).0);
              x.slots == y.slots && x.extra == y.extra && x.hasExtra == y.hasExtra
  {
    var m0: map<string, Arg> := map[];
    NothingMeans(fn, fr);
    BindAllMeans(fn, fr, m0, fr, a);
    BindAllMeans(fn, fr, m0, fr, b);
    assert m0 + ToMap(a) == ToMap(a) == m0 + ToMap(b);
    if BindAll(fn, fr, a).1 == Ok {
      MeansUnique(fn, fr, ToMap(a), BindAll(fn, fr, a).0, BindAll(fn, fr, b).0);
    }
  }

  lemma NothingMeans(fn: Fn, fr: Frame)
    requires fn.Valid()
    ensures Means(fn, fr, map[], fr)
  {
  }

  /** The flag that announces UNDEF slots does depend on the order: naming b before a leaves a gap
      that is filled later. */
  lemma FlagDependsOnOrder()
    ensures var fn := Fn(["a", "b"], [ByValue, ByValue], None, false);
            var fr := Frame([], false, false, map[]);
            var a, b := ("a", Arg(Plain(1), false)), ("b", Arg(Plain(2), false));
            && BindAll(fn, fr, [a, b]) == (Frame([Bound(Plain(1)), Bound(Plain(2))], false, false, map[]), Ok)
            && BindAll(fn, fr, [b, a]) == (Frame([Bound(Plain(1)), Bound(Plain(2))], true, false, map[]), Ok)
  {
    var fn := Fn(["a", "b"], [ByValue, ByValue], None, false);
    var fr := Frame([], false, false, map[]);
    var none: Args := [];
    var a, b := ("a", Arg(Plain(1), false)), ("b", Arg(Plain(2), false));
    assert Lookup(fn, "a") == Some(0);
    assert FindName(fn.names, "b", 1) == 1;
    assert Lookup(fn, "b") == Some(1);
    var fa := Bind(fn, fr, "a", a.1).0;
    assert fa == Frame([Bound(Plain(1))], false, false, map[]);
    assert [a, b][1..] == [b] && [b][1..] == none;
    SlotsAfter(fn, fa, "b", b.1);
    assert Bind(fn, fa, "b", b.1).0.slots == [Bound(Plain(1)), Bound(Plain(2))];
    assert Bind(fn, fa, "b", b.1) == (Frame([Bound(Plain(1)), Bound(Plain(2))], false, false, map[]), Ok);
    assert BindAll(fn, fa, [b]) == Bind(fn, fa, "b", b.1);
    var fb := Bind(fn, fr, "b", b.1).0;
    assert fb == Frame([Undef, Bound(Plain(2))], true, false, map[]);
    assert [b, a][1..] == [a] && [a][1..] == none;
    SlotsAfter(fn, fb, "a", a.1);
    assert Bind(fn, fb, "a", a.1).0.slots == [Bound(Plain(1)), Bound(Plain(2))];
    assert Bind(fn, fb, "a", a.1) == (Frame([Bound(Plain(1)), Bound(Plain(2))], true, false, map[]), Ok);
    assert BindAll(fn, fb, [a]) == Bind(fn, fb, "a", a.1);
  }

  // ---- zend_call_function ----

  /** The arguments passed by position; one that is not given is forwarded as UNDEF. */
  function SendParams(fn: Fn, fr: Frame, params: seq<Option<Arg>>): (Frame, Status)
    requires fn.Valid()
    decreases |params|
  {
    if params == [] then (fr, Ok)
    else match params[0]
      case None => SendParams(fn, fr.(slots := fr.slots + [Undef], mayUndef := true), params[1..])
      case Some(arg) => match Pass(fn, |fr.slots|, arg)
        case None => (fr, NotByRef)
        case Some(v) => SendParams(fn, fr.(slots := fr.slots + [Bound(v)]), params[1..])
  }

  /** The table of further arguments: items without a name go to the next position, but not after one
      with a name. */
  function SendTable(fn: Fn, fr: Frame, named: bool, items: Items): (Frame, Status)
    requires fn.Valid()
    decreases |items|
  {
    if items == [] then (fr, Ok)
    else match items[0].0
      case Some(name) =>
        var (fr1, st) := Bind(fn, fr, name, items[0].1);
        if st != Ok then (fr1, st) else SendTable(fn, fr1, true, items[1..])
      case None =>
        if named then (fr, PositionalAfterNamed)
        else match Pass(fn, |fr.slots|, items[0].1)
          case None => (fr, NotByRef)
          case Some(v) => SendTable(fn, fr.(slots := fr.slots + [Bound(v)]), false, items[1..])
  }

  const EMPTY := Frame([], false, false, map[])

  function CallFrame(fn: Fn, params: seq<Option<Arg>>, items: Items): (Frame, Status)
    requires fn.Valid()
  {
    var (fr, st) := SendParams(fn, EMPTY, params);
    if st != Ok then (fr, st) else SendTable(fn, fr, false, items)
  }

  function Named(args: Args): Items {
    if args == [] then [] else [(Some(args[0].0), args[0].1)] + Named(args[1..])
  }

  /** A table of names is bound name by name. */
  lemma {:induction false} TableOfNames(fn: Fn, fr: Frame, named: bool, args: Args)
    requires fn.Valid()
    ensures SendTable(fn, fr, named, Named(args)) == BindAll(fn, fr, args)
    decreases |args|
  {
    if args != [] {
      assert Named(args)[1..] == Named(args[1..]);
      var (fr1, st) := Bind(fn, fr, args[0].0, args[0].1);
      if st == Ok {
        TableOfNames(fn, fr1, true, args[1..]);
      }
    }
  }

  /** Every argument of `a` is still in its place in `b`. */
  predicate Extends(a: Frame, b: Frame) {
    && |a.slots| <= |b.slots|
    && forall i :: 0 <= i < |a.slots| && a.slots[i].Bound? ==> b.slots[i] == a.slots[i]
  }

  lemma {:induction false} ParamsKeep(fn: Fn, fr: Frame, params: seq<Option<Arg>>)
    requires fn.Valid() && FrameOk(fr)
    ensures var (r, st) := SendParams(fn, fr, params);
            && FrameOk(r) && Extends(fr, r)
            && (st == Ok ==> |r.slots| == |fr.slots| + |params|)
    decreases |params|
  {
    if params != [] {
      var next := match params[0]
        case None => Some(fr.(slots := fr.slots + [Undef], mayUndef := true))
        case Some(arg) => match Pass(fn, |fr.slots|, arg)
          case None => None
          case Some(v) => Some(fr.(slots := fr.slots + [Bound(v)]));
      if next.Some? {
        ParamsKeep(fn, next.value, params[1..]);
      }
    }
  }

  /** The argument count after a name is bound at count `n` */
  function NextCount(fn: Fn, n: nat, name: string): nat {
    var off := Off(fn, name);
    if n <= off < |fn.names| then off + 1 else n
  }

  /** Of the names from here on, the first that cannot be bound is one that leaves an unwritten slot.
      `fr` is the frame the positional arguments left, `n` the argument count that was reached, and
      `seen` the names so far. */
  predicate NamesBreak(fn: Fn, fr: Frame, seen: set<string>, n: nat, items: Items)
    requires fn.Valid()
    decreases |items|
  {
    && items != [] && items[0].0.Some? && items[0].0.value !in seen
    && var (name, arg) := (items[0].0.value, items[0].1);
       if Bindable(fn, fr, name, arg) then NamesBreak(fn, fr, seen + {name}, NextCount(fn, n, name), items[1..])
       else LeavesUnwritten(fn, n, name, arg)
  }

  /** The same for a table, whose items without a name come first */
  predicate TableBreaks(fn: Fn, fr: Frame, items: Items)
    requires fn.Valid()
    decreases |items|
  {
    && items != []
    && match items[0].0
       case Some(_) => NamesBreak(fn, fr, {}, |fr.slots|, items)
       case None =>
         match Pass(fn, |fr.slots|, items[0].1)
         case Some(v) => TableBreaks(fn, fr.(slots := fr.slots + [Bound(v)]), items[1..])
         case None => false
  }

  predicate AllPass(fn: Fn, n: nat, params: seq<Option<Arg>>)
    requires fn.Valid()
    decreases |params|
  {
    params == [] || ((params[0].Some? ==> !Unpassable(fn, n, params[0].value)) && AllPass(fn, n + 1, params[1..]))
  }

  lemma {:induction false} ParamsPass(fn: Fn, fr: Frame, params: seq<Option<Arg>>)
    requires fn.Valid()
    ensures SendParams(fn, fr, params).1 == Ok <==> AllPass(fn, |fr.slots|, params)
    decreases |params|
  {
    if params != [] {
      match params[0]
      case None => ParamsPass(fn, fr.(slots := fr.slots + [Undef], mayUndef := true), params[1..]);
      case Some(arg) =>
        match Pass(fn, |fr.slots|, arg)
        case None =>
        case Some(v) => ParamsPass(fn, fr.(slots := fr.slots + [Bound(v)]), params[1..]);
    }
  }

  lemma BindCount(fn: Fn, fr: Frame, name: string, arg: Arg)
    requires fn.Valid() && Bind(fn, fr, name, arg).1 == Ok
    ensures |Bind(fn, fr, name, arg).0.slots| == NextCount(fn, |fr.slots|, name)
    ensures Bind(fn, fr, name, arg).0.mayUndef == (fr.mayUndef || |fr.slots| < Off(fn, name) < |fn.names|)
  {
  }

  /** A name that was bound before is not bound again, and the frame stays well formed. */
  lemma SeenFails(fn: Fn, fr0: Frame, m: map<string, Arg>, fr: Frame, name: string, arg: Arg)
    requires fn.Valid() && Means(fn, fr0, m, fr) && FrameOk(fr) && name in m
    ensures Bind(fn, fr, name, arg).1 != Ok && FrameOk(Bind(fn, fr, name, arg).0)
  {
    var off := Off(fn, name);
    if Lookup(fn, name).Some? && off < |fn.names| {
      assert Positional(fn, m, off);
      assert fr.slots[off] == SlotOf(fn, fr0, m, off);
      assert fr.slots[off] in fr.slots;
    } else if Lookup(fn, name).Some? {
      assert Collected(fn, m, name);
    }
  }

  lemma {:induction false} NamesKeep(fn: Fn, fr0: Frame, m: map<string, Arg>, fr: Frame, items: Items)
    requires fn.Valid() && Whole(Means(fn, fr0, m, fr)) && FrameOk(fr)
    ensures FrameOk(SendTable(fn, fr, true, items).0) <==> !NamesBreak(fn, fr0, m.Keys, |fr.slots|, items)
    decreases |items|
  {
    if items != [] && items[0].0.Some? {
      var (name, arg) := (items[0].0.value, items[0].1);
      var (fr1, st) := Bind(fn, fr, name, arg);
      if name in m {
        assert st != Ok && FrameOk(fr1) by { SeenFails(fn, fr0, m, fr, name, arg); }
      } else {
        var m1 := m[name := arg];
        assert FrameOk(fr1) <==> !LeavesUnwritten(fn, |fr.slots|, name, arg) by { BindKeeps(fn, fr, name, arg); }
        assert (st == Ok <==> Bindable(fn, fr0, name, arg)) && (st == Ok ==> Whole(Means(fn, fr0, m1, fr1))) by {
          BindMeans(fn, fr0, m, fr, name, arg);
        }
        if st == Ok {
          assert !LeavesUnwritten(fn, |fr.slots|, name, arg);
          BindCount(fn, fr, name, arg);
          NamesKeep(fn, fr0, m1, fr1, items[1..]);
          assert m1.Keys == m.Keys + {name};
        }
      }
    }
  }

  lemma {:induction false} TableKeeps(fn: Fn, fr: Frame, items: Items)
    requires fn.Valid() && FrameOk(fr)
    ensures FrameOk(SendTable(fn, fr, false, items).0) <==> !TableBreaks(fn, fr, items)
    decreases |items|
  {
    if items != [] {
      match items[0].0
      case Some(name) =>
        var m0: map<string, Arg> := map[];
        assert Whole(Means(fn, fr, m0, fr)) by { NothingMeans(fn, fr); }
        assert m0.Keys == {};
        NamesKeep(fn, fr, m0, fr, items);
        assert SendTable(fn, fr, false, items) == SendTable(fn, fr, true, items);
      case None =>
        match Pass(fn, |fr.slots|, items[0].1)
        case None =>
        case Some(v) => TableKeeps(fn, fr.(slots := fr.slots + [Bound(v)]), items[1..]);
    }
  }

  lemma {:induction false} TableExtends(fn: Fn, fr: Frame, named: bool, items: Items)
    requires fn.Valid()
    ensures Extends(fr, SendTable(fn, fr, named, items).0)
    decreases |items|
  {
    if items != [] {
      var arg := items[0].1;
      match items[0].0
      case Some(name) =>
        var (fr1, st) := Bind(fn, fr, name, arg);
        if st == Ok {
          TableExtends(fn, fr1, true, items[1..]);
        }
      case None =>
        if !named && Pass(fn, |fr.slots|, arg).Some? {
          TableExtends(fn, fr.(slots := fr.slots + [Bound(Pass(fn, |fr.slots|, arg).value)]), false, items[1..]);
        }
    }
  }

  /** A call leaves an unwritten slot in its frame: every argument before the table can be passed, and the
      first item of the table that cannot be has a name and belongs beyond the argument count. */
  predicate CallBreaks(fn: Fn, params: seq<Option<Arg>>, items: Items)
    requires fn.Valid()
  {
    AllPass(fn, 0, params) && TableBreaks(fn, SendParams(fn, EMPTY, params).0, items)
  }

  /** Whatever is passed to a function, every slot of the frame is an argument or an announced UNDEF,
      except exactly in that case; and the table leaves the arguments before it as they are. */
  lemma CallKeeps(fn: Fn, params: seq<Option<Arg>>, items: Items)
    requires fn.Valid()
    ensures FrameOk(CallFrame(fn, params, items).0) <==> !CallBreaks(fn, params, items)
    ensures AllPass(fn, 0, params) ==>
              var fr := SendParams(fn, EMPTY, params).0;
              |fr.slots| == |params| && Extends(fr, CallFrame(fn, params, items).0)
  {
    ParamsKeep(fn, EMPTY, params);
    ParamsPass(fn, EMPTY, params);
    var fr := SendParams(fn, EMPTY, params).0;
    TableKeeps(fn, fr, items);
    TableExtends(fn, fr, false, items);
  }

  /** An argument where a parameter of this mode is: no reference where one is passed by value, except
      to the trampoline of __call. */
  predicate Separate(fn: Fn, offset: nat, v: Val)
    requires fn.Valid()
  {
    fn.ModeOf(offset) == ByValue && !fn.trampoline ==> !v.Ref?
  }

  predicate Separated(fn: Fn, fr: Frame)
    requires fn.Valid()
  {
    && (forall i {:trigger fr.slots[i]} ::
          0 <= i < |fr.slots| && fr.slots[i].Bound? ==> Separate(fn, i, fr.slots[i].val))
    && (forall n :: n in fr.extra ==> Separate(fn, |fn.names|, fr.extra[n]))
  }

  /** What is stored: for a reference parameter the argument itself, otherwise its value; and nothing
      exactly if a warning about a missing reference became an exception. */
  lemma PassMeans(fn: Fn, offset: nat, arg: Arg)
    requires fn.Valid()
    ensures Pass(fn, offset, arg) == None <==> Unpassable(fn, offset, arg)
    ensures var r := Pass(fn, offset, arg);
            r.Some? ==>
              && Separate(fn, offset, r.value)
              && (r.value == arg.val || (arg.val.Ref? && r.value == Plain(arg.val.v)))
    ensures fn.ModeOf(offset) != ByValue || fn.trampoline || !arg.val.Ref? ==>
              Pass(fn, offset, arg) in {None, Some(arg.val)}
  {
  }

  lemma BindSeparates(fn: Fn, fr: Frame, name: string, arg: Arg)
    requires fn.Valid() && Separated(fn, fr)
    ensures Separated(fn, Bind(fn, fr, name, arg).0)
  {
    var (fr1, st, off) := Handle(fn, fr, name);
    if st == Ok {
      PassMeans(fn, off, arg);
      if off < |fn.names| {
        forall i {:trigger fr1.slots[i]} | 0 <= i < |fr1.slots| && fr1.slots[i].Bound?
          ensures Separate(fn, i, fr1.slots[i].val)
        {
          assert i < |fr.slots| ==> fr1.slots[i] == fr.slots[i];
        }
      }
    }
  }

  lemma {:induction false} ParamsSeparate(fn: Fn, fr: Frame, params: seq<Option<Arg>>)
    requires fn.Valid() && Separated(fn, fr)
    ensures Separated(fn, SendParams(fn, fr, params).0)
    decreases |params|
  {
    if params != [] {
      match params[0]
      case None => ParamsSeparate(fn, fr.(slots := fr.slots + [Undef], mayUndef := true), params[1..]);
      case Some(arg) =>
        var v := Pass(fn, |fr.slots|, arg);
        if v.Some? {
          PassMeans(fn, |fr.slots|, arg);
          ParamsSeparate(fn, fr.(slots := fr.slots + [Bound(v.value)]), params[1..]);
        }
    }
  }

  lemma {:induction false} TableSeparates(fn: Fn, fr: Frame, named: bool, items: Items)
    requires fn.Valid() && Separated(fn, fr)
    ensures Separated(fn, SendTable(fn, fr, named, items).0)
    decreases |items|
  {
    if items != [] {
      var arg := items[0].1;
      match items[0].0
      case Some(name) =>
        BindSeparates(fn, fr, name, arg);
        var (fr1, st) := Bind(fn, fr, name, arg);
        if st == Ok {
          TableSeparates(fn, fr1, true, items[1..]);
        }
      case None =>
        var v := Pass(fn, |fr.slots|, arg);
        if !named && v.Some? {
          PassMeans(fn, |fr.slots|, arg);
          TableSeparates(fn, fr.(slots := fr.slots + [Bound(v.value)]), false, items[1..]);
        }
    }
  }

  /** In the frame of every call, whether it succeeds or not, a by-value parameter holds no reference. */
  lemma CallSeparates(fn: Fn, params: seq<Option<Arg>>, items: Items)
    requires fn.Valid()
    ensures Separated(fn, CallFrame(fn, params, items).0)
  {
    ParamsSeparate(fn, EMPTY, params);
    var (fr, st) := SendParams(fn, EMPTY, params);
    if st == Ok {
      TableSeparates(fn, fr, false, items);
    }
  }

  /** The order of the names does not matter to the call either. */
  lemma {:induction false} CallOrderIrrelevant(fn: Fn, params: seq<Option<Arg>>, a: Args, b: Args)
    requires fn.Valid() && Distinct(a) && Distinct(b) && ToMap(a) == ToMap(b)
    ensures var ((x, s), (y, t)) := (CallFrame(fn, params, Named(a)), CallFrame(fn, params, Named(b)));
            && (s == Ok <==> t == Ok)
            && (s == Ok ==> x.slots == y.slots && x.extra == y.extra && x.hasExtra == y.hasExtra)
  {
    var (fr, st) := SendParams(fn, EMPTY, params);
    if st == Ok {
      TableOfNames(fn, fr, false, a);
      TableOfNames(fn, fr, false, b);
      OrderIrrelevant(fn, fr, a, b);
    }
  }

  // ---- What a call puts where ----

  /** When a bind fails, and with which error */
  lemma BindStatus(fn: Fn, fr: Frame, name: string, arg: Arg)
    requires fn.Valid()
    ensures var (st, off) := (Bind(fn, fr, name, arg).1, FindName(fn.names, name, 0));
            var known := name in fn.names || fn.variadic.Some?;
            var taken := if name in fn.names then off < |fr.slots| && fr.slots[off] != Undef else name in fr.extra;
            && (st == Unknown <==> !known)
            && (st == Overwrites <==> known && taken)
            && (st == NotByRef <==> known && !taken && Unpassable(fn, off, arg))
            && st != PositionalAfterNamed
  {
  }

  /** The items before the first name, as positional arguments */
  function Lead(items: Items): (r: seq<Option<Arg>>)
    ensures |r| <= |items| && (|r| < |items| ==> items[|r|].0.Some?)
    ensures forall i :: 0 <= i < |r| ==> items[i].0.None? && r[i] == Some(items[i].1)
  {
    if items == [] || items[0].0.Some? then [] else [Some(items[0].1)] + Lead(items[1..])
  }

  /** The items before the first one without a name, as named arguments */
  function Names(items: Items): (r: Args)
    ensures |r| <= |items| && (|r| < |items| ==> items[|r|].0.None?)
    ensures forall i :: 0 <= i < |r| ==> items[i] == (Some(r[i].0), r[i].1)
  {
    if items == [] || items[0].0.None? then [] else [(items[0].0.value, items[0].1)] + Names(items[1..])
  }

  /** The content of slot `i` for positional argument `a`: UNDEF where none is given, else what is to be
      stored for it there. */
  predicate Placed(fn: Fn, i: nat, a: Option<Arg>, slot: Slot)
    requires fn.Valid()
  {
    match a
    case None => slot == Undef
    case Some(arg) => slot.Bound? && Pass(fn, i, arg) == Some(slot.val)
  }

  /** A frame that holds the first of the positional arguments `pos`, and nothing else */
  ghost predicate Front(fn: Fn, pos: seq<Option<Arg>>, fr: Frame)
    requires fn.Valid()
  {
    && |fr.slots| <= |pos| && !fr.hasExtra && fr.extra == map[]
    && (forall i :: 0 <= i < |fr.slots| ==> Placed(fn, i, pos[i], fr.slots[i]))
    && (fr.mayUndef <==> exists i :: 0 <= i < |fr.slots| && pos[i].None?)
  }

  /** The next positional argument cannot be passed. */
  predicate Stuck(fn: Fn, pos: seq<Option<Arg>>, n: nat)
    requires fn.Valid()
  {
    n < |pos| && pos[n].Some? && Unpassable(fn, n, pos[n].value)
  }

  lemma FrontNext(fn: Fn, pos: seq<Option<Arg>>, fr: Frame, slot: Slot)
    requires fn.Valid() && Front(fn, pos, fr) && |fr.slots| < |pos| && Placed(fn, |fr.slots|, pos[|fr.slots|], slot)
    ensures Front(fn, pos, fr.(slots := fr.slots + [slot], mayUndef := fr.mayUndef || slot == Undef))
  {
    var n := |fr.slots|;
    var r := fr.(slots := fr.slots + [slot], mayUndef := fr.mayUndef || slot == Undef);
    assert forall i :: 0 <= i < n ==> r.slots[i] == fr.slots[i];
    if exists i :: 0 <= i < n && pos[i].None? {
      assert r.mayUndef;
    }
  }

  /** The positional arguments before the table: those before the first that cannot be passed are put
      into their slots, and no more. */
  lemma {:induction false} ParamsPut(fn: Fn, pos: seq<Option<Arg>>, fr: Frame, params: seq<Option<Arg>>)
    requires fn.Valid() && Whole(Front(fn, pos, fr)) && |fr.slots| + |params| <= |pos|
    requires params == pos[|fr.slots|..|fr.slots| + |params|]
    ensures var (r, st) := SendParams(fn, fr, params);
            && Whole(Front(fn, pos, r))
            && if st == Ok then |r.slots| == |fr.slots| + |params| else st == NotByRef && Stuck(fn, pos, |r.slots|)
    decreases |params|
  {
    if params != [] {
      var n := |fr.slots|;
      assert params[0] == pos[n] && params[1..] == pos[n + 1..n + 1 + |params[1..]|];
      match params[0]
      case None =>
        FrontNext(fn, pos, fr, Undef);
        ParamsPut(fn, pos, fr.(slots := fr.slots + [Undef], mayUndef := true), params[1..]);
      case Some(arg) =>
        PassMeans(fn, n, arg);
        var v := Pass(fn, n, arg);
        if v.Some? {
          FrontNext(fn, pos, fr, Bound(v.value));
          ParamsPut(fn, pos, fr.(slots := fr.slots + [Bound(v.value)]), params[1..]);
        }
    }
  }

  /** So are the items of the table before the first name, at the positions that follow. */
  lemma {:induction false} TablePuts(fn: Fn, pos: seq<Option<Arg>>, fr: Frame, items: Items) returns (front: Frame)
    requires fn.Valid() && Whole(Front(fn, pos, fr)) && pos[|fr.slots|..] == Lead(items)
    ensures Whole(Front(fn, pos, front))
    ensures SendTable(fn, fr, false, items)
            == if Stuck(fn, pos, |front.slots|) then (front, NotByRef)
               else SendTable(fn, front, false, items[|Lead(items)|..])
    ensures Stuck(fn, pos, |front.slots|) || |front.slots| == |pos|
    decreases |items|
  {
    front := fr;
    if items != [] && items[0].0.None? {
      var (n, arg) := (|fr.slots|, items[0].1);
      var rest := Lead(items[1..]);
      HeadTail(Some(arg), rest);
      assert pos[n] == pos[n..][0] == Some(arg) && pos[n + 1..] == pos[n..][1..] == rest;
      PassMeans(fn, n, arg);
      var v := Pass(fn, n, arg);
      if v.Some? {
        FrontNext(fn, pos, fr, Bound(v.value));
        front := TablePuts(fn, pos, fr.(slots := fr.slots + [Bound(v.value)]), items[1..]);
        assert items[1..][|rest|..] == items[1 + |rest|..];
      }
    }
  }

  /** From the first name on, the names are bound one by one, and a position is refused behind them. */
  lemma {:induction false} NamesBind(fn: Fn, fr: Frame, named: bool, items: Items)
    requires fn.Valid() && (named || items == [] || items[0].0.Some?)
    ensures var ((r, st), names) := (BindAll(fn, fr, Names(items)), Names(items));
            SendTable(fn, fr, named, items)
            == (r, if st == Ok && |names| < |items| then PositionalAfterNamed else st)
    decreases |items|
  {
    if items != [] && items[0].0.Some? {
      var (name, arg) := (items[0].0.value, items[0].1);
      HeadTail((name, arg), Names(items[1..]));
      var (fr1, st) := Bind(fn, fr, name, arg);
      if st == Ok {
        NamesBind(fn, fr1, true, items[1..]);
      }
    }
  }

  /** The names of a table, bound to frame `front`, gave `fr` and `st`: it succeeds exactly if each of them can be
      bound on its own and no position comes behind them, and then the frame is what the set of them means. */
  ghost predicate NamesMean(fn: Fn, front: Frame, items: Items, fr: Frame, st: Status)
    requires fn.Valid()
  {
    var m := ToMap(Names(items));
    if AllBindable(fn, front, m) then
      Means(fn, front, m, fr) && st == if |Names(items)| < |items| then PositionalAfterNamed else Ok
    else st != Ok && st != PositionalAfterNamed
  }

  /** What a call with these arguments is to give: `front` holds the positional arguments, also those of the
      table. If one of them cannot be passed it holds those before it, and is the result; else the names of the
      table, which are distinct, are bound to it. */
  ghost predicate CallMeans(fn: Fn, params: seq<Option<Arg>>, items: Items, front: Frame, fr: Frame, st: Status)
    requires fn.Valid()
  {
    var pos := params + Lead(items);
    && Front(fn, pos, front)
    && (forall i :: 0 <= i < |front.slots| && pos[i].Some? ==> i < |fr.slots| && fr.slots[i] == front.slots[i])
    && if |front.slots| < |pos| then Stuck(fn, pos, |front.slots|) && fr == front && st == NotByRef
       else
         var names := items[|Lead(items)|..];
         Distinct(Names(names)) ==> NamesMean(fn, front, names, fr, st)
  }

  lemma {:induction false} NamesAreMeant(fn: Fn, front: Frame, items: Items)
    requires fn.Valid() && (items == [] || items[0].0.Some?) && Distinct(Names(items))
    ensures var (fr, st) := SendTable(fn, front, false, items); Whole(NamesMean(fn, front, items, fr, st))
  {
    var names := Names(items);
    var m0: map<string, Arg> := map[];
    NamesBind(fn, front, false, items);
    NothingMeans(fn, front);
    BindAllMeans(fn, front, m0, front, names);
    assert m0 + ToMap(names) == ToMap(names);
    NoOtherStatus(fn, front, names);
  }

  lemma {:induction false} NoOtherStatus(fn: Fn, fr: Frame, args: Args)
    requires fn.Valid()
    ensures BindAll(fn, fr, args).1 != PositionalAfterNamed
    decreases |args|
  {
    if args != [] {
      BindStatus(fn, fr, args[0].0, args[0].1);
      NoOtherStatus(fn, Bind(fn, fr, args[0].0, args[0].1).0, args[1..]);
    }
  }

  lemma EndsStuck(fn: Fn, params: seq<Option<Arg>>, items: Items, front: Frame)
    requires fn.Valid() && Whole(Front(fn, params + Lead(items), front))
    requires Stuck(fn, params + Lead(items), |front.slots|)
    ensures Whole(CallMeans(fn, params, items, front, front, NotByRef))
  {
  }

  lemma GoesOnWithNames(fn: Fn, params: seq<Option<Arg>>, items: Items, front: Frame)
    requires fn.Valid() && Whole(Front(fn, params + Lead(items), front)) && |front.slots| == |params + Lead(items)|
    ensures var (fr, st) := SendTable(fn, front, false, items[|Lead(items)|..]);
            Whole(CallMeans(fn, params, items, front, fr, st))
  {
    var names := items[|Lead(items)|..];
    TableExtends(fn, front, false, names);
    if Distinct(Names(names)) {
      NamesAreMeant(fn, front, names);
    }
    var pos := params + Lead(items);
    assert forall i :: 0 <= i < |front.slots| ==> Placed(fn, i, pos[i], front.slots[i]);
  }

  lemma CallIsMeant(fn: Fn, params: seq<Option<Arg>>, items: Items) returns (front: Frame)
    requires fn.Valid()
    ensures var (fr, st) := CallFrame(fn, params, items); Whole(CallMeans(fn, params, items, front, fr, st))
  {
    var pos := params + Lead(items);
    assert params == pos[0..0 + |params|] && pos[|params|..] == Lead(items);
    assert Whole(Front(fn, pos, EMPTY));
    ParamsPut(fn, pos, EMPTY, params);
    var (fr, st) := SendParams(fn, EMPTY, params);
    front := fr;
    if st == Ok {
      front := TablePuts(fn, pos, fr, items);
    }
    if Stuck(fn, pos, |front.slots|) {
      EndsStuck(fn, params, items, front);
    } else {
      GoesOnWithNames(fn, params, items, front);
    }
  }

  // ---- The flag and the order ----

  /** Whether a name leaves a gap when the names are bound in this order from argument count `n` on */
  predicate Gap(fn: Fn, n: nat, args: Args)
    decreases |args|
  {
    args != [] && (n < Off(fn, args[0].0) < |fn.names| || Gap(fn, NextCount(fn, n, args[0].0), args[1..]))
  }

  function CountAfter(fn: Fn, n: nat, args: Args): nat
    decreases |args|
  {
    if args == [] then n else CountAfter(fn, NextCount(fn, n, args[0].0), args[1..])
  }

  lemma {:induction false} FlagIsGap(fn: Fn, fr: Frame, args: Args)
    requires fn.Valid() && BindAll(fn, fr, args).1 == Ok
    ensures BindAll(fn, fr, args).0.mayUndef == (fr.mayUndef || Gap(fn, |fr.slots|, args))
    decreases |args|
  {
    if args != [] {
      BindCount(fn, fr, args[0].0, args[0].1);
      FlagIsGap(fn, Bind(fn, fr, args[0].0, args[0].1).0, args[1..]);
    }
  }

  /** The least count that covers `n0` and the parameters below `k` that are named */
  function Count(fn: Fn, m: map<string, Arg>, n0: nat, k: nat): (n: nat)
    ensures n0 <= n && (n > n0 ==> n <= k && Positional(fn, m, n - 1))
    ensures forall i: nat :: Positional(fn, m, i) && i < k ==> i < n
  {
    if k <= n0 then n0 else if Positional(fn, m, k - 1) then k else Count(fn, m, n0, k - 1)
  }

  /** The flag is the same in every order: it was set before, or at most one slot is added, or one that is
      added is named by nobody. */
  predicate SameFlag(fn: Fn, fr: Frame, m: map<string, Arg>) {
    var (n0, n) := (|fr.slots|, Count(fn, m, |fr.slots|, |fn.names|));
    fr.mayUndef || n <= n0 + 1 || exists i :: n0 <= i < n && !Positional(fn, m, i)
  }

  /** Every name is known, and none stands for a parameter from `n` on. */
  predicate Below(fn: Fn, m: map<string, Arg>, n: nat) {
    forall name :: name in m ==> Lookup(fn, name).Some? && (Off(fn, name) < |fn.names| ==> Off(fn, name) < n)
  }

  lemma BelowCount(fn: Fn, fr: Frame, m: map<string, Arg>)
    requires fn.Valid() && AllBindable(fn, fr, m)
    ensures Below(fn, m, Count(fn, m, |fr.slots|, |fn.names|))
  {
    forall name | name in m ensures Lookup(fn, name).Some?
      && (Off(fn, name) < |fn.names| ==> Off(fn, name) < Count(fn, m, |fr.slots|, |fn.names|))
    {
      assert Bindable(fn, fr, name, m[name]);
      if Off(fn, name) < |fn.names| {
        assert Positional(fn, m, Off(fn, name));
      }
    }
  }

  lemma {:induction false} NoGap(fn: Fn, n: nat, c: nat, args: Args)
    requires Below(fn, ToMap(args), n) && Distinct(args) && n <= c + 1
    ensures !Gap(fn, c, args) && (n <= c ==> CountAfter(fn, c, args) == c)
    decreases |args|
  {
    if args != [] {
      assert args[0].0 in ToMap(args);
      forall name | name in ToMap(args[1..]) ensures name in ToMap(args) {
      }
      NoGap(fn, n, NextCount(fn, c, args[0].0), args[1..]);
    }
  }

  function Drop(args: Args, name: string): Args {
    if args == [] then [] else if args[0].0 == name then args[1..] else [args[0]] + Drop(args[1..], name)
  }

  lemma {:induction false} DropMap(args: Args, name: string)
    requires Distinct(args)
    ensures Distinct(Drop(args, name)) && ToMap(Drop(args, name)) == ToMap(args) - {name}
  {
    if args != [] && args[0].0 != name {
      DropMap(args[1..], name);
      HeadTail(args[0], Drop(args[1..], name));
    }
  }

  lemma {:induction false} AddLast(args: Args, x: (string, Arg))
    requires Distinct(args) && x.0 !in ToMap(args)
    ensures Distinct(args + [x]) && ToMap(args + [x]) == ToMap(args)[x.0 := x.1]
    decreases |args|
  {
    if args == [] {
      EmptyLeft([x]);
    } else {
      AddLast(args[1..], x);
      assert (args + [x])[1..] == args[1..] + [x];
      assert ToMap(args + [x]) == ToMap(args)[x.0 := x.1];
    }
  }

  lemma {:induction false} GapLast(fn: Fn, n: nat, args: Args, x: (string, Arg))
    ensures Gap(fn, n, args + [x]) <==> Gap(fn, n, args) || CountAfter(fn, n, args) < Off(fn, x.0) < |fn.names|
    ensures CountAfter(fn, n, args + [x]) == NextCount(fn, CountAfter(fn, n, args), x.0)
    decreases |args|
  {
    if args == [] {
      EmptyLeft([x]);
      assert [x][1..] == [];
    } else {
      assert (args + [x])[1..] == args[1..] + [x];
      GapLast(fn, NextCount(fn, n, args[0].0), args[1..], x);
    }
  }

  /** Every parameter from `n0` to `n` is named. */
  ghost predicate Filled(fn: Fn, m: map<string, Arg>, n0: nat, n: nat) {
    forall i: nat :: n0 <= i < n ==> Positional(fn, m, i)
  }

  lemma WithoutLast(fn: Fn, m: map<string, Arg>, n0: nat, i: nat)
    requires n0 <= i && Below(fn, m, i + 1) && Filled(fn, m, n0, i + 1)
    ensures i < |fn.names| && fn.names[i] in m && Off(fn, fn.names[i]) == i
    ensures Below(fn, m - {fn.names[i]}, i) && Filled(fn, m - {fn.names[i]}, n0, i)
  {
    assert Positional(fn, m, i);
    var m1 := m - {fn.names[i]};
    forall x | x in m1 ensures Off(fn, x) < |fn.names| ==> Off(fn, x) < i {
      assert x in m && x != fn.names[i];
    }
    forall j: nat | n0 <= j < i ensures Positional(fn, m1, j) {
      assert Positional(fn, m, j);
    }
  }

  lemma PutLast(fn: Fn, m: map<string, Arg>, n0: nat, i: nat, front: Args, name: string) returns (r: Args)
    requires name in m && Off(fn, name) == i < |fn.names|
    requires Distinct(front) && ToMap(front) == m - {name} && !Gap(fn, n0, front) && CountAfter(fn, n0, front) == i
    ensures Distinct(r) && ToMap(r) == m && !Gap(fn, n0, r) && CountAfter(fn, n0, r) == i + 1
  {
    var x := (name, m[name]);
    r := front + [x];
    AddLast(front, x);
    GapLast(fn, n0, front, x);
    assert (m - {name})[name := m[name]] == m;
  }

  /** Where no slot is left out, there is an order without a gap: the parameters beyond `n0` come last, and
      in the order of the function. */
  lemma {:induction false} Ascending(fn: Fn, n0: nat, n: nat, args: Args) returns (r: Args)
    requires Distinct(args) && n0 <= n && Whole(Below(fn, ToMap(args), n)) && Whole(Filled(fn, ToMap(args), n0, n))
    ensures Distinct(r) && ToMap(r) == ToMap(args) && !Gap(fn, n0, r) && CountAfter(fn, n0, r) == n
    decreases n
  {
    var m := ToMap(args);
    if n == n0 {
      NoGap(fn, n, n0, args);
      r := args;
    } else {
      var i := n - 1;
      WithoutLast(fn, m, n0, i);
      var name := fn.names[i];
      DropMap(args, name);
      r := Ascending(fn, n0, i, Drop(args, name));
      r := PutLast(fn, m, n0, i, r, name);
    }
  }

  lemma GapIsUndef(fn: Fn, fr: Frame, m: map<string, Arg>, slots: seq<Slot>, i: nat)
    requires fn.Valid() && CountOk(fn, m, |fr.slots|, |slots|) && SlotsOk(fn, fr, m, slots)
    requires |fr.slots| <= i < Count(fn, m, |fr.slots|, |fn.names|) && !Positional(fn, m, i)
    ensures Undef in slots
  {
    var n := Count(fn, m, |fr.slots|, |fn.names|);
    assert Positional(fn, m, n - 1);
    assert slots[i] == SlotOf(fn, fr, m, i) == Undef;
  }

  /** A gap that nobody fills is announced in every order. */
  lemma GapAnnounced(fn: Fn, fr: Frame, args: Args, i: nat)
    requires fn.Valid() && FrameOk(fr) && Distinct(args) && AllBindable(fn, fr, ToMap(args))
    requires |fr.slots| <= i < Count(fn, ToMap(args), |fr.slots|, |fn.names|) && !Positional(fn, ToMap(args), i)
    ensures BindAll(fn, fr, args).0.mayUndef
  {
    BindsAll(fn, fr, args);
    BindAllKeeps(fn, fr, args);
    GapIsUndef(fn, fr, ToMap(args), BindAll(fn, fr, args).0.slots, i);
  }

  lemma {:induction false} BindAllKeeps(fn: Fn, fr: Frame, args: Args)
    requires fn.Valid() && FrameOk(fr) && BindAll(fn, fr, args).1 == Ok
    ensures FrameOk(BindAll(fn, fr, args).0)
    decreases |args|
  {
    if args != [] {
      BindKeeps(fn, fr, args[0].0, args[0].1);
      BindAllKeeps(fn, Bind(fn, fr, args[0].0, args[0].1).0, args[1..]);
    }
  }

  /** For arguments that can be bound: the flag that announces UNDEF slots does not depend on the order of
      the names if and only if it was set before, or at most one slot is added, or one that is added is
      named by nobody. */
  lemma {:induction false} FlagOrder(fn: Fn, fr: Frame, a: Args)
    requires fn.Valid() && FrameOk(fr) && Distinct(a) && AllBindable(fn, fr, ToMap(a))
    ensures (forall b :: Distinct(b) && ToMap(b) == ToMap(a) ==>
                           BindAll(fn, fr, b).0.mayUndef == BindAll(fn, fr, a).0.mayUndef)
            <==> SameFlag(fn, fr, ToMap(a))
  {
    if SameFlag(fn, fr, ToMap(a)) {
      FlagKnown(fn, fr, a);
      forall b | Distinct(b) && ToMap(b) == ToMap(a)
        ensures BindAll(fn, fr, b).0.mayUndef == BindAll(fn, fr, a).0.mayUndef
      {
        FlagKnown(fn, fr, b);
      }
    } else {
      var up, down := TwoOrders(fn, fr, a);
      assert BindAll(fn, fr, up).0.mayUndef != BindAll(fn, fr, down).0.mayUndef;
    }
  }

  lemma BindsAll(fn: Fn, fr: Frame, args: Args)
    requires fn.Valid() && Distinct(args) && AllBindable(fn, fr, ToMap(args))
    ensures BindAll(fn, fr, args).1 == Ok && Whole(Means(fn, fr, ToMap(args), BindAll(fn, fr, args).0))
  {
    var m0: map<string, Arg> := map[];
    NothingMeans(fn, fr);
    BindAllMeans(fn, fr, m0, fr, args);
    assert m0 + ToMap(args) == ToMap(args);
  }

  /** Where the flag does not depend on the order, it is set exactly if it was before or there is a gap. */
  lemma {:induction false} FlagKnown(fn: Fn, fr: Frame, args: Args)
    requires fn.Valid() && FrameOk(fr) && Distinct(args) && AllBindable(fn, fr, ToMap(args))
    requires SameFlag(fn, fr, ToMap(args))
    ensures var n := Count(fn, ToMap(args), |fr.slots|, |fn.names|);
            BindAll(fn, fr, args).0.mayUndef
            == (fr.mayUndef || exists i :: |fr.slots| <= i < n && !Positional(fn, ToMap(args), i))
  {
    var n := Count(fn, ToMap(args), |fr.slots|, |fn.names|);
    FlagOf(fn, fr, args);
    if !fr.mayUndef {
      if i: nat :| |fr.slots| <= i < n && !Positional(fn, ToMap(args), i) {
        GapAnnounced(fn, fr, args, i);
      } else {
        BelowCount(fn, fr, ToMap(args));
        NoGap(fn, n, |fr.slots|, args);
      }
    }
  }

  lemma FlagOf(fn: Fn, fr: Frame, args: Args)
    requires fn.Valid() && Distinct(args) && AllBindable(fn, fr, ToMap(args))
    ensures BindAll(fn, fr, args).0.mayUndef == (fr.mayUndef || Gap(fn, |fr.slots|, args))
  {
    BindsAll(fn, fr, args);
    FlagIsGap(fn, fr, args);
  }

  /** Where it does depend, an ascending order sets no flag, and one that starts at the end sets it. */
  lemma TwoOrders(fn: Fn, fr: Frame, a: Args) returns (up: Args, down: Args)
    requires fn.Valid() && FrameOk(fr) && Distinct(a) && AllBindable(fn, fr, ToMap(a)) && !SameFlag(fn, fr, ToMap(a))
    ensures Distinct(up) && ToMap(up) == ToMap(a) && !BindAll(fn, fr, up).0.mayUndef
    ensures Distinct(down) && ToMap(down) == ToMap(a) && BindAll(fn, fr, down).0.mayUndef
  {
    BelowCount(fn, fr, ToMap(a));
    up, down := WithAndWithoutGap(fn, |fr.slots|, Count(fn, ToMap(a), |fr.slots|, |fn.names|), a);
    FlagOf(fn, fr, up);
    FlagOf(fn, fr, down);
  }

  lemma WithAndWithoutGap(fn: Fn, n0: nat, n: nat, a: Args) returns (up: Args, down: Args)
    requires Distinct(a) && n0 + 2 <= n && Whole(Below(fn, ToMap(a), n)) && Whole(Filled(fn, ToMap(a), n0, n))
    ensures Distinct(up) && ToMap(up) == ToMap(a) && !Gap(fn, n0, up)
    ensures Distinct(down) && ToMap(down) == ToMap(a) && Gap(fn, n0, down)
  {
    up := Ascending(fn, n0, n, a);
    WithoutLast(fn, ToMap(a), n0, n - 1);
    down := LastFirst(a, fn.names[n - 1]);
  }

  lemma LastFirst(a: Args, name: string) returns (r: Args)
    requires Distinct(a) && name in ToMap(a)
    ensures r != [] && r[0].0 == name && Distinct(r) && ToMap(r) == ToMap(a)
  {
    var x := (name, ToMap(a)[name]);
    DropMap(a, name);
    r := [x] + Drop(a, name);
    HeadTail(x, Drop(a, name));
    assert (ToMap(a) - {name})[name := x.1] == ToMap(a);
  }

  // ---- The frame in memory ----

  /** The two words of a cache slot. */
  class CacheSlot {
    var key: Option<Fn>
    var off: nat

    constructor ()
      ensures key == None
    {
      key := None;
    }

    /** What is cached is right for `name`. */
    predicate For(name: string)
      reads this
    {
      key.Some? ==> Lookup(key.value, name) == Some(off)
    }

    /** ngx_http_php_zend_get_arg_offset_by_name */
    method GetArgOffset(fn: Fn, name: string) returns (r: Option<nat>)
      requires For(name)
      modifies this
      ensures r == Lookup(fn, name) && For(name)
      ensures r.Some? ==> key == Some(fn)
    {
      if key == Some(fn) {
        return Some(off);
      }
      for i := 0 to |fn.names|
        invariant FindName(fn.names, name, 0) == FindName(fn.names, name, i)
        invariant key == old(key) && off == old(off)
      {
        if fn.names[i] == name {
          key, off := Some(fn), i;
          return Some(i);
        }
      }
      if fn.variadic.Some? {
        key, off := Some(fn), |fn.names|;
        return Some(|fn.names|);
      }
      r := None;
    }
  }

  /** A call frame: the argument count, the flags, and the memory of its stack segment from the first
      argument on, of which the frame takes `used` slots. */
  class Call {
    const fn: Fn
    const page: nat
    var count: nat
    var mayUndef: bool
    var hasExtra: bool
    var extra: map<string, Val>
    var segment: array<Slot>
    var used: nat

    /** No slot beyond the argument count was written to. */
    ghost predicate Valid()
      reads this, segment
    {
      && fn.Valid()
      && count <= used <= segment.Length
      && Fresh(count)
    }

    ghost predicate Fresh(from: nat)
      reads this, segment
    {
      forall i :: from <= i < segment.Length ==> segment[i] == Garbage
    }

    ghost function View(): Frame
      requires count <= segment.Length
      reads this, segment
    {
      Frame(segment[..count], mayUndef, hasExtra, extra)
    }

    /** zend_vm_stack_push_call_frame, for `passed` arguments that are to be written and the slots the
        function needs besides; a segment has room for a page. */
    constructor (fn: Fn, passed: nat, needs: nat, page: nat)
      requires fn.Valid()
      ensures this.fn == fn && this.page == page && count == passed && used == passed + needs <= segment.Length
      ensures !mayUndef && !hasExtra && extra == map[] && fresh(segment) && Fresh(0)
    {
      this.fn, this.page, count, used := fn, page, passed, passed + needs;
      mayUndef, hasExtra, extra := false, false, map[];
      segment := new Slot[passed + needs + page](_ => Garbage);
    }

    /** zend_vm_stack_extend_call_frame: takes more slots of the segment if it has them, or copies the
        frame with its passed arguments to a new segment. */
    method Extend(passed: nat, additional: nat)
      requires passed <= used <= segment.Length && Fresh(passed)
      modifies this`segment, this`used
      ensures used == old(used) + additional <= segment.Length
      ensures segment == old(segment) || fresh(segment)
      ensures forall i :: 0 <= i < passed ==> segment[i] == old(segment[i])
      ensures Fresh(passed)
    {
      if segment.Length - used > additional {
        used := used + additional;
      } else {
        CopyFrame(passed, additional);
      }
    }

    /** zend_vm_stack_copy_call_frame */
    method CopyFrame(passed: nat, additional: nat)
      requires passed <= used <= segment.Length
      modifies this`segment, this`used
      ensures used == old(used) + additional <= segment.Length
      ensures fresh(segment)
      ensures forall i :: 0 <= i < passed ==> segment[i] == old(segment[i])
      ensures Fresh(passed)
    {
      var src := segment;
      used := used + additional;
      var dst := new Slot[used + page](_ => Garbage);
      for i := 0 to passed
        invariant fresh(dst) && dst.Length == used + page
        invariant forall j :: 0 <= j < i ==> dst[j] == src[j]
        invariant forall j :: i <= j < dst.Length ==> dst[j] == Garbage
      {
        dst[i] := src[i];
      }
      segment := dst;
    }

    /** The gap between the old argument count and the new argument */
    method MarkUndef(from: nat, end: nat)
      requires from < end <= segment.Length
      modifies segment
      ensures forall i :: 0 <= i < segment.Length ==> segment[i] == (if from <= i < end then Undef else old(segment[i]))
    {
      var zv := from;
      while true
        invariant from <= zv < end
        invariant forall i :: 0 <= i < segment.Length ==>
                    segment[i] == (if from <= i < zv then Undef else old(segment[i]))
        decreases end - zv
      {
        segment[zv] := Undef;
        zv := zv + 1;
        if zv == end {
          break;
        }
      }
    }

    /** The part of handle_named_arg for a parameter beyond the argument count */
    method Reach(off: nat)
      requires Valid() && count <= off
      modifies this`count, this`mayUndef, this`segment, this`used, segment
      ensures Valid() && (segment == old(segment) || fresh(segment))
      ensures View().slots == old(View().slots) + Repeat(Undef, off - old(count)) + [Garbage]
      ensures mayUndef == (old(mayUndef) || off > old(count))
    {
      ghost var was := View().slots;
      var current := count;
      count := off + 1;
      var more := count - current;
      Extend(current, more);
      assert forall i :: 0 <= i < current ==> segment[i] == was[i];
      if more > 1 {
        MarkUndef(current, off);
        mayUndef := true;
      }
      ghost var now := was + Repeat(Undef, off - current) + [Garbage];
      assert forall i :: 0 <= i < count ==> segment[i] == now[i];
    }

    /** ngx_http_php_zend_handle_named_arg */
    method HandleNamedArg(name: string, cache: CacheSlot) returns (st: Status, off: nat)
      requires Valid() && cache.For(name)
      modifies this, segment, cache
      ensures Valid() && cache.For(name) && (segment == old(segment) || fresh(segment))
      ensures (View(), st, off) == Handle(fn, old(View()), name)
    {
      var found := cache.GetArgOffset(fn, name);
      if found.None? {
        return Unknown, 0;
      }
      off := found.value;
      if off == |fn.names| {
        if !hasExtra {
          hasExtra := true;
        }
        if name in extra {
          return Overwrites, off;
        }
        extra := extra[name := Null];
        return Ok, off;
      }
      if off >= count {
        Reach(off);
      } else if segment[off] != Undef {
        return Overwrites, off;
      }
      st := Ok;
    }

    /** One named argument: its place is found, and the argument copied there. */
    method SendNamed(name: string, arg: Arg) returns (st: Status)
      requires Valid()
      modifies this, segment
      ensures Valid() && (segment == old(segment) || fresh(segment))
      ensures (View(), st) == Bind(fn, old(View()), name, arg)
    {
      var cache := new CacheSlot();
      var off;
      st, off := HandleNamedArg(name, cache);
      if st != Ok {
        return;
      }
      var v := Pass(fn, off, arg);
      if v.None? {
        return NotByRef;
      }
      ghost var fr := View();
      if off == |fn.names| {
        extra := extra[name := v.value];
      } else {
        segment[off] := Bound(v.value);
      }
      assert View() == Write(fn, fr, name, off, v.value);
    }

    /** An argument without a name in the table goes to the next position. */
    method SendNext(arg: Arg) returns (st: Status)
      requires Valid()
      modifies this, segment
      ensures Valid() && (segment == old(segment) || fresh(segment))
      ensures match Pass(fn, old(count), arg)
              case None => st == NotByRef && View() == old(View())
              case Some(v) => st == Ok && View() == old(View()).(slots := old(View()).slots + [Bound(v)])
    {
      ghost var was := View().slots;
      Extend(count, 1);
      assert segment[..count] == was;
      var v := Pass(fn, count, arg);
      if v.None? {
        return NotByRef;
      }
      segment[count] := Bound(v.value);
      count := count + 1;
      assert segment[..count] == was + [Bound(v.value)];
      st := Ok;
    }

    /** The first loop of zend_call_function: the argument count is already that of all parameters,
        and is set back if one cannot be passed. */
    method PassParams(params: seq<Option<Arg>>) returns (st: Status)
      requires fn.Valid() && count == |params| <= used <= segment.Length && Fresh(0)
      modifies this`count, this`mayUndef, segment
      ensures Valid()
      ensures (View(), st) == SendParams(fn, Frame([], old(mayUndef), hasExtra, extra), params)
      ensures count <= |params| && forall i :: 0 <= i < count ==> Placed(fn, i, params[i], segment[i])
      ensures if st == Ok then count == |params| else st == NotByRef && Stuck(fn, params, count)
    {
      ghost var goal := SendParams(fn, Frame([], mayUndef, hasExtra, extra), params);
      for i := 0 to |params|
        invariant count == |params| <= used <= segment.Length && Fresh(i)
        invariant forall j :: 0 <= j < i ==> Placed(fn, j, params[j], segment[j])
        invariant SendParams(fn, Frame(segment[..i], mayUndef, hasExtra, extra), params[i..]) == goal
      {
        ghost var was := segment[..i];
        assert params[i..][1..] == params[i + 1..];
        if params[i].None? {
          segment[i] := Undef;
          mayUndef := true;
        } else {
          var v := Pass(fn, i, params[i].value);
          if v.None? {
            count := i;
            return NotByRef;
          }
          segment[i] := Bound(v.value);
        }
        assert segment[..i + 1] == was + [segment[i]];
      }
      st := Ok;
    }

    /** The second loop of zend_call_function */
    method PassTable(items: Items) returns (st: Status)
      requires Valid()
      modifies this, segment
      ensures Valid() && (segment == old(segment) || fresh(segment))
      ensures (View(), st) == SendTable(fn, old(View()), false, items)
    {
      ghost var goal := SendTable(fn, View(), false, items);
      var named := false;
      for i := 0 to |items|
        invariant Valid() && (segment == old(segment) || fresh(segment))
        invariant SendTable(fn, View(), named, items[i..]) == goal
      {
        assert items[i..][1..] == items[i + 1..];
        var (name, arg) := items[i];
        if name.Some? {
          named := true;
          st := SendNamed(name.value, arg);
        } else if named {
          return PositionalAfterNamed;
        } else {
          st := SendNext(arg);
        }
        if st != Ok {
          return;
        }
      }
      st := Ok;
    }
  }

  /** The argument passing of zend_call_function, in memory, gives the frame CallFrame describes. */
  method PushAndPass(fn: Fn, params: seq<Option<Arg>>, items: Items, needs: nat, page: nat)
    returns (call: Call, st: Status, ghost front: Frame)
    requires fn.Valid()
    ensures fresh(call) && call.Valid()
    ensures (call.View(), st) == CallFrame(fn, params, items)
    ensures Whole(CallMeans(fn, params, items, front, call.View(), st))
  {
    front := CallIsMeant(fn, params, items);
    call := new Call(fn, |params|, needs, page);
    st := call.PassParams(params);
    if st == Ok {
      st := call.PassTable(items);
    }
  }
}
