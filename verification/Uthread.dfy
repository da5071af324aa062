/**
 The life of a coroutine: uthread_create and uthread_resume of ngx_http_php_zend_uthread.c, and the
 dispatch on phase_status that the phase handlers of ngx_http_php_handler.c share. Running PHP code
 is an outcome that a step is given.
 */
module Uthread {
  import opened Common

  /** NGX_DECLINED, NGX_OK and NGX_AGAIN as values of phase_status */
  datatype Status = Declined | Ok | Again

  /** What calling the function of an inline script comes to: a generator, which stands at a yield or
      is at its end at once; a value of another kind, or a bailout, perhaps after a generator was made.
      A call that blocks sets phase_status to NGX_AGAIN, and without a yield it stays so. */
  datatype Script = Generator(valid: bool) | Plain(blocks: bool) | Bailout(made: bool, blocks: bool)

  /** What running a generator on comes to: another yield, its end, or a bailout. */
  datatype Next = More | Finished | BailoutInNext

  /** `held` is generator_closure, as the number of the generator it points to. The other fields count:
      how often each generator was released, scripts started, visits that went on to the output, calls
      of ngx_http_core_run_phases, and references taken on the request for a wait. */
  datatype Ctx = Ctx(phase: Status, held: Option<nat>, released: seq<nat>, starts: nat, outputs: nat, reentries: nat,
                     waits: nat)

  const START := Ctx(Declined, None, [], 0, 0, 0, 0)

  /** zval_ptr_dtor of the generator; the pointer stays. */
  function Release(c: Ctx): (r: Ctx)
    ensures |r.released| == |c.released|
  {
    if c.held.Some? && c.held.value < |c.released| then
      c.(released := c.released[c.held.value := c.released[c.held.value] + 1])
    else c
  }

  function SetOutput(c: Ctx): Ctx {
    Release(c).(phase := Declined, outputs := c.outputs + 1)
  }

  /** A routine sets phase_status to NGX_OK, and creates the coroutine. */
  function Create(c: Ctx, script: Script): Ctx {
    var s := c.(starts := c.starts + 1);
    match script
    case Generator(valid) =>
      s.(held := Some(|c.released|), released := c.released + [0], phase := if valid then Again else Ok)
    case Plain(blocks) => s.(held := None, phase := if blocks then Again else Ok)
    case Bailout(made, blocks) =>
      s.(held := None, released := if made then c.released + [1] else c.released, phase := if blocks then Again else Ok)
  }

  /** The script of a file is run without a coroutine. */
  function RunFile(c: Ctx, blocks: bool): Ctx {
    c.(starts := c.starts + 1, phase := if blocks then Again else Ok)
  }

  /** The rest of a handler: it waits, or goes on to the output. */
  function Dispatch(c: Ctx): Ctx {
    if c.phase == Again then c.(waits := c.waits + 1) else SetOutput(c)
  }

  /** Events of one request */
  datatype Op =
    | Inline(script: Script)  // a handler of an inline script is entered
    | File(blocks: bool)      // a handler of a script file is entered
    | Resume(next: Next)      // a timer or a socket resumes the coroutine

  function Step(c: Ctx, op: Op): Ctx {
    match op
    case Inline(script) => Dispatch(if c.phase == Declined then Create(c, script) else c)
    case File(blocks) => Dispatch(if c.phase == Declined then RunFile(c, blocks) else c)
    case Resume(next) =>
      if c.held.None? then c
      else match next
        case More => c.(phase := Again)
        case Finished => Dispatch(Release(c).(phase := Ok, held := None, reentries := c.reentries + 1))
        case BailoutInNext => Release(c).(held := None)
  }

  // ---- The imperative form ----

  class Closure {
    ghost const id: nat

    constructor (ghost id: nat)
      ensures this.id == id
    {
      this.id := id;
    }
  }

  class Context {
    var phaseStatus: Status
    var generatorClosure: Closure?
    var mainCount: nat
    ghost var released: seq<nat>
    ghost var starts: nat
    ghost var outputs: nat
    ghost var reentries: nat
    ghost var count0: nat

    ghost predicate Valid()
      reads this
    {
      && count0 <= mainCount
      && (generatorClosure != null ==> generatorClosure.id < |released|)
    }

    ghost function View(): Ctx
      requires Valid()
      reads this
    {
      Ctx(phaseStatus, if generatorClosure == null then None else Some(generatorClosure.id), released, starts, outputs,
          reentries, mainCount - count0)
    }

    /** ngx_http_php_post_read_handler, for a request that is referred to `count` times */
    constructor (count: nat)
      ensures Valid() && View() == START
    {
      phaseStatus, generatorClosure, mainCount := Declined, null, count;
      released, starts, outputs, reentries, count0 := [], 0, 0, 0, count;
    }

    /** zval_ptr_dtor(ctx->generator_closure) */
    method Dtor()
      requires Valid() && generatorClosure != null
      modifies this`released
      ensures Valid() && View() == Release(old(View()))
    {
      released := released[generatorClosure.id := released[generatorClosure.id] + 1];
    }

    /** ngx_http_php_zend_uthread_content_inline_routine and its like, with uthread_create */
    method CreateInline(script: Script)
      requires Valid() && phaseStatus == Declined
      modifies this
      ensures Valid() && View() == Create(old(View()), script)
    {
      phaseStatus := Ok;
      starts := starts + 1;
      match script {
        case Generator(valid) =>
          generatorClosure := new Closure(|released|);
          released := released + [0];
          phaseStatus := if valid then Again else Ok;
        case Plain(blocks) =>
          if blocks {
            phaseStatus := Again;
          }
          generatorClosure := null;
        case Bailout(made, blocks) =>
          if blocks {
            phaseStatus := Again;
          }
          if made {
            generatorClosure := new Closure(|released|);
            released := released + [0];
            Dtor();
          }
          generatorClosure := null;
      }
    }

    method ContentFileRoutine(blocks: bool)
      requires Valid() && phaseStatus == Declined
      modifies this`phaseStatus, this`starts
      ensures Valid() && View() == RunFile(old(View()), blocks)
    {
      phaseStatus := Ok;
      starts := starts + 1;
      if blocks {
        phaseStatus := Again;
      }
    }

    /** The end of a handler from the test for NGX_AGAIN on */
    method Finish() returns (again: bool)
      requires Valid()
      modifies this
      ensures Valid() && View() == Dispatch(old(View())) && again == (old(phaseStatus) == Again)
    {
      if phaseStatus == Again {
        mainCount := mainCount + 1;
        return true;
      }
      if generatorClosure != null {
        Dtor();
      }
      phaseStatus := Declined;
      outputs := outputs + 1;
      again := false;
    }

    /** The handler of an inline script, as ngx_http_php_content_inline_handler */
    method InlineHandler(script: Script) returns (again: bool)
      requires Valid()
      modifies this
      ensures Valid() && View() == Step(old(View()), Inline(script)) && again == (phaseStatus == Again)
    {
      if phaseStatus == Declined {
        CreateInline(script);
      }
      again := Finish();
    }

    /** The handler of a script file, as ngx_http_php_content_file_handler */
    method FileHandler(blocks: bool) returns (again: bool)
      requires Valid()
      modifies this
      ensures Valid() && View() == Step(old(View()), File(blocks)) && again == (phaseStatus == Again)
    {
      if phaseStatus == Declined {
        ContentFileRoutine(blocks);
      }
      again := Finish();
    }

    /** ngx_http_php_zend_uthread_resume, in which the phase engine enters the waiting handler again */
    method ResumeUthread(next: Next)
      requires Valid()
      modifies this
      ensures Valid() && View() == Step(old(View()), Resume(next))
    {
      if generatorClosure == null {
        return;
      }
      match next {
        case More =>
          phaseStatus := Again;
        case Finished =>
          phaseStatus := Ok;
          Dtor();
          generatorClosure := null;
          reentries := reentries + 1;
          var _ := Finish();
        case BailoutInNext =>
          Dtor();
          generatorClosure := null;
      }
    }
  }

  // ---- Safety ----

  /** The generator that is held and not released */
  predicate Live(c: Ctx) {
    c.held.Some? && c.held.value < |c.released| && c.released[c.held.value] == 0
  }

  /** What is to hold between steps: the status is NGX_AGAIN exactly when a live generator is held, and
      NGX_DECLINED otherwise; no generator was released twice, and each that is not live was released;
      every start but that of a live generator went on to the output, once. */
  predicate Safe(c: Ctx) {
    && (c.phase == Again <==> Live(c))
    && c.phase != Ok
    && (c.held.Some? ==> c.held.value < |c.released|)
    && (forall g :: 0 <= g < |c.released| ==> c.released[g] == if Live(c) && c.held == Some(g) then 0 else 1)
    && c.starts == c.outputs + if c.phase == Again then 1 else 0
  }

  /** An operation that keeps a safe context safe. A script that is started must not block without a
      yield; the handler of a file must not find the pointer to a generator that was at its end when
      it was created; and what is resumed must be waiting, and not bail out. */
  predicate Behaved(c: Ctx, op: Op) {
    match op
    case Inline(script) =>
      c.phase == Declined ==> !(script.Plain? && script.blocks) && !(script.Bailout? && script.blocks)
    case File(blocks) => c.phase == Declined ==> !blocks && c.held.None?
    case Resume(next) => c.held.Some? ==> c.phase == Again && next != BailoutInNext
  }

  lemma StepSafe(c: Ctx, op: Op)
    requires Safe(c)
    ensures Safe(Step(c, op)) <==> Behaved(c, op)
  {
  }

  function Run(c: Ctx, ops: seq<Op>): Ctx
    decreases |ops|
  {
    if ops == [] then c else Run(Step(c, ops[0]), ops[1..])
  }

  predicate SafeThroughout(c: Ctx, ops: seq<Op>)
    decreases |ops|
  {
    Safe(c) && (ops == [] || SafeThroughout(Step(c, ops[0]), ops[1..]))
  }

  predicate BehavedRun(c: Ctx, ops: seq<Op>)
    decreases |ops|
  {
    ops == [] || (Behaved(c, ops[0]) && BehavedRun(Step(c, ops[0]), ops[1..]))
  }

  /** A request is safe at every moment exactly as long as its operations are behaved. */
  lemma {:induction false} SafetyOverRuns(c: Ctx, ops: seq<Op>)
    requires Safe(c)
    ensures SafeThroughout(c, ops) <==> BehavedRun(c, ops)
    ensures BehavedRun(c, ops) ==> Safe(Run(c, ops))
    decreases |ops|
  {
    if ops != [] {
      StepSafe(c, ops[0]);
      if Behaved(c, ops[0]) {
        SafetyOverRuns(Step(c, ops[0]), ops[1..]);
      }
    }
  }

  lemma StartSafe()
    ensures Safe(START)
  {
  }

  /** What a script comes to that is started: it waits exactly if its generator stands at a yield, which is then
      held, or if it blocks; and else it goes on to the output at once. A generator that was made is counted. */
  lemma Started(c: Ctx, script: Script)
    requires Safe(c) && c.phase == Declined
    ensures var d := Step(c, Inline(script));
            var made := script.Generator? || (script.Bailout? && script.made);
            var blocks := !script.Generator? && script.blocks;
            && d.starts == c.starts + 1 && d.reentries == c.reentries
            && (d.phase == Again <==> blocks || (script.Generator? && script.valid))
            && (d.phase == Declined <==> d.phase != Again)
            && d.outputs == c.outputs + (if d.phase == Again then 0 else 1)
            && d.waits == c.waits + (if d.phase == Again then 1 else 0)
            && d.held == (if script.Generator? then Some(|c.released|) else None)
            && d.released == c.released + if !made then [] else if script.Generator? && script.valid then [0] else [1]
  {
  }

  /** The script of a file waits exactly if it blocks; no generator is made, and there is none to resume. */
  lemma FileStarted(c: Ctx, blocks: bool, next: Next)
    requires Safe(c) && c.phase == Declined && c.held == None
    ensures var d := Step(c, File(blocks));
            && d == c.(starts := c.starts + 1, phase := d.phase, outputs := d.outputs, waits := d.waits)
            && (if blocks then d.phase == Again && d.outputs == c.outputs && d.waits == c.waits + 1
                else d.phase == Declined && d.outputs == c.outputs + 1 && d.waits == c.waits)
            && Step(c, Resume(next)) == c && Step(d, Resume(next)) == d
  {
  }

  /** While a coroutine waits, entering a handler starts nothing and releases nothing; more yields leave
      all as it is; and the resume that finds it at its end releases it once, enters the phase engine
      once, and the handler goes on to the output. */
  lemma Waiting(c: Ctx, script: Script, blocks: bool)
    requires Safe(c) && c.phase == Again
    ensures Step(c, Inline(script)) == Step(c, File(blocks)) == c.(waits := c.waits + 1)
    ensures Step(c, Resume(More)) == c
    ensures var d := Step(c, Resume(Finished));
            && d.phase == Declined && d.held == None && d.starts == c.starts
            && d.reentries == c.reentries + 1 && d.outputs == c.outputs + 1
            && d.released == c.released[c.held.value := 1]
  {
  }

  /** The events of a coroutine that yields `n` more times: resumes until its end, with the handler
      entered in between any number of times */
  function Resumes(n: nat, entries: seq<nat>): seq<Op>
    requires |entries| == n
  {
    if n == 0 then [Resume(Finished)] else Entries(entries[0]) + ([Resume(More)] + Resumes(n - 1, entries[1..]))
  }

  function Entries(k: nat): seq<Op> {
    if k == 0 then [] else [Inline(Plain(true))] + Entries(k - 1)
  }

  lemma RunCons(c: Ctx, op: Op, rest: seq<Op>)
    ensures Run(c, [op] + rest) == Run(Step(c, op), rest)
  {
    HeadTail(op, rest);
  }

  /** A context that differs from a safe one in the waits only is safe. */
  lemma WaitsSafe(c: Ctx, k: nat)
    requires Whole(Safe(c))
    ensures Whole(Safe(c.(waits := c.waits + k)))
  {
  }

  lemma {:induction false} RunEntries(c: Ctx, k: nat, rest: seq<Op>)
    requires c.phase == Again
    ensures Run(c, Entries(k) + rest) == Run(c.(waits := c.waits + k), rest)
    decreases k
  {
    if k == 0 {
      EmptyLeft(rest);
    } else {
      var op := Inline(Plain(true));
      Assoc([op], Entries(k - 1), rest);
      RunCons(c, op, Entries(k - 1) + rest);
      RunEntries(c.(waits := c.waits + 1), k - 1, rest);
    }
  }

  /** After them nothing more was started, the coroutine was released once, the phase engine was entered
      once, and the handler went on to the output once. */
  lemma {:induction false} WholeLife(c: Ctx, n: nat, entries: seq<nat>)
    requires Whole(Safe(c)) && c.phase == Again && |entries| == n
    ensures var d := Run(c, Resumes(n, entries));
            && d.phase == Declined && d.held == None && d.starts == c.starts
            && d.reentries == c.reentries + 1 && d.outputs == c.outputs + 1
            && d.released == c.released[c.held.value := 1]
    decreases n
  {
    if n == 0 {
      Waiting(c, Plain(true), false);
      RunCons(c, Resume(Finished), []);
      assert [Resume(Finished)] + [] == [Resume(Finished)];
    } else {
      var rest := Resumes(n - 1, entries[1..]);
      var c1 := c.(waits := c.waits + entries[0]);
      RunEntries(c, entries[0], [Resume(More)] + rest);
      RunCons(c1, Resume(More), rest);
      assert Step(c1, Resume(More)) == c1;
      WaitsSafe(c, entries[0]);
      WholeLife(c1, n - 1, entries[1..]);
    }
  }

  /** A generator that ends at once is released by its own visit, but the pointer to it stays: the
      handler of a file that is entered next releases it again. */
  lemma EndedAtOnce()
    ensures var c := Run(START, [Inline(Generator(false))]);
            Safe(c) && c.held == Some(0) && c.released == [1] && Step(c, File(false)).released == [2]
  {
  }

  /** A script that blocks without a yield leaves the request waiting, and nothing can resume it. */
  lemma BlockedForever(c: Ctx, script: Script, ops: seq<Op>)
    requires Safe(c) && c.phase == Declined && !script.Generator? && script.blocks
    ensures var d := Run(Step(c, Inline(script)), ops);
            d.phase == Again && d.held == None && d.outputs == c.outputs && d.reentries == c.reentries
  {
    Started(c, script);
    StaysBlocked(Step(c, Inline(script)), ops);
  }

  /** So does a coroutine that bails out when it is run on: it is released, and the request waits for ever. */
  lemma BailedOutForever(c: Ctx, ops: seq<Op>)
    requires Safe(c) && c.phase == Again
    ensures var d := Run(Step(c, Resume(BailoutInNext)), ops);
            && d.phase == Again && d.held == None && d.outputs == c.outputs && d.reentries == c.reentries
            && d.released == c.released[c.held.value := 1]
  {
    StaysBlocked(Step(c, Resume(BailoutInNext)), ops);
  }

  /** With no generator to resume, nothing resumes a request that waits, and each visit only waits again. */
  lemma {:induction false} StaysBlocked(c: Ctx, ops: seq<Op>)
    requires c.phase == Again && c.held == None
    ensures var d := Run(c, ops); d == c.(waits := d.waits) && d.waits >= c.waits
    decreases |ops|
  {
    if ops != [] {
      StaysBlocked(Step(c, ops[0]), ops[1..]);
    }
  }
}
