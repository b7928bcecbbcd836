/**
 The object returned by `jQuery.Callbacks`, with its loops.  What a callback does when it is called is
 given by a script: a finite list of behaviours, used up one per call.  Every execution of the
 methods is a run of the machine in `Callbacks`.
 */
module CallbackLists {
  import opened Dom
  import opened Callbacks

  datatype Ending = ReturnsFalse | ReturnsOther | Throws

  /** What one call does: operations on the list it was called from, then an ending. */
  datatype Behaviour = Behaviour(ops: seq<Op>, ending: Ending)

  predicate IsRequest(op: Op) {
    !op.Loop? && !op.Returned? && !op.Threw?
  }

  lemma {:induction false} RunConcat(s: State, a: seq<Op>, b: seq<Op>)
    ensures Run(s, a + b) == Run(Run(s, a), b)
    decreases |b|
  {
    if b == [] {
      assert a + b == a;
    } else {
      assert (a + b)[..|a + b| - 1] == a + b[..|b| - 1];
      RunConcat(s, a, b[..|b| - 1]);
    }
  }

  lemma RunOne(s: State, a: seq<Op>, op: Op)
    ensures Run(s, a + [op]) == Step(Run(s, a), op)
  {
    assert (a + [op])[..|a|] == a;
  }

  class CallbackList {
    const opts: Options
    var list: Option<seq<Entry>>
    var memory: Option<Data>
    var fired: bool
    var firing: bool
    var firingStart: nat
    var firingLength: int
    var firingIndex: int
    var stack: Option<seq<Data>>

    /** What the callbacks still to be called will do. */
    var script: seq<Behaviour>

    /** Numbers the additions. */
    var added: seq<Callback>

    /** The list as a state of the machine, with its record of what happened. */
    ghost var model: State

    ghost predicate Valid()
      reads this
    {
      model.opts == opts && model.list == list && model.memory == memory && model.fired == fired &&
      model.Firing() == firing && model.firingStart == firingStart && model.firingLength == firingLength &&
      model.firingIndex == firingIndex && model.stack == stack && model.added == added &&
      forall b :: b in script ==> forall op :: op in b.ops ==> IsRequest(op)
    }

    constructor (options: Options, behaviours: seq<Behaviour>)
      requires forall b :: b in behaviours ==> forall op :: op in b.ops ==> IsRequest(op)
      ensures Valid() && model == Initial(options) && script == behaviours
    {
      opts, list, memory, fired, firing := options, Some([]), None, false, false;
      firingStart, firingLength, firingIndex, stack := 0, 0, 0, if options.once then None else Some([]);
      script, added, model := behaviours, [], Initial(options);
    }

    function Waiting(): nat
      reads this
    {
      if stack.Some? then |stack.value| else 0
    }

    // ----- methods that never fire -----

    method Push(cb: Callback)
      requires Valid() && list.Some?
      modifies this`list, this`added, this`model
      ensures Valid() && model == Callbacks.Push(old(model), cb)
    {
      model := Callbacks.Push(model, cb);
      if !opts.unique || !Has(list.value, cb) {
        list := Some(list.value + [Entry(cb, |added|)]);
        added := added + [cb];
      }
    }

    /** The inner `add` of `add`, which goes into arrays. */
    method PushArgs(args: seq<Arg>)
      requires Valid() && list.Some?
      modifies this`list, this`added, this`model
      ensures Valid() && model == PushAll(old(model), args) && list.Some?
      decreases args
    {
      var i := 0;
      while i < |args|
        invariant 0 <= i <= |args| && Valid() && list.Some?
        invariant model == PushAll(old(model), args[..i])
      {
        assert args[..i + 1][..i] == args[..i];
        match args[i] {
          case Function(cb) => Push(cb);
          case Array(inner) => PushArgs(inner);
          case Other =>
        }
        i := i + 1;
      }
      assert args[..i] == args;
    }

    method SpliceAt(index: nat)
      requires Valid() && list.Some? && index < |list.value|
      modifies this`list, this`firingLength, this`firingIndex, this`model
      ensures Valid() && model == Splice(old(model), index)
    {
      model := Splice(model, index);
      list := Some(list.value[..index] + list.value[index + 1..]);
      if firing {
        if index <= firingLength {
          firingLength := firingLength - 1;
        }
        if index <= firingIndex {
          firingIndex := firingIndex - 1;
        }
      }
    }

    method RemoveCallback(cb: Callback)
      requires Valid() && list.Some?
      modifies this`list, this`firingLength, this`firingIndex, this`model
      ensures Valid() && list.Some? && model == RemoveFrom(old(model), cb, 0)
    {
      var index := IndexFrom(list.value, cb, 0);
      ghost var behind: nat := 0;
      while index > -1
        invariant Valid() && list.Some? && behind <= |list.value|
        invariant index == IndexFrom(list.value, cb, behind)
        invariant RemoveFrom(model, cb, behind) == RemoveFrom(old(model), cb, 0)
        decreases |list.value|
      {
        SpliceAt(index);
        behind := index;
        index := IndexFrom(list.value, cb, index);
      }
    }

    method Remove(cbs: seq<Callback>)
      requires Valid()
      modifies this`list, this`firingLength, this`firingIndex, this`model
      ensures Valid() && model == Callbacks.Remove(old(model), cbs)
    {
      if list.Some? {
        var i := 0;
        while i < |cbs|
          invariant 0 <= i <= |cbs| && Valid() && list.Some?
          invariant model == RemoveAll(old(model), cbs[..i])
        {
          assert cbs[..i + 1][..i] == cbs[..i];
          RemoveCallback(cbs[i]);
          i := i + 1;
        }
        assert cbs[..i] == cbs;
      }
    }

    method Empty()
      requires Valid()
      modifies this`list, this`model
      ensures Valid() && model == Callbacks.Empty(old(model))
    {
      list, model := Some([]), Callbacks.Empty(model);
    }

    method Disable()
      requires Valid()
      modifies this`list, this`stack, this`memory, this`model
      ensures Valid() && model == Callbacks.Disable(old(model))
    {
      list, stack, memory, model := None, None, None, Callbacks.Disable(model);
    }

    method Lock()
      requires Valid()
      modifies this`list, this`stack, this`memory, this`model
      ensures Valid() && model == Callbacks.Lock(old(model))
    {
      stack, model := None, model.(stack := None);
      if memory.None? {
        Disable();
      }
    }

    // ----- methods that may fire -----

    /** Every method below returns the steps it took; `threw` when an exception left it. */
    method Add(args: seq<Arg>) returns (threw: bool, ghost steps: seq<Op>)
      requires Valid() && model.phase != Test
      modifies this
      ensures Valid() && model.phase != Test && |script| <= old(|script|)
      ensures steps != [] && steps[0] == DoAdd(args) && model == Run(old(model), steps)
      ensures old(firing) ==> steps == [DoAdd(args)] && model.phase == old(model.phase)
      ensures old(firing) ==> !threw && script == old(script)
      decreases |script|, Waiting(), 3
    {
      threw, steps := false, [DoAdd(args)];
      RunOne(model, [], DoAdd(args));
      if list.Some? {
        var start := |list.value|;
        ghost var before := model;
        PushArgs(args);
        PushAllKeeps(before, args);
        if firing {
          firingLength, model := |list.value|, model.(firingLength := |list.value|);
        } else if memory.Some? {
          firingStart, model := start, model.(firingStart := start);
          ghost var more;
          threw, more := Fire(memory.value);
          RunConcat(old(model), [DoAdd(args)], more);
          steps := steps + more;
        }
      }
    }

    method FireWith(d: Data) returns (threw: bool, ghost steps: seq<Op>)
      requires Valid() && model.phase != Test
      modifies this
      ensures Valid() && model.phase != Test && |script| <= old(|script|)
      ensures steps != [] && steps[0] == DoFire(d) && model == Run(old(model), steps)
      ensures old(firing) ==> steps == [DoFire(d)] && model.phase == old(model.phase) && !threw && script == old(script)
      decreases |script|, Waiting(), 3
    {
      threw, steps := false, [DoFire(d)];
      RunOne(model, [], DoFire(d));
      if list.Some? && (!fired || stack.Some?) {
        if firing {
          if stack.Some? {
            stack, model := Some(stack.value + [d]), Callbacks.FireWith(model, d);
          }
        } else {
          model := model.(asked := model.asked + [d], begun := model.begun + [d]);
          ghost var more;
          threw, more := Fire(d);
          RunConcat(old(model), [DoFire(d)], more);
          steps := steps + more;
        }
      }
    }

    method BeginFire(d: Data)
      requires Valid() && !firing && list.Some?
      modifies this`memory, this`fired, this`firingIndex, this`firingStart, this`firingLength, this`firing, this`model
      ensures Valid() && model == StartFire(old(model), d)
    {
      model := StartFire(model, d);
      memory := if opts.memory then Some(d) else None;
      fired := true;
      firingIndex := firingStart;
      firingStart := 0;
      firingLength := |list.value|;
      firing := true;
    }

    /** The loop of `fire`, and what follows it. */
    method Fire(d: Data) returns (threw: bool, ghost steps: seq<Op>)
      requires Valid() && model.phase == Idle && list.Some?
      modifies this
      ensures Valid() && model.phase == (if threw then Thrown else Idle) && |script| <= old(|script|)
      ensures model == Run(StartFire(old(model), d), steps)
      decreases |script|, Waiting(), 2
    {
      BeginFire(d);
      ghost var started := model;
      steps, threw := [], false;
      var stopped := false;
      while list.Some? && firingIndex < firingLength && !stopped
        invariant Valid() && model == Run(started, steps) && !threw
        invariant model.phase == if stopped then Calling else Test
        invariant stopped ==> opts.stopOnFalse
        invariant |script| <= old(|script|)
        invariant |script| == old(|script|) ==> Waiting() == old(Waiting())
        decreases |script|, !stopped, firingLength - firingIndex
      {
        ghost var called;
        threw, stopped, called := CallOne();
        RunConcat(started, steps, called);
        steps := steps + called;
        if threw {
          return;
        }
      }
      ghost var more;
      threw, more := EndFire(stopped);
      RunConcat(started, steps, more);
      steps := steps + more;
    }

    method EndFire(stopped: bool) returns (threw: bool, ghost steps: seq<Op>)
      requires Valid() && model.phase == if stopped then Calling else Test
      requires if stopped then opts.stopOnFalse else !LoopTest(model)
      modifies this
      ensures Valid() && model.phase == (if threw then Thrown else Idle) && |script| <= old(|script|)
      ensures model == Run(old(model), steps)
      decreases |script|, Waiting(), 1
    {
      steps, threw := [if stopped then Returned(true) else Loop], false;
      RunOne(model, [], steps[0]);
      var next := LeaveLoop(stopped);
      if next.Some? {
        ghost var more;
        threw, more := Fire(next.value);
        RunConcat(old(model), steps, more);
        steps := steps + more;
      }
    }

    /** What follows the loop; `next` is the waiting fire that is to begin. */
    method LeaveLoop(stopped: bool) returns (next: Option<Data>)
      requires Valid() && model.phase == if stopped then Calling else Test
      requires if stopped then opts.stopOnFalse else !LoopTest(model)
      modifies this`memory, this`firing, this`stack, this`list, this`model
      ensures Valid() && !firing
      ensures next.Some? ==> list.Some? && Waiting() < old(Waiting())
      ensures Step(old(model), if stopped then Returned(true) else Loop) ==
              if next.Some? then StartFire(model, next.value) else model
    {
      if stopped {
        memory := None;
      }
      firing, next := false, None;
      model := model.(memory := memory, phase := Idle);
      if list.Some? {
        if stack.Some? {
          if |stack.value| > 0 {
            next := Some(stack.value[0]);
            stack := Some(stack.value[1..]);
            model := model.(stack := stack, begun := model.begun + [next.value]);
          }
        } else if memory.Some? {
          list, model := Some([]), model.(list := Some([]));
        } else {
          Disable();
        }
      }
    }

    /** Fetches the callback and enters it; a missing one throws. */
    method Enter() returns (entered: bool)
      requires Valid() && model.phase == Test && LoopTest(model)
      modifies this`model
      ensures Valid() && model.phase == (if entered then Calling else Thrown) && model == CallNext(old(model))
    {
      entered := 0 <= firingIndex < |list.value|;
      model := CallNext(model);
    }

    /** One turn of the loop: the call, and the advance unless the loop is to stop. */
    method CallOne() returns (threw: bool, stopped: bool, ghost steps: seq<Op>)
      requires Valid() && model.phase == Test && LoopTest(model)
      modifies this
      ensures Valid() && model == Run(old(model), steps) && !(threw && stopped)
      ensures model.phase == if threw then Thrown else if stopped then Calling else Test
      ensures stopped ==> opts.stopOnFalse
      ensures |script| <= old(|script|)
      ensures |script| == old(|script|) ==> Waiting() == old(Waiting())
      ensures |script| == old(|script|) && !threw && !stopped ==>
                firingLength == old(firingLength) && firingIndex == old(firingIndex) + 1
      decreases |script|, Waiting(), 1
    {
      steps, threw, stopped := [Loop], false, false;
      RunOne(model, [], Loop);
      var entered := Enter();
      if !entered {
        return true, false, steps;
      }
      var ending;
      ghost var done;
      ending, done := Invoke();
      RunConcat(old(model), steps, done);
      steps := steps + done;
      if ending == ReturnsFalse && opts.stopOnFalse {
        return false, true, steps;
      }
      ghost var last := if ending == Throws then Threw else Returned(ending == ReturnsFalse);
      RunOne(old(model), steps, last);
      steps := steps + [last];
      threw := ending == Throws;
      Leave(ending);
    }

    method Leave(ending: Ending)
      requires Valid() && model.phase == Calling && !(ending == ReturnsFalse && opts.stopOnFalse)
      modifies this`firingIndex, this`model
      ensures Valid() && model.phase == (if ending == Throws then Thrown else Test)
      ensures firingIndex == old(firingIndex) + if ending == Throws then 0 else 1
      ensures model == Step(old(model), if ending == Throws then Threw else Returned(ending == ReturnsFalse))
    {
      model := Step(model, if ending == Throws then Threw else Returned(ending == ReturnsFalse));
      if ending != Throws {
        firingIndex := firingIndex + 1;
      }
    }

    /** A callback runs: the next behaviour of the script. */
    method Invoke() returns (ending: Ending, ghost steps: seq<Op>)
      requires Valid() && model.phase == Calling
      modifies this
      ensures Valid() && model.phase == Calling && model == Run(old(model), steps)
      ensures if old(script) == [] then steps == [] && script == [] else |script| < old(|script|)
      decreases |script|, Waiting(), 0
    {
      steps := [];
      if script == [] {
        return ReturnsOther, [];
      }
      var b := script[0];
      script := script[1..];
      ending := b.ending;
      var i := 0;
      while i < |b.ops|
        invariant 0 <= i <= |b.ops| && Valid() && model.phase == Calling
        invariant model == Run(old(model), steps) && |script| < old(|script|)
      {
        RunOne(old(model), steps, b.ops[i]);
        Request(b.ops[i]);
        steps := steps + [b.ops[i]];
        i := i + 1;
      }
    }

    /** An operation asked for by a callback of this list. */
    method Request(op: Op)
      requires Valid() && model.phase == Calling && IsRequest(op)
      modifies this
      ensures Valid() && model.phase == Calling && script == old(script)
      ensures model == Step(old(model), op)
      decreases |script|, Waiting(), 4
    {
      RunOne(model, [], op);
      match op {
        case DoAdd(args) => var _, _ := Add(args);
        case DoFire(d) => var _, _ := FireWith(d);
        case DoRemove(cbs) =>
          if list.Some? {
            RemoveAllKeeps(model, cbs);
          }
          Remove(cbs);
        case DoEmpty => Empty();
        case DoDisable => Disable();
        case DoLock => Lock();
      }
    }
  }
}
