/**
 What one fire of a list means, together with the firings that `add` begins after it on a list with memory: no
 entry is called twice, each is called with the data of the fire, and what is added is called at once.
 */
module Refiring {
  import opened Dom
  import opened Callbacks

  // ----- calls since a certain one -----

  ghost predicate CalledSince(calls: seq<Call>, n: nat, e: Entry) {
    exists i :: n <= i < |calls| && calls[i].entry == e
  }

  /** The calls from number `n` on: additions from number `low` on, climbing, all with this data. */
  ghost predicate Since(calls: seq<Call>, n: nat, low: nat, high: nat, d: Data) {
    n <= |calls| && low <= high &&
    (forall i, j :: n <= i < j < |calls| ==> calls[i].entry.tag < calls[j].entry.tag) &&
    forall i :: n <= i < |calls| ==> low <= calls[i].entry.tag < high && calls[i].data == d
  }

  /** Entries before `p` have been called if they are no older than `low`; the others still can be. */
  ghost predicate Ahead(l: seq<Entry>, p: int, calls: seq<Call>, n: nat, low: nat) {
    forall k :: 0 <= k < |l| ==>
      if k < p then l[k].tag >= low ==> CalledSince(calls, n, l[k])
      else l[k].tag >= low && forall i :: n <= i < |calls| ==> calls[i].entry.tag < l[k].tag
  }

  /** What holds from the beginning of a fire, or of an `add` to a list that remembers one, until the next fire
      begins. */
  ghost predicate Era(s: State, n: nat, low: nat, d: Data) {
    Since(s.calls, n, low, |s.added|, d) &&
    (s.memory.Some? ==> s.memory.value == d) && (s.Firing() ==> s.data == d) &&
    (s.list.Some? && s.Firing() ==> Ahead(s.list.value, Position(s), s.calls, n, low)) &&
    (s.list.Some? && !s.Firing() && s.memory.Some? ==> Ahead(s.list.value, |s.list.value|, s.calls, n, low))
  }

  lemma SpliceAhead(l: seq<Entry>, p: int, calls: seq<Call>, n: nat, low: nat, k: nat)
    requires Ahead(l, p, calls, n, low) && k < |l|
    ensures Ahead(l[..k] + l[k + 1..], if k < p then p - 1 else p, calls, n, low)
  {
    var rest, p' := l[..k] + l[k + 1..], if k < p then p - 1 else p;
    forall j | 0 <= j < |rest|
      ensures if j < p' then rest[j].tag >= low ==> CalledSince(calls, n, rest[j])
              else rest[j].tag >= low && forall i :: n <= i < |calls| ==> calls[i].entry.tag < rest[j].tag
    {
      var j' := if j < k then j else j + 1;
      assert rest[j] == l[j'];
    }
  }

  /** Later additions may follow. */
  lemma MoreAhead(l: seq<Entry>, more: seq<Entry>, p: int, calls: seq<Call>, n: nat, low: nat, high: nat, d: Data)
    requires Ahead(l, p, calls, n, low) && Since(calls, n, low, high, d) && p <= |l| && l <= more
    requires forall k :: |l| <= k < |more| ==> more[k].tag >= high
    ensures Ahead(more, p, calls, n, low)
  {
  }

  // ----- the steps -----

  lemma {:induction false} PushAllLater(s: State, args: seq<Arg>)
    requires s.list.Some?
    ensures var t := PushAll(s, args);
            s.list.value <= t.list.value && s.added <= t.added &&
            forall k :: |s.list.value| <= k < |t.list.value| ==> t.list.value[k].tag >= |s.added|
    decreases args
  {
    if args != [] {
      PushAllLater(s, args[..|args| - 1]);
      if args[|args| - 1].Array? {
        PushAllLater(PushAll(s, args[..|args| - 1]), args[|args| - 1].args);
      }
    }
  }

  lemma AddEra(s: State, args: seq<Arg>, n: nat, low: nat, d: Data)
    requires Inv(s) && Era(s, n, low, d)
    ensures Era(Add(s, args), n, low, d)
  {
    if s.list.Some? {
      PushAllKeeps(s, args);
      PushAllLater(s, args);
      var t := PushAll(s, args);
      if s.Firing() {
        MoreAhead(s.list.value, t.list.value, Position(s), s.calls, n, low, |s.added|, d);
      } else if s.memory.Some? {
        MoreAhead(s.list.value, t.list.value, |s.list.value|, s.calls, n, low, |s.added|, d);
      }
    }
  }

  lemma {:induction false} RemoveFromEra(s: State, cb: Callback, i: nat, n: nat, low: nat, d: Data)
    requires Inv(s) && Era(s, n, low, d) && s.list.Some? && i <= |s.list.value| && s.phase != Test
    ensures Era(RemoveFrom(s, cb, i), n, low, d)
    decreases |s.list.value| - i
  {
    var k := IndexFrom(s.list.value, cb, i);
    if k != -1 {
      SpliceInv(s, k);
      if s.Firing() {
        SpliceAhead(s.list.value, Position(s), s.calls, n, low, k);
      } else if s.memory.Some? {
        SpliceAhead(s.list.value, |s.list.value|, s.calls, n, low, k);
      }
      RemoveFromEra(Splice(s, k), cb, k, n, low, d);
    }
  }

  lemma {:induction false} RemoveAllEra(s: State, cbs: seq<Callback>, n: nat, low: nat, d: Data)
    requires Inv(s) && Era(s, n, low, d) && s.list.Some? && s.phase != Test
    ensures Era(RemoveAll(s, cbs), n, low, d)
    decreases |cbs|
  {
    if cbs != [] {
      var front := cbs[..|cbs| - 1];
      RemoveAllEra(s, front, n, low, d);
      RemoveAllInv(s, front);
      RemoveFromEra(RemoveAll(s, front), cbs[|cbs| - 1], 0, n, low, d);
    }
  }

  lemma CallEra(s: State, n: nat, low: nat, d: Data)
    requires Inv(s) && Era(s, n, low, d) && s.phase == Test && LoopTest(s)
    ensures Era(CallNext(s), n, low, d)
  {
    var l, p, t := s.list.value, s.firingIndex, CallNext(s);
    assert s.Firing() && Position(s) == p && 0 <= p < |l|;
    assert t.calls == s.calls + [Call(l[p], s.data)] && Position(t) == p + 1;
    assert t.calls[|s.calls|].entry == l[p];
    forall k | 0 <= k < p + 1 && l[k].tag >= low ensures CalledSince(t.calls, n, l[k]) {
      if k < p {
        var i :| n <= i < |s.calls| && s.calls[i].entry == l[k];
        assert t.calls[i].entry == l[k];
      }
    }
  }

  /** The loop ends, or is stopped, and no fire waits. */
  lemma FinishEra(s: State, n: nat, low: nat, d: Data)
    requires Inv(s) && s.Firing() && Era(s, n, low, d) && FinishFire(s).begun == s.begun
    requires s.memory.Some? && s.list.Some? ==> Position(s) >= |s.list.value|
    ensures Era(FinishFire(s), n, low, d)
  {
  }

  lemma StepEra(s: State, op: Op, n: nat, low: nat, d: Data)
    requires Inv(s) && (op.DoEmpty? ==> !s.Firing()) && Era(s, n, low, d) && Step(s, op).begun == s.begun
    ensures Era(Step(s, op), n, low, d)
  {
    if op.Loop? && s.phase == Test {
      if LoopTest(s) {
        CallEra(s, n, low, d);
      } else {
        FinishEra(s, n, low, d);
      }
    } else if op.Returned? && s.phase == Calling {
      ReturnEra(s, op.isFalse, n, low, d);
    } else if op.DoAdd? && s.phase != Test {
      AddEra(s, op.args, n, low, d);
    } else if op.DoRemove? && s.phase != Test && s.list.Some? {
      RemoveAllEra(s, op.cbs, n, low, d);
    } else if op.DoFire? {
      FireEra(s, op.data, n, low, d);
    }
  }

  lemma ReturnEra(s: State, isFalse: bool, n: nat, low: nat, d: Data)
    requires Inv(s) && s.phase == Calling && Era(s, n, low, d) && Return(s, isFalse).begun == s.begun
    ensures Era(Return(s, isFalse), n, low, d)
  {
    if isFalse && s.opts.stopOnFalse {
      FinishEra(s.(memory := None), n, low, d);
    } else {
      assert Position(Return(s, isFalse)) == Position(s);
    }
  }

  lemma FireEra(s: State, x: Data, n: nat, low: nat, d: Data)
    requires Era(s, n, low, d) && FireWith(s, x).begun == s.begun
    ensures Era(FireWith(s, x), n, low, d)
  {
    assert s.begun + [x] != s.begun;
  }

  // ----- the runs -----

  lemma StepBegun(s: State, op: Op)
    ensures s.begun <= Step(s, op).begun && s.calls <= Step(s, op).calls
  {
    if op.DoAdd? && s.list.Some? {
      PushAllKeeps(s, op.args);
    } else if op.DoRemove? && s.list.Some? {
      RemoveAllKeeps(s, op.cbs);
    }
  }

  lemma {:induction false} RunBegun(s: State, ops: seq<Op>)
    ensures s.begun <= Run(s, ops).begun && s.calls <= Run(s, ops).calls
    decreases |ops|
  {
    if ops != [] {
      RunBegun(s, ops[..|ops| - 1]);
      StepBegun(Run(s, ops[..|ops| - 1]), ops[|ops| - 1]);
    }
  }

  lemma {:induction false} RunEra(s: State, ops: seq<Op>, n: nat, low: nat, d: Data)
    requires Inv(s) && Calm(s, ops) && Era(s, n, low, d) && Run(s, ops).begun == s.begun
    ensures Era(Run(s, ops), n, low, d)
    decreases |ops|
  {
    if ops != [] {
      var front, t := ops[..|ops| - 1], Run(s, ops[..|ops| - 1]);
      RunBegun(s, front);
      StepBegun(t, ops[|ops| - 1]);
      RunInv(s, front);
      RunEra(s, front, n, low, d);
      StepEra(t, ops[|ops| - 1], n, low, d);
    }
  }

  /** The last fire that has begun, if one begins with this step. */
  lemma BeginsEra(s: State, op: Op)
    requires Inv(s) && Step(s, op).begun != s.begun
    ensures var t := Step(s, op);
            t.begun != [] && t.calls == s.calls && Era(t, |t.calls|, 0, t.begun[|t.begun| - 1])
  {
    if op.DoAdd? && s.list.Some? {
      PushAllKeeps(s, op.args);
    } else if op.DoRemove? && s.list.Some? {
      RemoveAllKeeps(s, op.cbs);
    }
  }

  /** In every run: from the beginning of a fire to that of the next no entry is called twice, whatever is added,
      and all are called with the data of the fire; when the loop ends, every entry of the list has been called. */
  lemma OncePerFire(opts: Options, ops: seq<Op>, op: Op, more: seq<Op>)
    requires Calm(Initial(opts), ops) && Step(Run(Initial(opts), ops), op).begun != Run(Initial(opts), ops).begun
    requires op.DoEmpty? ==> !Run(Initial(opts), ops).Firing()
    requires Calm(Step(Run(Initial(opts), ops), op), more)
    requires Run(Step(Run(Initial(opts), ops), op), more).begun == Step(Run(Initial(opts), ops), op).begun
    ensures var s := Step(Run(Initial(opts), ops), op);
            var t := Run(s, more);
            s.calls <= t.calls && s.begun != [] &&
            (forall i, j :: |s.calls| <= i < j < |t.calls| ==> t.calls[i].entry != t.calls[j].entry) &&
            (forall i :: |s.calls| <= i < |t.calls| ==> t.calls[i].data == s.begun[|s.begun| - 1]) &&
            (t.phase == Test && t.list.Some? && !LoopTest(t) ==>
               forall e :: e in t.list.value ==> exists i :: |s.calls| <= i < |t.calls| && t.calls[i].entry == e)
  {
    var before := Run(Initial(opts), ops);
    var s := Step(before, op);
    var n := |s.calls|;
    RunInv(Initial(opts), ops);
    BeginsEra(before, op);
    StepInv(before, op);
    RunEra(s, more, n, 0, s.begun[|s.begun| - 1]);
    RunBegun(s, more);
    RunInv(s, more);
    var t := Run(s, more);
    if t.phase == Test && t.list.Some? && !LoopTest(t) {
      EndCalls(t, n, 0, s.begun[|s.begun| - 1]);
    }
  }

  lemma EndCalls(t: State, n: nat, low: nat, d: Data)
    requires Inv(t) && Era(t, n, low, d) && t.phase == Test && t.list.Some? && !LoopTest(t)
    ensures forall e :: e in t.list.value && e.tag >= low ==> exists i :: n <= i < |t.calls| && t.calls[i].entry == e
  {
    var l := t.list.value;
    assert t.Firing() && Position(t) == t.firingIndex >= |l|;
    forall e | e in l && e.tag >= low ensures exists i :: n <= i < |t.calls| && t.calls[i].entry == e {
      var k :| 0 <= k < |l| && l[k] == e;
      assert CalledSince(t.calls, n, l[k]);
    }
  }

  /** In every run: `add` to a list at rest that remembers a fire calls what is added, and until the next fire begins
      only what was added then or later, each entry once and with the remembered data; when the loop ends, every such
      entry of the list has been called. */
  lemma AddCallsAdded(opts: Options, ops: seq<Op>, args: seq<Arg>, more: seq<Op>)
    requires Calm(Initial(opts), ops)
    requires Run(Initial(opts), ops).phase == Idle && Run(Initial(opts), ops).memory.Some?
    requires Calm(Step(Run(Initial(opts), ops), DoAdd(args)), more)
    requires Run(Step(Run(Initial(opts), ops), DoAdd(args)), more).begun == Run(Initial(opts), ops).begun
    ensures var s := Run(Initial(opts), ops);
            var t := Run(Step(s, DoAdd(args)), more);
            s.calls <= t.calls &&
            (forall i, j :: |s.calls| <= i < j < |t.calls| ==> t.calls[i].entry != t.calls[j].entry) &&
            (forall i :: |s.calls| <= i < |t.calls| ==>
               t.calls[i].entry.tag >= |s.added| && t.calls[i].data == s.memory.value) &&
            (t.phase == Test && t.list.Some? && !LoopTest(t) ==>
               forall e :: e in t.list.value && e.tag >= |s.added| ==>
                 exists i :: |s.calls| <= i < |t.calls| && t.calls[i].entry == e)
  {
    var s := Run(Initial(opts), ops);
    var u, n, low, d := Step(s, DoAdd(args)), |s.calls|, |s.added|, s.memory.value;
    var t := Run(u, more);
    RunInv(Initial(opts), ops);
    assert Era(s, n, low, d);
    StepBegun(s, DoAdd(args));
    RunBegun(u, more);
    StepEra(s, DoAdd(args), n, low, d);
    StepInv(s, DoAdd(args));
    RunEra(u, more, n, low, d);
    RunInv(u, more);
    if t.phase == Test && t.list.Some? && !LoopTest(t) {
      EndCalls(t, n, low, d);
    }
  }

  // ----- what is added -----

  function Functions(cbs: seq<Callback>): (r: seq<Arg>)
    ensures |r| == |cbs| && forall i :: 0 <= i < |r| ==> r[i] == Function(cbs[i])
  {
    seq(|cbs|, i requires 0 <= i < |cbs| => Function(cbs[i]))
  }

  /** Functions are added in the order given, unless the list is to hold each once only. */
  lemma {:induction false} AddsInOrder(s: State, cbs: seq<Callback>)
    requires s.list.Some? && !s.opts.unique
    ensures var t := PushAll(s, Functions(cbs));
            t.added == s.added + cbs && |t.list.value| == |s.list.value| + |cbs| && s.list.value <= t.list.value &&
            forall i :: 0 <= i < |cbs| ==> t.list.value[|s.list.value| + i].cb == cbs[i]
    decreases |cbs|
  {
    if cbs != [] {
      var n := |cbs| - 1;
      AddsInOrder(s, cbs[..n]);
      assert Functions(cbs)[..n] == Functions(cbs[..n]);
      PushAllKeeps(s, Functions(cbs[..n]));
      assert cbs == cbs[..n] + [cbs[n]];
    }
  }

  /** An array of functions is added as if they stood in its place, and what is no function is ignored. */
  lemma {:induction false} ArrayInPlace(s: State, a: seq<Arg>, b: seq<Arg>)
    requires s.list.Some?
    ensures PushAll(s, a + [Array(b)]) == PushAll(PushAll(s, a), b) == PushAll(s, a + b)
    ensures PushAll(s, a + [Arg.Other]) == PushAll(s, a)
    decreases |b|
  {
    assert (a + [Array(b)])[..|a|] == a && (a + [Arg.Other])[..|a|] == a;
    if b == [] {
      assert a + b == a;
    } else {
      var n := |b| - 1;
      ArrayInPlace(s, a, b[..n]);
      assert (a + b)[..|a| + n] == a + b[..n];
    }
  }

  // ----- the option `unique` -----

  ghost predicate OnceEach(s: State) {
    s.opts.unique &&
    (s.list.Some? ==> forall i, j :: 0 <= i < j < |s.list.value| ==> s.list.value[i].cb != s.list.value[j].cb)
  }

  lemma {:induction false} PushAllOnce(s: State, args: seq<Arg>)
    requires OnceEach(s) && s.list.Some?
    ensures OnceEach(PushAll(s, args))
    decreases args
  {
    if args != [] {
      PushAllOnce(s, args[..|args| - 1]);
      if args[|args| - 1].Array? {
        PushAllOnce(PushAll(s, args[..|args| - 1]), args[|args| - 1].args);
      }
    }
  }

  lemma {:induction false} RemoveFromOnce(s: State, cb: Callback, i: nat)
    requires OnceEach(s) && s.list.Some? && i <= |s.list.value|
    ensures OnceEach(RemoveFrom(s, cb, i))
    decreases |s.list.value| - i
  {
    var k := IndexFrom(s.list.value, cb, i);
    if k != -1 {
      RemoveFromOnce(Splice(s, k), cb, k);
    }
  }

  lemma {:induction false} RemoveAllOnce(s: State, cbs: seq<Callback>)
    requires OnceEach(s) && s.list.Some?
    ensures OnceEach(RemoveAll(s, cbs))
    decreases |cbs|
  {
    if cbs != [] {
      RemoveAllOnce(s, cbs[..|cbs| - 1]);
      RemoveFromOnce(RemoveAll(s, cbs[..|cbs| - 1]), cbs[|cbs| - 1], 0);
    }
  }

  /** In every run a list that is to hold each callback once only does so. */
  lemma {:induction false} RunOnce(opts: Options, ops: seq<Op>)
    requires opts.unique
    ensures var s := Run(Initial(opts), ops);
            OnceEach(s) && (s.list.Some? ==>
              forall i, j :: 0 <= i < j < |s.list.value| ==> s.list.value[i].cb != s.list.value[j].cb)
    decreases |ops|
  {
    if ops != [] {
      var s, op := Run(Initial(opts), ops[..|ops| - 1]), ops[|ops| - 1];
      RunOnce(opts, ops[..|ops| - 1]);
      if op.DoAdd? && s.list.Some? {
        PushAllOnce(s, op.args);
      } else if op.DoRemove? && s.list.Some? {
        RemoveAllOnce(s, op.cbs);
      }
    }
  }

  // ----- stopping, disabling, locking -----

  /** At rest with nothing to call again. */
  ghost predicate Quiet(s: State) {
    s.phase == Idle && s.memory.None?
  }

  lemma StepQuiet(s: State, op: Op)
    requires Quiet(s) && Step(s, op).begun == s.begun
    ensures Quiet(Step(s, op)) && Step(s, op).calls == s.calls
  {
    if op.DoAdd? && s.list.Some? {
      PushAllKeeps(s, op.args);
    } else if op.DoRemove? && s.list.Some? {
      RemoveAllKeeps(s, op.cbs);
    } else if op.DoFire? {
      assert s.begun + [op.data] != s.begun;
    }
  }

  lemma {:induction false} RunQuiet(s: State, ops: seq<Op>)
    requires Quiet(s) && Run(s, ops).begun == s.begun
    ensures Quiet(Run(s, ops)) && Run(s, ops).calls == s.calls
    decreases |ops|
  {
    if ops != [] {
      var front := ops[..|ops| - 1];
      RunBegun(s, front);
      StepBegun(Run(s, front), ops[|ops| - 1]);
      RunQuiet(s, front);
      StepQuiet(Run(s, front), ops[|ops| - 1]);
    }
  }

  /** A callback that returns `false` ends the firing of a list with `stopOnFalse`, if no other fire waits; and the fire
      is forgotten: until the next one begins nothing is called, whatever is added. */
  lemma StopForgets(s: State, more: seq<Op>)
    requires s.phase == Calling && s.opts.stopOnFalse && (s.stack.Some? ==> s.stack.value == [])
    requires Run(Step(s, Returned(true)), more).begun == s.begun
    ensures Step(s, Returned(true)).phase == Idle
    ensures Run(Step(s, Returned(true)), more).calls == s.calls
  {
    RunQuiet(Step(s, Returned(true)), more);
  }

  /** Without the option, and for any other value, the loop goes on to the next entry. */
  lemma ReturnGoesOn(s: State, isFalse: bool)
    requires s.phase == Calling && !(isFalse && s.opts.stopOnFalse)
    ensures var t := Step(s, Returned(isFalse));
            t.phase == Test && t.firingIndex == s.firingIndex + 1 && t.memory == s.memory && t.list == s.list
  {
  }

  /** A disabled list calls nothing any more, as long as it is not emptied. */
  lemma {:induction false} DisabledForGood(s: State, ops: seq<Op>)
    requires s.list.None? && forall i :: 0 <= i < |ops| ==> !ops[i].DoEmpty?
    ensures Run(s, ops).list.None? && Run(s, ops).calls == s.calls
    decreases |ops|
  {
    if ops != [] {
      DisabledForGood(s, ops[..|ops| - 1]);
    }
  }

  /** `empty`, and nothing else, makes a list of a disabled one again ... */
  lemma RevivedExactly(s: State, op: Op)
    requires s.list.None?
    ensures Step(s, op).list.Some? <==> op.DoEmpty? && s.phase != Test
  {
  }

  /** ... which can be fired, if it had not been before. */
  lemma RevivedFires(s: State, cb: Callback, d: Data)
    requires s.list.None? && s.phase == Idle && !s.fired && s.memory.None? && s.firingStart == 0
    ensures var t := Step(Step(Step(Step(s, DoEmpty), DoAdd([Function(cb)])), DoFire(d)), Loop);
            t.calls == s.calls + [Call(Entry(cb, |s.added|), d)]
  {
    var u := Step(s, DoEmpty);
    assert [Function(cb)][..0] == [] && !Has([], cb);
    assert PushAll(u, [Function(cb)]) == Push(u, cb);
    assert u.list.value + [Entry(cb, |s.added|)] == [Entry(cb, |s.added|)];
    assert Step(u, DoAdd([Function(cb)])).list == Some([Entry(cb, |s.added|)]);
  }

  /** A locked list that has fired begins no fire any more. */
  lemma {:induction false} LockedForGood(s: State, ops: seq<Op>)
    requires s.fired && s.stack.None?
    ensures var t := Run(s, ops);
            t.fired && t.stack.None? && t.begun == s.begun
    decreases |ops|
  {
    if ops != [] {
      var t, op := Run(s, ops[..|ops| - 1]), ops[|ops| - 1];
      LockedForGood(s, ops[..|ops| - 1]);
      if op.DoAdd? && t.list.Some? {
        PushAllKeeps(t, op.args);
      } else if op.DoRemove? && t.list.Some? {
        RemoveAllKeeps(t, op.cbs);
      }
    }
  }

  /** `disable` and `lock` bring that about; a list that has nothing to remember is disabled by `lock`. */
  lemma LockAndDisable(s: State)
    requires s.phase != Test
    ensures Step(s, DoDisable).list.None?
    ensures Step(s, DoLock).stack.None? && (s.memory.None? ==> Step(s, DoLock).list.None?)
    ensures s.memory.Some? ==> Step(s, DoLock).list == s.list && Step(s, DoLock).memory == s.memory
  {
  }
}
