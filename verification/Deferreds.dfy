/**
 `jQuery.Deferred`: three callback lists.  The done and fail lists begin with three functions of the
 library, which set the state, disable the other list and lock the progress list.
 */
module Deferreds {
  import opened Dom
  import opened Callbacks

  datatype DState = Pending | Resolved | Rejected

  datatype Which = Done | Fail | Progress

  datatype Deferred = Deferred(state: DState, done: State, fail: State, progress: State)
  {
    function List(k: Which): State {
      match k case Done => done case Fail => fail case Progress => progress
    }

    function With(k: Which, s: State): Deferred {
      match k case Done => this.(done := s) case Fail => this.(fail := s) case Progress => this.(progress := s)
    }
  }

  const ONCE_MEMORY := Options(true, true, false, false)
  const MEMORY := Options(false, true, false, false)
  const HANDLERS: seq<Callback> := [SetState, DisableOther, LockProgress]

  function Fresh(): Deferred {
    var start := [Function(SetState), Function(DisableOther), Function(LockProgress)];
    Deferred(Pending, Add(Initial(ONCE_MEMORY), start), Add(Initial(ONCE_MEMORY), start), Initial(MEMORY))
  }

  function Other(k: Which): Which {
    match k case Done => Fail case Fail => Done case Progress => Progress
  }

  function Final(k: Which): DState {
    if k.Done? then Resolved else Rejected
  }

  function Current(s: State): Callback {
    if s.calls == [] then User(0) else s.calls[|s.calls| - 1].entry.cb
  }

  /** Control is in the library, not in a callback of the user. */
  predicate Internal(s: State) {
    s.phase == Test || (s.phase == Calling && !Current(s).User?)
  }

  predicate InUserCode(d: Deferred) {
    !Internal(d.done) && !Internal(d.fail) && !Internal(d.progress)
  }

  /** What calling one of the library's own functions from list `k` does. */
  function Effect(d: Deferred, k: Which, cb: Callback): Deferred {
    match cb
    case SetState => d.(state := Final(k))
    case DisableOther => d.With(Other(k), Disable(d.List(Other(k))))
    case LockProgress => d.(progress := Lock(d.progress))
    case User(_) => d
  }

  /** The library's next step in list `k`. */
  function Proceed(d: Deferred, k: Which): Deferred {
    var s := d.List(k);
    if s.phase == Test then d.With(k, Callbacks.Step(s, Loop))
    else
      var e := Effect(d, k, Current(s));
      e.With(k, Callbacks.Step(e.List(k), Returned(false)))
  }

  predicate UserArg(a: Arg) {
    match a
    case Function(cb) => cb.User?
    case Array(inner) => forall i :: 0 <= i < |inner| ==> UserArg(inner[i])
    case Other => true
  }

  predicate UserArgs(args: seq<Arg>) {
    forall i :: 0 <= i < |args| ==> UserArg(args[i])
  }

  /** `Advance` is a step of the library; the others are what user code can do: add listeners, call
      `resolve`, `reject` or `notify`, and end the callback it is in. */
  datatype Act =
    | Advance
    | Listen(which: Which, args: seq<Arg>)
    | Settle(which: Which, data: Data)
    | Ends(which: Which, isFalse: bool)
    | Fails(which: Which)

  function Step(d: Deferred, a: Act): Deferred {
    if a.Advance? then
      if Internal(d.done) then Proceed(d, Done)
      else if Internal(d.fail) then Proceed(d, Fail)
      else if Internal(d.progress) then Proceed(d, Progress)
      else d
    else if !InUserCode(d) then d
    else
      var s := d.List(a.which);
      match a
      case Listen(k, args) => if UserArgs(args) then d.With(k, Callbacks.Step(s, DoAdd(args))) else d
      case Settle(k, x) => d.With(k, Callbacks.Step(s, DoFire(x)))
      case Ends(k, isFalse) => d.With(k, Callbacks.Step(s, Returned(isFalse)))
      case _ => d.With(a.which, Callbacks.Step(s, Threw))
  }

  function Run(d: Deferred, acts: seq<Act>): Deferred {
    if acts == [] then d else Step(Run(d, acts[..|acts| - 1]), acts[|acts| - 1])
  }

  // ----- the invariant -----

  /** The first additions are the library's own functions; all later ones come from the user. */
  ghost predicate Prepared(added: seq<Callback>) {
    HANDLERS <= added && forall i :: 3 <= i < |added| ==> added[i].User?
  }

  /** How many calls of a list are over. */
  function Over(s: State): int {
    if s.phase == Calling || s.phase == Thrown then |s.calls| - 1 else |s.calls|
  }

  ghost predicate Locked(s: State) {
    s.stack.None? && (s.list.None? || s.fired)
  }

  /** A list that has not fired: ready, or disabled for good. */
  ghost predicate Unfired(s: State) {
    !s.fired && s.phase == Idle && s.calls == [] && s.stack.None? && s.memory.None? &&
    (s.list.Some? ==> Remembers(s) && Prepared(s.added))
  }

  /** List `k` has fired: the other has not, and the effects of the library's functions are those of the
      calls that are over. */
  ghost predicate FiredOnly(d: Deferred, k: Which) {
    var s, o := d.List(k), d.List(Other(k));
    s.fired && Remembers(s) && Prepared(s.added) && Unfired(o) &&
    d.state == (if Over(s) >= 1 then Final(k) else Pending) &&
    (Over(s) >= 2 ==> o.list.None?) &&
    (Over(s) >= 3 ==> Locked(d.progress)) &&
    (Over(s) < 3 ==> Internal(s)) &&
    (s.phase == Thrown ==> Over(s) >= 3)
  }

  ghost predicate Open(d: Deferred) {
    d.state == Pending && Unfired(d.done) && Unfired(d.fail) && d.done.list.Some? && d.fail.list.Some?
  }

  /** The progress list holds and calls functions of the user only. */
  ghost predicate ProgressOk(s: State) {
    (s.memory.Some? || s.Firing() ==> s.fired) && s.opts == MEMORY &&
    (forall c :: c in s.calls ==> c.entry.cb.User?) &&
    (s.list.Some? ==> forall e :: e in s.list.value ==> e.cb.User?)
  }

  ghost predicate Inv(d: Deferred) {
    ProgressOk(d.progress) && (Open(d) || FiredOnly(d, Done) || FiredOnly(d, Fail))
  }

  lemma FreshInv()
    ensures Inv(Fresh()) && Open(Fresh())
  {
    var start := [Function(SetState), Function(DisableOther), Function(LockProgress)];
    var s := Initial(ONCE_MEMORY);
    var one, two := start[..1], start[..2];
    assert one[..0] == [] && two[..1] == one;
    assert PushAll(s, one) == Push(s, SetState);
    assert PushAll(s, two) == Push(Push(s, SetState), DisableOther);
    assert PushAll(s, start).added == HANDLERS;
    StepRemembers(s, DoAdd(start));
  }

  // ----- every step keeps it -----

  lemma {:induction false} UserPushes(s: State, args: seq<Arg>)
    requires s.list.Some? && UserArgs(args)
    ensures var t := PushAll(s, args);
            s.added <= t.added && (forall i :: |s.added| <= i < |t.added| ==> t.added[i].User?) &&
            forall e :: e in t.list.value ==> e in s.list.value || e.cb.User?
    decreases args
  {
    if args != [] {
      var n := |args| - 1;
      UserPushes(s, args[..n]);
      if args[n].Array? {
        UserPushes(PushAll(s, args[..n]), args[n].args);
      }
    }
  }

  lemma ListenKeeps(s: State, args: seq<Arg>)
    requires Remembers(s) && Prepared(s.added) && UserArgs(args) && s.phase != Test
    ensures var t := Add(s, args);
            Remembers(t) && Prepared(t.added) && t.fired == s.fired && t.calls == s.calls &&
            (if s.fired && s.phase == Idle then t.phase == Test else t.phase == s.phase) &&
            t.stack.None? && (!s.fired ==> t.memory.None?)
  {
    StepRemembers(s, DoAdd(args));
    UserPushes(s, args);
    PushAllKeeps(s, args);
  }

  /** The call made next by a remembering list is the addition of that number. */
  lemma NextCall(s: State)
    requires Remembers(s) && Prepared(s.added) && s.fired && s.phase == Test
    ensures var t := Callbacks.Step(s, Loop);
            Remembers(t) && t.added == s.added && t.fired &&
            if LoopTest(s) then t.phase == Calling && |s.calls| < |s.added| && |t.calls| == |s.calls| + 1 &&
                Current(t) == s.added[|s.calls|]
            else t.phase == Idle && t.calls == s.calls && |s.calls| == |s.added|
  {
    assert s.Firing() && Position(s) == s.firingIndex;
    if LoopTest(s) {
      CallRemembers(s);
      assert s.list.value[s.firingIndex] == Entry(s.added[|s.calls|], |s.calls|);
    } else {
      FinishRemembers(s);
    }
  }

  lemma ReturnKeeps(s: State, isFalse: bool)
    requires Remembers(s) && Prepared(s.added) && s.fired && s.phase == Calling
    ensures var t := Callbacks.Step(s, Returned(isFalse));
            Remembers(t) && t.added == s.added && t.fired && t.phase == Test && t.calls == s.calls
  {
    StepRemembers(s, Returned(isFalse));
  }

  lemma CurrentHandler(d: Deferred, k: Which)
    requires !k.Progress? && FiredOnly(d, k) && d.List(k).phase == Calling && !Current(d.List(k)).User?
    ensures 1 <= |d.List(k).calls| <= 3 && Current(d.List(k)) == HANDLERS[|d.List(k).calls| - 1]
  {
    var s := d.List(k);
    var n := |s.calls|;
    assert s.calls[n - 1] == Call(Entry(s.added[n - 1], n - 1), s.data);
  }

  /** Calling one of the three library functions, in their order. */
  lemma HandlerInv(d: Deferred, k: Which)
    requires !k.Progress? && FiredOnly(d, k) && ProgressOk(d.progress)
    requires d.List(k).phase == Calling && !Current(d.List(k)).User?
    ensures FiredOnly(Proceed(d, k), k) && ProgressOk(Proceed(d, k).progress)
  {
    CurrentHandler(d, k);
    ReturnKeeps(d.List(k), false);
  }

  lemma LoopInv(d: Deferred, k: Which)
    requires !k.Progress? && FiredOnly(d, k) && d.List(k).phase == Test
    ensures FiredOnly(Proceed(d, k), k) && Proceed(d, k).progress == d.progress
  {
    var s := d.List(k);
    NextCall(s);
    assert |s.calls| < 3 ==> LoopTest(s) && s.added[|s.calls|] == HANDLERS[|s.calls|];
  }

  predicate UserOp(op: Op) {
    op.Loop? || op.Returned? || op.Threw? || op.DoFire? || (op.DoAdd? && UserArgs(op.args))
  }

  lemma ProgressStep(s: State, op: Op)
    requires ProgressOk(s) && UserOp(op)
    ensures ProgressOk(Callbacks.Step(s, op))
    ensures Locked(s) ==> Locked(Callbacks.Step(s, op))
  {
    if op.DoAdd? && s.list.Some? {
      UserPushes(s, op.args);
      PushAllKeeps(s, op.args);
    }
    if op.Loop? && s.phase == Test && LoopTest(s) {
      var t := CallNext(s);
      assert forall c :: c in t.calls ==> c in s.calls || c.entry in s.list.value;
    }
  }

  /** What user code does to list `k` keeps the invariant. */
  lemma UserStepInv(d: Deferred, k: Which, op: Op)
    requires Inv(d) && InUserCode(d) && UserOp(op) && !op.Loop?
    ensures Inv(d.With(k, Callbacks.Step(d.List(k), op)))
  {
    if k.Progress? {
      ProgressStep(d.progress, op);
    } else if FiredOnly(d, k) {
      UserOnFired(d, k, op);
    } else {
      UserOnUnfired(d, k, op);
    }
  }

  lemma UserOnFired(d: Deferred, k: Which, op: Op)
    requires !k.Progress? && FiredOnly(d, k) && InUserCode(d) && UserOp(op) && !op.Loop?
    ensures FiredOnly(d.With(k, Callbacks.Step(d.List(k), op)), k)
  {
    var s := d.List(k);
    match op
    case DoAdd(args) =>
      ListenKeeps(s, args);
    case Returned(isFalse) =>
      if s.phase == Calling {
        ReturnKeeps(s, isFalse);
      }
    case _ =>
      StepRemembers(s, op);
  }

  lemma UserOnUnfired(d: Deferred, k: Which, op: Op)
    requires !k.Progress? && Inv(d) && !FiredOnly(d, k) && InUserCode(d) && UserOp(op) && !op.Loop?
    ensures Inv(d.With(k, Callbacks.Step(d.List(k), op)))
  {
    var s := d.List(k);
    if s.list.Some? {
      match op
      case DoAdd(args) => ListenKeeps(s, args);
      case DoFire(x) =>
        FireRemembers(s, x);
      case _ =>
    }
  }

  /** Every step of every run keeps the invariant. */
  lemma StepInv(d: Deferred, a: Act)
    requires Inv(d)
    ensures Inv(Step(d, a))
  {
    if a.Advance? {
      if Internal(d.done) {
        AdvanceInv(d, Done);
      } else if Internal(d.fail) {
        AdvanceInv(d, Fail);
      } else if Internal(d.progress) {
        ProgressTest(d.progress);
        ProgressStep(d.progress, Loop);
      }
    } else if InUserCode(d) {
      match a
      case Listen(k, args) =>
        if UserArgs(args) {
          UserStepInv(d, k, DoAdd(args));
        }
      case Settle(k, x) => UserStepInv(d, k, DoFire(x));
      case Ends(k, isFalse) => UserStepInv(d, k, Returned(isFalse));
      case Fails(k) => UserStepInv(d, k, Threw);
      case _ =>
    }
  }

  lemma ProgressTest(s: State)
    requires ProgressOk(s) && Internal(s)
    ensures s.phase == Test
  {
    assert s.calls != [] ==> s.calls[|s.calls| - 1] in s.calls;
  }

  lemma AdvanceInv(d: Deferred, k: Which)
    requires Inv(d) && !k.Progress? && Internal(d.List(k))
    ensures Inv(Proceed(d, k))
  {
    if d.List(k).phase == Test {
      LoopInv(d, k);
    } else {
      HandlerInv(d, k);
    }
  }

  lemma {:induction false} RunInv(d: Deferred, acts: seq<Act>)
    requires Inv(d)
    ensures Inv(Run(d, acts))
    decreases |acts|
  {
    if acts != [] {
      RunInv(d, acts[..|acts| - 1]);
      StepInv(Run(d, acts[..|acts| - 1]), acts[|acts| - 1]);
    }
  }

  // ----- what a Deferred promises -----

  /** At most one of the done and the fail list ever fires, and the state says which. */
  lemma OneOutcome(acts: seq<Act>)
    ensures var d := Run(Fresh(), acts);
            !(d.done.fired && d.fail.fired) &&
            (d.done.fired ==> d.fail.calls == []) && (d.fail.fired ==> d.done.calls == []) &&
            (d.state == Resolved ==> d.done.fired) && (d.state == Rejected ==> d.fail.fired) &&
            (InUserCode(d) ==> (d.done.fired <==> d.state == Resolved) && (d.fail.fired <==> d.state == Rejected))
  {
    FreshInv();
    RunInv(Fresh(), acts);
  }

  /** The state changes at most once. */
  lemma {:induction false} SettledForGood(acts: seq<Act>, more: seq<Act>)
    ensures var d, e := Run(Fresh(), acts), Run(Run(Fresh(), acts), more);
            Inv(e) && (d.state != Pending ==> e.state == d.state)
    decreases |more|
  {
    var d := Run(Fresh(), acts);
    FreshInv();
    RunInv(Fresh(), acts);
    if more != [] {
      SettledForGood(acts, more[..|more| - 1]);
      var e := Run(d, more[..|more| - 1]);
      StepInv(e, more[|more| - 1]);
      if e.state != Pending {
        StaysSettled(e, more[|more| - 1]);
      }
    }
  }

  lemma UserKeepsState(d: Deferred, a: Act)
    requires !a.Advance?
    ensures Step(d, a).state == d.state
  {
  }

  lemma StaysSettled(d: Deferred, a: Act)
    requires Inv(d) && d.state != Pending
    ensures Step(d, a).state == d.state
  {
    if !a.Advance? {
      UserKeepsState(d, a);
    } else if Internal(d.done) || Internal(d.fail) {
      var k := if Internal(d.done) then Done else Fail;
      assert FiredOnly(d, k) && Step(d, a) == Proceed(d, k);
      if d.List(k).phase == Calling {
        CurrentHandler(d, k);
      }
    } else if Internal(d.progress) {
      ProgressTest(d.progress);
    }
  }

  /** A list that is disabled, or has fired and may not fire again, ignores a fire. */
  lemma FireIgnored(s: State, x: Data)
    requires s.list.None? || (s.fired && s.stack.None?)
    ensures Callbacks.Step(s, DoFire(x)) == s
  {
  }

  /** Once settled, no later `resolve`, `reject` or `notify` changes anything. */
  lemma NoLaterEffect(acts: seq<Act>, k: Which, x: Data)
    ensures var d := Run(Fresh(), acts);
            InUserCode(d) && d.state != Pending ==> Step(d, Settle(k, x)) == d
  {
    FreshInv();
    RunInv(Fresh(), acts);
    var d := Run(Fresh(), acts);
    if InUserCode(d) && d.state != Pending {
      var f := if d.state == Resolved then Done else Fail;
      assert FiredOnly(d, f) && Over(d.List(f)) >= 3;
      FireIgnored(d.List(k), x);
    }
  }

  /** When a settled Deferred is at rest, every listener of the outcome, whenever it was added, has been
      called exactly once, in order of addition, with the data of the settling. */
  lemma ListenersServed(acts: seq<Act>, k: Which)
    requires !k.Progress?
    ensures var s := Run(Fresh(), acts).List(k);
            s.fired && s.phase == Idle ==> AllCalledOnce(s)
  {
    FreshInv();
    RunInv(Fresh(), acts);
  }

  /** Two steps of the library call one of its functions. */
  lemma OneHandler(d: Deferred, k: Which)
    requires !k.Progress? && Inv(d) && FiredOnly(d, k) && d.List(k).phase == Test && |d.List(k).calls| < 3
    ensures var e := Step(Step(d, Advance), Advance);
            Inv(e) && FiredOnly(e, k) && e.List(k).phase == Test && |e.List(k).calls| == |d.List(k).calls| + 1 &&
            e.List(k).data == d.List(k).data
  {
    EnterHandler(d, k);
    LeaveHandler(Step(d, Advance), k);
  }

  lemma EnterHandler(d: Deferred, k: Which)
    requires !k.Progress? && Inv(d) && FiredOnly(d, k) && d.List(k).phase == Test && |d.List(k).calls| < 3
    ensures var e := Step(d, Advance);
            Inv(e) && FiredOnly(e, k) && e.List(k).phase == Calling && !Current(e.List(k)).User? &&
            |e.List(k).calls| == |d.List(k).calls| + 1 && e.List(k).data == d.List(k).data
  {
    var s := d.List(k);
    assert Step(d, Advance) == Proceed(d, k) by {
      assert !Internal(d.List(Other(k)));
    }
    NextCall(s);
    assert s.added[|s.calls|] == HANDLERS[|s.calls|];
    AdvanceInv(d, k);
    LoopInv(d, k);
  }

  lemma LeaveHandler(d: Deferred, k: Which)
    requires !k.Progress? && Inv(d) && FiredOnly(d, k) && d.List(k).phase == Calling && !Current(d.List(k)).User?
    ensures var e := Step(d, Advance);
            Inv(e) && FiredOnly(e, k) && e.List(k).phase == Test && |e.List(k).calls| == |d.List(k).calls| &&
            e.List(k).data == d.List(k).data
  {
    assert Step(d, Advance) == Proceed(d, k) by {
      assert !Internal(d.List(Other(k)));
    }
    HandlerInv(d, k);
    HandlerProceeds(d, k);
  }

  lemma HandlerProceeds(d: Deferred, k: Which)
    requires !k.Progress? && FiredOnly(d, k) && d.List(k).phase == Calling && !Current(d.List(k)).User?
    ensures var t := Proceed(d, k).List(k);
            t.phase == Test && t.calls == d.List(k).calls && t.data == d.List(k).data
  {
    assert Effect(d, k, Current(d.List(k))).List(k) == d.List(k);
  }

  /** `resolve` and `reject` settle a Deferred that is open: before any listener of the user is called, the
      state is set, the other list is disabled and the progress list is locked. */
  lemma SettleSettles(d: Deferred, k: Which, x: Data)
    requires !k.Progress? && Inv(d) && Open(d) && InUserCode(d)
    ensures var e := Step(Step(Step(Step(Step(Step(Step(d, Settle(k, x)),
                       Advance), Advance), Advance), Advance), Advance), Advance);
            e.state == Final(k) && e.List(k).data == x && |e.List(k).calls| == 3 &&
            e.List(Other(k)).list.None? && Locked(e.progress)
  {
    var f := Step(d, Settle(k, x));
    FireRemembers(d.List(k), x);
    StepInv(d, Settle(k, x));
    assert FiredOnly(f, k);
    OneHandler(f, k);
    OneHandler(Step(Step(f, Advance), Advance), k);
    OneHandler(Step(Step(Step(Step(f, Advance), Advance), Advance), Advance), k);
  }
}
