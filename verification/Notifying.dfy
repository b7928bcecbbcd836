/**
 The progress list of a Deferred: `notify` on a pending Deferred calls the progress listeners with its data, and as
 long as the Deferred is pending the list goes on taking listeners and notifications.
 */
module Notifying {
  import opened Dom
  import Callbacks
  import Refiring
  import opened Deferreds

  /** The progress list can be added to and fired as long as neither other list has fired. */
  ghost predicate Lively(d: Deferred) {
    Callbacks.Inv(d.progress) &&
    (d.done.fired || d.fail.fired || (d.progress.list.Some? && d.progress.stack.Some?))
  }

  /** What holds of the progress list from a notification until the next one begins. */
  ghost predicate Told(d: Deferred, n: nat, x: Callbacks.Data) {
    Callbacks.Inv(d.progress) && Refiring.Era(d.progress, n, 0, x)
  }

  lemma FiredStays(s: Callbacks.State, op: Callbacks.Op)
    requires s.fired
    ensures Callbacks.Step(s, op).fired
  {
    if op.DoAdd? && s.list.Some? {
      Callbacks.PushAllKeeps(s, op.args);
    } else if op.DoRemove? && s.list.Some? {
      Callbacks.RemoveAllKeeps(s, op.cbs);
    }
  }

  /** User code and the loop leave a list that may fire again so. */
  lemma StaysLively(s: Callbacks.State, op: Callbacks.Op)
    requires UserOp(op) && s.list.Some? && s.stack.Some?
    ensures Callbacks.Step(s, op).list.Some? && Callbacks.Step(s, op).stack.Some?
  {
    if op.DoAdd? {
      Callbacks.PushAllKeeps(s, op.args);
    }
  }

  /** Exactly one thing happens to the progress list in a step: nothing, a step of the list, or `lock`, which is called
      only from a list that has fired. */
  ghost predicate Touched(d: Deferred, e: Deferred) {
    e.progress == d.progress || Operated(d.progress, e.progress) ||
    (e.progress == Callbacks.Lock(d.progress) && (d.done.fired || d.fail.fired))
  }

  ghost predicate Operated(s: Callbacks.State, t: Callbacks.State) {
    exists op :: UserOp(op) && t == Callbacks.Step(s, op)
  }

  lemma StepTouches(d: Deferred, a: Act)
    requires Inv(d)
    ensures Touched(d, Step(d, a))
    ensures d.done.fired ==> Step(d, a).done.fired
    ensures d.fail.fired ==> Step(d, a).fail.fired
  {
    if a.Advance? {
      if Internal(d.done) {
        FiredAdvances(d, Done);
      } else if Internal(d.fail) {
        FiredAdvances(d, Fail);
      } else if Internal(d.progress) {
        ProgressTest(d.progress);
        assert UserOp(Callbacks.Loop) && Proceed(d, Progress).progress == Callbacks.Step(d.progress, Callbacks.Loop);
      }
    } else if InUserCode(d) {
      match a
      case Listen(k, args) =>
        if UserArgs(args) {
          UserTouches(d, k, Callbacks.DoAdd(args));
        }
      case Settle(k, x) => UserTouches(d, k, Callbacks.DoFire(x));
      case Ends(k, isFalse) => UserTouches(d, k, Callbacks.Returned(isFalse));
      case Fails(k) => UserTouches(d, k, Callbacks.Threw);
      case _ =>
    }
  }

  lemma UserTouches(d: Deferred, k: Which, op: Callbacks.Op)
    requires UserOp(op)
    ensures var e := d.With(k, Callbacks.Step(d.List(k), op));
            Touched(d, e) && (d.done.fired ==> e.done.fired) && (d.fail.fired ==> e.fail.fired)
  {
    if !k.Progress? && d.List(k).fired {
      FiredStays(d.List(k), op);
    }
  }

  lemma FiredAdvances(d: Deferred, k: Which)
    requires Inv(d) && !k.Progress? && Internal(d.List(k))
    ensures Touched(d, Proceed(d, k)) && Proceed(d, k).List(k).fired
    ensures Proceed(d, k).List(Other(k)).fired == d.List(Other(k)).fired
  {
    assert FiredOnly(d, k);
    if d.List(k).phase == Callbacks.Test {
      FiredStays(d.List(k), Callbacks.Loop);
    } else {
      FiredStays(d.List(k), Callbacks.Returned(false));
    }
  }

  lemma StepLively(d: Deferred, a: Act)
    requires Inv(d) && Lively(d)
    ensures Lively(Step(d, a))
  {
    var e := Step(d, a);
    StepTouches(d, a);
    if Operated(d.progress, e.progress) {
      var op :| UserOp(op) && e.progress == Callbacks.Step(d.progress, op);
      Callbacks.StepInv(d.progress, op);
      if d.progress.list.Some? && d.progress.stack.Some? {
        StaysLively(d.progress, op);
      }
    }
  }

  lemma {:induction false} RunLively(acts: seq<Act>)
    ensures Inv(Run(Fresh(), acts)) && Lively(Run(Fresh(), acts))
    decreases |acts|
  {
    if acts == [] {
      FreshInv();
    } else {
      RunLively(acts[..|acts| - 1]);
      StepLively(Run(Fresh(), acts[..|acts| - 1]), acts[|acts| - 1]);
      StepInv(Run(Fresh(), acts[..|acts| - 1]), acts[|acts| - 1]);
    }
  }

  /** A notification goes on until the next one begins. */
  lemma StepTold(d: Deferred, a: Act, n: nat, x: Callbacks.Data)
    requires Inv(d) && Told(d, n, x) && Step(d, a).progress.begun == d.progress.begun
    ensures Told(Step(d, a), n, x)
  {
    var e := Step(d, a);
    StepTouches(d, a);
    if Operated(d.progress, e.progress) {
      var op :| UserOp(op) && e.progress == Callbacks.Step(d.progress, op);
      Callbacks.StepInv(d.progress, op);
      Refiring.StepEra(d.progress, op, n, 0, x);
    }
  }

  lemma StepBegun(d: Deferred, a: Act)
    requires Inv(d)
    ensures d.progress.begun <= Step(d, a).progress.begun && d.progress.calls <= Step(d, a).progress.calls
  {
    StepTouches(d, a);
    if Operated(d.progress, Step(d, a).progress) {
      var op :| UserOp(op) && Step(d, a).progress == Callbacks.Step(d.progress, op);
      Refiring.StepBegun(d.progress, op);
    }
  }

  lemma {:induction false} RunBegun(d: Deferred, acts: seq<Act>)
    requires Inv(d)
    ensures d.progress.begun <= Run(d, acts).progress.begun && d.progress.calls <= Run(d, acts).progress.calls
    decreases |acts|
  {
    if acts != [] {
      var front := acts[..|acts| - 1];
      RunBegun(d, front);
      RunInv(d, front);
      StepBegun(Run(d, front), acts[|acts| - 1]);
    }
  }

  lemma {:induction false} RunTold(d: Deferred, acts: seq<Act>, n: nat, x: Callbacks.Data)
    requires Inv(d) && Told(d, n, x) && Run(d, acts).progress.begun == d.progress.begun
    ensures Told(Run(d, acts), n, x)
    decreases |acts|
  {
    if acts != [] {
      var front, e := acts[..|acts| - 1], Run(d, acts[..|acts| - 1]);
      RunBegun(d, front);
      RunInv(d, front);
      StepBegun(e, acts[|acts| - 1]);
      RunTold(d, front, n, x);
      StepTold(e, acts[|acts| - 1], n, x);
    }
  }

  /** `notify` on a pending Deferred begins a fire of its progress list, or lets it wait if one is under way ... */
  lemma NotifyFires(acts: seq<Act>, x: Callbacks.Data)
    requires var d := Run(Fresh(), acts); InUserCode(d) && d.state == Pending
    ensures var d := Run(Fresh(), acts);
            var p, q := d.progress, Step(d, Settle(Progress, x)).progress;
            if p.Firing() then q == p.(stack := q.stack, asked := p.asked + [x]) && p.stack.Some? &&
                               q.stack == Some(p.stack.value + [x])
            else q.phase == Callbacks.Test && q.data == x && q.firingIndex == 0 && q.list == p.list && p.list.Some? &&
                 q.calls == p.calls && q.begun == p.begun + [x]
  {
    RunLively(acts);
    assert Open(Run(Fresh(), acts));
  }

  /** ... and until the next fire begins it calls only the progress listeners, each at most once and with that
      data; when its loop is through, each one in the list has been called. */
  lemma NotifyCalls(acts: seq<Act>, x: Callbacks.Data, more: seq<Act>)
    requires var d := Run(Fresh(), acts); InUserCode(d) && d.state == Pending && !d.progress.Firing()
    requires var e := Step(Run(Fresh(), acts), Settle(Progress, x)); Run(e, more).progress.begun == e.progress.begun
    ensures var n := |Run(Fresh(), acts).progress.calls|;
            var t := Run(Step(Run(Fresh(), acts), Settle(Progress, x)), more).progress;
            Run(Fresh(), acts).progress.calls <= t.calls &&
            (forall i, j :: n <= i < j < |t.calls| ==> t.calls[i].entry != t.calls[j].entry) &&
            (forall i :: n <= i < |t.calls| ==> t.calls[i].data == x && t.calls[i].entry.cb.User?) &&
            (t.phase == Callbacks.Test && t.list.Some? && !Callbacks.LoopTest(t) ==>
               forall e :: e in t.list.value ==> exists i :: n <= i < |t.calls| && t.calls[i].entry == e)
  {
    var d, a := Run(Fresh(), acts), Settle(Progress, x);
    var e, n := Step(d, a), |d.progress.calls|;
    RunLively(acts);
    StepInv(d, a);
    NotifyFires(acts, x);
    assert e.progress == Callbacks.Step(d.progress, Callbacks.DoFire(x));
    Callbacks.StepInv(d.progress, Callbacks.DoFire(x));
    Refiring.BeginsEra(d.progress, Callbacks.DoFire(x));
    RunTold(e, more, n, x);
    RunBegun(e, more);
    RunInv(e, more);
    var t := Run(e, more).progress;
    if t.phase == Callbacks.Test && t.list.Some? && !Callbacks.LoopTest(t) {
      Refiring.EndCalls(t, n, 0, x);
    }
  }
}
