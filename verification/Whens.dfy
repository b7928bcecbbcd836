/**
 `jQuery.when`: one master Deferred over several arguments, counted down by `remaining`.  A promise
 settles at most once (see `Deferreds.OneOutcome`); settling a settled master has no effect (see
 `Deferreds.NoLaterEffect`).
 */
module Whens {
  import opened Dom

  /** An argument of `when`, and what it stands for in the values of the master. */
  datatype Value = Plain(v: nat) | Promise(id: nat) | Several(vs: seq<nat>) | Undefined

  datatype Event = Resolves(at: nat, args: seq<nat>) | Rejects(at: nat, reason: nat)

  datatype Master = Pending | Resolved(values: seq<Value>) | Rejected(reason: nat)

  /** The value a promise contributes: its one argument, or the array of them. */
  function Collapse(args: seq<nat>): Value {
    if |args| > 1 then Several(args) else if |args| == 1 then Plain(args[0]) else Undefined
  }

  // ----- what the master should be -----

  /** A history of settlings: of promises only, and of each at most once. */
  ghost predicate Legal(args: seq<Value>, history: seq<Event>) {
    (forall k :: 0 <= k < |history| ==> history[k].at < |args| && args[history[k].at].Promise?) &&
    forall j, k :: 0 <= j < k < |history| ==> history[j].at != history[k].at
  }

  /** What argument `i` contributes, if it is known already. */
  function Known(args: seq<Value>, history: seq<Event>, i: nat): Option<Value>
    requires i < |args|
  {
    if !args[i].Promise? then Some(args[i])
    else if history == [] then None
    else
      var e := history[|history| - 1];
      if e.Resolves? && e.at == i then Some(Collapse(e.args))
      else Known(args, history[..|history| - 1], i)
  }

  function FirstRejection(history: seq<Event>): Option<nat> {
    if history == [] then None
    else
      var before := FirstRejection(history[..|history| - 1]);
      if before.Some? then before
      else if history[|history| - 1].Rejects? then Some(history[|history| - 1].reason) else None
  }

  ghost predicate AllKnown(args: seq<Value>, history: seq<Event>) {
    forall i :: 0 <= i < |args| ==> Known(args, history, i).Some?
  }

  /** Rejected on the first rejection; resolved when every argument is known, each value at its own
      position; pending otherwise. */
  ghost function Verdict(args: seq<Value>, history: seq<Event>): Master {
    if FirstRejection(history).Some? then Rejected(FirstRejection(history).value)
    else if AllKnown(args, history) then
      Resolved(seq(|args|, i requires 0 <= i < |args| => Known(args, history, i).value))
    else Pending
  }

  // ----- counting -----

  /** How many of the first `n` arguments are still unknown. */
  ghost function Unknown(args: seq<Value>, history: seq<Event>, n: nat): nat
    requires n <= |args|
  {
    if n == 0 then 0
    else Unknown(args, history, n - 1) + if Known(args, history, n - 1).None? then 1 else 0
  }

  lemma KnownAfter(args: seq<Value>, history: seq<Event>, e: Event, i: nat)
    requires i < |args|
    ensures Known(args, history + [e], i) ==
            if args[i].Promise? && e.Resolves? && e.at == i then Some(Collapse(e.args)) else Known(args, history, i)
  {
    assert (history + [e])[..|history|] == history;
  }

  lemma RejectionAfter(history: seq<Event>, e: Event)
    ensures FirstRejection(history + [e]) ==
            if FirstRejection(history).Some? then FirstRejection(history)
            else if e.Rejects? then Some(e.reason) else None
  {
    assert (history + [e])[..|history|] == history;
  }

  lemma {:induction false} UnknownAfter(args: seq<Value>, history: seq<Event>, e: Event, n: nat)
    requires n <= |args| && e.at < |args| && args[e.at].Promise? && Known(args, history, e.at).None?
    ensures Unknown(args, history + [e], n) ==
            Unknown(args, history, n) - if e.Resolves? && e.at < n then 1 else 0
    decreases n
  {
    if n > 0 {
      UnknownAfter(args, history, e, n - 1);
      KnownAfter(args, history, e, n - 1);
    }
  }

  ghost predicate KnownUpTo(args: seq<Value>, history: seq<Event>, n: nat)
    requires n <= |args|
  {
    forall i :: 0 <= i < n ==> Known(args, history, i).Some?
  }

  lemma {:induction false} UnknownZero(args: seq<Value>, history: seq<Event>, n: nat)
    requires n <= |args|
    ensures (Unknown(args, history, n) == 0) == KnownUpTo(args, history, n)
    decreases n
  {
    if n > 0 {
      UnknownZero(args, history, n - 1);
      assert KnownUpTo(args, history, n) == (KnownUpTo(args, history, n - 1) && Known(args, history, n - 1).Some?);
    }
  }

  /** No event, no knowledge. */
  lemma {:induction false} UnheardUnknown(args: seq<Value>, history: seq<Event>, i: nat)
    requires i < |args| && args[i].Promise? && forall k :: 0 <= k < |history| ==> history[k].at != i
    ensures Known(args, history, i).None?
    decreases |history|
  {
    if history != [] {
      UnheardUnknown(args, history[..|history| - 1], i);
    }
  }

  /** A rejected promise never becomes known, so a rejected master is never also resolved. */
  lemma {:induction false} RejectedUnknown(args: seq<Value>, history: seq<Event>)
    requires Legal(args, history) && FirstRejection(history).Some?
    ensures exists i :: 0 <= i < |args| && Known(args, history, i).None?
    decreases |history|
  {
    var n := |history| - 1;
    var e := history[n];
    assert history == history[..n] + [e];
    if FirstRejection(history[..n]).Some? {
      RejectedUnknown(args, history[..n]);
      var k := RejectionAt(history[..n]);
      assert history[..n][k] == history[k];
      OnlyRejected(args, history, k);
    } else {
      OnlyRejected(args, history, n);
    }
  }

  lemma {:induction false} RejectionAt(history: seq<Event>) returns (k: nat)
    requires FirstRejection(history).Some?
    ensures k < |history| && history[k].Rejects?
    decreases |history|
  {
    k := |history| - 1;
    if FirstRejection(history[..k]).Some? {
      k := RejectionAt(history[..k]);
    }
  }

  lemma {:induction false} OnlyRejected(args: seq<Value>, history: seq<Event>, k: nat)
    requires Legal(args, history) && k < |history| && history[k].Rejects?
    ensures Known(args, history, history[k].at).None?
    decreases |history|
  {
    var n := |history| - 1;
    if k < n {
      OnlyRejected(args, history[..n], k);
    } else {
      UnheardUnknown(args, history[..n], history[k].at);
    }
  }

  /** A settled master stays as it is. */
  lemma VerdictStable(args: seq<Value>, history: seq<Event>, e: Event)
    requires Legal(args, history + [e])
    requires Verdict(args, history) != Pending
    ensures Verdict(args, history + [e]) == Verdict(args, history)
  {
    var longer := history + [e];
    assert longer[|history|] == e;
    assert forall k :: 0 <= k < |history| ==> longer[k] == history[k];
    RejectionAfter(history, e);
    UnheardUnknown(args, history, e.at);
  }

  /** The master is to be resolved exactly when every promise has resolved; a rejection rules it out. */
  lemma ResolvedExactly(args: seq<Value>, history: seq<Event>)
    requires Legal(args, history)
    ensures Verdict(args, history).Resolved? <==> AllKnown(args, history)
    ensures Verdict(args, history).Rejected? <==> exists k :: 0 <= k < |history| && history[k].Rejects?
  {
    if FirstRejection(history).Some? {
      RejectedUnknown(args, history);
      var k := RejectionAt(history);
    } else {
      NoRejection(history);
    }
  }

  /** Each value of a resolved master stands at the position of its argument: a plain argument itself; for a promise its
      one value, all of them if it was resolved with more, and `undefined` if with none. */
  lemma ResolvedValues(args: seq<Value>, history: seq<Event>, i: nat)
    requires Verdict(args, history).Resolved? && i < |args|
    ensures var values := Verdict(args, history).values;
            |values| == |args| &&
            if !args[i].Promise? then values[i] == args[i]
            else exists k :: 0 <= k < |history| && history[k].Resolves? && history[k].at == i && values[i] ==
                   match |history[k].args|
                   case 0 => Undefined
                   case 1 => Plain(history[k].args[0])
                   case _ => Several(history[k].args)
  {
    if args[i].Promise? {
      var k := ResolutionAt(args, history, i);
    }
  }

  lemma {:induction false} ResolutionAt(args: seq<Value>, history: seq<Event>, i: nat) returns (k: nat)
    requires i < |args| && args[i].Promise? && Known(args, history, i).Some?
    ensures k < |history| && history[k].Resolves? && history[k].at == i
    ensures Known(args, history, i).value == Collapse(history[k].args)
    decreases |history|
  {
    k := |history| - 1;
    if !(history[k].Resolves? && history[k].at == i) {
      k := ResolutionAt(args, history[..k], i);
    }
  }

  lemma {:induction false} NoRejection(history: seq<Event>)
    requires FirstRejection(history).None?
    ensures forall k :: 0 <= k < |history| ==> !history[k].Rejects?
    decreases |history|
  {
    if history != [] {
      NoRejection(history[..|history| - 1]);
      assert forall k :: 0 <= k < |history| - 1 ==> history[..|history| - 1][k] == history[k];
    }
  }

  /** What one more settling changes. */
  lemma Heard(args: seq<Value>, history: seq<Event>, e: Event, n: nat)
    requires e.at < n <= |args| && Legal(args, history + [e])
    ensures Legal(args, history) && Known(args, history, e.at).None?
    ensures Unknown(args, history + [e], n) == Unknown(args, history, n) - if e.Resolves? then 1 else 0
    ensures forall i :: 0 <= i < |args| ==>
              Known(args, history + [e], i) ==
              if i == e.at && e.Resolves? then Some(Collapse(e.args)) else Known(args, history, i)
  {
    assert (history + [e])[|history|] == e;
    assert forall k :: 0 <= k < |history| ==> (history + [e])[k] == history[k];
    UnheardUnknown(args, history, e.at);
    UnknownAfter(args, history, e, n);
    forall i | 0 <= i < |args|
      ensures Known(args, history + [e], i) ==
              if i == e.at && e.Resolves? then Some(Collapse(e.args)) else Known(args, history, i)
    {
      KnownAfter(args, history, e, i);
    }
  }

  /** The values hold what is known, and only promises reached by the loop were heard of. */
  ghost predicate InStep(args: seq<Value>, history: seq<Event>, reached: nat, values: seq<Value>) {
    Legal(args, history) && reached <= |args| == |values| &&
    (forall k :: 0 <= k < |history| ==> history[k].at < reached) &&
    forall i :: 0 <= i < |args| ==> values[i] == ValueAt(args, history, i)
  }

  function ValueAt(args: seq<Value>, history: seq<Event>, i: nat): Value
    requires i < |args|
  {
    if Known(args, history, i).Some? then Known(args, history, i).value else args[i]
  }

  lemma StaysInStep(args: seq<Value>, history: seq<Event>, e: Event, reached: nat, values: seq<Value>)
    requires InStep(args, history, reached, values) && e.at < reached && Legal(args, history + [e])
    ensures InStep(args, history + [e], reached, if e.Resolves? then values[e.at := Collapse(e.args)] else values)
  {
    var h, later := history + [e], if e.Resolves? then values[e.at := Collapse(e.args)] else values;
    Heard(args, history, e, reached);
    forall k | 0 <= k < |h| ensures h[k].at < reached {
      assert k < |history| ==> h[k] == history[k];
    }
    forall i | 0 <= i < |args| ensures later[i] == ValueAt(args, h, i) {
      assert values[i] == ValueAt(args, history, i);
    }
  }

  // ----- the code -----

  class When {
    const args: seq<Value>
    var remaining: int
    var resolveValues: seq<Value>
    var master: Master

    /** Set when the master is the one argument itself. */
    var delegated: bool

    /** How many arguments the loop has dealt with. */
    ghost var reached: nat

    /** The settlings the code was told of. */
    ghost var history: seq<Event>

    ghost predicate Counted()
      reads this
    {
      InStep(args, history, reached, resolveValues) &&
      (!delegated ==> remaining == Unknown(args, history, reached) + (|args| - reached)) &&
      (delegated <==> |args| == 1 && args[0].Promise?) && (delegated ==> reached == 1)
    }

    /** The master follows the settlings heard of and the count. */
    ghost predicate Tracked()
      reads this
    {
      Counted() &&
      master == if FirstRejection(history).Some? then Rejected(FirstRejection(history).value)
                else if remaining == 0 then Resolved(resolveValues) else Pending
    }

    /** As above while the loop runs: a plain argument counts down without settling the master. */
    ghost predicate Partly()
      reads this
    {
      Counted() &&
      if FirstRejection(history).Some? then master == Rejected(FirstRejection(history).value)
      else master == Pending || (remaining == 0 && master == Resolved(resolveValues))
    }

    lemma MasterIsVerdict()
      requires Tracked() && !delegated && reached == |args|
      ensures master == Verdict(args, history)
    {
      UnknownZero(args, history, reached);
      ghost var h := history;
      if remaining == 0 && FirstRejection(h).None? {
        assert Unknown(args, h, reached) == 0 && KnownUpTo(args, h, reached);
        assert AllKnown(args, h);
        assert resolveValues == seq(|args|, i requires 0 <= i < |args| => Known(args, h, i).value);
      }
    }

    method Settle(m: Master)
      modifies this`master
      ensures master == if old(master) == Pending then m else old(master)
    {
      if master == Pending {
        master := m;
      }
    }

    /** The callback made by `updateFunc` for the values of the master. */
    method Update(i: nat, values: seq<nat>)
      requires Counted() && !delegated && i < reached && Legal(args, history + [Resolves(i, values)])
      modifies this`remaining, this`resolveValues, this`master, this`history
      ensures Counted() && history == old(history) + [Resolves(i, values)]
      ensures remaining == old(remaining) - 1
      ensures master == if remaining == 0 && old(master) == Pending then Resolved(resolveValues) else old(master)
    {
      ghost var e := Resolves(i, values);
      Heard(args, history, e, reached);
      StaysInStep(args, history, e, reached, resolveValues);
      resolveValues := resolveValues[i := Collapse(values)];
      history := history + [e];
      remaining := remaining - 1;
      if remaining == 0 {
        Settle(Resolved(resolveValues));
      }
    }

    /** `deferred.reject`, registered with every promise. */
    method Reject(i: nat, reason: nat)
      requires Counted() && !delegated && i < reached && Legal(args, history + [Rejects(i, reason)])
      modifies this`master, this`history
      ensures Counted() && history == old(history) + [Rejects(i, reason)]
      ensures master == if old(master) == Pending then Rejected(reason) else old(master)
    {
      ghost var e := Rejects(i, reason);
      Heard(args, history, e, reached);
      StaysInStep(args, history, e, reached, resolveValues);
      history := history + [e];
      Settle(Rejected(reason));
    }

    /** A listener of promise `e.at` is called. */
    method Hear(e: Event)
      requires Partly() && !delegated && e.at < reached && Legal(args, history + [e])
      modifies this`remaining, this`resolveValues, this`master, this`history
      ensures Partly() && history == old(history) + [e]
      ensures old(Tracked()) ==> Tracked()
      ensures old(Tracked()) && reached == |args| ==> master == Verdict(args, history)
    {
      RejectionAfter(history, e);
      StillWaiting(e);
      match e {
        case Resolves(i, values) => Update(i, values);
        case Rejects(i, reason) => Reject(i, reason);
      }
      if reached == |args| && Tracked() {
        MasterIsVerdict();
      }
    }

    lemma StillWaiting(e: Event)
      requires Counted() && !delegated && e.at < reached && Legal(args, history + [e])
      ensures remaining > 0
    {
      assert (history + [e])[|history|] == e;
      assert forall k :: 0 <= k < |history| ==> (history + [e])[k] == history[k];
      UnheardUnknown(args, history, e.at);
      UnknownZero(args, history, reached);
    }

    constructor (arguments: seq<Value>)
      ensures Counted() && args == arguments && master == Pending && history == []
      ensures delegated <==> |arguments| == 1 && arguments[0].Promise?
      ensures !delegated ==> reached == if |arguments| == 1 then 1 else 0
    {
      args, resolveValues, master, history := arguments, arguments, Pending, [];
      var length := |arguments|;
      remaining := if length != 1 || arguments[0].Promise? then length else 0;
      delegated := length == 1 && arguments[0].Promise?;
      reached := if length == 1 then 1 else 0;
      new;
      assert !delegated && length == 1 ==> Unknown(args, [], 1) == Unknown(args, [], 0);
    }

    /** One turn of the loop.  The listeners of a promise that is settled already are called while they
        are being added. */
    method AddListeners(i: nat, settled: Option<Event>)
      requires Partly() && !delegated && i == reached < |args|
      requires settled.Some? ==> args[i].Promise? && settled.value.at == i
      modifies this`remaining, this`resolveValues, this`master, this`history, this`reached
      ensures Partly() && reached == i + 1
      ensures history == if settled.Some? then old(history) + [settled.value] else old(history)
    {
      assert Unknown(args, history, i + 1) ==
             Unknown(args, history, i) + if Known(args, history, i).None? then 1 else 0;
      reached := i + 1;
      if args[i].Promise? {
        UnheardUnknown(args, history, i);
        if settled.Some? {
          assert forall k :: 0 <= k < |history| ==> (history + [settled.value])[k] == history[k];
          Hear(settled.value);
        }
      } else {
        remaining := remaining - 1;
      }
    }

    method RegisterAll(settled: seq<Option<Event>>)
      requires Partly() && !delegated && reached == 0 && |settled| == |args|
      requires forall i :: 0 <= i < |args| && settled[i].Some? ==> args[i].Promise? && settled[i].value.at == i
      modifies this`remaining, this`resolveValues, this`master, this`history, this`reached
      ensures Partly() && reached == |args|
      ensures forall i :: 0 <= i < |args| && settled[i].Some? ==> settled[i].value in history
    {
      var i := 0;
      while i < |args|
        invariant 0 <= i == reached <= |args| && Partly()
        invariant forall k :: 0 <= k < i && settled[k].Some? ==> settled[k].value in history
      {
        AddListeners(i, settled[i]);
        i := i + 1;
      }
    }

    /** The body of `when` after its variables: for more than one argument the loop, then the master is
        resolved if nothing is waited for. */
    method Register(settled: seq<Option<Event>>)
      requires Counted() && history == [] && master == Pending && !delegated && reached == if |args| == 1 then 1 else 0
      requires |settled| == |args|
      requires forall i :: 0 <= i < |args| && settled[i].Some? ==> args[i].Promise? && settled[i].value.at == i
      modifies this
      ensures Tracked() && !delegated && reached == |args|
      ensures master == Verdict(args, history)
      ensures forall i :: 0 <= i < |args| && settled[i].Some? ==> settled[i].value in history
    {
      assert |args| == 1 ==> settled[0].None?;
      if |args| > 1 {
        RegisterAll(settled);
      }
      if remaining == 0 {
        Settle(Resolved(resolveValues));
      }
      MasterIsVerdict();
    }
  }
}
