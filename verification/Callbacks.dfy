/**
 `jQuery.Callbacks`: a list of callbacks that may be added to, removed from and fired again while
 it is firing.  `State` and `Step` are the list as a machine; a run interleaves the steps of the
 firing loop with whatever the running callbacks, or the program between firings, ask for.
 */
module Callbacks {
  import opened Dom

  type Data = nat

  /** What a list holds: functions of the user, and the three that a Deferred puts there. */
  datatype Callback = User(id: nat) | SetState | DisableOther | LockProgress

  datatype Options = Options(once: bool, memory: bool, unique: bool, stopOnFalse: bool)

  /** An argument of `add`: a function, an array of arguments, or something that is ignored. */
  datatype Arg = Function(cb: Callback) | Array(args: seq<Arg>) | Other

  /** An entry of the list; the tag numbers the additions and is never looked at by the code. */
  datatype Entry = Entry(cb: Callback, tag: nat)

  datatype Call = Call(entry: Entry, data: Data)

  /** Where control is in `fire`: not there, at the loop test, inside a callback, or out of it by
      an exception (which leaves `firing` set). */
  datatype Phase = Idle | Test | Calling | Thrown

  datatype State = State(
    opts: Options,
    list: Option<seq<Entry>>,
    memory: Option<Data>,
    fired: bool,
    phase: Phase,
    firingStart: nat,
    firingLength: int,
    firingIndex: int,
    stack: Option<seq<Data>>,
    data: Data,
    // a record of what happened; `from` is the first tag that the present firing calls
    added: seq<Callback>,
    calls: seq<Call>,
    from: nat,
    ran: seq<nat>,
    asked: seq<Data>,
    begun: seq<Data>)
  {
    predicate Firing() {
      phase != Idle
    }
  }

  function Initial(opts: Options): State {
    State(opts, Some([]), None, false, Idle, 0, 0, 0, if opts.once then None else Some([]), 0,
          [], [], 0, [], [], [])
  }

  // ----- fire -----

  function StartFire(s: State, data: Data): State
    requires s.list.Some?
  {
    var l, start := s.list.value, s.firingStart;
    s.(memory := if s.opts.memory then Some(data) else None, fired := true, firingIndex := s.firingStart,
       firingStart := 0, firingLength := |l|, phase := Test, data := data,
       from := if start == 0 then 0 else if start < |l| then l[start].tag else |s.added|, ran := [])
  }

  predicate LoopTest(s: State) {
    s.list.Some? && s.firingIndex < s.firingLength
  }

  /** The loop body up to the call; a missing entry cannot be called. */
  function CallNext(s: State): State
    requires LoopTest(s)
  {
    if 0 <= s.firingIndex < |s.list.value| then
      var e := s.list.value[s.firingIndex];
      s.(phase := Calling, calls := s.calls + [Call(e, s.data)], ran := s.ran + [e.tag])
    else s.(phase := Thrown)
  }

  /** After the loop: the next waiting fire, or what becomes of a list that fires once. */
  function FinishFire(s: State): State {
    var t := s.(phase := Idle);
    if t.list.None? then t
    else if t.stack.Some? then
      if t.stack.value == [] then t
      else
        var d := t.stack.value[0];
        StartFire(t.(stack := Some(t.stack.value[1..]), begun := t.begun + [d]), d)
    else if t.memory.Some? then t.(list := Some([]))
    else Disable(t)
  }

  /** The callback returned; `isFalse` when it returned `false`. */
  function Return(s: State, isFalse: bool): State {
    if isFalse && s.opts.stopOnFalse then FinishFire(s.(memory := None))
    else s.(firingIndex := s.firingIndex + 1, phase := Test)
  }

  // ----- the methods of the list -----

  predicate Has(l: seq<Entry>, cb: Callback) {
    exists i :: 0 <= i < |l| && l[i].cb == cb
  }

  function Push(s: State, cb: Callback): State
    requires s.list.Some?
  {
    if s.opts.unique && Has(s.list.value, cb) then s
    else s.(list := Some(s.list.value + [Entry(cb, |s.added|)]), added := s.added + [cb])
  }

  function PushAll(s: State, args: seq<Arg>): (r: State)
    requires s.list.Some?
    ensures r.list.Some?
    decreases args
  {
    if args == [] then s
    else
      var n := |args| - 1;
      var t := PushAll(s, args[..n]);
      match args[n]
      case Function(cb) => Push(t, cb)
      case Array(inner) => PushAll(t, inner)
      case Other => t
  }

  function Add(s: State, args: seq<Arg>): State {
    if s.list.None? then s
    else
      var t := PushAll(s, args);
      if s.Firing() then t.(firingLength := |t.list.value|)
      else if s.memory.Some? then StartFire(t.(firingStart := |s.list.value|), s.memory.value)
      else t
  }

  function IndexFrom(l: seq<Entry>, cb: Callback, i: nat): (r: int)
    requires i <= |l|
    ensures r == -1 || (i <= r < |l| && l[r].cb == cb)
    ensures forall k :: i <= k < (if r == -1 then |l| else r) ==> l[k].cb != cb
    decreases |l| - i
  {
    if i == |l| then -1 else if l[i].cb == cb then i else IndexFrom(l, cb, i + 1)
  }

  function Splice(s: State, k: nat): State
    requires s.list.Some? && k < |s.list.value|
  {
    var l := s.list.value;
    var t := s.(list := Some(l[..k] + l[k + 1..]));
    if !s.Firing() then t
    else t.(firingLength := if k <= s.firingLength then s.firingLength - 1 else s.firingLength,
            firingIndex := if k <= s.firingIndex then s.firingIndex - 1 else s.firingIndex)
  }

  function RemoveFrom(s: State, cb: Callback, i: nat): (r: State)
    requires s.list.Some? && i <= |s.list.value|
    ensures r.list.Some?
    decreases |s.list.value| - i
  {
    var k := IndexFrom(s.list.value, cb, i);
    if k == -1 then s else RemoveFrom(Splice(s, k), cb, k)
  }

  function RemoveAll(s: State, cbs: seq<Callback>): (r: State)
    requires s.list.Some?
    ensures r.list.Some?
  {
    if cbs == [] then s else RemoveFrom(RemoveAll(s, cbs[..|cbs| - 1]), cbs[|cbs| - 1], 0)
  }

  function Remove(s: State, cbs: seq<Callback>): State {
    if s.list.None? then s else RemoveAll(s, cbs)
  }

  function Empty(s: State): State {
    s.(list := Some([]))
  }

  function Disable(s: State): State {
    s.(list := None, stack := None, memory := None)
  }

  function Lock(s: State): State {
    var t := s.(stack := None);
    if t.memory.None? then Disable(t) else t
  }

  function FireWith(s: State, data: Data): State {
    if s.list.Some? && (!s.fired || s.stack.Some?) then
      if s.Firing() then
        if s.stack.Some? then s.(stack := Some(s.stack.value + [data]), asked := s.asked + [data])
        else s
      else StartFire(s.(asked := s.asked + [data], begun := s.begun + [data]), data)
    else s
  }

  // ----- runs -----

  datatype Op =
    | DoAdd(args: seq<Arg>) | DoRemove(cbs: seq<Callback>) | DoFire(data: Data)
    | DoEmpty | DoDisable | DoLock
    | Loop | Returned(isFalse: bool) | Threw

  /** One step; what cannot happen in a phase changes nothing. */
  function Step(s: State, op: Op): State {
    if op.Loop? then
      if s.phase != Test then s else if LoopTest(s) then CallNext(s) else FinishFire(s)
    else if op.Returned? then if s.phase == Calling then Return(s, op.isFalse) else s
    else if op.Threw? then if s.phase == Calling then s.(phase := Thrown) else s
    else if s.phase == Test then s
    else
      match op
      case DoAdd(args) => Add(s, args)
      case DoRemove(cbs) => Remove(s, cbs)
      case DoFire(d) => FireWith(s, d)
      case DoEmpty => Empty(s)
      case DoDisable => Disable(s)
      case _ => Lock(s)
  }

  function Run(s: State, ops: seq<Op>): State {
    if ops == [] then s else Step(Run(s, ops[..|ops| - 1]), ops[|ops| - 1])
  }

  // ----- no occurrence is skipped or repeated -----

  predicate Climbing(ts: seq<nat>) {
    forall i, j :: 0 <= i < j < |ts| ==> ts[i] < ts[j]
  }

  predicate ClimbingTags(l: seq<Entry>) {
    forall i, j :: 0 <= i < j < |l| ==> l[i].tag < l[j].tag
  }

  /** The entries of the list before this position have had their turn in the present firing. */
  function Position(s: State): int {
    if s.phase == Test then s.firingIndex else s.firingIndex + 1
  }

  /** The entries are additions, in the order of addition. */
  ghost predicate Listed(l: seq<Entry>, added: seq<Callback>) {
    ClimbingTags(l) && forall i :: 0 <= i < |l| ==> l[i].tag < |added| && l[i].cb == added[l[i].tag]
  }

  /** Before `p` every entry has been called (or is from before the starting point); from `p` on none has. */
  ghost predicate Divided(l: seq<Entry>, p: int, from: nat, ran: seq<nat>) {
    0 <= p <= |l| &&
    (forall i :: 0 <= i < p ==> l[i].tag < from || l[i].tag in ran) &&
    (forall i :: p <= i < |l| ==> l[i].tag >= from) &&
    (forall i, j :: p <= i < |l| && 0 <= j < |ran| ==> ran[j] < l[i].tag)
  }

  /** What holds of the list and the firing loop, wherever control is. */
  ghost predicate Placed(s: State) {
    (s.list.Some? ==> Listed(s.list.value, s.added)) &&
    s.firingStart == 0 && (s.Firing() ==> s.fired) &&
    Climbing(s.ran) && (forall i :: 0 <= i < |s.ran| ==> s.ran[i] < |s.added|) && s.from <= |s.added| &&
    (s.Firing() && s.list.Some? ==> Divided(s.list.value, Position(s), s.from, s.ran))
  }

  ghost predicate Inv(s: State) {
    Placed(s) && (s.Firing() && s.list.Some? ==> s.firingLength == |s.list.value|)
  }

  lemma StartFireInv(s: State, data: Data)
    requires Placed(s.(firingStart := 0)) && s.list.Some? && !s.Firing()
    requires s.firingStart <= |s.list.value|
    ensures Inv(StartFire(s, data))
  {
    var l, t := s.list.value, StartFire(s, data);
  }

  lemma CallNextInv(s: State)
    requires Inv(s) && s.phase == Test && LoopTest(s)
    ensures Inv(CallNext(s)) && CallNext(s).phase == Calling
  {
    var l, t := s.list.value, CallNext(s);
    assert forall x :: x in t.ran <==> x in s.ran || x == l[s.firingIndex].tag;
  }

  lemma FinishFireInv(s: State)
    requires Placed(s) && s.Firing()
    ensures Inv(FinishFire(s))
  {
    if s.list.Some? && s.stack.Some? && s.stack.value != [] {
      var d := s.stack.value[0];
      StartFireInv(s.(phase := Idle, stack := Some(s.stack.value[1..]), begun := s.begun + [d]), d);
    }
  }

  lemma {:induction false} PushAllPlaced(s: State, args: seq<Arg>)
    requires Placed(s) && s.list.Some?
    ensures Placed(PushAll(s, args))
    ensures PushAll(s, args).phase == s.phase && PushAll(s, args).memory == s.memory
    ensures |s.list.value| <= |PushAll(s, args).list.value|
    decreases args
  {
    if args != [] {
      var n := |args| - 1;
      PushAllPlaced(s, args[..n]);
      var t := PushAll(s, args[..n]);
      match args[n]
      case Function(cb) => PushPlaced(t, cb);
      case Array(inner) => PushAllPlaced(t, inner);
      case Other =>
    }
  }

  lemma PushPlaced(s: State, cb: Callback)
    requires Placed(s) && s.list.Some?
    ensures Placed(Push(s, cb))
  {
  }

  lemma SpliceListed(l: seq<Entry>, added: seq<Callback>, k: nat)
    requires Listed(l, added) && k < |l|
    ensures Listed(l[..k] + l[k + 1..], added)
  {
    var m := l[..k] + l[k + 1..];
    assert forall i :: 0 <= i < |m| ==> m[i] == l[if i < k then i else i + 1];
  }

  lemma SpliceDivided(l: seq<Entry>, p: int, from: nat, ran: seq<nat>, k: nat)
    requires Divided(l, p, from, ran) && k < |l|
    ensures Divided(l[..k] + l[k + 1..], if k < p then p - 1 else p, from, ran)
  {
    var m := l[..k] + l[k + 1..];
    assert forall i :: 0 <= i < |m| ==> m[i] == l[if i < k then i else i + 1];
  }

  lemma SpliceInv(s: State, k: nat)
    requires Inv(s) && s.list.Some? && k < |s.list.value| && s.phase != Test
    ensures Inv(Splice(s, k))
  {
    SpliceListed(s.list.value, s.added, k);
    if s.Firing() {
      SpliceDivided(s.list.value, Position(s), s.from, s.ran, k);
    }
  }

  lemma {:induction false} RemoveFromInv(s: State, cb: Callback, i: nat)
    requires Inv(s) && s.list.Some? && i <= |s.list.value| && s.phase != Test
    ensures Inv(RemoveFrom(s, cb, i)) && RemoveFrom(s, cb, i).phase == s.phase
    decreases |s.list.value| - i
  {
    var k := IndexFrom(s.list.value, cb, i);
    if k != -1 {
      SpliceInv(s, k);
      RemoveFromInv(Splice(s, k), cb, k);
    }
  }

  lemma {:induction false} RemoveAllInv(s: State, cbs: seq<Callback>)
    requires Inv(s) && s.list.Some? && s.phase != Test
    ensures Inv(RemoveAll(s, cbs)) && RemoveAll(s, cbs).phase == s.phase
    decreases |cbs|
  {
    if cbs != [] {
      RemoveAllInv(s, cbs[..|cbs| - 1]);
      RemoveFromInv(RemoveAll(s, cbs[..|cbs| - 1]), cbs[|cbs| - 1], 0);
    }
  }

  lemma AddInv(s: State, args: seq<Arg>)
    requires Inv(s) && s.phase != Test
    ensures Inv(Add(s, args))
  {
    if s.list.Some? {
      PushAllPlaced(s, args);
      var t := PushAll(s, args);
      if !s.Firing() && s.memory.Some? {
        StartFireInv(t.(firingStart := |s.list.value|), s.memory.value);
      }
    }
  }

  /** Every step keeps the invariant, but for emptying a list that is firing. */
  lemma StepInv(s: State, op: Op)
    requires Inv(s) && (op.DoEmpty? ==> !s.Firing())
    ensures Inv(Step(s, op))
  {
    match op
    case Loop =>
      if s.phase == Test && LoopTest(s) {
        CallNextInv(s);
      } else if s.phase == Test {
        FinishFireInv(s);
      }
    case Returned(isFalse) =>
      if s.phase == Calling && isFalse && s.opts.stopOnFalse {
        FinishFireInv(s.(memory := None));
      }
    case DoAdd(args) =>
      if s.phase != Test {
        AddInv(s, args);
      }
    case DoRemove(cbs) =>
      if s.phase != Test && s.list.Some? {
        RemoveAllInv(s, cbs);
      }
    case DoFire(d) =>
      if s.phase == Idle && s.list.Some? {
        StartFireInv(s.(asked := s.asked + [d], begun := s.begun + [d]), d);
      }
    case _ =>
  }

  /** Runs in which the list is never emptied while it fires. */
  ghost predicate Calm(s: State, ops: seq<Op>) {
    ops == [] ||
    (Calm(s, ops[..|ops| - 1]) && (ops[|ops| - 1].DoEmpty? ==> !Run(s, ops[..|ops| - 1]).Firing()))
  }

  lemma {:induction false} RunInv(s: State, ops: seq<Op>)
    requires Inv(s) && Calm(s, ops)
    ensures Inv(Run(s, ops))
    decreases |ops|
  {
    if ops != [] {
      RunInv(s, ops[..|ops| - 1]);
      StepInv(Run(s, ops[..|ops| - 1]), ops[|ops| - 1]);
    }
  }

  /** Without memory every firing starts at the front. */
  ghost predicate FromFront(s: State) {
    s.firingStart == 0 && (!s.opts.memory ==> s.memory.None? && s.from == 0)
  }

  lemma StepFromFront(s: State, op: Op)
    requires FromFront(s)
    ensures FromFront(Step(s, op)) && Step(s, op).opts == s.opts
  {
    if op.DoAdd? && s.list.Some? {
      PushAllKeeps(s, op.args);
    }
    if op.DoRemove? && s.list.Some? {
      RemoveAllKeeps(s, op.cbs);
    }
  }

  lemma {:induction false} RunFromFront(s: State, ops: seq<Op>)
    requires FromFront(s)
    ensures FromFront(Run(s, ops)) && Run(s, ops).opts == s.opts
    decreases |ops|
  {
    if ops != [] {
      RunFromFront(s, ops[..|ops| - 1]);
      StepFromFront(Run(s, ops[..|ops| - 1]), ops[|ops| - 1]);
    }
  }

  /** In every run, whatever was added or removed while the list fired: when the loop ends, every
      occurrence still in the list (but for those before the starting point) has been called in
      this firing, none twice, and in list order. */
  lemma NoneSkippedNoneRepeated(opts: Options, ops: seq<Op>)
    requires Calm(Initial(opts), ops)
    ensures var s := Run(Initial(opts), ops);
            s.phase == Test && s.list.Some? && !LoopTest(s) ==>
              (forall e :: e in s.list.value ==> e.tag < s.from || e.tag in s.ran) &&
              (forall i, j :: 0 <= i < j < |s.ran| ==> s.ran[i] < s.ran[j])
    ensures !opts.memory ==> Run(Initial(opts), ops).from == 0
  {
    RunInv(Initial(opts), ops);
    RunFromFront(Initial(opts), ops);
  }

  /** The loop never looks outside the list, and `firingLength` is its length throughout. */
  lemma CallsInBounds(opts: Options, ops: seq<Op>)
    requires Calm(Initial(opts), ops)
    ensures var s := Run(Initial(opts), ops);
            s.Firing() && s.list.Some? ==> s.firingLength == |s.list.value|
    ensures var s := Run(Initial(opts), ops);
            s.phase == Test && LoopTest(s) ==>
              0 <= s.firingIndex < |s.list.value| && CallNext(s).phase == Calling &&
              s.list.value[s.firingIndex].tag !in s.ran && s.list.value[s.firingIndex].tag >= s.from
  {
    RunInv(Initial(opts), ops);
  }

  // ----- what add and remove do to the list -----

  function Keep(l: seq<Entry>, cb: Callback): seq<Entry> {
    if l == [] then []
    else Keep(l[..|l| - 1], cb) + if l[|l| - 1].cb == cb then [] else [l[|l| - 1]]
  }

  lemma {:induction false} KeepSplit(a: seq<Entry>, b: seq<Entry>, cb: Callback)
    ensures Keep(a + b, cb) == Keep(a, cb) + Keep(b, cb)
    decreases |b|
  {
    if b == [] {
      assert a + b == a;
    } else {
      assert (a + b)[..|a + b| - 1] == a + b[..|b| - 1];
      KeepSplit(a, b[..|b| - 1], cb);
    }
  }

  lemma {:induction false} KeepNone(l: seq<Entry>, cb: Callback)
    requires forall i :: 0 <= i < |l| ==> l[i].cb != cb
    ensures Keep(l, cb) == l
    decreases |l|
  {
    if l != [] {
      KeepNone(l[..|l| - 1], cb);
    }
  }

  /** `remove` takes out every occurrence of its argument. */
  lemma {:induction false} RemoveTakesAll(s: State, cb: Callback, i: nat)
    requires s.list.Some? && i <= |s.list.value|
    requires forall k :: 0 <= k < i ==> s.list.value[k].cb != cb
    ensures RemoveFrom(s, cb, i).list == Some(Keep(s.list.value, cb))
    decreases |s.list.value| - i
  {
    var l, k := s.list.value, IndexFrom(s.list.value, cb, i);
    if k == -1 {
      KeepNone(l, cb);
    } else {
      var t := Splice(s, k);
      assert Keep(t.list.value, cb) == Keep(l, cb) by {
        KeepAround(l, cb, k, |l|);
        assert l[..|l|] == l && l[k + 1..|l|] == l[k + 1..];
      }
      RemoveTakesAll(t, cb, k);
    }
  }

  /** The loop goes on behind what is left of the entries that had their turn. */
  lemma {:induction false} RemoveKeepsPlace(s: State, cb: Callback, i: nat)
    requires s.Firing() && s.list.Some? && i <= |s.list.value|
    requires 0 <= s.firingIndex + 1 <= |s.list.value|
    requires forall k :: 0 <= k < i ==> s.list.value[k].cb != cb
    ensures RemoveFrom(s, cb, i).firingIndex + 1 == |Keep(s.list.value[..s.firingIndex + 1], cb)|
    decreases |s.list.value| - i
  {
    var k := IndexFrom(s.list.value, cb, i);
    if k == -1 {
      KeepNone(s.list.value[..s.firingIndex + 1], cb);
    } else {
      SplicePlace(s, cb, k);
      RemoveKeepsPlace(Splice(s, k), cb, k);
    }
  }

  lemma SplicePlace(s: State, cb: Callback, k: nat)
    requires s.Firing() && s.list.Some? && k < |s.list.value| && s.list.value[k].cb == cb
    requires 0 <= s.firingIndex + 1 <= |s.list.value|
    ensures var t := Splice(s, k);
            0 <= t.firingIndex + 1 <= |t.list.value| &&
            Keep(t.list.value[..t.firingIndex + 1], cb) == Keep(s.list.value[..s.firingIndex + 1], cb)
  {
    var l, t, p := s.list.value, Splice(s, k), s.firingIndex + 1;
    if k < p {
      KeepAround(l, cb, k, p);
      assert t.list.value[..p - 1] == l[..k] + l[k + 1..p];
    } else {
      assert t.list.value[..p] == l[..p];
    }
  }

  lemma KeepAround(l: seq<Entry>, cb: Callback, k: nat, n: nat)
    requires k < n <= |l| && l[k].cb == cb
    ensures Keep(l[..n], cb) == Keep(l[..k] + l[k + 1..n], cb)
  {
    assert l[..n] == l[..k] + ([l[k]] + l[k + 1..n]);
    KeepSplit(l[..k], [l[k]] + l[k + 1..n], cb);
    KeepSplit([l[k]], l[k + 1..n], cb);
    KeepSplit(l[..k], l[k + 1..n], cb);
    assert Keep([l[k]], cb) == [];
  }

  // ----- pending fires -----

  /** Of a list that may fire repeatedly: the fires asked for are those begun, in order, and those
      still waiting; none waits when the list is idle. */
  ghost predicate Queued(s: State) {
    (s.stack.Some? ==> s.list.Some? && s.asked == s.begun + s.stack.value) &&
    (s.stack.Some? && !s.Firing() ==> s.stack.value == [])
  }

  lemma {:induction false} PushAllKeeps(s: State, args: seq<Arg>)
    requires s.list.Some?
    ensures var t := PushAll(s, args);
            t == s.(list := t.list, added := t.added)
    decreases args
  {
    if args != [] {
      PushAllKeeps(s, args[..|args| - 1]);
      if args[|args| - 1].Array? {
        PushAllKeeps(PushAll(s, args[..|args| - 1]), args[|args| - 1].args);
      }
    }
  }

  lemma {:induction false} RemoveFromKeeps(s: State, cb: Callback, i: nat)
    requires s.list.Some? && i <= |s.list.value|
    ensures var t := RemoveFrom(s, cb, i);
            t == s.(list := t.list, firingLength := t.firingLength, firingIndex := t.firingIndex)
    decreases |s.list.value| - i
  {
    var k := IndexFrom(s.list.value, cb, i);
    if k != -1 {
      RemoveFromKeeps(Splice(s, k), cb, k);
    }
  }

  lemma {:induction false} RemoveAllKeeps(s: State, cbs: seq<Callback>)
    requires s.list.Some?
    ensures var t := RemoveAll(s, cbs);
            t == s.(list := t.list, firingLength := t.firingLength, firingIndex := t.firingIndex)
    decreases |cbs|
  {
    if cbs != [] {
      RemoveAllKeeps(s, cbs[..|cbs| - 1]);
      RemoveFromKeeps(RemoveAll(s, cbs[..|cbs| - 1]), cbs[|cbs| - 1], 0);
    }
  }

  lemma StepQueued(s: State, op: Op)
    requires Queued(s)
    ensures Queued(Step(s, op))
  {
    if op.DoAdd? && s.list.Some? {
      PushAllKeeps(s, op.args);
    }
    if op.DoRemove? && s.list.Some? {
      RemoveAllKeeps(s, op.cbs);
    }
  }

  lemma {:induction false} RunQueued(s: State, ops: seq<Op>)
    requires Queued(s)
    ensures Queued(Run(s, ops))
    decreases |ops|
  {
    if ops != [] {
      RunQueued(s, ops[..|ops| - 1]);
      StepQueued(Run(s, ops[..|ops| - 1]), ops[|ops| - 1]);
    }
  }

  /** Fires asked for while the list fires are begun one after the other in the order they were asked
      for; when a list that is neither locked nor disabled is idle, all of them have run. */
  lemma FiresInOrder(opts: Options, ops: seq<Op>)
    ensures var s := Run(Initial(opts), ops);
            s.stack.Some? ==> s.begun <= s.asked && (!s.Firing() ==> s.begun == s.asked)
  {
    RunQueued(Initial(opts), ops);
  }

  // ----- lists that fire once and remember -----

  /** The steps of a run in which nothing is removed, emptied or disabled, nor locked before the
      first fire. */
  predicate Gentle(s: State, op: Op) {
    !op.DoRemove? && !op.DoEmpty? && !op.DoDisable? && (op.DoLock? ==> s.fired)
  }

  ghost predicate GentleRun(s: State, ops: seq<Op>) {
    forall n :: 0 <= n < |ops| ==> Gentle(Run(s, ops[..n]), ops[n])
  }

  /** The list holds the last additions. */
  ghost predicate Latest(l: seq<Entry>, added: seq<Callback>) {
    |l| <= |added| &&
    forall i :: 0 <= i < |l| ==> l[i] == Entry(added[|added| - |l| + i], |added| - |l| + i)
  }

  /** The calls so far are the additions so far, up to those still in the list that wait their turn;
      all with the data of the first fire. */
  ghost predicate Remembers(s: State) {
    s.opts.once && s.opts.memory && !s.opts.stopOnFalse && s.stack.None? && s.list.Some? && s.firingStart == 0 &&
    Latest(s.list.value, s.added) &&
    (forall i :: 0 <= i < |s.calls| ==> i < |s.added| && s.calls[i] == Call(Entry(s.added[i], i), s.data)) &&
    (!s.fired ==> s.phase == Idle && s.memory.None? && s.calls == [] && |s.list.value| == |s.added|) &&
    (s.fired ==> s.memory == Some(s.data)) &&
    (s.fired && s.phase == Idle ==> s.list.value == [] && |s.calls| == |s.added|) &&
    (s.Firing() ==> s.firingLength == |s.list.value| && 0 <= Position(s) <= |s.list.value| &&
                    |s.calls| == |s.added| - |s.list.value| + Position(s))
  }

  lemma {:induction false} PushAllRemembers(s: State, args: seq<Arg>)
    requires s.list.Some? && Latest(s.list.value, s.added)
    ensures var r := PushAll(s, args);
            Latest(r.list.value, r.added) && s.added <= r.added && s.list.value <= r.list.value &&
            |r.added| - |r.list.value| == |s.added| - |s.list.value|
    decreases args
  {
    if args != [] {
      PushAllRemembers(s, args[..|args| - 1]);
      if args[|args| - 1].Array? {
        PushAllRemembers(PushAll(s, args[..|args| - 1]), args[|args| - 1].args);
      }
    }
  }

  /** The options and the data of the first fire stay, and additions are only added to. */
  ghost predicate Continues(s: State, t: State) {
    t.opts == s.opts && (s.fired ==> t.fired && t.data == s.data) && s.added <= t.added
  }

  lemma AddRemembers(s: State, args: seq<Arg>)
    requires Remembers(s)
    ensures Remembers(Add(s, args)) && Continues(s, Add(s, args))
  {
    PushAllRemembers(s, args);
    PushAllKeeps(s, args);
    PushedRemembers(s, PushAll(s, args));
  }

  /** The additions pushed, and `fire` begun at them if the list is at rest. */
  lemma PushedRemembers(s: State, t: State)
    requires Remembers(s) && t == s.(list := t.list, added := t.added) && t.list.Some?
    requires Latest(t.list.value, t.added) && s.added <= t.added && s.list.value <= t.list.value
    requires |t.added| - |t.list.value| == |s.added| - |s.list.value|
    ensures var r := if s.Firing() then t.(firingLength := |t.list.value|)
                     else if s.memory.Some? then StartFire(t.(firingStart := |s.list.value|), s.memory.value)
                     else t;
            Remembers(r) && Continues(s, r)
  {
  }

  lemma FireRemembers(s: State, d: Data)
    requires Remembers(s)
    ensures var t := FireWith(s, d);
            Remembers(t) && Continues(s, t) && (!s.fired ==> t.fired && t.data == d)
  {
    assert !s.fired ==> FireWith(s, d).calls == [];
  }

  lemma CallRemembers(s: State)
    requires Remembers(s) && s.phase == Test && LoopTest(s)
    ensures Remembers(CallNext(s)) && Continues(s, CallNext(s))
  {
    var k, n := s.firingIndex, |s.calls|;
    assert s.Firing() && Position(s) == k;
    assert 0 <= k < |s.list.value| && s.list.value[k] == Entry(s.added[n], n);
    assert CallNext(s).calls == s.calls + [Call(Entry(s.added[n], n), s.data)];
  }

  lemma FinishRemembers(s: State)
    requires Remembers(s) && s.phase == Test && !LoopTest(s)
    ensures Remembers(FinishFire(s)) && Continues(s, FinishFire(s))
  {
    assert s.Firing() && Position(s) == s.firingIndex;
    assert s.memory == Some(s.data) && |s.calls| == |s.added|;
    assert FinishFire(s) == s.(phase := Idle, list := Some([]));
  }

  lemma ReturnRemembers(s: State, isFalse: bool)
    requires Remembers(s) && s.phase == Calling
    ensures Remembers(Return(s, isFalse)) && Continues(s, Return(s, isFalse))
  {
    var t := Return(s, isFalse);
    assert t == s.(firingIndex := s.firingIndex + 1, phase := Test);
    assert s.Firing() && t.Firing() && Position(t) == Position(s);
  }

  lemma ThrowRemembers(s: State)
    requires Remembers(s) && s.phase == Calling
    ensures Remembers(s.(phase := Thrown)) && Continues(s, s.(phase := Thrown))
  {
    var t := s.(phase := Thrown);
    assert s.Firing() && t.Firing() && Position(t) == Position(s);
  }

  lemma StepRemembers(s: State, op: Op)
    requires Remembers(s) && Gentle(s, op)
    ensures Remembers(Step(s, op)) && Continues(s, Step(s, op))
  {
    if op.DoAdd? {
      AddRemembers(s, op.args);
    } else if op.DoFire? {
      FireRemembers(s, op.data);
    } else if op.Loop? && s.phase == Test && LoopTest(s) {
      CallRemembers(s);
    } else if op.Loop? && s.phase == Test {
      FinishRemembers(s);
    } else if op.Returned? && s.phase == Calling {
      ReturnRemembers(s, op.isFalse);
    } else if op.Threw? && s.phase == Calling {
      ThrowRemembers(s);
    }
  }

  lemma {:induction false} RunRemembers(s: State, ops: seq<Op>)
    requires Remembers(s) && GentleRun(s, ops)
    ensures Remembers(Run(s, ops)) && Continues(s, Run(s, ops))
    decreases |ops|
  {
    if ops != [] {
      var before := ops[..|ops| - 1];
      assert forall n :: 0 <= n < |before| ==> before[..n] == ops[..n] && before[n] == ops[n];
      RunRemembers(s, before);
      StepRemembers(Run(s, before), ops[|ops| - 1]);
    }
  }

  /** Every callback that was added has been called once, in the order of addition, all with the same data. */
  ghost predicate AllCalledOnce(s: State) {
    |s.calls| == |s.added| && forall i :: 0 <= i < |s.calls| ==> s.calls[i] == Call(Entry(s.added[i], i), s.data)
  }

  /** A list that fires once and remembers: when it has fired and is at rest, every callback added
      before, during or after the firing has been called exactly once, in the order of addition, and all with
      the same data. */
  lemma EachOnceInOrder(unique: bool, ops: seq<Op>)
    requires GentleRun(Initial(Options(true, true, unique, false)), ops)
    ensures var s := Run(Initial(Options(true, true, unique, false)), ops);
            s.fired && s.phase == Idle ==> AllCalledOnce(s)
  {
    RunRemembers(Initial(Options(true, true, unique, false)), ops);
  }

  /** The data is that of the first fire: later fires change nothing. */
  lemma FirstFireWins(s: State, d: Data, ops: seq<Op>)
    requires Remembers(s) && !s.fired && GentleRun(FireWith(s, d), ops)
    ensures Run(FireWith(s, d), ops).data == d
  {
    FireRemembers(s, d);
    RunRemembers(FireWith(s, d), ops);
  }
}
