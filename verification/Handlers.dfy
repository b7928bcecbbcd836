/**
 The handler list of one event type on one element: `jQuery.event.add`, `remove` and `dispatch`.
 Delegated handlers (with a selector) stand in front, and `delegateCount` says how many there are.
 */
module Handlers {
  import opened Namespaces

  /** `selector` is empty for a handler bound directly; `namespaces` are sorted words. */
  datatype HandleObj = HandleObj(origType: string, guid: nat, namespaces: seq<string>, selector: string)

  /** What `remove` is asked for: a type, unless it was mapped; perhaps a handler, namespaces, a selector. */
  datatype Query = Query(mappedTypes: bool, origType: string, guid: nat, names: seq<string>, selector: string)

  /** The condition of `remove`.  The test of the namespaces is by the sub-multiset test that the pattern
      amounts to; a guid of 0 and an empty selector mean that none was given. */
  predicate Meets(q: Query, h: HandleObj) {
    (q.mappedTypes || q.origType == h.origType) &&
    (q.guid == 0 || q.guid == h.guid) &&
    (q.names == [] || multiset(q.names) <= multiset(h.namespaces)) &&
    (q.selector == "" || q.selector == h.selector || (q.selector == "**" && h.selector != ""))
  }

  lemma MeetsByPattern(q: Query, h: HandleObj)
    requires AreNames(q.names) && Sorted(q.names) && AreWords(h.namespaces) && Sorted(h.namespaces)
    ensures Meets(q, h) <==>
            (q.mappedTypes || q.origType == h.origType) &&
            (q.guid == 0 || q.guid == h.guid) &&
            (q.names == [] || Test(Pattern(q.names), Join(h.namespaces))) &&
            (q.selector == "" || q.selector == h.selector || (q.selector == "**" && h.selector != ""))
  {
    if q.names != [] {
      NamespaceTest(q.names, h.namespaces);
    }
  }

  // ----- the live handlers -----

  datatype Op = Add(h: HandleObj) | Remove(q: Query)

  function Tester(q: Query): HandleObj -> bool {
    h => Meets(q, h)
  }

  function Survivors(hs: seq<HandleObj>, drop: HandleObj -> bool): seq<HandleObj> {
    if hs == [] then []
    else Survivors(hs[..|hs| - 1], drop) + if drop(hs[|hs| - 1]) then [] else [hs[|hs| - 1]]
  }

  /** The handlers added and not removed, in the order of their adding. */
  function Live(ops: seq<Op>): seq<HandleObj> {
    if ops == [] then []
    else
      var before := Live(ops[..|ops| - 1]);
      match ops[|ops| - 1]
      case Add(h) => before + [h]
      case Remove(q) => Survivors(before, Tester(q))
  }

  function Part(hs: seq<HandleObj>, delegated: bool): (r: seq<HandleObj>)
    ensures forall h :: h in r ==> (h.selector != "") == delegated
  {
    if hs == [] then []
    else Part(hs[..|hs| - 1], delegated) + if (hs[|hs| - 1].selector != "") == delegated then [hs[|hs| - 1]] else []
  }

  lemma SurvivorsAppend(hs: seq<HandleObj>, h: HandleObj, drop: HandleObj -> bool)
    ensures Survivors(hs + [h], drop) == Survivors(hs, drop) + if drop(h) then [] else [h]
  {
    assert (hs + [h])[..|hs|] == hs;
  }

  lemma PartAppend(hs: seq<HandleObj>, h: HandleObj, delegated: bool)
    ensures Part(hs + [h], delegated) == Part(hs, delegated) + if (h.selector != "") == delegated then [h] else []
  {
    assert (hs + [h])[..|hs|] == hs;
  }

  lemma {:induction false} PartConcat(a: seq<HandleObj>, b: seq<HandleObj>, delegated: bool)
    ensures Part(a + b, delegated) == Part(a, delegated) + Part(b, delegated)
    decreases |b|
  {
    if b == [] {
      assert a + b == a;
    } else {
      assert (a + b)[..|a + b| - 1] == a + b[..|b| - 1];
      PartConcat(a, b[..|b| - 1], delegated);
    }
  }

  /** A part of a part. */
  lemma {:induction false} PartOfPart(hs: seq<HandleObj>, delegated: bool)
    requires forall h :: h in hs ==> (h.selector != "") == delegated
    ensures Part(hs, delegated) == hs && Part(hs, !delegated) == []
    decreases |hs|
  {
    if hs != [] {
      var front, last := hs[..|hs| - 1], hs[|hs| - 1];
      assert last in hs && forall h :: h in front ==> h in hs;
      PartOfPart(front, delegated);
      Rejoined(hs);
      PartAppend(front, last, delegated);
      PartAppend(front, last, !delegated);
    }
  }

  /** Deleting and taking a part may be done in either order. */
  ghost predicate Commute(hs: seq<HandleObj>, drop: HandleObj -> bool, delegated: bool) {
    Part(Survivors(hs, drop), delegated) == Survivors(Part(hs, delegated), drop)
  }

  lemma {:induction false} SurvivorsParts(hs: seq<HandleObj>, drop: HandleObj -> bool, delegated: bool)
    ensures Commute(hs, drop, delegated)
    decreases |hs|
  {
    if hs != [] {
      var front, last := hs[..|hs| - 1], hs[|hs| - 1];
      SurvivorsParts(front, drop, delegated);
      PartsStep(front, last, drop, delegated);
      Rejoined(hs);
    }
  }

  lemma Rejoined(hs: seq<HandleObj>)
    requires hs != []
    ensures hs[..|hs| - 1] + [hs[|hs| - 1]] == hs
  {
  }

  lemma PartsStep(hs: seq<HandleObj>, h: HandleObj, drop: HandleObj -> bool, delegated: bool)
    requires Commute(hs, drop, delegated)
    ensures Commute(hs + [h], drop, delegated)
  {
    var s, p := Survivors(hs, drop), Part(hs, delegated);
    var r := if drop(h) then s else s + [h];
    var o := if (h.selector != "") == delegated then p + [h] else p;
    assert Survivors(hs + [h], drop) == r by {
      SurvivorsAppend(hs, h, drop);
    }
    assert Part(hs + [h], delegated) == o by {
      PartAppend(hs, h, delegated);
    }
    assert Part(r, delegated) == Survivors(o, drop) by {
      PartAppend(s, h, delegated);
      SurvivorsAppend(p, h, drop);
    }
  }

  lemma {:induction false} SurvivorsConcat(a: seq<HandleObj>, b: seq<HandleObj>, drop: HandleObj -> bool)
    ensures Survivors(a + b, drop) == Survivors(a, drop) + Survivors(b, drop)
    decreases |b|
  {
    if b == [] {
      assert a + b == a;
    } else {
      assert (a + b)[..|a + b| - 1] == a + b[..|b| - 1];
      SurvivorsConcat(a, b[..|b| - 1], drop);
    }
  }

  /** `remove` deletes exactly the handlers that meet its test. */
  lemma {:induction false} SurvivorsExactly(hs: seq<HandleObj>, drop: HandleObj -> bool, h: HandleObj)
    ensures multiset(Survivors(hs, drop))[h] == if drop(h) then 0 else multiset(hs)[h]
    decreases |hs|
  {
    if hs != [] {
      SurvivorsExactly(hs[..|hs| - 1], drop, h);
      assert hs == hs[..|hs| - 1] + [hs[|hs| - 1]];
    }
  }

  // ----- order -----

  /** How many of the first `n` entries are to be kept. */
  function Rank(hs: seq<HandleObj>, n: nat, keep: HandleObj -> bool): nat
    requires n <= |hs|
  {
    if n == 0 then 0 else if keep(hs[n - 1]) then Rank(hs, n - 1, keep) + 1 else Rank(hs, n - 1, keep)
  }

  /** `out` is those of the first `n` entries that are to be kept, each at the number of those before it. */
  ghost predicate InOrder(hs: seq<HandleObj>, n: nat, keep: HandleObj -> bool, out: seq<HandleObj>)
    requires n <= |hs|
  {
    |out| == Rank(hs, n, keep) &&
    forall i :: 0 <= i < n && keep(hs[i]) ==> Rank(hs, i, keep) < |out| && out[Rank(hs, i, keep)] == hs[i]
  }

  /** The entries to be kept among the first `n`. */
  function Kept(hs: seq<HandleObj>, n: nat, keep: HandleObj -> bool): seq<HandleObj>
    requires n <= |hs|
  {
    if n == 0 then []
    else if keep(hs[n - 1]) then Kept(hs, n - 1, keep) + [hs[n - 1]] else Kept(hs, n - 1, keep)
  }

  lemma {:induction false} KeptInOrder(hs: seq<HandleObj>, n: nat, keep: HandleObj -> bool)
    requires n <= |hs|
    ensures InOrder(hs, n, keep, Kept(hs, n, keep))
    decreases n
  {
    if n > 0 {
      KeptInOrder(hs, n - 1, keep);
      InOrderNext(hs, n - 1, keep, Kept(hs, n - 1, keep));
    }
  }

  function Spares(drop: HandleObj -> bool): HandleObj -> bool {
    (h: HandleObj) => !drop(h)
  }

  function OfPart(delegated: bool): HandleObj -> bool {
    (h: HandleObj) => (h.selector != "") == delegated
  }

  /** One more entry. */
  lemma InOrderNext(hs: seq<HandleObj>, n: nat, keep: HandleObj -> bool, out: seq<HandleObj>)
    requires n < |hs| && InOrder(hs, n, keep, out)
    ensures InOrder(hs, n + 1, keep, if keep(hs[n]) then out + [hs[n]] else out)
  {
  }

  lemma {:induction false} RankPrefix(hs: seq<HandleObj>, n: nat, i: nat, keep: HandleObj -> bool)
    requires i <= n <= |hs|
    ensures Rank(hs[..n], i, keep) == Rank(hs, i, keep)
    decreases i
  {
    if i > 0 {
      RankPrefix(hs, n, i - 1, keep);
    }
  }

  lemma InOrderPrefix(hs: seq<HandleObj>, n: nat, keep: HandleObj -> bool, out: seq<HandleObj>)
    requires n <= |hs| && InOrder(hs[..n], n, keep, out)
    ensures InOrder(hs, n, keep, out)
  {
    RankPrefix(hs, n, n, keep);
    forall i | 0 <= i < n && keep(hs[i]) ensures Rank(hs, i, keep) < |out| && out[Rank(hs, i, keep)] == hs[i] {
      RankPrefix(hs, n, i, keep);
      assert hs[..n][i] == hs[i];
    }
  }

  /** The survivors keep their order. */
  lemma {:induction false} SurvivorsInOrder(hs: seq<HandleObj>, drop: HandleObj -> bool)
    ensures InOrder(hs, |hs|, Spares(drop), Survivors(hs, drop))
    decreases |hs|
  {
    if hs != [] {
      var n := |hs| - 1;
      SurvivorsInOrder(hs[..n], drop);
      InOrderPrefix(hs, n, Spares(drop), Survivors(hs[..n], drop));
      InOrderNext(hs, n, Spares(drop), Survivors(hs[..n], drop));
    }
  }

  /** So do the delegated handlers among themselves, and the direct ones. */
  lemma {:induction false} PartInOrder(hs: seq<HandleObj>, delegated: bool)
    ensures InOrder(hs, |hs|, OfPart(delegated), Part(hs, delegated))
    decreases |hs|
  {
    if hs != [] {
      var n := |hs| - 1;
      PartInOrder(hs[..n], delegated);
      InOrderPrefix(hs, n, OfPart(delegated), Part(hs[..n], delegated));
      InOrderNext(hs, n, OfPart(delegated), Part(hs[..n], delegated));
    }
  }

  // ----- dispatch -----

  type Elem = nat

  datatype Batch = Batch(elem: Elem, matches: seq<HandleObj>)

  /** What every object literal inherits: section 15.2.4 of ECMA-262, edition 5.1. */
  const INHERITED: set<string> :=
    {"constructor", "toString", "toLocaleString", "valueOf", "hasOwnProperty", "isPrototypeOf", "propertyIsEnumerable"}

  /** Whether a selector is taken to match: the answers are kept in an object literal, where an inherited
      property stands for an answer. */
  predicate Taken(selects: (string, Elem) -> bool, sel: string, cur: Elem) {
    sel in INHERITED || selects(sel, cur)
  }

  /** The handlers among the first `n` whose selector is taken to match at `cur`. */
  function Matching(hs: seq<HandleObj>, n: nat, selects: (string, Elem) -> bool, cur: Elem): seq<HandleObj>
    requires n <= |hs|
  {
    Kept(hs, n, TakenAt(selects, cur))
  }

  function TakenAt(selects: (string, Elem) -> bool, cur: Elem): HandleObj -> bool {
    (h: HandleObj) => Taken(selects, h.selector, cur)
  }

  function SelectedAt(selects: (string, Elem) -> bool, cur: Elem): HandleObj -> bool {
    (h: HandleObj) => selects(h.selector, cur)
  }

  /** Those whose selector does match. */
  function Matched(hs: seq<HandleObj>, n: nat, selects: (string, Elem) -> bool, cur: Elem): seq<HandleObj>
    requires n <= |hs|
  {
    Kept(hs, n, SelectedAt(selects, cur))
  }

  /** Of two tests the weaker keeps the same entries exactly if it lets nothing through that the other does not. */
  lemma {:induction false} KeptSameExactly(hs: seq<HandleObj>, n: nat, weak: HandleObj -> bool,
                                           strong: HandleObj -> bool)
    requires n <= |hs|
    requires forall i :: 0 <= i < n && strong(hs[i]) ==> weak(hs[i])
    ensures |Kept(hs, n, weak)| >= |Kept(hs, n, strong)|
    ensures Kept(hs, n, weak) == Kept(hs, n, strong) <==> forall i :: 0 <= i < n && weak(hs[i]) ==> strong(hs[i])
    decreases n
  {
    if n > 0 {
      KeptSameExactly(hs, n - 1, weak, strong);
      var a, b, h := Kept(hs, n - 1, weak), Kept(hs, n - 1, strong), hs[n - 1];
      assert (a + [h])[..|a|] == a && (b + [h])[..|b|] == b;
      assert weak(h) && !strong(h) ==> |Kept(hs, n, weak)| > |Kept(hs, n, strong)|;
    }
  }

  /** The handlers of an element are those whose selector matches there exactly if no selector that does not
      match has the name of an inherited property. */
  lemma MatchingExactly(hs: seq<HandleObj>, n: nat, selects: (string, Elem) -> bool, cur: Elem)
    requires n <= |hs|
    ensures Matching(hs, n, selects, cur) == Matched(hs, n, selects, cur) <==>
            forall i :: 0 <= i < n && hs[i].selector in INHERITED ==> selects(hs[i].selector, cur)
  {
    KeptSameExactly(hs, n, TakenAt(selects, cur), SelectedAt(selects, cur));
    assert forall i :: 0 <= i < n ==>
      (TakenAt(selects, cur)(hs[i]) <==> hs[i].selector in INHERITED || selects(hs[i].selector, cur));
  }

  /** The batches of delegated handlers for the first `n` elements from the target up. */
  function Delegated(hs: seq<HandleObj>, path: seq<Elem>, n: nat, skips: Elem -> bool,
                     selects: (string, Elem) -> bool): seq<Batch>
    requires n <= |path|
  {
    if n == 0 then []
    else
      var batches := Delegated(hs, path, n - 1, skips, selects);
      var matches := Matching(hs, |hs|, selects, path[n - 1]);
      if skips(path[n - 1]) || matches == [] then batches else batches + [Batch(path[n - 1], matches)]
  }

  /** The handlers of an element are those whose selector is taken to match there, in the order of the list. */
  lemma MatchingInOrder(hs: seq<HandleObj>, n: nat, selects: (string, Elem) -> bool, cur: Elem)
    requires n <= |hs|
    ensures InOrder(hs, n, TakenAt(selects, cur), Matching(hs, n, selects, cur))
  {
    KeptInOrder(hs, n, TakenAt(selects, cur));
  }

  /** A batch for this element: exactly the handlers whose selector is taken to match there, in order. */
  ghost predicate BatchFor(b: Batch, hs: seq<HandleObj>, selects: (string, Elem) -> bool, cur: Elem) {
    b.elem == cur && InOrder(hs, |hs|, TakenAt(selects, cur), b.matches)
  }

  /** An element that gets a batch: it is not skipped, and the selector of some handler is taken to match there. */
  predicate Served(hs: seq<HandleObj>, skips: Elem -> bool, selects: (string, Elem) -> bool, cur: Elem) {
    !skips(cur) && Rank(hs, |hs|, TakenAt(selects, cur)) > 0
  }

  /** How many of the first `n` elements get a batch. */
  function ServedBefore(hs: seq<HandleObj>, path: seq<Elem>, n: nat, skips: Elem -> bool,
                        selects: (string, Elem) -> bool): nat
    requires n <= |path|
  {
    if n == 0 then 0
    else if Served(hs, skips, selects, path[n - 1]) then ServedBefore(hs, path, n - 1, skips, selects) + 1
    else ServedBefore(hs, path, n - 1, skips, selects)
  }

  /** The batches stand in the order of the path, from the target up: each served element has its batch at the number
      of those before it, and there are no other batches. */
  ghost predicate OnTheWay(batches: seq<Batch>, hs: seq<HandleObj>, path: seq<Elem>, n: nat, skips: Elem -> bool,
                           selects: (string, Elem) -> bool)
    requires n <= |path|
  {
    |batches| == ServedBefore(hs, path, n, skips, selects) &&
    forall i :: 0 <= i < n && Served(hs, skips, selects, path[i]) ==>
      var k := ServedBefore(hs, path, i, skips, selects);
      k < |batches| && BatchFor(batches[k], hs, selects, path[i])
  }

  lemma {:induction false} DelegatedInOrder(hs: seq<HandleObj>, path: seq<Elem>, n: nat, skips: Elem -> bool,
                                            selects: (string, Elem) -> bool)
    requires n <= |path|
    ensures OnTheWay(Delegated(hs, path, n, skips, selects), hs, path, n, skips, selects)
    decreases n
  {
    if n > 0 {
      DelegatedInOrder(hs, path, n - 1, skips, selects);
      BatchIs(hs, selects, path[n - 1]);
      OnTheWayNext(Delegated(hs, path, n - 1, skips, selects), hs, path, n - 1, skips, selects,
                   Batch(path[n - 1], Matching(hs, |hs|, selects, path[n - 1])));
    }
  }

  lemma OnTheWayNext(batches: seq<Batch>, hs: seq<HandleObj>, path: seq<Elem>, n: nat, skips: Elem -> bool,
                     selects: (string, Elem) -> bool, b: Batch)
    requires n < |path| && OnTheWay(batches, hs, path, n, skips, selects) && BatchFor(b, hs, selects, path[n])
    ensures var longer := if Served(hs, skips, selects, path[n]) then batches + [b] else batches;
            OnTheWay(longer, hs, path, n + 1, skips, selects)
  {
  }

  lemma BatchIs(hs: seq<HandleObj>, selects: (string, Elem) -> bool, cur: Elem)
    ensures BatchFor(Batch(cur, Matching(hs, |hs|, selects, cur)), hs, selects, cur)
    ensures Matching(hs, |hs|, selects, cur) == [] <==> Rank(hs, |hs|, TakenAt(selects, cur)) == 0
  {
    MatchingInOrder(hs, |hs|, selects, cur);
  }

  lemma Inserted(d: seq<HandleObj>, n: seq<HandleObj>, h: HandleObj)
    ensures d + [] == d && n + [] == n && (d + n) + [h] == d + (n + [h])
  {
  }

  lemma LiveNext(history: seq<Op>, h: HandleObj)
    ensures Live(history + [Op.Add(h)]) == Live(history) + [h]
  {
    assert (history + [Op.Add(h)])[..|history|] == history;
  }

  class HandlerList {
    var handlers: seq<HandleObj>
    var delegateCount: nat

    /** What was done to the list. */
    ghost var history: seq<Op>

    /** The list is the delegated handlers followed by the direct ones, each part in the order of adding. */
    ghost predicate Valid()
      reads this
    {
      handlers == Part(Live(history), true) + Part(Live(history), false) &&
      delegateCount == |Part(Live(history), true)|
    }

    constructor ()
      ensures Valid() && history == []
    {
      handlers, delegateCount, history := [], 0, [];
    }

    method AddHandler(h: HandleObj)
      requires Valid()
      modifies this
      ensures Valid() && history == old(history) + [Op.Add(h)]
      ensures |handlers| == old(|handlers|) + 1
    {
      ghost var live := Live(history);
      ghost var d, n := Part(live, true), Part(live, false);
      assert handlers[..delegateCount] == d && handlers[delegateCount..] == n;
      LiveNext(history, h);
      PartAppend(live, h, true);
      PartAppend(live, h, false);
      Inserted(d, n, h);
      if h.selector != "" {
        handlers := handlers[..delegateCount] + [h] + handlers[delegateCount..];
        delegateCount := delegateCount + 1;
      } else {
        handlers := handlers + [h];
      }
      history := history + [Op.Add(h)];
    }

    /** One turn of the loop of `remove`; `j` is stepped back over a deleted entry. */
    method Turn(drop: HandleObj -> bool, at: nat, ghost done: seq<HandleObj>, ghost todo: seq<HandleObj>)
        returns (j: nat)
      requires delegateCount == |Part(handlers, true)|
      requires handlers == done + todo && at == |done| && todo != []
      modifies this`handlers, this`delegateCount
      ensures delegateCount == |Part(handlers, true)|
      ensures handlers == Spared(done, todo[0], drop) + todo[1..] && j == |Spared(done, todo[0], drop)|
    {
      var handleObj, next := handlers[at], at as int;
      if drop(handleObj) {
        DeleteAt(at);
        next := next - 1;
      }
      j := next + 1;
    }

    method Cut(drop: HandleObj -> bool)
      requires delegateCount == |Part(handlers, true)|
      modifies this`handlers, this`delegateCount
      ensures handlers == Survivors(old(handlers), drop)
      ensures delegateCount == |Part(handlers, true)|
    {
      ghost var done: seq<HandleObj>, todo := [], handlers;
      var j := 0;
      assert Splits(handlers, drop, done, todo) by {
        assert [] + Survivors(handlers, drop) == Survivors(handlers, drop);
      }
      while j < |handlers|
        invariant handlers == done + todo
        invariant j == |done|
        invariant delegateCount == |Part(handlers, true)|
        invariant Splits(old(handlers), drop, done, todo)
        decreases |todo|
      {
        SurvivorsNext(old(handlers), drop, done, todo);
        j := Turn(drop, j, done, todo);
        done, todo := Spared(done, todo[0], drop), todo[1..];
      }
    }

    method DeleteAt(j: nat)
      requires j < |handlers| && delegateCount == |Part(handlers, true)|
      modifies this`handlers, this`delegateCount
      ensures handlers == old(handlers)[..j] + old(handlers)[j + 1..]
      ensures delegateCount == |Part(handlers, true)|
    {
      ghost var front, back := handlers[..j], handlers[j + 1..];
      assert handlers == (front + [handlers[j]]) + back;
      PartConcat(front + [handlers[j]], back, true);
      PartAppend(front, handlers[j], true);
      PartConcat(front, back, true);
      var handleObj := handlers[j];
      handlers := handlers[..j] + handlers[j + 1..];
      if handleObj.selector != "" {
        delegateCount := delegateCount - 1;
      }
    }

    method RemoveHandlers(q: Query)
      requires Valid()
      modifies this
      ensures Valid() && history == old(history) + [Op.Remove(q)]
      ensures handlers == Survivors(old(handlers), Tester(q))
    {
      ghost var live := Live(history);
      ghost var d, n := Part(live, true), Part(live, false);
      PartConcat(d, n, true);
      PartOfPart(d, true);
      PartOfPart(n, false);
      Cut(Tester(q));
      SurvivorsConcat(d, n, Tester(q));
      SurvivorsParts(live, Tester(q), true);
      SurvivorsParts(live, Tester(q), false);
      PartConcat(Survivors(d, Tester(q)), Survivors(n, Tester(q)), true);
      PartOfPart(Part(Survivors(live, Tester(q)), true), true);
      PartOfPart(Part(Survivors(live, Tester(q)), false), false);
      history := history + [Op.Remove(q)];
      assert history[..|history| - 1] == old(history);
    }

    /** The inner loop of `dispatch`, which asks each selector once per element. */
    method MatchesAt(selects: (string, Elem) -> bool, cur: Elem) returns (matches: seq<HandleObj>)
      requires delegateCount <= |handlers|
      ensures matches == Matching(handlers[..delegateCount], delegateCount, selects, cur)
    {
      var selMatch: map<string, bool> := map[];
      matches := [];
      ghost var front := handlers[..delegateCount];
      var i := 0;
      while i < delegateCount
        invariant 0 <= i <= delegateCount
        invariant forall sel :: sel in selMatch ==> selMatch[sel] == Taken(selects, sel, cur)
        invariant matches == Matching(front, i, selects, cur)
      {
        var handleObj := handlers[i];
        assert handleObj == front[i];
        var sel := handleObj.selector;
        if sel !in selMatch && sel !in INHERITED {
          selMatch := selMatch[sel := selects(sel, cur)];
        }
        if sel !in selMatch || selMatch[sel] {
          matches := matches + [handleObj];
        }
        i := i + 1;
      }
    }

    /** The walk from the target up. */
    method DelegatedBatches(path: seq<Elem>, skips: Elem -> bool, selects: (string, Elem) -> bool)
      returns (queue: seq<Batch>)
      requires delegateCount <= |handlers|
      ensures queue == Delegated(handlers[..delegateCount], path, |path|, skips, selects)
    {
      queue := [];
      ghost var front := handlers[..delegateCount];
      var k := 0;
      while k < |path|
        invariant 0 <= k <= |path|
        invariant queue == Delegated(front, path, k, skips, selects)
      {
        if !skips(path[k]) {
          var matches := MatchesAt(selects, path[k]);
          if |matches| > 0 {
            queue := queue + [Batch(path[k], matches)];
          }
        }
        k := k + 1;
      }
    }

    /** The queue of `dispatch`: for each element from the target up (`path`) the delegated handlers
        matching there, then, on the element itself, exactly the handlers bound directly. */
    method HandlerQueue(this_: Elem, path: seq<Elem>, leftClick: bool, skips: Elem -> bool,
        selects: (string, Elem) -> bool)
      returns (queue: seq<Batch>)
      requires Valid()
      ensures var direct := Part(Live(history), false);
              queue == (if leftClick then Delegated(Part(Live(history), true), path, |path|, skips, selects) else []) +
                       (if direct == [] then [] else [Batch(this_, direct)])
    {
      queue := [];
      assert handlers[..delegateCount] == Part(Live(history), true);
      assert handlers[delegateCount..] == Part(Live(history), false);
      if delegateCount > 0 && leftClick {
        queue := DelegatedBatches(path, skips, selects);
      } else if leftClick {
        NoDelegates(path, |path|, skips, selects);
      }
      if |handlers| > delegateCount {
        queue := queue + [Batch(this_, handlers[delegateCount..])];
      }
    }
  }

  lemma {:induction false} NoDelegates(path: seq<Elem>, n: nat, skips: Elem -> bool, selects: (string, Elem) -> bool)
    requires n <= |path|
    ensures Delegated([], path, n, skips, selects) == []
    decreases n
  {
    if n > 0 {
      NoDelegates(path, n - 1, skips, selects);
    }
  }

  /** Of the list `hs`, `todo` is still to be looked at and `done` are the survivors before it. */
  function Spared(done: seq<HandleObj>, h: HandleObj, drop: HandleObj -> bool): seq<HandleObj> {
    if drop(h) then done else done + [h]
  }

  ghost predicate Splits(hs: seq<HandleObj>, drop: HandleObj -> bool, done: seq<HandleObj>, todo: seq<HandleObj>) {
    Survivors(hs, drop) == done + Survivors(todo, drop)
  }

  lemma SurvivorsNext(hs: seq<HandleObj>, drop: HandleObj -> bool, done: seq<HandleObj>, todo: seq<HandleObj>)
    requires Splits(hs, drop, done, todo) && todo != []
    ensures Splits(hs, drop, Spared(done, todo[0], drop), todo[1..])
  {
    var h, rest := todo[0], todo[1..];
    SurvivorsCons(h, rest, drop);
    assert todo == [h] + rest;
    assert done + ([h] + Survivors(rest, drop)) == done + [h] + Survivors(rest, drop);
    assert done + ([] + Survivors(rest, drop)) == done + Survivors(rest, drop);
  }

  lemma SurvivorsCons(h: HandleObj, rest: seq<HandleObj>, drop: HandleObj -> bool)
    ensures Survivors([h] + rest, drop) == (if drop(h) then [] else [h]) + Survivors(rest, drop)
  {
    SurvivorsConcat([h], rest, drop);
    SurvivorsAppend([], h, drop);
    assert [] + [h] == [h];
  }
}
