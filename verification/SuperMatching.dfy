/**
 `matcherFromGroupMatchers`: a whole search.  Element matchers and the filters of set matchers are compiled
 matchers of `Combinators`, run with their stamps.
 */
module SuperMatching {
  import opened Dom
  import opened Combinators
  import opened Stamps
  import opened Questions
  import opened Sizzles
  import opened Filtering
  import opened SetMatching

  // ----- element matchers -----

  /** The matchers of one group were compiled one after the other and share no name. */
  ghost predicate Compatible(ms: seq<Matcher>) {
    (forall j :: 0 <= j < |ms| ==> Distinct(ms[j])) &&
    forall j, k :: 0 <= j < |ms| && 0 <= k < |ms| && j != k ==> Names(InMatcher(ms[j])) !! Names(InMatcher(ms[k]))
  }

  /** Neither do the filters of set matchers. */
  ghost predicate SetsCompatible(ms: seq<Matcher>, sms: seq<SetMatcher>) {
    (forall j :: 0 <= j < |sms| ==> Separate(sms[j]) && SetNames(sms[j]) !! ElementNames(ms)) &&
    forall j, k :: 0 <= j < |sms| && 0 <= k < |sms| && j != k ==> SetNames(sms[j]) !! SetNames(sms[k])
  }

  function ElementNames(ms: seq<Matcher>): set<nat> {
    set j, d | 0 <= j < |ms| && d in Names(InMatcher(ms[j])) :: d
  }

  predicate Accepts(e: Env, ms: seq<Matcher>, p: Path) {
    exists j :: 0 <= j < |ms| && Holds(e, ms[j], p)
  }

  /** Between candidates: true marks, with names of these matchers and numbers up to this one only. */
  ghost predicate Steady(e: Env, ms: seq<Matcher>, candidate: int, w: Marks) {
    (forall j :: 0 <= j < |ms| ==> Sound(e, InMatcher(ms[j]), w)) &&
    forall n :: n in w ==> w[n].candidate <= candidate && w[n].name in ElementNames(ms)
  }

  ghost predicate AllSettled(e: Env, k: nat, ms: seq<Matcher>, w: Marks) {
    forall j :: 0 <= j < |ms| ==> Settled(e, k, InMatcher(ms[j]), w)
  }

  /** Writing the marks of one matcher leaves the others as they were. */
  lemma OneMatcher(e: Env, k: nat, ms: seq<Matcher>, j: nat, p: Path, w: Marks)
    requires Compatible(ms) && j < |ms| && Steady(e, ms, k, w) && AllSettled(e, k, ms, w)
    ensures var (matched, v) := MatchIn(e, k, ms[j], p, w);
            matched == Holds(e, ms[j], p) && Steady(e, ms, k, v) && (!matched ==> AllSettled(e, k, ms, v))
  {
    var v := MatchIn(e, k, ms[j], p, w).1;
    MatchReady(e, k, ms[j], p, w);
    MatchWrote(e, k, ms[j], p, w);
    if e.xml {
      assert forall n :: Look(v, n) == Look(w, n);
      SameMarks(w, v);
    } else {
      forall i | 0 <= i < |ms| && i != j ensures Sound(e, InMatcher(ms[i]), v) && Settled(e, k, InMatcher(ms[i]), v) {
        OthersKeep(e, k, InMatcher(ms[i]), Names(InMatcher(ms[j])), Rank(p), w, v);
      }
      forall n | n in v ensures v[n].candidate <= k && v[n].name in ElementNames(ms) {
        assert Look(v, n) == Look(w, n) || v[n].name in Names(InMatcher(ms[j]));
      }
    }
  }

  /** The inner loop over the element matchers, for one candidate. */
  method MatchElement(s: Sizzle, e: Env, ms: seq<Matcher>, p: Path) returns (matched: bool)
    requires s.Valid() && Compatible(ms)
    requires Steady(e, ms, s.cachedruns, s.View()) && AllSettled(e, s.cachedruns, ms, s.View())
    modifies s`expando, s`sizset
    ensures matched == Accepts(e, ms, p)
    ensures s.Valid() && Steady(e, ms, s.cachedruns, s.View())
  {
    var j := 0;
    matched := false;
    while j < |ms|
      invariant 0 <= j <= |ms| && !matched
      invariant forall k :: 0 <= k < j ==> !Holds(e, ms[k], p)
      invariant s.Valid() && Steady(e, ms, s.cachedruns, s.View()) && AllSettled(e, s.cachedruns, ms, s.View())
    {
      OneMatcher(e, s.cachedruns, ms, j, p, s.View());
      matched := s.Match(e, ms[j], p);
      if matched {
        return;
      }
      j := j + 1;
    }
  }

  // ----- what a search returns -----

  /** The elements of `seed` whose index is hit, in order. */
  function Select(seed: seq<Option<Elem>>, hit: seq<bool>, n: nat): seq<Elem>
    requires n <= |seed| && n <= |hit|
  {
    if n == 0 then []
    else Select(seed, hit, n - 1) + if hit[n - 1] && seed[n - 1].Some? then [seed[n - 1].value] else []
  }

  function ElementHits(e: Env, ms: seq<Matcher>, seed: seq<Option<Elem>>): (r: seq<bool>)
    ensures |r| == |seed|
  {
    seq(|seed|, i requires 0 <= i < |seed| => seed[i].Some? && Accepts(e, ms, seed[i].value))
  }

  /** What the element matchers leave for the set matchers. */
  function Left(seed: seq<Option<Elem>>, hit: seq<bool>): (r: seq<Option<Elem>>)
    requires |hit| == |seed|
    ensures |r| == |seed|
  {
    seq(|seed|, i requires 0 <= i < |seed| => if hit[i] then None else seed[i])
  }

  /** The entries at whose index the other list has none. */
  function Without(xs: seq<Option<Elem>>, taken: seq<Option<Elem>>): (r: seq<Option<Elem>>)
    requires |taken| == |xs|
    ensures |r| == |xs|
  {
    seq(|xs|, i requires 0 <= i < |xs| => if taken[i].Some? then None else xs[i])
  }

  /** The result array of the first `k` set matchers, each run on what the earlier ones left. */
  function SetMatched(e: Env, sms: seq<SetMatcher>, k: nat, left: seq<Option<Elem>>): (r: seq<Option<Elem>>)
    requires k <= |sms|
    ensures |r| == |left|
  {
    if k == 0 then seq(|left|, _ => None)
    else
      var before := SetMatched(e, sms, k - 1, left);
      Outcome(e, sms[k - 1], Without(left, before), before)
  }

  lemma OutcomeSame(e: Env, m: SetMatcher, seed: seq<Option<Elem>>, results: seq<Option<Elem>>)
    ensures forall i :: 0 <= i < |seed| && Outcome(e, m, seed, results)[i].Some? &&
                        (seed[i].None? || i >= |results| || results[i].None?)
                        ==> Outcome(e, m, seed, results)[i] == Overlay(seed, results)[i]
  {
    if m.Positional? && m.pre.None? {
      ThroughSame(e, m.post, Overlay(Primary(m.position, seed), results));
    } else {
      MovedSame(e, m, seed);
    }
  }

  lemma {:induction false} SetMatchedSame(e: Env, sms: seq<SetMatcher>, k: nat, left: seq<Option<Elem>>)
    requires k <= |sms|
    ensures forall i :: 0 <= i < |left| && SetMatched(e, sms, k, left)[i].Some? ==>
            SetMatched(e, sms, k, left)[i] == left[i]
    decreases k
  {
    if k > 0 {
      SetMatchedSame(e, sms, k - 1, left);
      var before := SetMatched(e, sms, k - 1, left);
      OutcomeSame(e, sms[k - 1], Without(left, before), before);
    }
  }

  /** The indices an element matcher or a set matcher hits. */
  function Hits(e: Env, ms: seq<Matcher>, sms: seq<SetMatcher>, seed: seq<Option<Elem>>): (r: seq<bool>)
    ensures |r| == |seed|
  {
    var hit := ElementHits(e, ms, seed);
    var moved := SetMatched(e, sms, |sms|, Left(seed, hit));
    seq(|seed|, i requires 0 <= i < |seed| => hit[i] || moved[i].Some?)
  }

  // ----- every set matcher in turn -----

  /** One set matcher: what it is to match of `rest` is added to `taken`, and is no longer in `rest`. */
  ghost predicate Turn(e: Env, m: SetMatcher, first: seq<Option<Elem>>, rest: seq<Option<Elem>>,
                       taken: seq<Option<Elem>>, rest': seq<Option<Elem>>, taken': seq<Option<Elem>>)
  {
    |rest'| == |taken'| == |rest| == |first| && taken' == Outcome(e, m, rest, taken) && rest' == Without(first, taken')
  }

  /** The arrays through the loop over the set matchers: `rests[j]` and `taken[j]` are what is left and what is matched
      before number `j`, which turns the one into the other. */
  ghost predicate Turns(e: Env, sms: seq<SetMatcher>, rests: seq<seq<Option<Elem>>>, taken: seq<seq<Option<Elem>>>) {
    |rests| == |taken| == |sms| + 1 &&
    (forall j :: 0 <= j <= |sms| ==> |rests[j]| == |taken[j]| == |rests[0]|) &&
    (forall i :: 0 <= i < |rests[0]| ==> taken[0][i].None?) &&
    forall j :: 0 <= j < |sms| ==> Turn(e, sms[j], rests[0], rests[j], taken[j], rests[j + 1], taken[j + 1])
  }

  /** The loop takes every turn. */
  lemma {:induction false} SetMatchedTurns(e: Env, sms: seq<SetMatcher>, rests: seq<seq<Option<Elem>>>,
                                           taken: seq<seq<Option<Elem>>>, k: nat)
    requires Turns(e, sms, rests, taken) && k <= |sms|
    ensures SetMatched(e, sms, k, rests[0]) == taken[k] && Without(rests[0], taken[k]) == rests[k]
    decreases k
  {
    if k > 0 {
      SetMatchedTurns(e, sms, rests, taken, k - 1);
      assert Turn(e, sms[k - 1], rests[0], rests[k - 1], taken[k - 1], rests[k], taken[k]);
    }
  }

  /** Set matchers that leave earlier results alone. */
  ghost predicate Adds(e: Env, m: SetMatcher, rest: seq<Option<Elem>>, taken: seq<Option<Elem>>) {
    m.Plain? || m.pre.Some? || m.post.None? ||
    (m.post.value.Plain? && Distinct(m.post.value.filter) &&
     NoClash(e, m.post.value.filter, Overlay(Primary(m.position, rest), taken)) &&
     forall i :: 0 <= i < |taken| && taken[i].Some? ==> Rightly(e, m.post.value.filter, taken[i]))
  }

  /** `next` is `rest` without what the set matcher moves out of it. */
  ghost predicate Took(e: Env, m: SetMatcher, rest: seq<Option<Elem>>, next: seq<Option<Elem>>) {
    |next| == |rest| &&
    forall i :: 0 <= i < |rest| ==> next[i] == if Moved(e, m, rest)[i].Some? then None else rest[i]
  }

  /** `rests[0]` is what element matchers leave of the seed, and each set matcher takes what it moves out of the
      rest. */
  ghost predicate Rests(e: Env, ms: seq<Matcher>, sms: seq<SetMatcher>, seed: seq<Option<Elem>>,
                         rests: seq<seq<Option<Elem>>>) {
    |rests| == |sms| + 1 && (forall j :: 0 <= j <= |sms| ==> |rests[j]| == |seed|) &&
    (forall i :: 0 <= i < |seed| ==>
       rests[0][i] == if seed[i].Some? && Accepts(e, ms, seed[i].value) then None else seed[i]) &&
    forall j :: 0 <= j < |sms| ==> Took(e, sms[j], rests[j], rests[j + 1])
  }

  /** An element is hit exactly if an element matcher accepts it or some set matcher moves it out of what those
      before it have left. */
  lemma HitsExactly(e: Env, ms: seq<Matcher>, sms: seq<SetMatcher>, seed: seq<Option<Elem>>,
                    rests: seq<seq<Option<Elem>>>, i: nat)
    requires Rests(e, ms, sms, seed, rests) && i < |seed|
    requires forall j :: 0 <= j < |sms| ==> Adds(e, sms[j], rests[j], Without(rests[0], rests[j]))
    ensures Hits(e, ms, sms, seed)[i] <==>
            (seed[i].Some? && Accepts(e, ms, seed[i].value)) ||
            exists j :: 0 <= j < |sms| && Moved(e, sms[j], rests[j])[i].Some?
  {
    var taken := seq(|rests|, j requires 0 <= j < |rests| => Without(rests[0], rests[j]));
    forall j | 0 <= j < |sms| ensures Turn(e, sms[j], rests[0], rests[j], taken[j], rests[j + 1], taken[j + 1]) {
      OneTurn(e, ms, sms, seed, rests, j);
    }
    assert rests[0] == Left(seed, ElementHits(e, ms, seed));
    SetMatchedTurns(e, sms, rests, taken, |sms|);
    assert SetMatched(e, sms, |sms|, rests[0]) == Without(rests[0], rests[|sms|]);
    WithoutMoved(e, ms, sms, seed, rests, |sms|, i);
  }

  lemma OneTurn(e: Env, ms: seq<Matcher>, sms: seq<SetMatcher>, seed: seq<Option<Elem>>,
                rests: seq<seq<Option<Elem>>>, j: nat)
    requires Rests(e, ms, sms, seed, rests) && j < |sms|
    requires Adds(e, sms[j], rests[j], Without(rests[0], rests[j]))
    ensures var before, after := Without(rests[0], rests[j]), Without(rests[0], rests[j + 1]);
            Turn(e, sms[j], rests[0], rests[j], before, rests[j + 1], after)
  {
    var rest, taken := rests[j], Without(rests[0], rests[j]);
    RestSame(e, ms, sms, seed, rests, j);
    assert Took(e, sms[j], rest, rests[j + 1]);
    OutcomeAddsExactly(e, sms[j], rest, taken);
    AddedWithout(e, sms[j], rests[0], rest, rests[j + 1]);
  }

  lemma AddedWithout(e: Env, m: SetMatcher, first: seq<Option<Elem>>, rest: seq<Option<Elem>>, next: seq<Option<Elem>>)
    requires |first| == |rest| && Took(e, m, rest, next)
    requires forall i :: 0 <= i < |rest| && rest[i].Some? ==> rest[i] == first[i]
    ensures Without(first, next) == Overlay(Moved(e, m, rest), Without(first, rest))
    ensures next == Without(first, Without(first, next))
  {
    MovedSame(e, m, rest);
  }

  lemma {:induction false} RestSame(e: Env, ms: seq<Matcher>, sms: seq<SetMatcher>, seed: seq<Option<Elem>>,
                                    rests: seq<seq<Option<Elem>>>, j: nat)
    requires Rests(e, ms, sms, seed, rests) && j <= |sms|
    ensures forall i :: 0 <= i < |seed| && rests[j][i].Some? ==> rests[j][i] == rests[0][i]
    decreases j
  {
    if j > 0 {
      RestSame(e, ms, sms, seed, rests, j - 1);
      assert Took(e, sms[j - 1], rests[j - 1], rests[j]);
    }
  }

  lemma {:induction false} WithoutMoved(e: Env, ms: seq<Matcher>, sms: seq<SetMatcher>, seed: seq<Option<Elem>>,
                                        rests: seq<seq<Option<Elem>>>, n: nat, i: nat)
    requires Rests(e, ms, sms, seed, rests) && n <= |sms| && i < |seed|
    ensures Without(rests[0], rests[n])[i].Some? <==> exists j :: 0 <= j < n && Moved(e, sms[j], rests[j])[i].Some?
    decreases n
  {
    if n > 0 {
      WithoutMoved(e, ms, sms, seed, rests, n - 1, i);
      RestSame(e, ms, sms, seed, rests, n - 1);
      MovedSame(e, sms[n - 1], rests[n - 1]);
      assert Took(e, sms[n - 1], rests[n - 1], rests[n]);
    }
  }

  // ----- results in seed order -----

  /** A selection is the hit elements of the seed, in the order of the seed. */
  lemma {:induction false} SelectInOrder(seed: seq<Option<Elem>>, hit: seq<bool>, n: nat) returns (at: seq<nat>)
    requires n <= |seed| == |hit|
    ensures |at| == |Select(seed, hit, n)| && forall j, k :: 0 <= j < k < |at| ==> at[j] < at[k]
    ensures forall k :: 0 <= k < |at| ==> at[k] < n && seed[at[k]] == Some(Select(seed, hit, n)[k])
    ensures forall i :: 0 <= i < n ==> (i in at <==> hit[i] && seed[i].Some?)
    decreases n
  {
    at := [];
    if n > 0 {
      at := SelectInOrder(seed, hit, n - 1);
      if hit[n - 1] && seed[n - 1].Some? {
        at := at + [n - 1];
      }
    }
  }

  class Results {
    var items: seq<Elem>

    constructor (xs: seq<Elem>)
      ensures items == xs
    {
      items := xs;
    }

    method Push(x: Elem)
      modifies this
      ensures items == old(items) + [x]
    {
      items := items + [x];
    }

    method Pop() returns (x: Option<Elem>)
      modifies this
      ensures old(items) == [] ==> x == None && items == []
      ensures old(items) != [] ==> x.Some? && old(items) == items + [x.value]
    {
      if items == [] {
        return None;
      }
      x := Some(items[|items| - 1]);
      items := items[..|items| - 1];
    }
  }

  // ----- reintegration -----

  /** The popping loop: an index below `n` that is in neither array gets the last result. */
  function Reintegrate(unmatched: seq<Option<Elem>>, setMatched: seq<Option<Elem>>, results: seq<Elem>, n: nat)
    : (r: (seq<Option<Elem>>, seq<Elem>))
    requires n <= |unmatched| == |setMatched|
    ensures |r.0| == |unmatched|
    decreases n
  {
    if n == 0 then (setMatched, results)
    else if unmatched[n - 1].Some? || setMatched[n - 1].Some? then Reintegrate(unmatched, setMatched, results, n - 1)
    else if results == [] then Reintegrate(unmatched, setMatched, [], n - 1)
    else
      var k := |results| - 1;
      Reintegrate(unmatched, setMatched[n - 1 := Some(results[k])], results[..k], n - 1)
  }

  /** The elements of an array, holes left out. */
  function Values(xs: seq<Option<Elem>>): seq<Elem> {
    if xs == [] then []
    else Values(xs[..|xs| - 1]) + if xs[|xs| - 1].Some? then [xs[|xs| - 1].value] else []
  }

  /** The results after the popping loop and the additions. */
  function Finish(unmatched: seq<Option<Elem>>, setMatched: seq<Option<Elem>>, results: seq<Elem>): seq<Elem>
    requires |unmatched| == |setMatched|
  {
    var (after, rest) := Reintegrate(unmatched, setMatched, results, |unmatched|);
    rest + Values(after)
  }

  /** A hole in the seed has no element before it. */
  ghost predicate HolesLead(seed: seq<Option<Elem>>) {
    forall i, j :: 0 <= i < j < |seed| && seed[j].None? ==> seed[i].None?
  }

  /** Each element of the seed was hit by an element matcher, was moved by a set matcher, or is unmatched. */
  ghost predicate Shared(seed: seq<Option<Elem>>, hit: seq<bool>, unmatched: seq<Option<Elem>>,
      moved: seq<Option<Elem>>) {
    |seed| == |hit| == |unmatched| == |moved| &&
    forall i :: 0 <= i < |seed| ==>
      if hit[i] then seed[i].Some? && unmatched[i].None? && moved[i].None?
      else if moved[i].Some? then moved[i] == seed[i] && unmatched[i].None?
      else unmatched[i] == seed[i]
  }

  function Either(hit: seq<bool>, moved: seq<Option<Elem>>): (r: seq<bool>)
    requires |hit| == |moved|
    ensures |r| == |hit|
  {
    seq(|hit|, i requires 0 <= i < |hit| => hit[i] || moved[i].Some?)
  }

  /** Every element of the seed is hit. */
  ghost predicate AllHit(seed: seq<Option<Elem>>, hit: seq<bool>)
    requires |hit| == |seed|
  {
    forall i :: 0 <= i < |seed| ==> seed[i].None? || hit[i]
  }

  /** What a search should do: append what is hit, in seed order, behind the earlier results. */
  ghost predicate Restored(seed: seq<Option<Elem>>, hit: seq<bool>, unmatched: seq<Option<Elem>>,
                           moved: seq<Option<Elem>>, earlier: seq<Elem>)
    requires Shared(seed, hit, unmatched, moved)
  {
    Finish(unmatched, moved, earlier + Select(seed, hit, |seed|)) == earlier + Select(seed, Either(hit, moved), |seed|)
  }

  lemma {:induction false} ValuesFirst(xs: seq<Option<Elem>>, n: nat, v: Elem)
    requires n < |xs| && forall i :: 0 <= i <= n ==> xs[i].None?
    ensures Values(xs[n := Some(v)]) == [v] + Values(xs)
    decreases |xs|
  {
    var k := |xs| - 1;
    if n < k {
      ValuesFirst(xs[..k], n, v);
      assert xs[n := Some(v)][..k] == xs[..k][n := Some(v)];
    } else {
      assert xs[n := Some(v)][..k] == xs[..k];
      NoValues(xs[..k]);
    }
  }

  lemma {:induction false} NoValues(xs: seq<Option<Elem>>)
    requires forall i :: 0 <= i < |xs| ==> xs[i].None?
    ensures Values(xs) == []
    decreases |xs|
  {
    if xs != [] {
      NoValues(xs[..|xs| - 1]);
    }
  }

  /** Leading holes take the last earlier results, which stay in front of everything else. */
  lemma {:induction false} LeadingHoles(unmatched: seq<Option<Elem>>, setMatched: seq<Option<Elem>>,
      earlier: seq<Elem>, n: nat)
    requires n <= |unmatched| == |setMatched|
    requires forall i :: 0 <= i < n ==> unmatched[i].None? && setMatched[i].None?
    ensures var (after, rest) := Reintegrate(unmatched, setMatched, earlier, n);
            rest + Values(after) == earlier + Values(setMatched)
    decreases n
  {
    if n > 0 && earlier != [] {
      var k := |earlier| - 1;
      LeadingHoles(unmatched, setMatched[n - 1 := Some(earlier[k])], earlier[..k], n - 1);
      ValuesFirst(setMatched, n - 1, earlier[k]);
      assert earlier[..k] + ([earlier[k]] + Values(setMatched)) == earlier + Values(setMatched);
    } else if n > 0 {
      LeadingHoles(unmatched, setMatched, earlier, n - 1);
    }
  }

  /** `xs` with the element hits below `n` filled in. */
  function Filled(seed: seq<Option<Elem>>, hit: seq<bool>, xs: seq<Option<Elem>>, n: nat): (r: seq<Option<Elem>>)
    requires n <= |seed| == |hit| == |xs|
    ensures |r| == |xs|
  {
    seq(|xs|, i requires 0 <= i < |xs| => if i < n && hit[i] then seed[i] else xs[i])
  }

  lemma FilledLast(seed: seq<Option<Elem>>, hit: seq<bool>, xs: seq<Option<Elem>>, n: nat)
    requires 0 < n <= |seed| == |hit| == |xs|
    ensures Filled(seed, hit, xs, n) == Filled(seed, hit, if hit[n - 1] then xs[n - 1 := seed[n - 1]] else xs, n - 1)
  {
  }

  lemma FilledNone(seed: seq<Option<Elem>>, hit: seq<bool>, xs: seq<Option<Elem>>, n: nat)
    requires n <= |seed| == |hit| == |xs| && forall i :: 0 <= i < n ==> !hit[i]
    ensures Filled(seed, hit, xs, n) == xs
  {
  }

  lemma {:induction false} ReintegrateRestores(
      seed: seq<Option<Elem>>, hit: seq<bool>, unmatched: seq<Option<Elem>>, moved: seq<Option<Elem>>,
      xs: seq<Option<Elem>>, earlier: seq<Elem>, n: nat)
    requires Shared(seed, hit, unmatched, moved) && HolesLead(seed) && n <= |seed| == |xs|
    requires forall i :: 0 <= i < n ==> xs[i] == moved[i]
    ensures var (after, rest) := Reintegrate(unmatched, xs, earlier + Select(seed, hit, n), n);
            rest + Values(after) == earlier + Values(Filled(seed, hit, xs, n))
    decreases n
  {
    if n == 0 {
      FilledNone(seed, hit, xs, 0);
      assert earlier + [] == earlier;
    } else if seed[n - 1].None? {
      SelectTail(seed, hit, 0, n);
      FilledNone(seed, hit, xs, n);
      assert earlier + [] == earlier;
      LeadingHoles(unmatched, xs, earlier, n);
    } else if hit[n - 1] {
      var before := earlier + Select(seed, hit, n - 1);
      var x := seed[n - 1].value;
      assert earlier + Select(seed, hit, n) == before + [x];
      assert (before + [x])[..|before|] == before;
      ReintegrateRestores(seed, hit, unmatched, moved, xs[n - 1 := Some(x)], earlier, n - 1);
      FilledLast(seed, hit, xs, n);
    } else {
      assert Select(seed, hit, n) == Select(seed, hit, n - 1);
      ReintegrateRestores(seed, hit, unmatched, moved, xs, earlier, n - 1);
      FilledLast(seed, hit, xs, n);
    }
  }

  lemma {:induction false} ValuesSelect(seed: seq<Option<Elem>>, hit: seq<bool>, xs: seq<Option<Elem>>)
    requires |xs| <= |seed| == |hit|
    requires forall i :: 0 <= i < |xs| ==> xs[i] == if hit[i] then seed[i] else None
    ensures Values(xs) == Select(seed, hit, |xs|)
    decreases |xs|
  {
    if xs != [] {
      ValuesSelect(seed, hit, xs[..|xs| - 1]);
    }
  }

  lemma HolesLeadRestores(seed: seq<Option<Elem>>, hit: seq<bool>, unmatched: seq<Option<Elem>>,
                          moved: seq<Option<Elem>>, earlier: seq<Elem>)
    requires Shared(seed, hit, unmatched, moved) && HolesLead(seed)
    ensures Restored(seed, hit, unmatched, moved, earlier)
  {
    ReintegrateRestores(seed, hit, unmatched, moved, moved, earlier, |seed|);
    ValuesSelect(seed, Either(hit, moved), Filled(seed, hit, moved, |seed|));
  }

  // ----- a hole behind an element -----

  /** With one earlier result, the last hole takes it. */
  lemma {:induction false} PopOnce(unmatched: seq<Option<Elem>>, xs: seq<Option<Elem>>, y: Elem, n: nat, h: nat)
    requires h < n <= |unmatched| == |xs| && unmatched[h].None? && xs[h].None?
    requires forall i :: h < i < n ==> unmatched[i].Some? || xs[i].Some?
    ensures Reintegrate(unmatched, xs, [y], n) == (xs[h := Some(y)], [])
    decreases n
  {
    if n - 1 == h {
      assert [y][..0] == [];
      NothingToPop(unmatched, xs[h := Some(y)], h);
    } else {
      PopOnce(unmatched, xs, y, n - 1, h);
    }
  }

  lemma {:induction false} NothingToPop(unmatched: seq<Option<Elem>>, xs: seq<Option<Elem>>, n: nat)
    requires n <= |unmatched| == |xs|
    ensures Reintegrate(unmatched, xs, [], n) == (xs, [])
    decreases n
  {
    if n > 0 {
      NothingToPop(unmatched, xs, n - 1);
    }
  }

  lemma {:induction false} LastHole(seed: seq<Option<Elem>>, j: nat, n: nat) returns (h: nat)
    requires j < n <= |seed| && seed[j].None?
    ensures j <= h < n && seed[h].None? && forall i :: h < i < n ==> seed[i].Some?
    decreases n
  {
    h := n - 1;
    if seed[h].Some? {
      h := LastHole(seed, j, n - 1);
    }
  }

  // ----- the search -----

  lemma {:induction false} CondensedValues(xs: seq<Option<Elem>>, n: nat)
    requires n <= |xs|
    ensures Condensed(xs, Present(xs), n) == Wrapped(Values(xs[..n]))
    decreases n
  {
    if n > 0 {
      CondensedValues(xs, n - 1);
      assert xs[..n][..n - 1] == xs[..n - 1];
    }
  }

  function Wrapped(xs: seq<Elem>): seq<Option<Elem>> {
    seq(|xs|, i requires 0 <= i < |xs| => Some(xs[i]))
  }

  lemma {:induction false} SelectTail(seed: seq<Option<Elem>>, hit: seq<bool>, m: nat, n: nat)
    requires m <= n <= |seed| == |hit|
    requires forall i :: m <= i < n ==> !hit[i]
    ensures Select(seed, hit, m) == Select(seed, hit, n)
    decreases n
  {
    if m < n {
      SelectTail(seed, hit, m, n - 1);
    }
  }

  /** After `i` turns of the loop: the hits are in the results, the rest is kept if it is tracked. */
  ghost predicate Phase(seed: seq<Option<Elem>>, hit: seq<bool>, i: nat, earlier: seq<Elem>,
                        items: seq<Elem>, unmatched: seq<Option<Elem>>, tracked: bool)
    requires i <= |seed| == |hit|
  {
    items == earlier + Select(seed, hit, i) && unmatched == if tracked then Left(seed, hit)[..i] else []
  }

  lemma PhaseStarts(seed: seq<Option<Elem>>, hit: seq<bool>, earlier: seq<Elem>, tracked: bool)
    requires |seed| == |hit|
    ensures Phase(seed, hit, 0, earlier, earlier, [], tracked)
  {
  }

  lemma PhaseNext(seed: seq<Option<Elem>>, hit: seq<bool>, i: nat, earlier: seq<Elem>,
                  items: seq<Elem>, unmatched: seq<Option<Elem>>, tracked: bool)
    requires i < |seed| == |hit| && (hit[i] ==> seed[i].Some?)
    requires Phase(seed, hit, i, earlier, items, unmatched, tracked)
    ensures Phase(seed, hit, i + 1, earlier, if hit[i] then items + [seed[i].value] else items,
                  if tracked then unmatched + [if hit[i] then None else seed[i]] else unmatched, tracked)
  {
    var left := Left(seed, hit);
    assert left[..i + 1] == left[..i] + [left[i]];
  }

  lemma PhaseEnds(seed: seq<Option<Elem>>, hit: seq<bool>, earlier: seq<Elem>,
                  items: seq<Elem>, unmatched: seq<Option<Elem>>, tracked: bool)
    requires |seed| == |hit| && Phase(seed, hit, |seed|, earlier, items, unmatched, tracked)
    ensures items == earlier + Select(seed, hit, |seed|) && unmatched == if tracked then Left(seed, hit) else []
  {
    assert Left(seed, hit)[..|seed|] == Left(seed, hit);
  }

  /** The number of elements, holes not counted. */
  function Elements(xs: seq<Option<Elem>>): nat {
    Count(Present(xs), |xs|)
  }

  lemma ElementsAppend(xs: seq<Option<Elem>>, x: Option<Elem>)
    ensures Elements(xs + [x]) == Elements(xs) + if x.Some? then 1 else 0
  {
    CondensedPrefix(xs + [x], |xs|, |xs|);
    assert (xs + [x])[..|xs|] == xs;
  }

  class SuperMatcher {
    const elementMatchers: seq<Matcher>
    const setMatchers: seq<SetMatcher>
    var el: nat

    constructor (ems: seq<Matcher>, sms: seq<SetMatcher>)
      ensures elementMatchers == ems && setMatchers == sms
    {
      elementMatchers, setMatchers, el := ems, sms, 0;
    }

    /** Counts a new run, whose number no stamp carries yet. */
    method StartRun(s: Sizzle)
      requires s.Valid()
      modifies s`dirruns, s`cachedruns
      ensures s.Valid() && s.dirruns == old(s.dirruns) + 1 && s.cachedruns == el
      ensures s.View() == map[]
    {
      s.dirruns := s.dirruns + 1;
      s.cachedruns := el;
    }

    method Candidate(s: Sizzle, e: Env, x: Option<Elem>, results: Results) returns (matched: bool)
      requires s.Valid() && Compatible(elementMatchers)
      requires Steady(e, elementMatchers, el - 1, s.View()) && s.cachedruns == el
      modifies this, s`cachedruns, s`expando, s`sizset, results
      ensures s.Valid() && Steady(e, elementMatchers, el - 1, s.View()) && s.cachedruns == el
      ensures matched == (x.Some? && Accepts(e, elementMatchers, x.value))
      ensures results.items == if matched then old(results.items) + [x.value] else old(results.items)
    {
      matched := false;
      if elementMatchers != [] && x.Some? {
        assert AllSettled(e, el, elementMatchers, s.View());
        matched := MatchElement(s, e, elementMatchers, x.value);
        if matched {
          results.Push(x.value);
        }
        el := el + 1;
        s.cachedruns := el;
      }
    }

    /** The tracking of an element that the set matchers are to see. */
    method Track(x: Option<Elem>, matched: bool, before: seq<Option<Elem>>, count: int)
      returns (unmatched: seq<Option<Elem>>, matchedCount: int)
      requires count + Elements(before) == 0
      ensures unmatched == if setMatchers == [] then before else before + [if matched then None else x]
      ensures matchedCount + Elements(unmatched) == 0
    {
      unmatched, matchedCount := before, count;
      if setMatchers != [] {
        var elem := if matched then None else x;
        if elem.Some? {
          matchedCount := matchedCount - 1;
        }
        ElementsAppend(unmatched, elem);
        unmatched := unmatched + [elem];
      }
    }

    /** One turn of the loop over the elements. */
    method ElementTurn(s: Sizzle, e: Env, seed: seq<Option<Elem>>, i: nat, results: Results,
                       before: seq<Option<Elem>>, count: int, ghost earlier: seq<Elem>)
      returns (unmatched: seq<Option<Elem>>, matchedCount: int)
      requires s.Valid() && Compatible(elementMatchers)
      requires Steady(e, elementMatchers, el - 1, s.View()) && s.cachedruns == el
      requires i < |seed| && count + Elements(before) == 0
      requires Phase(seed, ElementHits(e, elementMatchers, seed), i, earlier, results.items, before, setMatchers != [])
      modifies this, s`cachedruns, s`expando, s`sizset, results
      ensures s.Valid() && Steady(e, elementMatchers, el - 1, s.View()) && s.cachedruns == el
      ensures matchedCount + Elements(unmatched) == 0
      ensures Phase(seed, ElementHits(e, elementMatchers, seed), i + 1, earlier, results.items, unmatched,
              setMatchers != [])
    {
      ghost var hit := ElementHits(e, elementMatchers, seed);
      PhaseNext(seed, hit, i, earlier, results.items, before, setMatchers != []);
      var matched := Candidate(s, e, seed[i], results);
      assert matched == hit[i];
      unmatched, matchedCount := Track(seed[i], matched, before, count);
    }

    /** Elements passing an element matcher go directly to the results; the others are kept for the
        set matchers. */
    method ElementPhase(s: Sizzle, e: Env, seed: seq<Option<Elem>>, results: Results)
      returns (unmatched: seq<Option<Elem>>, matchedCount: int)
      requires s.Valid() && Compatible(elementMatchers)
      requires Steady(e, elementMatchers, el - 1, s.View()) && s.cachedruns == el
      modifies this, s`cachedruns, s`expando, s`sizset, results
      ensures s.Valid() && forall n :: n in s.View() ==> s.View()[n].name in ElementNames(elementMatchers)
      ensures var hit := ElementHits(e, elementMatchers, seed);
              results.items == old(results.items) + Select(seed, hit, |seed|) &&
              unmatched == if setMatchers == [] then [] else Left(seed, hit)
      ensures matchedCount == |seed| - Elements(unmatched)
    {
      ghost var hit := ElementHits(e, elementMatchers, seed);
      ghost var earlier := results.items;
      unmatched, matchedCount := [], 0;
      PhaseStarts(seed, hit, earlier, setMatchers != []);
      var i := 0;
      while i < |seed|
        invariant 0 <= i <= |seed|
        invariant s.Valid() && Steady(e, elementMatchers, el - 1, s.View()) && s.cachedruns == el
        invariant Phase(seed, hit, i, earlier, results.items, unmatched, setMatchers != [])
        invariant matchedCount + Elements(unmatched) == 0
      {
        unmatched, matchedCount := ElementTurn(s, e, seed, i, results, unmatched, matchedCount, earlier);
        i := i + 1;
      }
      PhaseEnds(seed, hit, earlier, results.items, unmatched, setMatchers != []);
      matchedCount := matchedCount + i;
    }

    /** The first `j` set matchers have shared out the elements between the two arrays. */
    ghost predicate SharedBy(e: Env, j: nat, left: seq<Option<Elem>>, unmatched: JsArray, setMatched: JsArray)
      requires j <= |setMatchers|
      reads unmatched, setMatched
    {
      |unmatched.items| == |left| && |setMatched.items| <= |left| &&
      var moved := SetMatched(e, setMatchers, j, left);
      forall i :: 0 <= i < |left| ==> setMatched.Get(i) == moved[i] && unmatched.Get(i) == Without(left, moved)[i]
    }

    /** Every set matcher runs on the two arrays, with names not used before in this run. */
    method SetPhase(s: Sizzle, e: Env, left: seq<Option<Elem>>) returns (unmatched: JsArray, setMatched: JsArray)
      requires s.Valid() && SetsCompatible(elementMatchers, setMatchers)
      requires forall j :: 0 <= j < |setMatchers| ==> s.Unused(SetNames(setMatchers[j]))
      modifies s`expando, s`sizset
      ensures s.Valid()
      ensures fresh(unmatched) && fresh(setMatched) && unmatched != setMatched
      ensures SharedBy(e, |setMatchers|, left, unmatched, setMatched)
    {
      unmatched := new JsArray(left);
      setMatched := new JsArray([]);
      var j := 0;
      while j < |setMatchers|
        invariant 0 <= j <= |setMatchers| && unmatched != setMatched && fresh(unmatched) && fresh(setMatched)
        invariant s.Valid() && forall k :: j <= k < |setMatchers| ==> s.Unused(SetNames(setMatchers[k]))
        invariant SharedBy(e, j, left, unmatched, setMatched)
      {
        SetTurn(s, e, j, left, unmatched, setMatched);
        j := j + 1;
      }
    }

    method SetTurn(s: Sizzle, e: Env, j: nat, ghost left: seq<Option<Elem>>, unmatched: JsArray, setMatched: JsArray)
      requires j < |setMatchers| && s.Valid() && SetsCompatible(elementMatchers, setMatchers) && unmatched != setMatched
      requires forall k :: j <= k < |setMatchers| ==> s.Unused(SetNames(setMatchers[k]))
      requires SharedBy(e, j, left, unmatched, setMatched)
      modifies s`expando, s`sizset, unmatched, setMatched
      ensures s.Valid() && forall k :: j < k < |setMatchers| ==> s.Unused(SetNames(setMatchers[k]))
      ensures SharedBy(e, j + 1, left, unmatched, setMatched)
    {
      ghost var before := SetMatched(e, setMatchers, j, left);
      assert unmatched.items == Without(left, before);
      SetMatchedSame(e, setMatchers, j, left);
      SetMatchedSame(e, setMatchers, j + 1, left);
      OutcomePadding(e, setMatchers[j], unmatched.items, setMatched.items, before);
      SetMatch(s, e, setMatchers[j], unmatched, setMatched);
      forall k, n | j < k < |setMatchers| && n in s.View() ensures s.View()[n].name !in SetNames(setMatchers[k]) {
        assert Look(s.View(), n) == old(Look(s.View(), n)) || s.View()[n].name in SetNames(setMatchers[j]);
      }
    }

    /** The popping loop; `before` is what the array of the set matchers holds. */
    method PutBack(unmatched: seq<Option<Elem>>, setMatched: JsArray, results: Results, ghost before: seq<Option<Elem>>)
      requires |setMatched.items| <= |unmatched| == |before|
      requires forall k :: 0 <= k < |before| ==> before[k] == setMatched.Get(k)
      modifies setMatched, results
      ensures |setMatched.items| <= |unmatched|
      ensures var (after, rest) := Reintegrate(unmatched, before, old(results.items), |unmatched|);
              results.items == rest && forall k :: 0 <= k < |unmatched| ==> setMatched.Get(k) == after[k]
    {
      ghost var now := before;
      var i := |unmatched|;
      while i > 0
        invariant 0 <= i <= |unmatched| == |now| && |setMatched.items| <= |unmatched|
        invariant forall k :: 0 <= k < |now| ==> now[k] == setMatched.Get(k)
        invariant Reintegrate(unmatched, now, results.items, i) ==
                  Reintegrate(unmatched, before, old(results.items), |unmatched|)
      {
        i := i - 1;
        if !(unmatched[i].Some? || setMatched.Get(i).Some?) {
          ghost var items := results.items;
          var popped := results.Pop();
          setMatched.Set(i, popped);
          assert items == [] ==> now[i := popped] == now;
          assert items != [] ==> items[|items| - 1] == popped.value && items[..|items| - 1] == results.items;
          now := now[i := popped];
        }
      }
    }

    /** The set matchers, the putting back of element matches, and the final additions. */
    method SetSearch(s: Sizzle, e: Env, ghost seed: seq<Option<Elem>>, ghost hit: seq<bool>, ghost hits: seq<bool>,
                     left: seq<Option<Elem>>, matchedCount: int, results: Results, ghost earlier: seq<Elem>)
      returns (unmatched: seq<Option<Elem>>)
      requires s.Valid() && SetsCompatible(elementMatchers, setMatchers)
      requires forall j :: 0 <= j < |setMatchers| ==> s.Unused(SetNames(setMatchers[j]))
      requires |hit| == |seed| && left == Left(seed, hit)
      requires forall i :: 0 <= i < |seed| && hit[i] ==> seed[i].Some?
      requires matchedCount == |seed| - Elements(left)
      requires results.items == earlier + Select(seed, hit, |seed|)
      requires hits == Either(hit, SetMatched(e, setMatchers, |setMatchers|, left))
      modifies s`expando, s`sizset, results
      ensures s.Valid()
      ensures results.items ==
              Finish(Left(seed, hits), SetMatched(e, setMatchers, |setMatchers|, left),
                  earlier + Select(seed, hit, |seed|))
      ensures unmatched == Left(seed, hits)
    {
      ghost var moved := SetMatched(e, setMatchers, |setMatchers|, left);
      SetMatchedSame(e, setMatchers, |setMatchers|, left);
      var unmatchedArray, setMatched := SetPhase(s, e, left);
      unmatched := unmatchedArray.items;
      assert unmatched == Without(left, moved) && unmatched == Left(seed, hits);
      if matchedCount > 0 {
        PutBack(unmatched, setMatched, results, moved);
        AddMatched(s, e, |seed|, setMatched, results,
            Reintegrate(unmatched, moved, earlier + Select(seed, hit, |seed|), |seed|).0);
      } else {
        NothingPopped(e, setMatchers, seed, hit, earlier);
        AddMatched(s, e, |seed|, setMatched, results, moved);
      }
    }

    /** `setMatched` is condensed and pushed. */
    method AddMatched(s: Sizzle, e: Env, ghost n: nat, setMatched: JsArray, results: Results,
        ghost xs: seq<Option<Elem>>)
      requires s.Valid() && |setMatched.items| <= n == |xs|
      requires forall i :: 0 <= i < n ==> setMatched.Get(i) == xs[i]
      modifies s`expando, s`sizset, results
      ensures s.Valid()
      ensures results.items == old(results.items) + Values(xs)
    {
      var found, _ := Condense(s, e, setMatched.items, None);
      ghost var k := |setMatched.items|;
      assert setMatched.items == xs[..k] by {
        assert forall i :: 0 <= i < k ==> setMatched.items[i] == setMatched.Get(i);
      }
      forall i | k <= i < n ensures xs[i].None? {
        assert setMatched.Get(i) == None;
      }
      ValuesTail(xs, k);
      CondensedValues(setMatched.items, k);
      assert setMatched.items[..k] == setMatched.items;
      PushAll(results, found, Values(xs));
    }

    /** The search of `superMatcher` on a seed: what none hits is returned.  What some matcher hits is
        appended in seed order, unless a hole of the seed stands behind an element and set matchers are run. */
    method Search(s: Sizzle, e: Env, seed: seq<Option<Elem>>, results: Results) returns (unmatched: seq<Option<Elem>>)
      requires s.Valid() && Compatible(elementMatchers) && SetsCompatible(elementMatchers, setMatchers)
      modifies this, s`dirruns, s`cachedruns, s`expando, s`sizset, results
      ensures s.Valid()
      ensures results.items == SearchResult(e, setMatchers, seed, ElementHits(e, elementMatchers, seed),
              old(results.items))
      ensures setMatchers != [] ==> unmatched == Left(seed, Hits(e, elementMatchers, setMatchers, seed))
    {
      ghost var hit := ElementHits(e, elementMatchers, seed);
      ghost var hits := Hits(e, elementMatchers, setMatchers, seed);
      StartRun(s);
      var matchedCount;
      unmatched, matchedCount := ElementPhase(s, e, seed, results);
      if setMatchers == [] {
        return;
      }
      NoneLeft(seed, hit);
      if |seed| == 0 || |seed| != matchedCount {
        unmatched := SetSearch(s, e, seed, hit, hits, unmatched, matchedCount, results, old(results.items));
      } else {
        NoneMoved(e, setMatchers, seed, hit);
      }
    }
  }

  /** The results of a search on a seed; `hit` are the indices hit by element matchers. */
  ghost function SearchResult(e: Env, sms: seq<SetMatcher>, seed: seq<Option<Elem>>, hit: seq<bool>,
      earlier: seq<Elem>): seq<Elem>
    requires |hit| == |seed|
  {
    var moved := SetMatched(e, sms, |sms|, Left(seed, hit));
    var pushed := earlier + Select(seed, hit, |seed|);
    if sms == [] || (seed != [] && AllHit(seed, hit)) then pushed
    else Finish(Left(seed, Either(hit, moved)), moved, pushed)
  }

  /** A search appends exactly the elements some matcher hits, in seed order, unless set matchers are run on a
      seed with a hole behind an element. */
  lemma SearchAppends(e: Env, ms: seq<Matcher>, sms: seq<SetMatcher>, seed: seq<Option<Elem>>, earlier: seq<Elem>)
    requires HolesLead(seed) || sms == [] || AllHit(seed, ElementHits(e, ms, seed))
    ensures SearchResult(e, sms, seed, ElementHits(e, ms, seed), earlier) ==
            earlier + Select(seed, Hits(e, ms, sms, seed), |seed|)
  {
    var hit := ElementHits(e, ms, seed);
    var moved := SetMatched(e, sms, |sms|, Left(seed, hit));
    assert Hits(e, ms, sms, seed) == Either(hit, moved);
    if sms == [] || AllHit(seed, hit) {
      NoneMoved(e, sms, seed, hit);
    }
    if HolesLead(seed) {
      SharedOut(e, sms, seed, hit);
      HolesLeadRestores(seed, hit, Left(seed, Either(hit, moved)), moved, earlier);
    }
  }

  /** Takes all elements of a list. */
  function TakeAll(n: nat): SetMatcher {
    Positional(None, Lt(n), None)
  }

  lemma AllTaken(e: Env, xs: seq<Option<Elem>>)
    ensures SetMatched(e, [TakeAll(|xs|)], 1, xs) == xs
  {
    var sms := [TakeAll(|xs|)];
    var none := SetMatched(e, sms, 0, xs);
    assert Without(xs, none) == xs && Primary(Lt(|xs|), xs) == xs && Overlay(xs, none) == xs;
    assert SetMatched(e, sms, 1, xs) == Outcome(e, sms[0], xs, none);
  }

  lemma {:induction false} ValuesHead(xs: seq<Option<Elem>>, h: nat, y: Elem, i: nat)
    requires i < h < |xs| && xs[i].Some?
    ensures Values(xs) != [] && Values(xs[h := Some(y)]) != [] && Values(xs[h := Some(y)])[0] == Values(xs)[0]
    decreases |xs|
  {
    var n := |xs| - 1;
    if h < n {
      ValuesHead(xs[..n], h, y, i);
      assert xs[h := Some(y)][..n] == xs[..n][h := Some(y)];
    } else {
      assert xs[h := Some(y)][..n] == xs[..n];
      SomeValue(xs[..n], i);
    }
  }

  lemma {:induction false} SomeValue(xs: seq<Option<Elem>>, i: nat)
    requires i < |xs| && xs[i].Some?
    ensures Values(xs) != []
    decreases |xs|
  {
    if i < |xs| - 1 {
      SomeValue(xs[..|xs| - 1], i);
    }
  }

  /** When a hole stands behind an element, a search can fail: an earlier result ends up behind the elements. */
  lemma HoleBehindBreaks(e: Env, seed: seq<Option<Elem>>, i: nat, j: nat)
      returns (sms: seq<SetMatcher>, earlier: seq<Elem>)
    requires i < j < |seed| && seed[i].Some? && seed[j].None?
    ensures SearchResult(e, sms, seed, ElementHits(e, [], seed), earlier) !=
            earlier + Select(seed, Hits(e, [], sms, seed), |seed|)
  {
    var n, hit := |seed|, ElementHits(e, [], seed);
    SomeValue(seed, i);
    var y: Elem := Values(seed)[0] + [0];
    sms, earlier := [TakeAll(n)], [y];
    assert Left(seed, hit) == seed;
    AllTaken(e, seed);
    var unmatched := Left(seed, Either(hit, seed));
    var h := LastHole(seed, j, n);
    PopOnce(unmatched, seed, y, n, h);
    ValuesHead(seed, h, y, i);
    SelectTail(seed, hit, 0, n);
    assert earlier + [] == [y] && [] + Values(seed[h := Some(y)]) == Values(seed[h := Some(y)]);
    assert SearchResult(e, sms, seed, hit, earlier) == Values(seed[h := Some(y)]);
    assert y != Values(seed)[0];
  }

  /** On a seed the search is right, for all set matchers and earlier results, exactly when its holes lead. */
  lemma SearchAppendsExactly(e: Env, seed: seq<Option<Elem>>)
    ensures HolesLead(seed) <==>
            forall sms, earlier :: SearchResult(e, sms, seed, ElementHits(e, [], seed), earlier) ==
                                   earlier + Select(seed, Hits(e, [], sms, seed), |seed|)
  {
    if HolesLead(seed) {
      forall sms, earlier
        ensures SearchResult(e, sms, seed, ElementHits(e, [], seed), earlier) ==
                earlier + Select(seed, Hits(e, [], sms, seed), |seed|)
      {
        SearchAppends(e, [], sms, seed, earlier);
      }
    } else {
      var i, j :| 0 <= i < j < |seed| && seed[j].None? && seed[i].Some?;
      var sms, earlier := HoleBehindBreaks(e, seed, i, j);
    }
  }

  /** The popping loop takes every hole for an element that an element matcher had pushed.  It does no harm
      exactly on the seeds whose holes all stand before the elements. */
  lemma ReintegrationExactly(e: Env, seed: seq<Option<Elem>>)
    ensures HolesLead(seed) <==>
            forall hit, unmatched, moved, earlier ::
              Shared(seed, hit, unmatched, moved) ==> Restored(seed, hit, unmatched, moved, earlier)
  {
    if HolesLead(seed) {
      forall hit, unmatched, moved, earlier | Shared(seed, hit, unmatched, moved)
        ensures Restored(seed, hit, unmatched, moved, earlier)
      {
        HolesLeadRestores(seed, hit, unmatched, moved, earlier);
      }
    } else {
      var i, j :| 0 <= i < j < |seed| && seed[j].None? && seed[i].Some?;
      var sms, earlier := HoleBehindBreaks(e, seed, i, j);
      var hit := ElementHits(e, [], seed);
      var moved := SetMatched(e, sms, |sms|, Left(seed, hit));
      SharedOut(e, sms, seed, hit);
      assert Hits(e, [], sms, seed) == Either(hit, moved);
      assert !AllHit(seed, hit);
      if sms == [] {
        NoneMoved(e, sms, seed, hit);
      }
      assert !Restored(seed, hit, Left(seed, Either(hit, moved)), moved, earlier);
    }
  }

  lemma NoneMoved(e: Env, sms: seq<SetMatcher>, seed: seq<Option<Elem>>, hit: seq<bool>)
    requires |hit| == |seed| && (sms == [] || AllHit(seed, hit))
    ensures Either(hit, SetMatched(e, sms, |sms|, Left(seed, hit))) == hit
  {
    SetMatchedSame(e, sms, |sms|, Left(seed, hit));
  }

  lemma SharedOut(e: Env, sms: seq<SetMatcher>, seed: seq<Option<Elem>>, hit: seq<bool>)
    requires |hit| == |seed| && forall i :: 0 <= i < |seed| && hit[i] ==> seed[i].Some?
    ensures var moved := SetMatched(e, sms, |sms|, Left(seed, hit));
            Shared(seed, hit, Left(seed, Either(hit, moved)), moved)
  {
    SetMatchedSame(e, sms, |sms|, Left(seed, hit));
  }

  lemma NoneLeft(seed: seq<Option<Elem>>, hit: seq<bool>)
    requires |hit| == |seed|
    ensures AllHit(seed, hit) <==> Elements(Left(seed, hit)) == 0
  {
    var left := Left(seed, hit);
    PresentZero(left, |seed|);
    assert forall k :: 0 <= k < |seed| ==> (left[k].None? <==> seed[k].None? || hit[k]);
  }

  /** `push.apply( results, setMatched )`. */
  method PushAll(results: Results, found: seq<Option<Elem>>, ghost xs: seq<Elem>)
    requires found == Wrapped(xs)
    modifies results
    ensures results.items == old(results.items) + xs
  {
    var i := 0;
    while i < |found|
      invariant 0 <= i <= |found|
      invariant results.items == old(results.items) + xs[..i]
    {
      results.Push(found[i].value);
      i := i + 1;
    }
  }

  lemma {:induction false} ValuesTail(xs: seq<Option<Elem>>, k: nat)
    requires k <= |xs| && forall i :: k <= i < |xs| ==> xs[i].None?
    ensures Values(xs) == Values(xs[..k])
    decreases |xs|
  {
    if k < |xs| {
      var n := |xs| - 1;
      ValuesTail(xs[..n], k);
      assert xs[..n][..k] == xs[..k];
    } else {
      assert xs[..k] == xs;
    }
  }

  /** Without element matches and holes there is nothing to put back. */
  lemma NothingPopped(e: Env, sms: seq<SetMatcher>, seed: seq<Option<Elem>>, hit: seq<bool>, earlier: seq<Elem>)
    requires |hit| == |seed| && Elements(Left(seed, hit)) >= |seed|
    requires forall i :: 0 <= i < |seed| && hit[i] ==> seed[i].Some?
    ensures var moved := SetMatched(e, sms, |sms|, Left(seed, hit));
            var pushed := earlier + Select(seed, hit, |seed|);
            pushed + Values(moved) == Finish(Left(seed, Either(hit, moved)), moved, pushed)
  {
    var moved := SetMatched(e, sms, |sms|, Left(seed, hit));
    NoElementHits(seed, hit, Left(seed, hit));
    assert earlier + [] == earlier;
    SharedOut(e, sms, seed, hit);
    HolesLeadRestores(seed, hit, Left(seed, Either(hit, moved)), moved, earlier);
    MovedValues(seed, hit, Left(seed, Either(hit, moved)), moved);
  }

  lemma MovedValues(seed: seq<Option<Elem>>, hit: seq<bool>, unmatched: seq<Option<Elem>>, moved: seq<Option<Elem>>)
    requires Shared(seed, hit, unmatched, moved) && forall i :: 0 <= i < |seed| ==> !hit[i]
    ensures Values(moved) == Select(seed, Either(hit, moved), |seed|)
  {
    ValuesSelect(seed, Either(hit, moved), moved);
  }

  lemma NoElementHits(seed: seq<Option<Elem>>, hit: seq<bool>, left: seq<Option<Elem>>)
    requires |hit| == |seed| && left == Left(seed, hit) && Elements(left) >= |left|
    ensures Select(seed, hit, |seed|) == [] && forall i :: 0 <= i < |seed| ==> !hit[i] && seed[i].Some?
  {
    AllPresent(left, |left|);
    forall i | 0 <= i < |seed| ensures !hit[i] && seed[i].Some? {
      assert left[i].Some? && Left(seed, hit)[i] == if hit[i] then None else seed[i];
    }
    SelectTail(seed, hit, 0, |seed|);
  }

  lemma {:induction false} AllPresent(xs: seq<Option<Elem>>, n: nat)
    requires n <= |xs|
    ensures Count(Present(xs), n) <= n
    ensures Count(Present(xs), n) == n ==> forall i :: 0 <= i < n ==> xs[i].Some?
    decreases n
  {
    if n > 0 {
      AllPresent(xs, n - 1);
    }
  }

  lemma OutcomePadding(e: Env, m: SetMatcher, seed: seq<Option<Elem>>, xs: seq<Option<Elem>>, ys: seq<Option<Elem>>)
    requires |xs| <= |ys| == |seed|
    requires forall i :: 0 <= i < |ys| ==> ys[i] == if i < |xs| then xs[i] else None
    ensures Outcome(e, m, seed, xs) == Outcome(e, m, seed, ys) && Overlay(seed, xs) == Overlay(seed, ys)
  {
    assert forall zs: seq<Option<Elem>> | |zs| == |seed| :: Overlay(zs, xs) == Overlay(zs, ys);
  }
}
