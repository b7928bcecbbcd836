/**
 `matcherFromTokens` on all token lists, and the loop of `compile`.  A token list with a positional filter becomes a
 set matcher: what stands before the filter, the filter, what stands after it in its compound, and, behind a
 combinator, a finder.
 */
module Compiling {
  import opened Dom
  import opened Combinators
  import opened Filtering
  import S = Selectors
  import opened SetMatching
  import opened SuperMatching

  datatype Piece = Part(token: S.Token) | Nth(position: Position)

  datatype Compiled = Element(matcher: Matcher) | Set(setMatcher: SetMatcher, finder: Option<Compiled>)

  // ----- the specification -----

  /** The first positional filter from number `i` on. */
  function NextNth(ps: seq<Piece>, i: nat): (r: nat)
    requires i <= |ps|
    ensures i <= r <= |ps| && (forall k :: i <= k < r ==> ps[k].Part?) && (r < |ps| ==> ps[r].Nth?)
    decreases |ps| - i
  {
    if i == |ps| || ps[i].Nth? then i else NextNth(ps, i + 1)
  }

  predicate IsRel(p: Piece) {
    p.Part? && p.token.Rel?
  }

  /** The first combinator from number `i` on. */
  function NextRel(ps: seq<Piece>, i: nat): (r: nat)
    requires i <= |ps|
    ensures i <= r <= |ps| && (forall k :: i <= k < r ==> !IsRel(ps[k])) && (r < |ps| ==> IsRel(ps[r]))
    decreases |ps| - i
  {
    if i == |ps| || IsRel(ps[i]) then i else NextRel(ps, i + 1)
  }

  predicate AllParts(ps: seq<Piece>) {
    forall k :: 0 <= k < |ps| ==> ps[k].Part?
  }

  function Tokens(ps: seq<Piece>): (r: seq<S.Token>)
    requires AllParts(ps)
    ensures |r| == |ps| && forall k :: 0 <= k < |ps| ==> r[k] == ps[k].token
  {
    seq(|ps|, k requires 0 <= k < |ps| => ps[k].token)
  }

  /** `setMatcher( postFilter )` when that is not a set matcher already. */
  function AsSetMatcher(c: Compiled): SetMatcher {
    match c
    case Element(m) => Plain(m)
    case Set(s, _) => s
  }

  /** The matcher for a list of tokens, and the name counter after it. */
  function Compile(ps: seq<Piece>, done: nat): (Compiled, nat)
    decreases |ps|
  {
    var i := NextNth(ps, 0);
    var (m, d) := S.Compile(Tokens(ps[..i]), done);
    if i == |ps| then (Element(m), d)
    else
      var j := NextRel(ps, i + 1);
      var (post, d') := CompileSome(ps, i + 1, j, d);
      var (finder, d'') := CompileSome(ps, j, |ps|, d');
      (Set(Positional(if i > 0 then Some(m) else None, ps[i].position,
                      if post.Some? then Some(AsSetMatcher(post.value)) else None), finder), d'')
  }

  /** The matcher for a part of the list, if it is not empty. */
  function CompileSome(ps: seq<Piece>, i: nat, j: nat, done: nat): (Option<Compiled>, nat)
    requires 0 < i <= j <= |ps|
    decreases |ps|, 0
  {
    if i == j then (None, done)
    else
      var (c, d) := Compile(ps[i..j], done);
      (Some(c), d)
  }

  /** The matchers of a group of selectors, those of elements and those of sets; the last selector comes first. */
  function CompileAll(groups: seq<seq<Piece>>, done: nat): (seq<Matcher>, seq<Compiled>, nat) {
    if groups == [] then ([], [], done)
    else
      var n := |groups| - 1;
      var (c, d) := Compile(groups[n], done);
      var (ms, sets, last) := CompileAll(groups[..n], d);
      if c.Element? then ([c.matcher] + ms, sets, last) else (ms, [c] + sets, last)
  }

  function SetMatchers(cs: seq<Compiled>): (r: seq<SetMatcher>)
    ensures |r| == |cs|
  {
    seq(|cs|, i requires 0 <= i < |cs| => AsSetMatcher(cs[i]))
  }

  // ----- the code -----

  class Compiler {
    var done: nat

    /** `matcherFromTokens` */
    method MatcherFromTokens(tokens: seq<Piece>) returns (c: Compiled)
      requires tokens != []
      modifies this
      ensures (c, done) == Compile(tokens, old(done))
      decreases |tokens|, 2
    {
      var leading := if IsRel(tokens[0]) then Some(tokens[0].token.rel) else None;
      var m := S.ContextMatcher(leading, done);
      done := done + 2;
      var i := if leading.Some? then 1 else 0;
      while i < |tokens|
        invariant 0 <= i <= |tokens| && (leading.Some? ==> i > 0)
        invariant forall k :: 0 <= k < i ==> tokens[k].Part?
        invariant (m, done) == S.Compile(Tokens(tokens[..i]), old(done))
      {
        if tokens[i].Nth? {
          FoundNth(tokens, i);
          c := SetFrom(tokens, i, m);
          return;
        }
        PrefixNext(tokens, i, old(done));
        m := AddToken(m, tokens[i].token);
        i := i + 1;
      }
      FoundNth(tokens, i);
      c := Element(m);
    }

    method AddToken(before: Matcher, token: S.Token) returns (m: Matcher)
      modifies this
      ensures (m, done) == S.Extend(before, token, old(done))
    {
      match token {
        case Rel(r) =>
          m := Matcher(Related(Combinator(r, false, done, Compound(before))), []);
          done := done + 1;
        case Filter(t) =>
          m := Matcher(before.head, before.tests + [t]);
      }
    }

    /** What is returned upon a positional filter at number `i`. */
    method SetFrom(tokens: seq<Piece>, i: nat, m: Matcher) returns (c: Compiled)
      requires i < |tokens| && tokens[i].Nth?
      modifies this
      ensures var j := NextRel(tokens, i + 1);
              var (post, d) := CompileSome(tokens, i + 1, j, old(done));
              var (finder, d') := CompileSome(tokens, j, |tokens|, d);
              done == d' &&
              c == Set(Positional(if i > 0 then Some(m) else None, tokens[i].position,
                                  if post.Some? then Some(AsSetMatcher(post.value)) else None), finder)
      decreases |tokens|, 1
    {
      var pre := if i > 0 then Some(m) else None;
      var j := i + 1;
      while j < |tokens| && !IsRel(tokens[j])
        invariant i + 1 <= j <= |tokens| && NextRel(tokens, i + 1) == NextRel(tokens, j)
      {
        j := j + 1;
      }
      var filter := SomeFrom(tokens, i + 1, j);
      var finder := SomeFrom(tokens, j, |tokens|);
      var post := if filter.Some? then Some(AsSetMatcher(filter.value)) else None;
      c := Set(Positional(pre, tokens[i].position, post), finder);
    }

    /** `i < j && matcherFromTokens( tokens.slice( i, j ) )` */
    method SomeFrom(tokens: seq<Piece>, i: nat, j: nat) returns (c: Option<Compiled>)
      requires 0 < i <= j <= |tokens|
      modifies this
      ensures (c, done) == CompileSome(tokens, i, j, old(done))
      decreases |tokens|, 0
    {
      c := None;
      if i < j {
        var m := MatcherFromTokens(tokens[i..j]);
        c := Some(m);
      }
    }

    /** The loop of `compile`. */
    method CompileGroup(groups: seq<seq<Piece>>) returns (elementMatchers: seq<Matcher>, setMatchers: seq<Compiled>)
      requires forall i :: 0 <= i < |groups| ==> groups[i] != []
      modifies this
      ensures (elementMatchers, setMatchers, done) == CompileAll(groups, old(done))
    {
      elementMatchers, setMatchers := [], [];
      var i := |groups|;
      assert groups[..i] == groups;
      NothingBefore(CompileAll(groups, done));
      while i > 0
        invariant 0 <= i <= |groups|
        invariant var (ms, sets, last) := CompileAll(groups[..i], done);
                  (elementMatchers + ms, setMatchers + sets, last) == CompileAll(groups, old(done))
      {
        i := i - 1;
        LastFirst(groups, i, done, elementMatchers, setMatchers);
        var cached := MatcherFromTokens(groups[i]);
        if cached.Element? {
          elementMatchers := elementMatchers + [cached.matcher];
        } else {
          setMatchers := setMatchers + [cached];
        }
      }
      assert groups[..0] == [] && elementMatchers + [] == elementMatchers && setMatchers + [] == setMatchers;
    }
  }

  lemma PrefixNext(ps: seq<Piece>, i: nat, done: nat)
    requires i < |ps| && AllParts(ps[..i + 1]) && AllParts(ps[..i]) && (i == 0 ==> !IsRel(ps[i])) && ps[i].Part?
    ensures var (m, d) := S.Compile(Tokens(ps[..i]), done);
            S.Compile(Tokens(ps[..i + 1]), done) == S.Extend(m, ps[i].token, d)
  {
    S.CompileStep(Tokens(ps[..i]), ps[i].token, done);
    assert Tokens(ps[..i + 1]) == Tokens(ps[..i]) + [ps[i].token];
  }

  lemma NothingBefore(all: (seq<Matcher>, seq<Compiled>, nat))
    ensures ([] + all.0, [] + all.1, all.2) == all
  {
    assert [] + all.0 == all.0 && [] + all.1 == all.1;
  }

  lemma FoundNth(ps: seq<Piece>, i: nat)
    requires i <= |ps| && (forall k :: 0 <= k < i ==> ps[k].Part?) && (i < |ps| ==> ps[i].Nth?)
    ensures NextNth(ps, 0) == i
  {
    var r := NextNth(ps, 0);
    assert r < |ps| ==> ps[r].Nth?;
  }

  lemma LastFirst(groups: seq<seq<Piece>>, i: nat, done: nat, elements: seq<Matcher>, sets: seq<Compiled>)
    requires i < |groups|
    ensures var (c, d) := Compile(groups[i], done);
            var (ms, ss, last) := CompileAll(groups[..i + 1], done);
            var (ms', ss', last') := CompileAll(groups[..i], d);
            last == last' &&
            elements + ms == (if c.Element? then elements + [c.matcher] else elements) + ms' &&
            sets + ss == (if c.Element? then sets else sets + [c]) + ss'
  {
    assert groups[..i + 1][..i] == groups[..i];
  }

  // ----- names -----

  /** What a search asks of compiled matchers: own names, all from this range. */
  ghost predicate Fit(c: Compiled, low: nat, high: nat) {
    low <= high &&
    match c
    case Element(m) => Distinct(m) && forall d :: d in Names(InMatcher(m)) ==> low <= d < high
    case Set(s, _) => Separate(s) && forall d :: d in SetNames(s) ==> low <= d < high
  }

  /** Compiled matchers are fit to be searched with. */
  lemma {:induction false} CompiledFit(ps: seq<Piece>, done: nat)
    ensures Fit(Compile(ps, done).0, done, Compile(ps, done).1)
    decreases |ps|, 1
  {
    var i := NextNth(ps, 0);
    S.CompiledNames(Tokens(ps[..i]), done);
    if i < |ps| {
      var d := S.Compile(Tokens(ps[..i]), done).1;
      var j := NextRel(ps, i + 1);
      var (post, d') := CompileSome(ps, i + 1, j, d);
      SomeFit(ps, i + 1, j, d);
      SomeFit(ps, j, |ps|, d');
      var s := Compile(ps, done).0.setMatcher;
      assert forall x :: x in FilterNames(s.pre) ==> done <= x < d;
      assert forall x :: x in PostNames(s.post) ==> d <= x < d';
    }
  }

  lemma SomeFit(ps: seq<Piece>, i: nat, j: nat, done: nat)
    requires 0 < i <= j <= |ps|
    ensures var (c, d) := CompileSome(ps, i, j, done);
            done <= d && (c.Some? ==> Fit(c.value, done, d) && Separate(AsSetMatcher(c.value)) &&
                                      forall x :: x in SetNames(AsSetMatcher(c.value)) ==> done <= x < d)
    decreases |ps|, 0
  {
    if i < j {
      CompiledFit(ps[i..j], done);
    }
  }

  /** The matchers of a compiled group may be searched with: no two of them share a name. */
  lemma {:induction false} GroupFit(groups: seq<seq<Piece>>, done: nat)
    ensures var (ms, sets, last) := CompileAll(groups, done);
            done <= last && Compatible(ms) && SetsCompatible(ms, SetMatchers(sets)) &&
            (forall x :: x in ElementNames(ms) ==> done <= x < last) &&
            (forall k, x :: 0 <= k < |sets| && x in SetNames(SetMatchers(sets)[k]) ==> done <= x < last)
    decreases |groups|
  {
    if groups != [] {
      var n := |groups| - 1;
      var (c, d) := Compile(groups[n], done);
      CompiledFit(groups[n], done);
      GroupFit(groups[..n], d);
      var (ms, sets, last) := CompileAll(groups[..n], d);
      if c.Element? {
        ElementFits(c.matcher, ms, SetMatchers(sets), done, d, last);
      } else {
        SetFits(c.setMatcher, ms, SetMatchers(sets), done, d, last);
        assert SetMatchers([c] + sets) == [c.setMatcher] + SetMatchers(sets);
      }
    }
  }

  ghost predicate Within(ms: seq<Matcher>, sms: seq<SetMatcher>, low: nat, high: nat) {
    (forall x :: x in ElementNames(ms) ==> low <= x < high) &&
    (forall k, x :: 0 <= k < |sms| && x in SetNames(sms[k]) ==> low <= x < high)
  }

  lemma ElementFits(m: Matcher, ms: seq<Matcher>, sms: seq<SetMatcher>, done: nat, d: nat, last: nat)
    requires Distinct(m) && (forall x :: x in Names(InMatcher(m)) ==> done <= x < d) && done <= d <= last
    requires Compatible(ms) && SetsCompatible(ms, sms) && Within(ms, sms, d, last)
    ensures Compatible([m] + ms) && SetsCompatible([m] + ms, sms) && Within([m] + ms, sms, done, last)
  {
    var all := [m] + ms;
    forall x | x in ElementNames(all) ensures x in Names(InMatcher(m)) || x in ElementNames(ms) {
      var j :| 0 <= j < |all| && x in Names(InMatcher(all[j]));
      assert j > 0 ==> all[j] == ms[j - 1];
    }
    forall j, k | 0 <= j < |all| && 0 <= k < |all| && j != k
      ensures Names(InMatcher(all[j])) !! Names(InMatcher(all[k]))
    {
      assert j > 0 ==> all[j] == ms[j - 1] && Names(InMatcher(ms[j - 1])) <= ElementNames(ms);
      assert k > 0 ==> all[k] == ms[k - 1] && Names(InMatcher(ms[k - 1])) <= ElementNames(ms);
    }
  }

  lemma SetFits(s: SetMatcher, ms: seq<Matcher>, sms: seq<SetMatcher>, done: nat, d: nat, last: nat)
    requires Separate(s) && (forall x :: x in SetNames(s) ==> done <= x < d) && done <= d <= last
    requires SetsCompatible(ms, sms) && Within(ms, sms, d, last)
    ensures SetsCompatible(ms, [s] + sms) && Within(ms, [s] + sms, done, last)
  {
    var all := [s] + sms;
    forall j | 0 <= j < |all| ensures Separate(all[j]) && SetNames(all[j]) !! ElementNames(ms) {
      assert j > 0 ==> all[j] == sms[j - 1];
    }
    forall j, k | 0 <= j < |all| && 0 <= k < |all| && j != k ensures SetNames(all[j]) !! SetNames(all[k]) {
      assert j > 0 ==> all[j] == sms[j - 1];
      assert k > 0 ==> all[k] == sms[k - 1];
    }
  }

  // ----- meaning -----

  /** Tokens without a positional filter compile as in `Selectors`. */
  lemma NoPosition(ps: seq<Piece>, done: nat)
    requires AllParts(ps)
    ensures var (m, d) := S.Compile(Tokens(ps), done); Compile(ps, done) == (Element(m), d)
  {
    FoundNth(ps, |ps|);
    assert ps[..|ps|] == ps;
  }

  lemma CompiledKind(ps: seq<Piece>, done: nat)
    ensures Compile(ps, done).0.Element? <==> AllParts(ps)
  {
  }

  /** `at` is the numbers of the selectors with positional filters, the last first. */
  ghost predicate Positioned(groups: seq<seq<Piece>>, at: seq<nat>) {
    (forall j, k :: 0 <= j < k < |at| ==> at[j] > at[k]) &&
    (forall k :: 0 <= k < |at| ==> at[k] < |groups|) &&
    forall i :: 0 <= i < |groups| ==> (i in at <==> !AllParts(groups[i]))
  }

  ghost predicate MadeOf(c: Compiled, g: seq<Piece>) {
    exists start :: c == Compile(g, start).0
  }

  /** Each of these is compiled from the selector of that number. */
  ghost predicate FromSelectors(groups: seq<seq<Piece>>, sets: seq<Compiled>, at: seq<nat>) {
    |at| == |sets| && forall k :: 0 <= k < |at| ==> at[k] < |groups| && MadeOf(sets[k], groups[at[k]])
  }

  lemma OneMorePositioned(groups: seq<seq<Piece>>, at: seq<nat>)
    requires groups != [] && Positioned(groups[..|groups| - 1], at)
    ensures Positioned(groups, if AllParts(groups[|groups| - 1]) then at else [|groups| - 1] + at)
  {
    assert forall i :: 0 <= i < |groups| - 1 ==> groups[..|groups| - 1][i] == groups[i];
  }

  lemma OneMoreSelector(groups: seq<seq<Piece>>, c: Compiled, sets: seq<Compiled>, at: seq<nat>)
    requires groups != [] && FromSelectors(groups[..|groups| - 1], sets, at) && MadeOf(c, groups[|groups| - 1])
    ensures FromSelectors(groups, sets, at) && FromSelectors(groups, [c] + sets, [|groups| - 1] + at)
  {
    forall k | 0 <= k < |at| ensures at[k] < |groups| && MadeOf(sets[k], groups[at[k]]) {
      assert groups[..|groups| - 1][at[k]] == groups[at[k]];
    }
  }

  /** The set matchers of a compiled group are those of its selectors with positional filters, the last selector
      first. */
  lemma {:induction false} GroupSets(groups: seq<seq<Piece>>, done: nat) returns (at: seq<nat>)
    ensures Positioned(groups, at) && FromSelectors(groups, CompileAll(groups, done).1, at)
    decreases |groups|
  {
    at := [];
    if groups != [] {
      var n := |groups| - 1;
      var (c, d) := Compile(groups[n], done);
      var sets := CompileAll(groups[..n], d).1;
      at := GroupSets(groups[..n], d);
      OneMorePositioned(groups, at);
      OneMoreSelector(groups, c, sets, at);
      LastSet(groups, done);
      if !AllParts(groups[n]) {
        at := [n] + at;
      }
    }
  }

  lemma LastSet(groups: seq<seq<Piece>>, done: nat)
    requires groups != []
    ensures var (c, d) := Compile(groups[|groups| - 1], done);
            var sets := CompileAll(groups[..|groups| - 1], d).1;
            CompileAll(groups, done).1 == if AllParts(groups[|groups| - 1]) then sets else [c] + sets
  {
    CompiledKind(groups[|groups| - 1], done);
  }

  /** Some selector of a group, without positional filters, selects. */
  ghost predicate SomeSelects(e: Env, groups: seq<seq<Piece>>, p: Path) {
    exists g :: g in groups && AllParts(g) && S.Selects(e, S.Parse(Tokens(g)), p)
  }

  /** The element matchers of a compiled group accept a node exactly when one of its selectors without positional
      filters selects it. */
  lemma {:induction false} GroupMeaning(e: Env, groups: seq<seq<Piece>>, done: nat, p: Path)
    requires WellShaped(e.tree) && InTree(e.tree, p)
    ensures Accepts(e, CompileAll(groups, done).0, p) <==> SomeSelects(e, groups, p)
    decreases |groups|
  {
    if groups != [] {
      var n := |groups| - 1;
      GroupMeaning(e, groups[..n], Compile(groups[n], done).1, p);
      LastMeaning(e, groups, done, p);
      SelectedSplit(e, groups, p);
    }
  }

  lemma LastMeaning(e: Env, groups: seq<seq<Piece>>, done: nat, p: Path)
    requires WellShaped(e.tree) && InTree(e.tree, p) && groups != []
    ensures var g, front := groups[|groups| - 1], groups[..|groups| - 1];
            Accepts(e, CompileAll(groups, done).0, p) <==>
            (AllParts(g) && S.Selects(e, S.Parse(Tokens(g)), p)) ||
                Accepts(e, CompileAll(front, Compile(g, done).1).0, p)
  {
    var g, front := groups[|groups| - 1], groups[..|groups| - 1];
    if AllParts(g) {
      var m := S.Compile(Tokens(g), done).0;
      NoPosition(g, done);
      S.ParseSpells(Tokens(g));
      S.CompiledMeaning(e, S.Parse(Tokens(g)), done, p);
      AcceptsFirst(e, m, CompileAll(front, Compile(g, done).1).0, p);
    }
  }

  lemma SelectedSplit(e: Env, groups: seq<seq<Piece>>, p: Path)
    requires groups != []
    ensures var g := groups[|groups| - 1];
            SomeSelects(e, groups, p) <==>
            (AllParts(g) && S.Selects(e, S.Parse(Tokens(g)), p)) || SomeSelects(e, groups[..|groups| - 1], p)
  {
    assert groups == groups[..|groups| - 1] + [groups[|groups| - 1]];
  }

  lemma AcceptsFirst(e: Env, m: Matcher, rest: seq<Matcher>, p: Path)
    ensures Accepts(e, [m] + rest, p) <==> Holds(e, m, p) || Accepts(e, rest, p)
  {
    var ms := [m] + rest;
    if j :| 0 <= j < |rest| && Holds(e, rest[j], p) {
      assert ms[j + 1] == rest[j];
    }
    if Holds(e, m, p) {
      assert ms[0] == m;
    }
    if j :| 0 <= j < |ms| && Holds(e, ms[j], p) {
      assert j > 0 ==> ms[j] == rest[j - 1];
    }
  }

  lemma {:induction false} NoSets(groups: seq<seq<Piece>>, done: nat)
    requires forall g :: g in groups ==> AllParts(g)
    ensures CompileAll(groups, done).1 == []
    decreases |groups|
  {
    if groups != [] {
      var n := |groups| - 1;
      NoPosition(groups[n], done);
      NoSets(groups[..n], Compile(groups[n], done).1);
    }
  }

  /** A search with a compiled group without positional filters hits exactly the elements that some selector of the
      group selects. */
  lemma SearchMeaning(e: Env, groups: seq<seq<Piece>>, done: nat, seed: seq<Option<Elem>>, i: nat)
    requires i < |seed| && seed[i].Some? && InTree(e.tree, seed[i].value) && WellShaped(e.tree)
    requires forall g :: g in groups ==> AllParts(g)
    ensures var (ms, sets, _) := CompileAll(groups, done);
            Hits(e, ms, SetMatchers(sets), seed)[i] <==> SomeSelects(e, groups, seed[i].value)
  {
    NoSets(groups, done);
    GroupMeaning(e, groups, done, seed[i].value);
  }

  // ----- what stands around a positional filter -----

  /** The parts of a token list with a positional filter: `mid` is the rest of its compound and `rest` begins with the
      next combinator.  Each part is compiled whole, one after the other. */
  lemma PositionParts(tokens: seq<Piece>, p: Position, mid: seq<Piece>, rest: seq<Piece>, done: nat)
    requires AllParts(tokens) && (forall k :: 0 <= k < |mid| ==> !IsRel(mid[k])) && (rest == [] || IsRel(rest[0]))
    ensures var (f, d) := S.Compile(Tokens(tokens), done);
            var d' := if mid == [] then d else Compile(mid, d).1;
            Compile(tokens + [Nth(p)] + mid + rest, done).0 ==
            Set(Positional(if tokens == [] then None else Some(f), p,
                           if mid == [] then None else Some(AsSetMatcher(Compile(mid, d).0))),
                if rest == [] then None else Some(Compile(rest, d').0))
  {
    var i, j, ps := |tokens|, |tokens| + 1 + |mid|, tokens + [Nth(p)] + mid + rest;
    FoundNth(ps, i);
    FoundRel(ps, i + 1, j);
    assert ps[..i] == tokens && ps[i + 1..j] == mid && ps[j..] == rest && ps[j..|ps|] == rest;
  }

  lemma FoundRel(ps: seq<Piece>, i: nat, j: nat)
    requires i <= j <= |ps| && (forall k :: i <= k < j ==> !IsRel(ps[k])) && (j < |ps| ==> IsRel(ps[j]))
    ensures NextRel(ps, i) == j
  {
    var r := NextRel(ps, i);
    assert r < |ps| ==> IsRel(ps[r]);
  }

  function Testing(tests: seq<Test>): (r: seq<Piece>)
    ensures |r| == |tests| && forall k :: 0 <= k < |r| ==> r[k] == Part(S.Filter(tests[k]))
  {
    seq(|tests|, k requires 0 <= k < |tests| => Part(S.Filter(tests[k])))
  }

  /** The tests behind a positional filter accept what passes every one of them; and they check the context. */
  lemma TestsMeaning(e: Env, tests: seq<Test>, done: nat, p: Path)
    requires WellShaped(e.tree) && InTree(e.tree, p)
    ensures Holds(e, S.Compile(Tokens(Testing(tests)), done).0, p) <==>
            S.Anchored(e, None, p) && forall t :: t in tests ==> e.passes(t, p)
  {
    var s := S.Selector(None, [tests], []);
    assert S.Spell(s) == Tokens(Testing(tests));
    S.CompiledMeaning(e, s, done, p);
    if S.Anchored(e, None, p) && forall t :: t in tests ==> e.passes(t, p) {
      assert S.IsChain(e, s, [p]);
    }
  }

  /** A selector with a positional filter, tests behind it and perhaps more behind a combinator.  Where no two elements
      clash, its set matcher moves exactly the elements that the selector before the filter selects, that stand at the
      position among those, and that pass every one of the tests; what is behind the combinator is left to a
      finder made of all of it. */
  lemma PositionMeaning(e: Env, tokens: seq<Piece>, p: Position, tests: seq<Test>, rest: seq<Piece>, done: nat,
                        xs: seq<Option<Elem>>, i: nat)
    requires tokens != [] && AllParts(tokens) && (rest == [] || IsRel(rest[0])) && i < |xs|
    requires WellShaped(e.tree) && forall k :: 0 <= k < |xs| && xs[k].Some? ==> InTree(e.tree, xs[k].value)
    requires var (f, d) := S.Compile(Tokens(tokens), done);
             NoClash(e, f, xs) && NoClash(e, S.Compile(Tokens(Testing(tests)), d).0, xs)
    ensures var f := S.Compile(Tokens(tokens), done).0;
            var c := Compile(tokens + [Nth(p)] + Testing(tests) + rest, done).0;
            c.Set? && (rest == [] ==> c.finder.None?) &&
            (rest != [] ==> exists n :: c.finder == Some(Compile(rest, n).0)) &&
            Moved(e, c.setMatcher, xs)[i] ==
            if StandsAt(e, f, p, xs, i) && Passed(e, tests, xs[i].value) then xs[i] else None
    ensures var f := S.Compile(Tokens(tokens), done).0;
            forall k :: 0 <= k < |xs| ==>
              (Rightly(e, f, xs[k]) <==> xs[k].Some? && S.Selects(e, S.Parse(Tokens(tokens)), xs[k].value))
  {
    var (f, d) := S.Compile(Tokens(tokens), done);
    var g := S.Compile(Tokens(Testing(tests)), d).0;
    PositionParts(tokens, p, Testing(tests), rest, done);
    NoPosition(Testing(tests), d);
    S.CompiledNames(Tokens(tokens), done);
    S.CompiledNames(Tokens(Testing(tests)), d);
    FrontMeaning(e, tokens, done, xs);
    if tests == [] {
      KeepsRight(e, f, xs);
      PickedAt(e, f, p, xs, i);
    } else {
      MovedExactly(e, f, p, g, xs, i);
      if xs[i].Some? {
        TestsMeaning(e, tests, d, xs[i].value);
      }
    }
  }

  /** Passes every test; tests are asked together with the check of the context. */
  ghost predicate Passed(e: Env, tests: seq<Test>, p: Path) {
    (forall t :: t in tests ==> e.passes(t, p)) && (tests != [] ==> S.Anchored(e, None, p))
  }

  lemma FrontMeaning(e: Env, tokens: seq<Piece>, done: nat, xs: seq<Option<Elem>>)
    requires AllParts(tokens)
    requires WellShaped(e.tree) && forall k :: 0 <= k < |xs| && xs[k].Some? ==> InTree(e.tree, xs[k].value)
    ensures forall k :: 0 <= k < |xs| ==>
              (Rightly(e, S.Compile(Tokens(tokens), done).0, xs[k]) <==>
               xs[k].Some? && S.Selects(e, S.Parse(Tokens(tokens)), xs[k].value))
  {
    S.ParseSpells(Tokens(tokens));
    forall k | 0 <= k < |xs| && xs[k].Some?
      ensures Holds(e, S.Compile(Tokens(tokens), done).0, xs[k].value) <==>
              S.Selects(e, S.Parse(Tokens(tokens)), xs[k].value)
    {
      S.CompiledMeaning(e, S.Parse(Tokens(tokens)), done, xs[k].value);
    }
  }

  /** What a selector selects is below the context, if it does not begin with `+` or `~`; so the tests behind a
      positional filter decide alone. */
  lemma {:induction false} SelectedBelow(e: Env, s: S.Selector, p: Path)
    requires |s.compounds| == |s.rels| + 1 && S.Selects(e, s, p)
    requires s.leading.None? || s.leading.value.Child? || s.leading.value.Descendant?
    ensures S.Anchored(e, None, p)
  {
    var chain :| S.IsChain(e, s, chain) && chain[|chain| - 1] == p;
    if !e.xml && e.contextIsOutermost {
      var c :| S.IsContext(e, c) &&
               S.RelatedBy(if s.leading.Some? then s.leading.value else Descendant, e.tree, c, chain[0]);
      ChainBelow(e, s, chain, c, |s.rels|);
    } else {
      assert S.Anchored(e, None, p);
    }
  }

  lemma {:induction false} ChainBelow(e: Env, s: S.Selector, chain: seq<Path>, c: Path, n: nat)
    requires |s.compounds| == |s.rels| + 1 && S.IsChain(e, s, chain) && n <= |s.rels| && c < chain[0]
    ensures c < chain[n]
    decreases n
  {
    if n > 0 {
      ChainBelow(e, s, chain, c, n - 1);
      assert S.RelatedBy(s.rels[n - 1], e.tree, chain[n - 1], chain[n]);
      if s.rels[n - 1].Adjacent? || s.rels[n - 1].Sibling? {
        assert c <= chain[n][..|chain[n]| - 1];
      }
    }
  }
}
