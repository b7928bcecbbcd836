/**
 `matcherFromTokens` and what it means: section 8 of Selectors Level 3.  A selector is a chain
 of compound selectors joined by combinators; an element is matched when some chain of nodes
 that ends in it satisfies every compound and every combinator.
 */
module Selectors {
  import opened Dom
  import opened Combinators

  datatype Token = Rel(rel: Relative) | Filter(test: Test)

  // ----- the compiler -----

  function ContextMatcher(leading: Option<Relative>, done: nat): Matcher {
    var implicit := if leading.Some? then leading.value else Descendant;
    Matcher(ContextCheck(leading.Some?,
                         Combinator(implicit, true, done, TheContext),
                         Combinator(implicit, true, done + 1, AnyContext)), [])
  }

  function Extend(m: Matcher, token: Token, done: nat): (Matcher, nat) {
    match token
    case Rel(r) => (Matcher(Related(Combinator(r, false, done, Compound(m))), []), done + 1)
    case Filter(t) => (Matcher(m.head, m.tests + [t]), done)
  }

  /** The matcher for a list of tokens without positional filters, and the name counter after it. */
  function Compile(tokens: seq<Token>, done: nat): (Matcher, nat) {
    if tokens == [] then (ContextMatcher(None, done), done + 2)
    else if |tokens| == 1 && tokens[0].Rel? then (ContextMatcher(Some(tokens[0].rel), done), done + 2)
    else
      var (m, d) := Compile(tokens[..|tokens| - 1], done);
      Extend(m, tokens[|tokens| - 1], d)
  }

  /** Compiled matchers meet the precondition of the stamped walk, and compilations that follow
      each other share no name. */
  lemma {:induction false} CompiledNames(tokens: seq<Token>, done: nat)
    ensures Distinct(Compile(tokens, done).0)
    ensures done <= Compile(tokens, done).1
    ensures forall d :: d in Names(InMatcher(Compile(tokens, done).0)) ==> done <= d < Compile(tokens, done).1
    decreases |tokens|
  {
    if tokens == [] || (|tokens| == 1 && tokens[0].Rel?) {
      var m := Compile(tokens, done).0;
      assert InCombinator(m.head.matchContext) == {m.head.matchContext};
      assert InCombinator(m.head.matchAnyContext) == {m.head.matchAnyContext};
    } else {
      var n := |tokens| - 1;
      CompiledNames(tokens[..n], done);
      var (m, d) := Compile(tokens[..n], done);
      var c := Extend(m, tokens[n], d).0;
      assert Compile(tokens, done) == Extend(m, tokens[n], d);
      if tokens[n].Rel? {
        var k := c.head.combinator;
        assert Inner(k.target) == InMatcher(m);
        assert InMatcher(c) == InCombinator(k) == {k} + InMatcher(m);
        assert forall x :: x in Names(InMatcher(c)) ==> x == k.doneName || x in Names(InMatcher(m));
      } else {
        assert InMatcher(c) == InMatcher(m);
      }
    }
  }

  // ----- selectors -----

  /** `leading` is a combinator in front of the first compound, as in `> a`. */
  datatype Selector = Selector(leading: Option<Relative>, compounds: seq<seq<Test>>, rels: seq<Relative>)

  predicate Proper(s: Selector) {
    |s.compounds| == |s.rels| + 1 && (s.leading.None? && s.rels != [] ==> s.compounds[0] != [])
  }

  function Filters(tests: seq<Test>): (r: seq<Token>)
    ensures |r| == |tests| && forall i :: 0 <= i < |r| ==> r[i] == Filter(tests[i])
  {
    seq(|tests|, i requires 0 <= i < |tests| => Filter(tests[i]))
  }

  /** The tokens of a selector. */
  function Spell(s: Selector): seq<Token>
    requires |s.compounds| == |s.rels| + 1
    decreases |s.rels|
  {
    var n := |s.rels|;
    if n == 0 then (if s.leading.Some? then [Rel(s.leading.value)] else []) + Filters(s.compounds[0])
    else Spell(Selector(s.leading, s.compounds[..n], s.rels[..n - 1])) + [Rel(s.rels[n - 1])] + Filters(s.compounds[n])
  }

  /** Reads tokens as a selector. */
  function Parse(tokens: seq<Token>): (s: Selector)
    ensures Proper(s)
    ensures tokens != [] ==> s.leading.Some? || s.compounds[0] != []
  {
    if tokens == [] then Selector(None, [[]], [])
    else if |tokens| == 1 && tokens[0].Rel? then Selector(Some(tokens[0].rel), [[]], [])
    else
      var s, n := Parse(tokens[..|tokens| - 1]), |tokens| - 1;
      match tokens[n]
      case Rel(r) => WithRel(s, r)
      case Filter(t) => WithTest(s, t)
  }

  /** Every token list is the spelling of the selector it is read as. */
  lemma {:induction false} ParseSpells(tokens: seq<Token>)
    ensures Spell(Parse(tokens)) == tokens
    decreases |tokens|
  {
    if |tokens| > 1 || (|tokens| == 1 && tokens[0].Filter?) {
      var n := |tokens| - 1;
      ParseSpells(tokens[..n]);
      var s, r := Parse(tokens[..n]), Parse(tokens);
      assert tokens == tokens[..n] + [tokens[n]];
      match tokens[n]
      case Rel(rel) =>
        SpellRel(s, rel);
        assert r == WithRel(s, rel);
      case Filter(t) =>
        SpellFilter(s, t);
        assert r == WithTest(s, t);
    }
  }

  function WithTest(s: Selector, t: Test): Selector
    requires |s.compounds| == |s.rels| + 1
  {
    s.(compounds := s.compounds[|s.rels| := s.compounds[|s.rels|] + [t]])
  }

  function WithRel(s: Selector, r: Relative): Selector {
    Selector(s.leading, s.compounds + [[]], s.rels + [r])
  }

  lemma SpellRel(s: Selector, r: Relative)
    requires |s.compounds| == |s.rels| + 1
    ensures Spell(WithRel(s, r)) == Spell(s) + [Rel(r)]
  {
    var u := WithRel(s, r);
    assert u.compounds[..|u.rels|] == s.compounds && u.rels[..|u.rels| - 1] == s.rels;
    assert Selector(s.leading, u.compounds[..|u.rels|], u.rels[..|u.rels| - 1]) == s;
    assert Filters([]) == [];
  }

  lemma SpellFilter(s: Selector, t: Test)
    requires |s.compounds| == |s.rels| + 1
    ensures Spell(WithTest(s, t)) == Spell(s) + [Filter(t)]
  {
    var n := |s.rels|;
    assert Filters(s.compounds[n] + [t]) == Filters(s.compounds[n]) + [Filter(t)];
    if n > 0 {
      assert WithTest(s, t).compounds[..n] == s.compounds[..n];
    }
  }

  // ----- meaning -----

  predicate EarlierSibling(a: Path, b: Path) {
    a != [] && |a| == |b| && a[..|a| - 1] == b[..|b| - 1] && a[|a| - 1] < b[|b| - 1]
  }

  /** `b` is a child of `a`, a descendant of it, directly after it, or somewhere after it. */
  ghost predicate RelatedBy(r: Relative, t: Tree, a: Path, b: Path) {
    match r
    case Child => b != [] && a == b[..|b| - 1]
    case Descendant => a < b
    case Sibling => EarlierSibling(a, b) && IsElement(t, a)
    case Adjacent => EarlierSibling(a, b) && IsElement(t, a) &&
                     forall m :: EarlierSibling(a, m) && EarlierSibling(m, b) ==> !IsElement(t, m)
  }

  predicate IsContext(e: Env, c: Path) {
    if e.context.One? then c == e.context.node else c in e.context.nodes
  }

  /** The first node of a chain is tied to the search context, when the context is checked. */
  ghost predicate Anchored(e: Env, leading: Option<Relative>, n: Path) {
    (leading.None? && (e.xml || !e.contextIsOutermost)) ||
    exists c :: IsContext(e, c) && RelatedBy(if leading.Some? then leading.value else Descendant, e.tree, c, n)
  }

  ghost predicate IsChain(e: Env, s: Selector, chain: seq<Path>)
    requires |s.compounds| == |s.rels| + 1
  {
    |chain| == |s.compounds| &&
    Anchored(e, s.leading, chain[0]) &&
    (forall i :: 0 <= i < |chain| ==> PassesAll(e, s.compounds[i], chain[i])) &&
    (forall i :: 0 <= i < |s.rels| ==>
       IsElement(e.tree, chain[i]) && RelatedBy(s.rels[i], e.tree, chain[i], chain[i + 1]))
  }

  ghost predicate Selects(e: Env, s: Selector, p: Path)
    requires |s.compounds| == |s.rels| + 1
  {
    exists chain :: IsChain(e, s, chain) && chain[|chain| - 1] == p
  }

  // ----- what a walk reaches -----

  ghost predicate Found(e: Env, c: Combinator, p: Path) {
    exists a :: RelatedBy(c.rel, e.tree, a, p) && (c.base || IsElement(e.tree, a)) && Satisfies(e, c.target, a)
  }

  lemma SiblingStep(p: Path, a: Path)
    requires PreviousSibling(p).Some?
    ensures EarlierSibling(a, p) <==> a == PreviousSibling(p).value || EarlierSibling(a, PreviousSibling(p).value)
  {
    var q := PreviousSibling(p).value;
    assert q[..|q| - 1] == p[..|p| - 1];
    if EarlierSibling(a, p) && a != q {
      assert a == a[..|a| - 1] + [a[|a| - 1]];
      assert q == q[..|q| - 1] + [q[|q| - 1]];
    }
  }

  /** The walk of a combinator finds exactly the nodes its relation names. */
  lemma {:induction false} ReachesFound(e: Env, c: Combinator, p: Path)
    requires WellShaped(e.tree) && InTree(e.tree, p)
    ensures Reaches(e, c, p) <==> Found(e, c, p)
    decreases Rank(p)
  {
    var next := Follow(p, DirOf(c.rel));
    if next.Some? {
      var q := next.value;
      FollowInTree(e.tree, p, DirOf(c.rel));
      ReachesFound(e, c, q);
      if DirOf(c.rel) == PreviousDir {
        forall a ensures EarlierSibling(a, p) <==> a == q || EarlierSibling(a, q) {
          SiblingStep(p, a);
        }
        if c.rel.Adjacent? {
          AdjacentStep(e, p);
        }
      } else if c.rel.Descendant? {
        forall a ensures RelatedBy(Descendant, e.tree, a, p) <==> a == q || RelatedBy(Descendant, e.tree, a, q) {
          assert a < p ==> a == p[..|a|];
          assert a < q ==> a == q[..|a|] == p[..|a|];
        }
      } else if q != [] {
        AncestorsAreElements(e.tree, p, |p| - 1);
      }
    } else if DirOf(c.rel) == PreviousDir {
      assert forall a :: !EarlierSibling(a, p);
    }
  }

  lemma FollowInTree(t: Tree, p: Path, d: Dir)
    requires InTree(t, p) && Follow(p, d).Some?
    ensures InTree(t, Follow(p, d).value)
  {
    var q := Follow(p, d).value;
    ParentInTree(t, p);
    if d == PreviousDir {
      ParentInTree(t, q);
      assert q[..|q| - 1] == p[..|p| - 1];
    }
  }

  /** The nearest preceding element: the node before if that is an element, else the nearest one
      before it. */
  lemma AdjacentStep(e: Env, p: Path)
    requires PreviousSibling(p).Some?
    ensures var q := PreviousSibling(p).value;
            forall a :: RelatedBy(Adjacent, e.tree, a, p) <==>
                        if IsElement(e.tree, q) then a == q else RelatedBy(Adjacent, e.tree, a, q)
  {
    var q := PreviousSibling(p).value;
    forall a ensures EarlierSibling(a, p) <==> a == q || EarlierSibling(a, q) {
      SiblingStep(p, a);
    }
  }

  // ----- chains -----

  lemma SelectsWithTest(e: Env, s: Selector, t: Test, p: Path)
    requires |s.compounds| == |s.rels| + 1
    ensures Selects(e, WithTest(s, t), p) <==> e.passes(t, p) && Selects(e, s, p)
  {
    var u, n := WithTest(s, t), |s.rels|;
    forall chain: seq<Path> | |chain| == n + 1 && chain[n] == p
      ensures IsChain(e, u, chain) <==> e.passes(t, p) && IsChain(e, s, chain)
    {
      assert PassesAll(e, u.compounds[n], p) <==> e.passes(t, p) && PassesAll(e, s.compounds[n], p) by {
        assert u.compounds[n] == s.compounds[n] + [t];
      }
      assert forall i :: 0 <= i < n ==> u.compounds[i] == s.compounds[i];
    }
  }

  lemma ExtendChain(e: Env, s: Selector, r: Relative, chain: seq<Path>, p: Path)
    requires |s.compounds| == |s.rels| + 1 == |chain|
    ensures IsChain(e, WithRel(s, r), chain + [p]) <==>
            IsChain(e, s, chain) && IsElement(e.tree, chain[|s.rels|]) && RelatedBy(r, e.tree, chain[|s.rels|], p)
  {
    var u, n, longer := WithRel(s, r), |s.rels|, chain + [p];
    assert forall i :: 0 <= i <= n ==> u.compounds[i] == s.compounds[i] && longer[i] == chain[i];
    assert forall i :: 0 <= i < n ==> u.rels[i] == s.rels[i];
    assert u.compounds[n + 1] == [] && u.rels[n] == r && longer[n + 1] == p;
    if IsChain(e, u, longer) {
      forall i | 0 <= i < n
        ensures IsElement(e.tree, chain[i]) && RelatedBy(s.rels[i], e.tree, chain[i], chain[i + 1])
      {
        assert IsElement(e.tree, longer[i]) && RelatedBy(u.rels[i], e.tree, longer[i], longer[i + 1]);
      }
      assert IsElement(e.tree, longer[n]) && RelatedBy(u.rels[n], e.tree, longer[n], longer[n + 1]);
    }
  }

  lemma SelectsWithRel(e: Env, s: Selector, r: Relative, p: Path)
    requires |s.compounds| == |s.rels| + 1
    ensures Selects(e, WithRel(s, r), p) <==>
            exists a :: RelatedBy(r, e.tree, a, p) && IsElement(e.tree, a) && Selects(e, s, a)
  {
    if Selects(e, WithRel(s, r), p) {
      var a := LastLink(e, s, r, p);
    }
    if a :| RelatedBy(r, e.tree, a, p) && IsElement(e.tree, a) && Selects(e, s, a) {
      AddLink(e, s, r, a, p);
    }
  }

  lemma LastLink(e: Env, s: Selector, r: Relative, p: Path) returns (a: Path)
    requires |s.compounds| == |s.rels| + 1 && Selects(e, WithRel(s, r), p)
    ensures RelatedBy(r, e.tree, a, p) && IsElement(e.tree, a) && Selects(e, s, a)
  {
    var longer :| IsChain(e, WithRel(s, r), longer) && longer[|longer| - 1] == p;
    var chain := longer[..|s.rels| + 1];
    assert longer == chain + [p];
    ExtendChain(e, s, r, chain, p);
    a := chain[|s.rels|];
  }

  lemma AddLink(e: Env, s: Selector, r: Relative, a: Path, p: Path)
    requires |s.compounds| == |s.rels| + 1
    requires RelatedBy(r, e.tree, a, p) && IsElement(e.tree, a) && Selects(e, s, a)
    ensures Selects(e, WithRel(s, r), p)
  {
    var chain :| IsChain(e, s, chain) && chain[|chain| - 1] == a;
    ExtendChain(e, s, r, chain, p);
    var longer := chain + [p];
    assert IsChain(e, WithRel(s, r), longer) && longer[|longer| - 1] == p;
  }

  lemma SelectsAlone(e: Env, leading: Option<Relative>, p: Path)
    ensures Selects(e, Selector(leading, [[]], []), p) <==> Anchored(e, leading, p)
  {
    var s := Selector(leading, [[]], []);
    assert PassesAll(e, [], p);
    if Anchored(e, leading, p) {
      assert IsChain(e, s, [p]);
    }
  }

  lemma ContextMeaning(e: Env, leading: Option<Relative>, done: nat, p: Path)
    requires WellShaped(e.tree) && InTree(e.tree, p)
    ensures Holds(e, ContextMatcher(leading, done), p) <==> Anchored(e, leading, p)
  {
    var h := ContextMatcher(leading, done).head;
    ReachesFound(e, h.matchContext, p);
    ReachesFound(e, h.matchAnyContext, p);
    var r := if leading.Some? then leading.value else Descendant;
    if e.context.One? {
      assert forall c :: IsContext(e, c) <==> Satisfies(e, TheContext, c);
    } else {
      assert forall c :: IsContext(e, c) <==> Satisfies(e, AnyContext, c);
    }
  }

  /** The compiled matcher accepts a node exactly when the selector selects it. */
  lemma {:induction false} CompiledMeaning(e: Env, s: Selector, done: nat, p: Path)
    requires WellShaped(e.tree) && InTree(e.tree, p) && Proper(s)
    ensures Holds(e, Compile(Spell(s), done).0, p) <==> Selects(e, s, p)
    decreases |s.rels|, |s.compounds[|s.rels|]|
  {
    var n := |s.rels|;
    if s.compounds[n] != [] {
      var u, t := WithoutTest(s);
      CompiledMeaning(e, u, done, p);
      TestMeaning(e, u, t, done, p);
    } else if n > 0 {
      var u := WithoutRel(s);
      forall a | IsElement(e.tree, a)
        ensures Holds(e, Compile(Spell(u), done).0, a) <==> Selects(e, u, a)
      {
        CompiledMeaning(e, u, done, a);
      }
      RelMeaning(e, u, s.rels[n - 1], done, p);
    } else {
      assert s == Selector(s.leading, [[]], []);
      assert Spell(s) == if s.leading.Some? then [Rel(s.leading.value)] else [];
      SelectsAlone(e, s.leading, p);
      ContextMeaning(e, s.leading, done, p);
    }
  }

  /** The selector before its last test, or its last combinator. */
  lemma WithoutTest(s: Selector) returns (u: Selector, t: Test)
    requires Proper(s) && s.compounds[|s.rels|] != []
    ensures Proper(u) && s == WithTest(u, t) && u.rels == s.rels
    ensures |u.compounds[|u.rels|]| < |s.compounds[|s.rels|]|
  {
    var n := |s.rels|;
    var last := s.compounds[n];
    var k := |last| - 1;
    t := last[k];
    u := s.(compounds := s.compounds[n := last[..k]]);
    assert last == last[..k] + [t];
    assert s == WithTest(u, t);
  }

  lemma WithoutRel(s: Selector) returns (u: Selector)
    requires Proper(s) && |s.rels| > 0 && s.compounds[|s.rels|] == []
    ensures Proper(u) && s == WithRel(u, s.rels[|s.rels| - 1]) && |u.rels| < |s.rels| && Spell(u) != []
  {
    var n := |s.rels|;
    u := Selector(s.leading, s.compounds[..n], s.rels[..n - 1]);
  }

  lemma TestMeaning(e: Env, u: Selector, t: Test, done: nat, p: Path)
    requires |u.compounds| == |u.rels| + 1
    requires Holds(e, Compile(Spell(u), done).0, p) <==> Selects(e, u, p)
    ensures Holds(e, Compile(Spell(WithTest(u, t)), done).0, p) <==> Selects(e, WithTest(u, t), p)
  {
    SpellFilter(u, t);
    SelectsWithTest(e, u, t, p);
    CompileStep(Spell(u), Filter(t), done);
    HoldsWithTest(e, Compile(Spell(u), done).0, t, p);
  }

  lemma RelMeaning(e: Env, u: Selector, r: Relative, done: nat, p: Path)
    requires WellShaped(e.tree) && InTree(e.tree, p) && |u.compounds| == |u.rels| + 1 && Spell(u) != []
    requires forall a :: IsElement(e.tree, a) ==> (Holds(e, Compile(Spell(u), done).0, a) <==> Selects(e, u, a))
    ensures Holds(e, Compile(Spell(WithRel(u, r)), done).0, p) <==> Selects(e, WithRel(u, r), p)
  {
    SpellRel(u, r);
    CompileStep(Spell(u), Rel(r), done);
    var (m, d) := Compile(Spell(u), done);
    CombinatorMeaning(e, u, m, r, d, p);
  }

  lemma CombinatorMeaning(e: Env, s: Selector, m: Matcher, r: Relative, name: nat, p: Path)
    requires WellShaped(e.tree) && InTree(e.tree, p) && |s.compounds| == |s.rels| + 1
    requires forall a :: IsElement(e.tree, a) ==> (Holds(e, m, a) <==> Selects(e, s, a))
    ensures Holds(e, Extend(m, Rel(r), name).0, p) <==> Selects(e, WithRel(s, r), p)
  {
    var c := Combinator(r, false, name, Compound(m));
    ReachesFound(e, c, p);
    assert forall a :: Satisfies(e, c.target, a) <==> Holds(e, m, a);
    SelectsWithRel(e, s, r, p);
    assert PassesAll(e, [], p);
  }

  lemma CompileStep(tokens: seq<Token>, token: Token, done: nat)
    requires tokens == [] ==> token.Filter?
    ensures var (m, d) := Compile(tokens, done); Compile(tokens + [token], done) == Extend(m, token, d)
  {
    assert (tokens + [token])[..|tokens|] == tokens;
  }

  lemma HoldsWithTest(e: Env, m: Matcher, t: Test, p: Path)
    ensures Holds(e, Matcher(m.head, m.tests + [t]), p) <==> e.passes(t, p) && Holds(e, m, p)
  {
    assert forall x :: x in m.tests + [t] <==> x in m.tests || x == t;
  }
}
