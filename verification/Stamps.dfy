/**
 What the stamps are good for: what a call writes, what it depends on, what true marks are, and that a matcher
 is never wrong when it accepts.
 */
module Stamps {
  import opened Dom
  import opened Combinators

  function Look(w: Marks, n: Path): Option<Mark> {
    if n in w then Some(w[n]) else None
  }

  // ----- what a call writes -----

  /** Only marks of this candidate with these names, only on nodes before the one of this rank. */
  ghost predicate Wrote(names: set<nat>, k: nat, rank: nat, w: Marks, v: Marks) {
    forall n :: Look(v, n) == Look(w, n) ||
                (Rank(n) < rank && n in v && v[n].candidate == k && v[n].name in names)
  }

  lemma {:induction false} MatchWrote(e: Env, k: nat, m: Matcher, p: Path, w: Marks)
    ensures Wrote(if e.xml then {} else Names(InMatcher(m)), k, Rank(p), w, MatchIn(e, k, m, p, w).1)
    decreases m
  {
    match m.head
    case ContextCheck(_, own, any) =>
      WalkWrote(e, k, own, p, w);
      WalkWrote(e, k, any, p, w);
    case Related(c) => WalkWrote(e, k, c, p, w);
  }

  lemma {:induction false} TryWrote(e: Env, k: nat, t: Target, p: Path, w: Marks)
    ensures Wrote(if e.xml then {} else Names(Inner(t)), k, Rank(p), w, TryIn(e, k, t, p, w).1)
    decreases t
  {
    if t.Compound? {
      MatchWrote(e, k, t.matcher, p, w);
    }
  }

  lemma AskWrote(e: Env, k: nat, c: Combinator, q: Path, w: Marks)
    ensures Wrote(if e.xml then {} else Names(InCombinator(c)), k, Rank(q) + 1, w, AskIn(e, k, c, q, w).1)
    decreases c, 0
  {
    TryWrote(e, k, c.target, q, w);
    InnerNames(c);
  }

  lemma {:induction false} WalkWrote(e: Env, k: nat, c: Combinator, p: Path, w: Marks)
    ensures Wrote(if e.xml then {} else Names(InCombinator(c)), k, Rank(p), w, WalkIn(e, k, c, p, w).1)
    decreases c, Rank(p)
  {
    var q := Follow(p, DirOf(c.rel));
    if q.Some? {
      if Eligible(e, c, q.value) && First(c.rel) {
        TryWrote(e, k, c.target, q.value, w);
        InnerNames(c);
      } else if Eligible(e, c, q.value) && (e.xml || !Marked(c, q.value, w)) {
        AskWrote(e, k, c, q.value, w);
        WalkWrote(e, k, c, q.value, AskIn(e, k, c, q.value, w).1);
      } else {
        WalkWrote(e, k, c, q.value, w);
      }
    }
  }

  // ----- what a call depends on -----

  /** All that a walk can see of a slot: names that are hidden from it never matter, nor do the numbers of
      candidates, but for which is the present one. */
  datatype Sight = Sight(name: nat, present: bool, verdict: bool)

  function See(hidden: set<nat>, k: nat, w: Marks, n: Path): Option<Sight> {
    if n in w && w[n].name !in hidden then Some(Sight(w[n].name, w[n].candidate == k, w[n].verdict)) else None
  }

  ghost predicate Alike(hidden: set<nat>, k: nat, w: Marks, l: nat, v: Marks, rank: nat) {
    forall n :: Rank(n) < rank ==> See(hidden, k, w, n) == See(hidden, l, v, n)
  }

  lemma {:induction false} MatchAlike(hidden: set<nat>, e: Env, k: nat, l: nat, m: Matcher, p: Path, w: Marks, v: Marks)
    requires hidden !! Names(InMatcher(m)) && Alike(hidden, k, w, l, v, Rank(p))
    ensures MatchIn(e, k, m, p, w).0 == MatchIn(e, l, m, p, v).0
    ensures Alike(hidden, k, MatchIn(e, k, m, p, w).1, l, MatchIn(e, l, m, p, v).1, Rank(p))
    decreases m
  {
    match m.head
    case ContextCheck(_, own, any) =>
      var c := if e.context.One? then own else any;
      assert Names(InCombinator(c)) <= Names(InMatcher(m));
      WalkAlike(hidden, e, k, l, c, p, w, v);
    case Related(c) => WalkAlike(hidden, e, k, l, c, p, w, v);
  }

  lemma {:induction false} TryAlike(hidden: set<nat>, e: Env, k: nat, l: nat, t: Target, p: Path, w: Marks, v: Marks)
    requires hidden !! Names(Inner(t)) && Alike(hidden, k, w, l, v, Rank(p))
    ensures TryIn(e, k, t, p, w).0 == TryIn(e, l, t, p, v).0
    ensures Alike(hidden, k, TryIn(e, k, t, p, w).1, l, TryIn(e, l, t, p, v).1, Rank(p))
    decreases t, 0
  {
    if t.Compound? {
      MatchAlike(hidden, e, k, l, t.matcher, p, w, v);
    }
  }

  /** Nodes from a rank on are as alike as they were, if neither call wrote there. */
  lemma StillAlike(hidden: set<nat>, k: nat, w: Marks, w': Marks, l: nat, v: Marks, v': Marks, low: nat, rank: nat)
    requires Alike(hidden, k, w, l, v, rank) && Alike(hidden, k, w', l, v', low)
    requires forall n :: Rank(n) >= low ==> Look(w', n) == Look(w, n) && Look(v', n) == Look(v, n)
    ensures Alike(hidden, k, w', l, v', rank)
  {
    forall n | Rank(n) < rank ensures See(hidden, k, w', n) == See(hidden, l, v', n) {
      if Rank(n) >= low {
        assert Look(w', n) == Look(w, n) && Look(v', n) == Look(v, n);
        assert See(hidden, k, w, n) == See(hidden, l, v, n);
      }
    }
  }

  lemma TriedAlike(hidden: set<nat>, e: Env, k: nat, l: nat, t: Target, q: Path, w: Marks, v: Marks, rank: nat)
    requires hidden !! Names(Inner(t)) && Alike(hidden, k, w, l, v, rank) && Rank(q) <= rank
    ensures TryIn(e, k, t, q, w).0 == TryIn(e, l, t, q, v).0
    ensures Alike(hidden, k, TryIn(e, k, t, q, w).1, l, TryIn(e, l, t, q, v).1, rank)
    decreases t, 1
  {
    TryAlike(hidden, e, k, l, t, q, w, v);
    TryWrote(e, k, t, q, w);
    TryWrote(e, l, t, q, v);
    StillAlike(hidden, k, w, TryIn(e, k, t, q, w).1, l, v, TryIn(e, l, t, q, v).1, Rank(q), rank);
  }

  lemma AskAlike(hidden: set<nat>, e: Env, k: nat, l: nat, c: Combinator, q: Path, w: Marks, v: Marks, rank: nat)
    requires hidden !! Names(InCombinator(c)) && Alike(hidden, k, w, l, v, rank) && Rank(q) <= rank
    ensures AskIn(e, k, c, q, w).0 == AskIn(e, l, c, q, v).0
    ensures Alike(hidden, k, AskIn(e, k, c, q, w).1, l, AskIn(e, l, c, q, v).1, rank)
    decreases c, 0
  {
    InnerNames(c);
    TriedAlike(hidden, e, k, l, c.target, q, w, v, rank);
  }

  lemma InnerNames(c: Combinator)
    ensures Names(InCombinator(c)) == {c.doneName} + Names(Inner(c.target))
  {
    assert c in InCombinator(c);
    assert InCombinator(c) == {c} + Inner(c.target);
  }

  lemma {:induction false} WalkAlike(hidden: set<nat>, e: Env, k: nat, l: nat, c: Combinator, p: Path, w: Marks,
      v: Marks)
    requires hidden !! Names(InCombinator(c)) && Alike(hidden, k, w, l, v, Rank(p))
    ensures WalkIn(e, k, c, p, w).0 == WalkIn(e, l, c, p, v).0
    ensures Alike(hidden, k, WalkIn(e, k, c, p, w).1, l, WalkIn(e, l, c, p, v).1, Rank(p))
    decreases c, Rank(p), 0
  {
    var q := Follow(p, DirOf(c.rel));
    if q.Some? {
      InnerNames(c);
      assert See(hidden, k, w, q.value) == See(hidden, l, v, q.value);
      if !Eligible(e, c, q.value) || (!First(c.rel) && !e.xml && Marked(c, q.value, w)) {
        GoOnAlike(hidden, e, k, l, c, p, q.value, w, v);
      } else if First(c.rel) {
        TriedAlike(hidden, e, k, l, c.target, q.value, w, v, Rank(p));
      } else {
        AskAlike(hidden, e, k, l, c, q.value, w, v, Rank(p));
        GoOnAlike(hidden, e, k, l, c, p, q.value, AskIn(e, k, c, q.value, w).1, AskIn(e, l, c, q.value, v).1);
      }
    }
  }

  lemma GoOnAlike(hidden: set<nat>, e: Env, k: nat, l: nat, c: Combinator, p: Path, q: Path, w: Marks, v: Marks)
    requires hidden !! Names(InCombinator(c)) && Alike(hidden, k, w, l, v, Rank(p)) && Rank(q) < Rank(p)
    ensures WalkIn(e, k, c, q, w).0 == WalkIn(e, l, c, q, v).0
    ensures Alike(hidden, k, WalkIn(e, k, c, q, w).1, l, WalkIn(e, l, c, q, v).1, Rank(p))
    decreases c, Rank(q), 2
  {
    WalkAlike(hidden, e, k, l, c, q, w, v);
    WalkWrote(e, k, c, q, w);
    WalkWrote(e, l, c, q, v);
    StillAlike(hidden, k, w, WalkIn(e, k, c, q, w).1, l, v, WalkIn(e, l, c, q, v).1, Rank(q), Rank(p));
  }

  /** Marks that look the same everywhere. */
  ghost predicate Same(hidden: set<nat>, k: nat, w: Marks, l: nat, v: Marks) {
    forall n :: See(hidden, k, w, n) == See(hidden, l, v, n)
  }

  lemma MatchSame(hidden: set<nat>, e: Env, k: nat, l: nat, m: Matcher, p: Path, w: Marks, v: Marks)
    requires hidden !! Names(InMatcher(m)) && Same(hidden, k, w, l, v)
    ensures MatchIn(e, k, m, p, w).0 == MatchIn(e, l, m, p, v).0
    ensures Same(hidden, k, MatchIn(e, k, m, p, w).1, l, MatchIn(e, l, m, p, v).1)
  {
    MatchAlike(hidden, e, k, l, m, p, w, v);
    MatchWrote(e, k, m, p, w);
    MatchWrote(e, l, m, p, v);
    var w', v' := MatchIn(e, k, m, p, w).1, MatchIn(e, l, m, p, v).1;
    forall n ensures See(hidden, k, w', n) == See(hidden, l, v', n) {
      StillAlike(hidden, k, w, w', l, v, v', Rank(p), Rank(n) + 1);
    }
  }

  /** A node may be marked before the inner matcher is asked about it, whatever verdict is beside the mark. */
  lemma MarkFirst(e: Env, k: nat, c: Combinator, q: Path, w: Marks, stale: bool)
    requires !e.xml
    ensures AskIn(e, k, c, q, w[q := Mark(c.doneName, k, stale)]) == AskIn(e, k, c, q, w)
  {
    var v := w[q := Mark(c.doneName, k, stale)];
    TryAlike({}, e, k, k, c.target, q, w, v);
    TryWrote(e, k, c.target, q, w);
    TryWrote(e, k, c.target, q, v);
    var w', v' := AskIn(e, k, c, q, w).1, AskIn(e, k, c, q, v).1;
    forall n ensures Look(w', n) == Look(v', n) {
      if Rank(n) < Rank(q) {
        assert See({}, k, TryIn(e, k, c.target, q, w).1, n) == See({}, k, TryIn(e, k, c.target, q, v).1, n);
      }
    }
    SameMarks(w', v');
  }

  lemma SameMarks(w: Marks, v: Marks)
    requires forall n :: Look(w, n) == Look(v, n)
    ensures w == v
  {
    assert forall n :: (n in w <==> n in v) && (n in w ==> w[n] == v[n]) by {
      forall n ensures (n in w <==> n in v) && (n in w ==> w[n] == v[n]) {
        assert Look(w, n) == Look(v, n);
      }
    }
  }

  // ----- a candidate with a number of its own -----

  /** The verdict beside a mark of `c` is the truth about the node. */
  ghost predicate Sound(e: Env, cs: set<Combinator>, w: Marks) {
    forall c, n :: c in cs && Marked(c, n, w) ==> w[n].verdict == Satisfies(e, c.target, n)
  }

  /** For this candidate, a negative mark of `c` means that the whole walk from there failed. */
  ghost predicate Settled(e: Env, k: nat, cs: set<Combinator>, w: Marks) {
    forall c, n :: c in cs && Look(w, n) == Some(Mark(c.doneName, k, false)) ==> !Reaches(e, c, n)
  }

  /** The marks may be relied on; XML documents have none. */
  ghost predicate Ready(e: Env, k: nat, cs: set<Combinator>, w: Marks) {
    e.xml || (Sound(e, cs, w) && Settled(e, k, cs, w))
  }

  /** What a call leaves: positive verdicts may be relied on, negative ones if it failed itself. */
  ghost predicate Leaves(e: Env, k: nat, cs: set<Combinator>, matched: bool, w: Marks) {
    e.xml || (Sound(e, cs, w) && (!matched ==> Settled(e, k, cs, w)))
  }

  /** Marks with other names make no difference. */
  lemma OthersKeep(e: Env, k: nat, cs: set<Combinator>, names: set<nat>, rank: nat, w: Marks, v: Marks)
    requires Wrote(names, k, rank, w, v) && names !! Names(cs)
    ensures Sound(e, cs, w) ==> Sound(e, cs, v)
    ensures Settled(e, k, cs, w) ==> Settled(e, k, cs, v)
    ensures Upheld(e, cs, w) ==> Upheld(e, cs, v)
  {
    forall c, n | c in cs && Marked(c, n, v) ensures Look(v, n) == Look(w, n) {
      assert c.doneName in Names(cs);
    }
    forall c, n | c in cs && Look(v, n).Some? && v[n].name == c.doneName ensures Look(v, n) == Look(w, n) {
      assert Marked(c, n, v);
    }
  }

  lemma ReadyParts(e: Env, k: nat, cs: set<Combinator>, ds: set<Combinator>, w: Marks)
    ensures Sound(e, cs + ds, w) <==> Sound(e, cs, w) && Sound(e, ds, w)
    ensures Settled(e, k, cs + ds, w) <==> Settled(e, k, cs, w) && Settled(e, k, ds, w)
    ensures Upheld(e, cs + ds, w) <==> Upheld(e, cs, w) && Upheld(e, ds, w)
  {
  }

  /** A true verdict of `c` may be written down. */
  lemma MarkSound(e: Env, k: nat, c: Combinator, q: Path, v: Marks)
    requires c.doneName !in Names(Inner(c.target)) && Sound(e, InCombinator(c), v)
    ensures var v' := v[q := Mark(c.doneName, k, Satisfies(e, c.target, q))];
            Sound(e, InCombinator(c), v') && (Settled(e, k, Inner(c.target), v) ==> Settled(e, k, Inner(c.target), v'))
  {
    forall d | d in InCombinator(c) && d.doneName == c.doneName ensures d == c {
      assert d in Inner(c.target) ==> d.doneName in Names(Inner(c.target));
    }
  }

  // ----- any candidate -----

  /** A positive verdict beside a mark of `c` is true. */
  ghost predicate Upheld(e: Env, cs: set<Combinator>, w: Marks) {
    forall c, n :: c in cs && Marked(c, n, w) && w[n].verdict ==> Satisfies(e, c.target, n)
  }

  /** Whatever was tried before and under whatever number: what a matcher accepts it accepts rightly. */
  lemma {:induction false} MatchUpheld(e: Env, k: nat, m: Matcher, p: Path, w: Marks)
    requires Distinct(m) && Upheld(e, InMatcher(m), w)
    ensures MatchIn(e, k, m, p, w).0 ==> Holds(e, m, p)
    ensures Upheld(e, InMatcher(m), MatchIn(e, k, m, p, w).1)
    decreases m
  {
    match m.head
    case ContextCheck(_, own, any) =>
      ReadyParts(e, k, InCombinator(own), InCombinator(any), w);
      ContextUpheld(e, k, own, any, p, w);
      ContextUpheld(e, k, any, own, p, w);
      ReadyParts(e, k, InCombinator(own), InCombinator(any), MatchIn(e, k, m, p, w).1);
    case Related(c) => WalkUpheld(e, k, c, p, w);
  }

  lemma ContextUpheld(e: Env, k: nat, c: Combinator, d: Combinator, p: Path, w: Marks)
    requires DistinctFrom(c) && Names(InCombinator(c)) !! Names(InCombinator(d))
    requires Upheld(e, InCombinator(c), w) && Upheld(e, InCombinator(d), w)
    ensures WalkIn(e, k, c, p, w).0 ==> Reaches(e, c, p)
    ensures Upheld(e, InCombinator(c), WalkIn(e, k, c, p, w).1) && Upheld(e, InCombinator(d), WalkIn(e, k, c, p, w).1)
    decreases c, Rank(p), 1
  {
    WalkUpheld(e, k, c, p, w);
    WalkWrote(e, k, c, p, w);
    if e.xml {
      OthersKeep(e, k, InCombinator(d), {}, Rank(p), w, WalkIn(e, k, c, p, w).1);
    } else {
      OthersKeep(e, k, InCombinator(d), Names(InCombinator(c)), Rank(p), w, WalkIn(e, k, c, p, w).1);
    }
  }

  lemma {:induction false} TryUpheld(e: Env, k: nat, t: Target, p: Path, w: Marks)
    requires (t.Compound? ==> Distinct(t.matcher)) && Upheld(e, Inner(t), w)
    ensures TryIn(e, k, t, p, w).0 ==> Satisfies(e, t, p)
    ensures Upheld(e, Inner(t), TryIn(e, k, t, p, w).1)
    decreases t
  {
    if t.Compound? {
      MatchUpheld(e, k, t.matcher, p, w);
    }
  }

  lemma AskUpheld(e: Env, k: nat, c: Combinator, q: Path, w: Marks)
    requires DistinctFrom(c) && Upheld(e, InCombinator(c), w)
    ensures AskIn(e, k, c, q, w).0 ==> Satisfies(e, c.target, q)
    ensures Upheld(e, InCombinator(c), AskIn(e, k, c, q, w).1)
    decreases c, 0
  {
    TryUpheld(e, k, c.target, q, w);
    TryWrote(e, k, c.target, q, w);
    InnerNames(c);
  }

  lemma {:induction false} WalkUpheld(e: Env, k: nat, c: Combinator, p: Path, w: Marks)
    requires DistinctFrom(c) && Upheld(e, InCombinator(c), w)
    ensures WalkIn(e, k, c, p, w).0 ==> Reaches(e, c, p)
    ensures Upheld(e, InCombinator(c), WalkIn(e, k, c, p, w).1)
    decreases c, Rank(p), 0
  {
    var q := Follow(p, DirOf(c.rel));
    if q.Some? {
      if Eligible(e, c, q.value) && First(c.rel) {
        FirstUpheld(e, k, c, q.value, w);
      } else if Eligible(e, c, q.value) && (e.xml || !Marked(c, q.value, w)) {
        AskUpheld(e, k, c, q.value, w);
        WalkUpheld(e, k, c, q.value, AskIn(e, k, c, q.value, w).1);
      } else {
        WalkUpheld(e, k, c, q.value, w);
      }
    }
  }

  lemma FirstUpheld(e: Env, k: nat, c: Combinator, q: Path, w: Marks)
    requires DistinctFrom(c) && Upheld(e, InCombinator(c), w)
    ensures TryIn(e, k, c.target, q, w).0 ==> Satisfies(e, c.target, q)
    ensures Upheld(e, InCombinator(c), TryIn(e, k, c.target, q, w).1)
    decreases c, 0
  {
    TryUpheld(e, k, c.target, q, w);
    TryWrote(e, k, c.target, q, w);
    InnerNames(c);
  }
}
