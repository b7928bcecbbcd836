/**
 What a matcher asks: which combinators put which nodes to the test, at every level of nesting.  Marks that are
 not on these pairs, or that tell the truth about the whole walk from there, cannot mislead it.
 */
module Questions {
  import opened Dom
  import opened Combinators
  import opened Stamps

  /** A node put to the test of a combinator whose walk uses stamps. */
  datatype Question = Question(combinator: Combinator, node: Path)

  function MatchAsks(e: Env, m: Matcher, p: Path): set<Question>
    decreases m
  {
    if !PassesAll(e, m.tests, p) then {}
    else
      match m.head
      case ContextCheck(leading, own, any) =>
        if !leading && (e.xml || !e.contextIsOutermost) then {}
        else WalkAsks(e, if e.context.One? then own else any, p)
      case Related(c) => WalkAsks(e, c, p)
  }

  function TryAsks(e: Env, t: Target, p: Path): set<Question>
    decreases t
  {
    if t.Compound? then MatchAsks(e, t.matcher, p) else {}
  }

  function WalkAsks(e: Env, c: Combinator, p: Path): set<Question>
    decreases c, Rank(p)
  {
    match Follow(p, DirOf(c.rel))
    case None => {}
    case Some(q) =>
      if e.xml then {}
      else if !Eligible(e, c, q) then WalkAsks(e, c, q)
      else if First(c.rel) then TryAsks(e, c.target, q)
      else
        {Question(c, q)} + TryAsks(e, c.target, q) +
        if Satisfies(e, c.target, q) then {} else WalkAsks(e, c, q)
  }

  // ----- only own combinators, only earlier nodes -----

  lemma {:induction false} MatchAsksBelow(e: Env, m: Matcher, p: Path, a: Question)
    requires a in MatchAsks(e, m, p)
    ensures Rank(a.node) < Rank(p) && a.combinator in InMatcher(m)
    decreases m
  {
    match m.head
    case ContextCheck(_, own, any) => WalkAsksBelow(e, if e.context.One? then own else any, p, a);
    case Related(c) => WalkAsksBelow(e, c, p, a);
  }

  lemma {:induction false} WalkAsksBelow(e: Env, c: Combinator, p: Path, a: Question)
    requires a in WalkAsks(e, c, p)
    ensures Rank(a.node) < Rank(p) && a.combinator in InCombinator(c)
    decreases c, Rank(p)
  {
    var q := Follow(p, DirOf(c.rel)).value;
    if Eligible(e, c, q) && a in TryAsks(e, c.target, q) {
      MatchAsksBelow(e, c.target.matcher, q, a);
    } else if a != Question(c, q) {
      WalkAsksBelow(e, c, q, a);
    }
  }

  /** A name tells the combinator. */
  lemma {:induction false} MatchNames(m: Matcher, c: Combinator, d: Combinator)
    requires Distinct(m) && c in InMatcher(m) && d in InMatcher(m) && c.doneName == d.doneName
    ensures c == d
    decreases m
  {
    match m.head
    case ContextCheck(_, own, any) =>
      assert c in InCombinator(own) ==> c.doneName in Names(InCombinator(own));
      assert d in InCombinator(own) ==> d.doneName in Names(InCombinator(own));
      assert c in InCombinator(any) ==> c.doneName in Names(InCombinator(any));
      assert d in InCombinator(any) ==> d.doneName in Names(InCombinator(any));
      CombinatorNames(if c in InCombinator(own) then own else any, c, d);
    case Related(b) => CombinatorNames(b, c, d);
  }

  lemma {:induction false} CombinatorNames(b: Combinator, c: Combinator, d: Combinator)
    requires DistinctFrom(b) && c in InCombinator(b) && d in InCombinator(b) && c.doneName == d.doneName
    ensures c == d
    decreases b
  {
    assert c in Inner(b.target) ==> c.doneName in Names(Inner(b.target));
    assert d in Inner(b.target) ==> d.doneName in Names(Inner(b.target));
    if c != b && d != b {
      MatchNames(b.target.matcher, c, d);
    }
  }

  // ----- marks that do not mislead -----

  /** A negative mark of this candidate on a pair that is asked means that the whole walk from there fails. */
  ghost predicate SettledOn(e: Env, k: nat, asks: set<Question>, w: Marks) {
    forall c, q :: Question(c, q) in asks && Look(w, q) == Some(Mark(c.doneName, k, false)) ==> !Reaches(e, c, q)
  }

  /** The mark of a pair that was asked; if the call failed, a negative one is settled. */
  ghost predicate MarkOf(e: Env, k: nat, c: Combinator, q: Path, failed: bool, v: Marks) {
    q in v && v[q].name == c.doneName && v[q].candidate == k && (failed && !v[q].verdict ==> !Reaches(e, c, q))
  }

  ghost predicate WroteOn(e: Env, k: nat, asks: set<Question>, failed: bool, w: Marks, v: Marks) {
    forall q :: Look(v, q) == Look(w, q) || exists c :: Question(c, q) in asks && MarkOf(e, k, c, q, failed, v)
  }

  lemma WroteMore(e: Env, k: nat, asks: set<Question>, more: set<Question>, failed: bool, f: bool, w: Marks, v: Marks)
    requires WroteOn(e, k, asks, failed, w, v) && asks <= more && (f ==> failed)
    ensures WroteOn(e, k, more, f, w, v)
  {
    forall q | Look(v, q) != Look(w, q) ensures exists c :: Question(c, q) in more && MarkOf(e, k, c, q, f, v) {
      var c :| Question(c, q) in asks && MarkOf(e, k, c, q, failed, v);
      assert Question(c, q) in more && MarkOf(e, k, c, q, f, v);
    }
  }

  lemma WroteBoth(e: Env, k: nat, asks: set<Question>, failed: bool, w: Marks, v: Marks, u: Marks)
    requires WroteOn(e, k, asks, failed, w, v) && WroteOn(e, k, asks, failed, v, u)
    ensures WroteOn(e, k, asks, failed, w, u)
  {
    forall q | Look(u, q) != Look(w, q) ensures exists c :: Question(c, q) in asks && MarkOf(e, k, c, q, failed, u) {
      if Look(u, q) == Look(v, q) {
        var c :| Question(c, q) in asks && MarkOf(e, k, c, q, failed, v);
        assert MarkOf(e, k, c, q, failed, u);
      }
    }
  }

  /** Right answer, sound marks, and only where something was asked. */
  ghost predicate Clean(e: Env, k: nat, cs: set<Combinator>, asks: set<Question>, right: bool,
                        w: Marks, answer: (bool, Marks)) {
    answer.0 == right && Sound(e, cs, answer.1) && WroteOn(e, k, asks, !answer.0, w, answer.1)
  }

  /** When the marks are sound, and settled on what the matcher asks, it accepts exactly what it should. */
  lemma {:induction false} MatchClean(e: Env, k: nat, m: Matcher, p: Path, w: Marks)
    requires !e.xml && Distinct(m) && Sound(e, InMatcher(m), w) && SettledOn(e, k, MatchAsks(e, m, p), w)
    ensures Clean(e, k, InMatcher(m), MatchAsks(e, m, p), Holds(e, m, p), w, MatchIn(e, k, m, p, w))
    decreases m
  {
    if PassesAll(e, m.tests, p) {
      match m.head
      case Related(c) => WalkClean(e, k, c, p, w);
      case ContextCheck(leading, own, any) =>
        if leading || e.contextIsOutermost {
          if e.context.One? {
            ContextClean(e, k, own, any, p, w);
          } else {
            ContextClean(e, k, any, own, p, w);
          }
        }
    }
  }

  lemma ContextClean(e: Env, k: nat, c: Combinator, d: Combinator, p: Path, w: Marks)
    requires !e.xml && DistinctFrom(c) && Names(InCombinator(c)) !! Names(InCombinator(d))
    requires Sound(e, InCombinator(c) + InCombinator(d), w) && SettledOn(e, k, WalkAsks(e, c, p), w)
    ensures Clean(e, k, InCombinator(c) + InCombinator(d), WalkAsks(e, c, p), Reaches(e, c, p), w,
            WalkIn(e, k, c, p, w))
    decreases c, Rank(p), 3
  {
    var v := WalkIn(e, k, c, p, w).1;
    ReadyParts(e, k, InCombinator(c), InCombinator(d), w);
    WalkClean(e, k, c, p, w);
    WalkWrote(e, k, c, p, w);
    OthersKeep(e, k, InCombinator(d), Names(InCombinator(c)), Rank(p), w, v);
    ReadyParts(e, k, InCombinator(c), InCombinator(d), v);
  }

  lemma {:induction false} TryClean(e: Env, k: nat, c: Combinator, q: Path, w: Marks)
    requires !e.xml && DistinctFrom(c) && Sound(e, InCombinator(c), w) && SettledOn(e, k, TryAsks(e, c.target, q), w)
    ensures Clean(e, k, InCombinator(c), TryAsks(e, c.target, q), Satisfies(e, c.target, q), w,
            TryIn(e, k, c.target, q, w))
    decreases c, 0, 0
  {
    if c.target.Compound? {
      var v := TryIn(e, k, c.target, q, w).1;
      ReadyParts(e, k, {c}, Inner(c.target), w);
      MatchClean(e, k, c.target.matcher, q, w);
      TryWrote(e, k, c.target, q, w);
      OthersKeep(e, k, {c}, Names(Inner(c.target)), Rank(q), w, v) by {
        assert Names({c}) == {c.doneName};
      }
      ReadyParts(e, k, {c}, Inner(c.target), v);
    }
  }

  lemma {:induction false} WalkClean(e: Env, k: nat, c: Combinator, p: Path, w: Marks)
    requires !e.xml && DistinctFrom(c) && Sound(e, InCombinator(c), w) && SettledOn(e, k, WalkAsks(e, c, p), w)
    ensures Clean(e, k, InCombinator(c), WalkAsks(e, c, p), Reaches(e, c, p), w, WalkIn(e, k, c, p, w))
    decreases c, Rank(p), 0
  {
    var next := Follow(p, DirOf(c.rel));
    if next.Some? {
      var q := next.value;
      if !Eligible(e, c, q) {
        WalkClean(e, k, c, q, w);
      } else if First(c.rel) {
        TryClean(e, k, c, q, w);
      } else if Marked(c, q, w) {
        MarkedClean(e, k, c, p, q, w);
      } else {
        AskClean(e, k, c, p, q, w);
      }
    }
  }

  /** At a node that is marked already. */
  lemma MarkedClean(e: Env, k: nat, c: Combinator, p: Path, q: Path, w: Marks)
    requires !e.xml && !First(c.rel) && DistinctFrom(c) && Sound(e, InCombinator(c), w)
    requires SettledOn(e, k, WalkAsks(e, c, p), w)
    requires Follow(p, DirOf(c.rel)) == Some(q) && Eligible(e, c, q) && Marked(c, q, w)
    ensures Clean(e, k, InCombinator(c), WalkAsks(e, c, p), Reaches(e, c, p), w, WalkIn(e, k, c, p, w))
    decreases c, Rank(q), 1
  {
    assert w[q].verdict == Satisfies(e, c.target, q);
    assert Question(c, q) in WalkAsks(e, c, p);
    if w[q].candidate != k && !w[q].verdict {
      WalkClean(e, k, c, q, w);
      WroteMore(e, k, WalkAsks(e, c, q), WalkAsks(e, c, p), !Reaches(e, c, q), !Reaches(e, c, p), w,
          WalkIn(e, k, c, q, w).1);
    }
  }

  /** At a node that the inner matcher is asked about. */
  lemma AskClean(e: Env, k: nat, c: Combinator, p: Path, q: Path, w: Marks)
    requires !e.xml && !First(c.rel) && DistinctFrom(c) && Sound(e, InCombinator(c), w)
    requires SettledOn(e, k, WalkAsks(e, c, p), w)
    requires Follow(p, DirOf(c.rel)) == Some(q) && Eligible(e, c, q) && !Marked(c, q, w)
    ensures Clean(e, k, InCombinator(c), WalkAsks(e, c, p), Reaches(e, c, p), w, WalkIn(e, k, c, p, w))
    decreases c, Rank(q), 1
  {
    var asks := WalkAsks(e, c, p);
    var (matched, v) := AskIn(e, k, c, q, w);
    TryClean(e, k, c, q, w);
    MarkSound(e, k, c, q, TryIn(e, k, c.target, q, w).1);
    assert TryAsks(e, c.target, q) <= asks && Question(c, q) in asks;
    if matched {
      NodeWritten(e, k, c, q, asks, false, w);
    } else {
      StillSettled(e, k, c, p, q, w);
      WalkClean(e, k, c, q, v);
      var (found, u) := WalkIn(e, k, c, q, v);
      NodeWritten(e, k, c, q, asks, !found, w);
      WroteMore(e, k, WalkAsks(e, c, q), asks, !found, !found, v, u);
      WroteBoth(e, k, asks, !found, w, v, u);
    }
  }

  /** What asking about one node writes. */
  lemma NodeWritten(e: Env, k: nat, c: Combinator, q: Path, asks: set<Question>, failed: bool, w: Marks)
    requires !e.xml && TryAsks(e, c.target, q) <= asks && Question(c, q) in asks
    requires var (matched, t) := TryIn(e, k, c.target, q, w);
             WroteOn(e, k, TryAsks(e, c.target, q), !matched, w, t) &&
             (failed ==> !matched && !Reaches(e, c, q))
    ensures WroteOn(e, k, asks, failed, w, AskIn(e, k, c, q, w).1)
  {
    var (matched, t) := TryIn(e, k, c.target, q, w);
    var v := AskIn(e, k, c, q, w).1;
    WroteMore(e, k, TryAsks(e, c.target, q), asks, !matched, failed, w, t);
    assert MarkOf(e, k, c, q, failed, v);
    forall n | Look(v, n) != Look(w, n) ensures exists d :: Question(d, n) in asks && MarkOf(e, k, d, n, failed, v) {
      if n != q {
        var d :| Question(d, n) in asks && MarkOf(e, k, d, n, failed, t);
        assert MarkOf(e, k, d, n, failed, v);
      }
    }
  }

  /** Asking in vain about one node settles nothing wrongly further on. */
  lemma StillSettled(e: Env, k: nat, c: Combinator, p: Path, q: Path, w: Marks)
    requires !e.xml && !First(c.rel) && DistinctFrom(c) && SettledOn(e, k, WalkAsks(e, c, p), w)
    requires Follow(p, DirOf(c.rel)) == Some(q) && Eligible(e, c, q) && !Satisfies(e, c.target, q)
    requires var (matched, t) := TryIn(e, k, c.target, q, w);
             !matched && WroteOn(e, k, TryAsks(e, c.target, q), true, w, t)
    ensures SettledOn(e, k, WalkAsks(e, c, q), AskIn(e, k, c, q, w).1)
  {
    var t, v := TryIn(e, k, c.target, q, w).1, AskIn(e, k, c, q, w).1;
    forall d, n | Question(d, n) in WalkAsks(e, c, q) && Look(v, n) == Some(Mark(d.doneName, k, false))
      ensures !Reaches(e, d, n)
    {
      WalkAsksBelow(e, c, q, Question(d, n));
      assert Question(d, n) in WalkAsks(e, c, p);
      assert Look(v, n) == Look(t, n);
      if Look(t, n) != Look(w, n) {
        var b :| Question(b, n) in TryAsks(e, c.target, q) && MarkOf(e, k, b, n, true, t);
        MatchAsksBelow(e, c.target.matcher, q, Question(b, n));
        CombinatorNames(c, b, d);
      }
    }
  }

  // ----- a candidate with a number of its own -----

  /** XML documents have no stamps. */
  lemma {:induction false} XmlMatch(e: Env, k: nat, m: Matcher, p: Path, w: Marks)
    requires e.xml
    ensures MatchIn(e, k, m, p, w) == (Holds(e, m, p), w)
    decreases m
  {
    match m.head
    case ContextCheck(_, own, any) => XmlWalk(e, k, if e.context.One? then own else any, p, w);
    case Related(c) => XmlWalk(e, k, c, p, w);
  }

  lemma {:induction false} XmlWalk(e: Env, k: nat, c: Combinator, p: Path, w: Marks)
    requires e.xml
    ensures WalkIn(e, k, c, p, w) == (Reaches(e, c, p), w)
    decreases c, Rank(p)
  {
    var q := Follow(p, DirOf(c.rel));
    if q.Some? {
      if c.target.Compound? {
        XmlMatch(e, k, c.target.matcher, q.value, w);
      }
      assert TryIn(e, k, c.target, q.value, w) == (Satisfies(e, c.target, q.value), w);
      XmlWalk(e, k, c, q.value, w);
    }
  }

  /** When the marks are ready, a matcher with stamps accepts exactly what it accepts without. */
  lemma MatchReady(e: Env, k: nat, m: Matcher, p: Path, w: Marks)
    requires Distinct(m) && Ready(e, k, InMatcher(m), w)
    ensures MatchIn(e, k, m, p, w).0 == Holds(e, m, p)
    ensures Leaves(e, k, InMatcher(m), MatchIn(e, k, m, p, w).0, MatchIn(e, k, m, p, w).1)
  {
    if e.xml {
      XmlMatch(e, k, m, p, w);
    } else {
      forall c, q | Question(c, q) in MatchAsks(e, m, p) ensures c in InMatcher(m) {
        MatchAsksBelow(e, m, p, Question(c, q));
      }
      MatchClean(e, k, m, p, w);
      if !Holds(e, m, p) {
        FailedSettles(e, k, m, p, w);
      }
    }
  }

  lemma FailedSettles(e: Env, k: nat, m: Matcher, p: Path, w: Marks)
    requires Distinct(m) && Settled(e, k, InMatcher(m), w)
    requires WroteOn(e, k, MatchAsks(e, m, p), true, w, MatchIn(e, k, m, p, w).1)
    ensures Settled(e, k, InMatcher(m), MatchIn(e, k, m, p, w).1)
  {
    var v := MatchIn(e, k, m, p, w).1;
    forall c, q | c in InMatcher(m) && Look(v, q) == Some(Mark(c.doneName, k, false)) ensures !Reaches(e, c, q) {
      if Look(v, q) != Look(w, q) {
        var d :| Question(d, q) in MatchAsks(e, m, p) && MarkOf(e, k, d, q, true, v);
        MatchAsksBelow(e, m, p, Question(d, q));
        MatchNames(m, c, d);
      }
    }
  }
}
