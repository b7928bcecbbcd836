/**
 A compiled matcher as the filter of a list, as set matchers use it: all elements are tried one after the other
 under one candidate number, so each walk meets the marks of those before it.
 */
module Filtering {
  import opened Dom
  import opened Combinators
  import opened Stamps
  import opened Questions

  /** The marks after the first `n` elements. */
  function Trail(e: Env, m: Matcher, xs: seq<Option<Path>>, n: nat): Marks
    requires n <= |xs|
  {
    if n == 0 then map[]
    else if xs[n - 1].None? then Trail(e, m, xs, n - 1)
    else MatchIn(e, 0, m, xs[n - 1].value, Trail(e, m, xs, n - 1)).1
  }

  predicate Answer(e: Env, m: Matcher, xs: seq<Option<Path>>, i: nat)
    requires i < |xs|
  {
    xs[i].Some? && MatchIn(e, 0, m, xs[i].value, Trail(e, m, xs, i)).0
  }

  /** The right answer. */
  predicate Rightly(e: Env, m: Matcher, x: Option<Path>) {
    x.Some? && Holds(e, m, x.value)
  }

  // ----- every matcher -----

  lemma {:induction false} TrailUpheld(e: Env, m: Matcher, xs: seq<Option<Path>>, n: nat)
    requires Distinct(m) && n <= |xs|
    ensures Upheld(e, InMatcher(m), Trail(e, m, xs, n))
    decreases n
  {
    if n > 0 {
      TrailUpheld(e, m, xs, n - 1);
      if xs[n - 1].Some? {
        MatchUpheld(e, 0, m, xs[n - 1].value, Trail(e, m, xs, n - 1));
      }
    }
  }

  /** A filter keeps no element it should not keep. */
  lemma AnswersUpheld(e: Env, m: Matcher, xs: seq<Option<Path>>, i: nat)
    requires Distinct(m) && i < |xs| && Answer(e, m, xs, i)
    ensures Rightly(e, m, xs[i])
  {
    TrailUpheld(e, m, xs, i);
    MatchUpheld(e, 0, m, xs[i].value, Trail(e, m, xs, i));
  }

  lemma {:induction false} TrailReady(e: Env, m: Matcher, xs: seq<Option<Path>>, n: nat)
    requires Distinct(m) && n <= |xs| && forall k :: 0 <= k < n ==> !Answer(e, m, xs, k)
    ensures Ready(e, 0, InMatcher(m), Trail(e, m, xs, n))
    decreases n
  {
    if n > 0 {
      TrailReady(e, m, xs, n - 1);
      if xs[n - 1].Some? {
        MatchReady(e, 0, m, xs[n - 1].value, Trail(e, m, xs, n - 1));
        assert !Answer(e, m, xs, n - 1);
      }
    }
  }

  /** A filter is right up to and including the first element it keeps. */
  lemma FirstAnswer(e: Env, m: Matcher, xs: seq<Option<Path>>, i: nat)
    requires Distinct(m) && i < |xs| && forall k :: 0 <= k < i ==> !Answer(e, m, xs, k)
    ensures Answer(e, m, xs, i) <==> Rightly(e, m, xs[i])
  {
    TrailReady(e, m, xs, i);
    if xs[i].Some? {
      MatchReady(e, 0, m, xs[i].value, Trail(e, m, xs, i));
    }
  }

  // ----- elements that clash -----

  function AsksFor(e: Env, m: Matcher, x: Option<Path>): set<Question> {
    if x.Some? then MatchAsks(e, m, x.value) else {}
  }

  /** Two elements clash when for both of them the same combinator asks the same node, which fails itself, and from
      which the walk would go on to succeed. */
  ghost predicate Clash(e: Env, m: Matcher, x: Option<Path>, y: Option<Path>) {
    exists c, q :: Question(c, q) in AsksFor(e, m, x) && Question(c, q) in AsksFor(e, m, y) &&
                   !Satisfies(e, c.target, q) && Reaches(e, c, q)
  }

  ghost predicate NoClash(e: Env, m: Matcher, xs: seq<Option<Path>>) {
    forall i, j :: 0 <= i < j < |xs| ==> !Clash(e, m, xs[i], xs[j])
  }

  /** Every mark was asked for, for the sake of some element before number `n`. */
  ghost predicate Sought(e: Env, m: Matcher, xs: seq<Option<Path>>, n: nat, w: Marks)
    requires n <= |xs|
  {
    forall q :: q in w ==>
      exists c, k :: 0 <= k < n && Question(c, q) in AsksFor(e, m, xs[k]) && w[q].name == c.doneName
  }

  /** Without clashes before it, an element meets marks that do not mislead. */
  lemma SettledFor(e: Env, m: Matcher, xs: seq<Option<Path>>, i: nat, w: Marks)
    requires Distinct(m) && i < |xs| && Sound(e, InMatcher(m), w) && Sought(e, m, xs, i, w)
    requires forall k :: 0 <= k < i ==> !Clash(e, m, xs[k], xs[i])
    ensures SettledOn(e, 0, AsksFor(e, m, xs[i]), w)
  {
    forall c, q | Question(c, q) in AsksFor(e, m, xs[i]) && Look(w, q) == Some(Mark(c.doneName, 0, false))
      ensures !Reaches(e, c, q)
    {
      var d, k :| 0 <= k < i && Question(d, q) in AsksFor(e, m, xs[k]) && w[q].name == d.doneName;
      MatchAsksBelow(e, m, xs[i].value, Question(c, q));
      MatchAsksBelow(e, m, xs[k].value, Question(d, q));
      MatchNames(m, c, d);
      assert Marked(c, q, w);
      assert !Clash(e, m, xs[k], xs[i]);
    }
  }

  lemma {:induction false} TrailClean(e: Env, m: Matcher, xs: seq<Option<Path>>, n: nat)
    requires !e.xml && Distinct(m) && n <= |xs|
    requires forall i, j :: 0 <= i < j < n ==> !Clash(e, m, xs[i], xs[j])
    ensures Sound(e, InMatcher(m), Trail(e, m, xs, n)) && Sought(e, m, xs, n, Trail(e, m, xs, n))
    decreases n
  {
    if n > 0 {
      TrailClean(e, m, xs, n - 1);
      NextClean(e, m, xs, n - 1, Trail(e, m, xs, n - 1));
    }
  }

  lemma NextClean(e: Env, m: Matcher, xs: seq<Option<Path>>, n: nat, w: Marks)
    requires !e.xml && Distinct(m) && n < |xs| && Sound(e, InMatcher(m), w) && Sought(e, m, xs, n, w)
    requires forall k :: 0 <= k < n ==> !Clash(e, m, xs[k], xs[n])
    ensures var v := if xs[n].Some? then MatchIn(e, 0, m, xs[n].value, w).1 else w;
            Sound(e, InMatcher(m), v) && Sought(e, m, xs, n + 1, v)
  {
    if xs[n].Some? {
      SettledFor(e, m, xs, n, w);
      MatchClean(e, 0, m, xs[n].value, w);
      var (matched, v) := MatchIn(e, 0, m, xs[n].value, w);
      SoughtNext(e, m, xs, n, !matched, w, v);
    } else {
      assert WroteOn(e, 0, AsksFor(e, m, xs[n]), true, w, w);
      SoughtNext(e, m, xs, n, true, w, w);
    }
  }

  /** What is written for one more element was asked for it. */
  lemma SoughtNext(e: Env, m: Matcher, xs: seq<Option<Path>>, n: nat, failed: bool, w: Marks, v: Marks)
    requires n < |xs| && Sought(e, m, xs, n, w) && WroteOn(e, 0, AsksFor(e, m, xs[n]), failed, w, v)
    ensures Sought(e, m, xs, n + 1, v)
  {
    forall q | q in v
      ensures exists c, k :: 0 <= k < n + 1 && Question(c, q) in AsksFor(e, m, xs[k]) && v[q].name == c.doneName
    {
      if Look(v, q) == Look(w, q) {
        var c, k :| 0 <= k < n && Question(c, q) in AsksFor(e, m, xs[k]) && w[q].name == c.doneName;
        assert Question(c, q) in AsksFor(e, m, xs[k]) && v[q].name == c.doneName;
      } else {
        var c :| Question(c, q) in AsksFor(e, m, xs[n]) && MarkOf(e, 0, c, q, failed, v);
      }
    }
  }

  /** Every filter, nested stamped walks included, is right up to the first clash. */
  lemma AnswerRight(e: Env, m: Matcher, xs: seq<Option<Path>>, i: nat)
    requires Distinct(m) && i < |xs| && NoClash(e, m, xs[..i + 1])
    ensures Answer(e, m, xs, i) <==> Rightly(e, m, xs[i])
  {
    forall k, j | 0 <= k < j <= i ensures !Clash(e, m, xs[k], xs[j]) {
      assert xs[..i + 1][k] == xs[k] && xs[..i + 1][j] == xs[j];
    }
    if xs[i].Some? && e.xml {
      XmlMatch(e, 0, m, xs[i].value, Trail(e, m, xs, i));
    } else if xs[i].Some? {
      TrailClean(e, m, xs, i);
      SettledFor(e, m, xs, i, Trail(e, m, xs, i));
      MatchClean(e, 0, m, xs[i].value, Trail(e, m, xs, i));
    }
  }

  // ----- matchers with one stamped walk -----

  /** The combinator whose walk uses stamps, if the matcher comes to one: behind any number of `>` and `+`. */
  function Stamper(e: Env, m: Matcher): Option<Combinator>
    decreases m
  {
    match m.head
    case ContextCheck(leading, own, any) =>
      if !leading && (e.xml || !e.contextIsOutermost) then None
      else StamperOf(e, if e.context.One? then own else any)
    case Related(c) => StamperOf(e, c)
  }

  function StamperOf(e: Env, c: Combinator): Option<Combinator>
    decreases c
  {
    if e.xml then None
    else if !First(c.rel) then Some(c)
    else if c.target.Compound? then Stamper(e, c.target.matcher)
    else None
  }

  predicate Stampless(e: Env, m: Matcher) {
    Stamper(e, m).None?
  }

  /** At most one walk uses stamps: what it asks of a node needs none. */
  predicate Single(e: Env, m: Matcher) {
    var c := Stamper(e, m);
    c.Some? && c.value.target.Compound? ==> Stampless(e, c.value.target.matcher)
  }

  /** Where the stamped walk starts; `None` when the matcher fails before. */
  function Start(e: Env, m: Matcher, p: Path): Option<Path>
    decreases m
  {
    if !PassesAll(e, m.tests, p) then None
    else
      match m.head
      case ContextCheck(_, own, any) => StartOf(e, if e.context.One? then own else any, p)
      case Related(c) => StartOf(e, c, p)
  }

  function StartOf(e: Env, c: Combinator, p: Path): Option<Path>
    decreases c
  {
    if !First(c.rel) then Some(p)
    else
      var q := Closest(e, c, p);
      if q.Some? && c.target.Compound? then Start(e, c.target.matcher, q.value) else None
  }

  /** The first eligible node. */
  function Closest(e: Env, c: Combinator, p: Path): Option<Path>
    decreases Rank(p)
  {
    var q := Follow(p, DirOf(c.rel));
    if q.None? || Eligible(e, c, q.value) then q else Closest(e, c, q.value)
  }

  lemma {:induction false} WalkToClosest(e: Env, k: nat, c: Combinator, p: Path, w: Marks)
    requires First(c.rel)
    ensures var q := Closest(e, c, p);
            WalkIn(e, k, c, p, w) == (if q.Some? then TryIn(e, k, c.target, q.value, w) else (false, w)) &&
            (Reaches(e, c, p) <==> q.Some? && Satisfies(e, c.target, q.value))
    decreases Rank(p)
  {
    var q := Follow(p, DirOf(c.rel));
    if q.Some? && !Eligible(e, c, q.value) {
      WalkToClosest(e, k, c, q.value, w);
    }
  }

  /** Without stamps nothing is written and every answer is right. */
  lemma {:induction false} StamplessMatch(e: Env, k: nat, m: Matcher, p: Path, w: Marks)
    requires Stampless(e, m)
    ensures MatchIn(e, k, m, p, w) == (Holds(e, m, p), w)
    decreases m, 0
  {
    match m.head
    case ContextCheck(leading, own, any) =>
      if leading || (!e.xml && e.contextIsOutermost) {
        StamplessWalk(e, k, if e.context.One? then own else any, p, w);
      }
    case Related(c) => StamplessWalk(e, k, c, p, w);
  }

  lemma {:induction false} StamplessTry(e: Env, k: nat, t: Target, p: Path, w: Marks)
    requires t.Compound? ==> Stampless(e, t.matcher)
    ensures TryIn(e, k, t, p, w) == (Satisfies(e, t, p), w)
    decreases t, 1
  {
    if t.Compound? {
      StamplessMatch(e, k, t.matcher, p, w);
    }
  }

  lemma {:induction false} XmlStampless(e: Env, m: Matcher)
    requires e.xml
    ensures Stampless(e, m)
  {
  }

  lemma {:induction false} StamplessWalk(e: Env, k: nat, c: Combinator, p: Path, w: Marks)
    requires StamperOf(e, c).None?
    ensures WalkIn(e, k, c, p, w) == (Reaches(e, c, p), w)
    decreases c, Rank(p)
  {
    var q := Follow(p, DirOf(c.rel));
    if q.Some? {
      if Eligible(e, c, q.value) {
        if c.target.Compound? && e.xml {
          XmlStampless(e, c.target.matcher);
        }
        StamplessTry(e, k, c.target, q.value, w);
      }
      if !Eligible(e, c, q.value) || !First(c.rel) {
        StamplessWalk(e, k, c, q.value, w);
      }
    }
  }

  /** A matcher with a stamped walk goes to where that walk starts, and is then that walk. */
  lemma {:induction false} ToStart(e: Env, k: nat, m: Matcher, p: Path, w: Marks)
    requires Stamper(e, m).Some?
    ensures var c, q := Stamper(e, m).value, Start(e, m, p);
            !e.xml && !First(c.rel) &&
            MatchIn(e, k, m, p, w) == (if q.Some? then WalkIn(e, k, c, q.value, w) else (false, w)) &&
            (Holds(e, m, p) <==> q.Some? && Reaches(e, c, q.value))
    decreases m
  {
    var c := if m.head.Related? then m.head.combinator
             else if e.context.One? then m.head.matchContext else m.head.matchAnyContext;
    if First(c.rel) {
      WalkToClosest(e, k, c, p, w);
      var q := Closest(e, c, p);
      ToStart(e, k, c.target.matcher, if q.Some? then q.value else p, w);
    }
  }

  /** The nodes a plain walk asks: the eligible ones up to and including the first that satisfies. */
  function Asked(e: Env, c: Combinator, p: Path): set<Path>
    decreases Rank(p)
  {
    match Follow(p, DirOf(c.rel))
    case None => {}
    case Some(q) =>
      if !Eligible(e, c, q) then Asked(e, c, q)
      else if Satisfies(e, c.target, q) then {q}
      else {q} + Asked(e, c, q)
  }

  lemma {:induction false} AskedBelow(e: Env, c: Combinator, p: Path, q: Path)
    requires q in Asked(e, c, p)
    ensures Rank(q) < Rank(p) && (Reaches(e, c, q) && !First(c.rel) ==> Reaches(e, c, p))
    ensures !Satisfies(e, c.target, q) ==> Asked(e, c, q) <= Asked(e, c, p)
    decreases Rank(p)
  {
    var n := Follow(p, DirOf(c.rel)).value;
    if q != n {
      AskedBelow(e, c, n, q);
    }
  }

  /** The walk to the closest node asks what the inner matcher asks there. */
  lemma {:induction false} ClosestAsks(e: Env, c: Combinator, p: Path)
    requires First(c.rel) && !e.xml
    ensures var q := Closest(e, c, p);
            WalkAsks(e, c, p) == if q.Some? then TryAsks(e, c.target, q.value) else {}
    decreases Rank(p)
  {
    var q := Follow(p, DirOf(c.rel));
    if q.Some? && !Eligible(e, c, q.value) {
      ClosestAsks(e, c, q.value);
    }
  }

  lemma {:induction false} StamplessAsks(e: Env, m: Matcher, p: Path)
    requires Stampless(e, m)
    ensures MatchAsks(e, m, p) == {}
    decreases m
  {
    var c := if m.head.Related? then m.head.combinator
             else if e.context.One? then m.head.matchContext else m.head.matchAnyContext;
    if StamperOf(e, c).None? && !e.xml {
      ClosestAsks(e, c, p);
      var q := Closest(e, c, p);
      if q.Some? && c.target.Compound? {
        StamplessAsks(e, c.target.matcher, q.value);
      }
    }
  }

  lemma {:induction false} StampedAsks(e: Env, c: Combinator, p: Path, a: Question)
    requires !First(c.rel) && !e.xml && (c.target.Compound? ==> Stampless(e, c.target.matcher))
    ensures a in WalkAsks(e, c, p) <==> a.combinator == c && a.node in Asked(e, c, p)
    decreases Rank(p)
  {
    var q := Follow(p, DirOf(c.rel));
    if q.Some? {
      if c.target.Compound? {
        StamplessAsks(e, c.target.matcher, q.value);
      }
      StampedAsks(e, c, q.value, a);
    }
  }

  lemma {:induction false} StartAsks(e: Env, m: Matcher, p: Path)
    requires Stamper(e, m).Some?
    ensures var q := Start(e, m, p);
            MatchAsks(e, m, p) == if q.Some? then WalkAsks(e, Stamper(e, m).value, q.value) else {}
    decreases m
  {
    ToStart(e, 0, m, p, map[]);
    var c := if m.head.Related? then m.head.combinator
             else if e.context.One? then m.head.matchContext else m.head.matchAnyContext;
    if First(c.rel) {
      ClosestAsks(e, c, p);
      var q := Closest(e, c, p);
      if q.Some? {
        StartAsks(e, c.target.matcher, q.value);
      }
    }
  }

  /** A set of nodes as marks that tell the truth. */
  function MarksOf(e: Env, c: Combinator, d: set<Path>): Marks {
    map n | n in d :: Mark(c.doneName, 0, Satisfies(e, c.target, n))
  }

  /** Behind a marked node that failed, all that its walk asks is marked. */
  ghost predicate Closed(e: Env, c: Combinator, d: set<Path>) {
    forall n :: n in d && !Satisfies(e, c.target, n) ==> Asked(e, c, n) <= d
  }

  /** The same, but for the nodes a walk has marked on its way to `last`. */
  ghost predicate ClosedBut(e: Env, c: Combinator, last: Path, d: set<Path>) {
    forall n :: n in d && !Satisfies(e, c.target, n) ==>
                  Asked(e, c, n) <= d || (Rank(n) >= Rank(last) && Asked(e, c, n) <= d + Asked(e, c, last))
  }

  /** A walk that asks these nodes is misled by one that was marked, failed itself, and would go on to succeed. */
  ghost predicate Misled(e: Env, c: Combinator, p: Path, d: set<Path>) {
    exists q :: q in d && q in Asked(e, c, p) && !Satisfies(e, c.target, q) && Reaches(e, c, q)
  }

  /** What a stamped walk answers among true marks of its own number, and what it marks. */
  lemma {:induction false} WalkAmong(e: Env, c: Combinator, p: Path, d: set<Path>)
    requires !First(c.rel) && !e.xml && (c.target.Compound? ==> Stampless(e, c.target.matcher)) && ClosedBut(e, c, p, d)
    ensures WalkIn(e, 0, c, p, MarksOf(e, c, d)).0 <==> Reaches(e, c, p) && !Misled(e, c, p, d)
    ensures WalkIn(e, 0, c, p, MarksOf(e, c, d)).1 == MarksOf(e, c, d + Asked(e, c, p))
    decreases Rank(p)
  {
    var w := MarksOf(e, c, d);
    var next := Follow(p, DirOf(c.rel));
    if next.None? {
      assert d + {} == d;
    } else {
      var q := next.value;
      if !Eligible(e, c, q) {
        WalkAmong(e, c, q, d);
      } else if q in d {
        AmongMarked(e, c, p, q, d);
      } else {
        StamplessTry(e, 0, c.target, q, w);
        assert AskIn(e, 0, c, q, w).1 == MarksOf(e, c, d + {q});
        if !Satisfies(e, c.target, q) {
          assert d + Asked(e, c, p) == d + {q} + Asked(e, c, q);
          WalkAmong(e, c, q, d + {q});
          assert Misled(e, c, p, d) <==> Misled(e, c, q, d + {q}) by {
            forall n | n in Asked(e, c, q) ensures n != q {
              AskedBelow(e, c, q, n);
            }
          }
        }
      }
    }
  }

  lemma AmongMarked(e: Env, c: Combinator, p: Path, q: Path, d: set<Path>)
    requires !First(c.rel) && !e.xml && ClosedBut(e, c, p, d)
    requires Follow(p, DirOf(c.rel)) == Some(q) && Eligible(e, c, q) && q in d
    ensures WalkIn(e, 0, c, p, MarksOf(e, c, d)).0 <==> Reaches(e, c, p) && !Misled(e, c, p, d)
    ensures WalkIn(e, 0, c, p, MarksOf(e, c, d)).1 == MarksOf(e, c, d + Asked(e, c, p))
  {
    assert d + Asked(e, c, p) == d;
    if !Satisfies(e, c.target, q) {
      forall n | n in Asked(e, c, q) && Reaches(e, c, n) ensures Reaches(e, c, q) {
        AskedBelow(e, c, q, n);
      }
      assert Reaches(e, c, q) ==> Misled(e, c, p, d);
    }
  }

  lemma ClosedAfter(e: Env, c: Combinator, p: Path, d: set<Path>)
    requires Closed(e, c, d)
    ensures Closed(e, c, d + Asked(e, c, p))
  {
    forall n | n in Asked(e, c, p) && !Satisfies(e, c.target, n) ensures Asked(e, c, n) <= Asked(e, c, p) {
      AskedBelow(e, c, p, n);
    }
  }

  /** The nodes asked for the sake of one element. */
  function AskedFor(e: Env, m: Matcher, x: Option<Path>): set<Path>
    requires Stamper(e, m).Some?
  {
    if x.Some? && Start(e, m, x.value).Some? then Asked(e, Stamper(e, m).value, Start(e, m, x.value).value) else {}
  }

  function AskedBefore(e: Env, m: Matcher, xs: seq<Option<Path>>, n: nat): set<Path>
    requires Stamper(e, m).Some? && n <= |xs|
  {
    if n == 0 then {} else AskedBefore(e, m, xs, n - 1) + AskedFor(e, m, xs[n - 1])
  }

  /** The marks after some elements are on exactly the nodes asked for them. */
  lemma {:induction false} TrailAsked(e: Env, m: Matcher, xs: seq<Option<Path>>, n: nat)
    requires Stamper(e, m).Some? && Single(e, m) && n <= |xs|
    ensures Trail(e, m, xs, n) == MarksOf(e, Stamper(e, m).value, AskedBefore(e, m, xs, n))
    ensures Closed(e, Stamper(e, m).value, AskedBefore(e, m, xs, n))
    decreases n
  {
    if n > 0 {
      TrailAsked(e, m, xs, n - 1);
      NextAsked(e, m, xs[n - 1], AskedBefore(e, m, xs, n - 1));
    }
  }

  lemma NextAsked(e: Env, m: Matcher, x: Option<Path>, d: set<Path>)
    requires Stamper(e, m).Some? && Single(e, m) && Closed(e, Stamper(e, m).value, d)
    ensures var c, d' := Stamper(e, m).value, d + AskedFor(e, m, x);
            Closed(e, c, d') &&
            MarksOf(e, c, d') == if x.Some? then MatchIn(e, 0, m, x.value, MarksOf(e, c, d)).1 else MarksOf(e, c, d)
  {
    assert d + {} == d;
    if x.Some? {
      var c, p := Stamper(e, m).value, Start(e, m, x.value);
      ToStart(e, 0, m, x.value, MarksOf(e, c, d));
      if p.Some? {
        WalkAmong(e, c, p.value, d);
        ClosedAfter(e, c, p.value, d);
      }
    }
  }

  /** With one stamped walk, what is asked is what that walk asks. */
  lemma SingleAsks(e: Env, m: Matcher, x: Option<Path>, a: Question)
    requires Stamper(e, m).Some? && Single(e, m)
    ensures a in AsksFor(e, m, x) <==> a.combinator == Stamper(e, m).value && a.node in AskedFor(e, m, x)
  {
    if x.Some? {
      StartAsks(e, m, x.value);
      if Start(e, m, x.value).Some? {
        ToStart(e, 0, m, x.value, map[]);
        StampedAsks(e, Stamper(e, m).value, Start(e, m, x.value).value, a);
      }
    }
  }

  lemma SingleClash(e: Env, m: Matcher, x: Option<Path>, y: Option<Path>)
    requires Stamper(e, m).Some? && Single(e, m)
    ensures var c := Stamper(e, m).value;
            Clash(e, m, x, y) <==>
            exists q :: q in AskedFor(e, m, x) && q in AskedFor(e, m, y) && !Satisfies(e, c.target, q) &&
                Reaches(e, c, q)
  {
    forall a ensures a in AsksFor(e, m, x) <==> a.combinator == Stamper(e, m).value && a.node in AskedFor(e, m, x) {
      SingleAsks(e, m, x, a);
    }
    forall a ensures a in AsksFor(e, m, y) <==> a.combinator == Stamper(e, m).value && a.node in AskedFor(e, m, y) {
      SingleAsks(e, m, y, a);
    }
    var c := Stamper(e, m).value;
    if q :| q in AskedFor(e, m, x) && q in AskedFor(e, m, y) && !Satisfies(e, c.target, q) && Reaches(e, c, q) {
      assert Question(c, q) in AsksFor(e, m, x) && Question(c, q) in AsksFor(e, m, y);
    }
  }

  lemma {:induction false} AskedBeforeFor(e: Env, m: Matcher, xs: seq<Option<Path>>, n: nat, q: Path)
    requires Stamper(e, m).Some? && n <= |xs|
    ensures q in AskedBefore(e, m, xs, n) <==> exists k :: 0 <= k < n && q in AskedFor(e, m, xs[k])
    decreases n
  {
    if n > 0 {
      AskedBeforeFor(e, m, xs, n - 1, q);
    }
  }

  /** With one stamped walk, an element is missed exactly when it clashes with one before it. */
  lemma AnswerExactly(e: Env, m: Matcher, xs: seq<Option<Path>>, i: nat)
    requires Single(e, m) && i < |xs|
    ensures Answer(e, m, xs, i) <==> Rightly(e, m, xs[i]) && forall k :: 0 <= k < i ==> !Clash(e, m, xs[k], xs[i])
  {
    if xs[i].Some? && Stampless(e, m) {
      StamplessMatch(e, 0, m, xs[i].value, Trail(e, m, xs, i));
      StamplessAsks(e, m, xs[i].value);
    } else if xs[i].Some? {
      var c, d := Stamper(e, m).value, AskedBefore(e, m, xs, i);
      TrailAsked(e, m, xs, i);
      ToStart(e, 0, m, xs[i].value, MarksOf(e, c, d));
      var p := Start(e, m, xs[i].value);
      if p.Some? {
        WalkAmong(e, c, p.value, d);
        assert Misled(e, c, p.value, d) <==> exists k :: 0 <= k < i && Clash(e, m, xs[k], xs[i]) by {
          forall q ensures q in d <==> exists k :: 0 <= k < i && q in AskedFor(e, m, xs[k]) {
            AskedBeforeFor(e, m, xs, i, q);
          }
          forall k | 0 <= k < i
            ensures Clash(e, m, xs[k], xs[i]) <==>
                    exists q :: q in AskedFor(e, m, xs[k]) && q in AskedFor(e, m, xs[i]) &&
                                !Satisfies(e, c.target, q) && Reaches(e, c, q)
          {
            SingleClash(e, m, xs[k], xs[i]);
          }
        }
      }
    }
  }

  /** What clashes with another element should be kept. */
  lemma ClashHolds(e: Env, m: Matcher, x: Option<Path>, y: Option<Path>)
    requires Single(e, m) && Clash(e, m, x, y)
    ensures Rightly(e, m, y)
  {
    if Stampless(e, m) {
      StamplessAsks(e, m, y.value);
    } else {
      SingleClash(e, m, x, y);
      var c := Stamper(e, m).value;
      var q :| q in AskedFor(e, m, x) && q in AskedFor(e, m, y) && !Satisfies(e, c.target, q) && Reaches(e, c, q);
      ToStart(e, 0, m, y.value, map[]);
      AskedBelow(e, c, Start(e, m, y.value).value, q);
    }
  }

  /** A filter with one stamped walk is right about a whole list exactly when no two of its elements clash. */
  lemma AnswersExactly(e: Env, m: Matcher, xs: seq<Option<Path>>)
    requires Single(e, m)
    ensures (forall i :: 0 <= i < |xs| ==> (Answer(e, m, xs, i) <==> Rightly(e, m, xs[i]))) <==> NoClash(e, m, xs)
  {
    forall i | 0 <= i < |xs|
      ensures Answer(e, m, xs, i) <==> Rightly(e, m, xs[i]) && forall k :: 0 <= k < i ==> !Clash(e, m, xs[k], xs[i])
      ensures forall k :: 0 <= k < i && Clash(e, m, xs[k], xs[i]) ==> Rightly(e, m, xs[i])
    {
      AnswerExactly(e, m, xs, i);
      forall k | 0 <= k < i && Clash(e, m, xs[k], xs[i]) ensures Rightly(e, m, xs[i]) {
        ClashHolds(e, m, xs[k], xs[i]);
      }
    }
  }

  // ----- an example -----

  /** A document > a > b > { x, y }. */
  const ThreeDeep: Tree := Tree(false, [Tree(true, [Tree(true, [Tree(true, []), Tree(true, [])])])])

  /** A search in the whole document: `outermostContext` is `false` then, so no context is checked. */
  function InDocument(test: Test): Env {
    Env(ThreeDeep, (t, p) => t == test && p == [0], One([]), false, false)
  }

  /** The matcher of the tokens `A`, white space: its combinator searches ancestors passing `A`. */
  function AncestorPassing(test: Test): Combinator {
    Combinator(Descendant, false, 3, Compound(Matcher(
      ContextCheck(false, Combinator(Descendant, true, 1, TheContext), Combinator(Descendant, true, 2, AnyContext)),
      [test])))
  }

  lemma AncestorsOfLeaves(test: Test)
    ensures var e, c := InDocument(test), AncestorPassing(test);
            DistinctFrom(c) && Eligible(e, c, [0, 0]) && !Satisfies(e, c.target, [0, 0]) && Reaches(e, c, [0, 0])
  {
    var e, c := InDocument(test), AncestorPassing(test);
    var p: Path := [0, 0];
    assert p[..1] == [0] && p[1..] == [0] && p[..1][..0] == [] && p[..1][1..] == [];
    assert Follow(p, ParentDir) == Some([0]) && Follow([0], ParentDir) == Some([]);
    var m := c.target.matcher;
    assert Holds(e, m, [0]);
    assert !Satisfies(e, c.target, p) by {
      assert p != [0] && test in m.tests && !e.passes(test, p);
    }
    assert IsElement(e.tree, p);
    var own, any := m.head.matchContext, m.head.matchAnyContext;
    assert InCombinator(own) == {own} && InCombinator(any) == {any};
    assert Inner(c.target) == {own, any};
  }

  /** The matcher of `A *`. */
  function BelowPassing(test: Test): Matcher {
    Matcher(Related(AncestorPassing(test)), [])
  }

  const X: Path := [0, 0, 0]
  const Y: Path := [0, 0, 1]

  /** Where only `a` passes `A`, both `x` and `y` match `A *`, but their walks clash at `b`. */
  lemma SiblingsClash(test: Test)
    ensures var e, m := InDocument(test), BelowPassing(test);
            Distinct(m) && Single(e, m) && Clash(e, m, Some(X), Some(Y)) && Holds(e, m, X) && Holds(e, m, Y)
  {
    var e, m, c := InDocument(test), BelowPassing(test), AncestorPassing(test);
    AncestorsOfLeaves(test);
    assert X[..2] == Y[..2] == [0, 0];
    assert Follow(X, ParentDir) == Some([0, 0]) == Follow(Y, ParentDir);
    assert [0, 0] in Asked(e, c, X) && [0, 0] in Asked(e, c, Y);
    StartHere(e, c, X);
    StartHere(e, c, Y);
    assert Stampless(e, c.target.matcher);
    SingleClash(e, m, Some(X), Some(Y));
  }

  lemma StartHere(e: Env, c: Combinator, p: Path)
    requires !First(c.rel) && !e.xml
    ensures var m := Matcher(Related(c), []); Stamper(e, m) == Some(c) && Start(e, m, p) == Some(p)
  {
    assert StartOf(e, c, p) == Some(p) && PassesAll(e, [], p);
  }
}
