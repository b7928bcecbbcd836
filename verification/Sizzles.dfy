/**
 The globals of Sizzle and the properties it writes on nodes.  The closures of `addCombinator` and
 `elementMatcher` are methods here; each does what the stamped walk of `Combinators` says.
 */
module Sizzles {
  import opened Dom
  import opened Combinators
  import opened Stamps
  import opened Questions

  /** `dirruns + " " + doneName + " " + cachedruns`. */
  datatype Stamp = Stamp(run: nat, name: nat, candidate: nat)

  class Sizzle {
    var dirruns: nat
    var cachedruns: nat
    var expando: map<Path, Stamp>
    var sizset: map<Path, bool>

    constructor ()
      ensures Valid() && View() == map[]
    {
      dirruns, cachedruns, expando, sizset := 0, 0, map[], map[];
    }

    /** No stamp is from a later run than the last one. */
    ghost predicate Valid()
      reads this`dirruns, this`expando
    {
      forall n :: n in expando ==> expando[n].run <= dirruns
    }

    /** The slots stamped in this run; an absent verdict is falsy. */
    ghost function View(): Marks
      reads this`dirruns, this`expando, this`sizset
    {
      map n | n in expando && expando[n].run == dirruns ::
        Mark(expando[n].name, expando[n].candidate, n in sizset && sizset[n])
    }

    /** No slot stamped in this run carries one of these names. */
    ghost predicate Unused(names: set<nat>)
      reads this
    {
      forall n :: n in View() ==> View()[n].name !in names
    }

    /** Stamps were written with these names only. */
    twostate predicate WroteWithin(names: set<nat>)
      reads this
    {
      forall n :: Look(View(), n) == old(Look(View(), n)) || (n in View() && View()[n].name in names)
    }

    /** `elementMatcher`: the tests from last to first, then the combinator. */
    method Match(e: Env, m: Matcher, p: Path) returns (matched: bool)
      requires Valid()
      modifies this`expando, this`sizset
      ensures Valid() && (matched, View()) == MatchIn(e, cachedruns, m, p, old(View()))
      ensures Distinct(m) && old(Ready(e, cachedruns, InMatcher(m), View())) ==>
                matched == Holds(e, m, p) && Leaves(e, cachedruns, InMatcher(m), matched, View())
      decreases m
    {
      ghost var w := View();
      if Distinct(m) && Ready(e, cachedruns, InMatcher(m), w) {
        MatchReady(e, cachedruns, m, p, w);
      }
      var i := |m.tests|;
      while i > 0
        invariant 0 <= i <= |m.tests|
        invariant forall k :: i <= k < |m.tests| ==> e.passes(m.tests[k], p)
        invariant Valid() && View() == w
      {
        i := i - 1;
        if !e.passes(m.tests[i], p) {
          return false;
        }
      }
      match m.head {
        case Related(c) =>
          matched := Walk(e, c, p);
        case ContextCheck(leading, own, any) =>
          if !leading && (e.xml || !e.contextIsOutermost) {
            matched := true;
          } else if e.context.One? {
            matched := Walk(e, own, p);
          } else {
            matched := Walk(e, any, p);
          }
      }
    }

    method Try(e: Env, t: Target, p: Path) returns (matched: bool)
      requires Valid()
      modifies this`expando, this`sizset
      ensures Valid() && (matched, View()) == TryIn(e, cachedruns, t, p, old(View()))
      decreases t
    {
      match t {
        case TheContext => matched := e.context == One(p);
        case AnyContext => matched := e.context.Many? && p in e.context.nodes;
        case Compound(m) => matched := Match(e, m, p);
      }
    }

    method Walk(e: Env, c: Combinator, start: Path) returns (found: bool)
      requires Valid()
      modifies this`expando, this`sizset
      ensures Valid() && (found, View()) == WalkIn(e, cachedruns, c, start, old(View()))
      decreases c, 2
    {
      if First(c.rel) || e.xml {
        found := PlainWalk(e, c, start);
      } else {
        found := StampedWalk(e, c, start);
      }
    }

    /** The closure for `>` and `+`, and the branch for XML documents. */
    method PlainWalk(e: Env, c: Combinator, start: Path) returns (found: bool)
      requires Valid() && (First(c.rel) || e.xml)
      modifies this`expando, this`sizset
      ensures Valid() && (found, View()) == WalkIn(e, cachedruns, c, start, old(View()))
      decreases c, 1
    {
      var elem := Follow(start, DirOf(c.rel));
      ghost var last := start;
      while elem.Some?
        invariant Valid() && elem == Follow(last, DirOf(c.rel))
        invariant WalkIn(e, cachedruns, c, start, old(View())) == WalkIn(e, cachedruns, c, last, View())
        decreases Rank(last)
      {
        if Eligible(e, c, elem.value) {
          found := Try(e, c.target, elem.value);
          if First(c.rel) || found {
            return found;
          }
        }
        last := elem.value;
        elem := Follow(elem.value, DirOf(c.rel));
      }
      found := false;
    }

    /** `elem[ expando ] = cachedkey` */
    method SetStamp(c: Combinator, elem: Path)
      requires Valid()
      modifies this`expando
      ensures Valid()
      ensures View() == old(View())[elem := Mark(c.doneName, cachedruns, elem in sizset && sizset[elem])]
    {
      expando := expando[elem := Stamp(dirruns, c.doneName, cachedruns)];
    }

    /** `elem.sizset = verdict`, on a node that has been stamped. */
    method Record(c: Combinator, elem: Path, verdict: bool)
      requires Valid() && elem in View() && View()[elem].name == c.doneName && View()[elem].candidate == cachedruns
      modifies this`sizset
      ensures Valid() && View() == old(View())[elem := Mark(c.doneName, cachedruns, verdict)]
    {
      sizset := sizset[elem := verdict];
    }

    /** Stamps a node, asks the inner matcher about it and writes down the verdict. */
    method Visit(e: Env, c: Combinator, elem: Path) returns (found: bool)
      requires Valid() && !e.xml
      modifies this`expando, this`sizset
      ensures Valid() && (found, View()) == AskIn(e, cachedruns, c, elem, old(View()))
      decreases c, 0
    {
      MarkFirst(e, cachedruns, c, elem, View(), elem in sizset && sizset[elem]);
      SetStamp(c, elem);
      TryWrote(e, cachedruns, c.target, elem, View());
      ghost var stamped := View();
      found := Try(e, c.target, elem);
      assert Look(View(), elem) == Look(stamped, elem);
      Record(c, elem, found);
    }

    /** The closure for white space and `~` on HTML documents. */
    method StampedWalk(e: Env, c: Combinator, start: Path) returns (found: bool)
      requires Valid() && !First(c.rel) && !e.xml
      modifies this`expando, this`sizset
      ensures Valid() && (found, View()) == WalkIn(e, cachedruns, c, start, old(View()))
      decreases c, 1
    {
      var elem := Follow(start, DirOf(c.rel));
      ghost var last := start;
      while elem.Some?
        invariant Valid() && elem == Follow(last, DirOf(c.rel))
        invariant WalkIn(e, cachedruns, c, start, old(View())) == WalkIn(e, cachedruns, c, last, View())
        decreases Rank(last)
      {
        if Eligible(e, c, elem.value) {
          var cache := if elem.value in expando then Some(expando[elem.value]) else None;
          if cache == Some(Stamp(dirruns, c.doneName, cachedruns)) {
            return elem.value in sizset && sizset[elem.value];
          } else if cache.Some? && cache.value.run == dirruns && cache.value.name == c.doneName {
            if elem.value in sizset && sizset[elem.value] {
              return true;
            }
          } else {
            found := Visit(e, c, elem.value);
            if found {
              return true;
            }
          }
        }
        last := elem.value;
        elem := Follow(elem.value, DirOf(c.rel));
      }
      found := false;
    }
  }
}
