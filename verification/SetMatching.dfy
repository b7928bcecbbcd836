/**
 Positional filters (`:first`, `:eq(n)`, ...) and the set matchers built around them.  A set
 matcher works on two arrays in step: what it matches is moved from `seed[i]` to `results[i]`,
 leaving a hole.  Its filters are compiled matchers, which it runs under one candidate number.
 */
module SetMatching {
  import opened Dom
  import opened Combinators
  import opened Stamps
  import opened Filtering
  import opened Sizzles

  type Elem = Path

  datatype Position = First | Last | Eq(arg: int) | Even | Odd | Lt(arg: int) | Gt(arg: int)

  /** `setMatcher`: `Plain` wraps an element filter; `Positional` has a positional pseudo with what
      stands before it and after it in its compound. */
  datatype SetMatcher =
    | Plain(filter: Matcher)
    | Positional(pre: Option<Matcher>, position: Position, post: Option<SetMatcher>)

  // ----- what is picked -----

  function FromEnd(arg: int, len: nat): int {
    if arg < 0 then arg + len else arg
  }

  /** Whether the element at index `j` of a list of this length is at the position. */
  predicate Picks(p: Position, j: nat, len: nat) {
    match p
    case First => j == 0
    case Last => j == len - 1
    case Eq(n) => j == FromEnd(n, len)
    case Even => j % 2 == 0
    case Odd => j % 2 == 1
    case Lt(n) => j < FromEnd(n, len)
    case Gt(n) => j > FromEnd(n, len)
  }

  /** What the positions pick.  `:even` picks the first and then every other one, `:odd` the rest; `:lt`, `:eq` and
      `:gt` share out the list, whatever the argument.  A negative argument counts from the end: it picks what its
      opposite, less one, picks of the list turned round. */
  lemma PicksLaws(j: nat, len: nat, n: int)
    requires j < len
    ensures Picks(First, j, len) <==> j == 0
    ensures Picks(Last, j, len) <==> Picks(First, len - 1 - j, len)
    ensures Picks(Even, 0, len) && (j + 1 < len ==> (Picks(Even, j + 1, len) <==> !Picks(Even, j, len)))
    ensures Picks(Odd, j, len) <==> !Picks(Even, j, len)
    ensures n >= 0 ==> (Picks(Eq(n), j, len) <==> j == n) && (Picks(Lt(n), j, len) <==> j < n)
    ensures multiset{Picks(Lt(n), j, len), Picks(Eq(n), j, len), Picks(Gt(n), j, len)} == multiset{true, false, false}
    ensures n < 0 ==> (Picks(Eq(n), j, len) <==> Picks(Eq(-n - 1), len - 1 - j, len)) &&
                      (Picks(Lt(n), j, len) <==> Picks(Gt(-n - 1), len - 1 - j, len)) &&
                      (Picks(Gt(n), j, len) <==> Picks(Lt(-n - 1), len - 1 - j, len))
  {
    var lt, eq := Picks(Lt(n), j, len), Picks(Eq(n), j, len);
    assert if lt then !eq else eq == !Picks(Gt(n), j, len);
  }

  function Present(xs: seq<Option<Elem>>): (r: seq<bool>)
    ensures |r| == |xs|
  {
    seq(|xs|, i requires 0 <= i < |xs| => xs[i].Some?)
  }

  /** The entries that a filter keeps; without a filter all but the holes are kept. */
  function Keeps(e: Env, f: Option<Matcher>, xs: seq<Option<Elem>>): (r: seq<bool>)
    ensures |r| == |xs| && forall i :: 0 <= i < |r| && r[i] ==> xs[i].Some?
  {
    if f.None? then Present(xs) else seq(|xs|, i requires 0 <= i < |xs| => Answer(e, f.value, xs, i))
  }

  /** How many of the first `n` are true. */
  function Count(bits: seq<bool>, n: nat): nat
    requires n <= |bits|
  {
    if n == 0 then 0 else Count(bits, n - 1) + if bits[n - 1] then 1 else 0
  }

  /** The entries kept among the first `n`, closed up. */
  function Condensed(xs: seq<Option<Elem>>, bits: seq<bool>, n: nat): (r: seq<Option<Elem>>)
    requires n <= |xs| == |bits|
    ensures |r| == Count(bits, n)
  {
    if n == 0 then [] else Condensed(xs, bits, n - 1) + if bits[n - 1] then [xs[n - 1]] else []
  }

  /** The index map of `condense`: where each entry of the condensed list came from. */
  function Indexes(bits: seq<bool>, n: nat): (r: seq<nat>)
    requires n <= |bits|
    ensures |r| == Count(bits, n)
    ensures forall j :: 0 <= j < |r| ==> r[j] < n && bits[r[j]] && Count(bits, r[j]) == j
    ensures forall i, j :: 0 <= i < j < |r| ==> r[i] < r[j]
  {
    if n == 0 then [] else Indexes(bits, n - 1) + if bits[n - 1] then [n - 1] else []
  }

  /** A condensed list put back at the indices it came from. */
  function Spread(bits: seq<bool>, ys: seq<Option<Elem>>): (r: seq<Option<Elem>>)
    requires |ys| == Count(bits, |bits|)
    ensures |r| == |bits|
  {
    seq(|bits|, i requires 0 <= i < |bits| => if bits[i] then CountBelow(bits, i, |bits|); ys[Count(bits, i)] else None)
  }

  /** `r` is `xs` with the entries outside the position taken away. */
  function Primary(p: Position, xs: seq<Option<Elem>>): (r: seq<Option<Elem>>)
    ensures |r| == |xs|
  {
    seq(|xs|, i requires 0 <= i < |xs| => if Picks(p, i, |xs|) then xs[i] else None)
  }

  /** The entries of `xs` that stay when its condensed list goes through `post`. */
  function Through(e: Env, post: Option<SetMatcher>, xs: seq<Option<Elem>>): (r: seq<Option<Elem>>)
    ensures |r| == |xs|
    decreases post, 1
  {
    if post.None? then xs
    else Spread(Present(xs), Moved(e, post.value, Condensed(xs, Present(xs), |xs|)))
  }

  /** What a set matcher moves out of `xs` into an empty result array. */
  function Moved(e: Env, m: SetMatcher, xs: seq<Option<Elem>>): (r: seq<Option<Elem>>)
    ensures |r| == |xs|
    decreases m, 0
  {
    match m
    case Plain(f) => Spread(Keeps(e, Some(f), xs), Condensed(xs, Keeps(e, Some(f), xs), |xs|))
    case Positional(pre, p, post) =>
      if pre.None? then Through(e, post, Primary(p, xs))
      else
        var bits := Keeps(e, pre, xs);
        Spread(bits, Through(e, post, Primary(p, Condensed(xs, bits, |xs|))))
  }

  lemma {:induction false} CountMonotone(bits: seq<bool>, i: nat, j: nat)
    requires i <= j <= |bits|
    ensures Count(bits, i) <= Count(bits, j)
    decreases j
  {
    if i < j {
      CountMonotone(bits, i, j - 1);
    }
  }

  lemma CountBelow(bits: seq<bool>, i: nat, n: nat)
    requires i < n <= |bits| && bits[i]
    ensures Count(bits, i) < Count(bits, n)
  {
    CountMonotone(bits, i + 1, n);
  }

  /** Every entry that is kept is found in the condensed list at the number of those before it. */
  lemma {:induction false} CondensedAt(xs: seq<Option<Elem>>, bits: seq<bool>, i: nat, n: nat)
    requires i < n <= |xs| == |bits| && bits[i]
    ensures Count(bits, i) < |Condensed(xs, bits, n)|
    ensures Condensed(xs, bits, n)[Count(bits, i)] == xs[i]
    ensures Indexes(bits, n)[Count(bits, i)] == i
    decreases n
  {
    if i < n - 1 {
      CondensedAt(xs, bits, i, n - 1);
    }
  }

  /** The map takes each position of the condensed list back to where its element was. */
  lemma {:induction false} IndexesBack(xs: seq<Option<Elem>>, bits: seq<bool>, j: nat, n: nat)
    requires n <= |xs| == |bits| && j < |Indexes(bits, n)|
    ensures xs[Indexes(bits, n)[j]] == Condensed(xs, bits, n)[j]
    decreases n
  {
    if j < |Indexes(bits, n - 1)| {
      IndexesBack(xs, bits, j, n - 1);
    }
  }

  /** Nothing is moved that was not there. */
  lemma {:induction false} ThroughSame(e: Env, post: Option<SetMatcher>, xs: seq<Option<Elem>>)
    ensures forall i :: 0 <= i < |xs| && Through(e, post, xs)[i].Some? ==> Through(e, post, xs)[i] == xs[i]
    decreases post, 1
  {
    if post.Some? {
      var bits := Present(xs);
      MovedSame(e, post.value, Condensed(xs, bits, |xs|));
      SpreadSame(xs, bits, Moved(e, post.value, Condensed(xs, bits, |xs|)));
    }
  }

  lemma {:induction false} MovedSame(e: Env, m: SetMatcher, xs: seq<Option<Elem>>)
    ensures forall i :: 0 <= i < |xs| && Moved(e, m, xs)[i].Some? ==> Moved(e, m, xs)[i] == xs[i]
    decreases m, 0
  {
    if m.Plain? {
      var bits := Keeps(e, Some(m.filter), xs);
      SpreadSame(xs, bits, Condensed(xs, bits, |xs|));
    } else if m.pre.None? {
      ThroughSame(e, m.post, Primary(m.position, xs));
    } else {
      var bits := Keeps(e, m.pre, xs);
      var picked := Primary(m.position, Condensed(xs, bits, |xs|));
      ThroughSame(e, m.post, picked);
      SpreadSame(xs, bits, Through(e, m.post, picked));
    }
  }

  lemma SpreadSame(xs: seq<Option<Elem>>, bits: seq<bool>, ys: seq<Option<Elem>>)
    requires |xs| == |bits| && |ys| == Count(bits, |bits|)
    requires forall j :: 0 <= j < |ys| && ys[j].Some? ==> ys[j] == Condensed(xs, bits, |xs|)[j]
    ensures forall i :: 0 <= i < |xs| && Spread(bits, ys)[i].Some? ==> Spread(bits, ys)[i] == xs[i]
  {
    forall i | 0 <= i < |xs| && Spread(bits, ys)[i].Some? ensures Spread(bits, ys)[i] == xs[i] {
      CondensedAt(xs, bits, i, |xs|);
    }
  }

  lemma SpreadCondensed(xs: seq<Option<Elem>>, bits: seq<bool>)
    requires |xs| == |bits|
    ensures forall i :: 0 <= i < |xs| ==> Spread(bits, Condensed(xs, bits, |xs|))[i] == if bits[i] then xs[i] else None
  {
    forall i | 0 <= i < |xs| && bits[i] ensures Spread(bits, Condensed(xs, bits, |xs|))[i] == xs[i] {
      CondensedAt(xs, bits, i, |xs|);
    }
  }

  // ----- the arrays -----

  /** A JavaScript array: `None` stands for a hole, `undefined` or `false`. */
  class JsArray {
    var items: seq<Option<Elem>>

    constructor (xs: seq<Option<Elem>>)
      ensures items == xs
    {
      items := xs;
    }

    function Get(i: int): Option<Elem>
      reads this
    {
      if 0 <= i < |items| then items[i] else None
    }

    /** Assignment past the end fills up with holes. */
    method Set(i: nat, x: Option<Elem>)
      modifies this
      ensures |items| == if i < old(|items|) then old(|items|) else i + 1
      ensures Get(i) == x
      ensures forall k :: k != i ==> Get(k) == old(Get(k))
    {
      if i < |items| {
        items := items[i := x];
      } else {
        items := items + seq(i - |items|, _ => None) + [x];
      }
    }
  }

  /** The index functions of the positional pseudos. */
  method MatchIndexes(p: Position, length: nat) returns (indexes: seq<int>)
    ensures forall j: nat :: j < length ==> (j in indexes <==> Picks(p, j, length))
  {
    match p {
      case First => indexes := [0];
      case Last => indexes := [length - 1];
      case Eq(n) => indexes := [FromEnd(n, length)];
      case Even | Odd =>
        var i := if p.Even? then 0 else 1;
        indexes := [];
        while i < length
          invariant i % 2 == if p.Even? then 0 else 1
          invariant forall j: nat :: j in indexes <==> j < i && Picks(p, j, length)
          invariant forall j :: j in indexes ==> 0 <= j
        {
          indexes := indexes + [i];
          i := i + 2;
        }
      case Lt(n) =>
        var i := FromEnd(n, length);
        indexes := [];
        i := i - 1;
        while i >= 0
          invariant i < FromEnd(n, length) && (i >= -1 || indexes == [])
          invariant forall j :: j in indexes <==> i < j < FromEnd(n, length) && 0 <= j
        {
          indexes := indexes + [i];
          i := i - 1;
        }
      case Gt(n) =>
        var i := FromEnd(n, length);
        indexes := [];
        i := i + 1;
        while i < length
          invariant i > FromEnd(n, length)
          invariant forall j :: j in indexes <==> FromEnd(n, length) < j < i
        {
          indexes := indexes + [i];
          i := i + 1;
        }
    }
  }

  /** The closure made by `createPositionalPseudo`. */
  method MatchPosition(p: Position, seed: JsArray, matches: JsArray)
    requires seed != matches
    modifies seed, matches
    ensures |seed.items| == old(|seed.items|)
    ensures |matches.items| <= if old(|matches.items| <= |seed.items|) then |seed.items| else old(|matches.items|)
    ensures forall j: int :: var picked := old(Primary(p, seed.items));
              if 0 <= j < |picked| && picked[j].Some? then seed.Get(j) == None && matches.Get(j) == picked[j]
              else seed.Get(j) == old(seed.Get(j)) && matches.Get(j) == old(matches.Get(j))
  {
    var matchIndexes := MatchIndexes(p, |seed.items|);
    var i := |matchIndexes|;
    ghost var picked := Primary(p, seed.items);
    while i > 0
      invariant 0 <= i <= |matchIndexes| && |seed.items| == old(|seed.items|) == |picked|
      invariant |matches.items| <= if old(|matches.items| <= |seed.items|) then |seed.items| else old(|matches.items|)
      invariant forall j: int :: if 0 <= j < |picked| && j in matchIndexes[i..] && picked[j].Some?
                            then seed.Get(j) == None && matches.Get(j) == picked[j]
                            else seed.Get(j) == old(seed.Get(j)) && matches.Get(j) == old(matches.Get(j))
    {
      i := i - 1;
      var j := matchIndexes[i];
      assert matchIndexes[i..] == [j] + matchIndexes[i + 1..];
      if seed.Get(j).Some? {
        matches.Set(j, seed.Get(j));
        seed.Set(j, None);
      }
    }
  }

  // ----- the filters -----

  function FilterNames(f: Option<Matcher>): set<nat> {
    if f.None? then {} else Names(InMatcher(f.value))
  }

  /** The names of all filters of a set matcher. */
  function SetNames(m: SetMatcher): set<nat>
    decreases m
  {
    match m
    case Plain(f) => FilterNames(Some(f))
    case Positional(pre, _, post) => FilterNames(pre) + PostNames(post)
  }

  function PostNames(post: Option<SetMatcher>): set<nat>
    decreases post
  {
    if post.None? then {} else SetNames(post.value)
  }

  /** The filters were compiled one after the other and share no name. */
  predicate Separate(m: SetMatcher)
    decreases m
  {
    m.Positional? ==> FilterNames(m.pre) !! PostNames(m.post) && (m.post.Some? ==> Separate(m.post.value))
  }

  /** `condense`: all elements are tried under one candidate number. */
  method Condense(s: Sizzle, e: Env, unmatched: seq<Option<Elem>>, filter: Option<Matcher>)
    returns (out: seq<Option<Elem>>, indexMap: seq<nat>)
    requires s.Valid() && s.Unused(FilterNames(filter))
    modifies s`expando, s`sizset
    ensures s.Valid() && s.WroteWithin(FilterNames(filter))
    ensures var bits := Keeps(e, filter, unmatched);
            out == Condensed(unmatched, bits, |bits|) && indexMap == Indexes(bits, |bits|)
  {
    ghost var bits := Keeps(e, filter, unmatched);
    ghost var hidden := set n | n in s.View() :: s.View()[n].name;
    out, indexMap := [], [];
    var i := 0;
    while i < |unmatched|
      invariant 0 <= i <= |unmatched|
      invariant out == Condensed(unmatched, bits, i) && indexMap == Indexes(bits, i)
      invariant s.Valid() && s.WroteWithin(FilterNames(filter))
      invariant filter.Some? ==> Same(hidden, s.cachedruns, s.View(), 0, Trail(e, filter.value, unmatched, i))
    {
      if unmatched[i].Some? {
        var kept := filter.None?;
        if filter.Some? {
          kept := Filtered(s, e, filter.value, unmatched, i, hidden);
        }
        if kept {
          out := out + [unmatched[i]];
          indexMap := indexMap + [i];
        }
      }
      i := i + 1;
    }
  }

  /** `filter( elem, context, xml )` */
  method Filtered(s: Sizzle, e: Env, filter: Matcher, xs: seq<Option<Elem>>, i: nat, ghost hidden: set<nat>)
    returns (kept: bool)
    requires s.Valid() && i < |xs| && xs[i].Some? && hidden !! Names(InMatcher(filter))
    requires Same(hidden, s.cachedruns, s.View(), 0, Trail(e, filter, xs, i))
    modifies s`expando, s`sizset
    ensures s.Valid() && s.WroteWithin(Names(InMatcher(filter)))
    ensures kept == Answer(e, filter, xs, i)
    ensures Same(hidden, s.cachedruns, s.View(), 0, Trail(e, filter, xs, i + 1))
  {
    MatchSame(hidden, e, s.cachedruns, 0, filter, xs[i].value, s.View(), Trail(e, filter, xs, i));
    MatchWrote(e, s.cachedruns, filter, xs[i].value, s.View());
    kept := s.Match(e, filter, xs[i].value);
  }

  // ----- setMatcher -----

  /** Entries of `ys` show through the holes of `xs`. */
  function Overlay(xs: seq<Option<Elem>>, ys: seq<Option<Elem>>): (r: seq<Option<Elem>>)
    ensures |r| == |xs|
  {
    seq(|xs|, i requires 0 <= i < |xs| => if xs[i].Some? then xs[i] else if i < |ys| then ys[i] else None)
  }

  /** The result array after a set matcher ran on a seed and a result array. */
  function Outcome(e: Env, m: SetMatcher, seed: seq<Option<Elem>>, results: seq<Option<Elem>>): (r: seq<Option<Elem>>)
    ensures |r| == |seed|
  {
    if m.Positional? && m.pre.None? then Through(e, m.post, Overlay(Primary(m.position, seed), results))
    else Overlay(Moved(e, m, seed), results)
  }

  lemma OutcomeFresh(e: Env, m: SetMatcher, xs: seq<Option<Elem>>)
    ensures Outcome(e, m, xs, []) == Moved(e, m, xs) && Overlay(xs, []) == xs
  {
    assert forall ys: seq<Option<Elem>> :: Overlay(ys, []) == ys;
  }

  /** No index holds an element in both arrays. */
  predicate Apart(seed: seq<Option<Elem>>, results: seq<Option<Elem>>) {
    |results| <= |seed| && forall i :: 0 <= i < |results| ==> seed[i].None? || results[i].None?
  }

  /** Holes at the end make no difference to the post filter. */
  lemma ThroughPadding(e: Env, post: Option<SetMatcher>, xs: seq<Option<Elem>>, n: nat)
    requires n <= |xs| && forall i :: n <= i < |xs| ==> xs[i].None?
    ensures forall i :: 0 <= i < |xs| ==>
            Through(e, post, xs)[i] == if i < n then Through(e, post, xs[..n])[i] else None
  {
    CondensedPadding(xs, n, |xs|);
    CondensedPrefix(xs, n, n);
    forall i | 0 <= i < n ensures Count(Present(xs[..n]), i) == Count(Present(xs), i) {
      CondensedPrefix(xs, n, i);
    }
  }

  lemma {:induction false} CondensedPrefix(xs: seq<Option<Elem>>, n: nat, i: nat)
    requires i <= n <= |xs|
    ensures Condensed(xs[..n], Present(xs[..n]), i) == Condensed(xs, Present(xs), i)
    ensures Count(Present(xs[..n]), i) == Count(Present(xs), i)
    decreases i
  {
    if i > 0 {
      CondensedPrefix(xs, n, i - 1);
    }
  }

  lemma {:induction false} CondensedPadding(xs: seq<Option<Elem>>, n: nat, m: nat)
    requires n <= m <= |xs| && forall i :: n <= i < |xs| ==> xs[i].None?
    ensures Condensed(xs, Present(xs), m) == Condensed(xs, Present(xs), n)
    ensures Count(Present(xs), m) == Count(Present(xs), n)
    decreases m
  {
    if n < m {
      CondensedPadding(xs, n, m - 1);
    }
  }

  /** Walks an index map backwards and moves every element listed there from one array to the
      other, at its own index. */
  method MoveBack(list: seq<Option<Elem>>, indexMap: seq<nat>, from: JsArray, to: JsArray)
    requires from != to && |list| <= |indexMap|
    requires forall i, j :: 0 <= i < j < |indexMap| ==> indexMap[i] < indexMap[j]
    requires forall i :: 0 <= i < |list| && list[i].Some? ==> indexMap[i] < |from.items|
    modifies from, to
    ensures |from.items| == old(|from.items|)
    ensures |to.items| <= if old(|to.items| <= |from.items|) then |from.items| else old(|to.items|)
    ensures |to.items| >= old(|to.items|)
    ensures forall i :: 0 <= i < |list| && list[i].Some? ==>
              to.Get(indexMap[i]) == list[i] && from.Get(indexMap[i]) == None
    ensures forall k :: (forall i :: 0 <= i < |list| && list[i].Some? ==> indexMap[i] != k) ==>
              to.Get(k) == old(to.Get(k)) && from.Get(k) == old(from.Get(k))
  {
    var i := |list|;
    while i > 0
      invariant 0 <= i <= |list|
      invariant |from.items| == old(|from.items|)
      invariant |to.items| <= if old(|to.items| <= |from.items|) then |from.items| else old(|to.items|)
      invariant |to.items| >= old(|to.items|)
      invariant forall j :: i <= j < |list| && list[j].Some? ==>
                  to.Get(indexMap[j]) == list[j] && from.Get(indexMap[j]) == None
      invariant forall k :: (forall j :: i <= j < |list| && list[j].Some? ==> indexMap[j] != k) ==>
                  to.Get(k) == old(to.Get(k)) && from.Get(k) == old(from.Get(k))
    {
      i := i - 1;
      if list[i].Some? {
        to.Set(indexMap[i], list[i]);
        from.Set(indexMap[i], None);
      }
    }
  }

  /** What was found in a condensed list is moved at the index it came from. */
  method MoveMatched(ghost bits: seq<bool>, list: seq<Option<Elem>>, indexMap: seq<nat>, from: JsArray, to: JsArray)
    requires from != to && |from.items| == |bits|
    requires indexMap == Indexes(bits, |bits|) && |list| <= |indexMap|
    modifies from, to
    ensures |from.items| == old(|from.items|)
    ensures |to.items| <= if old(|to.items| <= |from.items|) then |from.items| else old(|to.items|)
    ensures |to.items| >= old(|to.items|)
    ensures forall k: int ::
              if 0 <= k < |bits| && bits[k] && Count(bits, k) < |list| && list[Count(bits, k)].Some?
              then from.Get(k) == None && to.Get(k) == list[Count(bits, k)]
              else from.Get(k) == old(from.Get(k)) && to.Get(k) == old(to.Get(k))
  {
    ghost var xs := from.items;
    MoveBack(list, indexMap, from, to);
    forall k | 0 <= k < |xs| && bits[k] ensures Count(bits, k) < |indexMap| && indexMap[Count(bits, k)] == k {
      CondensedAt(xs, bits, k, |xs|);
    }
  }

  /** The elements of `out` that fail the post filter, in the condensed list, and the index map. */
  method Failing(s: Sizzle, e: Env, post: SetMatcher, out: seq<Option<Elem>>)
    returns (failing: seq<Option<Elem>>, postMap: seq<nat>)
    requires s.Valid() && s.Unused(SetNames(post)) && Separate(post)
    modifies s`expando, s`sizset
    ensures s.Valid() && s.WroteWithin(SetNames(post))
    ensures postMap == Indexes(Present(out), |out|) && |failing| == |postMap|
    ensures forall j :: 0 <= j < |failing| ==>
              var condensed := Condensed(out, Present(out), |out|);
              failing[j] == if Moved(e, post, condensed)[j].Some? then None else condensed[j]
    decreases post, 2
  {
    var condensed;
    condensed, postMap := Condense(s, e, out, None);
    var temp := new JsArray(condensed);
    var moved := new JsArray([]);
    OutcomeFresh(e, post, condensed);
    SetMatch(s, e, post, temp, moved);
    failing := temp.items;
  }

  /** The post filter: elements that fail it go back to the input array. */
  method Unmatch(s: Sizzle, e: Env, post: SetMatcher, matcherIn: JsArray, matcherOut: JsArray)
    requires matcherIn != matcherOut && |matcherOut.items| <= |matcherIn.items|
    requires s.Valid() && s.Unused(SetNames(post)) && Separate(post)
    modifies s`expando, s`sizset, matcherIn, matcherOut
    ensures s.Valid() && s.WroteWithin(SetNames(post))
    ensures |matcherIn.items| == old(|matcherIn.items|) && |matcherOut.items| == old(|matcherOut.items|)
    ensures forall k :: var out := old(matcherOut.items);
              if 0 <= k < |out| && out[k].Some? && Through(e, Some(post), out)[k].None?
              then matcherIn.Get(k) == out[k] && matcherOut.Get(k) == None
              else matcherIn.Get(k) == old(matcherIn.Get(k)) && matcherOut.Get(k) == old(matcherOut.Get(k))
    decreases post, 3
  {
    var temp, postMap := Failing(s, e, post, matcherOut.items);
    MoveFailing(e, post, temp, postMap, matcherIn, matcherOut);
  }

  method MoveFailing(ghost e: Env, ghost post: SetMatcher, failing: seq<Option<Elem>>, postMap: seq<nat>,
                     matcherIn: JsArray, matcherOut: JsArray)
    requires matcherIn != matcherOut && |matcherOut.items| <= |matcherIn.items|
    requires postMap == Indexes(Present(matcherOut.items), |matcherOut.items|) && |failing| == |postMap|
    requires forall j :: 0 <= j < |failing| ==>
               var condensed := Condensed(matcherOut.items, Present(matcherOut.items), |matcherOut.items|);
               failing[j] == if Moved(e, post, condensed)[j].Some? then None else condensed[j]
    modifies matcherIn, matcherOut
    ensures |matcherIn.items| == old(|matcherIn.items|) && |matcherOut.items| == old(|matcherOut.items|)
    ensures forall k :: var out := old(matcherOut.items);
              if 0 <= k < |out| && out[k].Some? && Through(e, Some(post), out)[k].None?
              then matcherIn.Get(k) == out[k] && matcherOut.Get(k) == None
              else matcherIn.Get(k) == old(matcherIn.Get(k)) && matcherOut.Get(k) == old(matcherOut.Get(k))
  {
    ghost var out := matcherOut.items;
    MoveMatched(Present(out), failing, postMap, matcherOut, matcherIn);
    forall k | 0 <= k < |out| && out[k].Some?
      ensures Count(Present(out), k) < |postMap|
      ensures Condensed(out, Present(out), |out|)[Count(Present(out), k)] == out[k]
    {
      CondensedAt(out, Present(out), k, |out|);
    }
  }

  /** The intermediate arrays used when there is a pre filter. */
  method MatchCondensed(s: Sizzle, e: Env, p: Position, post: Option<SetMatcher>, condensed: seq<Option<Elem>>)
    returns (out: seq<Option<Elem>>)
    requires s.Valid() && s.Unused(PostNames(post)) && (post.Some? ==> Separate(post.value))
    modifies s`expando, s`sizset
    ensures s.Valid() && s.WroteWithin(PostNames(post))
    ensures |out| <= |condensed|
    ensures forall j :: 0 <= j < |condensed| ==>
              Through(e, post, Primary(p, condensed))[j] == if j < |out| then out[j] else None
    decreases post, 4
  {
    var matcherIn := new JsArray(condensed);
    var matcherOut := new JsArray([]);
    MatchPosition(p, matcherIn, matcherOut);
    ghost var picked := Primary(p, condensed);
    assert forall j :: 0 <= j < |condensed| ==> picked[j] == matcherOut.Get(j);
    ThroughPadding(e, post, picked, |matcherOut.items|);
    assert picked[..|matcherOut.items|] == matcherOut.items;
    ThroughSame(e, post, matcherOut.items);
    if post.Some? {
      Unmatch(s, e, post.value, matcherIn, matcherOut);
    }
    out := matcherOut.items;
  }

  /** With no pre filter the arrays of the caller are used directly. */
  method MatchDirect(s: Sizzle, e: Env, p: Position, post: Option<SetMatcher>, seed: JsArray, results: JsArray)
    requires seed != results && Apart(seed.items, results.items)
    requires s.Valid() && s.Unused(PostNames(post)) && (post.Some? ==> Separate(post.value))
    modifies s`expando, s`sizset, seed, results
    ensures s.Valid() && s.WroteWithin(PostNames(post))
    ensures |seed.items| == old(|seed.items|) && |results.items| <= |seed.items|
    ensures forall i :: 0 <= i < |seed.items| ==>
              var out := Through(e, post, Overlay(Primary(p, old(seed.items)), old(results.items)));
              results.Get(i) == out[i] &&
              seed.items[i] == if out[i].Some? then None else old(Overlay(seed.items, results.items))[i]
    decreases post, 4
  {
    ghost var merged := Overlay(Primary(p, seed.items), results.items);
    MatchPosition(p, seed, results);
    assert forall i :: 0 <= i < |merged| ==> merged[i] == results.Get(i);
    ThroughPadding(e, post, merged, |results.items|);
    assert merged[..|results.items|] == results.items;
    ThroughSame(e, post, results.items);
    if post.Some? {
      Unmatch(s, e, post.value, seed, results);
    }
  }

  /** With a pre filter the seed is condensed first, and matches are moved through the index map. */
  method MatchFiltered(s: Sizzle, e: Env, m: SetMatcher, seed: JsArray, results: JsArray)
    requires m.Plain? || m.pre.Some?
    requires seed != results && Apart(seed.items, results.items)
    requires s.Valid() && s.Unused(SetNames(m)) && Separate(m)
    modifies s`expando, s`sizset, seed, results
    ensures s.Valid() && s.WroteWithin(SetNames(m))
    ensures |seed.items| == old(|seed.items|) && |results.items| <= |seed.items|
    ensures forall i :: 0 <= i < |seed.items| ==>
              var moved := Moved(e, m, old(seed.items))[i];
              results.Get(i) == (if moved.Some? then moved else old(results.Get(i))) &&
              seed.Get(i) == if moved.Some? then None else old(seed.Get(i))
    decreases m, 0
  {
    var f := if m.Plain? then Some(m.filter) else m.pre;
    ghost var bits := Keeps(e, f, seed.items);
    var matcherIn, preMap := Condense(s, e, seed.items, f);
    var matcherOut := matcherIn;
    if m.Positional? {
      matcherOut := MatchCondensed(s, e, m.position, m.post, matcherIn);
    }
    forall i | 0 <= i < |bits| && bits[i] ensures Count(bits, i) < |matcherIn| {
      CountBelow(bits, i, |bits|);
    }
    MoveMatched(bits, matcherOut, preMap, seed, results);
  }

  /** `setMatcher` with a seed and without a post finder. */
  method SetMatch(s: Sizzle, e: Env, m: SetMatcher, seed: JsArray, results: JsArray)
    requires seed != results && Apart(seed.items, results.items)
    requires s.Valid() && s.Unused(SetNames(m)) && Separate(m)
    modifies s`expando, s`sizset, seed, results
    ensures s.Valid() && s.WroteWithin(SetNames(m))
    ensures |seed.items| == old(|seed.items|) && |results.items| <= |seed.items|
    ensures forall i :: 0 <= i < |seed.items| ==> results.Get(i) == old(Outcome(e, m, seed.items, results.items))[i]
    ensures forall i :: 0 <= i < |seed.items| ==>
              seed.items[i] == if old(Outcome(e, m, seed.items, results.items))[i].Some? then None
                               else old(Overlay(seed.items, results.items))[i]
    decreases m, 1
  {
    match m {
      case Positional(None, p, post) => MatchDirect(s, e, p, post, seed, results);
      case _ =>
        MovedSame(e, m, seed.items);
        MatchFiltered(s, e, m, seed, results);
    }
  }

  // ----- laws -----

  /** The entries that a filter should keep. */
  function Rights(e: Env, f: Matcher, xs: seq<Option<Elem>>): (r: seq<bool>)
    ensures |r| == |xs|
  {
    seq(|xs|, i requires 0 <= i < |xs| => Rightly(e, f, xs[i]))
  }

  /** A filter with one stamped walk keeps what it should exactly when no two elements clash. */
  lemma KeepsExactly(e: Env, f: Matcher, xs: seq<Option<Elem>>)
    requires Single(e, f)
    ensures Keeps(e, Some(f), xs) == Rights(e, f, xs) <==> NoClash(e, f, xs)
  {
    AnswersExactly(e, f, xs);
    var bits, rights := Keeps(e, Some(f), xs), Rights(e, f, xs);
    if forall i :: 0 <= i < |xs| ==> (Answer(e, f, xs, i) <==> Rightly(e, f, xs[i])) {
      assert bits == rights;
    } else {
      var i :| 0 <= i < |xs| && !(Answer(e, f, xs, i) <==> Rightly(e, f, xs[i]));
      assert bits[i] != rights[i];
    }
  }

  /** Every filter keeps what it should when no two elements clash. */
  lemma KeepsRight(e: Env, f: Matcher, xs: seq<Option<Elem>>)
    requires Distinct(f) && NoClash(e, f, xs)
    ensures Keeps(e, Some(f), xs) == Rights(e, f, xs)
  {
    forall i | 0 <= i < |xs| ensures Answer(e, f, xs, i) <==> Rightly(e, f, xs[i]) {
      var front := xs[..i + 1];
      PartNoClash(e, f, xs, front);
      AnswerRight(e, f, xs, i);
    }
  }

  /** Condensing with any filter gives the right list when no two elements clash. */
  lemma CondensedRight(e: Env, f: Matcher, xs: seq<Option<Elem>>)
    requires Distinct(f) && NoClash(e, f, xs)
    ensures Condensed(xs, Keeps(e, Some(f), xs), |xs|) == Condensed(xs, Rights(e, f, xs), |xs|)
  {
    KeepsRight(e, f, xs);
  }

  /** Condensing with a filter of one stamped walk gives the right list exactly when no two elements clash. */
  lemma CondensedExactly(e: Env, f: Matcher, xs: seq<Option<Elem>>)
    requires Distinct(f) && Single(e, f)
    ensures Condensed(xs, Keeps(e, Some(f), xs), |xs|) == Condensed(xs, Rights(e, f, xs), |xs|) <==> NoClash(e, f, xs)
  {
    KeepsExactly(e, f, xs);
    var bits, rights := Keeps(e, Some(f), xs), Rights(e, f, xs);
    forall i | 0 <= i < |xs| && bits[i] ensures rights[i] {
      AnswersUpheld(e, f, xs, i);
    }
    if bits != rights {
      var i :| 0 <= i < |xs| && bits[i] != rights[i];
      FewerKept(bits, rights, i, |xs|);
    }
  }

  lemma {:induction false} FewerKept(bits: seq<bool>, rights: seq<bool>, i: nat, n: nat)
    requires n <= |bits| == |rights| && forall k :: 0 <= k < n && bits[k] ==> rights[k]
    ensures Count(bits, n) <= Count(rights, n)
    ensures i < n && !bits[i] && rights[i] ==> Count(bits, n) < Count(rights, n)
    decreases n
  {
    if n > 0 {
      FewerKept(bits, rights, i, n - 1);
    }
  }

  /** `:first` takes the first element that passes what stands before it, and nothing else.  Stamps can
      do it no harm. */
  lemma FirstIsFirst(e: Env, f: Matcher, xs: seq<Option<Elem>>, i: nat)
    requires Distinct(f) && i < |xs|
    ensures Moved(e, Positional(Some(f), First, None), xs)[i].Some? <==>
            Rightly(e, f, xs[i]) && forall k :: 0 <= k < i ==> !Rightly(e, f, xs[k])
  {
    var bits := Keeps(e, Some(f), xs);
    KeptZero(e, f, xs, i);
    if bits[i] {
      CondensedAt(xs, bits, i, |xs|);
    }
    FirstKept(e, f, xs, i);
  }

  lemma {:induction false} KeptZero(e: Env, f: Matcher, xs: seq<Option<Elem>>, n: nat)
    requires n <= |xs|
    ensures Count(Keeps(e, Some(f), xs), n) == 0 <==> forall k :: 0 <= k < n ==> !Answer(e, f, xs, k)
    decreases n
  {
    if n > 0 {
      KeptZero(e, f, xs, n - 1);
    }
  }

  lemma FirstKept(e: Env, f: Matcher, xs: seq<Option<Elem>>, i: nat)
    requires Distinct(f) && i < |xs|
    ensures Answer(e, f, xs, i) && (forall k :: 0 <= k < i ==> !Answer(e, f, xs, k)) <==>
            Rightly(e, f, xs[i]) && forall k :: 0 <= k < i ==> !Rightly(e, f, xs[k])
  {
    if forall k :: 0 <= k < i ==> !Answer(e, f, xs, k) {
      forall k | 0 <= k <= i ensures Answer(e, f, xs, k) <==> Rightly(e, f, xs[k]) {
        FirstAnswer(e, f, xs, k);
      }
    } else {
      var k :| 0 <= k < i && Answer(e, f, xs, k);
      AnswersUpheld(e, f, xs, k);
    }
  }

  /** The element at index `i` is the one of this number among those that pass, and as many pass in all. */
  predicate StandsAt(e: Env, f: Matcher, p: Position, xs: seq<Option<Elem>>, i: nat)
    requires i < |xs|
  {
    Rightly(e, f, xs[i]) && Picks(p, Count(Rights(e, f, xs), i), Count(Rights(e, f, xs), |xs|))
  }

  /** Moved are exactly the elements that pass the pre filter, stand at the position among those that do
      and pass the post filter, when no elements clash. */
  lemma MovedExactly(e: Env, f: Matcher, p: Position, g: Matcher, xs: seq<Option<Elem>>, i: nat)
    requires Distinct(f) && NoClash(e, f, xs) && Distinct(g) && NoClash(e, g, xs) && i < |xs|
    ensures Moved(e, Positional(Some(f), p, Some(Plain(g))), xs)[i] ==
            if StandsAt(e, f, p, xs, i) && Rightly(e, g, xs[i]) then xs[i] else None
  {
    var bits := Keeps(e, Some(f), xs);
    var condensed := Condensed(xs, bits, |xs|);
    KeepsRight(e, f, xs);
    if bits[i] {
      CondensedAt(xs, bits, i, |xs|);
      CondensedNoClash(e, g, xs, bits);
      PartNoClash(e, g, condensed, Primary(p, condensed));
      ThroughPlain(e, g, Primary(p, condensed), Count(bits, i));
    }
  }

  /** For a filter of one stamped walk: every position picks rightly exactly when no two elements clash. */
  lemma PickedExactly(e: Env, f: Matcher, xs: seq<Option<Elem>>)
    requires Single(e, f)
    ensures NoClash(e, f, xs) <==>
            forall p, i :: 0 <= i < |xs| ==>
              Moved(e, Positional(Some(f), p, None), xs)[i] == if StandsAt(e, f, p, xs, i) then xs[i] else None
  {
    KeepsExactly(e, f, xs);
    var bits, rights := Keeps(e, Some(f), xs), Rights(e, f, xs);
    if bits == rights {
      forall p, i | 0 <= i < |xs|
        ensures Moved(e, Positional(Some(f), p, None), xs)[i] == if StandsAt(e, f, p, xs, i) then xs[i] else None
      {
        PickedAt(e, f, p, xs, i);
      }
    } else {
      var i :| 0 <= i < |xs| && bits[i] != rights[i];
      AnswerExactly(e, f, xs, i);
      var p := Eq(Count(rights, i));
      assert StandsAt(e, f, p, xs, i);
      assert Moved(e, Positional(Some(f), p, None), xs)[i] == None;
    }
  }

  lemma PickedAt(e: Env, f: Matcher, p: Position, xs: seq<Option<Elem>>, i: nat)
    requires i < |xs| && Keeps(e, Some(f), xs) == Rights(e, f, xs)
    ensures Moved(e, Positional(Some(f), p, None), xs)[i] == if StandsAt(e, f, p, xs, i) then xs[i] else None
  {
    var bits := Keeps(e, Some(f), xs);
    if bits[i] {
      CondensedAt(xs, bits, i, |xs|);
    }
  }

  lemma CondensedNoClash(e: Env, g: Matcher, xs: seq<Option<Elem>>, bits: seq<bool>)
    requires |xs| == |bits| && NoClash(e, g, xs)
    ensures NoClash(e, g, Condensed(xs, bits, |xs|))
  {
    var ys, map_ := Condensed(xs, bits, |xs|), Indexes(bits, |xs|);
    forall j | 0 <= j < |ys| ensures xs[map_[j]] == ys[j] {
      IndexesBack(xs, bits, j, |xs|);
    }
    forall j, k | 0 <= j < k < |ys| ensures !Clash(e, g, ys[j], ys[k]) {
      assert map_[j] < map_[k];
    }
  }

  lemma PartNoClash(e: Env, g: Matcher, xs: seq<Option<Elem>>, ys: seq<Option<Elem>>)
    requires NoClash(e, g, xs) && |ys| <= |xs| && forall i :: 0 <= i < |ys| && ys[i].Some? ==> ys[i] == xs[i]
    ensures NoClash(e, g, ys)
  {
    forall j, k | 0 <= j < k < |ys| ensures !Clash(e, g, ys[j], ys[k]) {
      if ys[j].Some? && ys[k].Some? {
        assert !Clash(e, g, xs[j], xs[k]);
      }
    }
  }

  lemma ThroughPlain(e: Env, g: Matcher, xs: seq<Option<Elem>>, i: nat)
    requires Distinct(g) && NoClash(e, g, xs) && i < |xs|
    ensures Through(e, Some(Plain(g)), xs)[i] == if Rightly(e, g, xs[i]) then xs[i] else None
  {
    if xs[i].Some? {
      var condensed := Condensed(xs, Present(xs), |xs|);
      var bits := Keeps(e, Some(g), condensed);
      CondensedAt(xs, Present(xs), i, |xs|);
      CondensedNoClash(e, g, xs, Present(xs));
      KeepsRight(e, g, condensed);
      SpreadCondensed(condensed, bits);
      var j := Count(Present(xs), i);
      assert Through(e, Some(Plain(g)), xs)[i] == Moved(e, Plain(g), condensed)[j];
      assert bits[j] == Rights(e, g, condensed)[j];
    }
  }

  /** Whatever clashes: nothing is moved that does not pass both filters. */
  lemma MovedRightly(e: Env, f: Matcher, p: Position, g: Matcher, xs: seq<Option<Elem>>, i: nat)
    requires Distinct(f) && Distinct(g) && i < |xs|
    requires Moved(e, Positional(Some(f), p, Some(Plain(g))), xs)[i].Some?
    ensures Moved(e, Positional(Some(f), p, Some(Plain(g))), xs)[i] == xs[i]
    ensures Rightly(e, f, xs[i]) && Rightly(e, g, xs[i])
  {
    var bits := Keeps(e, Some(f), xs);
    var picked := Primary(p, Condensed(xs, bits, |xs|));
    MovedSame(e, Positional(Some(f), p, Some(Plain(g))), xs);
    CondensedAt(xs, bits, i, |xs|);
    AnswersUpheld(e, f, xs, i);
    PlainRightly(e, g, picked, Count(bits, i));
  }

  lemma PlainRightly(e: Env, g: Matcher, xs: seq<Option<Elem>>, i: nat)
    requires Distinct(g) && i < |xs| && Through(e, Some(Plain(g)), xs)[i].Some?
    ensures Rightly(e, g, xs[i])
  {
    var condensed := Condensed(xs, Present(xs), |xs|);
    CondensedAt(xs, Present(xs), i, |xs|);
    AnswersUpheld(e, g, condensed, Count(Present(xs), i));
  }

  /** With a post filter and no pre filter, the post filter is also applied to what earlier set matchers had moved.
      Whether a set matcher without a second position in it adds what it moves to what is there and leaves that alone:
      exactly if it has a pre filter, or no post filter, or those results all pass the post filter too. */
  lemma OutcomeAddsExactly(e: Env, m: SetMatcher, seed: seq<Option<Elem>>, results: seq<Option<Elem>>)
    requires Apart(seed, results)
    requires m.Positional? && m.pre.None? && m.post.Some? ==>
               m.post.value.Plain? && Distinct(m.post.value.filter) &&
               NoClash(e, m.post.value.filter, Overlay(Primary(m.position, seed), results))
    ensures Outcome(e, m, seed, results) == Overlay(Moved(e, m, seed), results) <==>
            m.Plain? || m.pre.Some? || m.post.None? ||
            forall i :: 0 <= i < |results| && results[i].Some? ==> Rightly(e, m.post.value.filter, results[i])
  {
    if m.Positional? && m.pre.None? && m.post.Some? {
      DirectAdds(e, m.position, m.post.value.filter, seed, results);
    }
  }

  lemma DirectAdds(e: Env, p: Position, g: Matcher, seed: seq<Option<Elem>>, results: seq<Option<Elem>>)
    requires Apart(seed, results) && Distinct(g) && NoClash(e, g, Overlay(Primary(p, seed), results))
    ensures var m := Positional(None, p, Some(Plain(g)));
            Outcome(e, m, seed, results) == Overlay(Moved(e, m, seed), results) <==>
            forall i :: 0 <= i < |results| && results[i].Some? ==> Rightly(e, g, results[i])
  {
    var m := Positional(None, p, Some(Plain(g)));
    var merged := Overlay(Primary(p, seed), results);
    PartNoClash(e, g, merged, Primary(p, seed));
    forall i | 0 <= i < |seed|
      ensures Outcome(e, m, seed, results)[i] == if Rightly(e, g, merged[i]) then merged[i] else None
      ensures Moved(e, m, seed)[i] == if Rightly(e, g, Primary(p, seed)[i]) then Primary(p, seed)[i] else None
    {
      ThroughPlain(e, g, merged, i);
      ThroughPlain(e, g, Primary(p, seed), i);
    }
    var added := Overlay(Moved(e, m, seed), results);
    if i :| 0 <= i < |results| && results[i].Some? && !Rightly(e, g, results[i]) {
      assert Outcome(e, m, seed, results)[i] != added[i];
    } else {
      assert Outcome(e, m, seed, results) == added;
    }
  }

  /** A second position picks among what is moved now and what was moved before.  For `:first` that
      leaves earlier results alone exactly if there are none, or there is one and nothing is picked. */
  lemma OutcomeFirstExactly(e: Env, p: Position, seed: seq<Option<Elem>>, results: seq<Option<Elem>>)
    requires Apart(seed, results)
    ensures var m := Positional(None, p, Some(Positional(None, First, None)));
            Outcome(e, m, seed, results) == Overlay(Moved(e, m, seed), results) <==>
            NoneIn(results) ||
            (NoneIn(Primary(p, seed)) &&
             exists i :: 0 <= i < |results| && results[i].Some? && NoneIn(results[i := None]))
  {
    var picked := Primary(p, seed);
    var outcome, added := FirstOf(Overlay(picked, results)), Overlay(FirstOf(picked), results);
    ThroughFirst(e, Overlay(picked, results));
    ThroughFirst(e, picked);
    if NoneIn(results) {
      assert Overlay(picked, results) == picked && added == FirstOf(picked);
    } else {
      var i :| 0 <= i < |results| && results[i].Some?;
      if !NoneIn(picked) {
        var j := FirstIn(picked, |picked|);
        OneOnly(Overlay(picked, results), added, i, j);
      } else if NoneIn(results[i := None]) {
        AloneIsFirst(picked, results, i);
      } else {
        var j :| 0 <= j < |results| && results[i := None][j].Some?;
        OneOnly(Overlay(picked, results), added, i, j);
        forall k | 0 <= k < |results| && results[k].Some? ensures !NoneIn(results[k := None]) {
          assert results[k := None][if k == i then j else i].Some?;
        }
      }
    }
  }

  lemma OneOnly(xs: seq<Option<Elem>>, ys: seq<Option<Elem>>, i: nat, j: nat)
    requires i < |xs| == |ys| && j < |xs| && i != j && ys[i].Some? && ys[j].Some?
    ensures FirstOf(xs) != ys
  {
    assert FirstOf(xs)[i].None? || FirstOf(xs)[j].None?;
  }

  lemma AloneIsFirst(picked: seq<Option<Elem>>, results: seq<Option<Elem>>, i: nat)
    requires |results| <= |picked| && i < |results| && results[i].Some? && NoneIn(results[i := None]) && NoneIn(picked)
    ensures FirstOf(Overlay(picked, results)) == Overlay(FirstOf(picked), results)
  {
    var merged := Overlay(picked, results);
    forall k | 0 <= k < |merged| && k != i ensures merged[k].None? {
      assert k < |results| ==> results[k] == results[i := None][k];
    }
  }

  /** All but the first entry taken away. */
  ghost function FirstOf(xs: seq<Option<Elem>>): (r: seq<Option<Elem>>)
    ensures |r| == |xs|
  {
    seq(|xs|, i requires 0 <= i < |xs| => if IsFirst(xs, i) then xs[i] else None)
  }

  ghost predicate NoneIn(xs: seq<Option<Elem>>) {
    forall i :: 0 <= i < |xs| ==> xs[i].None?
  }

  ghost predicate IsFirst(xs: seq<Option<Elem>>, i: nat)
    requires i < |xs|
  {
    xs[i].Some? && forall k :: 0 <= k < i ==> xs[k].None?
  }

  lemma {:induction false} FirstIn(xs: seq<Option<Elem>>, n: nat) returns (i: nat)
    requires n <= |xs| && exists k :: 0 <= k < n && xs[k].Some?
    ensures i < n && IsFirst(xs, i)
    decreases n
  {
    i := n - 1;
    if k :| 0 <= k < n - 1 && xs[k].Some? {
      i := FirstIn(xs, n - 1);
    }
  }

  lemma ThroughFirst(e: Env, xs: seq<Option<Elem>>)
    ensures Through(e, Some(Positional(None, First, None)), xs) == FirstOf(xs)
  {
    var ys := Condensed(xs, Present(xs), |xs|);
    assert Moved(e, Positional(None, First, None), ys) == Primary(First, ys);
    forall i | 0 <= i < |xs| ensures Spread(Present(xs), Primary(First, ys))[i] == FirstOf(xs)[i] {
      SpreadFirst(xs, i);
    }
  }

  lemma SpreadFirst(xs: seq<Option<Elem>>, i: nat)
    requires i < |xs|
    ensures Spread(Present(xs), Primary(First, Condensed(xs, Present(xs), |xs|)))[i] == FirstOf(xs)[i]
  {
    PresentZero(xs, i);
    if xs[i].Some? {
      CondensedAt(xs, Present(xs), i, |xs|);
    }
  }

  lemma {:induction false} PresentZero(xs: seq<Option<Elem>>, n: nat)
    requires n <= |xs|
    ensures Count(Present(xs), n) == 0 <==> forall k :: 0 <= k < n ==> xs[k].None?
    decreases n
  {
    if n > 0 {
      PresentZero(xs, n - 1);
    }
  }

  // ----- an example -----

  lemma OnlyFirstKept(test: Test)
    ensures Keeps(InDocument(test), Some(BelowPassing(test)), [Some(X), Some(Y)]) == [true, false]
  {
    var e, m, xs := InDocument(test), BelowPassing(test), [Some(X), Some(Y)];
    SiblingsClash(test);
    AnswerExactly(e, m, xs, 0);
    AnswerExactly(e, m, xs, 1);
  }

  /** Condensing `x` and `y` with `A *`, which both match, loses `y`. */
  method MissedSibling(test: Test) returns (out: seq<Option<Elem>>)
    ensures out == [Some(X)]
    ensures Holds(InDocument(test), BelowPassing(test), X) && Holds(InDocument(test), BelowPassing(test), Y)
  {
    var s := new Sizzle();
    var map_;
    out, map_ := Condense(s, InDocument(test), [Some(X), Some(Y)], Some(BelowPassing(test)));
    OnlyFirstKept(test);
    SiblingsClash(test);
  }

  /** `A *:eq(1)` matches neither of them, though `y` is the second match of `A *`. */
  method MissedSecond(test: Test) returns (moved: seq<Option<Elem>>)
    ensures forall i :: 0 <= i < |moved| ==> moved[i].None?
    ensures StandsAt(InDocument(test), BelowPassing(test), Eq(1), [Some(X), Some(Y)], 1)
  {
    var e, m, xs := InDocument(test), BelowPassing(test), [Some(X), Some(Y)];
    var s := new Sizzle();
    var seed := new JsArray(xs);
    var results := new JsArray([]);
    OnlyFirstKept(test);
    SiblingsClash(test);
    NoneSecond(e, m, xs);
    SetMatch(s, e, Positional(Some(m), Eq(1), None), seed, results);
    moved := results.items;
    assert forall i :: 0 <= i < |moved| ==> moved[i] == results.Get(i);
    assert Count(Rights(e, m, xs), 1) == 1;
  }

  lemma NoneSecond(e: Env, m: Matcher, xs: seq<Option<Elem>>)
    requires |xs| == 2 && Keeps(e, Some(m), xs) == [true, false]
    ensures forall i :: 0 <= i < 2 ==> Outcome(e, Positional(Some(m), Eq(1), None), xs, [])[i] == None
  {
    var bits := Keeps(e, Some(m), xs);
    assert Count(bits, 0) == 0 && Count(bits, 1) == 1 && Count(bits, 2) == 1;
    var picked := Primary(Eq(1), Condensed(xs, bits, 2));
    assert |picked| == 1 && picked[0] == None;
    assert Moved(e, Positional(Some(m), Eq(1), None), xs) == Spread(bits, picked);
  }
}
