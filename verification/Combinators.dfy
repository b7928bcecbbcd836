/**
 The compiled matcher of Sizzle.  `addCombinator` and `elementMatcher` build nested closures;
 here a closure is a `Matcher` value.  `Holds` says what it should answer.  Every node carries one
 cache slot, a stamp (`elem[expando]`) and a verdict (`elem.sizset`), which all combinators
 overwrite; `MatchIn` says what a matcher answers and writes with them.
 */
module Combinators {
  import opened Dom

  /** The four relative operators: `>`, white space, `+` and `~`. */
  datatype Relative = Child | Descendant | Adjacent | Sibling

  function DirOf(r: Relative): Dir {
    if r.Child? || r.Descendant? then ParentDir else PreviousDir
  }

  predicate First(r: Relative) {
    r.Child? || r.Adjacent?
  }

  /** A simple test (tag, id, class, attribute, child filter): an arbitrary predicate on nodes. */
  type Test = nat

  datatype Context = One(node: Path) | Many(nodes: seq<Path>)

  /** What stays fixed during one search; `contextIsOutermost` is `context === outermostContext`. */
  datatype Env = Env(tree: Tree, passes: (Test, Path) -> bool,
                     context: Context, contextIsOutermost: bool, xml: bool)

  datatype Target = TheContext | AnyContext | Compound(matcher: Matcher)

  datatype Combinator = Combinator(rel: Relative, base: bool, doneName: nat, target: Target)

  /** The first entry of a `matchers` array. */
  datatype Head =
    | ContextCheck(leading: bool, matchContext: Combinator, matchAnyContext: Combinator)
    | Related(combinator: Combinator)

  datatype Matcher = Matcher(head: Head, tests: seq<Test>)

  // ----- the plain walk: no stamps -----

  predicate Eligible(e: Env, c: Combinator, p: Path) {
    (c.base && DirOf(c.rel) == ParentDir) || IsElement(e.tree, p)
  }

  predicate PassesAll(e: Env, tests: seq<Test>, p: Path) {
    forall t :: t in tests ==> e.passes(t, p)
  }

  predicate Holds(e: Env, m: Matcher, p: Path)
    decreases m
  {
    PassesAll(e, m.tests, p) && HeadHolds(e, m.head, p)
  }

  predicate HeadHolds(e: Env, h: Head, p: Path)
    decreases h
  {
    match h
    case ContextCheck(leading, own, any) =>
      (!leading && (e.xml || !e.contextIsOutermost)) ||
      (if e.context.One? then Reaches(e, own, p) else Reaches(e, any, p))
    case Related(c) => Reaches(e, c, p)
  }

  predicate Satisfies(e: Env, t: Target, p: Path)
    decreases t
  {
    match t
    case TheContext => e.context == One(p)
    case AnyContext => e.context.Many? && p in e.context.nodes
    case Compound(m) => Holds(e, m, p)
  }

  /** Some node in the direction of `c` from `p` (only the first eligible one for `>` and `+`)
      satisfies the target. */
  predicate Reaches(e: Env, c: Combinator, p: Path)
    decreases c, Rank(p)
  {
    match Follow(p, DirOf(c.rel))
    case None => false
    case Some(q) =>
      if Eligible(e, c, q) then Satisfies(e, c.target, q) || (!First(c.rel) && Reaches(e, c, q))
      else Reaches(e, c, q)
  }

  // ----- the names handed out by addCombinator -----

  function Inner(t: Target): set<Combinator>
    decreases t
  {
    if t.Compound? then InMatcher(t.matcher) else {}
  }

  function InMatcher(m: Matcher): set<Combinator>
    decreases m
  {
    match m.head
    case ContextCheck(_, own, any) => InCombinator(own) + InCombinator(any)
    case Related(c) => InCombinator(c)
  }

  function InCombinator(c: Combinator): set<Combinator>
    decreases c
  {
    {c} + Inner(c.target)
  }

  function Names(cs: set<Combinator>): set<nat> {
    set c | c in cs :: c.doneName
  }

  /** Each use of `addCombinator` took its own `doneName`. */
  predicate Distinct(m: Matcher)
    decreases m
  {
    match m.head
    case ContextCheck(_, own, any) =>
      DistinctFrom(own) && DistinctFrom(any) && Names(InCombinator(own)) !! Names(InCombinator(any))
    case Related(c) => DistinctFrom(c)
  }

  predicate DistinctFrom(c: Combinator)
    decreases c
  {
    c.doneName !in Names(Inner(c.target)) && (c.target.Compound? ==> Distinct(c.target.matcher))
  }

  // ----- the stamped walk -----

  /** What a slot says when it was stamped in the present run. */
  datatype Mark = Mark(name: nat, candidate: nat, verdict: bool)

  /** The slots that were stamped in the present run; all other stamps are never equal to a present one. */
  type Marks = map<Path, Mark>

  /** A matcher called for candidate number `k`: its answer, and the marks it leaves. */
  function MatchIn(e: Env, k: nat, m: Matcher, p: Path, w: Marks): (bool, Marks)
    decreases m
  {
    if !PassesAll(e, m.tests, p) then (false, w)
    else
      match m.head
      case ContextCheck(leading, own, any) =>
        if !leading && (e.xml || !e.contextIsOutermost) then (true, w)
        else if e.context.One? then WalkIn(e, k, own, p, w)
        else WalkIn(e, k, any, p, w)
      case Related(c) => WalkIn(e, k, c, p, w)
  }

  function TryIn(e: Env, k: nat, t: Target, p: Path, w: Marks): (bool, Marks)
    decreases t
  {
    match t
    case TheContext => (e.context == One(p), w)
    case AnyContext => (e.context.Many? && p in e.context.nodes, w)
    case Compound(m) => MatchIn(e, k, m, p, w)
  }

  /** The closure of a combinator.  A mark of this combinator answers for the whole walk if it is of the same
      candidate, and for its own node if it is of an earlier one. */
  function WalkIn(e: Env, k: nat, c: Combinator, p: Path, w: Marks): (bool, Marks)
    decreases c, Rank(p)
  {
    match Follow(p, DirOf(c.rel))
    case None => (false, w)
    case Some(q) =>
      if !Eligible(e, c, q) then WalkIn(e, k, c, q, w)
      else if First(c.rel) then TryIn(e, k, c.target, q, w)
      else if !e.xml && Marked(c, q, w) then
        if w[q].candidate == k then (w[q].verdict, w)
        else if w[q].verdict then (true, w)
        else WalkIn(e, k, c, q, w)
      else
        var (matched, v) := AskIn(e, k, c, q, w);
        if matched then (true, v) else WalkIn(e, k, c, q, v)
  }

  predicate Marked(c: Combinator, q: Path, w: Marks) {
    q in w && w[q].name == c.doneName
  }

  /** The inner matcher is asked about a node, and on HTML its verdict is written down. */
  function AskIn(e: Env, k: nat, c: Combinator, q: Path, w: Marks): (bool, Marks)
    decreases c, 0
  {
    var (matched, v) := TryIn(e, k, c.target, q, w);
    (matched, if e.xml then v else v[q := Mark(c.doneName, k, matched)])
  }
}
