/**
 The structural pseudo-classes of Sizzle: `:nth-child(an+b)`, `:first-child`, `:last-child` and
 `:only-child`; section 6.6.5 of Selectors Level 3.
 */
module NthChild {
  import opened Dom

  // ----- the argument -----

  datatype Sign = NoSign | Plus | Minus

  /** What the expression for `CHILD` captures: a word, or an xn part and a y part, either of which may be
      missing; the xn part may come without digits. */
  datatype Argument =
    | EvenWord
    | OddWord
    | Formula(xn: Option<(Sign, Option<nat>)>, y: Option<(Sign, nat)>)

  function Signed(s: Sign, n: int): int {
    if s.Minus? then -n else n
  }

  /** The pre filter: the numbers `a` and `b` of `an+b`. */
  function Normalise(arg: Argument): (int, int) {
    match arg
    case EvenWord => (2, 0)
    case OddWord => (2, 1)
    case Formula(xn, y) =>
      (if xn.None? then 0 else Signed(xn.value.0, if xn.value.1.Some? then xn.value.1.value else 1),
       if y.None? then 0 else Signed(y.value.0, y.value.1))
  }

  /** `=== an+b` for some `n >= 0`. */
  ghost predicate InSeries(a: int, b: int, index: int) {
    exists n: nat :: a * n + b == index
  }

  /** `even` and `odd` mean the even and the odd indices. */
  lemma WordsNormalise(index: nat)
    ensures var (a, b) := Normalise(EvenWord); InSeries(a, b, index) <==> index % 2 == 0
    ensures var (a, b) := Normalise(OddWord); InSeries(a, b, index) <==> index % 2 == 1
  {
    assert index == 2 * (index / 2) + index % 2;
  }

  /** Of a signed number, what counts on this side of an equation. */
  function Side(s: Sign, minus: bool, n: nat): nat {
    if s.Minus? == minus then n else 0
  }

  /** What is added to the index and what it is balanced with: the terms that are taken off stand on its side. */
  ghost predicate Balances(xs: Sign, x: nat, ys: Sign, y: nat, n: nat, index: nat) {
    index + Side(xs, true, x) * n + Side(ys, true, y) == Side(xs, false, x) * n + Side(ys, false, y)
  }

  /** An argument `xn+y` of any signs means what it says; without digits before `n` the number is 1. */
  lemma FormulaNormalise(xs: Sign, x: Option<nat>, ys: Sign, y: nat, index: nat)
    ensures var (a, b) := Normalise(Formula(Some((xs, x)), Some((ys, y))));
            var digits := if x.Some? then x.value else 1;
            InSeries(a, b, index) <==> exists n: nat :: Balances(xs, digits, ys, y, n, index)
    ensures Normalise(Formula(Some((xs, x)), None)) == Normalise(Formula(Some((xs, x)), Some((ys, 0))))
    ensures Normalise(Formula(None, Some((ys, y)))) == Normalise(Formula(Some((xs, Some(0))), Some((ys, y))))
  {
    var (a, b) := Normalise(Formula(Some((xs, x)), Some((ys, y))));
    var digits := if x.Some? then x.value else 1;
    forall n: nat ensures a * n + b == index <==> Balances(xs, digits, ys, y, n, index) {
      SignedTimes(xs, digits, n);
    }
    if n: nat :| a * n + b == index {
      assert Balances(xs, digits, ys, y, n, index);
    }
    if n: nat :| Balances(xs, digits, ys, y, n, index) {
      assert a * n + b == index;
    }
  }

  lemma SignedTimes(s: Sign, x: nat, n: nat)
    ensures Signed(s, x) * n == Side(s, false, x) * n - Side(s, true, x) * n
  {
    if s.Minus? {
      assert (0 - x) * n == 0 - x * n;
    }
  }

  /** A number alone is one index, `n` is all of them, `n+y` those from `y` on and `-n+y` those up to `y`. */
  lemma UsualFormulas(y: nat, index: nat)
    ensures var (a, b) := Normalise(Formula(None, Some((NoSign, y)))); InSeries(a, b, index) <==> index == y
    ensures var (a, b) := Normalise(Formula(Some((NoSign, None)), None)); InSeries(a, b, index)
    ensures var (a, b) := Normalise(Formula(Some((NoSign, None)), Some((Plus, y))));
            InSeries(a, b, index) <==> index >= y
    ensures var (a, b) := Normalise(Formula(Some((Minus, None)), Some((Plus, y))));
            InSeries(a, b, index) <==> index <= y
  {
    assert 0 * 0 + y == y;
    assert 1 * index + 0 == index;
    if index >= y {
      assert 1 * (index - y) + y == index;
    } else {
      assert -1 * (y - index) + y == index;
    }
    assert -1 * 0 + y == y;
  }

  // ----- the index -----

  /** How many of the first `k` children are elements. */
  function Elements(t: Tree, parent: Path, k: nat): nat
    requires InTree(t, parent) && k <= |At(t, parent).children|
  {
    if k == 0 then 0
    else Elements(t, parent, k - 1) + if At(t, parent).children[k - 1].isElement then 1 else 0
  }

  /** The 1-based index of an element among the element children of its parent. */
  function Index(t: Tree, elem: Path): nat
    requires elem != [] && InTree(t, elem)
  {
    ParentInTree(t, elem);
    Elements(t, elem[..|elem| - 1], elem[|elem| - 1] + 1)
  }

  // ----- JavaScript numbers -----

  function Abs(x: int): nat {
    if x < 0 then -x else x
  }

  /** `%`: the remainder has the sign of the dividend. */
  function JsRemainder(a: int, b: int): int
    requires b != 0
  {
    if a < 0 then -(Abs(a) % Abs(b)) else Abs(a) % Abs(b)
  }

  /** `a % b === 0 && a / b >= 0`; both are NaN-like false for `b` zero, when the remainder is NaN. */
  predicate DividesUp(a: int, b: int) {
    b != 0 && JsRemainder(a, b) == 0 && (a == 0 || (a > 0) == (b > 0))
  }

  lemma DividesUpExactly(a: int, b: int)
    requires b != 0
    ensures DividesUp(a, b) <==> exists n: nat :: b * n == a
  {
    if DividesUp(a, b) {
      var n := Abs(a) / Abs(b);
      assert Abs(a) == Abs(b) * n;
      assert b * n == a by {
        assert b > 0 ==> b * n == Abs(b) * n;
        assert b < 0 ==> b * n == -(Abs(b) * n);
      }
    }
    if n: nat :| b * n == a {
      Multiple(b, n);
    }
  }

  lemma Multiple(b: int, n: nat)
    requires b != 0
    ensures DividesUp(b * n, b)
  {
    var m := Abs(b);
    assert Abs(b * n) == m * n by {
      assert b > 0 ==> b * n >= 0;
      assert b < 0 ==> b * n <= 0 && b * n == -(m * n);
    }
    ModMultiple(n, m);
    assert n > 0 ==> (b * n > 0) == (b > 0);
  }

  lemma ModMultiple(n: nat, m: nat)
    requires m > 0
    ensures (m * n) % m == 0
  {
    var x := m * n;
    var d, e := x / m, x % m;
    assert x == m * d + e;
    assert m * (n - d) == e by {
      assert m * (n - d) == m * n - m * d;
    }
    assert m * (d - n) == -(m * (n - d));
    if n - d >= 1 {
      Above(m, n - d);
    } else if n - d <= -1 {
      Above(m, d - n);
    }
  }

  lemma Above(m: nat, k: nat)
    requires k >= 1
    ensures m * k >= m
  {
    assert m * k == m * (k - 1) + m;
  }

  // ----- the filters -----

  /** The closure for `nth-child`: true exactly when the index is in the series, for all signed `a`
      and `b`; an element without a parent has no index. */
  method NthChild(t: Tree, elem: Path, first: int, last: int) returns (matches: bool)
    requires IsElement(t, elem)
    ensures elem != [] ==> (matches <==> InSeries(first, last, Index(t, elem)))
    ensures elem == [] ==> (matches <==> first == 1 && last == 0)
  {
    if elem != [] {
      IndexPositive(t, elem);
    }
    if first == 1 && last == 0 {
      assert elem != [] ==> 1 * Index(t, elem) + 0 == Index(t, elem);
      return true;
    }
    var parent := ParentNode(elem);
    if parent.None? {
      return false;
    }
    ParentInTree(t, elem);
    ghost var k := 0;
    var diff := 0;
    var node := FirstChild(t, parent.value);
    while node.Some?
      invariant k <= elem[|elem| - 1] && node == Some(parent.value + [k])
      invariant diff == Elements(t, parent.value, k)
      decreases |At(t, parent.value).children| - k
    {
      AtChild(t, parent.value, k);
      assert k == elem[|elem| - 1] ==> elem == node.value;
      if IsElement(t, node.value) {
        diff := diff + 1;
        if elem == node.value {
          break;
        }
      }
      NextChild(t, parent.value, k);
      node := NextSibling(t, node.value);
      k := k + 1;
    }
    assert diff == Index(t, elem);
    diff := diff - last;
    matches := diff == first || DividesUp(diff, first);
    SeriesDecided(first, last, Index(t, elem));
  }

  lemma NextChild(t: Tree, parent: Path, k: nat)
    requires InTree(t, parent) && k < |At(t, parent).children|
    ensures NextSibling(t, parent + [k]) == if k + 1 < |At(t, parent).children| then Some(parent + [k + 1]) else None
  {
    var child := parent + [k];
    assert child[..|child| - 1] == parent && child[|child| - 1] == k;
  }

  lemma SeriesDecided(a: int, b: int, index: int)
    ensures InSeries(a, b, index) <==> index - b == a || DividesUp(index - b, a)
  {
    if a != 0 {
      DividesUpExactly(index - b, a);
      if index - b == a {
        assert a * 1 + b == index;
      }
      if DividesUp(index - b, a) {
        var n: nat :| a * n == index - b;
        assert a * n + b == index;
      }
      if n: nat :| a * n + b == index {
        assert a * n == index - b;
      }
    } else {
      assert index == b ==> a * 0 + b == index;
    }
  }

  lemma IndexPositive(t: Tree, elem: Path)
    requires elem != [] && IsElement(t, elem)
    ensures Index(t, elem) >= 1
  {
    ParentInTree(t, elem);
  }

  datatype Edge = OnlyChild | FirstOfChildren | LastOfChildren

  /** How many element children there are. */
  function Siblings(t: Tree, elem: Path): nat
    requires elem != [] && InTree(t, elem)
  {
    ParentInTree(t, elem);
    var parent := elem[..|elem| - 1];
    Elements(t, parent, |At(t, parent).children|)
  }

  /** The closure for the other kinds, with its case that falls through. */
  method EdgeChild(t: Tree, elem: Path, kind: Edge) returns (matches: bool)
    requires IsElement(t, elem)
    ensures elem == [] ==> matches
    ensures elem != [] && kind.FirstOfChildren? ==> (matches <==> Index(t, elem) == 1)
    ensures elem != [] && kind.LastOfChildren? ==> (matches <==> Index(t, elem) == Siblings(t, elem))
    ensures elem != [] && kind.OnlyChild? ==> (matches <==> Index(t, elem) == 1 == Siblings(t, elem))
  {
    if elem == [] {
      return true;
    }
    IndexPositive(t, elem);
    ParentInTree(t, elem);
    ElementsClimb(t, elem[..|elem| - 1], elem[|elem| - 1] + 1, |At(t, elem[..|elem| - 1]).children|);
    if !kind.LastOfChildren? {
      matches := NoneBefore(t, elem);
      if !matches || kind.FirstOfChildren? {
        return;
      }
    }
    matches := NoneAfter(t, elem);
  }

  method NoneBefore(t: Tree, elem: Path) returns (none: bool)
    requires elem != [] && IsElement(t, elem)
    ensures none <==> Index(t, elem) == 1
  {
    ParentInTree(t, elem);
    ghost var parent, k := elem[..|elem| - 1], elem[|elem| - 1];
    var node := PreviousSibling(elem);
    while node.Some?
      invariant 0 <= k < |At(t, parent).children|
      invariant node == if k == 0 then None else Some(parent + [k - 1])
      invariant Elements(t, parent, elem[|elem| - 1]) == Elements(t, parent, k)
      decreases k
    {
      AtChild(t, parent, k - 1);
      if IsElement(t, node.value) {
        ElementsClimb(t, parent, k, elem[|elem| - 1]);
        return false;
      }
      assert node.value[..|parent|] == parent;
      node := PreviousSibling(node.value);
      k := k - 1;
    }
    none := true;
  }

  method NoneAfter(t: Tree, elem: Path) returns (none: bool)
    requires elem != [] && IsElement(t, elem)
    ensures none <==> Index(t, elem) == Siblings(t, elem)
  {
    ParentInTree(t, elem);
    ghost var parent, k := elem[..|elem| - 1], elem[|elem| - 1];
    ghost var n := |At(t, parent).children|;
    assert elem == parent + [k];
    NextChild(t, parent, k);
    var node := NextSibling(t, elem);
    while node.Some?
      invariant 0 <= k < n
      invariant node == if k + 1 < n then Some(parent + [k + 1]) else None
      invariant Index(t, elem) == Elements(t, parent, k + 1)
      decreases n - k
    {
      var next := parent + [k + 1];
      AtChild(t, parent, k + 1);
      assert IsElement(t, next) == At(t, parent).children[k + 1].isElement;
      if IsElement(t, node.value) {
        ElementsClimb(t, parent, k + 2, n);
        return false;
      }
      NextChild(t, parent, k + 1);
      node := NextSibling(t, node.value);
      k := k + 1;
    }
    none := true;
  }

  lemma {:induction false} ElementsClimb(t: Tree, parent: Path, j: nat, k: nat)
    requires InTree(t, parent) && j <= k <= |At(t, parent).children|
    ensures Elements(t, parent, j) <= Elements(t, parent, k)
    decreases k
  {
    if j < k {
      ElementsClimb(t, parent, j, k - 1);
    }
  }
}
