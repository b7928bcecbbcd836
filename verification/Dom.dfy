/**
 The document seen by the selector engine.  A node is named by its path from the root: the
 sequence of child positions that leads to it.  The pointer properties of a DOM node
 (`parentNode`, `previousSibling`, `nextSibling`, `firstChild`) are functions on paths.
 */
module Dom {
  datatype Option<+T> = None | Some(value: T)

  /** `isElement` is `nodeType === 1`; text, comment, document and fragment nodes have it false. */
  datatype Tree = Tree(isElement: bool, children: seq<Tree>)

  type Path = seq<nat>

  predicate InTree(t: Tree, p: Path)
    decreases |p|
  {
    p == [] || (p[0] < |t.children| && InTree(t.children[p[0]], p[1..]))
  }

  function At(t: Tree, p: Path): Tree
    requires InTree(t, p)
    decreases |p|
  {
    if p == [] then t else At(t.children[p[0]], p[1..])
  }

  /** Only elements and the root (a document or a fragment) have children. */
  predicate WellShaped(t: Tree) {
    forall c :: c in t.children ==> (c.children == [] || c.isElement) && WellShaped(c)
  }

  predicate IsElement(t: Tree, p: Path) {
    InTree(t, p) && At(t, p).isElement
  }

  function ParentNode(p: Path): (r: Option<Path>) {
    if p == [] then None else Some(p[..|p| - 1])
  }

  function PreviousSibling(p: Path): (r: Option<Path>) {
    if p == [] || p[|p| - 1] == 0 then None else Some(p[..|p| - 1] + [p[|p| - 1] - 1])
  }

  function FirstChild(t: Tree, p: Path): (r: Option<Path>)
    ensures r.Some? ==> InTree(t, r.value)
  {
    if InTree(t, p) && |At(t, p).children| > 0 then
      AtChild(t, p, 0);
      Some(p + [0])
    else None
  }

  function NextSibling(t: Tree, p: Path): (r: Option<Path>)
    ensures r.Some? ==> InTree(t, r.value)
  {
    if p == [] then None
    else
      var parent, k := p[..|p| - 1], p[|p| - 1];
      if InTree(t, parent) && k + 1 < |At(t, parent).children| then
        AtChild(t, parent, k + 1);
        Some(parent + [k + 1])
      else None
  }

  /** Strictly smaller at the parent and at the previous sibling: every walk ends. */
  function Rank(p: Path): nat
    decreases |p|
  {
    if p == [] then 0 else Rank(p[..|p| - 1]) + p[|p| - 1] + 1
  }

  lemma RankFalls(p: Path)
    ensures ParentNode(p).Some? ==> Rank(ParentNode(p).value) < Rank(p)
    ensures PreviousSibling(p).Some? ==> Rank(PreviousSibling(p).value) < Rank(p)
  {
    if PreviousSibling(p).Some? {
      var q := PreviousSibling(p).value;
      assert q[..|q| - 1] == p[..|p| - 1];
    }
  }

  datatype Dir = ParentDir | PreviousDir

  /** `elem[ dir ]` */
  function Follow(p: Path, d: Dir): (q: Option<Path>)
    ensures q.Some? ==> Rank(q.value) < Rank(p)
  {
    RankFalls(p);
    if d == ParentDir then ParentNode(p) else PreviousSibling(p)
  }

  /** A node exists exactly when its parent does and has enough children. */
  lemma {:induction false} AtChild(t: Tree, p: Path, k: nat)
    ensures InTree(t, p + [k]) <==> InTree(t, p) && k < |At(t, p).children|
    ensures InTree(t, p + [k]) ==> At(t, p + [k]) == At(t, p).children[k]
    decreases |p|
  {
    var q := p + [k];
    if p == [] {
      assert q[1..] == [];
    } else {
      assert q[1..] == p[1..] + [k];
      if p[0] < |t.children| {
        AtChild(t.children[p[0]], p[1..], k);
      }
    }
  }

  lemma ParentInTree(t: Tree, p: Path)
    requires p != []
    ensures InTree(t, p) <==> InTree(t, p[..|p| - 1]) && p[|p| - 1] < |At(t, p[..|p| - 1]).children|
    ensures InTree(t, p) ==> At(t, p) == At(t, p[..|p| - 1]).children[p[|p| - 1]]
  {
    assert p == p[..|p| - 1] + [p[|p| - 1]];
    AtChild(t, p[..|p| - 1], p[|p| - 1]);
  }

  /** Every ancestor of a node is in the tree, and all but the root are elements. */
  lemma {:induction false} AncestorsAreElements(t: Tree, p: Path, k: nat)
    requires WellShaped(t) && InTree(t, p) && 0 < k < |p|
    ensures IsElement(t, p[..k])
    decreases |p|
  {
    var c := t.children[p[0]];
    if k == 1 {
      assert p[..1] == [p[0]] && p[..1][1..] == [];
      assert c.children != [];
    } else {
      AncestorsAreElements(c, p[1..], k - 1);
      assert p[..k][1..] == p[1..][..k - 1];
    }
  }
}
