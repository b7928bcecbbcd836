/**
 `sortOrder` without `compareDocumentPosition`, and `uniqueSort`.  A node is a path in one of several
 trees, since the comparator is also asked about nodes that are not connected.
 */
module DocumentOrder {
  import opened Dom

  datatype Node = Node(root: nat, path: Path)

  type Forest = seq<Tree>

  predicate InForest(f: Forest, a: Node) {
    a.root < |f| && InTree(f[a.root], a.path)
  }

  function Parent(a: Node): Option<Node> {
    var p := ParentNode(a.path);
    if p.Some? then Some(Node(a.root, p.value)) else None
  }

  function Next(f: Forest, a: Node): Option<Node>
    requires a.root < |f|
  {
    var p := NextSibling(f[a.root], a.path);
    if p.Some? then Some(Node(a.root, p.value)) else None
  }

  // ----- document order -----

  /** The nodes of a tree in preorder. */
  function Preorder(t: Tree): seq<Path>
    decreases t
  {
    [[]] + PreorderKids(t, 0)
  }

  function PreorderKids(t: Tree, k: nat): seq<Path>
    requires k <= |t.children|
    decreases t, |t.children| - k
  {
    if k == |t.children| then [] else Below(k, Preorder(t.children[k])) + PreorderKids(t, k + 1)
  }

  function Below(k: nat, ps: seq<Path>): (r: seq<Path>)
    ensures |r| == |ps| && forall i :: 0 <= i < |r| ==> r[i] == [k] + ps[i]
  {
    seq(|ps|, i requires 0 <= i < |ps| => [k] + ps[i])
  }

  /** A proper ancestor comes first; otherwise the first difference decides. */
  predicate Before(p: Path, q: Path)
    decreases |p|
  {
    q != [] && (p == [] || p[0] < q[0] || (p[0] == q[0] && Before(p[1..], q[1..])))
  }

  /** The preorder list climbs in the order `Before` ... */
  lemma {:induction false} PreorderClimbs(t: Tree)
    ensures forall i, j :: 0 <= i < j < |Preorder(t)| ==> Before(Preorder(t)[i], Preorder(t)[j])
    decreases t
  {
    KidsClimb(t, 0);
  }

  lemma {:induction false} KidsClimb(t: Tree, k: nat)
    requires k <= |t.children|
    ensures forall i :: 0 <= i < |PreorderKids(t, k)| ==> PreorderKids(t, k)[i] != [] && PreorderKids(t, k)[i][0] >= k
    ensures forall i, j :: 0 <= i < j < |PreorderKids(t, k)| ==> Before(PreorderKids(t, k)[i], PreorderKids(t, k)[j])
    decreases t, |t.children| - k
  {
    if k < |t.children| {
      var ps := Preorder(t.children[k]);
      PreorderClimbs(t.children[k]);
      KidsClimb(t, k + 1);
      forall i, j | 0 <= i < j < |ps| ensures Before(Below(k, ps)[i], Below(k, ps)[j]) {
        assert ([k] + ps[i])[1..] == ps[i] && ([k] + ps[j])[1..] == ps[j];
      }
    }
  }

  /** ... and it lists exactly the nodes of the tree. */
  lemma {:induction false} PreorderLists(t: Tree, p: Path)
    ensures p in Preorder(t) <==> InTree(t, p)
    decreases t
  {
    KidsList(t, 0, p);
  }

  lemma {:induction false} KidsList(t: Tree, k: nat, p: Path)
    requires k <= |t.children|
    ensures p in PreorderKids(t, k) <==> p != [] && p[0] >= k && InTree(t, p)
    decreases t, |t.children| - k
  {
    if k < |t.children| {
      var ps := Preorder(t.children[k]);
      KidsList(t, k + 1, p);
      if p != [] {
        PreorderLists(t.children[k], p[1..]);
        assert p == [p[0]] + p[1..];
        if p in Below(k, ps) {
          var i :| 0 <= i < |ps| && Below(k, ps)[i] == p;
          assert p[1..] == ps[i];
        }
        if p[0] == k && p[1..] in ps {
          var i :| 0 <= i < |ps| && ps[i] == p[1..];
          assert Below(k, ps)[i] == p;
        }
      }
    }
  }

  lemma {:induction false} BeforeOrder(p: Path, q: Path)
    ensures !(Before(p, q) && Before(q, p))
    ensures p != q ==> Before(p, q) || Before(q, p)
    ensures !Before(p, p)
    decreases |p|
  {
    if p != [] && q != [] && p[0] == q[0] {
      BeforeOrder(p[1..], q[1..]);
      assert p == [p[0]] + p[1..] && q == [q[0]] + q[1..];
    }
    if p != [] {
      BeforeOrder(p[1..], p[1..]);
    }
  }

  // ----- the comparator -----

  /** What the comparator answers. */
  function Compare(a: Node, b: Node): int {
    if a == b then 0
    else if a.root == b.root then if Before(a.path, b.path) then -1 else 1
    else if a.path == [] && b.path != [] then -1
    else 1
  }

  /** `b` is a sibling somewhere after `a`. */
  predicate LaterSibling(a: Node, b: Node) {
    a.root == b.root && a.path != [] && |a.path| == |b.path| &&
    a.path[..|a.path| - 1] == b.path[..|b.path| - 1] && a.path[|a.path| - 1] < b.path[|b.path| - 1]
  }

  /** The next sibling is the node at the next place, if there is one. */
  lemma NextIs(f: Forest, a: Node)
    requires InForest(f, a) && a.path != []
    ensures var parent, k := a.path[..|a.path| - 1], a.path[|a.path| - 1];
            InTree(f[a.root], parent) &&
            Next(f, a) == if k + 1 < |At(f[a.root], parent).children| then Some(Node(a.root, parent + [k + 1]))
                else None
  {
    ParentInTree(f[a.root], a.path);
  }

  lemma NextSteps(f: Forest, a: Node, b: Node)
    requires InForest(f, a) && InForest(f, b)
    ensures LaterSibling(a, b) <==> Next(f, a).Some? && (b == Next(f, a).value || LaterSibling(Next(f, a).value, b))
  {
    if a.path != [] {
      NextIs(f, a);
      var parent, k := a.path[..|a.path| - 1], a.path[|a.path| - 1];
      var n := Node(a.root, parent + [k + 1]);
      assert n.path[..|n.path| - 1] == parent;
      if LaterSibling(a, b) {
        ParentInTree(f[a.root], b.path);
        assert b.path == parent + [b.path[|b.path| - 1]];
      }
    }
  }

  method SiblingCheck(f: Forest, a: Node, b: Node, ret: int) returns (r: int)
    requires InForest(f, a) && InForest(f, b)
    ensures r == if a == b then ret else if LaterSibling(a, b) then -1 else 1
  {
    if a == b {
      return ret;
    }
    NextSteps(f, a, b);
    var cur := Next(f, a);
    while cur.Some?
      invariant cur.Some? ==> InForest(f, cur.value) && cur.value.root == a.root && cur.value.path != []
      invariant LaterSibling(a, b) <==> cur.Some? && (cur.value == b || LaterSibling(cur.value, b))
      decreases if cur.Some? then Room(f, cur.value) else 0
    {
      if cur.value == b {
        return -1;
      }
      NextSteps(f, cur.value, b);
      if Next(f, cur.value).Some? {
        RoomShrinks(f, cur.value);
      }
      cur := Next(f, cur.value);
    }
    return 1;
  }

  /** How many siblings follow. */
  ghost function Room(f: Forest, a: Node): (r: int)
    requires InForest(f, a) && a.path != []
    ensures r > 0
  {
    ParentInTree(f[a.root], a.path);
    |At(f[a.root], a.path[..|a.path| - 1]).children| - a.path[|a.path| - 1]
  }

  lemma RoomShrinks(f: Forest, a: Node)
    requires InForest(f, a) && a.path != [] && Next(f, a).Some?
    ensures InForest(f, Next(f, a).value) && 0 <= Room(f, Next(f, a).value) < Room(f, a)
  {
    var n := Next(f, a).value;
    ParentInTree(f[a.root], n.path);
    assert n.path[..|n.path| - 1] == a.path[..|a.path| - 1];
  }

  /** The chain of ancestors built by `unshift`: from the root down to the parent. */
  function Ancestors(a: Node): (r: seq<Node>)
    ensures |r| == |a.path| && forall i :: 0 <= i < |r| ==> r[i] == Node(a.root, a.path[..i])
  {
    seq(|a.path|, i requires 0 <= i < |a.path| => Node(a.root, a.path[..i]))
  }

  method Chain(a: Node) returns (chain: seq<Node>)
    ensures chain == Ancestors(a)
  {
    chain := [];
    var cur := Parent(a);
    ghost var n := |a.path|;
    while cur.Some?
      invariant 0 <= n <= |a.path| && chain == Ancestors(a)[n..]
      invariant cur == if n == 0 then None else Some(Node(a.root, a.path[..n - 1]))
      decreases n
    {
      chain := [cur.value] + chain;
      assert n > 1 ==> a.path[..n - 1][..n - 2] == a.path[..n - 2];
      cur := Parent(cur.value);
      n := n - 1;
    }
  }

  lemma {:induction false} BeforePrefix(p: Path, q: Path, n: nat)
    requires n <= |p| && n <= |q| && p[..n] == q[..n]
    ensures Before(p, q) <==> Before(p[n..], q[n..])
    decreases n
  {
    if n > 0 {
      assert p[0] == p[..n][0] == q[..n][0] == q[0];
      assert p[1..][..n - 1] == p[..n][1..] == q[..n][1..] == q[1..][..n - 1];
      BeforePrefix(p[1..], q[1..], n - 1);
      assert p[1..][n - 1..] == p[n..] && q[1..][n - 1..] == q[n..];
    } else {
      assert p[0..] == p && q[0..] == q;
    }
  }

  /** The first difference of two ancestor chains decides. */
  lemma Diverges(f: Forest, a: Node, b: Node, i: nat)
    requires a.root == b.root && 0 < i <= |a.path| && i <= |b.path|
    requires a.path[..i - 1] == b.path[..i - 1] && a.path[..i] != b.path[..i]
    ensures LaterSibling(Node(a.root, a.path[..i]), Node(b.root, b.path[..i])) <==> Before(a.path, b.path)
  {
    assert a.path[..i] == a.path[..i - 1] + [a.path[i - 1]];
    assert b.path[..i] == b.path[..i - 1] + [b.path[i - 1]];
    BeforePrefix(a.path, b.path, i - 1);
  }

  lemma {:induction false} PrefixInTree(t: Tree, p: Path, n: nat)
    requires InTree(t, p) && n <= |p|
    ensures InTree(t, p[..n])
    decreases |p|
  {
    if n > 0 {
      PrefixInTree(t.children[p[0]], p[1..], n - 1);
      assert p[..n][1..] == p[1..][..n - 1];
    }
  }

  lemma PrefixBefore(p: Path, q: Path)
    requires p < q
    ensures Before(p, q)
  {
    BeforePrefix(p, q, |p|);
    assert p[|p|..] == [];
  }

  class Sorter {
    var hasDuplicate: bool

    method SortOrder(f: Forest, a: Node, b: Node) returns (r: int)
      requires InForest(f, a) && InForest(f, b)
      modifies this
      ensures r == Compare(a, b)
      ensures hasDuplicate == (old(hasDuplicate) || a == b)
    {
      if a == b {
        hasDuplicate := true;
        return 0;
      }
      var aup, bup := Parent(a), Parent(b);
      if aup == bup {
        r := SiblingCheck(f, a, b, 0);
        if a.path != [] {
          Siblings(a, b);
        }
        return r;
      } else if aup.None? {
        return -1;
      } else if bup.None? {
        return 1;
      }
      var ap := Chain(a);
      var bp := Chain(b);
      var al, bl := |ap|, |bp|;
      var i := 0;
      while i < al && i < bl
        invariant 0 <= i <= al && i <= bl
        invariant forall k :: 0 <= k < i ==> ap[k] == bp[k]
      {
        if ap[i] != bp[i] {
          PrefixInTree(f[a.root], a.path, i);
          PrefixInTree(f[b.root], b.path, i);
          r := SiblingCheck(f, ap[i], bp[i], 0);
          if i > 0 {
            assert ap[i - 1] == bp[i - 1];
            Diverges(f, a, b, i);
          }
          return r;
        }
        i := i + 1;
      }
      assert ap[i - 1] == bp[i - 1];
      r := AtEnd(f, a, b, ap, bp, i);
    }

    /** One chain is a part of the other. */
    method AtEnd(f: Forest, a: Node, b: Node, ap: seq<Node>, bp: seq<Node>, i: nat) returns (r: int)
      requires InForest(f, a) && InForest(f, b) && a != b && a.root == b.root && Parent(a) != Parent(b)
      requires ap == Ancestors(a) && bp == Ancestors(b)
      requires 0 < i <= |ap| && i <= |bp| && (i == |ap| || i == |bp|) && a.path[..i - 1] == b.path[..i - 1]
      ensures r == Compare(a, b)
    {
      if i == |ap| {
        PrefixInTree(f[b.root], b.path, i);
        assert a.path[..i] == a.path;
        assert i < |bp|;
        r := SiblingCheck(f, a, bp[i], -1);
        if a == bp[i] {
          PrefixBefore(a.path, b.path);
        } else {
          Diverges(f, a, b, i);
        }
      } else {
        PrefixInTree(f[a.root], a.path, i);
        assert b.path[..i] == b.path;
        r := SiblingCheck(f, ap[i], b, 1);
        BeforeOrder(a.path, b.path);
        if ap[i] == b {
          PrefixBefore(b.path, a.path);
        } else {
          Diverges(f, a, b, i);
        }
      }
    }
  }

  lemma Siblings(a: Node, b: Node)
    requires a != b && a.path != [] && Parent(a) == Parent(b)
    ensures LaterSibling(a, b) <==> Before(a.path, b.path)
  {
    var n := |a.path|;
    assert a.path == a.path[..n - 1] + [a.path[n - 1]] && b.path == b.path[..n - 1] + [b.path[n - 1]];
    BeforePrefix(a.path, b.path, n - 1);
  }

  // ----- the order -----

  /** On one tree the comparator is the preorder: node number `i` against node number `j`. */
  lemma CompareIsPreorder(t: Tree, root: nat, i: nat, j: nat)
    requires i < |Preorder(t)| && j < |Preorder(t)|
    ensures Compare(Node(root, Preorder(t)[i]), Node(root, Preorder(t)[j])) ==
            if i < j then -1 else if i == j then 0 else 1
  {
    PreorderClimbs(t);
    BeforeOrder(Preorder(t)[i], Preorder(t)[j]);
    BeforeOrder(Preorder(t)[i], Preorder(t)[i]);
  }

  /** Of nodes that are not connected the comparator is antisymmetric exactly when one of the two, and
      only one, is a root: otherwise it calls each of them greater than the other. */
  lemma AntisymmetricExactly(a: Node, b: Node)
    ensures Compare(a, b) == -Compare(b, a) <==> a.root == b.root || (a.path == []) != (b.path == [])
  {
    BeforeOrder(a.path, b.path);
  }

  // ----- uniqueSort -----

  /** `s` without the entries that equal the one before them, from index `k` on. */
  function Deduped(s: seq<Node>, k: nat): seq<Node>
    requires k <= |s|
    decreases |s| - k
  {
    if k == |s| then []
    else if k > 0 && s[k] == s[k - 1] then Deduped(s, k + 1)
    else [s[k]] + Deduped(s, k + 1)
  }

  predicate Repeats(s: seq<Node>, k: int) {
    0 < k < |s| && s[k] == s[k - 1]
  }

  lemma {:induction false} NoRepeats(s: seq<Node>, m: nat, n: nat)
    requires m <= n <= |s| && forall k :: m <= k < n ==> !Repeats(s, k)
    ensures s[..m] + Deduped(s, m) == s[..n] + Deduped(s, n)
    decreases n - m
  {
    if m < n {
      NoRepeats(s, m + 1, n);
      assert !Repeats(s, m);
      assert s[..m + 1] == s[..m] + [s[m]];
      assert s[..m] + ([s[m]] + Deduped(s, m + 1)) == s[..m + 1] + Deduped(s, m + 1);
    }
  }

  /** A climbing list of exactly the indices whose entry equals the one before. */
  ghost predicate ListsRepeats(s: seq<Node>, duplicates: seq<nat>, n: int) {
    (forall k :: 0 <= k < |duplicates| ==> Repeats(s, duplicates[k]) && duplicates[k] < n) &&
    (forall k, l :: 0 <= k < l < |duplicates| ==> duplicates[k] < duplicates[l]) &&
    (forall k :: 0 < k < n && Repeats(s, k) ==> k in duplicates)
  }

  method FindDuplicates(results: seq<Node>) returns (duplicates: seq<nat>)
    ensures ListsRepeats(results, duplicates, |results|)
  {
    duplicates := [];
    var i := 1;
    while i < |results|
      invariant 1 <= i && (i <= |results| || results == [])
      invariant ListsRepeats(results, duplicates, i)
    {
      if results[i] == results[i - 1] {
        duplicates := duplicates + [i];
      }
      i := i + 1;
    }
  }

  lemma BetweenRepeats(s: seq<Node>, duplicates: seq<nat>, j: nat)
    requires ListsRepeats(s, duplicates, |s|) && j <= |duplicates|
    ensures var lo, hi := if j == 0 then 0 else duplicates[j - 1] + 1, if j == |duplicates| then |s| else duplicates[j];
            lo <= hi <= |s| && forall k :: lo <= k < hi ==> !Repeats(s, k)
  {
    var lo, hi := if j == 0 then 0 else duplicates[j - 1] + 1, if j == |duplicates| then |s| else duplicates[j];
    forall k | lo <= k < hi ensures !Repeats(s, k) {
      assert forall l :: 0 <= l < |duplicates| ==> duplicates[l] != k;
    }
  }

  /** The two loops of `uniqueSort`, on the array as the native `sort` left it. */
  method RemoveDuplicates(sorted: seq<Node>) returns (results: seq<Node>)
    ensures results == Deduped(sorted, 0)
  {
    results := sorted;
    var duplicates := FindDuplicates(results);
    var j := |duplicates|;
    ghost var m := |sorted|;
    assert sorted[..m] == sorted;
    while j > 0
      invariant 0 <= j <= |duplicates|
      invariant m == if j == |duplicates| then |sorted| else duplicates[j]
      invariant m <= |sorted| && results == sorted[..m] + Deduped(sorted, m)
    {
      BetweenRepeats(sorted, duplicates, j);
      j := j - 1;
      var d := duplicates[j];
      NoRepeats(sorted, d + 1, m);
      results := CutAt(sorted, results, d);
      m := d;
    }
    BetweenRepeats(sorted, duplicates, 0);
    NoRepeats(sorted, 0, m);
  }

  method CutAt(ghost sorted: seq<Node>, results: seq<Node>, d: nat) returns (r: seq<Node>)
    requires Repeats(sorted, d) && results == sorted[..d + 1] + Deduped(sorted, d + 1)
    ensures r == sorted[..d] + Deduped(sorted, d)
  {
    r := results[..d] + results[d + 1..];
    assert r == sorted[..d] + Deduped(sorted, d + 1);
  }

  // ----- what uniqueSort returns -----

  ghost predicate OneTree(t: Tree, root: nat, s: seq<Node>) {
    forall k :: 0 <= k < |s| ==> s[k].root == root && InTree(t, s[k].path)
  }

  ghost predicate Ordered(s: seq<Node>) {
    forall i, j :: 0 <= i < j < |s| ==> Compare(s[i], s[j]) <= 0
  }

  ghost predicate StrictlyOrdered(s: seq<Node>) {
    forall i, j :: 0 <= i < j < |s| ==> Compare(s[i], s[j]) < 0
  }

  lemma {:induction false} DedupedKeeps(s: seq<Node>, k: nat, x: Node)
    requires k <= |s|
    ensures x in Deduped(s, k) ==> x in s[k..]
    ensures x in s[k..] ==> x in Deduped(s, k) || (k > 0 && x == s[k - 1])
    decreases |s| - k
  {
    if k < |s| {
      DedupedKeeps(s, k + 1, x);
      assert s[k..] == [s[k]] + s[k + 1..];
    }
  }

  /** Ordered lists have equal entries side by side, so what is left is strictly ordered. */
  lemma {:induction false} DedupedStrict(s: seq<Node>, k: nat)
    requires k <= |s| && Ordered(s) && forall i, j :: 0 <= i < |s| && 0 <= j < |s| ==> s[i].root == s[j].root
    ensures StrictlyOrdered(Deduped(s, k))
    ensures k > 0 ==> forall i :: 0 <= i < |Deduped(s, k)| ==> Compare(s[k - 1], Deduped(s, k)[i]) < 0
    decreases |s| - k
  {
    if k < |s| {
      DedupedStrict(s, k + 1);
      var d := Deduped(s, k);
      if k > 0 && s[k] != s[k - 1] {
        assert Compare(s[k - 1], s[k]) < 0;
        forall i | 0 <= i < |d| ensures Compare(s[k - 1], d[i]) < 0 {
          if i > 0 {
            assert d[i] == Deduped(s, k + 1)[i - 1];
            DedupedKeeps(s, k + 1, d[i]);
            assert d[i] in s;
            BeforeTransitive(s[k - 1].path, s[k].path, d[i].path);
            BeforeOrder(s[k - 1].path, d[i].path);
          }
        }
      }
    }
  }

  lemma {:induction false} BeforeTransitive(p: Path, q: Path, r: Path)
    requires Before(p, q) && Before(q, r)
    ensures Before(p, r)
    decreases |p|
  {
    if p != [] && p[0] == q[0] == r[0] {
      BeforeTransitive(p[1..], q[1..], r[1..]);
    }
  }

  /** `uniqueSort`.  `sorted` is what the native `sort` made of the results with this comparator, and
      `hasDuplicate` what it left: set if it was set, or if equal nodes were compared. */
  method UniqueSort(t: Tree, root: nat, results: seq<Node>, sorted: seq<Node>, hasDuplicate: bool)
    returns (unique: seq<Node>)
    requires OneTree(t, root, results)
    requires multiset(sorted) == multiset(results) && Ordered(sorted)
    requires !hasDuplicate ==> forall i, j :: 0 <= i < j < |sorted| ==> sorted[i] != sorted[j]
    ensures StrictlyOrdered(unique)
    ensures forall x :: x in unique <==> x in results
  {
    assert forall x :: x in sorted <==> x in multiset(sorted);
    assert forall x :: x in results <==> x in multiset(results);
    unique := sorted;
    if hasDuplicate {
      unique := RemoveDuplicates(sorted);
      forall i | 0 <= i < |sorted| ensures sorted[i].root == root {
        assert sorted[i] in results;
      }
      DedupedStrict(sorted, 0);
      assert sorted[0..] == sorted;
      forall x ensures x in unique <==> x in sorted {
        DedupedKeeps(sorted, 0, x);
      }
    }
  }
}
