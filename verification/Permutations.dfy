/**
 The permutation generator of the account tests: `partial` holds the permutations of a prefix, and
 every one of them is replaced, from the last to the first, by its extensions with the next character.
 */
module Permutations {

  /** `x` put in at position `k`. */
  function Insert(s: string, x: char, k: nat): (r: string)
    requires k <= |s|
    ensures |r| == |s| + 1
    ensures multiset(r) == multiset(s) + multiset{x}
  {
    assert s == s[..k] + s[k..];
    s[..k] + [x] + s[k..]
  }

  /** All extensions of one string, from the front to the back. */
  function Extensions(s: string, x: char, n: nat): (r: seq<string>)
    requires n <= |s| + 1
    ensures |r| == n && forall k :: 0 <= k < n ==> r[k] == Insert(s, x, k)
  {
    seq(n, k requires 0 <= k < n => Insert(s, x, k))
  }

  /** The list after the entries from `j` on were extended, the last one first. */
  function Extended(ss: seq<string>, x: char, j: nat): seq<string>
    requires j <= |ss|
    decreases |ss| - j
  {
    if j == |ss| then [] else Extended(ss, x, j + 1) + Extensions(ss[j], x, |ss[j]| + 1)
  }

  /** What the generator holds after `n` characters. */
  function Perms(s: string, n: nat): seq<string>
    requires 1 <= n <= |s|
  {
    if n == 1 then [s[..1]] else Extended(Perms(s, n - 1), s[n - 1], 0)
  }

  method Permutations(s: string) returns (partial: seq<string>)
    requires s != ""
    ensures partial == Perms(s, |s|)
  {
    partial := [[s[0]]];
    assert s[..1] == [s[0]];
    for i := 1 to |s|
      invariant partial == Perms(s, i)
    {
      partial := ExtendAll(partial, s[i]);
    }
  }

  /** The middle loop, backwards over the list that was there. */
  method ExtendAll(before: seq<string>, x: char) returns (partial: seq<string>)
    ensures partial == Extended(before, x, 0)
  {
    partial := before;
    var j := |partial| - 1;
    assert before[..|before|] == before;
    while j >= 0
      invariant -1 <= j < |before|
      invariant partial == before[..j + 1] + Extended(before, x, j + 1)
    {
      partial := ExtendAt(before, x, j, partial);
      j := j - 1;
    }
    assert before[..0] == [];
  }

  /** The inner loop: the entry is taken out and its extensions are put at the end. */
  method ExtendAt(ghost before: seq<string>, x: char, j: nat, list: seq<string>) returns (partial: seq<string>)
    requires j < |before| && list == before[..j + 1] + Extended(before, x, j + 1)
    ensures partial == before[..j] + Extended(before, x, j)
  {
    var str := list[j];
    partial := list[..j] + list[j + 1..];
    ghost var rest := before[..j] + Extended(before, x, j + 1);
    assert str == before[j] && partial == rest;
    var k := 0;
    while k <= |str|
      invariant 0 <= k <= |str| + 1
      invariant partial == rest + Extensions(str, x, k)
    {
      partial := partial + [str[..k] + [x] + str[k..]];
      assert Extensions(str, x, k + 1) == Extensions(str, x, k) + [Insert(str, x, k)];
      k := k + 1;
    }
    assert rest + Extensions(str, x, |str| + 1) ==
        before[..j] + (Extended(before, x, j + 1) + Extensions(str, x, |str| + 1));
  }

  // ----- counting -----

  function Factorial(n: nat): nat {
    if n == 0 then 1 else n * Factorial(n - 1)
  }

  lemma {:induction false} ExtendedLength(ss: seq<string>, x: char, j: nat, n: nat)
    requires j <= |ss| && forall i :: 0 <= i < |ss| ==> |ss[i]| + 1 == n
    ensures |Extended(ss, x, j)| == n * (|ss| - j)
    decreases |ss| - j
  {
    if j < |ss| {
      ExtendedLength(ss, x, j + 1, n);
      assert n * (|ss| - j) == n * (|ss| - (j + 1)) + n;
    }
  }

  lemma PermsLength(s: string, n: nat)
    requires 1 <= n <= |s|
    ensures forall i :: 0 <= i < |Perms(s, n)| ==> |Perms(s, n)[i]| == n
  {
    var ss := Perms(s, n);
    forall i | 0 <= i < |ss| ensures |ss[i]| == n {
      PermsRearrange(s, n, ss[i]);
      assert |multiset(ss[i])| == |multiset(s[..n])|;
    }
  }

  /** There are `n!` of them. */
  lemma {:induction false} PermsCount(s: string, n: nat)
    requires 1 <= n <= |s|
    ensures |Perms(s, n)| == Factorial(n)
    decreases n
  {
    if n == 1 {
      assert Factorial(1) == 1 * Factorial(0);
    } else {
      var ss := Perms(s, n - 1);
      PermsCount(s, n - 1);
      PermsLength(s, n - 1);
      ExtendedLength(ss, s[n - 1], 0, n);
      assert |Extended(ss, s[n - 1], 0)| == n * Factorial(n - 1);
    }
  }

  // ----- membership -----

  ghost predicate IsExtension(r: string, ss: seq<string>, x: char, j: nat) {
    exists i, k :: j <= i < |ss| && 0 <= k <= |ss[i]| && r == Insert(ss[i], x, k)
  }

  lemma {:induction false} ExtendedMembers(ss: seq<string>, x: char, j: nat, r: string)
    requires j <= |ss|
    ensures r in Extended(ss, x, j) <==> IsExtension(r, ss, x, j)
    decreases |ss| - j
  {
    if j < |ss| {
      ExtendedMembers(ss, x, j + 1, r);
      var es := Extensions(ss[j], x, |ss[j]| + 1);
      if r in es {
        var k :| 0 <= k < |es| && es[k] == r;
        assert r == Insert(ss[j], x, k);
      }
      if i, k :| j <= i < |ss| && 0 <= k <= |ss[i]| && r == Insert(ss[i], x, k) {
        if i == j {
          assert es[k] == r;
        } else {
          assert IsExtension(r, ss, x, j + 1);
        }
      }
    }
  }

  /** Taking out an occurrence of the last character leaves a rearrangement of the shorter prefix. */
  lemma TakeOut(s: string, n: nat, r: string) returns (k: nat, shorter: string)
    requires 1 < n <= |s| && multiset(r) == multiset(s[..n])
    ensures k <= |shorter| && r == Insert(shorter, s[n - 1], k)
    ensures multiset(shorter) == multiset(s[..n - 1])
  {
    var x := s[n - 1];
    PrefixGrows(s, n);
    assert x in multiset(r);
    k :| 0 <= k < |r| && r[k] == x;
    shorter := r[..k] + r[k + 1..];
    assert r == r[..k] + [x] + r[k + 1..];
    assert shorter[..k] == r[..k] && shorter[k..] == r[k + 1..];
    assert multiset(r) == multiset(shorter) + multiset{x};
    assert multiset(shorter) == multiset(r) - multiset{x};
  }

  lemma {:induction false} PermsRearrange(s: string, n: nat, r: string)
    requires 1 <= n <= |s| && r in Perms(s, n)
    ensures multiset(r) == multiset(s[..n])
    decreases n
  {
    if n > 1 {
      var ss, x := Perms(s, n - 1), s[n - 1];
      ExtendedMembers(ss, x, 0, r);
      var i, k :| 0 <= i < |ss| && 0 <= k <= |ss[i]| && r == Insert(ss[i], x, k);
      assert ss[i] in ss;
      PermsRearrange(s, n - 1, ss[i]);
      PrefixGrows(s, n);
    }
  }

  lemma PrefixGrows(s: string, n: nat)
    requires 1 <= n <= |s|
    ensures multiset(s[..n]) == multiset(s[..n - 1]) + multiset{s[n - 1]}
  {
    assert s[..n] == s[..n - 1] + [s[n - 1]];
  }

  lemma {:induction false} PermsComplete(s: string, n: nat, r: string)
    requires 1 <= n <= |s| && multiset(r) == multiset(s[..n])
    ensures r in Perms(s, n)
    decreases n
  {
    if n == 1 {
      assert |r| == |multiset(r)| == |multiset(s[..1])| == 1;
      assert r[0] in multiset(r);
      assert r == s[..1];
    } else {
      var ss, x := Perms(s, n - 1), s[n - 1];
      var k, shorter := TakeOut(s, n, r);
      PermsComplete(s, n - 1, shorter);
      var i :| 0 <= i < |ss| && ss[i] == shorter;
      assert IsExtension(r, ss, x, 0);
      ExtendedMembers(ss, x, 0, r);
    }
  }

  /** The generated strings are exactly the rearrangements of the prefix. */
  lemma PermsAreRearrangements(s: string, n: nat, r: string)
    requires 1 <= n <= |s|
    ensures r in Perms(s, n) <==> multiset(r) == multiset(s[..n])
  {
    if r in Perms(s, n) {
      PermsRearrange(s, n, r);
    }
    if multiset(r) == multiset(s[..n]) {
      PermsComplete(s, n, r);
    }
  }

  // ----- no repetition -----

  ghost predicate Distinct<T(!new)>(s: seq<T>) {
    forall i, j :: 0 <= i < j < |s| ==> s[i] != s[j]
  }

  /** A character that is new can be put in at one place of one string only, to give a certain string. */
  lemma InsertOnce(a: string, b: string, x: char, k: nat, l: nat)
    requires k <= |a| && l <= |b| && x !in a && x !in b && Insert(a, x, k) == Insert(b, x, l)
    ensures k == l && a == b
  {
    var r := Insert(a, x, k);
    assert r[k] == x && r[l] == x;
    assert forall i :: 0 <= i < |r| && i != k ==> r[i] == a[if i < k then i else i - 1];
    assert forall i :: 0 <= i < |r| && i != l ==> r[i] == b[if i < l then i else i - 1];
    assert k == l;
    forall i | 0 <= i < |a| ensures a[i] == b[i] {
      assert r[if i < k then i else i + 1] == a[i];
      assert r[if i < l then i else i + 1] == b[i];
    }
  }

  lemma {:induction false} ExtendedDistinct(ss: seq<string>, x: char, j: nat)
    requires j <= |ss| && Distinct(ss) && forall i :: 0 <= i < |ss| ==> x !in ss[i]
    ensures Distinct(Extended(ss, x, j))
    decreases |ss| - j
  {
    if j < |ss| {
      ExtendedDistinct(ss, x, j + 1);
      var rest, es := Extended(ss, x, j + 1), Extensions(ss[j], x, |ss[j]| + 1);
      forall k, l | 0 <= k < l < |es| ensures es[k] != es[l] {
        if es[k] == es[l] {
          InsertOnce(ss[j], ss[j], x, k, l);
        }
      }
      forall k, l | 0 <= k < |rest| && 0 <= l < |es| ensures rest[k] != es[l] {
        ExtendedMembers(ss, x, j + 1, rest[k]);
        var i, m :| j + 1 <= i < |ss| && 0 <= m <= |ss[i]| && rest[k] == Insert(ss[i], x, m);
        if rest[k] == es[l] {
          InsertOnce(ss[i], ss[j], x, m, l);
        }
      }
    }
  }

  /** When the characters are distinct, no string is generated twice. */
  lemma {:induction false} PermsDistinct(s: string, n: nat)
    requires 1 <= n <= |s| && Distinct(s)
    ensures Distinct(Perms(s, n))
    decreases n
  {
    if n > 1 {
      PermsDistinct(s, n - 1);
      var ss, x := Perms(s, n - 1), s[n - 1];
      assert x !in s[..n - 1];
      forall i | 0 <= i < |ss| ensures x !in ss[i] {
        PermsRearrange(s, n - 1, ss[i]);
        assert x !in multiset(ss[i]);
      }
      ExtendedDistinct(ss, x, 0);
    }
  }

  lemma {:induction false} DistinctSources(ss: seq<string>, x: char, j: nat)
    requires j <= |ss| && Distinct(Extended(ss, x, j))
    ensures forall i, k :: j <= i < k < |ss| ==> ss[i] != ss[k]
    ensures forall i :: j <= i < |ss| ==> x !in ss[i]
    decreases |ss| - j
  {
    if j < |ss| {
      var rest, es := Extended(ss, x, j + 1), Extensions(ss[j], x, |ss[j]| + 1);
      DistinctParts(rest, es);
      DistinctSources(ss, x, j + 1);
      DistinctExtensions(ss[j], x);
      forall k | j < k < |ss| ensures ss[j] != ss[k] {
        FrontExtension(ss, x, j + 1, k);
        assert es[0] in es;
      }
    }
  }

  lemma FrontExtension(ss: seq<string>, x: char, j: nat, k: nat)
    requires j <= k < |ss|
    ensures Insert(ss[k], x, 0) in Extended(ss, x, j)
  {
    assert IsExtension(Insert(ss[k], x, 0), ss, x, j);
    ExtendedMembers(ss, x, j, Insert(ss[k], x, 0));
  }

  lemma DistinctExtensions(s: string, x: char)
    requires Distinct(Extensions(s, x, |s| + 1))
    ensures x !in s
  {
    var es := Extensions(s, x, |s| + 1);
    forall k | 0 <= k < |s| ensures s[k] != x {
      assert Insert(s, s[k], k) == Insert(s, s[k], k + 1);
      assert es[k] != es[k + 1];
    }
  }

  lemma DistinctParts(a: seq<string>, b: seq<string>)
    requires Distinct(a + b)
    ensures Distinct(a) && Distinct(b) && forall x :: x in a ==> x !in b
  {
    var c := a + b;
    assert forall i :: 0 <= i < |a| ==> c[i] == a[i];
    assert forall i :: 0 <= i < |b| ==> c[|a| + i] == b[i];
    forall x | x in a ensures x !in b {
      var i :| 0 <= i < |a| && a[i] == x;
      forall k | 0 <= k < |b| ensures b[k] != x {
        assert c[i] != c[|a| + k];
      }
    }
  }

  lemma {:induction false} DistinctOnly(s: string, n: nat)
    requires 1 <= n <= |s| && Distinct(Perms(s, n))
    ensures Distinct(s[..n])
    decreases n
  {
    if n > 1 {
      var ss, x := Perms(s, n - 1), s[n - 1];
      DistinctSources(ss, x, 0);
      DistinctOnly(s, n - 1);
      PermsAreRearrangements(s, n - 1, s[..n - 1]);
      assert x !in s[..n - 1];
      assert s[..n] == s[..n - 1] + [x];
    }
  }

  /** No string is generated twice exactly when no character occurs twice. */
  lemma DistinctExactly(s: string)
    requires s != ""
    ensures Distinct(Perms(s, |s|)) <==> Distinct(s)
  {
    assert s[..|s|] == s;
    if Distinct(s) {
      PermsDistinct(s, |s|);
    }
    if Distinct(Perms(s, |s|)) {
      DistinctOnly(s, |s|);
    }
  }
}
