/**
 Event namespaces.  A handler keeps its namespaces sorted and joined by dots; `remove`, `trigger` and
 `dispatch` test that string with a regular expression built from the sorted namespaces asked for.
 */
module Namespaces {

  // ----- regular expressions -----

  /** `AnyStar` is `.*`, and `Repeat(c)` is the character followed by `+`. */
  datatype Regex =
    | Lit(text: string) | AnyStar | Repeat(c: char) | Start | End
    | Alt(a: Regex, b: Regex) | Cat(a: Regex, b: Regex)

  /** `r` matches the characters of `s` from `i` up to `j`. */
  ghost predicate Accepts(r: Regex, s: string, i: nat, j: nat)
    requires i <= j <= |s|
    decreases r
  {
    match r
    case Lit(text) => s[i..j] == text
    case AnyStar => forall k :: i <= k < j ==> !EndsLine(s[k])
    case Repeat(c) => i < j && forall k :: i <= k < j ==> s[k] == c
    case Start => i == j == 0
    case End => i == j == |s|
    case Alt(a, b) => Accepts(a, s, i, j) || Accepts(b, s, i, j)
    case Cat(a, b) => exists k :: i <= k <= j && Accepts(a, s, i, k) && Accepts(b, s, k, j)
  }

  /** The characters that `.` does not match. */
  predicate EndsLine(c: char) {
    c == '\n' || c == '\r' || c == '\U{2028}' || c == '\U{2029}'
  }

  ghost predicate Test(r: Regex, s: string) {
    exists i, j :: 0 <= i <= j <= |s| && Accepts(r, s, i, j)
  }

  lemma SplitCat(a: Regex, b: Regex, s: string, i: nat, j: nat) returns (k: nat)
    requires i <= j <= |s| && Accepts(Cat(a, b), s, i, j)
    ensures i <= k <= j && Accepts(a, s, i, k) && Accepts(b, s, k, j)
  {
    k :| i <= k <= j && Accepts(a, s, i, k) && Accepts(b, s, k, j);
  }

  // ----- the pattern and the string -----

  function Join(words: seq<string>): string {
    if words == [] then "" else if |words| == 1 then words[0] else words[0] + "." + Join(words[1..])
  }

  /** What the names are joined with: a dot, then anything up to another dot, or nothing. */
  const BETWEEN := Cat(Lit("."), Alt(Cat(AnyStar, Lit(".")), Lit("")))

  const FRONT := Alt(Start, Lit("."))
  const BACK := Alt(Lit("."), End)

  function Middle(names: seq<string>): Regex
    requires names != []
  {
    if |names| == 1 then Lit(names[0]) else Cat(Lit(names[0]), Cat(BETWEEN, Middle(names[1..])))
  }

  function Pattern(names: seq<string>): Regex
    requires names != []
  {
    Cat(FRONT, Cat(Middle(names), BACK))
  }

  // ----- words -----

  /** What a handler may have as a namespace. */
  predicate IsWord(w: string) {
    w != "" && forall k :: 0 <= k < |w| ==> w[k] != '.' && !EndsLine(w[k])
  }

  predicate AreWords(ws: seq<string>) {
    forall i :: 0 <= i < |ws| ==> IsWord(ws[i])
  }

  /** Characters that mean themselves in a pattern: names are put into it as they are. */
  predicate Plain(c: char) {
    c !in "\\^$.*+?()[]{}|" && !EndsLine(c)
  }

  predicate AreNames(ws: seq<string>) {
    forall i :: 0 <= i < |ws| ==> ws[i] != "" && forall k :: 0 <= k < |ws[i]| ==> Plain(ws[i][k])
  }

  /** `names` can be found among `words` from number `a` on, in this order. */
  ghost predicate InOrder(names: seq<string>, words: seq<string>, a: nat)
    decreases |names|
  {
    names == [] || exists b :: a <= b < |words| && words[b] == names[0] && InOrder(names[1..], words, b + 1)
  }

  /** Where word number `a` begins. */
  function Offset(words: seq<string>, a: nat): nat
    requires a <= |words|
  {
    if a == 0 then 0 else Offset(words, a - 1) + |words[a - 1]| + 1
  }

  lemma {:induction false} OffsetShift(words: seq<string>, a: nat)
    requires 1 <= a <= |words|
    ensures Offset(words, a) == |words[0]| + 1 + Offset(words[1..], a - 1)
    decreases a
  {
    if a > 1 {
      OffsetShift(words, a - 1);
    }
  }

  /** The word `w` stands in `s` at `i`, between the front or a dot and a dot or the end. */
  predicate StandsAt(s: string, i: nat, w: string) {
    i + |w| <= |s| && s[i..i + |w|] == w && (i == 0 || s[i - 1] == '.') && (i + |w| == |s| || s[i + |w|] == '.')
  }

  lemma StandsShift(w0: string, t: string, i: nat, w: string)
    requires StandsAt(t, i, w)
    ensures StandsAt(w0 + "." + t, |w0| + 1 + i, w)
  {
    var v := w0 + ".";
    assert w0 + "." + t == v + t;
    Shifted(v, t, i, i + |w|);
    assert i == 0 ==> (v + t)[|v| + i - 1] == '.';
  }

  lemma Shifted(v: string, t: string, i: nat, j: nat)
    requires i <= j <= |t|
    ensures (v + t)[|v| + i..|v| + j] == t[i..j]
  {
  }

  /** Word number `a` stands in the joined string at its offset. */
  lemma {:induction false} JoinAt(words: seq<string>, a: nat)
    requires a < |words|
    ensures StandsAt(Join(words), Offset(words, a), words[a])
    ensures Offset(words, a) + |words[a]| == |Join(words)| <==> a + 1 == |words|
    decreases |words|
  {
    if |words| > 1 {
      if a == 0 {
        var s := Join(words);
        assert s == words[0] + "." + Join(words[1..]);
        assert s[..|words[0]|] == words[0];
      } else {
        JoinAt(words[1..], a - 1);
        OffsetShift(words, a);
        StandsShift(words[0], Join(words[1..]), Offset(words[1..], a - 1), words[a]);
      }
    }
  }

  /** Every place at the front or behind a dot is where a word begins. */
  lemma {:induction false} PlaceIsWord(words: seq<string>, i: nat) returns (a: nat)
    requires AreWords(words) && words != [] && i <= |Join(words)| && (i == 0 || Join(words)[i - 1] == '.')
    ensures a < |words| && i == Offset(words, a)
    decreases |words|
  {
    a := 0;
    if i > 0 {
      FirstDot(words, i);
      a := PlaceIsWord(words[1..], i - |words[0]| - 1);
      OffsetShift(words, a + 1);
      a := a + 1;
    }
  }

  /** A dot in a joined string stands behind the first word or further on. */
  lemma FirstDot(words: seq<string>, i: nat)
    requires AreWords(words) && words != [] && 0 < i <= |Join(words)| && Join(words)[i - 1] == '.'
    ensures |words| > 1
    ensures var n, t := |words[0]| + 1, Join(words[1..]);
            n <= i <= n + |t| && (i == n || t[i - n - 1] == '.')
  {
    var s, n := Join(words), |words[0]| + 1;
    assert IsWord(words[0]);
    var t := Join(words[1..]);
    assert |words| > 1;
    assert s == words[0] + "." + t;
    assert forall k :: 0 <= k < |words[0]| ==> s[k] == words[0][k];
    assert i > n ==> s[i - 1] == t[i - n - 1];
  }

  lemma {:induction false} OffsetsClimb(words: seq<string>, a: nat, b: nat)
    requires a <= b <= |words|
    ensures a < b ==> Offset(words, a) + |words[a]| < Offset(words, b)
    decreases b
  {
    if a < b {
      OffsetsClimb(words, a, b - 1);
    }
  }

  /** A word read where a word begins, and followed by a dot or the end, is that word. */
  lemma WholeWord(words: seq<string>, a: nat, w: string)
    requires AreWords(words) && a < |words| && IsWord(w)
    requires StandsAt(Join(words), Offset(words, a), w)
    ensures w == words[a]
  {
    JoinAt(words, a);
    SameWord(Join(words), Offset(words, a), w, words[a]);
  }

  lemma SameWord(s: string, i: nat, v: string, w: string)
    requires IsWord(v) && IsWord(w) && StandsAt(s, i, v) && StandsAt(s, i, w)
    ensures v == w
  {
    assert forall k :: 0 <= k < |v| ==> s[i + k] == s[i..i + |v|][k] == v[k];
    assert forall k :: 0 <= k < |w| ==> s[i + k] == s[i..i + |w|][k] == w[k];
    assert |v| == |w|;
  }

  lemma {:induction false} OneLine(words: seq<string>)
    requires AreWords(words)
    ensures forall k :: 0 <= k < |Join(words)| ==> !EndsLine(Join(words)[k])
    decreases |words|
  {
    if |words| > 1 {
      OneLine(words[1..]);
      assert IsWord(words[0]);
    } else if |words| == 1 {
      assert IsWord(words[0]);
    }
  }

  lemma NamesAreWords(names: seq<string>)
    requires AreNames(names)
    ensures AreWords(names)
  {
    forall i | 0 <= i < |names| ensures IsWord(names[i]) {
      assert forall k :: 0 <= k < |names[i]| ==> Plain(names[i][k]);
    }
  }

  // ----- the pattern matches names in order -----

  lemma {:induction false} InOrderFrom(names: seq<string>, words: seq<string>, a: nat, b: nat)
    requires a <= b && InOrder(names, words, b)
    ensures InOrder(names, words, a)
  {
    if names != [] {
      var c :| b <= c < |words| && words[c] == names[0] && InOrder(names[1..], words, c + 1);
    }
  }

  /** What `BETWEEN` matches begins and ends with a dot ... */
  lemma BetweenFinds(s: string, i: nat, j: nat)
    requires i <= j <= |s| && Accepts(BETWEEN, s, i, j)
    ensures i < j && s[i] == '.' && s[j - 1] == '.'
  {
    var k := SplitCat(Lit("."), Alt(Cat(AnyStar, Lit(".")), Lit("")), s, i, j);
    assert s[i] == s[i..k][0];
    if Accepts(Cat(AnyStar, Lit(".")), s, k, j) {
      var m := SplitCat(AnyStar, Lit("."), s, k, j);
      assert s[j - 1] == s[m..j][0];
    }
  }

  /** ... and on one line it matches whatever does. */
  lemma BetweenMatches(s: string, i: nat, j: nat)
    requires i < j <= |s| && s[i] == '.' && s[j - 1] == '.' && forall k :: 0 <= k < |s| ==> !EndsLine(s[k])
    ensures Accepts(BETWEEN, s, i, j)
  {
    var more := Alt(Cat(AnyStar, Lit(".")), Lit(""));
    assert Accepts(Lit("."), s, i, i + 1);
    if j == i + 1 {
      assert Accepts(Lit(""), s, i + 1, j);
    } else {
      assert Accepts(Lit("."), s, j - 1, j);
      JoinCat(AnyStar, Lit("."), s, i + 1, j - 1, j);
    }
    JoinCat(Lit("."), more, s, i, i + 1, j);
  }

  predicate WordEnds(s: string, j: nat) {
    j <= |s| && (j == |s| || s[j] == '.')
  }

  lemma LitStands(words: seq<string>, a: nat, name: string, k: nat)
    requires AreWords(words) && IsWord(name) && a < |words| && Offset(words, a) <= k && WordEnds(Join(words), k)
    requires Accepts(Lit(name), Join(words), Offset(words, a), k)
    ensures words[a] == name && k == Offset(words, a) + |name|
  {
    JoinAt(words, a);
    WholeWord(words, a, name);
  }

  /** What `BETWEEN` matches behind a word leads to a later word. */
  lemma NextPlace(words: seq<string>, a: nat, k: nat, m: nat) returns (b: nat)
    requires AreWords(words) && a < |words| && Offset(words, a) <= k < m <= |Join(words)| && Join(words)[m - 1] == '.'
    ensures a < b < |words| && m == Offset(words, b)
  {
    b := PlaceIsWord(words, m);
    if b <= a {
      OffsetsClimb(words, b, a);
    }
  }

  lemma {:induction false} MiddleFinds(names: seq<string>, words: seq<string>, a: nat, j: nat)
    requires AreNames(names) && AreWords(words) && names != [] && a < |words|
    requires Offset(words, a) <= j <= |Join(words)| && WordEnds(Join(words), j)
    requires Accepts(Middle(names), Join(words), Offset(words, a), j)
    ensures InOrder(names, words, a)
    decreases |names|
  {
    var s, i := Join(words), Offset(words, a);
    NamesAreWords(names);
    if |names| == 1 {
      LitStands(words, a, names[0], j);
    } else {
      var rest := Middle(names[1..]);
      var k := SplitCat(Lit(names[0]), Cat(BETWEEN, rest), s, i, j);
      var m := SplitCat(BETWEEN, rest, s, k, j);
      BetweenFinds(s, k, m);
      LitStands(words, a, names[0], k);
      var b := NextPlace(words, a, k, m);
      MiddleFinds(names[1..], words, b, j);
      InOrderFrom(names[1..], words, a + 1, b);
    }
  }

  /** From the end of a word to the beginning of a later one. */
  lemma LeadsOn(words: seq<string>, b: nat, c: nat)
    requires AreWords(words) && b < c < |words|
    ensures var s, k, m := Join(words), Offset(words, b) + |words[b]|, Offset(words, c);
            k < m <= |s| && s[k] == '.' && s[m - 1] == '.'
  {
    JoinAt(words, b);
    JoinAt(words, c);
    OffsetsClimb(words, b, c);
  }

  lemma {:induction false} MiddleMatches(names: seq<string>, words: seq<string>, a: nat) returns (b: nat, j: nat)
    requires AreNames(names) && AreWords(words) && names != [] && InOrder(names, words, a)
    ensures a <= b < |words| && Offset(words, b) <= j <= |Join(words)| && WordEnds(Join(words), j)
    ensures Accepts(Middle(names), Join(words), Offset(words, b), j)
    decreases |names|
  {
    b :| a <= b < |words| && words[b] == names[0] && InOrder(names[1..], words, b + 1);
    JoinAt(words, b);
    if |names| == 1 {
      j := Offset(words, b) + |names[0]|;
    } else {
      var c;
      c, j := MiddleMatches(names[1..], words, b + 1);
      MiddleGoesOn(names, words, b, c, j);
    }
  }

  lemma MiddleGoesOn(names: seq<string>, words: seq<string>, b: nat, c: nat, j: nat)
    requires AreWords(words) && |names| > 1 && b < c < |words| && words[b] == names[0]
    requires Offset(words, c) <= j <= |Join(words)| && Accepts(Middle(names[1..]), Join(words), Offset(words, c), j)
    ensures Offset(words, b) <= j && Accepts(Middle(names), Join(words), Offset(words, b), j)
  {
    var s, i, k, m := Join(words), Offset(words, b), Offset(words, b) + |names[0]|, Offset(words, c);
    LeadsOn(words, b, c);
    assert Accepts(BETWEEN, s, k, m) by {
      OneLine(words);
      BetweenMatches(s, k, m);
    }
    assert Accepts(Lit(names[0]), s, i, k) by {
      JoinAt(words, b);
    }
    JoinThree(Lit(names[0]), BETWEEN, Middle(names[1..]), s, i, k, m, j);
  }

  lemma JoinThree(a: Regex, b: Regex, c: Regex, s: string, i: nat, k: nat, m: nat, j: nat)
    requires i <= k <= m <= j <= |s| && Accepts(a, s, i, k) && Accepts(b, s, k, m) && Accepts(c, s, m, j)
    ensures Accepts(Cat(a, Cat(b, c)), s, i, j)
  {
    JoinCat(b, c, s, k, m, j);
    JoinCat(a, Cat(b, c), s, i, k, j);
  }

  lemma JoinCat(a: Regex, b: Regex, s: string, i: nat, k: nat, j: nat)
    requires i <= k <= j <= |s| && Accepts(a, s, i, k) && Accepts(b, s, k, j)
    ensures Accepts(Cat(a, b), s, i, j)
  {
  }

  /** `FRONT` matches the dot before a word, or nothing at the front; `BACK` the other way round. */
  lemma FrontMatches(words: seq<string>, b: nat) returns (before: nat)
    requires b < |words|
    ensures before <= Offset(words, b) <= |Join(words)| && Accepts(FRONT, Join(words), before, Offset(words, b))
  {
    JoinAt(words, b);
    var i := Offset(words, b);
    before := if i == 0 then 0 else i - 1;
    if i > 0 {
      assert Accepts(Lit("."), Join(words), before, i);
    }
  }

  lemma BackMatches(s: string, j: nat) returns (after: nat)
    requires WordEnds(s, j)
    ensures j <= after <= |s| && Accepts(BACK, s, j, after)
  {
    after := if j == |s| then j else j + 1;
    if j < |s| {
      assert Accepts(Lit("."), s, j, after);
    }
  }

  lemma PatternMatches(names: seq<string>, words: seq<string>)
    requires AreNames(names) && AreWords(words) && names != [] && InOrder(names, words, 0)
    ensures Test(Pattern(names), Join(words))
  {
    var s := Join(words);
    var b, j := MiddleMatches(names, words, 0);
    var before := FrontMatches(words, b);
    var after := BackMatches(s, j);
    JoinCat(Middle(names), BACK, s, Offset(words, b), j, after);
    JoinCat(FRONT, Cat(Middle(names), BACK), s, before, Offset(words, b), after);
  }

  /** The pattern matches the joined string exactly when the names are among its words in order. */
  lemma PatternInOrder(names: seq<string>, words: seq<string>)
    requires AreNames(names) && AreWords(words) && names != []
    ensures Test(Pattern(names), Join(words)) <==> InOrder(names, words, 0)
  {
    var s := Join(words);
    if Test(Pattern(names), s) {
      var i, j :| 0 <= i <= j <= |s| && Accepts(Pattern(names), s, i, j);
      var k := SplitCat(FRONT, Cat(Middle(names), BACK), s, i, j);
      var m := SplitCat(Middle(names), BACK, s, k, j);
      PatternFinds(names, words, i, k, m, j);
    }
    if InOrder(names, words, 0) {
      PatternMatches(names, words);
    }
  }

  lemma FrontPlace(s: string, i: nat, k: nat)
    requires i <= k <= |s| && Accepts(FRONT, s, i, k)
    ensures k == 0 || s[k - 1] == '.'
  {
    if Accepts(Lit("."), s, i, k) {
      assert s[k - 1] == s[i..k][0];
    }
  }

  lemma BackPlace(s: string, m: nat, j: nat)
    requires m <= j <= |s| && Accepts(BACK, s, m, j)
    ensures WordEnds(s, m)
  {
    if Accepts(Lit("."), s, m, j) {
      assert s[m] == s[m..j][0];
    }
  }

  lemma PatternFinds(names: seq<string>, words: seq<string>, i: nat, k: nat, m: nat, j: nat)
    requires AreNames(names) && AreWords(words) && names != [] && i <= k <= m <= j <= |Join(words)|
    requires Accepts(FRONT, Join(words), i, k) && Accepts(Middle(names), Join(words), k, m)
    requires Accepts(BACK, Join(words), m, j)
    ensures InOrder(names, words, 0)
  {
    var s := Join(words);
    FrontPlace(s, i, k);
    BackPlace(s, m, j);
    if words == [] {
      MiddleNotEmpty(names, s);
    } else {
      var a := PlaceIsWord(words, k);
      MiddleFinds(names, words, a, m);
      InOrderFrom(names, words, 0, a);
    }
  }

  lemma MiddleNotEmpty(names: seq<string>, s: string)
    requires names != [] && AreNames(names) && s == ""
    ensures !Accepts(Middle(names), s, 0, 0)
  {
  }

  // ----- sorted names -----

  /** The order of `Array.prototype.sort` on strings, a prefix first: by code points, which is the order of code units
      unless one of the characters is outside the basic plane. */
  predicate Leq(a: string, b: string) {
    a == "" || (b != "" && (a[0] < b[0] || (a[0] == b[0] && Leq(a[1..], b[1..]))))
  }

  lemma {:induction false} LeqOrder(a: string, b: string, c: string)
    ensures Leq(a, a)
    ensures Leq(a, b) || Leq(b, a)
    ensures Leq(a, b) && Leq(b, a) ==> a == b
    ensures Leq(a, b) && Leq(b, c) ==> Leq(a, c)
    decreases |a|
  {
    if a != "" {
      LeqOrder(a[1..], if b == "" then b else b[1..], if c == "" then c else c[1..]);
      if b != "" && a[0] == b[0] {
        assert a == [a[0]] + a[1..] && b == [b[0]] + b[1..];
      }
    }
  }

  ghost predicate Sorted(ws: seq<string>) {
    forall i, j :: 0 <= i < j < |ws| ==> Leq(ws[i], ws[j])
  }

  lemma Uncons(ws: seq<string>, a: nat)
    requires a < |ws|
    ensures multiset(ws[a..]) == multiset{ws[a]} + multiset(ws[a + 1..])
  {
    assert ws[a..] == [ws[a]] + ws[a + 1..];
  }

  lemma FewerLater(ws: seq<string>, a: nat, b: nat)
    requires a <= b <= |ws|
    ensures multiset(ws[b..]) <= multiset(ws[a..])
  {
    assert ws[a..] == ws[a..b] + ws[b..];
  }

  lemma {:induction false} InOrderWithin(names: seq<string>, words: seq<string>, a: nat)
    requires a <= |words| && InOrder(names, words, a)
    ensures multiset(names) <= multiset(words[a..])
    decreases |names|
  {
    if names != [] {
      var b :| a <= b < |words| && words[b] == names[0] && InOrder(names[1..], words, b + 1);
      InOrderWithin(names[1..], words, b + 1);
      calc {
        multiset(names);
        { Uncons(names, 0); assert names[0..] == names; }
        multiset{words[b]} + multiset(names[1..]);
      <=
        multiset{words[b]} + multiset(words[b + 1..]);
        { Uncons(words, b); }
        multiset(words[b..]);
      <=  { FewerLater(words, a, b); }
        multiset(words[a..]);
      }
    }
  }

  lemma {:induction false} WithinInOrder(names: seq<string>, words: seq<string>, a: nat)
    requires a <= |words| && Sorted(names) && Sorted(words) && multiset(names) <= multiset(words[a..])
    ensures InOrder(names, words, a)
    decreases |words| - a
  {
    if names != [] {
      var _ := HasFirst(names, words, a);
      if names[0] == words[a] {
        RestWithin(names, words, a);
        WithinInOrder(names[1..], words, a + 1);
      } else {
        FirstIsMissing(names, words, a);
        WithinInOrder(names, words, a + 1);
        InOrderFrom(names, words, a, a + 1);
      }
    }
  }

  lemma HasFirst(names: seq<string>, words: seq<string>, a: nat) returns (k: nat)
    requires a <= |words| && names != [] && multiset(names) <= multiset(words[a..])
    ensures a <= k < |words| && words[k] == names[0]
  {
    assert names[0] in multiset(names);
    assert names[0] in words[a..];
    k :| a <= k < |words| && words[k] == names[0];
  }

  lemma RestWithin(names: seq<string>, words: seq<string>, a: nat)
    requires a < |words| && names != [] && names[0] == words[a] && multiset(names) <= multiset(words[a..])
    ensures multiset(names[1..]) <= multiset(words[a + 1..])
  {
    Uncons(names, 0);
    assert names[0..] == names;
    Uncons(words, a);
    BothWithout(multiset(names[1..]), words[a], multiset(words[a + 1..]));
  }

  lemma BothWithout(names: multiset<string>, w: string, rest: multiset<string>)
    requires multiset{w} + names <= multiset{w} + rest
    ensures names <= rest
  {
    forall x ensures names[x] <= rest[x] {
      assert (multiset{w} + names)[x] <= (multiset{w} + rest)[x];
    }
  }

  /** A first word below the first name is not among the names. */
  lemma FirstIsMissing(names: seq<string>, words: seq<string>, a: nat)
    requires a < |words| && Sorted(names) && Sorted(words) && names != [] && names[0] != words[a]
    requires multiset(names) <= multiset(words[a..])
    ensures multiset(names) <= multiset(words[a + 1..])
  {
    var k := HasFirst(names, words, a);
    forall i | 0 <= i < |names| ensures names[i] != words[a] {
      LeqOrder(words[a], names[0], names[i]);
      LeqOrder(names[0], names[i], words[a]);
    }
    Uncons(words, a);
    NotNeeded(multiset(names), words[a], multiset(words[a + 1..]));
  }

  lemma NotNeeded(names: multiset<string>, w: string, rest: multiset<string>)
    requires names <= multiset{w} + rest && w !in names
    ensures names <= rest
  {
    forall x ensures names[x] <= rest[x] {
      assert x == w || (multiset{w} + rest)[x] == rest[x];
    }
  }

  /** Names found in order among sorted words are sorted, and are words from where the search begins. */
  lemma {:induction false} InOrderSorted(names: seq<string>, words: seq<string>, a: nat)
    requires Sorted(words) && InOrder(names, words, a)
    ensures Sorted(names)
    ensures forall i :: 0 <= i < |names| ==> exists k :: a <= k < |words| && words[k] == names[i]
    decreases |names|
  {
    if names != [] {
      var b :| a <= b < |words| && words[b] == names[0] && InOrder(names[1..], words, b + 1);
      var rest := names[1..];
      InOrderSorted(rest, words, b + 1);
      forall i | 1 <= i < |names|
        ensures Leq(names[0], names[i]) && exists k :: a <= k < |words| && words[k] == names[i]
      {
        assert names[i] == rest[i - 1];
        var k :| b + 1 <= k < |words| && words[k] == rest[i - 1];
      }
      SortedCons(names);
    }
  }

  lemma SortedCons(ws: seq<string>)
    requires ws != [] && Sorted(ws[1..]) && forall i :: 1 <= i < |ws| ==> Leq(ws[0], ws[i])
    ensures Sorted(ws)
  {
    forall i, j | 0 <= i < j < |ws| ensures Leq(ws[i], ws[j]) {
      if i > 0 {
        assert ws[i] == ws[1..][i - 1] && ws[j] == ws[1..][j - 1];
      }
    }
  }

  /** On a sorted handler the test succeeds exactly when the names are sorted too and are among the namespaces of the
      handler, each as often as it is asked for. */
  lemma NamespaceTest(names: seq<string>, words: seq<string>)
    requires AreNames(names) && AreWords(words) && names != [] && Sorted(words)
    ensures Test(Pattern(names), Join(words)) <==> Sorted(names) && multiset(names) <= multiset(words)
  {
    PatternInOrder(names, words);
    assert words[0..] == words;
    if InOrder(names, words, 0) {
      InOrderWithin(names, words, 0);
      InOrderSorted(names, words, 0);
    }
    if Sorted(names) && multiset(names) <= multiset(words) {
      WithinInOrder(names, words, 0);
    }
  }

  // ----- a name that does not mean itself -----

  /** The pattern made of a word and `+`: the last character once or more. */
  function PlusPattern(w: string): Regex
    requires w != ""
  {
    Cat(FRONT, Cat(Cat(Lit(w[..|w| - 1]), Repeat(w[|w| - 1])), BACK))
  }

  /** `v` is `w` with its last character once or more. */
  predicate Prolongs(v: string, w: string)
    requires w != ""
  {
    var n := |w| - 1;
    |v| > n && v[..n] == w[..n] && forall k :: n <= k < |v| ==> v[k] == w[n]
  }

  /** Names go into the pattern as they are.  What the name `w+` finds are the prolongations of `w` ... */
  lemma PlusExactly(w: string, v: string)
    requires w != "" && IsWord(w) && IsWord(v)
    ensures Test(PlusPattern(w), v) <==> Prolongs(v, w)
  {
    var n := |w| - 1;
    var body := Cat(Lit(w[..n]), Repeat(w[n]));
    if i, j :| 0 <= i <= j <= |v| && Accepts(PlusPattern(w), v, i, j) {
      var k := SplitCat(FRONT, Cat(body, BACK), v, i, j);
      var m := SplitCat(body, BACK, v, k, j);
      FrontPlace(v, i, k);
      BackPlace(v, m, j);
      assert k == 0 && m == |v|;
      var l := SplitCat(Lit(w[..n]), Repeat(w[n]), v, k, m);
      assert v[..n] == v[0..l] == w[..n];
    }
    if Prolongs(v, w) {
      PlusFinds(w, v);
    }
  }

  lemma PlusFinds(w: string, v: string)
    requires w != "" && Prolongs(v, w)
    ensures Test(PlusPattern(w), v)
  {
    var n := |w| - 1;
    var body := Cat(Lit(w[..n]), Repeat(w[n]));
    assert v[0..n] == w[..n];
    JoinCat(Lit(w[..n]), Repeat(w[n]), v, 0, n, |v|);
    JoinCat(body, BACK, v, 0, |v|, |v|);
    JoinCat(FRONT, Cat(body, BACK), v, 0, 0, |v|);
  }

  /** ... and never the namespace `w+` itself, if `w` means itself. */
  lemma PlusMisses(w: string)
    requires w != "" && AreNames([w])
    ensures !Test(PlusPattern(w), Join([w + "+"]))
  {
    var v := w + "+";
    NamesAreWords([w]);
    assert IsWord([w][0]);
    PlusExactly(w, v);
    assert Plain([w][0][|w| - 1]);
    assert v[|w|] == '+';
  }
}
