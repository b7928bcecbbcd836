/**
 `ajaxConvert`: the response is taken from data type to data type by converters.  When there is no
 direct converter a pair of them is sought, and the intermediate type is inserted in the list that is
 being walked.
 */
module AjaxConvert {
  import opened Dom

  /** `*`, or a named type. */
  datatype DataType = Auto | Type(name: string)

  type Response = nat

  /** `true` in the table, or a function; a function that yields `None` has thrown. */
  datatype Converter = Same | Convert(f: Response -> Option<Response>)

  type Key = (DataType, DataType)

  /** The table of converters; `keys` is the order in which `for ... in` goes through it. */
  datatype Table = Table(keys: seq<Key>, entries: map<Key, Converter>)

  datatype Outcome =
    | Success(data: Response)
    | NoConversion(from: DataType, to: DataType)
    | ConverterError
    | Thrown

  ghost predicate Complete(t: Table) {
    forall k :: k in t.keys <==> k in t.entries
  }

  function Direct(t: Table, from: DataType, to: DataType): Option<Converter> {
    if (from, to) in t.entries then Some(t.entries[(from, to)])
    else if (Auto, to) in t.entries then Some(t.entries[(Auto, to)])
    else None
  }

  /** The first key, from number `n` on, that leads to `to` from something `from` can be taken to. */
  function FindPair(t: Table, from: DataType, to: DataType, n: nat): (r: Option<nat>)
    requires n <= |t.keys|
    ensures r.Some? ==> n <= r.value < |t.keys| && t.keys[r.value].1 == to && Direct(t, from, t.keys[r.value].0).Some?
    decreases |t.keys| - n
  {
    if n == |t.keys| then None
    else if t.keys[n].1 == to && Direct(t, from, t.keys[n].0).Some? then Some(n)
    else FindPair(t, from, to, n + 1)
  }

  function Apply(c: Converter, bubbles: bool, r: Response): Outcome {
    match c
    case Same => Success(r)
    case Convert(f) => if f(r).Some? then Success(f(r).value) else if bubbles then Thrown else ConverterError
  }

  // ----- the meaning -----

  /** One conversion: directly, or through one intermediate type. */
  function Step(t: Table, bubbles: bool, from: DataType, to: DataType, r: Response): Outcome
    requires Complete(t)
  {
    var direct := Direct(t, from, to);
    if direct.Some? then Apply(direct.value, bubbles, r)
    else
      var k := FindPair(t, from, to, 0);
      if k.None? then NoConversion(from, to)
      else
        var mid := t.keys[k.value].0;
        var first := Apply(Direct(t, from, mid).value, bubbles, r);
        if first.Success? then Apply(t.entries[t.keys[k.value]], bubbles, first.data) else first
  }

  /** All conversions in turn; `*` asks for none. */
  function Walk(t: Table, bubbles: bool, from: DataType, targets: seq<DataType>, r: Response): Outcome
    requires Complete(t)
    decreases |targets|
  {
    if targets == [] then Success(r)
    else
      var to := targets[0];
      if to.Auto? then Walk(t, bubbles, from, targets[1..], r)
      else if from.Auto? || from == to then Walk(t, bubbles, to, targets[1..], r)
      else
        var next := Step(t, bubbles, from, to, r);
        if next.Success? then Walk(t, bubbles, to, targets[1..], next.data) else next
  }

  // ----- the code -----

  method SeekPair(t: Table, prev: DataType, current: DataType) returns (found: Option<nat>)
    ensures found == FindPair(t, prev, current, 0)
  {
    var n := 0;
    while n < |t.keys|
      invariant 0 <= n <= |t.keys|
      invariant FindPair(t, prev, current, 0) == FindPair(t, prev, current, n)
    {
      if t.keys[n].1 == current {
        if Direct(t, prev, t.keys[n].0).Some? {
          return Some(n);
        }
      }
      n := n + 1;
    }
    found := None;
  }

  /** The intermediate type of a pair is a proper one: it leads to the target directly, and is neither
      the target nor `*`. */
  lemma PairSplits(t: Table, from: DataType, to: DataType)
    requires Complete(t) && Direct(t, from, to).None? && FindPair(t, from, to, 0).Some?
    ensures var key := t.keys[FindPair(t, from, to, 0).value];
            !key.0.Auto? && key.0 != to && key.0 != from && key in t.entries &&
                Direct(t, key.0, to) == Some(t.entries[key])
  {
    var key := t.keys[FindPair(t, from, to, 0).value];
    assert key in t.keys && key == (key.0, to);
  }

  /** The loop.  `rest` are the targets asked for that are still to be reached; an inserted type may stand
      before them, or may just have been passed. */
  method Convert(dataTypes: seq<DataType>, t: Table, bubbles: bool, raw: Response)
      returns (outcome: Outcome, walked: seq<DataType>)
    requires Complete(t) && dataTypes != []
    ensures outcome == Walk(t, bubbles, dataTypes[0], dataTypes[1..], raw)
    ensures |walked| < 2 * |dataTypes|
  {
    walked := dataTypes;
    var prev, response, i := walked[0], raw, 0;
    ghost var rest := dataTypes[1..];
    ghost var inserted, passed := false, false;
    while i + 1 < |walked|
      invariant 0 <= i < |walked|
      invariant walked[i + 1..] == (if inserted then [prev] else []) + rest
      invariant inserted || passed ==> rest != [] && rest[0] != prev && !rest[0].Auto? && !prev.Auto? &&
                                       Direct(t, prev, rest[0]).Some?
      invariant !(inserted && passed) && |rest| < |dataTypes|
      invariant |walked| <= 2 * |dataTypes| - 1 - |rest| + (if inserted || passed then 1 else 0)
      invariant Walk(t, bubbles, prev, rest, response) == Walk(t, bubbles, dataTypes[0], dataTypes[1..], raw)
      decreases |rest|, if inserted then 1 else if passed then 0 else 2
    {
      i := i + 1;
      var current := walked[i];
      assert walked[i..] == [current] + walked[i + 1..];
      if !current.Auto? {
        if !prev.Auto? && prev != current {
          var conv := Direct(t, prev, current);
          var split := false;
          if conv.None? {
            var pair := SeekPair(t, prev, current);
            if pair.Some? {
              PairSplits(t, prev, current);
              var key := t.keys[pair.value];
              conv := Direct(t, prev, key.0);
              if conv.value.Same? {
                conv := Some(t.entries[key]);
              } else if !t.entries[key].Same? {
                current := key.0;
                walked := walked[..i] + [current] + walked[i..];
                i := i - 1;
                split := true;
              }
            }
          }
          if conv.None? {
            return NoConversion(prev, current), walked;
          }
          if conv.value.Convert? {
            outcome := Apply(conv.value, bubbles, response);
            if !outcome.Success? {
              return;
            }
            response := outcome.data;
          }
          if split {
            inserted := true;
          } else {
            rest, passed := rest[1..], false;
          }
        } else if inserted {
          inserted, passed := false, true;
        } else {
          rest := rest[1..];
        }
        prev := current;
      } else {
        rest := rest[1..];
      }
    }
    outcome := Success(response);
  }

  // ----- what a step is -----

  /** The converter that takes `from` to `to`: that of the exact key, or else the one for any type. */
  ghost predicate Serves(t: Table, from: DataType, to: DataType, c: Converter) {
    ((from, to) in t.entries && t.entries[(from, to)] == c) ||
    ((from, to) !in t.entries && (Auto, to) in t.entries && t.entries[(Auto, to)] == c)
  }

  ghost predicate Unserved(t: Table, from: DataType, to: DataType) {
    (from, to) !in t.entries && (Auto, to) !in t.entries
  }

  /** The key leads to `to` from something `from` can be taken to. */
  ghost predicate Leads(t: Table, from: DataType, to: DataType, key: Key) {
    key.1 == to && !Unserved(t, from, key.0)
  }

  /** The first key in the order of the table that does. */
  ghost predicate FirstLeading(t: Table, from: DataType, to: DataType, key: Key) {
    exists k :: 0 <= k < |t.keys| && t.keys[k] == key && Leads(t, from, to, key) &&
                forall j :: 0 <= j < k ==> !Leads(t, from, to, t.keys[j])
  }

  ghost predicate Turns(c: Converter, r: Response, v: Response) {
    match c
    case Same => v == r
    case Convert(f) => f(r) == Some(v)
  }

  ghost predicate Throws(c: Converter, r: Response) {
    c.Convert? && c.f(r).None?
  }

  /** Two converters, one behind the other. */
  ghost predicate PairOf(t: Table, from: DataType, to: DataType, a: Converter, b: Converter) {
    Unserved(t, from, to) &&
    exists key :: FirstLeading(t, from, to, key) && key in t.entries && Serves(t, from, key.0, a) && t.entries[key] == b
  }

  /** The value `v` is reached: directly, or else by the pair. */
  ghost predicate Reaches(t: Table, from: DataType, to: DataType, r: Response, v: Response) {
    (exists c :: Serves(t, from, to, c) && Turns(c, r, v)) ||
    exists a, b, m :: PairOf(t, from, to, a, b) && Turns(a, r, m) && Turns(b, m, v)
  }

  /** A converter throws on the way. */
  ghost predicate FailsOnTheWay(t: Table, from: DataType, to: DataType, r: Response) {
    (exists c :: Serves(t, from, to, c) && Throws(c, r)) ||
    exists a, b :: PairOf(t, from, to, a, b) && (Throws(a, r) || exists m :: Turns(a, r, m) && Throws(b, m))
  }

  /** There is neither a converter nor a pair. */
  ghost predicate NoWay(t: Table, from: DataType, to: DataType) {
    Unserved(t, from, to) && forall key :: key in t.keys ==> !Leads(t, from, to, key)
  }

  lemma {:induction false} FindPairFirst(t: Table, from: DataType, to: DataType, n: nat)
    requires n <= |t.keys|
    ensures var k := FindPair(t, from, to, n);
            if k.None? then forall j :: n <= j < |t.keys| ==> !Leads(t, from, to, t.keys[j])
            else Leads(t, from, to, t.keys[k.value]) && forall j :: n <= j < k.value ==> !Leads(t, from, to, t.keys[j])
    decreases |t.keys| - n
  {
    if n < |t.keys| {
      FindPairFirst(t, from, to, n + 1);
    }
  }

  lemma ServesOne(t: Table, from: DataType, to: DataType)
    ensures Direct(t, from, to).None? <==> Unserved(t, from, to)
    ensures forall c :: Serves(t, from, to, c) <==> Direct(t, from, to) == Some(c)
  {
  }

  lemma OnlyFirst(t: Table, from: DataType, to: DataType, n: nat)
    requires n < |t.keys| && Leads(t, from, to, t.keys[n]) && forall j :: 0 <= j < n ==> !Leads(t, from, to, t.keys[j])
    ensures forall key :: FirstLeading(t, from, to, key) <==> key == t.keys[n]
  {
  }

  lemma PairIs(t: Table, from: DataType, to: DataType, a: Converter, b: Converter)
    requires Complete(t)
    ensures PairOf(t, from, to, a, b) <==>
            Unserved(t, from, to) && FindPair(t, from, to, 0).Some? &&
            var key := t.keys[FindPair(t, from, to, 0).value];
            Direct(t, from, key.0) == Some(a) && t.entries[key] == b
  {
    FindPairFirst(t, from, to, 0);
    var found := FindPair(t, from, to, 0);
    if Unserved(t, from, to) && found.Some? {
      var key := t.keys[found.value];
      assert key in t.keys && key in t.entries;
      OnlyFirst(t, from, to, found.value);
      ServesOne(t, from, key.0);
    }
  }

  lemma ApplyIs(c: Converter, bubbles: bool, r: Response)
    ensures Apply(c, bubbles, r).Success? ==> Turns(c, r, Apply(c, bubbles, r).data) && !Throws(c, r)
    ensures forall v :: Turns(c, r, v) ==> Apply(c, bubbles, r) == Success(v)
    ensures !Apply(c, bubbles, r).Success? ==>
              Throws(c, r) && Apply(c, bubbles, r) == if bubbles then Thrown else ConverterError
  {
  }

  lemma DirectStep(t: Table, bubbles: bool, from: DataType, to: DataType, r: Response)
    requires Complete(t) && Direct(t, from, to).Some?
    ensures var o := Step(t, bubbles, from, to, r);
            (forall v :: o == Success(v) <==> Reaches(t, from, to, r, v)) && !o.NoConversion? &&
            (o == (if bubbles then Thrown else ConverterError) <==> FailsOnTheWay(t, from, to, r)) &&
            (o == (if bubbles then ConverterError else Thrown) ==> false)
  {
    ServesOne(t, from, to);
    var c := Direct(t, from, to).value;
    ApplyIs(c, bubbles, r);
    assert forall a, b :: !PairOf(t, from, to, a, b);
    assert Serves(t, from, to, c);
  }

  lemma PairStep(t: Table, bubbles: bool, from: DataType, to: DataType, r: Response)
    requires Complete(t) && Direct(t, from, to).None? && FindPair(t, from, to, 0).Some?
    ensures var o := Step(t, bubbles, from, to, r);
            (forall v :: o == Success(v) <==> Reaches(t, from, to, r, v)) && !o.NoConversion? &&
            (o == (if bubbles then Thrown else ConverterError) <==> FailsOnTheWay(t, from, to, r)) &&
            (o == (if bubbles then ConverterError else Thrown) ==> false)
  {
    assert forall c :: !Serves(t, from, to, c);
    var key := t.keys[FindPair(t, from, to, 0).value];
    assert key in t.keys;
    var a, b := Direct(t, from, key.0).value, t.entries[key];
    PairIs(t, from, to, a, b);
    forall a', b' ensures PairOf(t, from, to, a', b') <==> a' == a && b' == b {
      PairIs(t, from, to, a', b');
    }
    ApplyIs(a, bubbles, r);
    var first := Apply(a, bubbles, r);
    if first.Success? {
      ApplyIs(b, bubbles, first.data);
      assert forall m :: Turns(a, r, m) <==> m == first.data;
    }
  }

  /** A step succeeds with the value reached; it ends without a conversion exactly if there is neither a converter nor a
      pair; and a converter that throws ends it with an error, or lets the exception out if it is to bubble. */
  lemma StepExactly(t: Table, bubbles: bool, from: DataType, to: DataType, r: Response)
    requires Complete(t)
    ensures var o := Step(t, bubbles, from, to, r);
            (forall v :: o == Success(v) <==> Reaches(t, from, to, r, v)) &&
            (NoWay(t, from, to) <==> o == NoConversion(from, to)) &&
            (o.NoConversion? ==> o == NoConversion(from, to)) &&
            (o == Thrown <==> bubbles && FailsOnTheWay(t, from, to, r)) &&
            (o == ConverterError <==> !bubbles && FailsOnTheWay(t, from, to, r))
  {
    ServesOne(t, from, to);
    forall a, b ensures PairOf(t, from, to, a, b) <==>
            Unserved(t, from, to) && FindPair(t, from, to, 0).Some? &&
            var key := t.keys[FindPair(t, from, to, 0).value];
            Direct(t, from, key.0) == Some(a) && t.entries[key] == b
    {
      PairIs(t, from, to, a, b);
    }
    FindPairFirst(t, from, to, 0);
    var direct, found := Direct(t, from, to), FindPair(t, from, to, 0);
    if direct.Some? {
      DirectStep(t, bubbles, from, to, r);
    } else if found.Some? {
      PairStep(t, bubbles, from, to, r);
    }
  }

  // ----- the walk is a chain of steps -----

  /** The types that ask for something. */
  function Named(types: seq<DataType>): seq<DataType> {
    if types == [] then [] else (if types[0].Auto? then [] else [types[0]]) + Named(types[1..])
  }

  lemma NamedCons(x: DataType, rest: seq<DataType>)
    ensures Named([x] + rest) == (if x.Auto? then [] else [x]) + Named(rest)
  {
    assert ([x] + rest)[1..] == rest;
  }

  /** From one named type to the next: no conversion if they are the same. */
  ghost predicate Becomes(t: Table, bubbles: bool, from: DataType, to: DataType, r: Response, v: Response)
    requires Complete(t)
  {
    if from == to then v == r else Step(t, bubbles, from, to, r) == Success(v)
  }

  /** The values at the first named types. */
  ghost predicate Chain(t: Table, bubbles: bool, named: seq<DataType>, values: seq<Response>, r: Response)
    requires Complete(t)
  {
    values != [] && values[0] == r && (|values| == 1 || |values| <= |named|) &&
    forall i :: 0 <= i < |values| - 1 ==> Becomes(t, bubbles, named[i], named[i + 1], values[i], values[i + 1])
  }

  /** What ends the chain: all types are reached, or the next step fails. */
  ghost predicate Ended(t: Table, bubbles: bool, named: seq<DataType>, values: seq<Response>, o: Outcome)
    requires Complete(t) && values != []
  {
    var n := |values|;
    if n >= |named| then o == Success(values[n - 1])
    else named[n - 1] != named[n] && !o.Success? && o == Step(t, bubbles, named[n - 1], named[n], values[n - 1])
  }

  /** The response goes through the named types in turn, up to the last, or to the first step that fails. */
  lemma {:induction false} WalkIsChain(t: Table, bubbles: bool, from: DataType, targets: seq<DataType>, r: Response)
    requires Complete(t)
    ensures var named := Named([from] + targets);
            exists values :: Chain(t, bubbles, named, values, r) &&
                             Ended(t, bubbles, named, values, Walk(t, bubbles, from, targets, r))
    decreases |targets|
  {
    var named := Named([from] + targets);
    NamedCons(from, targets);
    var o := Walk(t, bubbles, from, targets, r);
    if targets == [] {
      assert Named(targets) == [];
      assert Chain(t, bubbles, named, [r], r) && Ended(t, bubbles, named, [r], o);
    } else {
      var to, more := targets[0], targets[1..];
      assert [to] + more == targets;
      NamedCons(to, more);
      NamedCons(from, more);
      if to.Auto? {
        WalkIsChain(t, bubbles, from, more, r);
        assert Named([from] + more) == named;
      } else if from.Auto? {
        WalkIsChain(t, bubbles, to, more, r);
        assert Named([to] + more) == named && o == Walk(t, bubbles, to, more, r);
      } else if from == to || Step(t, bubbles, from, to, r).Success? {
        var v := if from == to then r else Step(t, bubbles, from, to, r).data;
        WalkIsChain(t, bubbles, to, more, v);
        var rest := Named([to] + more);
        var values :| Chain(t, bubbles, rest, values, v) && Ended(t, bubbles, rest, values, o);
        ChainLonger(t, bubbles, from, rest, r, values, o);
        assert named == [from] + rest && ([r] + values)[0] == r;
      } else {
        assert named[0] == from && named[1] == to;
        assert Chain(t, bubbles, named, [r], r) && Ended(t, bubbles, named, [r], o);
      }
    }
  }

  lemma ChainLonger(t: Table, bubbles: bool, from: DataType, rest: seq<DataType>, r: Response, values: seq<Response>,
                    o: Outcome)
    requires Complete(t) && rest != [] && values != [] && Becomes(t, bubbles, from, rest[0], r, values[0])
    requires Chain(t, bubbles, rest, values, values[0]) && Ended(t, bubbles, rest, values, o)
    ensures Chain(t, bubbles, [from] + rest, [r] + values, r) && Ended(t, bubbles, [from] + rest, [r] + values, o)
  {
    var named, all := [from] + rest, [r] + values;
    forall i | 0 <= i < |all| - 1 ensures Becomes(t, bubbles, named[i], named[i + 1], all[i], all[i + 1]) {
      if i > 0 {
        assert Becomes(t, bubbles, rest[i - 1], rest[i], values[i - 1], values[i]);
      }
    }
  }

  // ----- types -----

  /** Every converter does what its key says: from a value of the first type it makes one of the second.
      A key that begins with `*` takes any value. */
  ghost predicate Sound(t: Table, hasType: (Response, DataType) -> bool) {
    forall k: Key, r: Response :: k in t.entries && (k.0.Auto? || hasType(r, k.0)) ==>
        Yields(t.entries[k], r, k.1, hasType)
  }

  ghost predicate Yields(c: Converter, r: Response, to: DataType, hasType: (Response, DataType) -> bool) {
    match c
    case Same => hasType(r, to)
    case Convert(f) => f(r).Some? ==> hasType(f(r).value, to)
  }

  function FirstNamed(types: seq<DataType>): DataType {
    if types == [] then Auto else if types[0].Auto? then FirstNamed(types[1..]) else types[0]
  }

  function LastNamed(types: seq<DataType>): DataType {
    if types == [] then Auto
    else if types[|types| - 1].Auto? then LastNamed(types[..|types| - 1]) else types[|types| - 1]
  }

  lemma ApplyTyped(t: Table, hasType: (Response, DataType) -> bool, bubbles: bool, from: DataType, to: DataType,
      r: Response)
    requires Sound(t, hasType) && Direct(t, from, to).Some? && hasType(r, from)
    ensures var next := Apply(Direct(t, from, to).value, bubbles, r);
            next.Success? ==> hasType(next.data, to)
  {
    var k := if (from, to) in t.entries then (from, to) else (Auto, to);
    assert Yields(t.entries[k], r, k.1, hasType);
  }

  /** A step on a value of the declared type ends, if it ends well, in a value of the next type. */
  lemma StepTyped(t: Table, hasType: (Response, DataType) -> bool, bubbles: bool, from: DataType, to: DataType,
      r: Response)
    requires Complete(t) && Sound(t, hasType) && hasType(r, from)
    ensures var next := Step(t, bubbles, from, to, r);
            next.Success? ==> hasType(next.data, to)
  {
    if Direct(t, from, to).Some? {
      ApplyTyped(t, hasType, bubbles, from, to, r);
    } else if FindPair(t, from, to, 0).Some? {
      PairSplits(t, from, to);
      var key := t.keys[FindPair(t, from, to, 0).value];
      ApplyTyped(t, hasType, bubbles, from, key.0, r);
      var first := Apply(Direct(t, from, key.0).value, bubbles, r);
      if first.Success? {
        ApplyTyped(t, hasType, bubbles, key.0, to, first.data);
      }
    }
  }

  lemma LastNamedOfRest(types: seq<DataType>)
    requires types != []
    ensures LastNamed(types) == if LastNamed(types[1..]).Auto? then types[0] else LastNamed(types[1..])
    decreases |types|
  {
    if |types| > 1 {
      var n := |types| - 1;
      assert types[1..][..n - 1] == types[..n][1..];
      LastNamedOfRest(types[..n]);
    }
  }

  /** A conversion that succeeds yields a value of the last type asked for, if the response was of the
      first type named (or nothing but `*` was asked for). */
  lemma {:induction false} WalkTyped(t: Table, hasType: (Response, DataType) -> bool, bubbles: bool,
                                     from: DataType, targets: seq<DataType>, r: Response)
    requires Complete(t) && Sound(t, hasType)
    requires hasType(r, FirstNamed([from] + targets))
    ensures var end := Walk(t, bubbles, from, targets, r);
            end.Success? ==> hasType(end.data, LastNamed([from] + targets))
    decreases |targets|
  {
    var types := [from] + targets;
    assert types[1..] == targets;
    LastNamedOfRest(types);
    if targets != [] {
      var to, more := targets[0], targets[1..];
      LastNamedOfRest(targets);
      assert [to] + more == targets;
      LastNamedOfRest([from] + more);
      assert ([from] + more)[1..] == more;
      if to.Auto? {
        assert FirstNamed(targets) == FirstNamed(more);
        WalkTyped(t, hasType, bubbles, from, more, r);
      } else if from.Auto? || from == to {
        WalkTyped(t, hasType, bubbles, to, more, r);
      } else {
        StepTyped(t, hasType, bubbles, from, to, r);
        var next := Step(t, bubbles, from, to, r);
        if next.Success? {
          WalkTyped(t, hasType, bubbles, to, more, next.data);
        }
      }
    }
  }
}
