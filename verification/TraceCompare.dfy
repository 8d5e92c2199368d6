/**
 * Comparing two captured traces: the event order every capture must keep, and
 * the search for the first difference between two JSON trees.
 */
module TraceCompare {
  import opened Common

  // ----- Event order

  /** What the loader reads of a scenario: its id and the kinds of its events. */
  datatype Scenario = Scenario(id: string, kinds: seq<string>)

  /** CLI_PARSE first and only first, EXIT last and only last. */
  predicate InOrder(kinds: seq<string>) {
    && kinds != [] && kinds[0] == "CLI_PARSE" && kinds[|kinds| - 1] == "EXIT"
    && (forall i :: 1 <= i < |kinds| ==> kinds[i] != "CLI_PARSE")
    && (forall i :: 0 <= i < |kinds| - 1 ==> kinds[i] != "EXIT")
  }

  ghost predicate AllInOrder(scenarios: seq<Scenario>) {
    && (forall i :: 0 <= i < |scenarios| ==> InOrder(scenarios[i].kinds))
    && (forall i, j :: 0 <= i < j < |scenarios| ==> scenarios[i].id != scenarios[j].id)
  }

  /** Accepts exactly the captures whose scenarios have different ids and are all in order. */
  method CheckScenarios(scenarios: seq<Scenario>) returns (ok: bool)
    ensures ok <==> AllInOrder(scenarios)
  {
    var ids: set<string> := {};
    for i := 0 to |scenarios|
      invariant AllInOrder(scenarios[..i])
      invariant forall id :: id in ids <==> exists k :: 0 <= k < i && scenarios[k].id == id
    {
      var scenario := scenarios[i];
      if scenario.id in ids { return false; }
      ids := ids + {scenario.id};
      var kinds := scenario.kinds;
      if kinds == [] || kinds[0] != "CLI_PARSE" || kinds[|kinds| - 1] != "EXIT" { return false; }
      for k := 0 to |kinds|
        invariant forall j :: 1 <= j < k ==> kinds[j] != "CLI_PARSE"
        invariant forall j :: 0 <= j < k && j < |kinds| - 1 ==> kinds[j] != "EXIT"
      {
        if k > 0 && kinds[k] == "CLI_PARSE" { return false; }
        if k < |kinds| - 1 && kinds[k] == "EXIT" { return false; }
      }
    }
    assert scenarios[..|scenarios|] == scenarios;
    return true;
  }

  // ----- JSON trees

  datatype FloatValue = Finite(value: real) | Infinity | NegativeInfinity | NotANumber

  /** Dictionaries keep the order in which their fields were read. */
  datatype Json =
    | Null
    | Bool(flag: bool)
    | Int(number: int)
    | Float(float: FloatValue)
    | Str(text: string)
    | List(items: seq<Json>)
    | Dict(fields: seq<Field>)

  datatype Field = Field(key: string, value: Json)

  predicate SameType(e: Json, a: Json) {
    match e
    case Null => a.Null?
    case Bool(_) => a.Bool?
    case Int(_) => a.Int?
    case Float(_) => a.Float?
    case Str(_) => a.Str?
    case List(_) => a.List?
    case Dict(_) => a.Dict?
  }

  /** A key's position, or the number of fields when there is none. */
  function Find(fields: seq<Field>, key: string): (i: nat)
    ensures i <= |fields| && (i < |fields| ==> fields[i].key == key)
    ensures forall k :: 0 <= k < i ==> fields[k].key != key
  {
    if fields == [] || fields[0].key == key then 0 else 1 + Find(fields[1..], key)
  }

  predicate Has(fields: seq<Field>, key: string) {
    Find(fields, key) < |fields|
  }

  predicate DistinctKeys(fields: seq<Field>) {
    forall i, j :: 0 <= i < j < |fields| ==> fields[i].key != fields[j].key
  }

  /** As the loader guarantees, no object has a key twice. */
  predicate WellFormed(j: Json) {
    match j
    case List(items) => forall i :: 0 <= i < |items| ==> WellFormed(items[i])
    case Dict(fields) => DistinctKeys(fields) && forall i :: 0 <= i < |fields| ==> WellFormed(fields[i].value)
    case _ => true
  }

  lemma FindAt(fields: seq<Field>, i: nat)
    requires DistinctKeys(fields) && i < |fields|
    ensures Find(fields, fields[i].key) == i
  {
  }

  /** Python equality of two leaves of the same type; a NaN is not equal to itself. */
  predicate LeafEqual(e: Json, a: Json) {
    e == a && e != Float(NotANumber)
  }

  /** Equal trees of equal types, whatever the order of dictionary fields. */
  predicate Same(e: Json, a: Json)
    decreases e
  {
    && SameType(e, a)
    && match e
       case List(items) => |items| == |a.items| && forall i :: 0 <= i < |items| ==> Same(items[i], a.items[i])
       case Dict(fields) =>
         && (forall i :: 0 <= i < |a.fields| ==> Has(fields, a.fields[i].key))
         && (forall i :: 0 <= i < |fields| ==>
               Has(a.fields, fields[i].key) && Same(fields[i].value, a.fields[Find(a.fields, fields[i].key)].value))
       case _ => LeafEqual(e, a)
  }

  // ----- The search

  datatype Step = Key(key: string) | Index(index: nat)

  /** None stands for a missing entry. */
  datatype Difference = Difference(path: seq<Step>, expected: Option<Json>, actual: Option<Json>)

  function Under(step: Step, d: Difference): Difference {
    d.(path := [step] + d.path)
  }

  /** Order of strings by their characters. */
  predicate Less(s: string, t: string) {
    if t == "" then false
    else if s == "" then true
    else if s[0] != t[0] then s[0] < t[0]
    else Less(s[1..], t[1..])
  }

  /** The least key of the actual fields from i on that is not expected, by position. */
  function LeastExtra(fields: seq<Field>, actual: seq<Field>, i: nat): (r: Option<nat>)
    requires i <= |actual|
    ensures r.Some? ==> i <= r.value < |actual|
    decreases |actual| - i
  {
    if i == |actual| then None
    else
      var rest := LeastExtra(fields, actual, i + 1);
      if Has(fields, actual[i].key) then rest
      else if rest.Some? && Less(actual[rest.value].key, actual[i].key) then rest
      else Some(i)
  }

  function FirstDifference(e: Json, a: Json): Option<Difference>
    decreases e, 1, 0
  {
    if !SameType(e, a) then Some(Difference([], Some(e), Some(a)))
    else
      match e
      case List(_) => ListDifference(e, a, 0)
      case Dict(_) => DictDifference(e, a, 0)
      case _ => if LeafEqual(e, a) then None else Some(Difference([], Some(e), Some(a)))
  }

  function ListDifference(e: Json, a: Json, i: nat): Option<Difference>
    requires e.List? && a.List? && i <= Min(|e.items|, |a.items|)
    decreases e, 0, |e.items| - i
  {
    if i < |e.items| && i < |a.items| then
      var d := FirstDifference(e.items[i], a.items[i]);
      if d.Some? then Some(Under(Index(i), d.value)) else ListDifference(e, a, i + 1)
    else if |e.items| != |a.items| then
      Some(Difference([Index(i)], if i < |e.items| then Some(e.items[i]) else None,
                                  if i < |a.items| then Some(a.items[i]) else None))
    else None
  }

  /** Expected keys in their order, then the others in sorted order. */
  function DictDifference(e: Json, a: Json, i: nat): Option<Difference>
    requires e.Dict? && a.Dict? && i <= |e.fields|
    decreases e, 0, |e.fields| - i
  {
    if i < |e.fields| then
      var field := e.fields[i];
      var at := Find(a.fields, field.key);
      if at == |a.fields| then Some(Difference([Key(field.key)], Some(field.value), None))
      else
        var d := FirstDifference(field.value, a.fields[at].value);
        if d.Some? then Some(Under(Key(field.key), d.value)) else DictDifference(e, a, i + 1)
    else
      var extra := LeastExtra(e.fields, a.fields, 0);
      if extra.None? then None
      else Some(Difference([Key(a.fields[extra.value].key)], None, Some(a.fields[extra.value].value)))
  }

  // ----- The least unexpected key

  lemma {:induction false} LessAsymmetric(s: string, t: string)
    requires Less(s, t)
    ensures !Less(t, s)
    decreases |s|
  {
    if s != "" && s[0] == t[0] {
      LessAsymmetric(s[1..], t[1..]);
    }
  }

  lemma {:induction false} NotLessTransitive(s: string, t: string, u: string)
    requires !Less(t, s) && !Less(u, t)
    ensures !Less(u, s)
    decreases |s|
  {
    if s != "" && t != "" && u != "" && s[0] == t[0] == u[0] {
      NotLessTransitive(s[1..], t[1..], u[1..]);
    }
  }

  /** The order of strings: a proper prefix comes first, otherwise the first difference decides. */
  lemma {:induction false} LessIsLexicographic(s: string, t: string)
    ensures Less(s, t) <==> s < t || exists i :: 0 <= i < |s| && i < |t| && s[..i] == t[..i] && s[i] < t[i]
    decreases |s|
  {
    if s != "" && t != "" && s[0] == t[0] {
      LessIsLexicographic(s[1..], t[1..]);
      if i :| 0 <= i < |s| && i < |t| && s[..i] == t[..i] && s[i] < t[i] {
        assert s[1..][..i - 1] == t[1..][..i - 1] by {
          assert s[..i][1..] == s[1..][..i - 1] && t[..i][1..] == t[1..][..i - 1];
        }
        assert s[1..][i - 1] < t[1..][i - 1];
      }
      if j :| 0 <= j < |s| - 1 && j < |t| - 1 && s[1..][..j] == t[1..][..j] && s[1..][j] < t[1..][j] {
        assert s[..j + 1] == [s[0]] + s[1..][..j] && t[..j + 1] == [t[0]] + t[1..][..j];
        assert s[j + 1] < t[j + 1];
      }
    } else if s != "" && t != "" {
      if s[0] < t[0] { assert s[..0] == t[..0]; }
    }
  }

  predicate Extra(fields: seq<Field>, actual: seq<Field>, k: nat) {
    k < |actual| && !Has(fields, actual[k].key)
  }

  lemma {:induction false} LeastExtraIsLeast(fields: seq<Field>, actual: seq<Field>, i: nat)
    requires i <= |actual|
    ensures LeastExtra(fields, actual, i).None? <==> forall k: nat :: i <= k < |actual| ==> !Extra(fields, actual, k)
    ensures var r := LeastExtra(fields, actual, i);
            r.Some? ==> Extra(fields, actual, r.value)
                        && forall k: nat :: i <= k && Extra(fields, actual, k) ==> !Less(actual[k].key, actual[r.value].key)
    decreases |actual| - i
  {
    if i < |actual| {
      LeastExtraIsLeast(fields, actual, i + 1);
      var rest := LeastExtra(fields, actual, i + 1);
      if Extra(fields, actual, i) && rest.Some? {
        if Less(actual[rest.value].key, actual[i].key) {
          LessAsymmetric(actual[rest.value].key, actual[i].key);
        } else {
          forall k: nat | i <= k && Extra(fields, actual, k) ensures !Less(actual[k].key, actual[i].key) {
            if k == i {
              NotLessSelf(actual[i].key);
            } else {
              NotLessTransitive(actual[i].key, actual[rest.value].key, actual[k].key);
            }
          }
        }
      } else if Extra(fields, actual, i) {
        NotLessSelf(actual[i].key);
      }
    }
  }

  lemma {:induction false} NotLessSelf(s: string)
    ensures !Less(s, s)
  {
    if s != "" { NotLessSelf(s[1..]); }
  }

  // ----- No difference means equal

  /** The search finds nothing exactly when the trees are equal with equal types. */
  lemma {:induction false} NoDifferenceIsSame(e: Json, a: Json)
    ensures FirstDifference(e, a).None? <==> Same(e, a)
    decreases e, 1, 0
  {
    if SameType(e, a) {
      if e.List? {
        ListNone(e, a, 0);
      } else if e.Dict? {
        DictNone(e, a, 0);
        DictSame(e, a);
      }
    }
  }

  lemma {:induction false} ListNone(e: Json, a: Json, i: nat)
    requires e.List? && a.List? && i <= Min(|e.items|, |a.items|)
    ensures ListDifference(e, a, i).None?
       <==> |e.items| == |a.items| && forall k :: i <= k < |e.items| ==> Same(e.items[k], a.items[k])
    decreases e, 0, |e.items| - i
  {
    if i < |e.items| && i < |a.items| {
      NoDifferenceIsSame(e.items[i], a.items[i]);
      ListNone(e, a, i + 1);
    }
  }

  /** Field i of the expected dictionary has an equal counterpart. */
  predicate FieldSame(e: Json, a: Json, i: nat)
    requires e.Dict? && a.Dict? && i < |e.fields|
  {
    var at := Find(a.fields, e.fields[i].key);
    at < |a.fields| && Same(e.fields[i].value, a.fields[at].value)
  }

  predicate FieldsSame(e: Json, a: Json, i: nat)
    requires e.Dict? && a.Dict?
  {
    forall k: nat :: i <= k < |e.fields| ==> FieldSame(e, a, k)
  }

  predicate NoExtra(fields: seq<Field>, actual: seq<Field>) {
    forall k: nat :: k < |actual| ==> !Extra(fields, actual, k)
  }

  lemma DictSame(e: Json, a: Json)
    requires e.Dict? && a.Dict?
    ensures Same(e, a) <==> FieldsSame(e, a, 0) && NoExtra(e.fields, a.fields)
  {
    if Same(e, a) {
      forall k: nat | k < |e.fields| ensures FieldSame(e, a, k) {
        assert Has(a.fields, e.fields[k].key);
      }
      forall k: nat | k < |a.fields| ensures !Extra(e.fields, a.fields, k) {
        assert Has(e.fields, a.fields[k].key);
      }
    }
    if FieldsSame(e, a, 0) && NoExtra(e.fields, a.fields) {
      forall i | 0 <= i < |e.fields|
        ensures Has(a.fields, e.fields[i].key)
             && Same(e.fields[i].value, a.fields[Find(a.fields, e.fields[i].key)].value)
      {
        assert FieldSame(e, a, i);
      }
      forall i | 0 <= i < |a.fields| ensures Has(e.fields, a.fields[i].key) {
        assert !Extra(e.fields, a.fields, i);
      }
    }
  }

  lemma FieldsSameFrom(e: Json, a: Json, i: nat)
    requires e.Dict? && a.Dict? && i < |e.fields|
    ensures FieldsSame(e, a, i) <==> FieldSame(e, a, i) && FieldsSame(e, a, i + 1)
  {
  }

  lemma {:induction false} DictNone(e: Json, a: Json, i: nat)
    requires e.Dict? && a.Dict? && i <= |e.fields|
    ensures DictDifference(e, a, i).None? <==> FieldsSame(e, a, i) && NoExtra(e.fields, a.fields)
    decreases e, 0, |e.fields| - i
  {
    if i < |e.fields| {
      var at := Find(a.fields, e.fields[i].key);
      if at < |a.fields| {
        NoDifferenceIsSame(e.fields[i].value, a.fields[at].value);
      }
      FieldsSameFrom(e, a, i);
      DictNone(e, a, i + 1);
    } else {
      LeastExtraIsLeast(e.fields, a.fields, 0);
    }
  }

  /** Nothing in the tree is a NaN. */
  predicate NoNaN(j: Json) {
    match j
    case Float(f) => f != NotANumber
    case List(items) => forall i :: 0 <= i < |items| ==> NoNaN(items[i])
    case Dict(fields) => forall i :: 0 <= i < |fields| ==> NoNaN(fields[i].value)
    case _ => true
  }

  /** A capture compared with itself shows a difference exactly when it contains a NaN. */
  lemma {:induction false} SelfComparison(j: Json)
    requires WellFormed(j)
    ensures Same(j, j) <==> NoNaN(j)
    ensures FirstDifference(j, j).None? <==> NoNaN(j)
  {
    NoDifferenceIsSame(j, j);
    match j
    case List(items) =>
      forall i | 0 <= i < |items| ensures Same(items[i], items[i]) <==> NoNaN(items[i]) {
        SelfComparison(items[i]);
      }
    case Dict(fields) =>
      forall i | 0 <= i < |fields|
        ensures Find(fields, fields[i].key) == i && (Same(fields[i].value, fields[i].value) <==> NoNaN(fields[i].value))
      {
        FindAt(fields, i);
        SelfComparison(fields[i].value);
      }
    case _ =>
  }

  /** The same tree with the fields of its objects in another order, at any level. */
  predicate Reordered(j: Json, j': Json)
    decreases j
  {
    match j
    case List(items) =>
      j'.List? && |items| == |j'.items| && forall i :: 0 <= i < |items| ==> Reordered(items[i], j'.items[i])
    case Dict(fields) =>
      && j'.Dict?
      && (forall i :: 0 <= i < |j'.fields| ==> Has(fields, j'.fields[i].key))
      && (forall i :: 0 <= i < |fields| ==>
            Has(j'.fields, fields[i].key) && Reordered(fields[i].value, j'.fields[Find(j'.fields, fields[i].key)].value))
    case _ => j == j'
  }

  lemma {:induction false} ReorderedSelf(j: Json)
    requires WellFormed(j)
    ensures Reordered(j, j)
  {
    match j
    case List(items) =>
      forall i | 0 <= i < |items| ensures Reordered(items[i], items[i]) { ReorderedSelf(items[i]); }
    case Dict(fields) =>
      forall i | 0 <= i < |fields|
        ensures Find(fields, fields[i].key) == i && Reordered(fields[i].value, fields[i].value)
      {
        FindAt(fields, i);
        ReorderedSelf(fields[i].value);
      }
    case _ =>
  }

  lemma FieldMoves(e: seq<Field>, e': seq<Field>, i: nat) returns (k: nat)
    requires multiset(e) == multiset(e') && i < |e'|
    ensures k < |e| && e[k] == e'[i]
  {
    assert e'[i] in multiset(e);
    k :| 0 <= k < |e| && e[k] == e'[i];
  }

  /** A permutation of the fields of an object is such a reordering. */
  lemma PermutedFields(e: seq<Field>, e': seq<Field>)
    requires WellFormed(Dict(e)) && DistinctKeys(e') && multiset(e) == multiset(e')
    ensures Reordered(Dict(e), Dict(e'))
  {
    forall i | 0 <= i < |e|
      ensures Has(e', e[i].key) && Reordered(e[i].value, e'[Find(e', e[i].key)].value)
    {
      var k := FieldMoves(e', e, i);
      FindAt(e', k);
      ReorderedSelf(e[i].value);
    }
    forall i | 0 <= i < |e'| ensures Has(e, e'[i].key) {
      var k := FieldMoves(e, e', i);
      FindAt(e, k);
    }
  }

  lemma {:induction false} ReorderedBack(j: Json, j': Json)
    requires WellFormed(j) && WellFormed(j') && Reordered(j, j')
    ensures Reordered(j', j)
    decreases j
  {
    match j
    case List(items) =>
      forall i | 0 <= i < |items| ensures Reordered(j'.items[i], items[i]) { ReorderedBack(items[i], j'.items[i]); }
    case Dict(fields) =>
      forall i | 0 <= i < |j'.fields|
        ensures Has(fields, j'.fields[i].key)
             && Reordered(j'.fields[i].value, fields[Find(fields, j'.fields[i].key)].value)
      {
        var k := Find(fields, j'.fields[i].key);
        FindAt(j'.fields, i);
        ReorderedBack(fields[k].value, j'.fields[i].value);
      }
    case _ =>
  }

  lemma {:induction false} SameMoves(e: Json, a: Json, e': Json, a': Json)
    requires WellFormed(e) && WellFormed(a) && WellFormed(e') && WellFormed(a')
    requires Reordered(e, e') && Reordered(a, a') && Same(e, a)
    ensures Same(e', a')
    decreases e
  {
    match e
    case List(items) =>
      forall i | 0 <= i < |items| ensures Same(e'.items[i], a'.items[i]) {
        SameMoves(items[i], a.items[i], e'.items[i], a'.items[i]);
      }
    case Dict(fields) =>
      DictMoves(e, a, e', a');
    case _ =>
  }

  lemma {:induction false} DictMoves(e: Json, a: Json, e': Json, a': Json)
    requires e.Dict? && WellFormed(e) && WellFormed(a) && WellFormed(e') && WellFormed(a')
    requires Reordered(e, e') && Reordered(a, a') && Same(e, a)
    ensures Same(e', a')
    decreases e, 0
  {
    DictSame(e, a);
    DictSame(e', a');
    forall i: nat | i < |e'.fields| ensures FieldSame(e', a', i) {
      var key := e'.fields[i].key;
      var p := Find(e.fields, key);
      assert FieldSame(e, a, p);
      var q := Find(a.fields, key);
      FindAt(e'.fields, i);
      SameMoves(e.fields[p].value, a.fields[q].value, e'.fields[i].value, a'.fields[Find(a'.fields, key)].value);
    }
    forall i: nat | i < |a'.fields| ensures !Extra(e'.fields, a'.fields, i) {
      var q := Find(a.fields, a'.fields[i].key);
      assert !Extra(e.fields, a.fields, q);
      var p := Find(e.fields, a'.fields[i].key);
      assert Has(e'.fields, e.fields[p].key);
    }
  }

  /** Reordering fields at any level of either tree does not change whether there is a difference. */
  lemma FieldOrderDoesNotMatter(e: Json, a: Json, e': Json, a': Json)
    requires WellFormed(e) && WellFormed(a) && WellFormed(e') && WellFormed(a')
    requires Reordered(e, e') && Reordered(a, a')
    ensures FirstDifference(e, a).None? <==> FirstDifference(e', a').None?
  {
    NoDifferenceIsSame(e, a);
    NoDifferenceIsSame(e', a');
    ReorderedBack(e, e');
    ReorderedBack(a, a');
    if Same(e, a) {
      SameMoves(e, a, e', a');
    } else if Same(e', a') {
      SameMoves(e', a', e, a);
    }
  }

  // ----- Reordering the actual tree

  /** The same place and expected entry; the actual entry is the same up to the order of fields. */
  predicate SameReport(d: Option<Difference>, d': Option<Difference>) {
    && (d.Some? <==> d'.Some?)
    && (d.Some? ==>
          && d.value.path == d'.value.path && d.value.expected == d'.value.expected
          && (d.value.actual.Some? <==> d'.value.actual.Some?)
          && (d.value.actual.Some? ==> Reordered(d.value.actual.value, d'.value.actual.value)))
  }

  lemma {:induction false} LessTotal(s: string, t: string)
    requires !Less(s, t) && !Less(t, s)
    ensures s == t
    decreases |s|
  {
    if s != "" && t != "" {
      LessTotal(s[1..], t[1..]);
      assert s == [s[0]] + s[1..] && t == [t[0]] + t[1..];
    }
  }

  /** The least unexpected key is the same in every order of the fields. */
  lemma LeastExtraMoves(fields: seq<Field>, a: Json, a': Json)
    requires a.Dict? && WellFormed(a) && WellFormed(a') && Reordered(a, a')
    ensures var r, r' := LeastExtra(fields, a.fields, 0), LeastExtra(fields, a'.fields, 0);
            && (r.Some? <==> r'.Some?)
            && (r.Some? ==> a.fields[r.value].key == a'.fields[r'.value].key
                            && Reordered(a.fields[r.value].value, a'.fields[r'.value].value))
  {
    ReorderedBack(a, a');
    LeastExtraIsLeast(fields, a.fields, 0);
    LeastExtraIsLeast(fields, a'.fields, 0);
    var r, r' := LeastExtra(fields, a.fields, 0), LeastExtra(fields, a'.fields, 0);
    if r.Some? {
      assert Extra(fields, a'.fields, Find(a'.fields, a.fields[r.value].key));
    }
    if r'.Some? {
      assert Extra(fields, a.fields, Find(a.fields, a'.fields[r'.value].key));
    }
    if r.Some? && r'.Some? {
      LessTotal(a.fields[r.value].key, a'.fields[r'.value].key);
      FindAt(a'.fields, r'.value);
    }
  }

  /** The order of the fields in the actual tree, at any level, has no influence on which difference is reported. */
  lemma {:induction false} ActualOrderDoesNotMatter(e: Json, a: Json, a': Json)
    requires WellFormed(a) && WellFormed(a') && Reordered(a, a')
    ensures SameReport(FirstDifference(e, a), FirstDifference(e, a'))
    decreases e, 1, 0
  {
    if SameType(e, a) {
      if e.List? {
        ListReportMoves(e, a, a', 0);
      } else if e.Dict? {
        DictReportMoves(e, a, a', 0);
      }
    }
  }

  lemma {:induction false} ListReportMoves(e: Json, a: Json, a': Json, i: nat)
    requires WellFormed(a) && WellFormed(a') && Reordered(a, a')
    requires e.List? && a.List? && i <= Min(|e.items|, |a.items|)
    ensures SameReport(ListDifference(e, a, i), ListDifference(e, a', i))
    decreases e, 0, |e.items| - i
  {
    if i < |e.items| && i < |a.items| {
      ActualOrderDoesNotMatter(e.items[i], a.items[i], a'.items[i]);
      ListReportMoves(e, a, a', i + 1);
    }
  }

  lemma {:induction false} DictReportMoves(e: Json, a: Json, a': Json, i: nat)
    requires WellFormed(a) && WellFormed(a') && Reordered(a, a')
    requires e.Dict? && a.Dict? && i <= |e.fields|
    ensures SameReport(DictDifference(e, a, i), DictDifference(e, a', i))
    decreases e, 0, |e.fields| - i
  {
    if i < |e.fields| {
      var key := e.fields[i].key;
      var p, q := Find(a.fields, key), Find(a'.fields, key);
      ReorderedBack(a, a');
      assert p < |a.fields| <==> q < |a'.fields|;
      if p < |a.fields| {
        ActualOrderDoesNotMatter(e.fields[i].value, a.fields[p].value, a'.fields[q].value);
      }
      DictReportMoves(e, a, a', i + 1);
    } else {
      LeastExtraMoves(e.fields, a, a');
    }
  }

  /** The order of the fields in the expected tree has. */
  lemma ExpectedOrderMatters(x: string, y: string)
    requires x != y
    ensures var e, e' := Dict([Field(x, Null), Field(y, Null)]), Dict([Field(y, Null), Field(x, Null)]);
            && Reordered(e, e')
            && FirstDifference(e, Dict([])) == Some(Difference([Key(x)], Some(Null), None))
            && FirstDifference(e', Dict([])) == Some(Difference([Key(y)], Some(Null), None))
  {
    var f, g := Field(x, Null), Field(y, Null);
    PermutedFields([f, g], [g, f]);
  }

  // ----- Where the difference is

  /** The entry a path leads to, if there is one. */
  function Follow(j: Json, path: seq<Step>): Option<Json>
    decreases |path|
  {
    if path == [] then Some(j)
    else
      match path[0]
      case Index(i) => if j.List? && i < |j.items| then Follow(j.items[i], path[1..]) else None
      case Key(k) => if j.Dict? && Has(j.fields, k) then Follow(j.fields[Find(j.fields, k)].value, path[1..]) else None
  }

  /** At every level of the path, everything visited before the step taken is equal. */
  ghost predicate EarlierSame(e: Json, a: Json, path: seq<Step>)
    decreases |path|
  {
    path == [] ||
    match path[0]
    case Index(i) =>
      && e.List? && a.List? && i <= |e.items| && i <= |a.items|
      && (forall k :: 0 <= k < i ==> Same(e.items[k], a.items[k]))
      && (i < |e.items| && i < |a.items| ==> EarlierSame(e.items[i], a.items[i], path[1..]))
    case Key(key) =>
      && e.Dict? && a.Dict?
      && (forall k: nat :: k < Find(e.fields, key) && k < |e.fields| ==> FieldSame(e, a, k))
      && (!Has(e.fields, key) ==>
            Has(a.fields, key)
            && forall k: nat :: Extra(e.fields, a.fields, k) ==> !Less(a.fields[k].key, key))
      && (Has(e.fields, key) && Has(a.fields, key) ==>
            EarlierSame(e.fields[Find(e.fields, key)].value, a.fields[Find(a.fields, key)].value, path[1..]))
  }

  /** Two entries that differ by themselves: one is missing, the types differ, or they are unequal leaves. */
  predicate Differ(x: Option<Json>, y: Option<Json>) {
    if x.None? || y.None? then x.Some? || y.Some?
    else !SameType(x.value, y.value) || (!x.value.List? && !x.value.Dict? && !LeafEqual(x.value, y.value))
  }

  ghost predicate Located(e: Json, a: Json, d: Difference) {
    && Follow(e, d.path) == d.expected && Follow(a, d.path) == d.actual
    && Differ(d.expected, d.actual) && EarlierSame(e, a, d.path)
  }

  /** The path of a reported difference leads to the two reported entries, they differ, and all before is equal. */
  lemma {:induction false} DifferenceIsLocated(e: Json, a: Json)
    requires WellFormed(e) && WellFormed(a) && FirstDifference(e, a).Some?
    ensures Located(e, a, FirstDifference(e, a).value)
    decreases e, 1, 0
  {
    if SameType(e, a) {
      if e.List? {
        ListLocated(e, a, 0);
      } else if e.Dict? {
        DictLocated(e, a, 0);
      }
    }
  }

  lemma IndexLocated(e: Json, a: Json, i: nat, d: Difference)
    requires e.List? && a.List? && i < |e.items| && i < |a.items|
    requires forall k :: 0 <= k < i ==> Same(e.items[k], a.items[k])
    requires Located(e.items[i], a.items[i], d)
    ensures Located(e, a, Under(Index(i), d))
  {
    assert ([Index(i)] + d.path)[1..] == d.path;
  }

  lemma {:induction false} ListLocated(e: Json, a: Json, i: nat)
    requires e.List? && a.List? && i <= Min(|e.items|, |a.items|) && WellFormed(e) && WellFormed(a)
    requires forall k :: 0 <= k < i ==> Same(e.items[k], a.items[k])
    requires ListDifference(e, a, i).Some?
    ensures Located(e, a, ListDifference(e, a, i).value)
    decreases e, 0, |e.items| - i
  {
    if i < |e.items| && i < |a.items| {
      NoDifferenceIsSame(e.items[i], a.items[i]);
      if FirstDifference(e.items[i], a.items[i]).Some? {
        DifferenceIsLocated(e.items[i], a.items[i]);
        IndexLocated(e, a, i, FirstDifference(e.items[i], a.items[i]).value);
      } else {
        ListLocated(e, a, i + 1);
      }
    }
  }

  lemma KeyLocated(e: Json, a: Json, i: nat, d: Difference)
    requires e.Dict? && a.Dict? && i < |e.fields| && DistinctKeys(e.fields) && Has(a.fields, e.fields[i].key)
    requires forall k: nat :: k < i ==> FieldSame(e, a, k)
    requires Located(e.fields[i].value, a.fields[Find(a.fields, e.fields[i].key)].value, d)
    ensures Located(e, a, Under(Key(e.fields[i].key), d))
  {
    FindAt(e.fields, i);
    assert ([Key(e.fields[i].key)] + d.path)[1..] == d.path;
  }

  lemma MissingLocated(e: Json, a: Json, i: nat)
    requires e.Dict? && a.Dict? && i < |e.fields| && DistinctKeys(e.fields) && !Has(a.fields, e.fields[i].key)
    requires forall k: nat :: k < i ==> FieldSame(e, a, k)
    ensures Located(e, a, Difference([Key(e.fields[i].key)], Some(e.fields[i].value), None))
  {
    FindAt(e.fields, i);
  }

  lemma ExtraLocated(e: Json, a: Json, m: nat)
    requires e.Dict? && a.Dict? && Extra(e.fields, a.fields, m) && FieldsSame(e, a, 0) && DistinctKeys(a.fields)
    requires LeastExtra(e.fields, a.fields, 0) == Some(m)
    ensures Located(e, a, Difference([Key(a.fields[m].key)], None, Some(a.fields[m].value)))
  {
    FindAt(a.fields, m);
    LeastExtraIsLeast(e.fields, a.fields, 0);
  }

  lemma {:induction false} DictLocated(e: Json, a: Json, i: nat)
    requires e.Dict? && a.Dict? && i <= |e.fields| && WellFormed(e) && WellFormed(a)
    requires forall k: nat :: k < i ==> FieldSame(e, a, k)
    requires DictDifference(e, a, i).Some?
    ensures Located(e, a, DictDifference(e, a, i).value)
    decreases e, 0, |e.fields| - i
  {
    if i < |e.fields| {
      var value, at := e.fields[i].value, Find(a.fields, e.fields[i].key);
      if at == |a.fields| {
        MissingLocated(e, a, i);
      } else {
        NoDifferenceIsSame(value, a.fields[at].value);
        if FirstDifference(value, a.fields[at].value).Some? {
          DifferenceIsLocated(value, a.fields[at].value);
          KeyLocated(e, a, i, FirstDifference(value, a.fields[at].value).value);
        } else {
          DictLocated(e, a, i + 1);
        }
      }
    } else {
      LeastExtraIsLeast(e.fields, a.fields, 0);
      ExtraLocated(e, a, LeastExtra(e.fields, a.fields, 0).value);
    }
  }

  // ----- The path as text

  function Digits(n: nat): string {
    if n < 10 then ['0' + n as char] else Digits(n / 10) + ['0' + (n % 10) as char]
  }

  function StepText(step: Step): string {
    match step case Key(k) => "." + k case Index(i) => "[" + Digits(i) + "]"
  }

  function StepsText(path: seq<Step>): string {
    if path == [] then "" else StepText(path[0]) + StepsText(path[1..])
  }

  function Render(path: seq<Step>): string {
    "$" + StepsText(path)
  }

  predicate PlainKey(key: string) {
    '.' !in key && '[' !in key
  }

  predicate PlainPath(path: seq<Step>) {
    forall i :: 0 <= i < |path| && path[i].Key? ==> PlainKey(path[i].key)
  }

  predicate PlainTree(j: Json) {
    match j
    case List(items) => forall i :: 0 <= i < |items| ==> PlainTree(items[i])
    case Dict(fields) => forall i :: 0 <= i < |fields| ==> PlainKey(fields[i].key) && PlainTree(fields[i].value)
    case _ => true
  }

  lemma {:induction false} DigitsAreDigits(n: nat)
    ensures |Digits(n)| > 0 && forall i :: 0 <= i < |Digits(n)| ==> '0' <= Digits(n)[i] <= '9'
  {
    if n >= 10 { DigitsAreDigits(n / 10); }
  }

  function Denoted(digits: string): int {
    if digits == "" then 0 else Denoted(digits[..|digits| - 1]) * 10 + digits[|digits| - 1] as int - '0' as int
  }

  /** An index is written in decimal, without leading zeros. */
  lemma {:induction false} DigitsDenote(n: nat)
    ensures Denoted(Digits(n)) == n && (n > 0 ==> Digits(n)[0] != '0')
  {
    DigitsAreDigits(n);
    var digits := Digits(n);
    assert digits[|digits| - 1] as int - '0' as int == n % 10;
    if n >= 10 {
      DigitsDenote(n / 10);
      DigitsAreDigits(n / 10);
      assert digits[..|digits| - 1] == Digits(n / 10);
    } else {
      assert digits[..0] == "" && Denoted("") == 0;
    }
  }

  lemma {:induction false} DigitsInjective(n: nat, m: nat)
    requires Digits(n) == Digits(m)
    ensures n == m
  {
    DigitsAreDigits(n / 10);
    DigitsAreDigits(m / 10);
    var d, e := Digits(n), Digits(m);
    assert d[|d| - 1] == '0' + (n % 10) as char && e[|e| - 1] == '0' + (m % 10) as char;
    if n >= 10 && m >= 10 {
      assert d[..|d| - 1] == Digits(n / 10) && e[..|e| - 1] == Digits(m / 10);
      DigitsInjective(n / 10, m / 10);
    }
  }

  /** Where the first delimiter stands, or the length. */
  function WordEnd(t: string, delimiters: set<char>): nat {
    if t == "" || t[0] in delimiters then 0 else 1 + WordEnd(t[1..], delimiters)
  }

  lemma {:induction false} WordEndsAt(word: string, rest: string, delimiters: set<char>)
    requires forall i :: 0 <= i < |word| ==> word[i] !in delimiters
    requires rest == "" || rest[0] in delimiters
    ensures WordEnd(word + rest, delimiters) == |word|
  {
    if word == "" {
      assert word + rest == rest;
    } else {
      WordEndsAt(word[1..], rest, delimiters);
      assert (word + rest)[1..] == word[1..] + rest;
    }
  }

  /** Two words that a delimiter or the end follows are equal if the texts are. */
  lemma WordsEqual(a: string, b: string, ra: string, rb: string, delimiters: set<char>)
    requires a + ra == b + rb
    requires (forall i :: 0 <= i < |a| ==> a[i] !in delimiters) && (forall i :: 0 <= i < |b| ==> b[i] !in delimiters)
    requires (ra == "" || ra[0] in delimiters) && (rb == "" || rb[0] in delimiters)
    ensures a == b && ra == rb
  {
    WordEndsAt(a, ra, delimiters);
    WordEndsAt(b, rb, delimiters);
    assert (a + ra)[..|a|] == a && (b + rb)[..|b|] == b;
    assert (a + ra)[|a|..] == ra && (b + rb)[|b|..] == rb;
  }

  lemma StepsTextStart(path: seq<Step>)
    ensures StepsText(path) == "" <==> path == []
    ensures path != [] ==> StepsText(path)[0] == if path[0].Key? then '.' else '['
  {
  }

  lemma Peel(front: string, a: string, b: string)
    requires front + a == front + b
    ensures a == b
  {
    assert (front + a)[|front|..] == a && (front + b)[|front|..] == b;
  }

  lemma KeyText(k: string, rest: string)
    ensures StepText(Key(k)) + rest == "." + (k + rest)
  {
  }

  lemma IndexText(i: nat, rest: string)
    ensures StepText(Index(i)) + rest == "[" + (Digits(i) + ("]" + rest))
  {
    var digits := Digits(i);
    assert "[" + digits + "]" + rest == "[" + (digits + ("]" + rest));
  }

  lemma KeyTextEqual(k: string, l: string, rk: string, rl: string)
    requires PlainKey(k) && PlainKey(l) && StepText(Key(k)) + rk == StepText(Key(l)) + rl
    requires (rk == "" || rk[0] in {'.', '['}) && (rl == "" || rl[0] in {'.', '['})
    ensures k == l && rk == rl
  {
    KeyText(k, rk);
    KeyText(l, rl);
    Peel(".", k + rk, l + rl);
    WordsEqual(k, l, rk, rl, {'.', '['});
  }

  lemma DigitsEqual(i: nat, j: nat, ri: string, rj: string)
    requires Digits(i) + ri == Digits(j) + rj && ri != "" && ri[0] == ']' && rj != "" && rj[0] == ']'
    ensures i == j && ri == rj
  {
    DigitsAreDigits(i);
    DigitsAreDigits(j);
    WordsEqual(Digits(i), Digits(j), ri, rj, {']'});
    DigitsInjective(i, j);
  }

  lemma IndexTextEqual(i: nat, j: nat, ri: string, rj: string)
    requires StepText(Index(i)) + ri == StepText(Index(j)) + rj
    ensures i == j && ri == rj
  {
    IndexText(i, ri);
    IndexText(j, rj);
    var a, b := "]" + ri, "]" + rj;
    Peel("[", Digits(i) + a, Digits(j) + b);
    DigitsEqual(i, j, a, b);
    Peel("]", ri, rj);
  }

  lemma FirstStepEqual(p: seq<Step>, q: seq<Step>)
    requires p != [] && q != [] && PlainPath(p) && PlainPath(q) && StepsText(p) == StepsText(q)
    ensures p[0] == q[0] && StepsText(p[1..]) == StepsText(q[1..])
  {
    var rp, rq := StepsText(p[1..]), StepsText(q[1..]);
    StepsTextStart(p);
    StepsTextStart(q);
    StepsTextStart(p[1..]);
    StepsTextStart(q[1..]);
    if p[0].Key? {
      KeyTextEqual(p[0].key, q[0].key, rp, rq);
    } else {
      IndexTextEqual(p[0].index, q[0].index, rp, rq);
    }
  }

  /** The text determines the steps as long as no key contains "." or "[". */
  lemma {:induction false} TextDeterminesPath(p: seq<Step>, q: seq<Step>)
    requires PlainPath(p) && PlainPath(q) && StepsText(p) == StepsText(q)
    ensures p == q
    decreases |p|
  {
    StepsTextStart(p);
    StepsTextStart(q);
    if p != [] {
      FirstStepEqual(p, q);
      TextDeterminesPath(p[1..], q[1..]);
      assert p == [p[0]] + p[1..] && q == [q[0]] + q[1..];
    }
  }

  lemma OneStep(x: Step)
    ensures Render([x]) == "$" + StepText(x)
  {
    var none: seq<Step> := [];
    assert [x][1..] == none && StepsText(none) == "";
  }

  lemma TwoSteps(x: Step, y: Step)
    ensures Render([x, y]) == "$" + StepText(x) + StepText(y)
  {
    var none: seq<Step> := [];
    assert [x, y][1..] == [y] && [y][1..] == none;
    assert StepsText([y]) == StepText(y) + StepsText(none) && StepsText(none) == "";
  }

  /** A key that looks like a key and a further step is rendered like these two. */
  lemma OtherKeysAreAmbiguous(k: string, step: Step)
    ensures Render([Key(k), step]) == Render([Key(k + StepText(step))])
  {
    var text := StepText(step);
    TwoSteps(Key(k), step);
    OneStep(Key(k + text));
    Regroup(".", k, text);
    Regroup("$", StepText(Key(k)), text);
  }

  /** A key whose text can also be read as a shorter key and further steps. */
  ghost predicate ReadsAsSteps(key: string) {
    '.' in key || exists i: nat, front: string :: key == front + StepText(Index(i))
  }

  lemma Regroup(a: string, b: string, c: string)
    ensures a + (b + c) == a + b + c
  {
  }

  lemma {:induction false} StepsTextEnds(path: seq<Step>, last: Step) returns (front: string)
    requires path != [] && path[|path| - 1] == last
    ensures StepsText(path) == front + StepText(last)
  {
    var text, more := StepText(path[0]), path[1..];
    if more == [] {
      front := "";
      assert text + StepsText(more) == text == front + text;
    } else {
      var middle := StepsTextEnds(more, last);
      front := text + middle;
      Regroup(text, middle, StepText(last));
    }
  }

  lemma {:induction false} KeyLeavesDot(path: seq<Step>, i: nat)
    requires i < |path| && path[i].Key?
    ensures '.' in StepsText(path)
  {
    if i == 0 {
      assert StepsText(path)[0] == '.';
    } else {
      KeyLeavesDot(path[1..], i - 1);
      var text, rest := StepText(path[0]), StepsText(path[1..]);
      var k :| 0 <= k < |rest| && rest[k] == '.';
      assert (text + rest)[|text| + k] == '.';
    }
  }

  /** Text of further steps behind a key makes it read as steps. */
  lemma MoreStepsRead(key: string, front: string, more: seq<Step>)
    requires more != [] && key == front + StepsText(more)
    ensures ReadsAsSteps(key)
  {
    if more[|more| - 1].Key? {
      KeyLeavesDot(more, |more| - 1);
    } else {
      var last := more[|more| - 1];
      var middle := StepsTextEnds(more, last);
      Regroup(front, middle, StepText(last));
    }
  }

  lemma DotSplits(key: string, k: nat)
    requires k < |key| && key[k] == '.'
    ensures key == key[..k] + StepText(Key(key[k + 1..]))
  {
    assert key == key[..k] + [key[k]] + key[k + 1..];
  }

  lemma SecondReading(key: string) returns (path: seq<Step>)
    requires ReadsAsSteps(key)
    ensures path != [Key(key)] && Render(path) == Render([Key(key)])
  {
    var front, step;
    if '.' in key {
      var k :| 0 <= k < |key| && key[k] == '.';
      DotSplits(key, k);
      front, step := key[..k], Key(key[k + 1..]);
    } else {
      var i: nat, text: string :| key == text + StepText(Index(i));
      front, step := text, Index(i);
    }
    OtherKeysAreAmbiguous(front, step);
    path := [Key(front), step];
  }

  /** Only a chain of indices, with one key at the end that does not read as steps, has a text of its own. */
  ghost predicate OnlyReading(path: seq<Step>) {
    || path == []
    || (path[0].Index? && OnlyReading(path[1..]))
    || (path[0].Key? && |path| == 1 && !ReadsAsSteps(path[0].key))
  }

  ghost predicate HasOtherReading(path: seq<Step>) {
    exists q: seq<Step> :: q != path && StepsText(q) == StepsText(path)
  }

  lemma KeyReadings(path: seq<Step>)
    requires path != [] && path[0].Key?
    ensures HasOtherReading(path) <==> |path| > 1 || ReadsAsSteps(path[0].key)
  {
    var key, more := path[0].key, path[1..];
    if more != [] {
      JoinedReading(key, more);
      assert path == [Key(key)] + more;
      assert [Key(key + StepsText(more))] != path;
    } else if ReadsAsSteps(key) {
      var q := SecondReading(key);
      assert Render(q)[1..] == StepsText(q) && Render([Key(key)])[1..] == StepsText([Key(key)]);
      assert path == [Key(key)];
    } else if HasOtherReading(path) {
      var q: seq<Step> :| q != path && StepsText(q) == StepsText(path);
      assert path == [Key(key)];
      OtherReadingOfKey(key, q);
    }
  }

  /** All the text behind a key can be part of it. */
  lemma JoinedReading(key: string, more: seq<Step>)
    ensures StepsText([Key(key + StepsText(more))]) == StepsText([Key(key)] + more)
  {
    var text := StepsText(more);
    assert ([Key(key)] + more)[1..] == more;
    KeyText(key, text);
    assert [Key(key + text)][1..] == [];
    assert StepText(Key(key + text)) + "" == "." + (key + text);
  }

  lemma OtherReadingOfKey(key: string, q: seq<Step>)
    requires q != [Key(key)] && StepsText(q) == StepsText([Key(key)])
    ensures ReadsAsSteps(key)
  {
    StepsTextStart(q);
    StepsTextStart([Key(key)]);
    var none: seq<Step> := [];
    assert [Key(key)][1..] == none && StepsText(none) == "";
    var more := StepsText(q[1..]);
    KeyText(key, "");
    KeyText(q[0].key, more);
    Peel(".", key + "", q[0].key + more);
    assert key + "" == key;
    assert q == [q[0]] + q[1..] && q[0].key + "" == q[0].key;
    if q[1..] == [] { assert false; }
    MoreStepsRead(key, q[0].key, q[1..]);
  }

  /** The text of a path can be read in another way exactly unless it is a chain of indices with at most such a key. */
  lemma {:induction false} OtherReadingsExactly(path: seq<Step>)
    ensures HasOtherReading(path) <==> !OnlyReading(path)
    decreases |path|
  {
    if path == [] {
      forall q ensures StepsText(q) == "" ==> q == [] { StepsTextStart(q); }
    } else if path[0].Key? {
      KeyReadings(path);
    } else {
      OtherReadingsExactly(path[1..]);
      IndexReadings(path);
    }
  }

  lemma IndexReadings(path: seq<Step>)
    requires path != [] && path[0].Index?
    ensures HasOtherReading(path) <==> HasOtherReading(path[1..])
  {
    if HasOtherReading(path) {
      var q: seq<Step> :| q != path && StepsText(q) == StepsText(path);
      StepsTextStart(q);
      IndexTextEqual(q[0].index, path[0].index, StepsText(q[1..]), StepsText(path[1..]));
      assert q == [q[0]] + q[1..] && path == [path[0]] + path[1..];
      assert q[1..] != path[1..];
    }
    if HasOtherReading(path[1..]) {
      var q: seq<Step> :| q != path[1..] && StepsText(q) == StepsText(path[1..]);
      var longer := [path[0]] + q;
      assert longer[1..] == q;
      assert StepsText(longer) == StepsText(path) && longer != path;
    }
  }

  /** The reported path only uses keys of the two trees. */
  lemma {:induction false} ReportedPathIsPlain(e: Json, a: Json)
    requires PlainTree(e) && PlainTree(a) && FirstDifference(e, a).Some?
    ensures PlainPath(FirstDifference(e, a).value.path)
    decreases e, 1, 0
  {
    if SameType(e, a) {
      if e.List? {
        ListPathIsPlain(e, a, 0);
      } else if e.Dict? {
        DictPathIsPlain(e, a, 0);
      }
    }
  }

  lemma {:induction false} ListPathIsPlain(e: Json, a: Json, i: nat)
    requires e.List? && a.List? && i <= Min(|e.items|, |a.items|) && PlainTree(e) && PlainTree(a)
    requires ListDifference(e, a, i).Some?
    ensures PlainPath(ListDifference(e, a, i).value.path)
    decreases e, 0, |e.items| - i
  {
    if i < |e.items| && i < |a.items| {
      if FirstDifference(e.items[i], a.items[i]).Some? {
        ReportedPathIsPlain(e.items[i], a.items[i]);
      } else {
        ListPathIsPlain(e, a, i + 1);
      }
    }
  }

  lemma {:induction false} DictPathIsPlain(e: Json, a: Json, i: nat)
    requires e.Dict? && a.Dict? && i <= |e.fields| && PlainTree(e) && PlainTree(a)
    requires DictDifference(e, a, i).Some?
    ensures PlainPath(DictDifference(e, a, i).value.path)
    decreases e, 0, |e.fields| - i
  {
    if i < |e.fields| {
      var at := Find(a.fields, e.fields[i].key);
      if at < |a.fields| {
        if FirstDifference(e.fields[i].value, a.fields[at].value).Some? {
          ReportedPathIsPlain(e.fields[i].value, a.fields[at].value);
        } else {
          DictPathIsPlain(e, a, i + 1);
        }
      }
    }
  }

  /** In trees whose keys contain neither "." nor "[", no other plain path has the text that is reported. */
  lemma ReportedTextIsUnique(e: Json, a: Json, q: seq<Step>)
    requires PlainTree(e) && PlainTree(a) && FirstDifference(e, a).Some? && PlainPath(q)
    requires Render(q) == Render(FirstDifference(e, a).value.path)
    ensures q == FirstDifference(e, a).value.path
  {
    var p := FirstDifference(e, a).value.path;
    ReportedPathIsPlain(e, a);
    assert Render(p)[1..] == StepsText(p) && Render(q)[1..] == StepsText(q);
    TextDeterminesPath(p, q);
  }
}
