/**
 Test parameter variations: collecting a test's parameters and overrides, expanding each
 parameter to its values, and combining the values into variants. Lists are sequences here;
 a loop that prepends gives the reversed sequence, as the lists in the source do.

 Nothing is asked of a configuration. Where the code would leave its arrays, because a table's
 byte size wraps around or a parameter has no value, the outcome is `Overrun`.
 */
module Params {
  import opened LinkedList
  import opened Odometer
  import opened Products
  import opened Subsequences

  datatype Option<T> = None | Some(value: T)

  datatype Outcome<T> = Overrun | Done(value: T)

  datatype Value = IntValue(i: int) | FloatValue(x: real) | TextValue(s: string)

  /** Generated parameters refer to others, never in a circle; `None` is a generator that is not registered. */
  datatype Definition =
    | ConstList(values: seq<Value>)
    | Range(low: Value, high: Value)
    | Generated(generator: Option<seq<Value> -> Value>, params: seq<Definition>)

  datatype Style = Combinations | AllPairs | First | Last

  // ---------- combining value lists ----------

  function Dimensions<T>(lists: seq<seq<T>>): (dims: seq<nat>) {
    seq(|lists|, j requires 0 <= j < |lists| => |lists[j]|)
  }

  predicate NoneEmpty<T>(lists: seq<seq<T>>) { forall j :: 0 <= j < |lists| ==> lists[j] != [] }

  function Pick<T>(lists: seq<seq<T>>, p: seq<nat>): (row: seq<T>)
    requires InRange(p, Dimensions(lists))
  {
    seq(|lists|, j requires 0 <= j < |lists| => lists[j][p[j]])
  }

  /** The i-th combination: the digits of i, first list fastest, select from the lists. */
  function Row<T>(lists: seq<seq<T>>, i: nat): (row: seq<T>)
    requires NoneEmpty(lists) && i < Product(Dimensions(lists))
  {
    NumberOfDigits(i, Dimensions(lists));
    Pick(lists, Digits(i, Dimensions(lists)))
  }

  function Rows<T>(lists: seq<seq<T>>): (rows: seq<seq<T>>)
    requires NoneEmpty(lists)
  {
    ProductPositive(Dimensions(lists));
    seq(RowCount(Dimensions(lists)), i requires 0 <= i < RowCount(Dimensions(lists)) => Row(lists, i))
  }

  /** The product of the lists by nested loops, the first list innermost. */
  function Cartesian<T>(lists: seq<seq<T>>): (rows: seq<seq<T>>) {
    if lists == [] then [[]] else Spread(lists[0], Cartesian(lists[1..]))
  }

  function Spread<T>(values: seq<T>, tails: seq<seq<T>>): (rows: seq<seq<T>>) {
    if tails == [] then []
    else seq(|values|, j requires 0 <= j < |values| => [values[j]] + tails[0]) + Spread(values, tails[1..])
  }

  lemma {:induction false} SpreadLength<T>(values: seq<T>, tails: seq<seq<T>>)
    ensures |Spread(values, tails)| == Times(|values|, |tails|)
  {
    if tails != [] {
      SpreadLength(values, tails[1..]);
      TimesFacts(|tails| - 1, |values|);
      TimesFacts(|values|, |tails|);
    }
  }

  lemma {:induction false} SpreadAt<T>(values: seq<T>, tails: seq<seq<T>>, d: nat, q: nat)
    requires d < |values| && q < |tails|
    ensures d + Times(|values|, q) < |Spread(values, tails)|
    ensures Spread(values, tails)[d + Times(|values|, q)] == [values[d]] + tails[q]
  {
    hide Times;
    SpreadLength(values, tails[1..]);
    TimesFacts(q, |values|);
    TimesFacts(0, |values|);
    if q > 0 {
      SpreadAt(values, tails[1..], d, q - 1);
      TimesFacts(q - 1, |values|);
    }
  }

  lemma {:induction false} CartesianAt<T>(lists: seq<seq<T>>, i: nat)
    requires NoneEmpty(lists) && i < Product(Dimensions(lists))
    ensures |Cartesian(lists)| == Product(Dimensions(lists)) && Cartesian(lists)[i] == Row(lists, i)
    decreases |lists|
  {
    hide Times;
    var dims := Dimensions(lists);
    NumberOfDigits(i, dims);
    if lists != [] {
      var l, rest := |lists[0]|, lists[1..];
      assert dims[1..] == Dimensions(rest);
      DivideBack(i, l);
      QuotientBelow(i, l, Product(dims[1..]));
      CartesianAt(rest, i / l);
      SpreadLength(lists[0], Cartesian(rest));
      SpreadAt(lists[0], Cartesian(rest), i % l, i / l);
      assert Row(lists, i) == [lists[0][i % l]] + Row(rest, i / l);
    }
  }

  /** The table's rows are the whole Cartesian product, in nested-loop order, when their number fits in 32 bits. */
  lemma RowsAreCartesian<T>(lists: seq<seq<T>>)
    requires NoneEmpty(lists) && Product(Dimensions(lists)) < UINT
    ensures Rows(lists) == Cartesian(lists)
  {
    hide Cartesian, Row, Product, Digits;
    ProductPositive(Dimensions(lists));
    CartesianAt(lists, 0);
    forall i | 0 <= i < Product(Dimensions(lists)) ensures Rows(lists)[i] == Cartesian(lists)[i] {
      CartesianAt(lists, i);
    }
  }

  function Heads<T>(lists: seq<seq<T>>): seq<T>
    requires NoneEmpty(lists)
  {
    seq(|lists|, j requires 0 <= j < |lists| => lists[j][0])
  }

  function Lasts<T>(lists: seq<seq<T>>): seq<T>
    requires NoneEmpty(lists)
  {
    seq(|lists|, j requires 0 <= j < |lists| => lists[j][|lists[j]| - 1])
  }

  lemma FirstRow<T>(lists: seq<seq<T>>)
    requires NoneEmpty(lists) && Rows(lists) != []
    ensures Rows(lists)[0] == Heads(lists)
  {
    hide Product;
    FirstPosition(Dimensions(lists));
  }

  lemma LastRow<T>(lists: seq<seq<T>>)
    requires NoneEmpty(lists) && Product(Dimensions(lists)) < UINT
    ensures Rows(lists) != [] && Rows(lists)[|Rows(lists)| - 1] == Lasts(lists)
  {
    hide Product, Digits;
    var dims := Dimensions(lists);
    ProductPositive(dims);
    LastPosition(dims);
    assert Rows(lists)[Product(dims) - 1] == Row(lists, Product(dims) - 1);
    var p := Digits(Product(dims) - 1, dims);
    forall k | 0 <= k < |p| ensures p[k] == |lists[k]| - 1 { assert dims[k] == |lists[k]|; }
    assert Pick(lists, p) == Lasts(lists);
  }

  predicate NoRepeats<T(==)>(list: seq<T>) { forall i, j :: 0 <= i < j < |list| ==> list[i] != list[j] }

  /** With distinct values, the last row takes every last value only if it is the last of all combinations. */
  lemma LastRowOnlyIfAll<T>(lists: seq<seq<T>>)
    requires NoneEmpty(lists) && (forall j :: 0 <= j < |lists| ==> NoRepeats(lists[j]))
    requires Rows(lists) != [] && Rows(lists)[|Rows(lists)| - 1] == Lasts(lists)
    ensures Product(Dimensions(lists)) < UINT
  {
    hide Product, Digits, Number;
    var dims := Dimensions(lists);
    var i := RowCount(dims) - 1;
    ProductPositive(dims);
    NumberOfDigits(i, dims);
    NumberOfDigits(Product(dims) - 1, dims);
    LastPosition(dims);
    var p, q := Digits(i, dims), Digits(Product(dims) - 1, dims);
    assert Rows(lists)[i] == Row(lists, i);
    forall j | 0 <= j < |lists| ensures p[j] == q[j] {
      assert Pick(lists, p)[j] == Lasts(lists)[j];
      assert dims[j] == |lists[j]|;
    }
    assert p == q;
  }

  lemma OnlyRow<T>(lists: seq<seq<T>>)
    requires forall j :: 0 <= j < |lists| ==> |lists[j]| == 1
    ensures Rows(lists) == [Heads(lists)] && RowCount(Dimensions(lists)) == 1
  {
    hide Product, Digits;
    ProductOfOnes(Dimensions(lists));
    FirstRow(lists);
  }

  /** What becomes of value lists: an overrun, no rows if their 32-bit count is zero, or the rows. */
  function Combined<T>(lists: seq<seq<T>>): (r: Outcome<seq<seq<T>>>) {
    var dims := Padded(Dimensions(lists));
    if !TableAllocates(dims) then Overrun
    else if RowCount(dims) == 0 then Done([])
    else if NoneEmpty(lists) then Done(Rows(lists))
    else Overrun
  }

  lemma CombinedRows<T>(lists: seq<seq<T>>)
    requires NoneEmpty(lists)
    ensures Combined(lists) == if TableAllocates(Dimensions(lists)) then Done(Rows(lists)) else Overrun
  {
    hide Product, Row, TableAllocates;
    assert Positive(Dimensions(lists));
    if RowCount(Dimensions(lists)) == 0 { assert Rows(lists) == []; }
  }

  /** Lists with values combine to their whole Cartesian product, in order, if and only if the table fits. */
  lemma CombinedIsCartesianIffFits<T>(lists: seq<seq<T>>)
    requires NoneEmpty(lists)
    ensures Combined(lists) == Done(Cartesian(lists)) <==> Fits(Dimensions(lists))
  {
    hide Product, Row, TableAllocates, Fits, Cartesian;
    var dims := Dimensions(lists);
    CombinedRows(lists);
    ProductPositive(dims);
    FitsMeans(dims);
    CartesianAt(lists, 0);
    if Product(dims) < UINT { RowsAreCartesian(lists); }
  }

  // ---------- flattening, table and variant list ----------

  method CopyValues(list: seq<Value>) returns (copy: array<Value>)
    ensures fresh(copy) && copy[..] == list
  {
    var count := 0;
    var rest := list;
    while rest != []
      invariant count + |rest| == |list|
    {
      count := count + 1;
      rest := rest[1..];
    }
    copy := new Value[count](_ => IntValue(0));
    rest := list;
    for j := 0 to count
      invariant rest == list[j..] && copy[..j] == list[..j]
    {
      copy[j] := rest[0];
      rest := rest[1..];
    }
  }

  /** The arrays hold `lists`. */
  ghost predicate Flat(counts: array<nat>, values: array<array<Value>>, lists: seq<seq<Value>>)
    reads counts, values, values[..]
  {
    counts[..] == Dimensions(lists) && values.Length == |lists|
    && forall j :: 0 <= j < |lists| ==> values[j][..] == lists[j]
  }

  method Flatten(lists: seq<seq<Value>>) returns (counts: array<nat>, values: array<array<Value>>)
    ensures fresh(counts) && fresh(values) && Flat(counts, values, lists)
  {
    var none := new Value[0];
    counts := new nat[|lists|];
    values := new array<Value>[|lists|](_ => none);
    for i := 0 to |lists|
      invariant forall k :: 0 <= k < i ==> counts[k] == |lists[k]| && values[k][..] == lists[k]
    {
      var copy := CopyValues(lists[i]);
      values[i] := copy;
      counts[i] := copy.Length;
    }
    assert counts[..] == Dimensions(lists);
  }

  /** The first `j` values of the combination that `p` selects. */
  function PickFirst<T>(lists: seq<seq<T>>, p: seq<nat>, j: nat): (row: seq<T>)
    requires j <= |lists| == |p| && forall k :: 0 <= k < j ==> p[k] < |lists[k]|
  {
    seq(j, k requires 0 <= k < j => lists[k][p[k]])
  }

  /** One variant; `overrun` reports a parameter without values. */
  method BuildVariant(table: array<nat>, at: nat, counts: array<nat>, values: array<array<Value>>,
                      ghost lists: seq<seq<Value>>, ghost p: seq<nat>)
    returns (overrun: bool, work: seq<Value>)
    requires Flat(counts, values, lists) && InRange(p, Padded(Dimensions(lists)))
    requires at + |p| <= table.Length && table[at..at + |p|] == p
    ensures overrun <==> !NoneEmpty(lists)
    ensures !overrun ==> InRange(p, Dimensions(lists)) && work == Pick(lists, p)
  {
    hide Reversed;
    work := NothingYet();
    for j := 0 to values.Length
      invariant forall k :: 0 <= k < j ==> p[k] < |lists[k]|
      invariant work == Reversed(PickFirst(lists, p, j))
    {
      assert values[j][..] == lists[j] && table[at..at + |p|][j] == table[at + j];
      assert p[j] < Padded(Dimensions(lists))[j];
      var index := table[at + j];
      if values[j].Length <= index { return true, work; }
      work := [values[j][index]] + work;
      assert PickFirst(lists, p, j + 1) == PickFirst(lists, p, j) + [lists[j][p[j]]];
      ReversedAppend(PickFirst(lists, p, j), lists[j][p[j]]);
    }
    overrun := false;
    ReversedTwice(PickFirst(lists, p, |lists|));
    work := ReverseValues(work);
    assert PickFirst(lists, p, |lists|) == Pick(lists, p);
  }

  /** Walks the table, prepending each variant, so the list comes out last combination first. */
  method GeneratePermutationVariants(rows: nat, table: array<nat>, counts: array<nat>, values: array<array<Value>>,
                                     ghost lists: seq<seq<Value>>)
    returns (overrun: bool, variants: seq<seq<Value>>)
    requires Flat(counts, values, lists) && rows == RowCount(Padded(Dimensions(lists)))
    requires RowsInOrder(table[..], Padded(Dimensions(lists)), rows)
    ensures overrun <==> rows > 0 && !NoneEmpty(lists)
    ensures !overrun ==> variants == Reversed(if rows == 0 then [] else Rows(lists))
  {
    hide Times, Product, Digits, Reversed, Padded, Flat, Row;
    ghost var dims := Padded(Dimensions(lists));
    SameDimensions(lists);
    ProductPositive(dims);
    variants := NothingYet();
    for i := 0 to rows
      invariant i > 0 ==> NoneEmpty(lists)
      invariant variants == if i == 0 then [] else Reversed(Rows(lists)[..i])
    {
      assert RowIs(table[..], dims, i);
      NumberOfDigits(i, dims);
      var at := Times(i, values.Length);
      assert values.Length == |lists| by { FlatLength(counts, values, lists); }
      var work;
      overrun, work := BuildVariant(table, at, counts, values, lists, Digits(i, dims));
      if overrun { return; }
      RowIsPick(lists, i);
      variants := [work] + variants;
      if i == 0 { assert Rows(lists)[..0] == []; }
      assert Rows(lists)[..i + 1] == Rows(lists)[..i] + [work];
      ReversedAppend(Rows(lists)[..i], work);
    }
    overrun := false;
    if rows > 0 { assert Rows(lists)[..rows] == Rows(lists); }
  }

  lemma SameDimensions(lists: seq<seq<Value>>)
    ensures NoneEmpty(lists) ==> Padded(Dimensions(lists)) == Dimensions(lists)
  {
    if NoneEmpty(lists) { assert Positive(Dimensions(lists)); }
  }

  lemma FlatLength(counts: array<nat>, values: array<array<Value>>, lists: seq<seq<Value>>)
    requires Flat(counts, values, lists)
    ensures values.Length == |lists|
  {
  }

  lemma RowIsPick(lists: seq<seq<Value>>, i: nat)
    requires NoneEmpty(lists) && i < Product(Dimensions(lists))
    ensures InRange(Digits(i, Dimensions(lists)), Dimensions(lists))
    ensures Row(lists, i) == Pick(lists, Digits(i, Dimensions(lists)))
  {
    NumberOfDigits(i, Dimensions(lists));
  }

  method Combine(lists: seq<seq<Value>>) returns (r: Outcome<seq<seq<Value>>>)
    ensures r == Combined(lists)
  {
    hide Times, Product, Digits, RowsInOrder, Reversed, Row, Flat, TableAllocates, Padded;
    var counts, values := Flatten(lists);
    assert counts[..] == Dimensions(lists) by { FlatCounts(counts, values, lists); }
    var overrun, rows, table := GeneratePermutationTable(counts);
    if overrun { return Overrun; }
    var variants;
    overrun, variants := GeneratePermutationVariants(rows, table, counts, values, lists);
    if overrun { return Overrun; }
    ReversedTwice(if rows == 0 then [] else Rows(lists));
    variants := ReverseValues(variants);
    r := Done(variants);
  }

  lemma FlatCounts(counts: array<nat>, values: array<array<Value>>, lists: seq<seq<Value>>)
    requires Flat(counts, values, lists)
    ensures counts[..] == Dimensions(lists)
  {
  }

  // ---------- the values of one parameter ----------

  function Select(values: seq<Value>, style: Style): (list: seq<Value>) {
    if values == [] then []
    else match style
      case Combinations => values
      case AllPairs => values
      case First => [values[0]]
      case Last => [values[|values| - 1]]
  }

  function Apply(f: seq<Value> -> Value, rows: seq<seq<Value>>): (list: seq<Value>) {
    seq(|rows|, i requires 0 <= i < |rows| => f(rows[i]))
  }

  /** All results, unless one is an overrun. */
  function AllDone<T>(rs: seq<Outcome<T>>): (r: Outcome<seq<T>>)
    ensures r.Overrun? <==> exists i :: 0 <= i < |rs| && rs[i].Overrun?
    ensures r.Done? ==> |r.value| == |rs| && forall i :: 0 <= i < |rs| ==> rs[i] == Done(r.value[i])
  {
    if exists i :: 0 <= i < |rs| && rs[i].Overrun? then Overrun
    else Done(seq(|rs|, i requires 0 <= i < |rs| => rs[i].value))
  }

  lemma AllAreDone<T>(rs: seq<Outcome<T>>, values: seq<T>)
    requires |rs| == |values| && forall i :: 0 <= i < |rs| ==> rs[i] == Done(values[i])
    ensures AllDone(rs) == Done(values)
  {
    assert AllDone(rs).value == values;
  }

  function ApplyCombined(f: seq<Value> -> Value, lists: Outcome<seq<seq<Value>>>): (r: Outcome<seq<Value>>) {
    match lists
    case Overrun => Overrun
    case Done(lists) =>
      match Combined(lists)
      case Overrun => Overrun
      case Done(rows) => Done(Apply(f, rows))
  }

  /** The values a parameter takes in a style. */
  function Variations(d: Definition, style: Style): (r: Outcome<seq<Value>>)
    decreases d
  {
    match d
    case ConstList(values) => Done(Select(values, style))
    case Range(low, high) => Done(Select([low, high], style))
    case Generated(None, _) => Done([])
    case Generated(Some(f), params) =>
      ApplyCombined(f, AllDone(seq(|params|, i requires 0 <= i < |params| => Variations(params[i], style))))
  }

  function Inputs(params: seq<Definition>, style: Style): (lists: Outcome<seq<seq<Value>>>) {
    AllDone(seq(|params|, i requires 0 <= i < |params| => Variations(params[i], style)))
  }

  method GenerateConstlistVariations(values: seq<Value>, style: Style) returns (list: seq<Value>)
    ensures list == Select(values, style)
  {
    hide Reversed;
    list := NothingYet();
    if style == Combinations || style == AllPairs {
      list := ReverseValues(values);
      ReversedTwice(values);
    } else if style == First {
      if values != [] { list := [values[0]]; }
      ReversedOne(list);
    } else {
      if values != [] {
        var rest := values;
        while rest[1..] != []
          invariant rest != [] && rest[|rest| - 1] == values[|values| - 1]
        {
          rest := rest[1..];
        }
        list := [rest[0]];
      }
      ReversedOne(list);
    }
    list := ReverseValues(list);
  }

  lemma ReversedOne<T>(s: seq<T>)
    requires |s| <= 1
    ensures Reversed(s) == s
  {
  }

  method GenerateRangeVariations(low: Value, high: Value, style: Style) returns (list: seq<Value>)
    ensures list == Select([low, high], style)
  {
    match style
    case Combinations => list := [low, high];
    case AllPairs => list := [low, high];
    case First => list := [low];
    case Last => list := [high];
  }

  /** Expands the inputs one by one, then combines them and applies the generator to every combination. */
  method GenerateGeneratedVariations(generator: Option<seq<Value> -> Value>, params: seq<Definition>, style: Style)
    returns (r: Outcome<seq<Value>>)
    ensures r == Variations(Generated(generator, params), style)
    decreases params, 0
  {
    if generator.None? { return Done([]); }
    hide Reversed, Combined;
    var f := generator.value;
    ghost var results := seq(|params|, i requires 0 <= i < |params| => Variations(params[i], style));
    var inputs: seq<seq<Value>> := NothingYet();
    ghost var sofar: seq<seq<Value>> := [];
    for i := 0 to |params|
      invariant inputs == Reversed(sofar) && |sofar| == i
      invariant forall k :: 0 <= k < i ==> results[k] == Done(sofar[k])
    {
      var values := GenerateVariations(params[i], style);
      assert values == results[i];
      if values.Overrun? { return Overrun; }
      ReversedAppend(sofar, values.value);
      inputs := [values.value] + inputs;
      sofar := sofar + [values.value];
    }
    AllAreDone(results, sofar);
    ReversedTwice(sofar);
    inputs := ReverseValues(inputs);
    var variants := Combine(inputs);
    if variants.Overrun? { return Overrun; }
    var list := ApplyAll(f, variants.value);
    r := Done(list);
  }

  method ApplyAll(f: seq<Value> -> Value, variants: seq<seq<Value>>) returns (list: seq<Value>)
    ensures list == Apply(f, variants)
  {
    hide Reversed;
    list := NothingYet();
    ghost var out := Apply(f, variants);
    assert out[..0] == [];
    for i := 0 to |variants|
      invariant list == Reversed(out[..i])
    {
      ReversedAppend(out[..i], out[i]);
      assert out[..i + 1] == out[..i] + [out[i]];
      list := [f(variants[i])] + list;
    }
    assert out[..|variants|] == out;
    ReversedTwice(out);
    list := ReverseValues(list);
  }

  method GenerateVariations(d: Definition, style: Style) returns (r: Outcome<seq<Value>>)
    ensures r == Variations(d, style)
    decreases d, 1
  {
    match d
    case ConstList(values) =>
      var list := GenerateConstlistVariations(values, style);
      r := Done(list);
    case Range(low, high) =>
      var list := GenerateRangeVariations(low, high, style);
      r := Done(list);
    case Generated(generator, params) => r := GenerateGeneratedVariations(generator, params, style);
  }

  // ---------- FIRST and LAST against COMBINATIONS ----------

  lemma InputsDone(params: seq<Definition>, style: Style, lists: seq<seq<Value>>)
    requires |lists| == |params|
    requires forall i :: 0 <= i < |params| ==> Variations(params[i], style) == Done(lists[i])
    ensures Inputs(params, style) == Done(lists)
  {
    AllAreDone(seq(|params|, i requires 0 <= i < |params| => Variations(params[i], style)), lists);
  }

  lemma InputsGive(params: seq<Definition>, style: Style)
    requires Inputs(params, style).Done?
    ensures |Inputs(params, style).value| == |params|
    ensures forall i :: 0 <= i < |params| ==> Variations(params[i], style) == Done(Inputs(params, style).value[i])
  {
    var rs := seq(|params|, i requires 0 <= i < |params| => Variations(params[i], style));
    assert Inputs(params, style) == AllDone(rs);
    forall i | 0 <= i < |params| ensures Variations(params[i], style) == Done(Inputs(params, style).value[i]) {
      assert rs[i] == Done(Inputs(params, style).value[i]);
    }
  }

  lemma GeneratedValues(f: seq<Value> -> Value, params: seq<Definition>, style: Style)
    ensures Variations(Generated(Some(f), params), style) == ApplyCombined(f, Inputs(params, style))
  {
  }

  /** One value each makes one row, and a table of one row allocates whenever a longer one does. */
  lemma CombinedSingletons<T>(many: seq<seq<T>>, one: seq<seq<T>>)
    requires Combined(many).Done? && Combined(many).value != [] && |one| == |many|
    requires forall i :: 0 <= i < |one| ==> |one[i]| == 1
    ensures NoneEmpty(many) && NoneEmpty(one) && Combined(one) == Done([Heads(one)])
  {
    hide Product, Times, Digits, Row;
    CombinedRows(many);
    OnlyRow(one);
    var rows, n := RowCount(Dimensions(many)), |many|;
    TimesFacts(1, n);
    if rows > 1 { TimesBelow(1, rows, n); }
    CombinedRows(one);
  }

  /** The inputs of a generator that gives values all have some. */
  lemma GeneratedInputs(d: Definition) returns (many: seq<seq<Value>>)
    requires d.Generated? && Variations(d, Combinations).Done? && Variations(d, Combinations).value != []
    ensures d.generator.Some? && |many| == |d.params| && NoneEmpty(many) && Inputs(d.params, Combinations) == Done(many)
    ensures forall i :: 0 <= i < |many| ==> Variations(d.params[i], Combinations) == Done(many[i])
    ensures Combined(many).Done? && Combined(many).value != []
    ensures Variations(d, Combinations) == Done(Apply(d.generator.value, Combined(many).value))
  {
    hide Combined, Inputs;
    GeneratedValues(d.generator.value, d.params, Combinations);
    many := Inputs(d.params, Combinations).value;
    InputsGive(d.params, Combinations);
    CombinedFirst(many);
  }

  /** Inputs of one value each give the one value of their only combination. */
  lemma GeneratedSingleton(d: Definition, style: Style, many: seq<seq<Value>>, one: seq<seq<Value>>)
    requires d.Generated? && d.generator.Some? && |many| == |one| == |d.params|
    requires Combined(many).Done? && Combined(many).value != []
    requires forall i :: 0 <= i < |one| ==> |one[i]| == 1 && Variations(d.params[i], style) == Done(one[i])
    ensures NoneEmpty(one) && Variations(d, style) == Done([d.generator.value(Heads(one))])
  {
    hide Combined, Inputs, Variations;
    InputsDone(d.params, style, one);
    GeneratedValues(d.generator.value, d.params, style);
    CombinedSingletons(many, one);
    assert Apply(d.generator.value, [Heads(one)]) == [d.generator.value(Heads(one))];
  }

  /** FIRST gives exactly the head of what COMBINATIONS gives, for every definition. */
  lemma {:induction false} FirstIsHead(d: Definition)
    requires Variations(d, Combinations).Done? && Variations(d, Combinations).value != []
    ensures Variations(d, First) == Done([Variations(d, Combinations).value[0]])
    decreases d
  {
    if d.Generated? {
      hide Combined, Inputs, Variations;
      var many := GeneratedInputs(d);
      CombinedFirst(many);
      var one := seq(|many|, i requires 0 <= i < |many| => [many[i][0]]);
      forall i | 0 <= i < |many| ensures Variations(d.params[i], First) == Done(one[i]) { FirstIsHead(d.params[i]); }
      GeneratedSingleton(d, First, many, one);
      assert Heads(one) == Heads(many);
    }
  }

  lemma CombinedFirst<T>(lists: seq<seq<T>>)
    requires Combined(lists).Done? && Combined(lists).value != []
    ensures NoneEmpty(lists) && Combined(lists).value[0] == Heads(lists)
  {
    hide Row, Product, Digits;
    CombinedRows(lists);
    FirstRow(lists);
  }

  /** No generator below has more input combinations than fit its table. */
  predicate Exact(d: Definition)
    decreases d
  {
    d.Generated? ==>
      (forall i :: 0 <= i < |d.params| ==> Exact(d.params[i]))
      && (Inputs(d.params, Combinations).Done? ==> Fits(Padded(Dimensions(Inputs(d.params, Combinations).value))))
  }

  lemma CombinedLast<T>(lists: seq<seq<T>>)
    requires Combined(lists).Done? && Combined(lists).value != [] && Fits(Padded(Dimensions(lists)))
    ensures NoneEmpty(lists) && Combined(lists).value[|Combined(lists).value| - 1] == Lasts(lists)
  {
    hide Row, Product, Digits, Fits;
    CombinedRows(lists);
    FitsMeans(Dimensions(lists));
    LastRow(lists);
  }

  /** LAST gives exactly the last of what COMBINATIONS gives, when every generator's table fits. */
  lemma {:induction false} LastIsLast(d: Definition)
    requires Variations(d, Combinations).Done? && Variations(d, Combinations).value != [] && Exact(d)
    ensures var all := Variations(d, Combinations).value; Variations(d, Last) == Done([all[|all| - 1]])
    decreases d
  {
    if d.Generated? {
      hide Combined, Inputs, Variations, Fits;
      var many := GeneratedInputs(d);
      CombinedLast(many);
      var one := seq(|many|, i requires 0 <= i < |many| => [many[i][|many[i]| - 1]]);
      forall i | 0 <= i < |many| ensures Variations(d.params[i], Last) == Done(one[i]) { LastIsLast(d.params[i]); }
      GeneratedSingleton(d, Last, many, one);
      assert Heads(one) == Lasts(many);
    }
  }

  /** COMBINATIONS, as ALLPAIRS, of a list is the whole list, of a range both its bounds. */
  lemma CombinationsOfLeaf(values: seq<Value>, low: Value, high: Value)
    ensures Variations(ConstList(values), Combinations) == Variations(ConstList(values), AllPairs) == Done(values)
    ensures Variations(Range(low, high), Combinations) == Variations(Range(low, high), AllPairs) == Done([low, high])
  {
  }

  /** COMBINATIONS of a generated parameter has the generator's value at every combination of its inputs, in order. */
  lemma CombinationsOfGenerated(d: Definition, i: nat)
    requires d.Generated? && Variations(d, Combinations).Done? && i < |Variations(d, Combinations).value|
    ensures d.generator.Some? && Inputs(d.params, Combinations).Done? && NoneEmpty(Inputs(d.params, Combinations).value)
    ensures var many := Inputs(d.params, Combinations).value;
      && |Variations(d, Combinations).value| == RowCount(Dimensions(many)) && i < Product(Dimensions(many))
      && Variations(d, Combinations).value[i] == d.generator.value(Row(many, i))
  {
    hide Inputs, Variations, Row, Product;
    var many := GeneratedInputs(d);
    ProductPositive(Dimensions(many));
    CombinedRows(many);
  }

  /** Every leaf has values, every generator is registered, and none has 2^30 inputs. */
  predicate Complete(d: Definition)
    decreases d
  {
    match d
    case ConstList(values) => values != []
    case Range(_, _) => true
    case Generated(generator, params) =>
      generator.Some? && 4 * |params| < UINT && forall i :: 0 <= i < |params| ==> Complete(params[i])
  }

  /** A definition's first or last value: the end of its list, or the generator applied to its inputs' such values. */
  function EndValue(d: Definition, last: bool): (v: Value)
    requires Complete(d)
    decreases d
  {
    match d
    case ConstList(values) => if last then values[|values| - 1] else values[0]
    case Range(low, high) => if last then high else low
    case Generated(generator, params) =>
      generator.value(seq(|params|, i requires 0 <= i < |params| => EndValue(params[i], last)))
  }

  /** FIRST and LAST give that one value for every complete definition, even where COMBINATIONS would overrun. */
  lemma {:induction false} EndStyleGivesOne(d: Definition, last: bool)
    requires Complete(d)
    ensures Variations(d, if last then Last else First) == Done([EndValue(d, last)])
    decreases d
  {
    if d.Generated? {
      var style := if last then Last else First;
      var one := seq(|d.params|, i requires 0 <= i < |d.params| => [EndValue(d.params[i], last)]);
      forall i | 0 <= i < |d.params| ensures Variations(d.params[i], style) == Done(one[i]) {
        EndStyleGivesOne(d.params[i], last);
      }
      hide Combined, Inputs, Variations;
      InputsDone(d.params, style, one);
      GeneratedValues(d.generator.value, d.params, style);
      OnlyCombination(one);
      assert Apply(d.generator.value, [Heads(one)]) == [d.generator.value(Heads(one))];
      assert Heads(one) == seq(|d.params|, i requires 0 <= i < |d.params| => EndValue(d.params[i], last));
    }
  }

  lemma OnlyCombination<T>(one: seq<seq<T>>)
    requires 4 * |one| < UINT && forall i :: 0 <= i < |one| ==> |one[i]| == 1
    ensures NoneEmpty(one) && Combined(one) == Done([Heads(one)])
  {
    hide Product, Times, Digits, Row;
    OnlyRow(one);
    TimesFacts(1, |one|);
    CombinedRows(one);
  }

  /** The generator tells all its inputs apart. */
  ghost predicate Injective(f: seq<Value> -> Value) { forall a, b :: f(a) == f(b) ==> a == b }

  /** For a generator that tells apart inputs whose lists repeat nothing, LAST agrees only if its own table fits. */
  lemma LastOnlyIfFits(d: Definition)
    requires d.Generated? && d.generator.Some? && Injective(d.generator.value)
    requires Variations(d, Combinations).Done? && Variations(d, Combinations).value != []
    requires forall i :: 0 <= i < |d.params| ==> Exact(d.params[i])
    requires forall i :: 0 <= i < |d.params| ==>
               Variations(d.params[i], Combinations).Done? ==> NoRepeats(Variations(d.params[i], Combinations).value)
    ensures Inputs(d.params, Combinations).Done? && NoneEmpty(Inputs(d.params, Combinations).value)
    ensures var all := Variations(d, Combinations).value;
      Variations(d, Last) == Done([all[|all| - 1]]) <==> Fits(Dimensions(Inputs(d.params, Combinations).value))
  {
    hide Combined, Inputs, Variations, NoRepeats, Exact, Fits;
    var many := GeneratedInputs(d);
    var f := d.generator.value;
    var one := seq(|many|, i requires 0 <= i < |many| => [many[i][|many[i]| - 1]]);
    forall i | 0 <= i < |many| ensures Variations(d.params[i], Last) == Done(one[i]) { LastIsLast(d.params[i]); }
    GeneratedSingleton(d, Last, many, one);
    assert Heads(one) == Lasts(many);
    LastImageIffFits(f, many);
  }

  lemma LastImageIffFits(f: seq<Value> -> Value, lists: seq<seq<Value>>)
    requires Injective(f) && Combined(lists).Done? && Combined(lists).value != [] && NoneEmpty(lists)
    requires forall j :: 0 <= j < |lists| ==> NoRepeats(lists[j])
    ensures var all := Apply(f, Combined(lists).value);
      Done([f(Lasts(lists))]) == Done([all[|all| - 1]]) <==> Fits(Dimensions(lists))
  {
    hide Combined, NoRepeats, Fits;
    var rows := Combined(lists).value;
    var all := Apply(f, rows);
    assert all[|all| - 1] == f(rows[|rows| - 1]);
    if Fits(Dimensions(lists)) {
      PaddedDimensions(lists);
      CombinedLast(lists);
    }
    if f(rows[|rows| - 1]) == f(Lasts(lists)) { CombinedLastOnlyIfFits(lists); }
    assert [f(Lasts(lists))][0] == f(Lasts(lists)) && [all[|all| - 1]][0] == all[|all| - 1];
  }

  lemma PaddedDimensions<T>(lists: seq<seq<T>>)
    requires NoneEmpty(lists)
    ensures Padded(Dimensions(lists)) == Dimensions(lists)
  {
    assert Positive(Dimensions(lists));
  }

  lemma CombinedLastOnlyIfFits<T>(lists: seq<seq<T>>)
    requires Combined(lists).Done? && Combined(lists).value != [] && NoneEmpty(lists)
    requires forall j :: 0 <= j < |lists| ==> NoRepeats(lists[j])
    requires Combined(lists).value[|Combined(lists).value| - 1] == Lasts(lists)
    ensures Fits(Dimensions(lists))
  {
    hide Row, Product, Digits, Fits, NoRepeats;
    CombinedRows(lists);
    FitsMeans(Dimensions(lists));
    LastRowOnlyIfAll(lists);
  }

  // ---------- a whole test ----------

  datatype Param = Param(key: string, definition: Definition)

  datatype Fix = Fix(key: string, value: Value)

  /** A test's settings; `Broken` is a missing setting or group, or an unknown kind of setting. */
  datatype Setting = ParamList(group: seq<Param>) | Group(group: seq<Param>) | Fixed(fix: Fix) | Broken

  datatype Error = NoSuchEntry | InvalidArgument

  datatype Result<T> = Ok(value: T) | Err(error: Error)

  datatype Collected = Collected(params: seq<Param>, fixes: seq<Fix>)

  function ParamsOf(settings: seq<Setting>): (params: seq<Param>) {
    if settings == [] then []
    else ParamsOf(settings[..|settings| - 1]) + match settings[|settings| - 1]
      case ParamList(group) => group
      case Group(group) => group
      case _ => []
  }

  function FixesOf(settings: seq<Setting>): (fixes: seq<Fix>) {
    if settings == [] then []
    else FixesOf(settings[..|settings| - 1]) + match settings[|settings| - 1]
      case Fixed(fix) => [fix]
      case _ => []
  }

  predicate AnyBroken(settings: seq<Setting>) { exists i :: 0 <= i < |settings| && settings[i].Broken? }

  function Collect(test: Option<seq<Setting>>): (r: Result<Collected>) {
    if test.None? || test.value == [] then Err(NoSuchEntry)
    else if AnyBroken(test.value) then Err(InvalidArgument)
    else Ok(Collected(ParamsOf(test.value), FixesOf(test.value)))
  }

  method CollectTestParams(test: Option<seq<Setting>>) returns (r: Result<Collected>)
    ensures r == Collect(test)
  {
    hide Reversed;
    if test.None? { return Err(NoSuchEntry); }
    var settings := test.value;
    if settings == [] { return Err(NoSuchEntry); }
    var params: seq<Param> := NothingYet();
    var fixes: seq<Fix> := NothingYet();
    for i := 0 to |settings|
      invariant !AnyBroken(settings[..i])
      invariant params == Reversed(ParamsOf(settings[..i]))
      invariant fixes == Reversed(FixesOf(settings[..i]))
    {
      assert settings[..i + 1] == settings[..i] + [settings[i]];
      assert settings[..i + 1][..i] == settings[..i];
      match settings[i]
      case Broken => return Err(InvalidArgument);
      case Fixed(fix) =>
        ReversedAppend(FixesOf(settings[..i]), fix);
        fixes := [fix] + fixes;
        assert ParamsOf(settings[..i + 1]) == ParamsOf(settings[..i]);
      case ParamList(group) =>
        params := PrependAll(group, params, ParamsOf(settings[..i]));
        assert FixesOf(settings[..i + 1]) == FixesOf(settings[..i]);
      case Group(group) =>
        params := PrependAll(group, params, ParamsOf(settings[..i]));
        assert FixesOf(settings[..i + 1]) == FixesOf(settings[..i]);
    }
    assert settings[..|settings|] == settings;
    ReversedTwice(ParamsOf(settings));
    ReversedTwice(FixesOf(settings));
    params := ReverseValues(params);
    fixes := ReverseValues(fixes);
    r := Ok(Collected(params, fixes));
  }

  method PrependAll(group: seq<Param>, list: seq<Param>, ghost sofar: seq<Param>) returns (longer: seq<Param>)
    requires list == Reversed(sofar)
    ensures longer == Reversed(sofar + group)
  {
    hide Reversed;
    longer := list;
    assert sofar + group[..0] == sofar;
    for j := 0 to |group|
      invariant longer == Reversed(sofar + group[..j])
    {
      ReversedAppend(sofar + group[..j], group[j]);
      assert sofar + group[..j + 1] == sofar + group[..j] + [group[j]];
      longer := [group[j]] + longer;
    }
    assert group[..|group|] == group;
  }

  /** The override of a key, if there is one: the first of several wins. */
  function Override(key: string, fixes: seq<Fix>): (v: Option<Value>)
    ensures v.None? <==> forall i :: 0 <= i < |fixes| ==> fixes[i].key != key
    ensures v.Some? ==> exists i :: 0 <= i < |fixes| && fixes[i] == Fix(key, v.value)
                                 && forall j :: 0 <= j < i ==> fixes[j].key != key
  {
    if fixes == [] then None
    else if fixes[0].key == key then
      assert fixes[0] == Fix(key, fixes[0].value);
      Some(fixes[0].value)
    else
      var v := Override(key, fixes[1..]);
      assert forall i :: 0 < i < |fixes| ==> fixes[i] == fixes[1..][i - 1];
      assert v.Some? ==> exists i :: 0 < i < |fixes| && fixes[i] == Fix(key, v.value)
                                  && forall j :: 0 <= j < i ==> fixes[j].key != key by {
        if v.Some? {
          var i :| 0 <= i < |fixes[1..]| && fixes[1..][i] == Fix(key, v.value)
                   && forall j :: 0 <= j < i ==> fixes[1..][j].key != key;
          assert fixes[i + 1] == Fix(key, v.value);
        }
      }
      v
  }

  method GetFixedParamValue(key: string, fixes: seq<Fix>) returns (v: Option<Value>)
    ensures v == Override(key, fixes)
  {
    var rest := fixes;
    while rest != []
      invariant Override(key, fixes) == Override(key, rest)
    {
      if rest[0].key == key { return Some(rest[0].value); }
      rest := rest[1..];
    }
    v := None;
  }

  // ---------- what is collected, setting by setting ----------

  /** `f` is where the overrides stand among the settings: all the `Fixed` settings, in order, and only those. */
  ghost predicate FixPlaces(settings: seq<Setting>, fixes: seq<Fix>, f: seq<nat>) {
    && |f| == |fixes| && Increasing(f, |settings|)
    && (forall k :: 0 <= k < |f| ==> settings[f[k]].Fixed? && settings[f[k]].fix == fixes[k])
    && (forall i :: 0 <= i < |settings| && settings[i].Fixed? ==> i in f)
  }

  /** Setting `i` has a `k`-th parameter. */
  predicate HasParam(settings: seq<Setting>, i: int, k: int) {
    0 <= i < |settings| && (settings[i].ParamList? || settings[i].Group?) && 0 <= k < |settings[i].group|
  }

  predicate Before(a: (nat, nat), b: (nat, nat)) { a.0 < b.0 || (a.0 == b.0 && a.1 < b.1) }

  /** `at` is where the parameters stand: every parameter of every group, setting by setting, and only those. */
  ghost predicate ParamPlaces(settings: seq<Setting>, params: seq<Param>, at: seq<(nat, nat)>) {
    && |at| == |params|
    && (forall j :: 0 <= j < |at| ==> HasParam(settings, at[j].0, at[j].1)
                                      && params[j] == settings[at[j].0].group[at[j].1])
    && (forall j, l :: 0 <= j < l < |at| ==> Before(at[j], at[l]))
    && (forall i: nat, k: nat :: HasParam(settings, i, k) ==> (i, k) in at)
  }

  /** The overrides collected are the test's `Fixed` settings, each once, in order. */
  lemma {:induction false} FixesPlaced(settings: seq<Setting>) returns (f: seq<nat>)
    ensures FixPlaces(settings, FixesOf(settings), f)
  {
    f := [];
    if settings != [] {
      hide FixPlaces, FixesOf;
      var front, last := settings[..|settings| - 1], |settings| - 1;
      f := FixesPlaced(front);
      OldPlaces(settings, front, f, last);
      if settings[last].Fixed? {
        NewPlace(settings, front, f, last);
        f := f + [last];
      } else {
        NoNewPlace(settings, front, f, last);
      }
    }
  }

  lemma NoNewPlace(settings: seq<Setting>, front: seq<Setting>, g: seq<nat>, last: nat)
    requires |settings| == last + 1 && front == settings[..last] && FixPlaces(front, FixesOf(front), g)
    requires !settings[last].Fixed?
    requires forall k :: 0 <= k < |g| ==>
               g[k] < last && settings[g[k]].Fixed? && settings[g[k]].fix == FixesOf(front)[k]
    requires forall i :: 0 <= i < last && settings[i].Fixed? ==> i in g
    ensures FixPlaces(settings, FixesOf(settings), g)
  {
    assert FixesOf(settings) == FixesOf(front);
    hide FixesOf;
  }

  lemma OldPlaces(settings: seq<Setting>, front: seq<Setting>, g: seq<nat>, last: nat)
    requires |settings| == last + 1 && front == settings[..last] && FixPlaces(front, FixesOf(front), g)
    ensures forall k :: 0 <= k < |g| ==>
              g[k] < last && settings[g[k]].Fixed? && settings[g[k]].fix == FixesOf(front)[k]
    ensures forall i :: 0 <= i < last && settings[i].Fixed? ==> i in g
  {
    hide FixesOf;
    forall k | 0 <= k < |g| ensures settings[g[k]] == front[g[k]] {}
    forall i | 0 <= i < last && settings[i].Fixed? ensures i in g { assert front[i].Fixed?; }
  }

  lemma NewPlace(settings: seq<Setting>, front: seq<Setting>, g: seq<nat>, last: nat)
    requires |settings| == last + 1 && front == settings[..last] && FixPlaces(front, FixesOf(front), g)
    requires settings[last].Fixed?
    requires forall k :: 0 <= k < |g| ==>
               g[k] < last && settings[g[k]].Fixed? && settings[g[k]].fix == FixesOf(front)[k]
    requires forall i :: 0 <= i < last && settings[i].Fixed? ==> i in g
    ensures FixPlaces(settings, FixesOf(settings), g + [last])
  {
    var f, fixes := g + [last], FixesOf(settings);
    assert fixes == FixesOf(front) + [settings[last].fix];
    hide FixesOf;
    forall i | 0 <= i < |settings| && settings[i].Fixed? ensures i in f {
      if i < last { assert i in g; } else { assert f[|g|] == last; }
    }
  }

  /** The parameters collected are those of the test's groups, each once, in order. */
  lemma {:induction false} ParamsPlaced(settings: seq<Setting>) returns (at: seq<(nat, nat)>)
    ensures ParamPlaces(settings, ParamsOf(settings), at)
  {
    at := [];
    if settings != [] {
      hide ParamPlaces, ParamsOf, HasParam, Before;
      var front, last := settings[..|settings| - 1], |settings| - 1;
      at := ParamsPlaced(front);
      OldParamPlaces(settings, front, at, last);
      if settings[last].ParamList? || settings[last].Group? {
        var more: seq<(nat, nat)> := seq(|settings[last].group|, k requires 0 <= k => (last, k));
        PlacesAppend(settings, front, at, more, last);
        at := at + more;
      } else {
        NoNewParamPlaces(settings, front, at, last);
      }
    }
  }

  lemma OldParamPlaces(settings: seq<Setting>, front: seq<Setting>, up: seq<(nat, nat)>, last: nat)
    requires |settings| == last + 1 && front == settings[..last] && ParamPlaces(front, ParamsOf(front), up)
    ensures forall j :: 0 <= j < |up| ==> HasParam(settings, up[j].0, up[j].1) && up[j].0 < last
    ensures forall i: nat, k: nat :: HasParam(settings, i, k) && i < last ==> (i, k) in up
  {
    hide ParamsOf;
    forall j | 0 <= j < |up| ensures HasParam(settings, up[j].0, up[j].1) && up[j].0 < last {
      assert HasParam(front, up[j].0, up[j].1);
    }
    forall i: nat, k: nat | HasParam(settings, i, k) && i < last ensures (i, k) in up {
      assert HasParam(front, i, k);
    }
  }

  lemma NoNewParamPlaces(settings: seq<Setting>, front: seq<Setting>, up: seq<(nat, nat)>, last: nat)
    requires |settings| == last + 1 && front == settings[..last] && ParamPlaces(front, ParamsOf(front), up)
    requires !settings[last].ParamList? && !settings[last].Group?
    requires forall j :: 0 <= j < |up| ==> HasParam(settings, up[j].0, up[j].1) && up[j].0 < last
    requires forall i: nat, k: nat :: HasParam(settings, i, k) && i < last ==> (i, k) in up
    ensures ParamPlaces(settings, ParamsOf(settings), up)
  {
    assert ParamsOf(settings) == ParamsOf(front);
    hide ParamsOf, Before;
  }

  lemma PlacesAppend(settings: seq<Setting>, front: seq<Setting>, up: seq<(nat, nat)>, more: seq<(nat, nat)>, last: nat)
    requires |settings| == last + 1 && front == settings[..last] && ParamPlaces(front, ParamsOf(front), up)
    requires settings[last].ParamList? || settings[last].Group?
    requires |more| == |settings[last].group| && forall k :: 0 <= k < |more| ==> more[k] == (last, k)
    requires forall j :: 0 <= j < |up| ==> HasParam(settings, up[j].0, up[j].1) && up[j].0 < last
    requires forall i: nat, k: nat :: HasParam(settings, i, k) && i < last ==> (i, k) in up
    ensures ParamPlaces(settings, ParamsOf(settings), up + more)
  {
    var at, params := up + more, ParamsOf(settings);
    assert params == ParamsOf(front) + settings[last].group;
    forall j | 0 <= j < |at|
      ensures HasParam(settings, at[j].0, at[j].1) && params[j] == settings[at[j].0].group[at[j].1]
    {
      if j < |up| { assert at[j] == up[j]; } else { assert at[j] == more[j - |up|]; }
    }
    forall j, l | 0 <= j < l < |at| ensures Before(at[j], at[l]) {
      if l < |up| { assert at[j] == up[j] && at[l] == up[l]; }
      else { assert at[l] == more[l - |up|]; if j >= |up| { assert at[j] == more[j - |up|]; } }
    }
    forall i: nat, k: nat | HasParam(settings, i, k) ensures (i, k) in at {
      if i == last { assert more[k] == (i, k); assert at[|up| + k] == (i, k); } else { assert (i, k) in up; }
    }
  }

  /** The first `Fixed` setting of a key is the key's override. */
  lemma FirstFixIsOverride(settings: seq<Setting>, i: nat)
    requires i < |settings| && settings[i].Fixed?
    requires forall j :: 0 <= j < i && settings[j].Fixed? ==> settings[j].fix.key != settings[i].fix.key
    ensures Override(settings[i].fix.key, FixesOf(settings)) == Some(settings[i].fix.value)
  {
    hide FixesOf;
    var key, fixes := settings[i].fix.key, FixesOf(settings);
    var f := FixesPlaced(settings);
    var k :| 0 <= k < |f| && f[k] == i;
    assert fixes[k] == settings[i].fix;
    forall l | 0 <= l < k ensures fixes[l].key != key { assert f[l] < f[k] && settings[f[l]].fix == fixes[l]; }
    FirstWins(key, fixes, k);
  }

  lemma {:induction false} FirstWins(key: string, fixes: seq<Fix>, k: nat)
    requires k < |fixes| && fixes[k].key == key && forall l :: 0 <= l < k ==> fixes[l].key != key
    ensures Override(key, fixes) == Some(fixes[k].value)
  {
    if k > 0 {
      assert fixes[0].key != key;
      FirstWins(key, fixes[1..], k - 1);
    }
  }

  function ValuesOf(param: Param, fixes: seq<Fix>, style: Style): (r: Outcome<seq<Value>>) {
    match Override(param.key, fixes)
    case Some(v) => Done([v])
    case None => Variations(param.definition, style)
  }

  /** A test's value lists, one a parameter. */
  function Lists(c: Collected, style: Style): (r: Outcome<seq<seq<Value>>>) {
    AllDone(seq(|c.params|, i requires 0 <= i < |c.params| => ValuesOf(c.params[i], c.fixes, style)))
  }

  /** The variants of a test, as its value lists determine them; nothing for ALLPAIRS, which is not implemented. */
  function Variants(c: Collected, style: Style): (r: Outcome<seq<seq<Value>>>) {
    match Lists(c, style)
    case Overrun => Overrun
    case Done(lists) => if style == AllPairs then Done([]) else Combined(lists)
  }

  method GenerateTestVariations(test: Option<seq<Setting>>, style: Style) returns (r: Outcome<seq<seq<Value>>>)
    ensures r == if Collect(test).Ok? then Variants(Collect(test).value, style) else Done([])
  {
    hide Combined, Collect;
    var collected := CollectTestParams(test);
    if collected.Err? { return Done([]); }
    var c := collected.value;
    ghost var results := seq(|c.params|, i requires 0 <= i < |c.params| => ValuesOf(c.params[i], c.fixes, style));
    var lists: seq<seq<Value>> := [];
    for i := 0 to |c.params|
      invariant |lists| == i && forall k :: 0 <= k < i ==> results[k] == Done(lists[k])
    {
      var fixed := GetFixedParamValue(c.params[i].key, c.fixes);
      var values;
      if fixed.Some? {
        values := Done([fixed.value]);
      } else {
        values := GenerateVariations(c.params[i].definition, style);
      }
      assert values == results[i];
      if values.Overrun? { return Overrun; }
      lists := lists + [values.value];
    }
    AllAreDone(results, lists);
    if style == AllPairs { return Done([]); }
    r := Combine(lists);
  }

  lemma ListsGive(c: Collected, style: Style)
    requires Lists(c, style).Done?
    ensures |Lists(c, style).value| == |c.params|
    ensures forall i :: 0 <= i < |c.params| ==> ValuesOf(c.params[i], c.fixes, style) == Done(Lists(c, style).value[i])
  {
    var rs := seq(|c.params|, i requires 0 <= i < |c.params| => ValuesOf(c.params[i], c.fixes, style));
    assert Lists(c, style) == AllDone(rs);
    forall i | 0 <= i < |c.params| ensures ValuesOf(c.params[i], c.fixes, style) == Done(Lists(c, style).value[i]) {
      assert rs[i] == Done(Lists(c, style).value[i]);
    }
  }

  lemma ListsDone(c: Collected, style: Style, lists: seq<seq<Value>>)
    requires |lists| == |c.params|
    requires forall i :: 0 <= i < |c.params| ==> ValuesOf(c.params[i], c.fixes, style) == Done(lists[i])
    ensures Lists(c, style) == Done(lists)
  {
    AllAreDone(seq(|c.params|, i requires 0 <= i < |c.params| => ValuesOf(c.params[i], c.fixes, style)), lists);
  }

  /** Every variant of a test shows an overridden parameter at its override. */
  lemma OverrideHolds(c: Collected, style: Style, i: nat, j: nat)
    requires Variants(c, style).Done? && i < |Variants(c, style).value| && j < |c.params|
    requires Override(c.params[j].key, c.fixes).Some?
    ensures |Variants(c, style).value[i]| == |c.params|
    ensures Variants(c, style).value[i][j] == Override(c.params[j].key, c.fixes).value
  {
    hide Product, Digits, Override, TableAllocates, Lists;
    ListsGive(c, style);
    var lists := Lists(c, style).value;
    CombinedRows(lists);
    ProductPositive(Dimensions(lists));
    NumberOfDigits(i, Dimensions(lists));
    assert Variants(c, style).value[i] == Row(lists, i);
    assert |lists[j]| == 1 == Dimensions(lists)[j];
  }

  /**
   From the settings to the variants: whatever the first `Fixed` setting of a key says, every
   variant shows at every parameter with that key, wherever in the groups it stands.
   */
  lemma FixedSettingShows(settings: seq<Setting>, style: Style, fix: nat, i: nat, k: nat, row: nat)
    returns (at: seq<(nat, nat)>, j: nat)
    requires Collect(Some(settings)).Ok? && fix < |settings| && settings[fix].Fixed?
    requires forall l :: 0 <= l < fix && settings[l].Fixed? ==> settings[l].fix.key != settings[fix].fix.key
    requires HasParam(settings, i, k) && settings[i].group[k].key == settings[fix].fix.key
    requires Variants(Collect(Some(settings)).value, style).Done?
    requires row < |Variants(Collect(Some(settings)).value, style).value|
    ensures ParamPlaces(settings, ParamsOf(settings), at) && j < |at| && at[j] == (i, k)
    ensures var variant := Variants(Collect(Some(settings)).value, style).value[row];
      |variant| == |at| && variant[j] == settings[fix].fix.value
  {
    hide Variants, Override;
    var c := Collect(Some(settings)).value;
    at := ParamsPlaced(settings);
    j :| 0 <= j < |at| && at[j] == (i, k);
    FirstFixIsOverride(settings, fix);
    assert c.params[j] == settings[i].group[k];
    OverrideHolds(c, style, row, j);
  }

  /** Which tests cannot be collected, and why. */
  lemma CollectFails(test: Option<seq<Setting>>)
    ensures Collect(test) == Err(NoSuchEntry) <==> test == None || test == Some([])
    ensures Collect(test) == Err(InvalidArgument)
            <==> test.Some? && exists i :: 0 <= i < |test.value| && test.value[i] == Broken
  {
    if test.Some? && AnyBroken(test.value) {
      var i :| 0 <= i < |test.value| && test.value[i].Broken?;
      assert test.value[i] == Broken;
    }
  }

  /**
   A test whose parameters all have values gets its whole Cartesian product, in order, if and
   only if the table fits; if not, the run leaves its table or combinations are missing.
   */
  lemma CombinationsCompleteIffFits(c: Collected)
    requires Lists(c, Combinations).Done? && NoneEmpty(Lists(c, Combinations).value)
    ensures var lists := Lists(c, Combinations).value;
      Variants(c, Combinations) == Done(Cartesian(lists)) <==> Fits(Dimensions(lists))
  {
    hide Combined, Cartesian, Fits, Lists;
    CombinedIsCartesianIffFits(Lists(c, Combinations).value);
  }

  /** And then each choice of indices appears at the row its digits number. */
  lemma EachCombinationOnce(c: Collected, p: seq<nat>)
    requires Lists(c, Combinations).Done? && NoneEmpty(Lists(c, Combinations).value)
    requires Fits(Dimensions(Lists(c, Combinations).value)) && InRange(p, Dimensions(Lists(c, Combinations).value))
    ensures var lists := Lists(c, Combinations).value; var i := Number(p, Dimensions(lists));
      && Variants(c, Combinations).Done? && i < |Variants(c, Combinations).value|
      && Variants(c, Combinations).value[i] == Pick(lists, p)
  {
    hide Product, Digits, Number, TableAllocates, Lists, Fits;
    var lists := Lists(c, Combinations).value;
    FitsMeans(Dimensions(lists));
    CombinedRows(lists);
    NumberBound(p, Dimensions(lists));
    DigitsOfNumber(p, Dimensions(lists));
    assert Rows(lists)[Number(p, Dimensions(lists))] == Row(lists, Number(p, Dimensions(lists)));
  }

  /** A test's FIRST variant is the first of its COMBINATIONS. */
  lemma TestFirst(c: Collected)
    requires Variants(c, Combinations).Done? && Variants(c, Combinations).value != []
    ensures Variants(c, First) == Done([Variants(c, Combinations).value[0]])
  {
    hide Combined, Override, Lists;
    ListsGive(c, Combinations);
    var many := Lists(c, Combinations).value;
    CombinedFirst(many);
    var one := seq(|many|, i requires 0 <= i < |many| => [many[i][0]]);
    forall i | 0 <= i < |c.params| ensures ValuesOf(c.params[i], c.fixes, First) == Done(one[i]) {
      if Override(c.params[i].key, c.fixes).None? { FirstIsHead(c.params[i].definition); }
    }
    ListsDone(c, First, one);
    CombinedSingletons(many, one);
    assert Heads(one) == Heads(many);
  }

  /** A test's LAST variant shows the last value of every parameter's list. */
  lemma TestLastValues(c: Collected)
    requires Variants(c, Combinations).Done? && Variants(c, Combinations).value != []
    requires forall i :: 0 <= i < |c.params| ==> Exact(c.params[i].definition)
    ensures NoneEmpty(Lists(c, Combinations).value)
    ensures Variants(c, Last) == Done([Lasts(Lists(c, Combinations).value)])
  {
    hide Combined, Override, Lists;
    ListsGive(c, Combinations);
    var many := Lists(c, Combinations).value;
    CombinedFirst(many);
    var one := seq(|many|, i requires 0 <= i < |many| => [many[i][|many[i]| - 1]]);
    forall i | 0 <= i < |c.params| ensures ValuesOf(c.params[i], c.fixes, Last) == Done(one[i]) {
      if Override(c.params[i].key, c.fixes).None? { LastIsLast(c.params[i].definition); }
    }
    ListsDone(c, Last, one);
    CombinedSingletons(many, one);
    assert Heads(one) == Lasts(many);
  }

  /** The last of a test's COMBINATIONS is its LAST variant. */
  ghost predicate LastAgrees(c: Collected)
    requires Variants(c, Combinations).Done? && Variants(c, Combinations).value != []
  {
    var all := Variants(c, Combinations).value;
    Variants(c, Last) == Done([all[|all| - 1]])
  }

  /** They agree when the test's table fits; and if no parameter repeats a value, only then. */
  lemma TestLast(c: Collected)
    requires Variants(c, Combinations).Done? && Variants(c, Combinations).value != []
    requires forall i :: 0 <= i < |c.params| ==> Exact(c.params[i].definition)
    ensures var lists := Lists(c, Combinations).value;
      && (Fits(Dimensions(lists)) ==> LastAgrees(c))
      && ((forall i :: 0 <= i < |lists| ==> NoRepeats(lists[i])) ==> (LastAgrees(c) <==> Fits(Dimensions(lists))))
  {
    hide Lists, Product, Row, Fits, NoRepeats;
    TestLastValues(c);
    var lists := Lists(c, Combinations).value;
    CombinedRows(lists);
    FitsMeans(Dimensions(lists));
    if Fits(Dimensions(lists)) { LastRow(lists); }
    if LastAgrees(c) && forall i :: 0 <= i < |lists| ==> NoRepeats(lists[i]) { LastRowOnlyIfAll(lists); }
  }
}
