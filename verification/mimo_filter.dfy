/**
 * The five-slot circular moving-average `SimpleFilter` of the MIMO build
 * (MushroomChamberController/src/actuators_mimo.cpp).
 *
 * Until the ring has wrapped once, `update` divides by `index + 1` after
 * advancing `index`, so it also counts the still-empty next slot: after
 * k < 5 inputs it returns their sum over k + 1, and the first output is half
 * the input. Once the ring is full it returns the mean of the last five inputs.
 */
module MimoFilter {

  const Size: nat := 5

  datatype Filter = Filter(values: seq<real>, index: nat, filled: bool)

  /** The ring buffer has five slots and the write index points at one of them. */
  predicate Valid(f: Filter)
  {
    |f.values| == Size && f.index < Size
  }

  /** A default-constructed `SimpleFilter`. */
  function NewFilter(): (f: Filter)
    ensures Valid(f)
    ensures f.index == 0 && !f.filled
    ensures forall i :: 0 <= i < |f.values| ==> f.values[i] == 0.0
  {
    Filter([0.0, 0.0, 0.0, 0.0, 0.0], 0, false)
  }

  /** The loop's running sum, accumulated front to back. */
  function Sum(s: seq<real>): real
  {
    if |s| == 0 then 0.0 else Sum(s[..|s| - 1]) + s[|s| - 1]
  }

  datatype Output = Output(filter: Filter, value: real)

  /** `SimpleFilter::update`. */
  function Update(f: Filter, input: real): (r: Output)
    requires Valid(f)
    ensures Valid(r.filter)
    ensures r.filter.index == (f.index + 1) % Size
    ensures r.filter.values[f.index] == input
    ensures forall j :: 0 <= j < Size && j != f.index ==> r.filter.values[j] == f.values[j]
    ensures r.filter.filled <==> f.filled || f.index == Size - 1
  {
    var values := f.values[f.index := input];
    var index := (f.index + 1) % Size;
    var filled := f.filled || index == 0;
    var count := if filled then Size else index + 1;
    Output(Filter(values, index, filled), Sum(values[..count]) / count as real)
  }

  /** The filter after it has been fed `inputs`, oldest first. */
  function Feed(inputs: seq<real>): (f: Filter)
    ensures Valid(f)
  {
    if |inputs| == 0 then NewFilter()
    else Update(Feed(inputs[..|inputs| - 1]), inputs[|inputs| - 1]).filter
  }

  /** The value `update` returns for the last of `inputs`. */
  function LastOutput(inputs: seq<real>): real
    requires |inputs| > 0
  {
    Update(Feed(inputs[..|inputs| - 1]), inputs[|inputs| - 1]).value
  }

  /** The ring read from the oldest slot (the write index) round to the newest. */
  function Rotate(v: seq<real>, i: nat): seq<real>
    requires i <= |v|
  {
    v[i..] + v[..i]
  }

  lemma {:induction false} SumAppend(a: seq<real>, b: seq<real>)
    ensures Sum(a + b) == Sum(a) + Sum(b)
    decreases |b|
  {
    if |b| == 0 {
      assert a + b == a;
    } else {
      assert (a + b)[..|a + b| - 1] == a + b[..|b| - 1];
      SumAppend(a, b[..|b| - 1]);
    }
  }

  lemma SumRotate(v: seq<real>, i: nat)
    requires i <= |v|
    ensures Sum(Rotate(v, i)) == Sum(v)
  {
    SumAppend(v[i..], v[..i]);
    SumAppend(v[..i], v[i..]);
    assert v[..i] + v[i..] == v;
  }

  /** What the ring holds after `inputs`: the inputs in order, then zeros, until it wraps; after that, the last five. */
  predicate Holds(f: Filter, inputs: seq<real>)
  {
    && Valid(f)
    && f.index == |inputs| % Size
    && (f.filled <==> |inputs| >= Size)
    && (|inputs| < Size ==>
          f.values[..|inputs|] == inputs
          && forall j :: |inputs| <= j < Size ==> f.values[j] == 0.0)
    && (|inputs| >= Size ==> Rotate(f.values, f.index) == inputs[|inputs| - Size..])
  }

  lemma {:induction false} FeedHolds(inputs: seq<real>)
    ensures Holds(Feed(inputs), inputs)
    decreases |inputs|
  {
    if |inputs| > 0 {
      var n := |inputs| - 1;
      FeedHolds(inputs[..n]);
      assert inputs[..n] + [inputs[n]] == inputs;
      UpdateHolds(Feed(inputs[..n]), inputs[..n], inputs[n]);
    }
  }

  /** One `update` carries the ring's relation to the input history forward. */
  lemma UpdateHolds(f: Filter, prev: seq<real>, x: real)
    requires Holds(f, prev)
    ensures Holds(Update(f, x).filter, prev + [x])
  {
    var n := |prev|;
    if n + 1 < Size {
      FillingStep(f, prev, x);
    } else if n + 1 == Size {
      WrapStep(f, prev, x);
    } else {
      FullStep(f, prev, x);
    }
  }

  lemma FillingStep(f: Filter, prev: seq<real>, x: real)
    requires Holds(f, prev) && |prev| + 1 < Size
    ensures Holds(Update(f, x).filter, prev + [x])
  {
    var g := Update(f, x).filter;
    var n := |prev|;
    assert f.index == n;
    assert g.values[..n + 1] == f.values[..n] + [x];
  }

  lemma WrapStep(f: Filter, prev: seq<real>, x: real)
    requires Holds(f, prev) && |prev| + 1 == Size
    ensures Holds(Update(f, x).filter, prev + [x])
  {
    var g := Update(f, x).filter;
    var n := |prev|;
    assert f.index == n;
    assert g.values == f.values[..n] + [x];
    assert Rotate(g.values, 0) == g.values;
    assert (prev + [x])[n + 1 - Size..] == prev + [x];
  }

  lemma FullStep(f: Filter, prev: seq<real>, x: real)
    requires Holds(f, prev) && |prev| >= Size
    ensures Holds(Update(f, x).filter, prev + [x])
  {
    var n := |prev|;
    RotateStep(f.values, f.index, x);
    assert (prev + [x])[n + 1 - Size..] == prev[n - Size..][1..] + [x];
  }

  /** Writing the oldest slot and advancing the index drops the oldest input and appends the new one. */
  lemma RotateStep(v: seq<real>, i: nat, x: real)
    requires |v| == Size && i < Size
    ensures Rotate(v[i := x], (i + 1) % Size) == Rotate(v, i)[1..] + [x]
  {
    var w := v[i := x];
    if i < Size - 1 {
      assert w[i + 1..] == v[i + 1..];
      assert w[..i + 1] == v[..i] + [x];
      assert Rotate(v, i)[1..] == v[i + 1..] + v[..i];
    } else {
      assert Rotate(w, 0) == v[..i] + [x];
      assert Rotate(v, i)[1..] == v[..i];
    }
  }

  /** How many slots `update` averages over after it has advanced the index. */
  function Count(f: Filter): nat
  {
    if f.filled then Size else f.index + 1
  }

  lemma LastOutputFormula(inputs: seq<real>)
    requires |inputs| > 0
    ensures Count(Feed(inputs)) <= Size
    ensures LastOutput(inputs) == Sum(Feed(inputs).values[..Count(Feed(inputs))]) / Count(Feed(inputs)) as real
  {
  }

  /**
   * The filter's output against its input history: the mean of the last
   * five inputs once five have arrived, and before that the sum of the
   * inputs over their count plus one.
   */
  lemma OutputIsWindowAverage(inputs: seq<real>)
    requires |inputs| > 0
    ensures |inputs| >= Size ==> LastOutput(inputs) == Sum(inputs[|inputs| - Size..]) / Size as real
    ensures |inputs| < Size ==> LastOutput(inputs) == Sum(inputs) / (|inputs| + 1) as real
  {
    FeedHolds(inputs);
    LastOutputFormula(inputs);
    if |inputs| >= Size {
      WindowSumWhenFull(Feed(inputs), inputs);
    } else {
      WindowSumWhileFilling(Feed(inputs), inputs);
    }
  }

  lemma WindowSumWhenFull(f: Filter, inputs: seq<real>)
    requires Holds(f, inputs) && |inputs| >= Size
    ensures Count(f) == Size
    ensures Sum(f.values[..Count(f)]) == Sum(inputs[|inputs| - Size..])
  {
    SumRotate(f.values, f.index);
    assert f.values[..Size] == f.values;
  }

  lemma WindowSumWhileFilling(f: Filter, inputs: seq<real>)
    requires Holds(f, inputs) && |inputs| < Size
    ensures Count(f) == |inputs| + 1
    ensures Sum(f.values[..Count(f)]) == Sum(inputs)
  {
    var n := |inputs|;
    assert f.values[..n + 1] == f.values[..n] + [f.values[n]];
    assert f.values[..n + 1] == inputs + [0.0];
    SumAppend(inputs, [0.0]);
    assert Sum([0.0]) == Sum([]) + 0.0;
  }

  /** The first output of a fresh filter is half its input. */
  lemma FirstOutputIsHalf(x: real)
    ensures LastOutput([x]) == x / 2.0
  {
    OutputIsWindowAverage([x]);
    assert Sum([x]) == Sum([]) + x;
  }

  lemma {:induction false} SumConstant(s: seq<real>, v: real)
    requires forall i :: 0 <= i < |s| ==> s[i] == v
    ensures Sum(s) == |s| as real * v
    decreases |s|
  {
    if |s| > 0 {
      SumConstant(s[..|s| - 1], v);
    }
  }

  /** A constant input reproduces itself once the ring is full. */
  lemma ConstantInputSettles(inputs: seq<real>, v: real)
    requires |inputs| >= Size
    requires forall i :: 0 <= i < |inputs| ==> inputs[i] == v
    ensures LastOutput(inputs) == v
  {
    OutputIsWindowAverage(inputs);
    SumConstant(inputs[|inputs| - Size..], v);
  }
}
