/** The fairness qualification: Jain's index as an exact rational, the acceptance of a report's rows, and the gate. */
module Fairness {

  function Total(v: seq<nat>): nat {
    if v == [] then 0 else v[0] + Total(v[1..])
  }

  function Squares(v: seq<nat>): nat {
    if v == [] then 0 else v[0] * v[0] + Squares(v[1..])
  }

  /** The flows that moved anything. */
  function Moving(v: seq<nat>): (n: nat)
    ensures n <= |v|
  {
    if v == [] then 0 else Moving(v[1..]) + if v[0] > 0 then 1 else 0
  }

  /** Jain's index, zero when nothing moved at all. */
  function Jain(v: seq<nat>): real
    requires v != []
  {
    if Squares(v) == 0 then 0.0 else (Total(v) * Total(v)) as real / (|v| * Squares(v)) as real
  }

  /** The sum of squared distances from `x`. */
  ghost function Spread(x: nat, v: seq<nat>): (s: nat)
  {
    if v == [] then 0 else (x - v[0]) * (x - v[0]) + Spread(x, v[1..])
  }

  lemma Square(x: nat, y: nat)
    ensures (x - y) * (x - y) == x * x - 2 * x * y + y * y >= 0
  {
  }

  lemma SpreadStep(n: nat, x: nat, y: nat, t: nat, s: nat)
    ensures (x - y) * (x - y) + (n * (x * x) - 2 * x * t + s) == (n + 1) * (x * x) - 2 * x * (y + t) + (y * y + s)
  {
    Square(x, y);
    assert (n + 1) * (x * x) == n * (x * x) + x * x;
    assert 2 * x * (y + t) == 2 * x * y + 2 * x * t;
  }

  lemma SquareZero(x: nat, y: nat)
    ensures (x - y) * (x - y) == 0 <==> x == y
  {
  }

  lemma {:induction false} SpreadIs(x: nat, v: seq<nat>)
    ensures Spread(x, v) == |v| * (x * x) - 2 * x * Total(v) + Squares(v)
  {
    if v != [] {
      SpreadIs(x, v[1..]);
      SpreadStep(|v| - 1, x, v[0], Total(v[1..]), Squares(v[1..]));
    }
  }

  lemma {:induction false} SpreadZero(x: nat, v: seq<nat>)
    ensures Spread(x, v) == 0 <==> forall i :: 0 <= i < |v| ==> v[i] == x
  {
    if v != [] {
      SpreadZero(x, v[1..]);
      SquareZero(x, v[0]);
    }
  }

  ghost predicate AllEqual(v: seq<nat>) {
    forall i, j :: 0 <= i < |v| && 0 <= j < |v| ==> v[i] == v[j]
  }

  /** What the index falls short of one by, over the whole list: a sum of squares. */
  ghost function Unevenness(v: seq<nat>): nat {
    if v == [] then 0 else Spread(v[0], v[1..]) + Unevenness(v[1..])
  }

  lemma Expand(n: nat, x: nat, s: nat, t: nat)
    ensures (n + 1) * (x * x + s) - (x + t) * (x + t) == (n * (x * x) - 2 * x * t + s) + (n * s - t * t)
  {
    assert (n + 1) * (x * x + s) == n * (x * x) + n * s + x * x + s;
    assert (x + t) * (x + t) == x * x + 2 * x * t + t * t;
  }

  /** The identity behind the Cauchy-Schwarz inequality. */
  lemma {:induction false} UnevennessIs(v: seq<nat>)
    ensures |v| * Squares(v) == Total(v) * Total(v) + Unevenness(v)
  {
    if v != [] {
      UnevennessIs(v[1..]);
      SpreadIs(v[0], v[1..]);
      Expand(|v| - 1, v[0], Squares(v[1..]), Total(v[1..]));
    }
  }

  lemma {:induction false} UnevennessZero(v: seq<nat>)
    ensures Unevenness(v) == 0 <==> AllEqual(v)
  {
    if v != [] {
      UnevennessZero(v[1..]);
      SpreadZero(v[0], v[1..]);
      if Unevenness(v) == 0 {
        forall i | 0 <= i < |v|
          ensures v[i] == v[0]
        {
          assert i > 0 ==> v[i] == v[1..][i - 1];
        }
      }
      if AllEqual(v) {
        forall i | 0 <= i < |v[1..]|
          ensures v[1..][i] == v[0]
        {
          assert v[1..][i] == v[i + 1];
        }
      }
    }
  }

  /** A list without its flows that did not move. */
  function OnlyMoving(v: seq<nat>): (w: seq<nat>)
    ensures |w| == Moving(v) && Total(w) == Total(v) && Squares(w) == Squares(v)
  {
    if v == [] then []
    else if v[0] == 0 then OnlyMoving(v[1..])
    else
      var rest := OnlyMoving(v[1..]);
      assert ([v[0]] + rest)[1..] == rest;
      [v[0]] + rest
  }

  lemma {:induction false} SquaresAtMostSquare(v: seq<nat>)
    ensures Squares(v) <= Total(v) * Total(v)
    ensures Squares(v) == 0 <==> Moving(v) == 0
  {
    if v != [] {
      SquaresAtMostSquare(v[1..]);
      var x, t := v[0], Total(v[1..]);
      assert (x + t) * (x + t) == x * x + 2 * x * t + t * t;
      assert x * t >= 0;
      assert x > 0 ==> x * x > 0;
    }
  }

  lemma Ratio(a: nat, b: nat, c: nat, d: nat)
    requires b > 0 && d > 0
    ensures a * d <= c * b <==> a as real / b as real <= c as real / d as real
  {
    var x, y := a as real / b as real, c as real / d as real;
    assert x * b as real == a as real && y * d as real == c as real;
    assert (a * d) as real == x * (b as real * d as real);
    assert (c * b) as real == y * (b as real * d as real);
    Scale(x, y, b as real * d as real);
  }

  lemma Scale(x: real, y: real, k: real)
    requires k > 0.0
    ensures x <= y <==> x * k <= y * k
  {
    if y < x {
      assert (x - y) * k > 0.0;
    } else {
      assert (y - x) * k >= 0.0;
    }
  }

  lemma TotalSquaredAtMost(v: seq<nat>)
    ensures Total(v) * Total(v) <= Moving(v) * Squares(v)
  {
    UnevennessIs(OnlyMoving(v));
  }

  /** The index as a fraction, with what the sums say about it. */
  lemma JainFraction(v: seq<nat>) returns (t: nat, d: nat)
    requires v != [] && Moving(v) > 0
    ensures d > 0 && t <= d && Jain(v) == t as real / d as real
    ensures d <= t * |v| && t * |v| <= Moving(v) * d
    ensures t == d <==> AllEqual(v)
  {
    var n, s := |v|, Squares(v);
    t, d := Total(v) * Total(v), n * s;
    SquaresAtMostSquare(v);
    UnevennessIs(v);
    UnevennessZero(v);
    Positive(n, s);
    TotalSquaredAtMost(v);
    Across(n, s, t, Moving(v));
  }

  lemma Across(n: nat, s: nat, t: nat, k: nat)
    requires s <= t <= k * s
    ensures n * s <= t * n && t * n <= k * (n * s)
  {
    MulLe(s, t, n);
    MulLe(t, k * s, n);
    assert k * s * n == k * (n * s);
  }

  /** The index lies between one flow's share and one, and is never above the share of flows that moved. */
  lemma JainBounds(v: seq<nat>)
    requires v != [] && Moving(v) > 0
    ensures 1.0 / |v| as real <= Jain(v) <= 1.0
    ensures Jain(v) <= Moving(v) as real / |v| as real
  {
    JainAtMostOne(v);
    JainAtLeastShare(v);
    JainAtMostMoving(v);
  }

  lemma JainAtMostOne(v: seq<nat>)
    requires v != [] && Moving(v) > 0
    ensures Jain(v) <= 1.0
  {
    var t, d := JainFraction(v);
    AtMostOne(t, d, Jain(v));
  }

  lemma JainAtLeastShare(v: seq<nat>)
    requires v != [] && Moving(v) > 0
    ensures 1.0 / |v| as real <= Jain(v)
  {
    var t, d := JainFraction(v);
    AtLeast(|v|, t, d, Jain(v));
  }

  lemma JainAtMostMoving(v: seq<nat>)
    requires v != [] && Moving(v) > 0
    ensures Jain(v) <= Moving(v) as real / |v| as real
  {
    var t, d := JainFraction(v);
    AtMost(Moving(v), |v|, t, d, Jain(v));
  }

  lemma AtMostOne(t: nat, d: nat, j: real)
    requires d > 0 && j == t as real / d as real && t <= d
    ensures j <= 1.0
  {
    Ratio(t, d, 1, 1);
  }

  lemma AtLeast(n: nat, t: nat, d: nat, j: real)
    requires n > 0 && d > 0 && j == t as real / d as real && d <= t * n
    ensures 1.0 / n as real <= j
  {
    Ratio(1, n, t, d);
  }

  lemma AtMost(k: nat, n: nat, t: nat, d: nat, j: real)
    requires n > 0 && d > 0 && j == t as real / d as real && t * n <= k * d
    ensures j <= k as real / n as real
  {
    Ratio(t, d, k, n);
  }

  lemma Positive(n: nat, s: nat)
    requires n > 0 && s > 0
    ensures n * s > 0
  {
  }

  lemma MulLe(a: nat, b: nat, c: nat)
    requires a <= b
    ensures a * c <= b * c
  {
  }

  /** It is one exactly when all flows moved the same. */
  lemma JainIsOneIff(v: seq<nat>)
    requires v != [] && Moving(v) > 0
    ensures Jain(v) == 1.0 <==> AllEqual(v)
  {
    var t, d := JainFraction(v);
    Ratio(t, d, 1, 1);
    Ratio(1, 1, t, d);
  }

  /** It is the share of flows that moved exactly when those moved the same. */
  lemma JainIsShareIff(v: seq<nat>)
    requires v != [] && Moving(v) > 0
    ensures Jain(v) == Moving(v) as real / |v| as real <==> AllEqual(OnlyMoving(v))
  {
    SquaresAtMostSquare(v);
    UnevennessIs(OnlyMoving(v));
    UnevennessZero(OnlyMoving(v));
    Share(|v|, Moving(v), Squares(v), Total(v) * Total(v));
  }

  lemma Share(n: nat, k: nat, s: nat, t: nat)
    requires n > 0 && s > 0
    ensures n * s > 0 && (t as real / (n * s) as real == k as real / n as real <==> t == k * s)
  {
    Positive(n, s);
    Ratio(t, n * s, k, n);
    Ratio(k, n, t, n * s);
    assert k * (n * s) == k * s * n;
    SameTimes(t, k * s, n);
  }

  lemma SameTimes(a: nat, b: nat, n: nat)
    requires n > 0
    ensures a * n == b * n <==> a == b
  {
  }

  // -- the homogeneous gate --

  const GATE: real := 98.0 / 100.0

  /** With fewer than fifty flows the gate is passed only if every flow moves. */
  lemma GateMeansProgress(v: seq<nat>)
    requires 0 < |v| < 50 && Jain(v) >= GATE
    ensures Moving(v) == |v| && forall i :: 0 <= i < |v| ==> v[i] > 0
  {
    SquaresAtMostSquare(v);
    if Moving(v) < |v| {
      JainBounds(v);
      ShareBelowGate(Moving(v), |v|);
    }
    AllMove(v);
  }

  lemma ShareBelowGate(k: nat, n: nat)
    requires k < n < 50
    ensures k as real / n as real < GATE
  {
    Ratio(98, 100, k, n);
    assert k * 100 < 98 * n;
  }

  lemma {:induction false} AllMove(v: seq<nat>)
    ensures Moving(v) == |v| ==> forall i :: 0 <= i < |v| ==> v[i] > 0
  {
    if v != [] {
      AllMove(v[1..]);
    }
  }

  /** `n` flows that each moved one byte. */
  function Ones(n: nat): (v: seq<nat>)
    ensures |v| == n && Total(v) == n && Squares(v) == n && Moving(v) == n
  {
    if n == 0 then []
    else
      assert ([1] + Ones(n - 1))[1..] == Ones(n - 1);
      [1] + Ones(n - 1)
  }

  /**
   From fifty flows on it is not: one flow may stand still. So fifty is exactly where the gate stops implying progress.
   */
  lemma GateAllowsAStall(n: nat) returns (v: seq<nat>)
    requires n >= 50
    ensures |v| == n && v[0] == 0 && Jain(v) >= GATE
  {
    v := [0] + Ones(n - 1);
    assert v[1..] == Ones(n - 1);
    var m := n - 1;
    assert Total(v) == m && Squares(v) == m;
    Positive(n, m);
    assert 98 * (n * m) <= m * m * 100 by {
      assert 98 * n <= 100 * m;
      MulLe(98 * n, 100 * m, m);
      assert 98 * n * m == 98 * (n * m) && 100 * m * m == m * m * 100;
    }
    Ratio(98, 100, m * m, n * m);
  }

  // -- rows --

  datatype Row = Row(name: string, flows: seq<nat>)

  /** Row `i` is the last of its name. */
  ghost predicate IsLast(rows: seq<Row>, i: nat, name: string) {
    i < |rows| && rows[i].name == name && forall j :: i < j < |rows| ==> rows[j].name != name
  }

  /** Every name of a row is in the dictionary, no other is, and each leads to the last row of that name. */
  ghost predicate IsDictionary(rows: seq<Row>, d: map<string, Row>) {
    && (forall i :: 0 <= i < |rows| ==> rows[i].name in d)
    && (forall name :: name in d ==> exists i: nat :: IsLast(rows, i, name) && d[name] == rows[i])
  }

  /** A report's rows as a dictionary by name: a later row of the same name replaces an earlier one. */
  method ByName(rows: seq<Row>) returns (result: map<string, Row>)
    ensures IsDictionary(rows, result)
  {
    result := map[];
    for i := 0 to |rows|
      invariant IsDictionary(rows[..i], result)
    {
      OneMoreRow(rows, i, result);
      result := result[rows[i].name := rows[i]];
    }
    assert rows[..|rows|] == rows;
  }

  lemma OneMoreRow(rows: seq<Row>, n: nat, d: map<string, Row>)
    requires n < |rows| && IsDictionary(rows[..n], d)
    ensures IsDictionary(rows[..n + 1], d[rows[n].name := rows[n]])
  {
    var d', longer := d[rows[n].name := rows[n]], rows[..n + 1];
    forall i | 0 <= i < |longer|
      ensures longer[i].name in d'
    {
      assert i < n ==> rows[..n][i] == longer[i];
    }
    forall name | name in d'
      ensures exists i: nat :: IsLast(longer, i, name) && d'[name] == longer[i]
    {
      if name == rows[n].name {
        assert IsLast(longer, n, name);
      } else {
        var i: nat :| IsLast(rows[..n], i, name) && d[name] == rows[..n][i];
        assert forall j: nat :: i < j < n ==> rows[..n][j] == longer[j];
        assert IsLast(longer, i, name);
      }
    }
  }

  function NameSet(rows: seq<Row>): set<string> {
    if rows == [] then {} else NameSet(rows[1..]) + {rows[0].name}
  }

  lemma {:induction false} NameSetHas(rows: seq<Row>, name: string)
    ensures name in NameSet(rows) <==> exists i :: 0 <= i < |rows| && rows[i].name == name
  {
    if rows != [] {
      NameSetHas(rows[1..], name);
      if name in NameSet(rows[1..]) {
        var i :| 0 <= i < |rows[1..]| && rows[1..][i].name == name;
        assert rows[i + 1].name == name;
      }
      assert forall i :: 0 < i < |rows| ==> rows[i] == rows[1..][i - 1];
    }
  }

  lemma DictionaryNames(rows: seq<Row>, d: map<string, Row>)
    requires IsDictionary(rows, d)
    ensures d.Keys == NameSet(rows)
  {
    forall name
      ensures name in d <==> name in NameSet(rows)
    {
      NameSetHas(rows, name);
      if name in d {
        var i: nat :| IsLast(rows, i, name) && d[name] == rows[i];
        assert rows[i].name == name;
      }
    }
  }

  lemma NewName(names: set<string>, name: string, n: nat)
    requires |names| <= n
    ensures |names + {name}| <= n + 1
    ensures |names + {name}| == n + 1 ==> |names| == n && name !in names
  {
    assert name in names ==> names + {name} == names;
  }

  /** There are never more names than rows, and as many only when no two rows share one. */
  lemma {:induction false} NamesCount(rows: seq<Row>)
    ensures |NameSet(rows)| <= |rows|
    ensures |NameSet(rows)| == |rows| ==> forall i, j :: 0 <= i < j < |rows| ==> rows[i].name != rows[j].name
  {
    if rows != [] {
      NamesCount(rows[1..]);
      NewName(NameSet(rows[1..]), rows[0].name, |rows| - 1);
      if |NameSet(rows)| == |rows| {
        HeadIsNew(rows);
      }
    }
  }

  lemma HeadIsNew(rows: seq<Row>)
    requires rows != [] && rows[0].name !in NameSet(rows[1..])
    requires forall i, j :: 0 <= i < j < |rows[1..]| ==> rows[1..][i].name != rows[1..][j].name
    ensures forall i, j :: 0 <= i < j < |rows| ==> rows[i].name != rows[j].name
  {
    NameSetHas(rows[1..], rows[0].name);
    forall i, j | 0 <= i < j < |rows|
      ensures rows[i].name != rows[j].name
    {
      assert rows[j] == rows[1..][j - 1];
      assert i > 0 ==> rows[i] == rows[1..][i - 1];
    }
  }

  /** The test a report's dictionary passes. */
  predicate Accepted(rows: seq<Row>, d: map<string, Row>, declared: set<string>) {
    |rows| == |declared| && d.Keys == declared
  }

  lemma OwnRow(rows: seq<Row>, d: map<string, Row>, i: nat)
    requires IsDictionary(rows, d) && i < |rows|
    requires forall i, j :: 0 <= i < j < |rows| ==> rows[i].name != rows[j].name
    ensures rows[i].name in d && d[rows[i].name] == rows[i]
  {
    var k: nat :| IsLast(rows, k, rows[i].name) && d[rows[i].name] == rows[k];
  }

  /** A report that passes it has exactly one row for each declared cell and no other, and the dictionary lost none. */
  lemma AcceptedMeansExactly(rows: seq<Row>, d: map<string, Row>, declared: set<string>)
    requires IsDictionary(rows, d) && Accepted(rows, d, declared)
    ensures forall name :: name in declared <==> exists i :: 0 <= i < |rows| && rows[i].name == name
    ensures forall i, j :: 0 <= i < j < |rows| ==> rows[i].name != rows[j].name
    ensures forall i :: 0 <= i < |rows| ==> rows[i].name in d && d[rows[i].name] == rows[i]
  {
    DictionaryNames(rows, d);
    NamesCount(rows);
    forall name
      ensures name in declared <==> exists i :: 0 <= i < |rows| && rows[i].name == name
    {
      NameSetHas(rows, name);
    }
    forall i | 0 <= i < |rows|
      ensures rows[i].name in d && d[rows[i].name] == rows[i]
    {
      OwnRow(rows, d, i);
    }
  }

  // -- the comparison --

  function Sum(v: seq<real>): real {
    if v == [] then 0.0 else v[0] + Sum(v[1..])
  }

  function Mean(v: seq<real>): real
    requires v != []
  {
    Sum(v) / |v| as real
  }

  function Least(v: seq<real>): (m: real)
    requires v != []
    ensures m in v && forall i :: 0 <= i < |v| ==> m <= v[i]
  {
    if |v| == 1 then v[0]
    else
      var rest := Least(v[1..]);
      assert forall i :: 0 < i < |v| ==> v[i] == v[1..][i - 1];
      if v[0] <= rest then v[0] else rest
  }

  /** The mixed cells' part of the gate: the mean index rises and the worst does not fall. */
  predicate Passes(baseline: seq<real>, candidate: seq<real>)
    requires |baseline| == |candidate| > 0
  {
    Mean(candidate) > Mean(baseline) && Least(candidate) >= Least(baseline)
  }

  /** The gate cell by cell: the indices add up to more, and none lies below every one of the baseline. */
  lemma PassesIff(baseline: seq<real>, candidate: seq<real>)
    requires |baseline| == |candidate| > 0
    ensures Passes(baseline, candidate) <==>
      && Sum(candidate) > Sum(baseline)
      && forall i :: 0 <= i < |candidate| ==> exists j :: 0 <= j < |baseline| && baseline[j] <= candidate[i]
  {
    MeanOrder(candidate, baseline);
    var low := Least(candidate);
    var k :| 0 <= k < |candidate| && candidate[k] == low;
    if Least(candidate) >= Least(baseline) {
      var j :| 0 <= j < |baseline| && baseline[j] == Least(baseline);
    }
  }

  datatype Outcome = Improved | Worse | Equal

  function OutcomeOf(before: real, after: real): Outcome {
    if after > before then Improved else if after < before then Worse else Equal
  }

  /** How many cells have an outcome. */
  function Count(baseline: seq<real>, candidate: seq<real>, outcome: Outcome): nat
    requires |baseline| == |candidate|
  {
    if baseline == [] then 0
    else
      Count(baseline[1..], candidate[1..], outcome)
      + if OutcomeOf(baseline[0], candidate[0]) == outcome then 1 else 0
  }

  lemma {:induction false} CountsAddUp(baseline: seq<real>, candidate: seq<real>)
    requires |baseline| == |candidate|
    ensures Count(baseline, candidate, Improved) + Count(baseline, candidate, Worse) + Count(baseline, candidate, Equal)
      == |baseline|
  {
    if baseline != [] {
      CountsAddUp(baseline[1..], candidate[1..]);
    }
  }

  /** What improves one way around worsens the other way around. */
  lemma {:induction false} CountsMirror(baseline: seq<real>, candidate: seq<real>)
    requires |baseline| == |candidate|
    ensures Count(baseline, candidate, Worse) == Count(candidate, baseline, Improved)
    ensures Count(baseline, candidate, Equal) == Count(candidate, baseline, Equal)
  {
    if baseline != [] {
      CountsMirror(baseline[1..], candidate[1..]);
    }
  }

  lemma {:induction false} NoneImproved(baseline: seq<real>, candidate: seq<real>)
    requires |baseline| == |candidate| && Count(baseline, candidate, Improved) == 0
    ensures Sum(candidate) <= Sum(baseline)
  {
    if baseline != [] {
      NoneImproved(baseline[1..], candidate[1..]);
    }
  }

  lemma {:induction false} Witness(baseline: seq<real>, candidate: seq<real>) returns (i: nat)
    requires |baseline| == |candidate| && Count(baseline, candidate, Improved) > 0
    ensures i < |baseline| && candidate[i] > baseline[i]
  {
    if OutcomeOf(baseline[0], candidate[0]) == Improved {
      i := 0;
    } else {
      var j := Witness(baseline[1..], candidate[1..]);
      i := j + 1;
    }
  }

  lemma DivMul(x: real, n: real)
    requires n > 0.0
    ensures x / n * n == x
  {
  }

  lemma MeanOrder(a: seq<real>, b: seq<real>)
    requires |a| == |b| > 0
    ensures Mean(a) > Mean(b) <==> Sum(a) > Sum(b)
  {
    DivOrder(Sum(a), Sum(b), |a| as real);
  }

  lemma DivOrder(x: real, y: real, n: real)
    requires n > 0.0
    ensures x / n > y / n <==> x > y
  {
    DivMul(x, n);
    DivMul(y, n);
    Scale(x / n, y / n, n);
  }

  /** A candidate that passes improves some mixed cell. */
  lemma PassingImproves(baseline: seq<real>, candidate: seq<real>) returns (i: nat)
    requires |baseline| == |candidate| > 0 && Passes(baseline, candidate)
    ensures i < |baseline| && candidate[i] > baseline[i]
  {
    MeanOrder(candidate, baseline);
    if Count(baseline, candidate, Improved) == 0 {
      NoneImproved(baseline, candidate);
    }
    i := Witness(baseline, candidate);
  }

  /** The gate is a strict order: never both ways, and two passes in a row are a pass. */
  lemma GateIsStrictOrder(a: seq<real>, b: seq<real>, c: seq<real>)
    requires |a| == |b| == |c| > 0
    ensures Passes(a, b) ==> !Passes(b, a)
    ensures Passes(a, b) && Passes(b, c) ==> Passes(a, c)
  {
  }
}
