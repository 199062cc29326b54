// Planning a sweep: the Cartesian product of the axes, later axes overriding earlier ones.
module Sweep {
  import opened Text

  type Params<V> = map<string, V>
  type Axis<V> = seq<Params<V>>

  // Every cell combined with every entry, entries varying fastest.
  function Expand<V>(cells: seq<Params<V>>, entries: Axis<V>): seq<Params<V>> {
    if cells == [] then [] else Row(cells[0], entries) + Expand(cells[1..], entries)
  }

  function Row<V>(base: Params<V>, entries: Axis<V>): (r: seq<Params<V>>)
    ensures |r| == |entries| && forall e :: 0 <= e < |r| ==> r[e] == base + entries[e]
  {
    seq(|entries|, e requires 0 <= e < |entries| => base + entries[e])
  }

  function Plan<V>(fixed: Params<V>, axes: seq<Axis<V>>): seq<Params<V>> {
    if axes == [] then [fixed]
    else
      var cells := Plan(fixed, axes[..|axes| - 1]);
      var entries := axes[|axes| - 1];
      if entries == [] then cells else Expand(cells, entries)
  }

  method PlanCells<V>(fixed: Params<V>, axes: seq<Axis<V>>) returns (cells: seq<Params<V>>)
    ensures cells == Plan(fixed, axes)
  {
    cells := [fixed];
    for a := 0 to |axes|
      invariant cells == Plan(fixed, axes[..a])
    {
      assert axes[..a + 1][..a] == axes[..a];
      var entries := axes[a];
      if entries == [] {
        continue;
      }
      var next := [];
      for b := 0 to |cells|
        invariant next + Expand(cells[b..], entries) == Expand(cells, entries)
      {
        var base := cells[b];
        var row := [];
        for e := 0 to |entries|
          invariant row == Row(base, entries)[..e]
        {
          row := row + [base + entries[e]];
        }
        assert cells[b..][0] == base && cells[b..][1..] == cells[b + 1..];
        assert row == Row(base, entries);
        AppendAssociative(next, row, Expand(cells[b + 1..], entries));
        next := next + row;
      }
      assert cells[|cells|..] == [];
      cells := next;
    }
    assert axes[..|axes|] == axes;
  }

  // ---------- which cell is where ----------

  // The number of combinations; an axis without entries offers no choice.
  function Choices<V>(axes: seq<Axis<V>>): (n: nat)
    ensures n > 0
  {
    if axes == [] then 1
    else
      var before, k := Choices(axes[..|axes| - 1]), |axes[|axes| - 1]|;
      if k == 0 then before else Times(before, k)
  }

  function Times(a: nat, b: nat): (n: nat)
    ensures a > 0 && b > 0 ==> n > 0
  {
    if a > 0 && b > 0 then Positive(a, b); a * b else 0
  }

  lemma Positive(a: nat, b: nat)
    requires a > 0 && b > 0
    ensures a * b > 0
  {
  }

  // The entry of each axis in cell `i`: the digits of `i`, the last axis least significant.
  function Digits<V>(axes: seq<Axis<V>>, i: nat): seq<nat> {
    if axes == [] then []
    else
      var most, k := axes[..|axes| - 1], |axes[|axes| - 1]|;
      if k == 0 then Digits(most, i) + [0] else Digits(most, Quotient(i, k)) + [Remainder(i, k)]
  }

  function Quotient(i: nat, k: nat): nat
    requires k > 0
  {
    i / k
  }

  function Remainder(i: nat, k: nat): (r: nat)
    requires k > 0
    ensures r < k
  {
    i % k
  }

  ghost predicate IsChoice<V>(axes: seq<Axis<V>>, pick: seq<nat>) {
    |pick| == |axes| && forall a :: 0 <= a < |axes| ==> pick[a] < |axes[a]| || (axes[a] == [] && pick[a] == 0)
  }

  // The fixed parameters overridden by the picked entry of each axis in turn.
  function Merged<V>(fixed: Params<V>, axes: seq<Axis<V>>, pick: seq<nat>): Params<V>
    requires IsChoice(axes, pick)
  {
    if axes == [] then fixed
    else
      var n := |axes| - 1;
      var most := Merged(fixed, axes[..n], pick[..n]);
      if axes[n] == [] then most else most + axes[n][pick[n]]
  }

  lemma {:induction false} ExpandAt<V>(cells: seq<Params<V>>, entries: Axis<V>, i: nat, e: nat)
    requires i < |cells| && e < |entries|
    ensures |Expand(cells, entries)| == Times(|cells|, |entries|)
    ensures Times(i, |entries|) + e < |Expand(cells, entries)|
    ensures Expand(cells, entries)[Times(i, |entries|) + e] == cells[i] + entries[e]
  {
    var k, rest := |entries|, cells[1..];
    var row, tail := Row(cells[0], entries), Expand(rest, entries);
    TimesStep(|cells| - 1, k);
    if i > 0 {
      ExpandAt(rest, entries, i - 1, e);
      TimesStep(i - 1, k);
    } else if rest != [] {
      ExpandAt(rest, entries, 0, e);
    }
    hide Times, Expand;
    TimesZero(k);
    assert (row + tail)[Times(i, k) + e] == if i == 0 then row[e] else tail[Times(i - 1, k) + e];
  }

  lemma TimesZero(k: nat)
    ensures Times(0, k) == 0
  {
  }

  lemma TimesStep(i: nat, k: nat)
    ensures Times(i + 1, k) == Times(i, k) + k
  {
  }

  lemma {:induction false} TimesGrows(a: nat, b: nat, k: nat)
    requires a <= b
    ensures Times(a, k) <= Times(b, k)
  {
    if a < b {
      TimesGrows(a, b - 1, k);
      TimesStep(b - 1, k);
    }
  }

  lemma DivMod(i: nat, k: nat, n: nat)
    requires k > 0 && i < Times(n, k)
    ensures i == Times(Quotient(i, k), k) + Remainder(i, k) && Quotient(i, k) < n
  {
    assert i == (i / k) * k + i % k;
    assert Times(i / k, k) == (i / k) * k;
    if i / k >= n {
      TimesGrows(n, i / k, k);
    }
  }

  // Cell `i` of the plan is the merge picked by the digits of `i`, and there are as many
  // cells as combinations.
  lemma {:induction false} CellAt<V>(fixed: Params<V>, axes: seq<Axis<V>>, i: nat)
    requires i < Choices(axes)
    ensures |Plan(fixed, axes)| == Choices(axes)
    ensures IsChoice(axes, Digits(axes, i))
    ensures Plan(fixed, axes)[i] == Merged(fixed, axes, Digits(axes, i))
    decreases |axes|
  {
    hide Times, Expand, Quotient, Remainder;
    if axes != [] {
      var n := |axes| - 1;
      var k := |axes[n]|;
      if k == 0 {
        CellAt(fixed, axes[..n], i);
        SnocChoice(fixed, axes, Digits(axes[..n], i), 0);
      } else {
        DivMod(i, k, Choices(axes[..n]));
        CellAt(fixed, axes[..n], Quotient(i, k));
        ExpandAt(Plan(fixed, axes[..n]), axes[n], Quotient(i, k), Remainder(i, k));
        SnocChoice(fixed, axes, Digits(axes[..n], Quotient(i, k)), Remainder(i, k));
      }
    }
  }

  lemma SnocChoice<V>(fixed: Params<V>, axes: seq<Axis<V>>, pick: seq<nat>, d: nat)
    requires axes != [] && var n := |axes| - 1; IsChoice(axes[..n], pick) && (d < |axes[n]| || (axes[n] == [] && d == 0))
    ensures IsChoice(axes, pick + [d])
    ensures var n := |axes| - 1;
            var most := Merged(fixed, axes[..n], pick);
            Merged(fixed, axes, pick + [d]) == if axes[n] == [] then most else most + axes[n][d]
  {
    assert (pick + [d])[..|axes| - 1] == pick;
    forall a | 0 <= a < |axes| - 1 ensures pick[a] < |axes[a]| || (axes[a] == [] && pick[a] == 0) {
      assert axes[..|axes| - 1][a] == axes[a];
    }
  }

  // The cell a choice of entries lands in.
  function IndexOf<V>(axes: seq<Axis<V>>, pick: seq<nat>): nat
    requires IsChoice(axes, pick)
  {
    if axes == [] then 0
    else
      var n := |axes| - 1;
      var before := IndexOf(axes[..n], pick[..n]);
      if axes[n] == [] then before else Times(before, |axes[n]|) + pick[n]
  }

  // Every choice of entries is the digits of exactly one cell.
  lemma {:induction false} EveryChoiceOnce<V>(axes: seq<Axis<V>>, pick: seq<nat>)
    requires IsChoice(axes, pick)
    ensures IndexOf(axes, pick) < Choices(axes) && Digits(axes, IndexOf(axes, pick)) == pick
    decreases |axes|
  {
    if axes != [] {
      var n := |axes| - 1;
      var before, k := IndexOf(axes[..n], pick[..n]), |axes[n]|;
      EveryChoiceOnce(axes[..n], pick[..n]);
      assert pick == pick[..n] + [pick[n]];
      if k > 0 {
        DivModOf(before, pick[n], k);
        TimesGrows(before + 1, Choices(axes[..n]), k);
        TimesStep(before, k);
      }
      hide Times, Quotient, Remainder;
    }
  }

  lemma DivModOf(q: nat, r: nat, k: nat)
    requires r < k
    ensures var i := Times(q, k) + r; Quotient(i, k) == q && Remainder(i, k) == r
  {
    var i := Times(q, k) + r;
    TimesStep(q, k);
    DivMod(i, k, q + 1);
    var p := Quotient(i, k);
    hide Times, Quotient, Remainder;
    if p < q {
      TimesStep(p, k);
      TimesGrows(p + 1, q, k);
    }
  }

  // Different cells come from different choices.
  lemma {:induction false} DigitsInjective<V>(axes: seq<Axis<V>>, i: nat, j: nat)
    requires i < Choices(axes) && j < Choices(axes) && Digits(axes, i) == Digits(axes, j)
    ensures i == j
    decreases |axes|
  {
    if axes != [] {
      var n := |axes| - 1;
      var k := |axes[n]|;
      var (p, q) := if k == 0 then (i, j) else (Quotient(i, k), Quotient(j, k));
      if k > 0 {
        DivMod(i, k, Choices(axes[..n]));
        DivMod(j, k, Choices(axes[..n]));
      }
      DigitsLength(axes[..n], p);
      DigitsLength(axes[..n], q);
      assert Digits(axes, i)[..n] == Digits(axes[..n], p) && Digits(axes, j)[..n] == Digits(axes[..n], q);
      assert k > 0 ==> Digits(axes, i)[n] == Remainder(i, k) && Digits(axes, j)[n] == Remainder(j, k);
      DigitsInjective(axes[..n], p, q);
    }
  }

  lemma {:induction false} DigitsLength<V>(axes: seq<Axis<V>>, i: nat)
    ensures |Digits(axes, i)| == |axes|
    decreases |axes|
  {
    if axes != [] {
      var k := |axes[|axes| - 1]|;
      DigitsLength(axes[..|axes| - 1], if k == 0 then i else Quotient(i, k));
    }
  }

  // ---------- override order ----------

  ghost predicate Sets<V>(axes: seq<Axis<V>>, pick: seq<nat>, a: int, key: string)
    requires IsChoice(axes, pick) && 0 <= a < |axes|
  {
    axes[a] != [] && key in axes[a][pick[a]]
  }

  // A parameter has the value of the last axis that sets it, or its fixed value when none
  // does.
  lemma {:induction false} LastAxisWins<V>(fixed: Params<V>, axes: seq<Axis<V>>, pick: seq<nat>, key: string, a: nat)
    requires IsChoice(axes, pick) && a <= |axes|
    requires forall b :: a <= b < |axes| ==> !Sets(axes, pick, b, key)
    requires a > 0 ==> Sets(axes, pick, a - 1, key)
    ensures var cell := Merged(fixed, axes, pick);
            if a > 0 then key in cell && cell[key] == axes[a - 1][pick[a - 1]][key]
            else (key in cell <==> key in fixed) && (key in fixed ==> cell[key] == fixed[key])
    decreases |axes|
  {
    if a < |axes| {
      var n := |axes| - 1;
      forall b | a <= b < n ensures !Sets(axes[..n], pick[..n], b, key) {
        assert !Sets(axes, pick, b, key);
      }
      assert !Sets(axes, pick, n, key);
      if a > 0 { assert Sets(axes[..n], pick[..n], a - 1, key); }
      LastAxisWins(fixed, axes[..n], pick[..n], key, a);
    }
  }
}
