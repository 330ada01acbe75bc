/** The solving step (`prob.solve()`, main.py:109): a status code and a value
    for every variable. The model solves by exhaustive search over 0/1 values,
    which is exact but exponential; it stands for the external solver. */
module Solver {
  import opened Linear

  /** `LpStatus` codes the model can report: 1 "Optimal" and -1 "Infeasible". */
  const Optimal := 1
  const Infeasible := -1

  datatype Answer = Answer(status: int, values: Assignment)

  /** What any solver promises: reporting "Optimal" means an optimal assignment. */
  ghost predicate MeetsContract(p: Program, a: Answer)
    requires Declares(p)
  {
    a.status == Optimal ==> IsOptimal(p, a.values)
  }

  datatype Option<T> = None | Some(value: T)

  /** No element of `s` occurs twice. */
  predicate NoRepeats<T(==)>(s: seq<T>) {
    forall i, j | 0 <= i < j < |s| :: s[i] != s[j]
  }

  /** The variables, each once. */
  function Distinct(vs: seq<Var>): (ks: seq<Var>)
    ensures NoRepeats(ks)
    ensures forall v :: v in ks <==> v in vs
  {
    if vs == [] then []
    else
      var rest := Distinct(vs[1..]);
      if vs[0] in rest then rest else [vs[0]] + rest
  }

  /** `y` keeps the values in `fixed` and gives each of `ks` the value 0 or 1. */
  predicate Extends(y: Assignment, fixed: Assignment, ks: seq<Var>) {
    && y.Keys == fixed.Keys + (set k | k in ks)
    && (forall v | v in fixed :: y[v] == fixed[v])
    && (forall k | k in ks :: y[k] == 0 || y[k] == 1)
  }

  lemma ExtendsUp(y: Assignment, fixed: Assignment, ks: seq<Var>, b: int)
    requires ks != [] && ks[0] !in fixed && (b == 0 || b == 1)
    requires Extends(y, fixed[ks[0] := b], ks[1..])
    ensures Extends(y, fixed, ks)
  {
    assert (set k | k in ks) == {ks[0]} + (set k | k in ks[1..]);
  }

  lemma ExtendsDown(y: Assignment, fixed: Assignment, ks: seq<Var>)
    requires ks != [] && Extends(y, fixed, ks)
    ensures Extends(y, fixed[ks[0] := y[ks[0]]], ks[1..])
  {
    assert (set k | k in ks) == {ks[0]} + (set k | k in ks[1..]);
  }

  lemma ExtendsUpFound(r: Option<Assignment>, fixed: Assignment, ks: seq<Var>, b: int)
    requires ks != [] && ks[0] !in fixed && (b == 0 || b == 1)
    requires r.Some? ==> Extends(r.value, fixed[ks[0] := b], ks[1..])
    ensures r.Some? ==> Extends(r.value, fixed, ks)
  {
    if r.Some? { ExtendsUp(r.value, fixed, ks, b); }
  }

  /** The best feasible extension of `fixed` over `ks`, if there is one. */
  function Search(p: Program, ks: seq<Var>, fixed: Assignment): (r: Option<Assignment>)
    requires Declares(p) && NoRepeats(ks)
    requires forall k | k in ks :: k !in fixed
    ensures r.Some? ==> Feasible(p, r.value) && Extends(r.value, fixed, ks)
    decreases |ks|
  {
    if ks == [] then
      if Feasible(p, fixed) then Some(fixed) else None
    else
      var k := ks[0];
      var a := Search(p, ks[1..], fixed[k := 0]);
      var b := Search(p, ks[1..], fixed[k := 1]);
      ExtendsUpFound(a, fixed, ks, 0);
      ExtendsUpFound(b, fixed, ks, 1);
      if b.None? then a
      else if a.None? then b
      else if Value(p, b.value) > Value(p, a.value) then b
      else a
  }

  /** Every feasible extension is found, and none beats what is returned. */
  lemma {:induction false} SearchFindsBest(p: Program, ks: seq<Var>, fixed: Assignment, y: Assignment)
    requires Declares(p) && NoRepeats(ks)
    requires forall k | k in ks :: k !in fixed
    requires Extends(y, fixed, ks) && Feasible(p, y)
    ensures Search(p, ks, fixed).Some?
    ensures Value(p, y) <= Value(p, Search(p, ks, fixed).value)
    decreases |ks|
  {
    if ks == [] {
      assert y == fixed;
    } else {
      ExtendsDown(y, fixed, ks);
      SearchFindsBest(p, ks[1..], fixed[ks[0] := y[ks[0]]], y);
    }
  }

  /** `prob.solve()`: "Optimal" with a best assignment, or "Infeasible" when no
      0/1 assignment meets every constraint. */
  function Solve(p: Program): (a: Answer)
    requires Declares(p)
    ensures a.status == Optimal || a.status == Infeasible
    ensures MeetsContract(p, a)
    ensures a.status == Infeasible <==> forall y :: !Feasible(p, y)
  {
    var ks := Distinct(p.variables);
    var r := Search(p, ks, map[]);
    assert forall y | Feasible(p, y) :: r.Some? && Value(p, y) <= Value(p, r.value) by {
      forall y | Feasible(p, y) ensures r.Some? && Value(p, y) <= Value(p, r.value) {
        assert (set k | k in ks) == (set v | v in p.variables);
        SearchFindsBest(p, ks, map[], y);
      }
    }
    match r
    case Some(x) =>
      assert (set k | k in ks) == (set v | v in p.variables);
      Answer(Optimal, x)
    case None => Answer(Infeasible, map[])
  }
}
