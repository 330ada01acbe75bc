/** The end of `main` (main.py:109-124): check the solver's status, then list
    the projects whose variable is 1 with their return, cost and label. */
module Reporting {
  import opened Linear
  import opened Projects
  import opened Model
  import opened Formulation
  import opened Solver

  /** What `main` prints: the total expected return and the selected rows, or
      that no optimal solution was found. */
  datatype Report = Solved(total: int, selected: seq<Row>) | NoOptimalSolution

  /** The loop at main.py:119-122: the rows of the projects whose variable is 1,
      in list order. */
  method SelectedRows(cat: Catalog, x: Assignment) returns (rows: seq<Row>)
    requires WellFormed(cat) && forall p | p in cat.projects :: p in x
    ensures rows == Chosen(cat, x)
    ensures forall r | r in rows :: r.description in cat.projects && x[r.description] == 1
    ensures forall p | p in cat.projects && x[p] == 1 :: Entry(cat, p) in rows
  {
    var ps := cat.projects;
    rows := [];
    for i := 0 to |ps|
      invariant rows == Entries(cat, Selected(ps[..i], x))
    {
      var p := ps[i];
      if x[p] == 1 {
        rows := rows + [Entry(cat, p)];
      }
      PrefixStep(cat, x, i);
    }
    assert ps[..|ps|] == ps;
    ChosenRows(cat, x);
  }

  lemma PrefixStep(cat: Catalog, x: Assignment, i: int)
    requires WellFormed(cat) && forall p | p in cat.projects :: p in x
    requires 0 <= i < |cat.projects|
    ensures Entries(cat, Selected(cat.projects[..i + 1], x))
         == Entries(cat, Selected(cat.projects[..i], x))
            + (if x[cat.projects[i]] == 1 then [Entry(cat, cat.projects[i])] else [])
  {
    var ps := cat.projects;
    assert ps[..i + 1] == ps[..i] + [ps[i]];
    ChosenAppend(cat, ps[..i], ps[i], x);
  }

  /** The selection holds exactly the rows of the projects whose variable is 1. */
  lemma ChosenRows(cat: Catalog, x: Assignment)
    requires WellFormed(cat) && forall p | p in cat.projects :: p in x
    ensures forall r | r in Chosen(cat, x) :: r.description in cat.projects && x[r.description] == 1
    ensures forall p | p in cat.projects && x[p] == 1 :: Entry(cat, p) in Chosen(cat, x)
  {
    var s := Selected(cat.projects, x);
    var rows := Chosen(cat, x);
    forall r | r in rows ensures r.description in cat.projects && x[r.description] == 1 {
      var i :| 0 <= i < |rows| && rows[i] == r;
      assert s[i] in s;
    }
    forall p | p in cat.projects && x[p] == 1 ensures Entry(cat, p) in rows {
      var i :| 0 <= i < |s| && s[i] == p;
      assert rows[i] == Entry(cat, p);
    }
  }

  /** main.py:109-124: only status 1 leads to the listing. */
  method ReportResult(cat: Catalog, a: Answer) returns (r: Report)
    requires WellFormed(cat)
    requires a.status == Optimal ==> forall p | p in cat.projects :: p in a.values
    ensures a.status != Optimal <==> r == NoOptimalSolution
    ensures a.status == Optimal ==>
      r == Solved(Eval(ObjectiveTerms(cat), a.values), Chosen(cat, a.values))
  {
    if a.status == Optimal {
      var rows := SelectedRows(cat, a.values);
      r := Solved(Eval(ObjectiveTerms(cat), a.values), rows);
    } else {
      r := NoOptimalSolution;
    }
  }

  /** An optimal answer lists a selection that keeps every rule, whose total is
      its summed return, and that no other feasible selection out-earns. */
  lemma OptimalReport(cat: Catalog, lim: Limits, a: Answer)
    requires WellFormed(cat)
    requires MeetsContract(ProgramOf(cat, lim), a) && a.status == Optimal
    ensures forall p | p in cat.projects :: p in a.values
    ensures MeetsLimits(Chosen(cat, a.values), lim)
    ensures Eval(ObjectiveTerms(cat), a.values) == Measure(Chosen(cat, a.values), Return)
    ensures forall y | Feasible(ProgramOf(cat, lim), y) ::
      Measure(Chosen(cat, y), Return) <= Measure(Chosen(cat, a.values), Return)
  {
    var p := ProgramOf(cat, lim);
    FeasibleIff(cat, lim, a.values);
    assert ZeroOne(cat.projects, a.values);
    forall y | Feasible(p, y)
      ensures Measure(Chosen(cat, y), Return) <= Measure(Chosen(cat, a.values), Return)
    {
      assert ZeroOne(cat.projects, y);
      assert Value(p, y) <= Value(p, a.values);
    }
  }

  /** `main`: read the rows, build and solve the problem, report. */
  method RunModel(rows: seq<Row>, lim: Limits) returns (r: Report)
    ensures r.NoOptimalSolution? <==> forall y :: !Feasible(ProgramOf(CatalogOf(rows), lim), y)
    ensures r.Solved? ==>
      exists x :: Feasible(ProgramOf(CatalogOf(rows), lim), x) && r.selected == Chosen(CatalogOf(rows), x)
    ensures r.Solved? ==> MeetsLimits(r.selected, lim) && r.total == Measure(r.selected, Return)
    ensures r.Solved? ==> forall y | Feasible(ProgramOf(CatalogOf(rows), lim), y) ::
      Measure(Chosen(CatalogOf(rows), y), Return) <= r.total
  {
    var cat := BuildCatalog(rows);
    var prob := BuildProblem(cat, lim);
    var a := Solve(prob.AsProgram());
    r := ReportResult(cat, a);
    if a.status == Optimal {
      OptimalReport(cat, lim, a);
      assert Feasible(ProgramOf(cat, lim), a.values);
    }
  }
}
