/** The investment-selection model of main.py: the objective and the seven
    `constraint_*` rules, each built as an `lpSum` over the project list and
    each proved to mean a condition on the rows of the selected projects. */
module Model {
  import opened Linear
  import opened Projects

  /** The risk labels the constraints compare against, exactly as written. */
  const High: string := "Alto"
  const Medium: string := "Médio"
  const Low: string := "Baixo"

  /** The thresholds of the seven constraints. */
  datatype Limits = Limits(
    totalBudget: int,
    minHigh: int, minMedium: int, minLow: int,
    maxLow: int, maxMedium: int, maxHigh: int)

  /** The literals of main.py:7-37; note the 'Médio' cap of 150000. */
  const SourceLimits := Limits(2400000, 1, 2, 2, 1200000, 150000, 900000)

  /** The same thresholds with the 'Médio' cap of 1500000 that test.py:51 expects. */
  const IntendedLimits := Limits(2400000, 1, 2, 2, 1200000, 1500000, 900000)

  /** Which per-project amount multiplies a decision variable. */
  datatype Field = Return | Cost | Count

  /** Which projects a generator expression keeps. */
  datatype Keep = Every | Only(level: string)

  predicate AllKnown(cat: Catalog, ps: seq<string>) {
    forall p | p in ps :: Known(cat, p)
  }

  /** Every project of `ps` has a variable in `x`, valued 0 or 1. */
  predicate ZeroOne(ps: seq<string>, x: Assignment) {
    forall p | p in ps :: p in x && (x[p] == 0 || x[p] == 1)
  }

  function Coef(cat: Catalog, f: Field, p: string): int
    requires Known(cat, p)
  {
    match f
    case Return => cat.returnInfo[p]
    case Cost => cat.costInfo[p]
    case Count => 1
  }

  predicate Keeps(cat: Catalog, k: Keep, p: string)
    requires Known(cat, p)
  {
    k.Every? || cat.riskInfo[p] == k.level
  }

  /** `lpSum(coef[p] * x[p] for p in ps if keep(p))`: one term per kept
      position of `ps`, with that project's coefficient. */
  function Terms(cat: Catalog, ps: seq<string>, f: Field, k: Keep): (ts: seq<Term>)
    requires AllKnown(cat, ps)
    ensures forall t | t in ts :: t.v in ps && Keeps(cat, k, t.v) && t.coef == Coef(cat, f, t.v)
  {
    if ps == [] then []
    else
      var rest := Terms(cat, ps[1..], f, k);
      if Keeps(cat, k, ps[0]) then [Term(Coef(cat, f, ps[0]), ps[0])] + rest else rest
  }

  // ----- The selection side: what the assignment picks, as rows -----

  /** The projects whose variable equals 1, in list order. */
  function Selected(ps: seq<string>, x: Assignment): (s: seq<string>)
    requires forall p | p in ps :: p in x
    ensures forall p :: p in s <==> p in ps && x[p] == 1
  {
    if ps == [] then []
    else
      var rest := Selected(ps[1..], x);
      if x[ps[0]] == 1 then [ps[0]] + rest else rest
  }

  /** The row that the three dictionaries give for a description. */
  function Entry(cat: Catalog, p: string): Row
    requires Known(cat, p)
  {
    Row(p, cat.returnInfo[p], cat.costInfo[p], cat.riskInfo[p])
  }

  function Entries(cat: Catalog, ps: seq<string>): (rows: seq<Row>)
    requires AllKnown(cat, ps)
    ensures |rows| == |ps| && forall i | 0 <= i < |ps| :: rows[i] == Entry(cat, ps[i])
  {
    if ps == [] then [] else [Entry(cat, ps[0])] + Entries(cat, ps[1..])
  }

  /** The rows whose risk label is exactly `level`. */
  function WithRisk(rows: seq<Row>, level: string): (r: seq<Row>)
    ensures forall row :: row in r <==> row in rows && row.risk == level
  {
    if rows == [] then []
    else
      var rest := WithRisk(rows[1..], level);
      if rows[0].risk == level then [rows[0]] + rest else rest
  }

  function Kept(rows: seq<Row>, k: Keep): seq<Row> {
    match k
    case Every => rows
    case Only(l) => WithRisk(rows, l)
  }

  /** The total return, the total cost, or the number of the rows. */
  function Measure(rows: seq<Row>, f: Field): (m: int)
    ensures f == Count ==> m == |rows|
  {
    if rows == [] then 0
    else
      var head := match f
        case Return => rows[0].expectedReturn
        case Cost => rows[0].expectedCost
        case Count => 1;
      head + Measure(rows[1..], f)
  }

  /** The rows of the selected projects, in catalog order (the rows main.py
      prints for a solved problem). */
  function Chosen(cat: Catalog, x: Assignment): seq<Row>
    requires WellFormed(cat) && forall p | p in cat.projects :: p in x
  {
    Entries(cat, Selected(cat.projects, x))
  }

  /** Appending a project to the list appends its row to the selection
      exactly when its variable is 1. */
  lemma {:induction false} ChosenAppend(cat: Catalog, ps: seq<string>, p: string, x: Assignment)
    requires AllKnown(cat, ps) && Known(cat, p) && p in x && forall q | q in ps :: q in x
    ensures Entries(cat, Selected(ps + [p], x))
         == Entries(cat, Selected(ps, x)) + (if x[p] == 1 then [Entry(cat, p)] else [])
  {
    if ps == [] {
      assert ps + [p] == [p];
      assert [p][1..] == [];
      if x[p] == 1 {
        assert Selected([p], x) == [p];
        assert Entries(cat, [p]) == [Entry(cat, p)];
      }
    } else {
      var q, rest := ps[0], ps[1..];
      assert (ps + [p])[0] == q && (ps + [p])[1..] == rest + [p];
      ChosenAppend(cat, rest, p, x);
      var s, s' := Selected(rest, x), Selected(rest + [p], x);
      if x[q] == 1 {
        assert ([q] + s)[1..] == s;
        assert ([q] + s')[1..] == s';
        assert Entries(cat, [q] + s) == [Entry(cat, q)] + Entries(cat, s);
        assert Entries(cat, [q] + s') == [Entry(cat, q)] + Entries(cat, s');
      }
    }
  }

  /** The seven rules, stated on the selected rows. */
  predicate MeetsLimits(rows: seq<Row>, lim: Limits) {
    && Measure(rows, Cost) <= lim.totalBudget
    && |WithRisk(rows, High)| >= lim.minHigh
    && |WithRisk(rows, Medium)| >= lim.minMedium
    && |WithRisk(rows, Low)| >= lim.minLow
    && Measure(WithRisk(rows, Low), Cost) <= lim.maxLow
    && Measure(WithRisk(rows, Medium), Cost) <= lim.maxMedium
    && Measure(WithRisk(rows, High), Cost) <= lim.maxHigh
  }

  /** One step of `Terms` under `Eval`: the head project adds its coefficient
      times its variable when it is kept. */
  lemma EvalTermsStep(cat: Catalog, ps: seq<string>, f: Field, k: Keep, x: Assignment)
    requires ps != [] && AllKnown(cat, ps) && forall q | q in ps :: q in x
    ensures Eval(Terms(cat, ps, f, k), x)
         == (if Keeps(cat, k, ps[0]) then Coef(cat, f, ps[0]) * x[ps[0]] else 0) + Eval(Terms(cat, ps[1..], f, k), x)
  {
    var ts := Terms(cat, ps[1..], f, k);
    if Keeps(cat, k, ps[0]) {
      assert ([Term(Coef(cat, f, ps[0]), ps[0])] + ts)[1..] == ts;
    }
  }

  /** One step of the selection side: the head project adds its amount when it
      is both selected and kept. */
  lemma MeasureStep(cat: Catalog, ps: seq<string>, f: Field, k: Keep, x: Assignment)
    requires ps != [] && AllKnown(cat, ps) && forall q | q in ps :: q in x
    ensures Measure(Kept(Entries(cat, Selected(ps, x)), k), f)
         == (if x[ps[0]] == 1 && Keeps(cat, k, ps[0]) then Coef(cat, f, ps[0]) else 0)
            + Measure(Kept(Entries(cat, Selected(ps[1..], x)), k), f)
  {
    var p := ps[0];
    var sel := Selected(ps[1..], x);
    if x[p] == 1 {
      assert ([p] + sel)[1..] == sel;
      var es := Entries(cat, sel);
      assert Entries(cat, [p] + sel) == [Entry(cat, p)] + es;
      assert ([Entry(cat, p)] + es)[1..] == es;
      if k.Only? && Entry(cat, p).risk == k.level {
        var w := WithRisk(es, k.level);
        assert ([Entry(cat, p)] + w)[1..] == w;
      }
    }
  }

  /** A linear sum over a 0/1 assignment adds up exactly the kept selected
      projects; projects whose variable is 0 contribute nothing. */
  lemma {:induction false} EvalIsMeasure(cat: Catalog, ps: seq<string>, f: Field, k: Keep, x: Assignment)
    requires AllKnown(cat, ps) && ZeroOne(ps, x)
    ensures Eval(Terms(cat, ps, f, k), x) == Measure(Kept(Entries(cat, Selected(ps, x)), k), f)
  {
    if ps != [] {
      EvalIsMeasure(cat, ps[1..], f, k, x);
      EvalTermsStep(cat, ps, f, k, x);
      MeasureStep(cat, ps, f, k, x);
      HeadAgrees(Coef(cat, f, ps[0]), x[ps[0]], Keeps(cat, k, ps[0]));
    }
  }

  /** Multiplying by a 0/1 variable keeps or drops the coefficient. */
  lemma HeadAgrees(c: int, b: int, kept: bool)
    requires b == 0 || b == 1
    ensures (if kept then c * b else 0) == (if b == 1 && kept then c else 0)
  {}

  lemma EvalIsMeasureAll(cat: Catalog, f: Field, k: Keep)
    requires WellFormed(cat)
    ensures forall x | ZeroOne(cat.projects, x) ::
      Eval(Terms(cat, cat.projects, f, k), x) == Measure(Kept(Chosen(cat, x), k), f)
  {
    forall x | ZeroOne(cat.projects, x)
      ensures Eval(Terms(cat, cat.projects, f, k), x) == Measure(Kept(Chosen(cat, x), k), f)
    {
      EvalIsMeasure(cat, cat.projects, f, k, x);
    }
  }

  // ----- The objective and the seven constraints -----

  /** main.py:77-78: the sum of expected returns of the selected projects. */
  function ObjectiveTerms(cat: Catalog): (ts: seq<Term>)
    requires WellFormed(cat)
    ensures forall t | t in ts :: t.v in cat.projects
    ensures forall x | ZeroOne(cat.projects, x) :: Eval(ts, x) == Measure(Chosen(cat, x), Return)
  {
    EvalIsMeasureAll(cat, Return, Every);
    Terms(cat, cat.projects, Return, Every)
  }

  /** main.py:5-7 */
  function TotalBudget(cat: Catalog, lim: Limits): (c: Constraint)
    requires WellFormed(cat)
    ensures forall t | t in c.terms :: t.v in cat.projects
    ensures forall x | ZeroOne(cat.projects, x) ::
      Holds(c, x) <==> Measure(Chosen(cat, x), Cost) <= lim.totalBudget
  {
    EvalIsMeasureAll(cat, Cost, Every);
    Constraint(Terms(cat, cat.projects, Cost, Every), AtMost, lim.totalBudget)
  }

  /** main.py:10-12 */
  function MinHighCount(cat: Catalog, lim: Limits): (c: Constraint)
    requires WellFormed(cat)
    ensures forall t | t in c.terms :: t.v in cat.projects
    ensures forall x | ZeroOne(cat.projects, x) ::
      Holds(c, x) <==> |WithRisk(Chosen(cat, x), High)| >= lim.minHigh
  {
    EvalIsMeasureAll(cat, Count, Only(High));
    Constraint(Terms(cat, cat.projects, Count, Only(High)), AtLeast, lim.minHigh)
  }

  /** main.py:15-17 */
  function MinMediumCount(cat: Catalog, lim: Limits): (c: Constraint)
    requires WellFormed(cat)
    ensures forall t | t in c.terms :: t.v in cat.projects
    ensures forall x | ZeroOne(cat.projects, x) ::
      Holds(c, x) <==> |WithRisk(Chosen(cat, x), Medium)| >= lim.minMedium
  {
    EvalIsMeasureAll(cat, Count, Only(Medium));
    Constraint(Terms(cat, cat.projects, Count, Only(Medium)), AtLeast, lim.minMedium)
  }

  /** main.py:20-22 */
  function MinLowCount(cat: Catalog, lim: Limits): (c: Constraint)
    requires WellFormed(cat)
    ensures forall t | t in c.terms :: t.v in cat.projects
    ensures forall x | ZeroOne(cat.projects, x) ::
      Holds(c, x) <==> |WithRisk(Chosen(cat, x), Low)| >= lim.minLow
  {
    EvalIsMeasureAll(cat, Count, Only(Low));
    Constraint(Terms(cat, cat.projects, Count, Only(Low)), AtLeast, lim.minLow)
  }

  /** main.py:25-27 */
  function MaxLowCost(cat: Catalog, lim: Limits): (c: Constraint)
    requires WellFormed(cat)
    ensures forall t | t in c.terms :: t.v in cat.projects
    ensures forall x | ZeroOne(cat.projects, x) ::
      Holds(c, x) <==> Measure(WithRisk(Chosen(cat, x), Low), Cost) <= lim.maxLow
  {
    EvalIsMeasureAll(cat, Cost, Only(Low));
    Constraint(Terms(cat, cat.projects, Cost, Only(Low)), AtMost, lim.maxLow)
  }

  /** main.py:30-32 */
  function MaxMediumCost(cat: Catalog, lim: Limits): (c: Constraint)
    requires WellFormed(cat)
    ensures forall t | t in c.terms :: t.v in cat.projects
    ensures forall x | ZeroOne(cat.projects, x) ::
      Holds(c, x) <==> Measure(WithRisk(Chosen(cat, x), Medium), Cost) <= lim.maxMedium
  {
    EvalIsMeasureAll(cat, Cost, Only(Medium));
    Constraint(Terms(cat, cat.projects, Cost, Only(Medium)), AtMost, lim.maxMedium)
  }

  /** main.py:35-37 */
  function MaxHighCost(cat: Catalog, lim: Limits): (c: Constraint)
    requires WellFormed(cat)
    ensures forall t | t in c.terms :: t.v in cat.projects
    ensures forall x | ZeroOne(cat.projects, x) ::
      Holds(c, x) <==> Measure(WithRisk(Chosen(cat, x), High), Cost) <= lim.maxHigh
  {
    EvalIsMeasureAll(cat, Cost, Only(High));
    Constraint(Terms(cat, cat.projects, Cost, Only(High)), AtMost, lim.maxHigh)
  }

  /** The constraints in the order main.py adds them (main.py:81-106). */
  function Constraints(cat: Catalog, lim: Limits): seq<Constraint>
    requires WellFormed(cat)
  {
    [TotalBudget(cat, lim),
     MinHighCount(cat, lim), MinMediumCount(cat, lim), MinLowCount(cat, lim),
     MaxLowCost(cat, lim), MaxMediumCost(cat, lim), MaxHighCost(cat, lim)]
  }

  /** The whole problem: one variable per listed project, maximise the objective. */
  function ProgramOf(cat: Catalog, lim: Limits): (p: Program)
    requires WellFormed(cat)
    ensures Declares(p)
  {
    Program(cat.projects, ObjectiveTerms(cat), Constraints(cat, lim))
  }

  /** A selection is feasible exactly when it is a 0/1 choice for every listed
      project and its rows meet all seven rules at once. */
  lemma FeasibleIff(cat: Catalog, lim: Limits, x: Assignment)
    requires WellFormed(cat)
    ensures Feasible(ProgramOf(cat, lim), x) <==>
      IsBinary(cat.projects, x) && MeetsLimits(Chosen(cat, x), lim)
  {
    if IsBinary(cat.projects, x) {
      assert ZeroOne(cat.projects, x);
    }
  }

  /** The number of catalog positions whose label is `level`. */
  function CategorySize(cat: Catalog, level: string): nat
    requires WellFormed(cat)
  {
    |WithRisk(Entries(cat, cat.projects), level)|
  }

  /** A selection never holds more projects of a label than the list does. */
  lemma {:induction false} SelectionWithinCategory(cat: Catalog, ps: seq<string>, x: Assignment, level: string)
    requires AllKnown(cat, ps) && forall p | p in ps :: p in x
    ensures |WithRisk(Entries(cat, Selected(ps, x)), level)| <= |WithRisk(Entries(cat, ps), level)|
  {
    if ps != [] {
      var p, rest := ps[0], ps[1..];
      SelectionWithinCategory(cat, rest, x, level);
      var sel := Selected(rest, x);
      assert Entries(cat, ps) == [Entry(cat, p)] + Entries(cat, rest);
      assert ([Entry(cat, p)] + Entries(cat, rest))[1..] == Entries(cat, rest);
      if x[p] == 1 {
        assert ([p] + sel)[1..] == sel;
        assert Entries(cat, [p] + sel) == [Entry(cat, p)] + Entries(cat, sel);
        assert ([Entry(cat, p)] + Entries(cat, sel))[1..] == Entries(cat, sel);
      }
    }
  }

  /** When some label has fewer catalog positions than its minimum count, no
      selection is feasible. */
  lemma TooFewInCategory(cat: Catalog, lim: Limits)
    requires WellFormed(cat)
    requires || CategorySize(cat, High) < lim.minHigh
             || CategorySize(cat, Medium) < lim.minMedium
             || CategorySize(cat, Low) < lim.minLow
    ensures forall x :: !Feasible(ProgramOf(cat, lim), x)
  {
    forall x | Feasible(ProgramOf(cat, lim), x) ensures false {
      FeasibleIff(cat, lim, x);
      SelectionWithinCategory(cat, cat.projects, x, High);
      SelectionWithinCategory(cat, cat.projects, x, Medium);
      SelectionWithinCategory(cat, cat.projects, x, Low);
    }
  }

  /** Changing the variable of a project with another label leaves a
      label-filtered sum unchanged: counts and category costs look only at
      projects whose label is exactly `level`. */
  lemma {:induction false} OtherLabelIgnored(cat: Catalog, ps: seq<string>, f: Field, level: string,
                                             x: Assignment, p: string, v: int)
    requires AllKnown(cat, ps) && Known(cat, p) && cat.riskInfo[p] != level
    requires forall q | q in ps :: q in x
    ensures Eval(Terms(cat, ps, f, Only(level)), x[p := v]) == Eval(Terms(cat, ps, f, Only(level)), x)
  {
    if ps != [] {
      OtherLabelIgnored(cat, ps[1..], f, level, x, p, v);
      var ts := Terms(cat, ps[1..], f, Only(level));
      if Keeps(cat, Only(level), ps[0]) {
        assert ([Term(Coef(cat, f, ps[0]), ps[0])] + ts)[1..] == ts;
      }
    }
  }

  /** The number of positions of `ps` holding `p`. */
  function Occurrences(ps: seq<string>, p: string): nat {
    if ps == [] then 0 else (if ps[0] == p then 1 else 0) + Occurrences(ps[1..], p)
  }

  /** Changing one variable of an unfiltered sum changes it by that project's
      coefficient once per position the project holds in the list. */
  lemma {:induction false} EveryCounts(cat: Catalog, ps: seq<string>, f: Field, x: Assignment, p: string, v: int)
    requires AllKnown(cat, ps) && Known(cat, p) && p in x
    requires forall q | q in ps :: q in x
    ensures Eval(Terms(cat, ps, f, Every), x[p := v])
         == Eval(Terms(cat, ps, f, Every), x) + Occurrences(ps, p) * (Coef(cat, f, p) * (v - x[p]))
  {
    if ps != [] {
      EveryCounts(cat, ps[1..], f, x, p, v);
      EvalTermsStep(cat, ps, f, Every, x);
      EvalTermsStep(cat, ps, f, Every, x[p := v]);
      UpdateStep(Coef(cat, f, ps[0]), x[ps[0]], x[p := v][ps[0]], ps[0] == p, Occurrences(ps[1..], p), Coef(cat, f, p) * (v - x[p]));
    }
  }

  /** The arithmetic of one step of EveryCounts. */
  lemma UpdateStep(c: int, before: int, after: int, same: bool, n: int, d: int)
    requires same ==> c * after == c * before + d
    requires !same ==> after == before
    ensures c * after == c * before + ((if same then 1 else 0) + n) * d - n * d
  {}

  /** A project whose label is none of 'Alto', 'Médio', 'Baixo' counts toward
      none of the six category rules: changing its variable changes none of them. */
  lemma UnlabelledProject(cat: Catalog, lim: Limits, x: Assignment, p: string, v: int)
    requires WellFormed(cat) && p in cat.projects
    requires cat.riskInfo[p] != High && cat.riskInfo[p] != Medium && cat.riskInfo[p] != Low
    requires forall q | q in cat.projects :: q in x
    ensures Holds(MinHighCount(cat, lim), x[p := v]) == Holds(MinHighCount(cat, lim), x)
    ensures Holds(MinMediumCount(cat, lim), x[p := v]) == Holds(MinMediumCount(cat, lim), x)
    ensures Holds(MinLowCount(cat, lim), x[p := v]) == Holds(MinLowCount(cat, lim), x)
    ensures Holds(MaxLowCost(cat, lim), x[p := v]) == Holds(MaxLowCost(cat, lim), x)
    ensures Holds(MaxMediumCost(cat, lim), x[p := v]) == Holds(MaxMediumCost(cat, lim), x)
    ensures Holds(MaxHighCost(cat, lim), x[p := v]) == Holds(MaxHighCost(cat, lim), x)
  {
    var ps := cat.projects;
    OtherLabelIgnored(cat, ps, Count, High, x, p, v);
    OtherLabelIgnored(cat, ps, Count, Medium, x, p, v);
    OtherLabelIgnored(cat, ps, Count, Low, x, p, v);
    OtherLabelIgnored(cat, ps, Cost, High, x, p, v);
    OtherLabelIgnored(cat, ps, Cost, Medium, x, p, v);
    OtherLabelIgnored(cat, ps, Cost, Low, x, p, v);
  }

  /** Such a project still counts toward the budget and the objective, once
      per time it is listed. */
  lemma UnlabelledProjectCounts(cat: Catalog, lim: Limits, x: Assignment, p: string, v: int)
    requires WellFormed(cat) && p in cat.projects
    requires forall q | q in cat.projects :: q in x
    ensures Eval(TotalBudget(cat, lim).terms, x[p := v])
         == Eval(TotalBudget(cat, lim).terms, x) + Occurrences(cat.projects, p) * (cat.costInfo[p] * (v - x[p]))
    ensures Eval(ObjectiveTerms(cat), x[p := v])
         == Eval(ObjectiveTerms(cat), x) + Occurrences(cat.projects, p) * (cat.returnInfo[p] * (v - x[p]))
  {
    EveryCounts(cat, cat.projects, Cost, x, p, v);
    EveryCounts(cat, cat.projects, Return, x, p, v);
  }
}
