/** The two catalogs of test.py run through the model: the thirteen projects
    of the reference sheet (test.py:9-19) and four projects that no selection
    can fit (test.py:63-66). */
module Scenarios {
  import opened Linear
  import opened Projects
  import opened Model
  import opened Solver
  import opened Reporting

  /** test.py:63-66. */
  const FailingRows: seq<Row> := [
    Row("projeto1", 1000000, 8000000, "Baixo"),
    Row("projeto2", 1500000, 5000000, "Médio"),
    Row("projeto3", 2000000, 7000000, "Alto"),
    Row("projeto4", 1200000, 4000000, "Médio")]

  /** test.py:9-19, one row per project. */
  const ReferenceRows: seq<Row> := [
    Row("Ampliação da capacidade do armazém ZDP em 5%", 410000, 470000, "Baixo"),
    Row("Ampliação da capacidade do armazém MGL em 7%", 330000, 400000, "Baixo"),
    Row("Compra de empilhadeira", 140000, 170000, "Médio"),
    Row("Projeto de P&D I", 250000, 270000, "Médio"),
    Row("Projeto de P&D II", 320000, 340000, "Médio"),
    Row("Aquisição de novos equipamentos", 320000, 230000, "Médio"),
    Row("Capacitação de funcionários", 90000, 50000, "Médio"),
    Row("Ampliação da estrutura de carga rodoviária", 190000, 440000, "Alto"),
    Row("Construção de datacenter", 120000, 320000, "Alto"),
    Row("Aquisição de empresa concorrente", 450000, 800000, "Alto"),
    Row("Compra de serviços em nuvem", 80000, 120000, "Baixo"),
    Row("Criação de aplicativo mobile e desktop", 120000, 150000, "Baixo"),
    Row("Terceirizar serviço de otimização da logística", 380000, 300000, "Médio")]

  /** A selection of eight reference projects that keeps the corrected rules:
      both warehouse expansions, R&D II, the new equipment, the training, the
      road-freight structure, the cloud services and the outsourced logistics. */
  const ReferenceMask: seq<bool> :=
    [true, true, false, false, true, true, true, true, false, false, true, false, true]

  // ---------------------------------------------------------------------------
  // Catalogs without repeated descriptions

  /** When no description repeats, the catalog hands back exactly the rows read. */
  lemma DistinctCatalog(rows: seq<Row>)
    requires !HasDuplicate(rows)
    ensures Entries(CatalogOf(rows), CatalogOf(rows).projects) == rows
    ensures NoRepeats(CatalogOf(rows).projects)
  {
    forall i | 0 <= i < |rows| ensures Entries(CatalogOf(rows), CatalogOf(rows).projects)[i] == rows[i] {
      EntryOfRow(rows, i);
    }
  }

  lemma EntryOfRow(rows: seq<Row>, i: int)
    requires !HasDuplicate(rows) && 0 <= i < |rows|
    ensures Entry(CatalogOf(rows), CatalogOf(rows).projects[i]) == rows[i]
  {
    LastRowWins(rows, i);
  }

  /** The listed projects are the distinct descriptions. */
  lemma ProjectsAreDescriptions(rows: seq<Row>)
    ensures (set v | v in CatalogOf(rows).projects) == Descriptions(rows)
  {
    var ps := CatalogOf(rows).projects;
    forall v | v in Descriptions(rows) ensures v in ps {
      var j :| 0 <= j < |rows| && rows[j].description == v;
      assert ps[j] == v;
    }
  }

  /** Every selected row is one of the rows read. */
  lemma ChosenFromRows(rows: seq<Row>, x: Assignment)
    requires !HasDuplicate(rows) && forall p | p in CatalogOf(rows).projects :: p in x
    ensures forall r | r in Chosen(CatalogOf(rows), x) :: r in rows
  {
    var cat := CatalogOf(rows);
    DistinctCatalog(rows);
    var sel := Selected(cat.projects, x);
    var chosen := Chosen(cat, x);
    forall r | r in chosen ensures r in rows {
      var i :| 0 <= i < |chosen| && chosen[i] == r;
      assert sel[i] in sel;
      var j :| 0 <= j < |cat.projects| && cat.projects[j] == sel[i];
      assert rows[j] == Entry(cat, cat.projects[j]);
    }
  }

  lemma {:induction false} SelectedUnique(ps: seq<string>, x: Assignment)
    requires NoRepeats(ps) && forall p | p in ps :: p in x
    ensures NoRepeats(Selected(ps, x))
  {
    if ps != [] {
      SelectedUnique(ps[1..], x);
      assert ps[0] !in ps[1..] by {
        forall k | 0 <= k < |ps[1..]| ensures ps[1..][k] != ps[0] {
          assert ps[1..][k] == ps[k + 1];
        }
      }
    }
  }

  lemma {:induction false} WithRiskUnique(rows: seq<Row>, level: string)
    requires NoRepeats(rows)
    ensures NoRepeats(WithRisk(rows, level))
  {
    if rows != [] {
      WithRiskUnique(rows[1..], level);
      assert rows[0] !in rows[1..] by {
        forall k | 0 <= k < |rows[1..]| ensures rows[1..][k] != rows[0] {
          assert rows[1..][k] == rows[k + 1];
        }
      }
    }
  }

  lemma Distribute(a: int, n: int)
    ensures a * (n + 1) == a * n + a
  {
  }

  /** Rows that each cost at least `floor`, except possibly one cheaper row,
      cost together at least `floor` per row less the cheap row's shortfall. */
  lemma {:induction false} CostFloor(rs: seq<Row>, cheap: Row, floor: int)
    requires NoRepeats(rs) && cheap.expectedCost <= floor
    requires forall r | r in rs :: r.expectedCost >= floor || r == cheap
    ensures Measure(rs, Cost) >= floor * |rs| - (if cheap in rs then floor - cheap.expectedCost else 0)
  {
    if rs != [] {
      var t := rs[1..];
      assert forall k | 0 <= k < |t| :: t[k] == rs[k + 1];
      assert rs[0] !in t;
      CostFloor(t, cheap, floor);
      Distribute(floor, |t|);
      assert cheap in rs <==> cheap == rs[0] || cheap in t;
    }
  }

  // ---------------------------------------------------------------------------
  // Selections described by a mask over the rows

  /** The 0/1 assignment that sets the variable of row `i` to 1 exactly when `m[i]`. */
  function MaskAssignment(rows: seq<Row>, m: seq<bool>): (x: Assignment)
    requires |m| == |rows| && !HasDuplicate(rows)
    ensures x.Keys == Descriptions(rows)
    ensures forall i | 0 <= i < |rows| :: x[rows[i].description] == (if m[i] then 1 else 0)
  {
    map i | 0 <= i < |rows| :: rows[i].description := if m[i] then 1 else 0
  }

  lemma MaskIsBinary(rows: seq<Row>, m: seq<bool>)
    requires |m| == |rows| && !HasDuplicate(rows)
    ensures IsBinary(CatalogOf(rows).projects, MaskAssignment(rows, m))
  {
    ProjectsAreDescriptions(rows);
  }

  /** The tally keeps every rule of `lim`. */
  predicate Within(st: Stats, lim: Limits) {
    && st.cost <= lim.totalBudget
    && st.nHigh >= lim.minHigh && st.nMedium >= lim.minMedium && st.nLow >= lim.minLow
    && st.costLow <= lim.maxLow && st.costMedium <= lim.maxMedium && st.costHigh <= lim.maxHigh
  }

  /** The seven quantities the rules look at, plus the total return. */
  datatype Stats = Stats(cost: int, ret: int, nHigh: int, nMedium: int, nLow: int,
                         costHigh: int, costMedium: int, costLow: int)

  function StatsOf(rows: seq<Row>): Stats {
    Stats(Measure(rows, Cost), Measure(rows, Return),
      |WithRisk(rows, High)|, |WithRisk(rows, Medium)|, |WithRisk(rows, Low)|,
      Measure(WithRisk(rows, High), Cost), Measure(WithRisk(rows, Medium), Cost),
      Measure(WithRisk(rows, Low), Cost))
  }

  /** The tally after counting one more row. */
  function Add(r: Row, st: Stats): Stats {
    Stats(r.expectedCost + st.cost, r.expectedReturn + st.ret,
      (if r.risk == High then 1 else 0) + st.nHigh,
      (if r.risk == Medium then 1 else 0) + st.nMedium,
      (if r.risk == Low then 1 else 0) + st.nLow,
      (if r.risk == High then r.expectedCost else 0) + st.costHigh,
      (if r.risk == Medium then r.expectedCost else 0) + st.costMedium,
      (if r.risk == Low then r.expectedCost else 0) + st.costLow)
  }

  /** The tally of the masked rows from index `i` on. */
  function StatsFrom(rows: seq<Row>, m: seq<bool>, i: nat): Stats
    requires |m| == |rows| && i <= |rows|
    decreases |rows| - i
  {
    if i == |rows| then Stats(0, 0, 0, 0, 0, 0, 0, 0)
    else if m[i] then Add(rows[i], StatsFrom(rows, m, i + 1))
    else StatsFrom(rows, m, i + 1)
  }

  lemma WithRiskCons(r: Row, t: seq<Row>, level: string)
    ensures WithRisk([r] + t, level) == (if r.risk == level then [r] else []) + WithRisk(t, level)
  {
    assert ([r] + t)[1..] == t;
  }

  lemma MeasureCons(r: Row, t: seq<Row>)
    ensures Measure([r] + t, Cost) == r.expectedCost + Measure(t, Cost)
    ensures Measure([r] + t, Return) == r.expectedReturn + Measure(t, Return)
  {
    assert ([r] + t)[1..] == t;
  }

  lemma StatsCons(r: Row, t: seq<Row>)
    ensures StatsOf([r] + t) == Add(r, StatsOf(t))
  {
    MeasureCons(r, t);
    WithRiskCons(r, t, High);
    WithRiskCons(r, t, Medium);
    WithRiskCons(r, t, Low);
    MeasureCons(r, WithRisk(t, High));
    MeasureCons(r, WithRisk(t, Medium));
    MeasureCons(r, WithRisk(t, Low));
  }

  /** Selecting by a mask tallies the masked rows. */
  lemma {:induction false} ChosenStats(cat: Catalog, ps: seq<string>, rows: seq<Row>, m: seq<bool>, x: Assignment, i: nat)
    requires AllKnown(cat, ps) && |ps| == |rows| == |m| && i <= |ps|
    requires forall j | 0 <= j < |ps| ::
      ps[j] in x && Entry(cat, ps[j]) == rows[j] && x[ps[j]] == (if m[j] then 1 else 0)
    ensures forall p | p in ps[i..] :: p in x
    ensures StatsOf(Entries(cat, Selected(ps[i..], x))) == StatsFrom(rows, m, i)
    decreases |ps| - i
  {
    assert forall p | p in ps[i..] :: p in ps;
    if i < |ps| {
      ChosenStats(cat, ps, rows, m, x, i + 1);
      var p, rest := ps[i], ps[i + 1..];
      assert ps[i..][0] == p && ps[i..][1..] == rest;
      var sel := Selected(rest, x);
      if m[i] {
        assert Selected(ps[i..], x) == [p] + sel;
        assert ([p] + sel)[1..] == sel;
        assert Entries(cat, [p] + sel) == [rows[i]] + Entries(cat, sel);
        StatsCons(rows[i], Entries(cat, sel));
      }
    } else {
      assert ps[i..] == [];
    }
  }

  /** A mask whose tally keeps the rules picks a feasible selection, whose
      objective is the tallied return. */
  lemma MaskFeasible(rows: seq<Row>, m: seq<bool>, lim: Limits)
    requires |m| == |rows| && !HasDuplicate(rows)
    requires Within(StatsFrom(rows, m, 0), lim)
    ensures Feasible(ProgramOf(CatalogOf(rows), lim), MaskAssignment(rows, m))
    ensures Measure(Chosen(CatalogOf(rows), MaskAssignment(rows, m)), Return) == StatsFrom(rows, m, 0).ret
  {
    var cat, x := CatalogOf(rows), MaskAssignment(rows, m);
    MaskIsBinary(rows, m);
    MaskStats(rows, m);
    WithinMeets(Chosen(cat, x), lim);
    FeasibleIff(cat, lim, x);
  }

  lemma WithinMeets(rows: seq<Row>, lim: Limits)
    requires Within(StatsOf(rows), lim)
    ensures MeetsLimits(rows, lim)
  {
  }

  lemma MaskStats(rows: seq<Row>, m: seq<bool>)
    requires |m| == |rows| && !HasDuplicate(rows)
    ensures forall p | p in CatalogOf(rows).projects :: p in MaskAssignment(rows, m)
    ensures StatsOf(Chosen(CatalogOf(rows), MaskAssignment(rows, m))) == StatsFrom(rows, m, 0)
  {
    var ps := CatalogOf(rows).projects;
    MaskAgrees(rows, m);
    ChosenStats(CatalogOf(rows), ps, rows, m, MaskAssignment(rows, m), 0);
    assert ps[0..] == ps;
  }

  /** Project `j` of the catalog is row `j`, and its variable is set by `m[j]`. */
  lemma MaskAgrees(rows: seq<Row>, m: seq<bool>)
    requires |m| == |rows| && !HasDuplicate(rows)
    ensures var cat, x := CatalogOf(rows), MaskAssignment(rows, m);
      forall j | 0 <= j < |cat.projects| ::
        cat.projects[j] in x && Entry(cat, cat.projects[j]) == rows[j]
        && x[cat.projects[j]] == (if m[j] then 1 else 0)
  {
    var cat := CatalogOf(rows);
    forall j | 0 <= j < |cat.projects|
      ensures Entry(cat, cat.projects[j]) == rows[j]
    {
      EntryOfRow(rows, j);
    }
  }

  /** A catalog with too few projects of some label, and no repeated
      description, admits no selection. */
  lemma TooFewRows(rows: seq<Row>, lim: Limits)
    requires !HasDuplicate(rows)
    requires || |WithRisk(rows, High)| < lim.minHigh
             || |WithRisk(rows, Medium)| < lim.minMedium
             || |WithRisk(rows, Low)| < lim.minLow
    ensures forall x :: !Feasible(ProgramOf(CatalogOf(rows), lim), x)
  {
    DistinctCatalog(rows);
    TooFewInCategory(CatalogOf(rows), lim);
  }

  /** When every 'Médio' row costs at least `floor` except one cheaper row,
      any two or more selected 'Médio' projects cost at least `floor` plus the
      cheaper row's cost. */
  lemma MediumFloor(rows: seq<Row>, x: Assignment, cheap: Row, floor: int)
    requires !HasDuplicate(rows) && IsBinary(CatalogOf(rows).projects, x)
    requires 0 <= cheap.expectedCost <= floor
    requires forall r | r in rows && r.risk == Medium :: r.expectedCost >= floor || r == cheap
    ensures |WithRisk(Chosen(CatalogOf(rows), x), Medium)| >= 2 ==>
      Measure(WithRisk(Chosen(CatalogOf(rows), x), Medium), Cost) >= floor + cheap.expectedCost
  {
    var cat := CatalogOf(rows);
    DistinctCatalog(rows);
    ChosenFromRows(rows, x);
    var sel := Selected(cat.projects, x);
    SelectedUnique(cat.projects, x);
    var chosen := Entries(cat, sel);
    assert NoRepeats(chosen) by {
      forall i, j | 0 <= i < j < |chosen| ensures chosen[i] != chosen[j] {
        assert chosen[i].description == sel[i];
      }
    }
    WithRiskUnique(chosen, Medium);
    var rs := WithRisk(chosen, Medium);
    CostFloor(rs, cheap, floor);
    if |rs| >= 2 {
      AtLeastTwice(floor, |rs|);
    }
  }

  lemma AtLeastTwice(a: int, n: int)
    requires a >= 0 && n >= 2
    ensures a * n >= 2 * a
  {
  }

  // ---------------------------------------------------------------------------
  // The failing catalog

  lemma FailingRowsDistinct()
    ensures !HasDuplicate(FailingRows)
  {
  }

  lemma FailingLowCount()
    ensures |WithRisk(FailingRows, Low)| == 1
  {
  }

  /** With a single 'Baixo' project, no selection can hold the two the rules demand. */
  lemma FailingInfeasible(lim: Limits)
    requires lim.minLow >= 2
    ensures forall x :: !Feasible(ProgramOf(CatalogOf(FailingRows), lim), x)
  {
    FailingRowsDistinct();
    FailingLowCount();
    TooFewRows(FailingRows, lim);
  }

  /** test_optimizer_failed: the run reports that no optimal solution was found. */
  method FailingScenario(lim: Limits) returns (r: Report)
    requires lim.minLow >= 2
    ensures r == NoOptimalSolution
  {
    r := RunModel(FailingRows, lim);
    FailingInfeasible(lim);
  }

  // ---------------------------------------------------------------------------
  // The reference catalog

  lemma ReferenceRowsDistinct()
    ensures !HasDuplicate(ReferenceRows)
  {
    assert forall i, j | 0 <= i < j < |ReferenceRows| ::
      ReferenceRows[i].description != ReferenceRows[j].description;
  }

  /** Every 'Médio' reference project but the training costs at least 170000. */
  lemma ReferenceMediumCosts()
    ensures forall r | r in ReferenceRows && r.risk == Medium ::
      r.expectedCost >= 170000 || r == ReferenceRows[6]
    ensures ReferenceRows[6].expectedCost == 50000
  {
  }

  /** main.py:32 as written: with a 'Médio' cap of 150000 the reference catalog
      admits no selection at all. */
  lemma ReferenceInfeasibleAsWritten()
    ensures forall x :: !Feasible(ProgramOf(CatalogOf(ReferenceRows), SourceLimits), x)
  {
    var cat := CatalogOf(ReferenceRows);
    forall x ensures !Feasible(ProgramOf(cat, SourceLimits), x) {
      FeasibleIff(cat, SourceLimits, x);
      if IsBinary(cat.projects, x) {
        ReferenceRowsDistinct();
        ReferenceMediumCosts();
        MediumFloor(ReferenceRows, x, ReferenceRows[6], 170000);
      }
    }
  }

  /** The program as written reports no optimal solution for the reference sheet. */
  method ReferenceScenarioAsWritten() returns (r: Report)
    ensures r == NoOptimalSolution
  {
    r := RunModel(ReferenceRows, SourceLimits);
    ReferenceInfeasibleAsWritten();
  }

  lemma ReferenceTallyTail()
    ensures StatsFrom(ReferenceRows, ReferenceMask, 7)
         == Stats(860000, 650000, 1, 1, 1, 440000, 300000, 120000)
  {
  }

  /** The tally of the eight masked reference projects. */
  lemma ReferenceTally()
    ensures StatsFrom(ReferenceRows, ReferenceMask, 0)
         == Stats(2350000, 2120000, 1, 4, 3, 440000, 920000, 990000)
  {
    ReferenceTallyTail();
  }

  /** The assignment that picks the eight masked reference projects. */
  function ReferenceChoice(): (x: Assignment)
    ensures IsBinary(CatalogOf(ReferenceRows).projects, x)
  {
    ReferenceRowsDistinct();
    MaskAssignment(ReferenceRows, ReferenceMask)
  }

  /** With the 'Médio' cap of 1500000 that test.py:51 expects, the eight masked
      projects keep every rule and return 2120000 together. */
  lemma ReferenceFeasibleAsIntended()
    ensures Feasible(ProgramOf(CatalogOf(ReferenceRows), IntendedLimits), ReferenceChoice())
    ensures Measure(Chosen(CatalogOf(ReferenceRows), ReferenceChoice()), Return) == 2120000
  {
    ReferenceRowsDistinct();
    ReferenceTally();
    MaskFeasible(ReferenceRows, ReferenceMask, IntendedLimits);
  }

  /** No reference project returns more than 450000 on its own. */
  lemma ReferenceReturnsAtMost()
    ensures forall row | row in ReferenceRows :: row.expectedReturn <= 450000
  {
  }

  /** test_optimizer_sucess with the corrected cap: the run finds an optimum
      that keeps every rule and out-earns any single reference project. */
  method ReferenceScenarioAsIntended() returns (r: Report)
    ensures r.Solved? && MeetsLimits(r.selected, IntendedLimits)
    ensures r.total >= 2120000
    ensures forall row | row in ReferenceRows :: row.expectedReturn < r.total
  {
    r := RunModel(ReferenceRows, IntendedLimits);
    ReferenceFeasibleAsIntended();
    ReferenceReturnsAtMost();
  }
}
