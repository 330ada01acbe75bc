# Investment selection (Desafio Enacom) in Dafny

This project models the investment-selection program of `main.py`. The program reads a
sheet of candidate projects, each with a description, an expected return, an investment
cost and a risk label (`'Alto'`, `'Médio'` or `'Baixo'`). It builds a 0/1 linear program
that maximises the total expected return under seven rules, hands the program to a solver,
and prints the chosen projects when the solver reports status 1.

The model follows the program's structure:

- `linear.dfy` (module `Linear`) holds the linear 0/1 programs: `lpSum` terms, `<=`/`>=`
  constraints and what they mean once every variable has a value. It also defines
  feasibility and optimality.
- `projects.dfy` (module `Projects`) holds the catalog: the row-reading loop that fills the
  project list and the three dictionaries keyed by description. It is a method with a loop
  invariant, proved against the function `CatalogOf`.
- `model.dfy` (module `Model`) holds the objective and the seven `constraint_*` functions as
  pure functions that build the symbolic sums. Each function is proved to mean a condition
  on the rows of the selected projects. The same module proves feasibility as "all seven at
  once", the lemma that a too-small category makes the program infeasible, and the behaviour
  of projects with other labels. The thresholds are a `Limits` value. `SourceLimits` holds
  the literals of `main.py`, whose 'Médio' cap is 150000.
- `problem.dfy` (module `Formulation`) holds the problem object that `prob += ...` grows. It
  is a class whose methods declare the variables, set the objective and append the
  constraints in the source's order.
- `solver.dfy` (module `Solver`) covers `prob.solve()`. Any solver is held to a contract:
  status 1 means an optimal assignment. The model's own solver is an exhaustive search over
  0/1 values. It is proved to return an optimum, or status -1 exactly when nothing is
  feasible.
- `report.dfy` (module `Reporting`) covers the status check and the loop that lists the
  selected projects. `RunModel` chains the whole of `main`: read rows, build, solve, report.
- `scenarios.dfy` (module `Scenarios`) applies the model to the two catalogs of `test.py`:
  the four-project catalog that cannot be satisfied, and the thirteen-project reference
  sheet.

Decision variables are named by project description, as `LpVariable.dicts(indices=projects)`
names them. An assignment is therefore a map from description to value. A description listed
twice shares one variable and contributes one term per listing to every sum.

## Model

| member | source | states |
|---|---|---|
| Projects.CatalogOf | main.py:54-67 | the project list keeps every row's description in row order; each of the three dictionaries has exactly one key per distinct description; every listed project has an entry in each |
| Projects.BuildCatalog | main.py:57-67 | the loop builds exactly `CatalogOf(rows)`, and each dictionary holds the return, cost and label of the last row with a given description |
| Projects.LastRowWins | main.py:63-67 | for the last row with a description, the three dictionaries give that row's return, cost and label (later rows overwrite earlier ones) |
| Projects.DuplicateKeepsOneEntry | main.py:63-67 | a description read twice appears at both positions of the project list, while each dictionary has fewer entries than there are rows |
| Projects.DescriptionsBound | main.py:57-67 | there are never more distinct descriptions than rows, and strictly fewer when a description repeats |
| Model.Selected | main.py:119-120 | a project is in the selection exactly when it is listed and its variable equals 1 |
| Model.ChosenAppend | main.py:119-122 | walking one more project appends its row to the selection exactly when its variable is 1, so the selection keeps catalog order |
| Model.EvalIsMeasure | main.py:5-37 | for any 0/1 assignment, an `lpSum` of coefficient times variable over the kept projects equals the sum of that amount over the selected kept rows; unselected projects add nothing |
| Model.ObjectiveTerms | main.py:77-78 | for any 0/1 assignment, the objective equals the total expected return of exactly the selected projects |
| Model.TotalBudget | main.py:5-7 | the constraint holds exactly when the selected projects' total cost is at most the budget (2400000), whatever their labels |
| Model.MinHighCount | main.py:10-12 | the constraint holds exactly when at least `minHigh` (1) selected projects are labelled exactly 'Alto' |
| Model.MinMediumCount | main.py:15-17 | the constraint holds exactly when at least `minMedium` (2) selected projects are labelled exactly 'Médio' |
| Model.MinLowCount | main.py:20-22 | the constraint holds exactly when at least `minLow` (2) selected projects are labelled exactly 'Baixo' |
| Model.MaxLowCost | main.py:25-27 | the constraint holds exactly when the selected 'Baixo' projects cost at most `maxLow` (1200000) together |
| Model.MaxMediumCost | main.py:30-32 | the constraint holds exactly when the selected 'Médio' projects cost at most `maxMedium` together (150000 as written) |
| Model.MaxHighCost | main.py:35-37 | the constraint holds exactly when the selected 'Alto' projects cost at most `maxHigh` (900000) together |
| Model.ProgramOf | main.py:70-106 | every term of the objective and of the seven constraints uses a declared variable |
| Model.FeasibleIff | main.py:81-106 | an assignment is feasible exactly when it is 0/1 on every listed project and the selected rows meet all seven rules at once |
| Model.SelectionWithinCategory | main.py:10-22 | a selection never holds more projects of a label than the catalog lists |
| Model.TooFewInCategory | main.py:10-22 | when some label has fewer listed projects than its minimum count, no assignment is feasible |
| Model.OtherLabelIgnored | main.py:10-37 | changing the variable of a project with another label leaves a label-filtered count or cost sum unchanged |
| Model.EveryCounts | main.py:5-7 | changing one project's variable changes the unfiltered cost or return sum by its coefficient once per listing of the project |
| Model.UnlabelledProject | main.py:10-37 | a project labelled none of 'Alto', 'Médio', 'Baixo' affects none of the six category rules |
| Model.UnlabelledProjectCounts | main.py:5-7 | such a project still moves the budget sum by its cost and the objective by its return |
| Formulation.Problem.constructor | main.py:70 | a new problem has the given name and sense and no variables, objective or constraints |
| Formulation.Problem.DeclareVariables | main.py:73-74 | the variables become the project list; nothing else changes |
| Formulation.Problem.SetObjective | main.py:77-78 | the objective becomes the given sum; nothing else changes |
| Formulation.Problem.AddConstraint | main.py:81-82 | the constraint is appended after those already added; nothing else changes |
| Formulation.AddRules | main.py:80-106 | the seven constraints are appended in the source's order |
| Formulation.BuildProblem | main.py:69-106 | the finished problem is named "Maximizar retorno", maximises, and equals `ProgramOf(cat, lim)` |
| Solver.Distinct | main.py:73-74 | one variable per distinct project: the list holds each listed name exactly once |
| Solver.Search | main.py:109 | a returned assignment is feasible and extends the fixed values with 0/1 values for the remaining variables |
| Solver.SearchFindsBest | main.py:109 | every feasible extension is found, and none has a larger objective than the one returned |
| Solver.Solve | main.py:109 | the status is 1 or -1; status 1 comes with an optimal assignment; status -1 is reported exactly when no assignment is feasible |
| Reporting.SelectedRows | main.py:119-122 | the loop lists the rows of exactly the projects whose variable equals 1, in catalog order |
| Reporting.ChosenRows | main.py:119-122 | every listed row belongs to a project whose variable is 1, and every such project's row is listed |
| Reporting.ReportResult | main.py:109-124 | any status other than 1 reports no optimal solution; status 1 reports the objective value and the selected rows |
| Reporting.OptimalReport | main.py:109-124 | under the solver contract, a status-1 report meets every rule, its total is the selected rows' return, and no feasible selection returns more |
| Reporting.RunModel | main.py:40-124 | the run reports no optimal solution exactly when nothing is feasible; otherwise the listed rows are, in catalog order, the rows of a feasible assignment's selected projects, they keep every rule, the total is their return, and no feasible selection beats it |
| Scenarios.DistinctCatalog | main.py:57-67 | when no description repeats, reading the catalog back yields exactly the rows read |
| Scenarios.CostFloor | main.py:30-32 | rows that each cost at least a floor, but for one cheaper row, cost at least the floor per row less that row's shortfall |
| Scenarios.MediumFloor | main.py:30-32 | when every 'Médio' row costs at least a floor but for one cheaper row, any two or more selected 'Médio' projects cost at least the floor plus the cheaper cost |
| Scenarios.MaskFeasible | main.py:81-106 | the assignment picked by a mask is feasible whenever the tally of the masked rows keeps the rules, and its objective is the tallied return |
| Scenarios.FailingInfeasible | test.py:63-66 | the four-project catalog, with one 'Baixo' project, admits no selection under any limits asking for two |
| Scenarios.FailingScenario | test.py:62-68 | running the model on that catalog reports no optimal solution |
| Scenarios.ReferenceInfeasibleAsWritten | main.py:30-32 | with the 'Médio' cap of 150000 as written, the thirteen reference projects admit no selection |
| Scenarios.ReferenceScenarioAsWritten | main.py:30-32 | the program as written reports no optimal solution for the reference sheet |
| Scenarios.ReferenceFeasibleAsIntended | test.py:48-51 | with the 'Médio' cap of 1500000, eight reference projects keep every rule and return 2120000 together |
| Scenarios.ReferenceScenarioAsIntended | test.py:58-60 | with that cap the run finds an optimum that keeps every rule, returns at least 2120000, and beats any single reference project |

## Left out

- Reading the sheet with pandas from a fixed Windows path (main.py:43): the rows are an input sequence.
- Printing (main.py:113-124): a `Report` value carries what would be printed. That is the objective value and the selected rows, or "no optimal solution".
- The `if __name__:` guard (main.py:127-128), which is always true and so runs `main` even on import.
- The external solver's internals. `Solver.Solve` stands in for it. It is exact but exponential, so it is a reference for small catalogs, not a model of the solver's algorithm.
- Solver statuses other than 1 and -1 ("Not Solved", "Unbounded", "Undefined"). The model's solver never returns them. `ReportResult` treats every status other than 1 alike, as the source does.
- Floating point: returns, costs and variable values are integers. The source compares the solver's float value with `== 1`. The model compares an integer.
- Validation of labels and amounts: the code has none. A project with another label simply counts toward no category rule (`Model.UnlabelledProject`). Negative amounts are accepted as they are.
- The variable name prefix `Selecionado` that PuLP adds: variables are named by description only.
- test.py as executable tests: they call an `optimizer` function and keyword arguments that main.py does not define. Their data appear as the catalogs in `Scenarios`.

## Findings

| source | as written | input that shows it | evidently intended | confidence | as-written member | corrected member |
|---|---|---|---|---|---|---|
| main.py:32 | the 'Médio' cost cap is the literal 150000 | the thirteen projects of test.py:9-19: the cheapest 'Médio' project costs 50000 and every other costs at least 170000, so the two required 'Médio' projects cost at least 220000, and no selection is feasible | a cap of 1500000, the value test.py:51 passes as `average_maximum_cost`, under which the reference sheet has a feasible selection returning 2120000 | medium; not executed | Scenarios.ReferenceScenarioAsWritten | Scenarios.ReferenceScenarioAsIntended |

The thresholds are a parameter of `RunModel`. `Model.SourceLimits` keeps the literals as written. `Model.IntendedLimits` differs only in the 'Médio' cap of 1500000.
