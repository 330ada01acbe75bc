/** The linear 0/1 programs that PuLP builds: `lpSum` expressions, `<=` and `>=`
    constraints, a problem to maximise, and what each of them means once every
    decision variable has a value. */
module Linear {

  /** A decision variable is named by the description of its project
      (`LpVariable.dicts` is keyed by the project list). */
  type Var = string

  /** The value a solver gives each decision variable. */
  type Assignment = map<Var, int>

  /** One summand `coef * x[v]` of an `lpSum`. */
  datatype Term = Term(coef: int, v: Var)

  datatype Sense = AtMost | AtLeast

  /** `lpSum(terms) <= bound` or `lpSum(terms) >= bound`. */
  datatype Constraint = Constraint(terms: seq<Term>, sense: Sense, bound: int)

  /** A maximisation problem over binary variables: the variables, the objective
      and the constraints added to it, in order. */
  datatype Program = Program(variables: seq<Var>, objective: seq<Term>, constraints: seq<Constraint>)

  predicate Defines(x: Assignment, ts: seq<Term>) {
    forall t | t in ts :: t.v in x
  }

  /** The value of `lpSum(ts)` under `x`. */
  function Eval(ts: seq<Term>, x: Assignment): int
    requires Defines(x, ts)
  {
    if ts == [] then 0 else ts[0].coef * x[ts[0].v] + Eval(ts[1..], x)
  }

  predicate Holds(c: Constraint, x: Assignment)
    requires Defines(x, c.terms)
  {
    match c.sense
    case AtMost => Eval(c.terms, x) <= c.bound
    case AtLeast => Eval(c.terms, x) >= c.bound
  }

  /** Every term of the objective and of every constraint uses a declared variable. */
  predicate Declares(p: Program) {
    && (forall t | t in p.objective :: t.v in p.variables)
    && (forall c | c in p.constraints :: forall t | t in c.terms :: t.v in p.variables)
  }

  /** `x` gives every declared variable, and nothing else, the value 0 or 1. */
  predicate IsBinary(vars: seq<Var>, x: Assignment) {
    && x.Keys == (set v | v in vars)
    && forall v | v in x :: x[v] == 0 || x[v] == 1
  }

  /** `x` is a 0/1 assignment that satisfies every constraint. */
  predicate Feasible(p: Program, x: Assignment)
    requires Declares(p)
  {
    IsBinary(p.variables, x) && forall c | c in p.constraints :: Holds(c, x)
  }

  function Value(p: Program, x: Assignment): int
    requires Declares(p) && IsBinary(p.variables, x)
  {
    Eval(p.objective, x)
  }

  /** What a solver reporting "Optimal" promises about the assignment it returns. */
  ghost predicate IsOptimal(p: Program, x: Assignment)
    requires Declares(p)
  {
    Feasible(p, x) && forall y | Feasible(p, y) :: Value(p, y) <= Value(p, x)
  }
}
