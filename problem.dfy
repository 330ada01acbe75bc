/** The problem object that main.py grows with `prob += ...` (main.py:70-106). */
module Formulation {
  import opened Linear
  import opened Projects
  import opened Model

  /** An `LpProblem`: its name and sense, its variables, its objective and the
      constraints added so far, in order. */
  class Problem {
    const name: string
    const maximize: bool
    var variables: seq<Var>
    var objective: seq<Term>
    var constraints: seq<Constraint>

    constructor (name: string, maximize: bool)
      ensures this.name == name && this.maximize == maximize
      ensures variables == [] && objective == [] && constraints == []
    {
      this.name := name;
      this.maximize := maximize;
      variables, objective, constraints := [], [], [];
    }

    /** `LpVariable.dicts(indices=projects, cat=LpBinary)`: one 0/1 variable per listed project. */
    method DeclareVariables(vs: seq<Var>)
      modifies this
      ensures variables == vs
      ensures objective == old(objective) && constraints == old(constraints)
    {
      variables := vs;
    }

    /** `prob += expression`: the expression becomes the objective. */
    method SetObjective(ts: seq<Term>)
      modifies this
      ensures objective == ts
      ensures variables == old(variables) && constraints == old(constraints)
    {
      objective := ts;
    }

    /** `prob += constraint`: the constraint is appended. */
    method AddConstraint(c: Constraint)
      modifies this
      ensures constraints == old(constraints) + [c]
      ensures variables == old(variables) && objective == old(objective)
    {
      constraints := constraints + [c];
    }

    function AsProgram(): Program
      reads this
    {
      Program(variables, objective, constraints)
    }
  }

  /** main.py:70-106: declare the variables, set the objective, add the seven
      constraints in the source's order. */
  method BuildProblem(cat: Catalog, lim: Limits) returns (prob: Problem)
    requires WellFormed(cat)
    ensures fresh(prob)
    ensures prob.name == "Maximizar retorno" && prob.maximize
    ensures prob.AsProgram() == ProgramOf(cat, lim)
  {
    prob := new Problem("Maximizar retorno", true);
    prob.DeclareVariables(cat.projects);
    prob.SetObjective(ObjectiveTerms(cat));
    AddRules(prob, cat, lim);
  }

  /** main.py:81-106: the seven `prob += constraint_...(...)` statements. */
  method AddRules(prob: Problem, cat: Catalog, lim: Limits)
    requires WellFormed(cat)
    modifies prob
    ensures prob.constraints == old(prob.constraints) + Constraints(cat, lim)
    ensures prob.variables == old(prob.variables) && prob.objective == old(prob.objective)
  {
    prob.AddConstraint(TotalBudget(cat, lim));
    prob.AddConstraint(MinHighCount(cat, lim));
    prob.AddConstraint(MinMediumCount(cat, lim));
    prob.AddConstraint(MinLowCount(cat, lim));
    prob.AddConstraint(MaxLowCost(cat, lim));
    prob.AddConstraint(MaxMediumCost(cat, lim));
    prob.AddConstraint(MaxHighCost(cat, lim));
  }
}
