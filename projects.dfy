/** The project catalog that `main` reads row by row: an ordered list of project
    descriptions and three dictionaries keyed by description (main.py:46-67). */
module Projects {

  /** One row of the sheet: Descrição, Retorno esperado (R$),
      Custo do investimento (R$) and Risco do investimento. */
  datatype Row = Row(description: string, expectedReturn: int, expectedCost: int, risk: string)

  /** `projects`, `expect_return_info`, `expected_cost_info` and `investment_risk`. */
  datatype Catalog = Catalog(
    projects: seq<string>,
    returnInfo: map<string, int>,
    costInfo: map<string, int>,
    riskInfo: map<string, string>)

  predicate Known(cat: Catalog, p: string) {
    p in cat.returnInfo && p in cat.costInfo && p in cat.riskInfo
  }

  /** Every listed project has an entry in each dictionary. */
  predicate WellFormed(cat: Catalog) {
    forall p | p in cat.projects :: Known(cat, p)
  }

  function Descriptions(rows: seq<Row>): set<string> {
    set i | 0 <= i < |rows| :: rows[i].description
  }

  /** Row `i` is the last row with its description. */
  predicate IsLast(rows: seq<Row>, i: int)
    requires 0 <= i < |rows|
  {
    forall j | i < j < |rows| :: rows[j].description != rows[i].description
  }

  predicate HasDuplicate(rows: seq<Row>) {
    exists i, j | 0 <= i < j < |rows| :: rows[i].description == rows[j].description
  }

  /** One pass of the loop body: append the description and overwrite the three entries. */
  function Record(cat: Catalog, row: Row): Catalog {
    var p := row.description;
    Catalog(
      cat.projects + [p],
      cat.returnInfo[p := row.expectedReturn],
      cat.costInfo[p := row.expectedCost],
      cat.riskInfo[p := row.risk])
  }

  /** The catalog after reading `rows` in order, starting from empty containers.
      The project list keeps every row, in row order; each dictionary has one key
      per distinct description. */
  function CatalogOf(rows: seq<Row>): (cat: Catalog)
    ensures |cat.projects| == |rows|
    ensures forall i | 0 <= i < |rows| :: cat.projects[i] == rows[i].description
    ensures cat.returnInfo.Keys == Descriptions(rows)
    ensures cat.costInfo.Keys == Descriptions(rows)
    ensures cat.riskInfo.Keys == Descriptions(rows)
    ensures WellFormed(cat)
  {
    if rows == [] then Catalog([], map[], map[], map[])
    else
      var prefix := rows[..|rows| - 1];
      assert Descriptions(rows) == Descriptions(prefix) + {rows[|rows| - 1].description} by {
        forall d | d in Descriptions(rows) ensures d in Descriptions(prefix) + {rows[|rows| - 1].description} {
          var i :| 0 <= i < |rows| && rows[i].description == d;
          if i < |rows| - 1 { assert prefix[i] == rows[i]; }
        }
        forall d | d in Descriptions(prefix) ensures d in Descriptions(rows) {
          var i :| 0 <= i < |prefix| && prefix[i].description == d;
          assert rows[i] == prefix[i];
        }
      }
      Record(CatalogOf(prefix), rows[|rows| - 1])
  }

  /** The loop at main.py:57-67. */
  method BuildCatalog(rows: seq<Row>) returns (cat: Catalog)
    ensures cat == CatalogOf(rows)
    ensures forall i | 0 <= i < |rows| && IsLast(rows, i) ::
      && cat.returnInfo[rows[i].description] == rows[i].expectedReturn
      && cat.costInfo[rows[i].description] == rows[i].expectedCost
      && cat.riskInfo[rows[i].description] == rows[i].risk
  {
    var projects: seq<string> := [];
    var returnInfo: map<string, int> := map[];
    var costInfo: map<string, int> := map[];
    var riskInfo: map<string, string> := map[];
    for i := 0 to |rows|
      invariant Catalog(projects, returnInfo, costInfo, riskInfo) == CatalogOf(rows[..i])
    {
      var p := rows[i].description;
      projects := projects + [p];
      returnInfo := returnInfo[p := rows[i].expectedReturn];
      costInfo := costInfo[p := rows[i].expectedCost];
      riskInfo := riskInfo[p := rows[i].risk];
      assert rows[..i + 1][..i] == rows[..i];
    }
    assert rows[..|rows|] == rows;
    cat := Catalog(projects, returnInfo, costInfo, riskInfo);
    forall i | 0 <= i < |rows| && IsLast(rows, i)
      ensures && cat.returnInfo[rows[i].description] == rows[i].expectedReturn
              && cat.costInfo[rows[i].description] == rows[i].expectedCost
              && cat.riskInfo[rows[i].description] == rows[i].risk
    {
      LastRowWins(rows, i);
    }
  }

  /** Each dictionary holds the fields of the last row with a given description. */
  lemma {:induction false} LastRowWins(rows: seq<Row>, i: int)
    requires 0 <= i < |rows| && IsLast(rows, i)
    ensures CatalogOf(rows).returnInfo[rows[i].description] == rows[i].expectedReturn
    ensures CatalogOf(rows).costInfo[rows[i].description] == rows[i].expectedCost
    ensures CatalogOf(rows).riskInfo[rows[i].description] == rows[i].risk
    decreases |rows|
  {
    var n := |rows| - 1;
    if i < n {
      var prefix := rows[..n];
      assert prefix[i] == rows[i];
      LastRowWins(prefix, i);
    }
  }

  /** Reading the same description twice lists it twice but leaves fewer
      dictionary entries than rows. */
  lemma {:induction false} DuplicateKeepsOneEntry(rows: seq<Row>, i: int, j: int)
    requires 0 <= i < j < |rows| && rows[i].description == rows[j].description
    ensures CatalogOf(rows).projects[i] == CatalogOf(rows).projects[j]
    ensures |CatalogOf(rows).returnInfo| < |rows|
    ensures |CatalogOf(rows).costInfo| < |rows|
    ensures |CatalogOf(rows).riskInfo| < |rows|
  {
    DescriptionsBound(rows);
  }

  /** There are never more distinct descriptions than rows, and strictly fewer
      when some description repeats. */
  lemma {:induction false} DescriptionsBound(rows: seq<Row>)
    ensures |Descriptions(rows)| <= |rows|
    ensures HasDuplicate(rows) ==> |Descriptions(rows)| < |rows|
    decreases |rows|
  {
    if rows != [] {
      var n := |rows| - 1;
      var prefix := rows[..n];
      var last := rows[n].description;
      DescriptionsBound(prefix);
      assert Descriptions(rows) == Descriptions(prefix) + {last} by {
        forall d | d in Descriptions(rows) ensures d in Descriptions(prefix) + {last} {
          var k :| 0 <= k < |rows| && rows[k].description == d;
          if k < n { assert prefix[k] == rows[k]; }
        }
        forall d | d in Descriptions(prefix) ensures d in Descriptions(rows) {
          var k :| 0 <= k < |prefix| && prefix[k].description == d;
          assert rows[k] == prefix[k];
        }
      }
      if HasDuplicate(rows) {
        var a, b :| 0 <= a < b < |rows| && rows[a].description == rows[b].description;
        if b < n {
          assert prefix[a] == rows[a] && prefix[b] == rows[b];
          assert HasDuplicate(prefix);
        } else {
          assert prefix[a] == rows[a];
          assert last in Descriptions(prefix);
        }
      }
    }
  }
}
