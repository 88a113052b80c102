/** The part of an Orange data table the widgets look at: the domain's
    variables (attributes and class variables) and metas, and the rows.
    A cell is held as the text `str(row[var])` gives for it, so a missing
    value is the text "?". */
module OrangeTable {
  /** A domain variable; only whether it is a `StringVariable` matters. */
  datatype Variable = Variable(name: string, isString: bool)

  /** One row: the cells of the variables, then the cells of the metas. */
  datatype Row = Row(values: seq<string>, metas: seq<string>)

  datatype Table = Table(variables: seq<Variable>, metas: seq<Variable>, rows: seq<Row>)

  /** What a widget receives on a table input: nothing, a value of some
      other type, or a table. */
  datatype Input = NoInput | NotATable(typeName: string) | TableValue(table: Table)

  /** Every row has one cell per variable and one per meta. */
  predicate WellFormed(t: Table) {
    forall r :: r in t.rows ==> |r.values| == |t.variables| && |r.metas| == |t.metas|
  }

  /** `domain.variables + domain.metas`. */
  function AllVars(t: Table): seq<Variable> {
    t.variables + t.metas
  }

  /** A row's cells in the order of `AllVars`. */
  function Cells(r: Row): seq<string> {
    r.values + r.metas
  }

  /** The positions of the string variables, in domain order: what
      filtering a variable list with `isinstance(var, StringVariable)`
      keeps. */
  function StringPositions(vars: seq<Variable>): (r: seq<nat>)
    ensures forall j :: 0 <= j < |r| ==> r[j] < |vars| && vars[r[j]].isString
  {
    if vars == [] then []
    else
      var n := |vars| - 1;
      var init := StringPositions(vars[..n]);
      assert forall j :: 0 <= j < |init| ==> vars[..n][init[j]] == vars[init[j]];
      init + (if vars[n].isString then [n] else [])
  }

  /** The positions come in domain order. */
  lemma {:induction false} StringPositionsAscending(vars: seq<Variable>)
    ensures forall j, j' :: 0 <= j < j' < |StringPositions(vars)| ==>
      StringPositions(vars)[j] < StringPositions(vars)[j']
  {
    if vars != [] {
      var n := |vars| - 1;
      StringPositionsAscending(vars[..n]);
    }
  }

  /** There are no positions exactly when no variable is a string
      variable. */
  lemma {:induction false} StringPositionsEmpty(vars: seq<Variable>)
    ensures StringPositions(vars) == [] <==> forall k :: 0 <= k < |vars| ==> !vars[k].isString
  {
    if vars != [] {
      var n := |vars| - 1;
      StringPositionsEmpty(vars[..n]);
      if StringPositions(vars) == [] {
        assert StringPositions(vars[..n]) == [] && !vars[n].isString;
        forall k | 0 <= k < |vars|
          ensures !vars[k].isString
        {
          if k < n {
            assert vars[..n][k] == vars[k];
          }
        }
      } else {
        var k := StringPositions(vars)[0];
      }
    }
  }

  /** Every string variable's position is listed. */
  lemma {:induction false} StringPositionListed(vars: seq<Variable>, k: nat)
    requires k < |vars| && vars[k].isString
    ensures k in StringPositions(vars)
  {
    var n := |vars| - 1;
    if k < n {
      assert vars[..n][k] == vars[k];
      StringPositionListed(vars[..n], k);
    }
  }
}
