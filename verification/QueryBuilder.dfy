/** The two growing lists a WHERE clause is built in: conditions, and the values they bind. */
module QueryBuilding {
  import opened Basics
  import opened Sql

  class Builder {
    var conditions: seq<Condition>
    var args: seq<Arg>
    ghost var clauses: seq<Clause>

    ghost predicate Valid()
      reads this
    {
      conditions == Conditions(clauses) && args == Args(clauses)
    }

    constructor ()
      ensures Valid() && clauses == []
    {
      conditions, args, clauses := [], [], [];
    }

    /** Binds the value, then numbers the condition after how many are bound. */
    method Add(test: Test, value: Arg)
      requires Valid()
      modifies this
      ensures Valid() && clauses == old(clauses) + [Clause(test, Some(value))]
    {
      args := args + [value];
      conditions := conditions + [Condition(test, |args|)];
      clauses := clauses + [Clause(test, Some(value))];
      assert clauses[..|clauses| - 1] == old(clauses);
    }

    method AddBare(test: Test)
      requires Valid()
      modifies this
      ensures Valid() && clauses == old(clauses) + [Clause(test, None)]
    {
      conditions := conditions + [Condition(test, 0)];
      clauses := clauses + [Clause(test, None)];
      assert clauses[..|clauses| - 1] == old(clauses);
    }
  }
}
