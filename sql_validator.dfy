/**
 * The query handle of sqlvalidator/sql_validator.py: an `SQLQuery` holds the
 * SQL text, a lazily set `validated` flag and the list of errors found. The
 * validation itself is not written yet in the source (`_validate` only sets
 * the flag), so no error is ever recorded and every query is valid.
 */
module SqlValidator {

  class SQLQuery {
    const sql: string
    var validated: bool
    var errors: seq<string>

    /** A query that found no error so far: the only state `_validate` reaches. */
    ghost predicate Valid()
      reads this
    {
      errors == []
    }

    /** `SQLQuery(sql)`: the text as given, not yet validated, no errors. */
    constructor (sql: string)
      ensures this.sql == sql && !validated && errors == [] && Valid()
    {
      this.sql := sql;
      validated := false;
      errors := [];
    }

    /** `_validate`: marks the query validated and records no error. */
    method Validate()
      modifies this
      ensures validated && errors == old(errors)
    {
      validated := true;
    }

    /** `is_valid`: validates on the first call only, then answers whether no
        error was recorded. */
    method IsValid() returns (valid: bool)
      modifies this
      ensures validated
      ensures errors == old(errors)
      ensures valid <==> |errors| == 0
      ensures Valid() ==> valid
    {
      if !validated {
        Validate();
      }
      valid := |errors| == 0;
    }
  }

  /** `parse(sql)`: a fresh, unvalidated query over exactly `sql`. */
  method Parse(sql: string) returns (query: SQLQuery)
    ensures fresh(query) && query.sql == sql && !query.validated && query.errors == [] && query.Valid()
  {
    query := new SQLQuery(sql);
  }

  /** `parse(sql).is_valid()`, as the tests use it: true for any text, since
      no validation rule exists. */
  method ParseIsValid(sql: string) returns (valid: bool)
    ensures valid
  {
    var query := Parse(sql);
    valid := query.IsValid();
  }

  /** Asking twice gives the same answer, and the second call leaves the
      query as the first one left it. */
  method IsValidTwice(query: SQLQuery) returns (first: bool, second: bool)
    modifies query
    ensures first == second
    ensures query.validated && query.errors == old(query.errors)
  {
    first := query.IsValid();
    second := query.IsValid();
  }
}
