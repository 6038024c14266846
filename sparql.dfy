/**
 * The remote SPARQL endpoint, seen as an oracle: a query string either
 * fails (`None`, which is what the client reports on any error) or yields a
 * result set of variable names and binding rows.
 */
module Sparql {
  import opened Wrappers

  /** One result row: variable name to the bound value's text. */
  type Binding = map<string, string>

  datatype ResultSet = ResultSet(vars: seq<string>, bindings: seq<Binding>)

  /** The endpoint: the answer to every query string. */
  type Endpoint = string -> Option<ResultSet>

  /**
   * The endpoint's answers to one kind of query, by the class name or URI
   * the query is about.  The type is that of `Endpoint`; the two differ only
   * in what the argument is: a whole query text there, the subject of a
   * fixed query here (`SubclassAnswers`, `InstanceAnswers`, `AbstractAnswers`).
   */
  type Answers = string -> Option<ResultSet>

  /** Every row binds `v`. */
  predicate BindsAll(bs: seq<Binding>, v: string)
  {
    forall b :: b in bs ==> v in b
  }

  /** Every row binds every variable in the head. */
  predicate Complete(rs: ResultSet)
  {
    forall v :: v in rs.vars ==> BindsAll(rs.bindings, v)
  }

  /** A failed query, or an answer whose rows bind the head variables. */
  predicate WellFormed(o: Option<ResultSet>)
  {
    o.None? || Complete(o.value)
  }

  /** A failed query, or an answer whose rows all bind `v`. */
  predicate Binds(o: Option<ResultSet>, v: string)
  {
    o.None? || BindsAll(o.value.bindings, v)
  }

  /** A failed query, or an answer whose first row, if any, binds `v`. */
  predicate FirstBinds(o: Option<ResultSet>, v: string)
  {
    o.None? || o.value.bindings == [] || v in o.value.bindings[0]
  }

  /** `'<' + v + '>'`: a value turned into a bracketed URI. */
  function Bracket(v: string): string
  {
    "<" + v + ">"
  }

  /** The bracketed values of `v`, one per row, in row order. */
  function Column(bs: seq<Binding>, v: string): (r: seq<string>)
    requires BindsAll(bs, v)
    ensures |r| == |bs|
    ensures forall j :: 0 <= j < |bs| ==> r[j] == Bracket(bs[j][v])
  {
    if bs == [] then [] else Column(bs[..|bs| - 1], v) + [Bracket(bs[|bs| - 1][v])]
  }

  /** The bracketed values of the first `n` head variables, variable by variable. */
  function ColumnsUpTo(rs: ResultSet, n: nat): seq<string>
    requires Complete(rs) && n <= |rs.vars|
  {
    if n == 0 then []
    else
      assert rs.vars[n - 1] in rs.vars;
      ColumnsUpTo(rs, n - 1) + Column(rs.bindings, rs.vars[n - 1])
  }

  /** Every bracketed value of the answer: one per head variable and row. */
  function Values(rs: ResultSet): seq<string>
    requires Complete(rs)
  {
    ColumnsUpTo(rs, |rs.vars|)
  }

  /** The answer holds one value per pair of head variable and row. */
  lemma {:induction false} ColumnsUpToLength(rs: ResultSet, n: nat)
    requires Complete(rs) && n <= |rs.vars|
    ensures |ColumnsUpTo(rs, n)| == n * |rs.bindings|
  {
    if n > 0 {
      ColumnsUpToLength(rs, n - 1);
      assert n * |rs.bindings| == (n - 1) * |rs.bindings| + |rs.bindings|;
    }
  }

  /** A result with one head variable yields that variable's column. */
  lemma SingleVariableValues(rs: ResultSet)
    requires Complete(rs) && |rs.vars| == 1
    ensures rs.vars[0] in rs.vars
    ensures Values(rs) == Column(rs.bindings, rs.vars[0])
  {
    assert rs.vars[0] in rs.vars;
    assert ColumnsUpTo(rs, 1) == ColumnsUpTo(rs, 0) + Column(rs.bindings, rs.vars[0]);
  }

  /** A result with no rows yields nothing, whatever its head. */
  lemma {:induction false} NoRowsNoValues(rs: ResultSet, n: nat)
    requires Complete(rs) && n <= |rs.vars| && rs.bindings == []
    ensures ColumnsUpTo(rs, n) == []
  {
    if n > 0 {
      NoRowsNoValues(rs, n - 1);
    }
  }
}
