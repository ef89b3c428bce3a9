/**
 * components/db/InConditionBuilder.php: the `IN` condition on the
 * `companies` column, a PostgreSQL array, is written as an array
 * containment test; any other column is left to the framework's builder.
 */
module InCondition {
  import opened Wrappers
  import opened Text

  /** The SQL text of the condition, or the framework's own `IN` for another column. */
  datatype Condition = Sql(text: string) | Delegated

  const Column: string := "companies"
  const Prefix: string := "companies @> ARRAY["

  /** The decimal notation of each value, in order. */
  function Numbers(values: seq<int>): (r: seq<string>)
    ensures |r| == |values|
    ensures forall i | 0 <= i < |r| :: r[i] == IntToString(values[i])
  {
    seq(|values|, i requires 0 <= i < |values| => IntToString(values[i]))
  }

  /** `build`: the containment test over the values joined by commas. */
  function Build(column: string, values: seq<int>): (c: Condition)
    ensures c.Sql? <==> column == Column
  {
    if column == Column then Sql(Prefix + Join(Numbers(values), ',') + "]") else Delegated
  }

  /** Reads the values back out of a containment test; None when the text has another shape. */
  function Parse(text: string): Option<seq<int>>
  {
    if |text| > |Prefix| && text[..|Prefix|] == Prefix && text[|text| - 1] == ']' then
      Some(Casts(Split(text[|Prefix|..|text| - 1], ',')))
    else None
  }

  /** The `(int)` cast of each part. */
  function Casts(parts: seq<string>): (r: seq<int>)
    ensures |r| == |parts|
    ensures forall i | 0 <= i < |r| :: r[i] == IntCast(parts[i])
  {
    seq(|parts|, i requires 0 <= i < |parts| => IntCast(parts[i]))
  }

  /** Casting the decimal notations back gives the values. */
  lemma CastsOfNumbers(values: seq<int>)
    ensures Casts(Numbers(values)) == values
  {
    forall i | 0 <= i < |values|
      ensures Casts(Numbers(values))[i] == values[i]
    {
      IntCastOfIntToString(values[i]);
    }
  }

  /** An empty value list gives an empty array literal. */
  lemma EmptyValues()
    ensures Build(Column, []) == Sql("companies @> ARRAY[]")
  {
  }

  /** No decimal notation contains the separator. */
  lemma NoCommaInNumbers(values: seq<int>)
    ensures forall k | 0 <= k < |Numbers(values)| :: ',' !in Numbers(values)[k]
  {
    forall k | 0 <= k < |values|
      ensures ',' !in IntToString(values[k])
    {
      var s := IntToString(values[k]);
      assert forall j | 0 <= j < |s| :: s[j] != ',';
    }
  }

  /** For n values the array literal has exactly n - 1 separators. */
  lemma SeparatorCount(values: seq<int>)
    requires values != []
    ensures var c := Build(Column, values);
      Count(c.text[|Prefix|..|c.text| - 1], ',') == |values| - 1
  {
    var body := Join(Numbers(values), ',');
    var text := Prefix + body + "]";
    assert text[|Prefix|..|text| - 1] == body;
    NoCommaInNumbers(values);
    CountJoin(Numbers(values), ',');
  }

  /** Round trip: the values are recovered from the condition, in their order. */
  lemma ParseBuild(values: seq<int>)
    requires values != []
    ensures Parse(Build(Column, values).text) == Some(values)
  {
    var body := Join(Numbers(values), ',');
    var text := Prefix + body + "]";
    assert text[..|Prefix|] == Prefix;
    assert text[|Prefix|..|text| - 1] == body;
    assert Parse(text) == Some(Casts(Split(body, ',')));
    NoCommaInNumbers(values);
    SplitJoin(Numbers(values), ',');
    CastsOfNumbers(values);
  }
}
