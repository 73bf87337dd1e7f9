/**
 * The column-type badge of the `DatabaseSchema` component
 * (`getColumnTypeColor`): the declared SQL type of a column, upper-cased,
 * is matched against fixed fragments in a fixed order.
 */
module DatabaseSchema {
  import opened Text

  /** The Bootstrap colour variants a badge can take. */
  datatype Variant = Primary | Success | Warning | Info | Secondary {
    function Name(): string {
      match this
      case Primary => "primary"
      case Success => "success"
      case Warning => "warning"
      case Info => "info"
      case Secondary => "secondary"
    }
  }

  predicate IsInteger(t: string) { Contains(t, "INT") }
  predicate IsText(t: string) { Contains(t, "VARCHAR") || Contains(t, "TEXT") }
  predicate IsTemporal(t: string) { Contains(t, "DATE") || Contains(t, "TIME") }
  predicate IsFractional(t: string) { Contains(t, "FLOAT") || Contains(t, "DECIMAL") }

  /**
   * `getColumnTypeColor`: integers first, then text, then dates and times,
   * then fractional numbers, and everything else is secondary; each test is
   * on the upper-cased type.
   */
  function ColumnTypeColor(columnType: string): (v: Variant)
    ensures v == Primary <==> IsInteger(Upper(columnType))
    ensures v == Success <==> !IsInteger(Upper(columnType)) && IsText(Upper(columnType))
    ensures v == Warning <==> !IsInteger(Upper(columnType)) && !IsText(Upper(columnType)) && IsTemporal(Upper(columnType))
    ensures v == Info <==>
              !IsInteger(Upper(columnType)) && !IsText(Upper(columnType)) && !IsTemporal(Upper(columnType))
              && IsFractional(Upper(columnType))
    ensures v == Secondary <==>
              !IsInteger(Upper(columnType)) && !IsText(Upper(columnType)) && !IsTemporal(Upper(columnType))
              && !IsFractional(Upper(columnType))
  {
    var t := Upper(columnType);
    if IsInteger(t) then Primary
    else if IsText(t) then Success
    else if IsTemporal(t) then Warning
    else if IsFractional(t) then Info
    else Secondary
  }

  /** The badge ignores letter case: two spellings that upper-case alike get the same colour. */
  lemma {:induction false} ColumnTypeColorIgnoresCase(a: string, b: string)
    requires |a| == |b| && forall k :: 0 <= k < |a| ==> UpperChar(a[k]) == UpperChar(b[k])
    ensures ColumnTypeColor(a) == ColumnTypeColor(b)
  {
    assert Upper(a) == Upper(b);
  }

  /** Because `INT` is tested first, any type with `int` anywhere in it is primary, `point` included. */
  lemma IntegerFragmentWins(columnType: string, i: int)
    requires 0 <= i && i + 3 <= |columnType| && Upper(columnType[i..i + 3]) == "INT"
    ensures ColumnTypeColor(columnType) == Primary
  {
    UpperSlice(columnType, i, i + 3);
    ContainsWitness(Upper(columnType), "INT", i);
  }

  lemma PointIsPrimary()
    ensures ColumnTypeColor("point") == Primary
  {
    IntegerFragmentWins("point", 2);
  }
}
