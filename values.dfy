/**
 * Cell values of the loaded tables. A cell read from a CSV file is either a
 * number or missing (pandas' NaN); `fillna(0)` replaces the missing ones by 0.
 */
module Values {

  datatype Option<+T> = None | Some(value: T)

  /** One cell of a numeric column: a number, or NaN when the file left it empty. */
  datatype Value = NaN | Num(x: real)

  /** The number a cell stands for once `fillna(0)` has run: NaN reads as 0. */
  function AsReal(v: Value): real
  {
    match v
    case NaN => 0.0
    case Num(x) => x
  }

  /** `fillna(0)` applied to one cell. */
  function FillNa(v: Value): (r: Value)
    ensures r.Num?
    ensures AsReal(r) == AsReal(v)
    ensures v.Num? ==> r == v
  {
    Num(AsReal(v))
  }

  /** `fillna(0)` applied to every cell of one row. */
  function FillNaCells(cells: map<string, Value>): (r: map<string, Value>)
    ensures r.Keys == cells.Keys
    ensures forall c :: c in r ==> r[c].Num? && AsReal(r[c]) == AsReal(cells[c])
  {
    map c | c in cells :: FillNa(cells[c])
  }
}
