/** Worksheet cells and normalize_value (chunker.py). */
module Cells {
  import opened Strings

  /** The Python type behind a floating-point cell. */
  datatype FloatKind = PyFloat | PyDecimal | NumpyFloating

  /** A value as openpyxl delivers it, tagged by its Python type. Floating-point values are
      carried as reals together with their str() text; date and datetime values as their
      isoformat() and str() texts. */
  datatype Cell =
    | None
    | Str(s: string)
    | Int(i: int, numpy: bool)          // int, or numpy.integer when numpy holds
    | Bool(b: bool)                     // bool, which Python counts as an int
    | Num(x: real, kind: FloatKind, text: string)
    | Date(iso: string, text: string)   // date or datetime
    | Other(text: string)               // time, timedelta and anything else

  /** c in (None, "", " "): the only values the chunker treats as empty. */
  predicate IsBlank(c: Cell) {
    c == None || c == Str("") || c == Str(" ")
  }

  /** is_numeric: isinstance(v, (int, float, Decimal, np.integer, np.floating)). */
  predicate IsNumeric(c: Cell) {
    c.Int? || c.Bool? || c.Num?
  }

  /** The values normalize_value can return: no date objects, no Decimal, no numpy scalars. */
  predicate IsNormal(c: Cell) {
    !c.Date? && (c.Int? ==> !c.numpy) && (c.Num? ==> c.kind == PyFloat)
  }

  /** normalize_value: dates become ISO strings, Decimal and numpy floats become float, numpy
      integers become int; everything else, "" and " " included, is returned as it is. */
  function NormalizeValue(v: Cell): (r: Cell)
    ensures IsNormal(r)
    ensures IsNormal(v) ==> r == v
    ensures r == None <==> v == None
    ensures IsNumeric(r) <==> IsNumeric(v)
    ensures v.Date? ==> r == Str(v.iso)
    ensures v.Int? ==> r == Int(v.i, false)
    ensures v.Num? ==> r.Num? && r.x == v.x
  {
    match v
    case None => None
    case Date(iso, _) => Str(iso)
    case Num(x, PyDecimal, t) => Num(x, PyFloat, t)
    case Int(i, true) => Int(i, false)
    case Num(x, NumpyFloating, t) => Num(x, PyFloat, t)
    case _ => v
  }

  /** Normalising twice gives what normalising once gives. */
  lemma NormalizeIdempotent(v: Cell)
    ensures NormalizeValue(NormalizeValue(v)) == NormalizeValue(v)
  {
  }

  /** str(c) */
  function CellText(c: Cell): string {
    match c
    case None => "None"
    case Str(s) => s
    case Int(i, _) => IntToString(i)
    case Bool(b) => if b then "True" else "False"
    case Num(_, _, t) => t
    case Date(_, t) => t
    case Other(t) => t
  }

  /** str(c).strip(): the text a cell contributes to joined row and header text. */
  function CellLabel(c: Cell): string {
    Strip(CellText(c))
  }
}
