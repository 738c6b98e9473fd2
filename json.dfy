/**
 * The JSON values the client reads from API responses and keeps in its
 * dictionaries, with Python's `int(v)` and `str(v)` on them.
 */
module Json {
  import opened Wrappers
  import opened Text

  /** A decoded JSON scalar: `None`, a bool, an int or a str. */
  datatype Value = Null | Bool(b: bool) | Int(i: int) | Str(s: string)

  /** `int(v)`; `None` stands for the `TypeError` or `ValueError` it raises. */
  function IntOf(v: Value): (r: Option<int>)
    ensures v.Int? ==> r == Some(v.i)
    ensures v.Null? ==> r.None?
  {
    match v
    case Null => None
    case Bool(b) => Some(if b then 1 else 0)
    case Int(i) => Some(i)
    case Str(s) => IntOfString(s)
  }

  /** `str(v)`. */
  function Show(v: Value): string
  {
    match v
    case Null => "None"
    case Bool(b) => if b then "True" else "False"
    case Int(i) => ShowInt(i)
    case Str(s) => s
  }

  /** Integers survive a round trip through their string form. */
  lemma IntOfShow(n: int)
    ensures IntOf(Str(Show(Int(n)))) == Some(n)
  {
    IntOfShowInt(n);
  }
}
