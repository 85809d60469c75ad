/** The few Python values the script's logic handles: integers and strings. */
module PyValues {

  import opened Text

  datatype PyValue = PyInt(i: int) | PyStr(s: string)

  /** `str(v)`, which is also what an f-string inserts for `{v}`. */
  function PyStrOf(v: PyValue): (s: string) {
    match v
    case PyInt(i) => IntToString(i)
    case PyStr(s) => s
  }

  /** Python's `==`: an int never equals a str; values of one kind compare by value. */
  function PyEquals(a: PyValue, b: PyValue): (r: bool)
    ensures r ==> a.PyInt? == b.PyInt?
    ensures a.PyInt? == b.PyInt? ==> (r <==> a == b)
  {
    match (a, b)
    case (PyInt(x), PyInt(y)) => x == y
    case (PyStr(x), PyStr(y)) => x == y
    case _ => false
  }
}
