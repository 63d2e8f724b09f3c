/** Scalar values and documents shared by the storage modules. */
module Values {

  datatype Option<+T> = None | Some(value: T)

  /** A scalar as Python and PostgreSQL both see it; `Null` is None / SQL NULL. */
  datatype Value = Null | Text(s: string) | Number(n: real) | Flag(b: bool)

  /** A document, as the routers read it: missing keys and None are both "no value". */
  type Doc = map<string, Value>

  function Get(doc: Doc, key: string): Value {
    if key in doc then doc[key] else Null
  }
}
