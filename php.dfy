/** The PHP values the two Libsyn plugins pass around. */
module Php {

  datatype Option<+T> = None | Some(value: T)

  /** NULL, FALSE or a string: what getMetadata, getField and strtok return. */
  datatype Value = Null | False | Str(s: string)

  /** PHP's conversion to boolean: NULL, FALSE, "" and "0" are false. */
  predicate Truthy(v: Value) {
    v.Str? && v.s != [] && v.s != ['0']
  }

  /** The string a value is cast to: `(string) FALSE` and `(string) NULL` are "". */
  function AsString(v: Value): string {
    if v.Str? then v.s else []
  }
}
