/**
 * The dynamically typed values that flow through the binding code: what a
 * Go `interface{}` holds when it comes out of a resource's unstructured
 * content, plus the `map[string]string` shape a definition may produce.
 */
module Values {

  datatype Value =
    | Nil
    | Bool(b: bool)
    | Int(i: int)
    | Str(s: string)
    | List(items: seq<Value>)
    /** a Go `map[string]string` */
    | StringMap(strings: map<string, string>)
    /** a Go `map[string]interface{}` */
    | AnyMap(fields: map<string, Value>)
}
