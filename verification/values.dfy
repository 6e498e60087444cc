/**
 The loosely typed tree a YAML configuration file is parsed into, and the
 small Option/Result wrappers used for absent values and raised errors.
 */
module Values {

  /** An optional value: `None` stands for Python's `None` argument or a failed read. */
  datatype Option<+T> = None | Some(value: T)

  /** The outcome of a step that may raise instead of returning. */
  datatype Result<+R, +E> = Success(value: R) | Failure(error: E)

  /**
   A node of a parsed configuration document: the shapes a safe YAML load
   produces for the documents this program reads. `Map` is a mapping with
   string keys.
   */
  datatype Value =
    | Null
    | Str(s: string)
    | Int(i: int)
    | Bool(b: bool)
    | List(items: seq<Value>)
    | Map(entries: map<string, Value>)
}
