/**
 * JSON values as the service's Python code sees them after `json.loads`:
 * their truthiness and their `str()` text. Compound values (lists, objects,
 * floats) are kept only as that text and truthiness.
 */
module JsonValues {
  import opened PyStr

  datatype Json = Null | Bool(b: bool) | Int(i: int) | Str(s: string) | Other(repr: string, truthy: bool)

  /** Python truthiness of a decoded value. */
  predicate Truthy(j: Json) {
    match j
    case Null => false
    case Bool(b) => b
    case Int(i) => i != 0
    case Str(s) => s != ""
    case Other(_, t) => t
  }

  /** `str(value)`, as an f-string writes it. */
  function Text(j: Json): string {
    match j
    case Null => "None"
    case Bool(b) => if b then "True" else "False"
    case Int(i) => IntToString(i)
    case Str(s) => s
    case Other(repr, _) => repr
  }

  /** The empty list `[]`. */
  const EmptyList: Json := Other("[]", false)
}
