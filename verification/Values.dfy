/** The in-memory tree of an inventory (value.rs, source.rs, path.rs): a JSON-like
    value whose every node carries where it was written. */
module Values {
  import opened Wrappers

  /** File names are single path components; a path is absolute. */
  type Path = seq<string>

  datatype Origin = Synthetic | At(file: Path, line: nat, col: nat)

  /** A double: not-a-number, the infinities, or a real. */
  datatype F64 = NaN | NegInf | PosInf | Finite(r: real)

  datatype Value =
    | Null
    | Bool(b: bool)
    | Int(i: int)
    | Float(f: F64)
    | Str(s: string)
    | List(items: seq<Node>)
    | Map(entries: seq<Entry>)   // insertion order, keys unique
  {
    predicate IsContainer() { List? || Map? }

    /** The Python type name. */
    function TypeName(): string {
      match this
      case Null => "NoneType"
      case Bool(_) => "bool"
      case Int(_) => "int"
      case Float(_) => "float"
      case Str(_) => "str"
      case List(_) => "list"
      case Map(_) => "dict"
    }
  }

  datatype Node = Node(value: Value, origin: Origin)

  datatype Entry = Entry(key: string, node: Node)

  datatype Key = Name(s: string) | Index(i: nat)

  type KeyPath = seq<Key>

  /** Something that happened to a key path while merging. */
  datatype MergeEvent =
    | Override(path: KeyPath, was: Origin, now: Origin, wasValue: Option<Value>, wasType: string, nowType: string)
    | ListAppend(path: KeyPath, index: nat, origin: Origin)
    | Dereference(path: KeyPath, expr: string, origin: Origin)

  const EmptyMap := Node(Map([]), Synthetic)

  /** `s.contains("${")` */
  predicate HasInterpolation(s: string) {
    exists i :: 0 <= i < |s| - 1 && s[i] == '$' && s[i + 1] == '{'
  }
}
