/**
 The runtime values the struct flattener inspects, with Go's reflection replaced
 by an explicit value tree. A Go `interface{}` is an `Any`: either nil or one
 dynamic value.
 */
module Values {

  datatype Option<+T> = None | Some(value: T)

  /** A Go value, classified by the reflect kinds the flattener distinguishes. */
  datatype Value =
    | Struct(fields: seq<Field>)   // kind Struct: the fields in declaration order
    | Ptr(target: Option<Value>)   // kind Ptr: None is a nil pointer
    | Iface(held: Option<Value>)   // kind Interface (an interface-typed slot): None is a nil interface
    | Prim(repr: string)           // every other kind (numbers, strings, slices, maps, ...), opaque

  /**
   A struct field: its declared name, the value of its `testlog` struct tag
   ("" when the tag is absent or empty), whether it is exported, and its value.
   */
  datatype Field = Field(name: string, tag: string, exported: bool, value: Value)

  /** Go's `interface{}`: None is nil. */
  type Any = Option<Value>

  /** The key a field is logged under: its `testlog` tag, or its name when the tag is empty. */
  function Label(f: Field): (t: string)
    ensures f.tag != "" ==> t == f.tag
    ensures f.tag == "" ==> t == f.name
  {
    if f.tag == "" then f.name else f.tag
  }

  /**
   What `reflect.Value.Interface()` hands back: an interface-kind value yields
   the dynamic value it holds (nil for a nil interface); anything else yields itself.
   */
  function Unbox(v: Value): (a: Any)
    ensures v.Iface? ==> a == v.held
    ensures !v.Iface? ==> a == Some(v)
  {
    match v
    case Iface(held) => held
    case _ => Some(v)
  }

  /** The dotted path of key `k` nested under label `t`. */
  function Dotted(t: string, k: string): (p: string)
    ensures |p| == |t| + 1 + |k|
    ensures p[..|t|] == t && p[|t|] == '.' && p[|t| + 1..] == k
  {
    t + "." + k
  }

  /** Distinct nested keys stay distinct once placed under the same label. */
  lemma DottedInjective(t: string)
    ensures forall k1, k2 :: Dotted(t, k1) == Dotted(t, k2) ==> k1 == k2
  {
  }

  /** Every key of `m` placed under label `t`, with its value unchanged. */
  function Nest(t: string, m: map<string, Any>): (r: map<string, Any>)
    ensures forall k :: k in m ==> Dotted(t, k) in r && r[Dotted(t, k)] == m[k]
    ensures forall p :: p in r ==> exists k :: k in m && p == Dotted(t, k)
    ensures t !in r
  {
    DottedInjective(t);
    map k | k in m :: Dotted(t, k) := m[k]
  }
}
