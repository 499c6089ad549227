# structlog in Dafny

A model of `structlog`, a Go package that logs the fields of a struct through
reflection. It has two operations:

- `LogStructFields` flattens a struct, or a pointer to one, into a map from labels
  to values. A field's label is its `testlog` tag, or its declared name when the tag
  is empty. Unexported fields are skipped. A by-value struct field is flattened in
  turn and its keys are placed under `label.`. A pointer field is dereferenced once:
  a nil pointer logs nil, and any other pointer logs its pointee as one leaf. Every
  other field logs its own value. Later fields overwrite earlier ones on equal keys.
- `LogStruct` writes one `key: value` line per map entry, in Go's map order.

Reflection is replaced by an explicit value tree (`values.dfy`). `Value` is one of
`Struct(fields)`, `Ptr(target)`, `Iface(held)` (an interface-typed slot) or `Prim`
(any other kind, opaque). `Field` carries `name`, `tag`, `exported` and `value`.
Go's `interface{}` is `Any = Option<Value>`, where `None` is nil.

- `flattener.dfy` holds the flattener as the Go loop computes it. `FlattenUpTo(fs, n)`
  is the result map after the first `n` loop iterations. `Contribution(f)` is what
  one iteration writes.
- `traversal.dfy` is a second reading of the same function: list every leaf's
  dotted path and value depth-first, and let the last pair for a key win.
  `FlattenIsTraversal` proves that the Go-style merge of nested maps computes exactly
  this. The merge and the nesting are read independently; the value of a single leaf
  is `LeafEntry` in both readings.
- `formatter.dfy` models `LogStruct`. The method picks each next key with `:|`, which
  stands for Go's randomised map iteration. `%v` is the parameter `render`.

The model follows the code in three places where a reader of the package's
documentation might expect otherwise:

- A pointer field whose target is a struct is one leaf holding the struct. It is not
  flattened.
- An interface-typed field holding a struct is one leaf too. Its reflect kind is
  `Interface`, not `Struct`.
- Formatter lines come in map iteration order, not traversal order.

Because the code only recurses into exported by-value structs, a struct field that
has no exported fields of its own logs nothing at all. `time.Time` is one such field.

## Model

| member | source | states |
|---|---|---|
| Values.Label | enter.go:39-43 | a field's key is its `testlog` tag when that tag is non-empty, and its declared name otherwise |
| Values.Unbox | enter.go:68 | `Interface()` on an interface-kind slot yields the value it holds (nil for a nil interface); any other value yields itself |
| Values.Nest | enter.go:53-55 | each nested key `k` becomes `t + "." + k` with the same value; nothing else is a key, and the bare label `t` never is |
| Values.Dotted | enter.go:54 | the nested key is the label, a `.`, then the inner key: the label is a prefix, the dot sits right after it, and the inner key is the rest |
| Values.DottedInjective | enter.go:54 | distinct nested keys stay distinct under one label, so re-keying a nested map loses no entry |
| Flattener.LeafEntry | enter.go:59-68 | a nil pointer logs nil; a non-nil pointer logs its pointee; an interface logs its held value; any other kind logs itself, always under the field's label |
| Flattener.Contribution | enter.go:45-68 | a non-struct exported field writes exactly its label; a by-value struct field never writes its bare label |
| Flattener.FlattenUpTo | enter.go:35-71 | the result map after the loop's first `n` iterations; it has no contract of its own, and its properties are the fold lemmas below (`FlattenUpToIsPrefix`, `FlattenSnoc`, `FlattenKeys`, `FlattenLastWriterWins`) |
| Flattener.Flatten | enter.go:35-71 | the map the whole loop returns; it has no contract of its own, and its properties are in `FlattenAppend`, `UnexportedFieldIgnored`, `NothingExportedIsEmpty` and `Traversal.FlattenIsTraversal` |
| Flattener.FlattenUpToIsPrefix | enter.go:35-69 | after `n` iterations the map depends only on the first `n` fields, and equals the flattening of that prefix |
| Flattener.Inspected | enter.go:23-26 | nil stays nil; a pointer argument is dereferenced once (a nil pointer gives nil); any other argument is inspected as it is |
| Flattener.LogStructFields | enter.go:22-30 | nil, non-struct values, nil pointers and pointers to non-structs (pointer-to-pointer included) give the empty map; a struct, or a pointer to one after one dereference, gives its flattening |
| Flattener.FlattenSnoc | enter.go:35-69 | the loop is a left fold: one more field merges its writes over the result so far, and they win on equal keys |
| Flattener.FlattenAppend | enter.go:35-69 | flattening a concatenation of field lists is the merge of the two flattenings, the later list winning |
| Flattener.UnexportedFieldIgnored | enter.go:45-48 | an unexported field, whatever its value (a struct included), can be removed without changing the result: its children are never visited |
| Flattener.NothingExportedIsEmpty | enter.go:45-48 | a struct with no exported field flattens to the empty map |
| Flattener.StructFieldNests | enter.go:50-56 | a by-value struct field labelled `t` writes exactly the keys `t + "." + k` for the keys `k` of its own flattening, with the same values, never `t` itself, and nothing when its flattening is empty |
| Flattener.NilPointerField | enter.go:60-63 | a nil pointer field maps its label to nil |
| Flattener.PointerFieldDerefOnce | enter.go:60-68 | a non-nil pointer field writes only its label, mapped to the pointee after one dereference, even when the pointee is a struct or a pointer |
| Flattener.PlainFieldIsLeaf | enter.go:68 | any other exported field writes only its label, mapped to its own value; an interface holding a struct is such a leaf |
| Flattener.FlattenKeys | enter.go:35-69 | a key is in the result exactly when some field writes it: no key appears that no field set |
| Flattener.FlattenLastWriterWins | enter.go:35-69 | on colliding keys, the value is the one written by the last field in declaration order that writes the key |
| Flattener.ExampleNestedField | enter.go:50-56 | a by-value struct field `Inner` holding `X=3` writes exactly `Inner.X: 3` |
| Flattener.ExampleRecord | enter.go:22-72 | the record `{ID "id"; Name; Inner{X}}` with 7, "a", 3 flattens to `{id: 7, Name: a, Inner.X: 3}` |
| Flattener.ExampleRecordExtended | enter.go:22-72 | passed by pointer and extended with an unexported field, a pointer to a struct and a second `id` field, the record logs the pointer as one leaf, drops the unexported field and keeps the later `id` |
| Traversal.FieldEmissions | enter.go:45-68 | an unexported field emits nothing; a non-struct exported field emits exactly one pair, keyed by its label; every pair a by-value struct field emits is keyed by a path that starts with the field's label followed by a dot |
| Traversal.FlattenIsTraversal | enter.go:22-72 | the flattening equals the last-writer-wins map of all leaf pairs emitted depth-first in declaration order; its keys are exactly the emitted dotted paths; it has no more entries than there are leaves |
| Traversal.EachLeafOnce | enter.go:35-69 | when no two leaves share a dotted path, every exported leaf appears exactly once, under its full dotted path and with its own value |
| Traversal.ContributionIsTraversal | enter.go:50-56 | nesting a field's flattened map under its label is the same as nesting each of its leaf pairs one by one |
| Traversal.LastWinsValue | enter.go:53-54 | in a sequence of map writes, a key holds the value of its last write |
| Formatter.LogStruct | enter.go:82-94 | the output is the lines of the flattening's entries, each key visited once in some order; it is empty exactly when the flattening is empty, so non-struct input writes nothing |
| Formatter.Line | enter.go:87-90 | the line for a key is the key, `": "`, the rendered value and a newline, so it is 3 characters longer than key and value together |
| Formatter.LineShape | enter.go:87-90 | a line splits back into its key, the `": "` separator, the rendered value and the final newline at fixed positions |
| Formatter.IsIterationOrder | enter.go:86 | what Go's `range` over a map promises and nothing more: every key of the map is visited, each exactly once, and only keys of the map; the order is otherwise free |
| Formatter.EntryLine | enter.go:87-90 | visiting a key of the map writes that key's line with its rendered value |
| Formatter.Lines | enter.go:86-91 | the lines written along a visiting order; it has no contract of its own, and its properties are in `LinesPointwise`, `LinesAppend`, `LinesPermute` and `LinesPerEntry` |
| Formatter.LinesPointwise | enter.go:86-91 | as many lines are written as keys are visited, and the `i`-th line is the line of the `i`-th key |
| Formatter.LinesOfOrder | enter.go:86-91 | along an iteration order of the map, the `i`-th line is the `i`-th key, `": "`, its rendered value and a newline |
| Formatter.LinesCoverEntries | enter.go:86-91 | along an iteration order, every entry's line is written, and every written line is the line of some entry |
| Formatter.Concat | enter.go:84-93 | the builder's output is the lines written one after the other; it is empty exactly when every line is empty |
| Formatter.WriteEntries | enter.go:84-93 | the loop visits every key of the map exactly once, appends one line per key, and writes nothing only for the empty map |
| Formatter.NothingWrittenIffEmpty | enter.go:86-91 | every entry writes a non-empty line, so the output is empty exactly when the map is |
| Formatter.IterationOrderLength | enter.go:86 | an iteration of the map visits exactly as many keys as the map holds, each once |
| Formatter.LinesPermute | enter.go:86-91 | visiting the same keys in another order writes the same lines, rearranged |
| Formatter.LinesPerEntry | enter.go:86-91 | for any iteration order, the `i`-th line is `k + ": " + render(v)` for the `i`-th key `k` and its value `v`, so there is one line per entry; there are `|m|` lines, no other line, and the same multiset of lines as any other order |

## Left out

- Go reflection mechanics: `reflect.ValueOf`, `Kind`, `Elem`, `NumField` and `Field` are replaced by the explicit `Value` and `Field` datatypes.
- Struct-tag parsing: `Field.tag` holds what `Tag.Get("testlog")` returns. That is `""` both when the tag is absent and when it is empty.
- `CanInterface`: it is modelled as `Field.exported`. Each nested struct is re-entered through `Interface()`, which clears the read-only flag, so the per-field flag decides alone.
- `fmt.Sprintf("%v", ...)` rendering: this foreign formatter is the uninterpreted parameter `render`.
- Go map iteration order: it is randomised, so `LogStruct` picks keys nondeterministically. Its properties are stated for every order and as multisets of lines.
- `strings.Builder` buffering: it is plain string concatenation.
- Nil map versus empty map: Go returns a nil map for non-struct input, and a nil map reads as empty. Both are `map[]` here.
- Interface-valued arguments: an `interface{}` argument never holds an interface, because Go unwraps it at the call. The model treats an `Iface` argument as a non-struct.
- Nested interfaces: Go interfaces never hold interfaces. The datatype does not forbid `Iface(Some(Iface(...)))`, and no property depends on this.
- Self-referential by-value struct types: Go rejects them. Every `Value` is a finite tree, so the recursion terminates structurally.
- Parsing `LogStruct`'s output back into a map: `render` may produce text containing `": "` or newlines, so the output cannot be parsed back in general.
