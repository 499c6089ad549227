/**
 The struct flattener `LogStructFields` of enter.go: a walk over a struct's
 fields that maps each exported field's label (tag or name) to its value,
 nests by-value struct fields under dotted labels, and unwraps one level of
 pointer on a field.
 */
module Flattener {
  import opened Values

  /** The key and value an exported field that is not a by-value struct is logged with. */
  function LeafEntry(f: Field): (e: (string, Any))
    ensures e.0 == Label(f)
    ensures f.value == Ptr(None) ==> e.1 == None
    ensures f.value.Ptr? && f.value.target.Some? ==> e.1 == Unbox(f.value.target.value)
    ensures f.value.Iface? ==> e.1 == f.value.held
    ensures f.value.Prim? ==> e.1 == Some(f.value)
  {
    match f.value
    case Ptr(None) => (Label(f), None)
    case Ptr(Some(target)) => (Label(f), Unbox(target))
    case _ => (Label(f), Unbox(f.value))
  }

  /**
   The map updates one loop iteration of `LogStructFields` performs for field `f`:
   nothing for an unexported field, the nested flattening under `Label(f) + "."`
   for a by-value struct, and a single `Label(f)` entry otherwise.
   */
  function Contribution(f: Field): (c: map<string, Any>)
    ensures f.exported && !f.value.Struct? ==> c.Keys == {Label(f)}
    ensures f.value.Struct? ==> Label(f) !in c
    decreases f.value, 2, 0
  {
    if !f.exported then map[]
    else if f.value.Struct? then Nest(Label(f), FlattenUpTo(f.value.fields, |f.value.fields|))
    else
      var e := LeafEntry(f);
      map[e.0 := e.1]
  }

  /** The result map after the loop has visited the first `n` fields of the struct. */
  function FlattenUpTo(fs: seq<Field>, n: nat): (m: map<string, Any>)
    requires n <= |fs|
    decreases Struct(fs), 1, n
  {
    if n == 0 then map[]
    else FlattenUpTo(fs, n - 1) + Contribution(fs[n - 1])
  }

  /** The flattening of a struct with fields `fs`. */
  function Flatten(fs: seq<Field>): (m: map<string, Any>)
  {
    FlattenUpTo(fs, |fs|)
  }

  /** The value `LogStructFields` inspects: its argument after at most one pointer dereference. */
  function Inspected(arg: Any): (a: Any)
    ensures arg.None? ==> a == None
    ensures arg.Some? && arg.value.Ptr? ==> a == arg.value.target
    ensures arg.Some? && !arg.value.Ptr? ==> a == arg
  {
    match arg
    case Some(Ptr(target)) => target
    case _ => arg
  }

  /**
   `LogStructFields`: the flattening of the struct the argument is or points to;
   empty (Go's nil map) for anything else.
   */
  function LogStructFields(arg: Any): (m: map<string, Any>)
    ensures arg.None? ==> m == map[]
    ensures arg.Some? && (arg.value.Prim? || arg.value.Iface?) ==> m == map[]
    ensures arg == Some(Ptr(None)) ==> m == map[]
    ensures arg.Some? && arg.value.Ptr? && arg.value.target.Some? && !arg.value.target.value.Struct? ==> m == map[]
    ensures arg.Some? && arg.value.Struct? ==> m == Flatten(arg.value.fields)
    ensures arg.Some? && arg.value.Ptr? && arg.value.target.Some? && arg.value.target.value.Struct? ==>
              m == Flatten(arg.value.target.value.fields)
  {
    match Inspected(arg)
    case Some(Struct(fs)) => Flatten(fs)
    case _ => map[]
  }

  /** `FlattenUpTo` only looks at the fields it has visited. */
  lemma {:induction false} FlattenUpToIsPrefix(fs: seq<Field>, n: nat)
    requires n <= |fs|
    ensures FlattenUpTo(fs, n) == Flatten(fs[..n])
    decreases n
  {
    if n > 0 {
      FlattenUpToIsPrefix(fs, n - 1);
      FlattenUpToIsPrefix(fs[..n], n - 1);
      assert fs[..n][..n - 1] == fs[..n - 1];
    }
  }

  /** The loop is a left fold: one more field merges its contribution over the result so far. */
  lemma FlattenSnoc(fs: seq<Field>, f: Field)
    ensures Flatten(fs + [f]) == Flatten(fs) + Contribution(f)
  {
    FlattenUpToIsPrefix(fs + [f], |fs|);
    assert (fs + [f])[..|fs|] == fs;
  }

  /** Flattening a concatenation merges the two flattenings, the later fields winning. */
  lemma {:induction false} FlattenAppend(a: seq<Field>, b: seq<Field>)
    ensures Flatten(a + b) == Flatten(a) + Flatten(b)
    decreases |b|
  {
    if b == [] {
      assert a + b == a;
    } else {
      var b', f := b[..|b| - 1], b[|b| - 1];
      assert b == b' + [f];
      assert a + b == (a + b') + [f];
      FlattenAppend(a, b');
      FlattenSnoc(a + b', f);
      FlattenSnoc(b', f);
      UnionAssociative(Flatten(a), Flatten(b'), Contribution(f));
    }
  }

  /** Map union is associative. */
  lemma UnionAssociative<K, V>(x: map<K, V>, y: map<K, V>, z: map<K, V>)
    ensures (x + y) + z == x + (y + z)
  {
  }

  /** An unexported field contributes nothing, whatever its value: its children are never visited. */
  lemma UnexportedFieldIgnored(a: seq<Field>, f: Field, b: seq<Field>)
    requires !f.exported
    ensures Flatten(a + [f] + b) == Flatten(a + b)
  {
    FlattenAppend(a + [f], b);
    FlattenSnoc(a, f);
    FlattenAppend(a, b);
  }

  /** A struct none of whose fields is exported flattens to nothing. */
  lemma {:induction false} NothingExportedIsEmpty(fs: seq<Field>)
    requires forall i :: 0 <= i < |fs| ==> !fs[i].exported
    ensures Flatten(fs) == map[]
    decreases |fs|
  {
    if fs != [] {
      var fs', f := fs[..|fs| - 1], fs[|fs| - 1];
      assert fs == fs' + [f];
      NothingExportedIsEmpty(fs');
      FlattenSnoc(fs', f);
    }
  }

  /**
   A by-value struct field labelled `t` contributes exactly the keys `t + "." + k`
   for the keys `k` of its own flattening, with the same values, and never `t` itself.
   */
  lemma StructFieldNests(f: Field)
    requires f.exported && f.value.Struct?
    ensures var sub := Flatten(f.value.fields);
      && Contribution(f).Keys == (set k | k in sub :: Dotted(Label(f), k))
      && (forall k :: k in sub ==> Contribution(f)[Dotted(Label(f), k)] == sub[k])
      && Label(f) !in Contribution(f)
      && (sub == map[] ==> Contribution(f) == map[])
  {
  }

  /** A nil pointer field maps its label to nil. */
  lemma NilPointerField(fs: seq<Field>, f: Field)
    requires f.exported && f.value == Ptr(None)
    ensures Label(f) in Flatten(fs + [f]) && Flatten(fs + [f])[Label(f)] == None
  {
    FlattenSnoc(fs, f);
  }

  /**
   A non-nil pointer field maps its label to the pointee after one dereference,
   and to nothing else: a pointee that is a struct or another pointer is not looked into.
   */
  lemma PointerFieldDerefOnce(f: Field, target: Value)
    requires f.exported && f.value == Ptr(Some(target))
    ensures Contribution(f) == map[Label(f) := Unbox(target)]
  {
  }

  /** Any other exported field (interfaces included, even when they hold a struct) maps its label to its own value. */
  lemma PlainFieldIsLeaf(f: Field)
    requires f.exported && !f.value.Struct? && !f.value.Ptr?
    ensures Contribution(f) == map[Label(f) := Unbox(f.value)]
    ensures f.value.Iface? && f.value.held.Some? ==> Contribution(f)[Label(f)] == f.value.held
  {
  }

  /** A key is in the flattening exactly when some field contributes it. */
  lemma {:induction false} FlattenKeys(fs: seq<Field>, n: nat, k: string)
    requires n <= |fs|
    ensures k in FlattenUpTo(fs, n) <==> exists i :: 0 <= i < n && k in Contribution(fs[i])
  {
    if k in FlattenUpTo(fs, n) {
      var i := KeySource(fs, n, k);
    }
    if exists i :: 0 <= i < n && k in Contribution(fs[i]) {
      var i :| 0 <= i < n && k in Contribution(fs[i]);
      KeyKept(fs, n, i, k);
    }
  }

  /** Names a field that wrote a key found in the result. */
  lemma {:induction false} KeySource(fs: seq<Field>, n: nat, k: string) returns (i: nat)
    requires n <= |fs| && k in FlattenUpTo(fs, n)
    ensures i < n && k in Contribution(fs[i])
    decreases n
  {
    var prev, c := FlattenUpTo(fs, n - 1), Contribution(fs[n - 1]);
    assert FlattenUpTo(fs, n) == prev + c;
    if k in c {
      i := n - 1;
    } else {
      i := KeySource(fs, n - 1, k);
    }
  }

  /** A key written by a visited field stays in the result: later fields only overwrite its value. */
  lemma {:induction false} KeyKept(fs: seq<Field>, n: nat, i: nat, k: string)
    requires i < n <= |fs| && k in Contribution(fs[i])
    ensures k in FlattenUpTo(fs, n)
    decreases n
  {
    var prev, c := FlattenUpTo(fs, n - 1), Contribution(fs[n - 1]);
    assert FlattenUpTo(fs, n) == prev + c;
    if i < n - 1 {
      KeyKept(fs, n - 1, i, k);
    }
  }

  /** On colliding keys the last field in declaration order that contributes the key wins. */
  lemma {:induction false} FlattenLastWriterWins(fs: seq<Field>, n: nat, i: nat, k: string)
    requires i < n <= |fs|
    requires k in Contribution(fs[i])
    requires forall j :: i < j < n ==> k !in Contribution(fs[j])
    ensures k in FlattenUpTo(fs, n) && FlattenUpTo(fs, n)[k] == Contribution(fs[i])[k]
    decreases n
  {
    var prev, c := FlattenUpTo(fs, n - 1), Contribution(fs[n - 1]);
    assert FlattenUpTo(fs, n) == prev + c;
    if i < n - 1 {
      FlattenLastWriterWins(fs, n - 1, i, k);
      assert k !in c;
    }
  }

  /** The fields of the record `{ID int "testlog:\"id\""; Name string; Inner struct{X int}}` holding ID=7, Name="a", Inner.X=3. */
  const ExampleInner: Value := Struct([Field("X", "", true, Prim("3"))])
  const ExampleId := Field("ID", "id", true, Prim("7"))
  const ExampleName := Field("Name", "", true, Prim("a"))
  const ExampleNested := Field("Inner", "", true, ExampleInner)

  /** The by-value struct field `Inner` logs its field `X` as `Inner.X`. */
  lemma ExampleNestedField()
    ensures Contribution(ExampleNested) == map["Inner.X" := Some(Prim("3"))]
  {
    var x := ExampleInner.fields[0];
    FlattenSnoc([], x);
    assert [] + [x] == [x];
    assert Flatten([x]) == map["X" := Some(Prim("3"))];
    assert Dotted("Inner", "X") == "Inner.X";
    assert Contribution(ExampleNested).Keys == {"Inner.X"};
  }

  /** The record above logs as `id`, `Name` and `Inner.X`. */
  lemma ExampleRecord()
    ensures Flatten([ExampleId, ExampleName, ExampleNested])
      == map["id" := Some(Prim("7")), "Name" := Some(Prim("a")), "Inner.X" := Some(Prim("3"))]
  {
    var m0 := map["id" := Some(Prim("7"))];
    var m1 := m0["Name" := Some(Prim("a"))];
    assert Flatten([ExampleId]) == m0 by {
      FlattenSnoc([], ExampleId);
      assert [] + [ExampleId] == [ExampleId];
    }
    assert Flatten([ExampleId, ExampleName]) == m1 by {
      FlattenSnoc([ExampleId], ExampleName);
      assert [ExampleId] + [ExampleName] == [ExampleId, ExampleName];
    }
    ExampleNestedField();
    FlattenSnoc([ExampleId, ExampleName], ExampleNested);
    assert [ExampleId, ExampleName] + [ExampleNested] == [ExampleId, ExampleName, ExampleNested];
  }

  /**
   Extending the record with an unexported field, a pointer to a struct and a
   second field tagged `id`, passed by pointer: the unexported field is dropped,
   the pointer is one leaf holding the struct, and the later `id` wins.
   */
  lemma ExampleRecordExtended()
    ensures LogStructFields(Some(Ptr(Some(Struct([ExampleId, ExampleName, ExampleNested,
        Field("secret", "", false, Prim("x")),
        Field("Ref", "", true, Ptr(Some(ExampleInner))),
        Field("Again", "id", true, Prim("8"))])))))
      == map["id" := Some(Prim("8")), "Name" := Some(Prim("a")), "Inner.X" := Some(Prim("3")), "Ref" := Some(ExampleInner)]
  {
    var head := [ExampleId, ExampleName, ExampleNested];
    var f3, f4, f5 := Field("secret", "", false, Prim("x")), Field("Ref", "", true, Ptr(Some(ExampleInner))), Field("Again", "id", true, Prim("8"));
    var m2 := map["id" := Some(Prim("7")), "Name" := Some(Prim("a")), "Inner.X" := Some(Prim("3"))];
    ExampleRecord();
    var m4 := m2["Ref" := Some(ExampleInner)];
    assert Flatten(head + [f3]) == m2 by {
      FlattenSnoc(head, f3);
    }
    assert Flatten(head + [f3, f4]) == m4 by {
      PointerFieldDerefOnce(f4, ExampleInner);
      FlattenSnoc(head + [f3], f4);
      assert head + [f3] + [f4] == head + [f3, f4];
    }
    assert Contribution(f5) == map["id" := Some(Prim("8"))];
    FlattenSnoc(head + [f3, f4], f5);
    assert head + [f3, f4] + [f5] == [ExampleId, ExampleName, ExampleNested, f3, f4, f5];
  }
}
