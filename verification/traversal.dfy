/**
 A second, declarative reading of the flattener: walk the struct depth-first in
 declaration order, list every (dotted path, value) pair an exported leaf emits,
 and let the last pair emitted for a key win. `FlattenIsTraversal` proves that the
 nested-map merge of `LogStructFields` computes exactly this.
 */
module Traversal {
  import opened Values
  import opened Flattener

  type Entry = (string, Any)

  /**
   The pairs field `f` emits, depth-first: none when unexported, the one leaf
   pair of `LeafEntry` for a non-struct, and for a by-value struct its own
   pairs, each under a path that starts with the field's label and a dot.
   */
  function FieldEmissions(f: Field): (es: seq<Entry>)
    ensures !f.exported ==> es == []
    ensures f.exported && !f.value.Struct? ==> |es| == 1 && es[0].0 == Label(f)
    ensures f.exported && f.value.Struct? ==> forall i :: 0 <= i < |es| ==>
              |Label(f)| < |es[i].0| && es[i].0[..|Label(f)|] == Label(f) && es[i].0[|Label(f)|] == '.'
    decreases f.value, 2, 0
  {
    if !f.exported then []
    else if f.value.Struct? then NestAll(Label(f), Emissions(f.value.fields, |f.value.fields|))
    else [LeafEntry(f)]
  }

  /** The pairs the first `n` fields of a struct emit, in traversal order. */
  function Emissions(fs: seq<Field>, n: nat): (es: seq<Entry>)
    requires n <= |fs|
    decreases Struct(fs), 1, n
  {
    if n == 0 then []
    else Emissions(fs, n - 1) + FieldEmissions(fs[n - 1])
  }

  /** Each pair's key placed under label `t`. */
  function NestAll(t: string, es: seq<Entry>): (r: seq<Entry>)
    ensures |r| == |es|
    ensures forall i :: 0 <= i < |es| ==> r[i] == (Dotted(t, es[i].0), es[i].1)
  {
    if es == [] then [] else NestAll(t, es[..|es| - 1]) + [(Dotted(t, es[|es| - 1].0), es[|es| - 1].1)]
  }

  /** The map built by applying the pairs as updates in order: the last pair for a key wins. */
  function LastWins(es: seq<Entry>): (m: map<string, Any>)
  {
    if es == [] then map[] else LastWins(es[..|es| - 1])[es[|es| - 1].0 := es[|es| - 1].1]
  }

  /** A key is present exactly when some pair carries it. */
  lemma {:induction false} LastWinsKeys(es: seq<Entry>)
    ensures LastWins(es).Keys == set i | 0 <= i < |es| :: es[i].0
    decreases |es|
  {
    if es != [] {
      var es' := es[..|es| - 1];
      LastWinsKeys(es');
      assert (set i | 0 <= i < |es| :: es[i].0) == (set i | 0 <= i < |es'| :: es'[i].0) + {es[|es| - 1].0};
    }
  }

  /** The value of a key is the value of the last pair carrying it. */
  lemma {:induction false} LastWinsValue(es: seq<Entry>, i: nat)
    requires i < |es|
    requires forall j :: i < j < |es| ==> es[j].0 != es[i].0
    ensures es[i].0 in LastWins(es) && LastWins(es)[es[i].0] == es[i].1
    decreases |es|
  {
    if i < |es| - 1 {
      LastWinsValue(es[..|es| - 1], i);
    }
  }

  /** Distinct keys give one map entry per pair; in general there are never more entries than pairs. */
  lemma {:induction false} LastWinsSize(es: seq<Entry>)
    ensures |LastWins(es)| <= |es|
    ensures (forall i, j :: 0 <= i < j < |es| ==> es[i].0 != es[j].0) ==> |LastWins(es)| == |es|
    decreases |es|
  {
    if es != [] {
      var es' := es[..|es| - 1];
      LastWinsSize(es');
      if forall i, j :: 0 <= i < j < |es| ==> es[i].0 != es[j].0 {
        LastWinsKeys(es');
        assert es[|es| - 1].0 !in LastWins(es');
      }
    }
  }

  /** Applying `a` then `b` is the merge of their maps, `b` winning. */
  lemma {:induction false} LastWinsAppend(a: seq<Entry>, b: seq<Entry>)
    ensures LastWins(a + b) == LastWins(a) + LastWins(b)
    decreases |b|
  {
    if b == [] {
      assert a + b == a;
    } else {
      var b' := b[..|b| - 1];
      assert (a + b)[..|a + b| - 1] == a + b';
      LastWinsAppend(a, b');
    }
  }

  /** Placing every pair under `t` and then building the map is placing the built map under `t`. */
  lemma {:induction false} LastWinsNest(t: string, es: seq<Entry>)
    ensures LastWins(NestAll(t, es)) == Nest(t, LastWins(es))
    decreases |es|
  {
    if es != [] {
      var es' := es[..|es| - 1];
      var r := NestAll(t, es);
      assert r[..|r| - 1] == NestAll(t, es');
      LastWinsNest(t, es');
      var e := es[|es| - 1];
      assert r[|r| - 1] == (Dotted(t, e.0), e.1);
      NestUpdate(t, LastWins(es'), e.0, e.1);
    }
  }

  /** Placing a map under `t` commutes with writing one key. */
  lemma NestUpdate(t: string, m: map<string, Any>, k: string, v: Any)
    ensures Nest(t, m[k := v]) == Nest(t, m)[Dotted(t, k) := v]
  {
  }

  /** One field's contribution is the last-wins map of the pairs it emits. */
  lemma {:induction false} ContributionIsTraversal(f: Field)
    ensures Contribution(f) == LastWins(FieldEmissions(f))
    decreases f.value, 2, 0
  {
    if f.exported && f.value.Struct? {
      var sub := f.value.fields;
      PrefixIsTraversal(sub, |sub|);
      LastWinsNest(Label(f), Emissions(sub, |sub|));
    } else if f.exported {
      assert FieldEmissions(f) == [LeafEntry(f)];
      assert FieldEmissions(f)[..0] == [];
    }
  }

  /** After `n` fields, the loop's map is the last-wins map of the pairs those fields emit. */
  lemma {:induction false} PrefixIsTraversal(fs: seq<Field>, n: nat)
    requires n <= |fs|
    ensures FlattenUpTo(fs, n) == LastWins(Emissions(fs, n))
    decreases Struct(fs), 1, n
  {
    if n > 0 {
      PrefixIsTraversal(fs, n - 1);
      ContributionIsTraversal(fs[n - 1]);
      LastWinsAppend(Emissions(fs, n - 1), FieldEmissions(fs[n - 1]));
    }
  }

  /**
   The flattening maps each dotted path emitted by an exported leaf to the value
   of the last leaf emitting it in depth-first declaration order, and holds no other key.
   */
  lemma FlattenIsTraversal(fs: seq<Field>)
    ensures Flatten(fs) == LastWins(Emissions(fs, |fs|))
    ensures Flatten(fs).Keys == set i | 0 <= i < |Emissions(fs, |fs|)| :: Emissions(fs, |fs|)[i].0
    ensures |Flatten(fs)| <= |Emissions(fs, |fs|)|
  {
    PrefixIsTraversal(fs, |fs|);
    LastWinsKeys(Emissions(fs, |fs|));
    LastWinsSize(Emissions(fs, |fs|));
  }

  /** When no two leaves share a dotted path, every exported leaf appears exactly once. */
  lemma EachLeafOnce(fs: seq<Field>)
    requires var es := Emissions(fs, |fs|); forall i, j :: 0 <= i < j < |es| ==> es[i].0 != es[j].0
    ensures var es := Emissions(fs, |fs|);
      && |Flatten(fs)| == |es|
      && forall i :: 0 <= i < |es| ==> es[i].0 in Flatten(fs) && Flatten(fs)[es[i].0] == es[i].1
  {
    var es := Emissions(fs, |fs|);
    PrefixIsTraversal(fs, |fs|);
    LastWinsSize(es);
    forall i | 0 <= i < |es|
      ensures es[i].0 in Flatten(fs) && Flatten(fs)[es[i].0] == es[i].1
    {
      LastWinsValue(es, i);
    }
  }
}
