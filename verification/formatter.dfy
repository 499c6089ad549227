/**
 The formatter `LogStruct` of enter.go: one `key: value` line per entry of the
 flattened map. Go randomises map iteration, so the order the keys are visited
 in is a nondeterministic choice here; `%v` rendering is the parameter `render`.
 */
module Formatter {
  import opened Values
  import opened Flattener

  /** The line written for key `k` whose value renders as `text`. */
  function Line(k: string, text: string): (l: string)
    ensures |l| == |k| + |text| + 3
  {
    k + ": " + text + "\n"
  }

  /** A line reads back as its key, the separator `": "`, the rendered value and a newline. */
  lemma LineShape(k: string, text: string)
    ensures var l := Line(k, text);
      && l[..|k|] == k && l[|k|..|k| + 2] == ": " && l[|k| + 2..|l| - 1] == text && l[|l| - 1] == '\n'
  {
  }

  /** `order` lists every key of `m` exactly once: one possible iteration order of the map. */
  predicate IsIterationOrder(order: seq<string>, m: map<string, Any>)
  {
    && (forall i, j :: 0 <= i < j < |order| ==> order[i] != order[j])
    && (forall i :: 0 <= i < |order| ==> order[i] in m)
    && (forall k :: k in m ==> k in order)
  }

  /** The line written when key `k` of `m` is visited (keys outside `m` are never visited). */
  function EntryLine(m: map<string, Any>, k: string, render: Any -> string): (l: string)
    ensures k in m ==> l == Line(k, render(m[k]))
  {
    if k in m then Line(k, render(m[k])) else ""
  }

  /** The lines written when the keys of `m` are visited in `order`. */
  function Lines(m: map<string, Any>, order: seq<string>, render: Any -> string): seq<string>
  {
    if order == [] then []
    else Lines(m, order[..|order| - 1], render) + [EntryLine(m, order[|order| - 1], render)]
  }

  /** The `i`-th line written is the line of the `i`-th key visited. */
  lemma {:induction false} LinesPointwise(m: map<string, Any>, order: seq<string>, render: Any -> string)
    ensures |Lines(m, order, render)| == |order|
    ensures forall i :: 0 <= i < |order| ==> Lines(m, order, render)[i] == EntryLine(m, order[i], render)
    decreases |order|
  {
    if order != [] {
      LinesPointwise(m, order[..|order| - 1], render);
    }
  }

  /** The lines written one after the other. */
  function Concat(ls: seq<string>): (s: string)
    ensures s == "" <==> forall i :: 0 <= i < |ls| ==> ls[i] == ""
  {
    if ls == [] then "" else Concat(ls[..|ls| - 1]) + ls[|ls| - 1]
  }

  /**
   `LogStruct`: the flattening of `arg` written as one line per entry, in an
   unspecified iteration order `order`; the empty string when there is nothing to log.
   */
  method LogStruct(arg: Any, render: Any -> string) returns (s: string, ghost order: seq<string>)
    ensures IsIterationOrder(order, LogStructFields(arg))
    ensures s == Concat(Lines(LogStructFields(arg), order, render))
    ensures s == "" <==> LogStructFields(arg) == map[]
  {
    s, order := WriteEntries(LogStructFields(arg), render);
  }

  /** The loop of `LogStruct`: write each entry of `m` once, picking the next key arbitrarily. */
  method WriteEntries(m: map<string, Any>, render: Any -> string) returns (s: string, ghost order: seq<string>)
    ensures IsIterationOrder(order, m)
    ensures s == Concat(Lines(m, order, render))
    ensures s == "" <==> m == map[]
  {
    var remaining := m.Keys;
    s, order := "", [];
    while remaining != {}
      invariant remaining <= m.Keys
      invariant forall i :: 0 <= i < |order| ==> order[i] in m && order[i] !in remaining
      invariant forall i, j :: 0 <= i < j < |order| ==> order[i] != order[j]
      invariant forall k :: k in m ==> k in remaining || k in order
      invariant s == Concat(Lines(m, order, render))
      decreases remaining
    {
      var k :| k in remaining;
      WriteStep(m, order, k, render);
      s, order := s + Line(k, render(m[k])), order + [k];
      remaining := remaining - {k};
    }
    NothingWrittenIffEmpty(m, order, render);
  }

  /** The output is empty exactly when the map is: every line is at least `": \n"`. */
  lemma NothingWrittenIffEmpty(m: map<string, Any>, order: seq<string>, render: Any -> string)
    requires IsIterationOrder(order, m)
    ensures Concat(Lines(m, order, render)) == "" <==> m == map[]
  {
  }

  /** One more visited key appends its line to the output. */
  lemma WriteStep(m: map<string, Any>, order: seq<string>, k: string, render: Any -> string)
    ensures Concat(Lines(m, order + [k], render)) == Concat(Lines(m, order, render)) + EntryLine(m, k, render)
  {
  }

  /** A sequence without repeats has as many distinct elements as positions. */
  lemma {:induction false} NoDuplicatesCardinality(order: seq<string>)
    requires forall i, j :: 0 <= i < j < |order| ==> order[i] != order[j]
    ensures multiset(order) == multiset(set i | 0 <= i < |order| :: order[i])
    ensures |set i | 0 <= i < |order| :: order[i]| == |order|
    decreases |order|
  {
    if order != [] {
      var o', k := order[..|order| - 1], order[|order| - 1];
      assert order == o' + [k];
      NoDuplicatesCardinality(o');
      var s' := set i | 0 <= i < |o'| :: o'[i];
      assert (set i | 0 <= i < |order| :: order[i]) == s' + {k};
      assert k !in s';
    }
  }

  /** A Go map iteration visits exactly as many keys as the map holds. */
  lemma IterationOrderLength(order: seq<string>, m: map<string, Any>)
    requires IsIterationOrder(order, m)
    ensures |order| == |m|
    ensures multiset(order) == multiset(m.Keys)
  {
    NoDuplicatesCardinality(order);
    assert (set i | 0 <= i < |order| :: order[i]) == m.Keys;
  }

  /** Visiting `a` then `b` writes the lines of `a` then those of `b`. */
  lemma LinesAppend(m: map<string, Any>, a: seq<string>, b: seq<string>, render: Any -> string)
    ensures Lines(m, a + b, render) == Lines(m, a, render) + Lines(m, b, render)
  {
    LinesPointwise(m, a + b, render);
    LinesPointwise(m, a, render);
    LinesPointwise(m, b, render);
  }

  /** Taking one key out of the visiting order takes its line out of the output. */
  lemma LinesRemoveAt(m: map<string, Any>, o: seq<string>, j: nat, render: Any -> string)
    requires j < |o|
    ensures multiset(o) == multiset(o[..j] + o[j + 1..]) + multiset{o[j]}
    ensures multiset(Lines(m, o, render)) == multiset(Lines(m, o[..j] + o[j + 1..], render)) + multiset{EntryLine(m, o[j], render)}
  {
    var a, b := o[..j], o[j + 1..];
    assert o == a + [o[j]] + b;
    LinesAppend(m, a + [o[j]], b, render);
    LinesAppend(m, a, [o[j]], render);
    LinesAppend(m, a, b, render);
  }

  /** Two sequences with the same elements still agree after removing one occurrence of the same element from each. */
  lemma RemoveLastAndAt<T>(o1: seq<T>, o2: seq<T>, j: nat)
    requires multiset(o1) == multiset(o2) && o1 != [] && j < |o2| && o2[j] == o1[|o1| - 1]
    ensures multiset(o1[..|o1| - 1]) == multiset(o2[..j] + o2[j + 1..])
  {
    var k := o1[|o1| - 1];
    assert o1 == o1[..|o1| - 1] + [k];
    assert o2 == o2[..j] + [k] + o2[j + 1..];
    assert multiset(o2) == multiset(o2[..j]) + multiset{k} + multiset(o2[j + 1..]);
    assert multiset(o1[..|o1| - 1]) == multiset(o1) - multiset{k};
  }

  /** Visiting the same keys in another order writes the same lines, rearranged. */
  lemma {:induction false} LinesPermute(m: map<string, Any>, o1: seq<string>, o2: seq<string>, render: Any -> string)
    requires multiset(o1) == multiset(o2)
    ensures multiset(Lines(m, o1, render)) == multiset(Lines(m, o2, render))
    decreases |o1|
  {
    if o1 != [] {
      var o1', k := o1[..|o1| - 1], o1[|o1| - 1];
      assert k in multiset(o2);
      var j :| 0 <= j < |o2| && o2[j] == k;
      var o2' := o2[..j] + o2[j + 1..];
      RemoveLastAndAt(o1, o2, j);
      LinesPermute(m, o1', o2', render);
      LinesRemoveAt(m, o2, j, render);
      LinesRemoveAt(m, o1, |o1| - 1, render);
      assert o1[..|o1| - 1] + o1[|o1|..] == o1';
    }
  }

  /** Along an iteration order, the `i`-th line is the line of the `i`-th key's entry. */
  lemma LinesOfOrder(m: map<string, Any>, o: seq<string>, render: Any -> string)
    requires IsIterationOrder(o, m)
    ensures |Lines(m, o, render)| == |o|
    ensures forall i :: 0 <= i < |o| ==> Lines(m, o, render)[i] == Line(o[i], render(m[o[i]]))
  {
    LinesPointwise(m, o, render);
  }

  /** Along an iteration order, every entry's line is written and no other line is. */
  lemma LinesCoverEntries(m: map<string, Any>, o: seq<string>, render: Any -> string)
    requires IsIterationOrder(o, m)
    ensures forall k :: k in m ==> Line(k, render(m[k])) in Lines(m, o, render)
    ensures forall l :: l in Lines(m, o, render) ==> exists k :: k in m && l == Line(k, render(m[k]))
  {
    var ls := Lines(m, o, render);
    LinesOfOrder(m, o, render);
    forall k | k in m
      ensures Line(k, render(m[k])) in ls
    {
      var i :| 0 <= i < |o| && o[i] == k;
      assert ls[i] == Line(k, render(m[k]));
    }
    forall l | l in ls
      ensures exists k :: k in m && l == Line(k, render(m[k]))
    {
      var i :| 0 <= i < |ls| && ls[i] == l;
      assert o[i] in m && l == Line(o[i], render(m[o[i]]));
    }
  }

  /**
   Whatever order the map is iterated in, `LogStruct` writes exactly one line
   `k + ": " + render(v)` per entry `k: v` of the flattening, and no other line.
   */
  lemma LinesPerEntry(m: map<string, Any>, o1: seq<string>, o2: seq<string>, render: Any -> string)
    requires IsIterationOrder(o1, m) && IsIterationOrder(o2, m)
    ensures && |Lines(m, o1, render)| == |o1| == |m|
      && (forall i :: 0 <= i < |o1| ==> Lines(m, o1, render)[i] == Line(o1[i], render(m[o1[i]])))
      && multiset(Lines(m, o1, render)) == multiset(Lines(m, o2, render))
      && (forall k :: k in m ==> Line(k, render(m[k])) in Lines(m, o1, render))
      && (forall l :: l in Lines(m, o1, render) ==> exists k :: k in m && l == Line(k, render(m[k])))
  {
    LinesOfOrder(m, o1, render);
    LinesCoverEntries(m, o1, render);
    assert multiset(Lines(m, o1, render)) == multiset(Lines(m, o2, render)) by {
      IterationOrderLength(o1, m);
      IterationOrderLength(o2, m);
      LinesPermute(m, o1, o2, render);
    }
    IterationOrderLength(o1, m);
  }
}
