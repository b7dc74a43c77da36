/**
 * The walk `post_resource` makes over a new resource before inserting it:
 * `traverse_obj` visits every value of a dict, `process_dictionary` handles
 * a nested dict (walk its own values first, then give it an `id` and insert
 * it if it has none), and `get_all_complex_objects` decides whether a nested
 * dict has anything to walk at all.
 *
 * The dicts are updated in place in the source; here each walk returns the
 * updated value, the resources it inserted in order (each as the dict it
 * was at the moment of its insert) and the number of identifiers drawn so
 * far. The `k`-th identifier ever drawn becomes the IRI `Iri(m, k)` once
 * `prepare_jsonld` has rewritten it.
 */
module Traversal {
  import opened Wrappers
  import opened Json
  import opened Static
  import opened Routing
  import opened Utils

  /** What `build_instance_uri` needs: the URL test and the prefix of new IRIs. */
  datatype Minter = Minter(isUrl: string -> bool, uriPrefix: string)

  /** The IRI a resource ends up with when it is given the `k`-th fresh identifier. */
  function Iri(m: Minter, k: nat): string {
    BuildInstanceUri(m.isUrl, m.uriPrefix, FreshId(k))
  }

  /** The outcome of a walk: the new value, the inserts made, the next identifier to draw. */
  datatype Walk<T> = Walk(out: T, log: seq<Fields>, next: nat)

  /**
   * The values the walk can handle: an element of a list is a primitive or a
   * dict. `None` or a list inside a list reaches `process_dictionary`, whose
   * `.items()` raises.
   */
  predicate Walkable(v: Json)
    decreases v
  {
    match v
    case Arr(items) => forall i :: 0 <= i < |items| ==> (IsPrimitive(items[i]) || items[i].Obj?) && Walkable(items[i])
    case Obj(fs) => forall i :: 0 <= i < |fs| ==> Walkable(fs[i].1)
    case _ => true
  }

  /** Every dict reachable in `v` (through dict values and list elements), `v` included, has an `id`. */
  predicate Identified(v: Json)
    decreases v, 2
  {
    match v
    case Arr(items) => forall i :: 0 <= i < |items| ==> Identified(items[i])
    case Obj(fs) => HasKey(fs, IdKey) && AllIdentified(fs)
    case _ => true
  }

  /** Every value of the dict `fs` is identified. */
  predicate AllIdentified(fs: Fields)
    decreases Obj(fs), 1
  {
    forall i :: 0 <= i < |fs| ==> Identified(fs[i].1)
  }

  // The number of dicts without an `id` that the walk reaches, counted the same way.

  function MissingDict(g: Fields): nat
    decreases Obj(g), 1, 0
  {
    (if HasKey(g, IdKey) then 0 else 1) + MissingFields(g, |g|)
  }

  function MissingFields(fs: Fields, i: nat): nat
    requires i <= |fs|
    decreases Obj(fs), 0, i
  {
    if i == 0 then 0
    else
      assert fs[i - 1] in fs;
      MissingFields(fs, i - 1) + MissingValue(fs[i - 1].1)
  }

  function MissingValue(v: Json): nat
    decreases v, 2, 0
  {
    match v
    case Arr(items) => MissingList(items, |items|)
    case Obj(g) => MissingDict(g)
    case _ => 0
  }

  function MissingList(items: seq<Json>, i: nat): nat
    requires i <= |items|
    decreases Arr(items), 0, i
  {
    if i == 0 then 0 else MissingList(items, i - 1) + MissingValue(items[i - 1])
  }

  /** `get_all_complex_objects`: the elements of list values that are not strings, and the dict values. */
  function ComplexObjects(fs: Fields): seq<Json>
  {
    if fs == [] then []
    else ComplexObjects(fs[..|fs| - 1]) + ComplexOf(fs[|fs| - 1].1)
  }

  function ComplexOf(v: Json): seq<Json> {
    match v
    case Arr(items) => NonStrings(items)
    case Obj(_) => [v]
    case _ => []
  }

  function NonStrings(items: seq<Json>): seq<Json>
  {
    if items == [] then []
    else NonStrings(items[..|items| - 1]) + (if items[|items| - 1].Str? then [] else [items[|items| - 1]])
  }

  /**
   * `process_dictionary`: walk the dict's values when it holds complex
   * objects; then, if it has no `id`, draw one, let `prepare_jsonld` turn
   * it into an IRI, and insert the dict.
   */
  function ProcessDictionary(m: Minter, g: Fields, n: nat): Walk<Fields>
    requires Walkable(Obj(g))
    decreases Obj(g), 1, 0
  {
    var t := WalkValues(m, g, n);
    if HasKey(t.out, IdKey) then t
    else
      var done := Put(t.out, IdKey, Str(Iri(m, t.next)));
      Walk(done, t.log + [done], t.next + 1)
  }

  /** The first half of `process_dictionary`: the dict's values walked if it holds complex objects. */
  function WalkValues(m: Minter, g: Fields, n: nat): Walk<Fields>
    requires Walkable(Obj(g))
    decreases Obj(g), 0, |g| + 1
  {
    if ComplexObjects(g) != [] then TraverseFields(m, g, |g|, n) else Walk(g, [], n)
  }

  /** `traverse_obj` over the first `i` entries of `fs`: the walked entries, in order. */
  function TraverseFields(m: Minter, fs: Fields, i: nat, n: nat): Walk<Fields>
    requires i <= |fs| && Walkable(Obj(fs))
    decreases Obj(fs), 0, i
  {
    if i == 0 then Walk([], [], n)
    else
      var s := TraverseFields(m, fs, i - 1, n);
      var (k, v) := fs[i - 1];
      assert fs[i - 1] in fs;
      var r := VisitValue(m, v, s.next);
      Walk(s.out + [(k, r.out)], s.log + r.log, r.next)
  }

  /** One value of `traverse_obj`'s loop: a list is walked element by element, a dict is processed. */
  function VisitValue(m: Minter, v: Json, n: nat): Walk<Json>
    requires Walkable(v)
    decreases v, 2, 0
  {
    match v
    case Arr(items) =>
      var r := TraverseList(m, items, |items|, n);
      Walk(Arr(r.out), r.log, r.next)
    case Obj(g) =>
      var r := ProcessDictionary(m, g, n);
      Walk(Obj(r.out), r.log, r.next)
    case _ => Walk(v, [], n)
  }

  /** The inner loop of `traverse_obj` over the first `i` elements of a list: primitives are skipped. */
  function TraverseList(m: Minter, items: seq<Json>, i: nat, n: nat): Walk<seq<Json>>
    requires i <= |items| && Walkable(Arr(items))
    decreases Arr(items), 0, i
  {
    if i == 0 then Walk([], [], n)
    else
      var s := TraverseList(m, items, i - 1, n);
      var e := items[i - 1];
      if IsPrimitive(e) then Walk(s.out + [e], s.log, s.next)
      else
        var r := ProcessDictionary(m, e.fields, s.next);
        Walk(s.out + [Obj(r.out)], s.log + r.log, r.next)
  }

  /** `traverse_obj(body)` on a whole dict. */
  function TraverseObj(m: Minter, body: Fields, n: nat): Walk<Fields>
    requires Walkable(Obj(body))
  {
    TraverseFields(m, body, |body|, n)
  }

  /** The `j`-th insert of a walk that started at draw `n` carries the IRI of draw `n + j`. */
  predicate InsertsNumbered(m: Minter, log: seq<Fields>, n: nat) {
    forall j :: 0 <= j < |log| ==> Get(log[j], IdKey) == Some(Str(Iri(m, n + j)))
  }

  /** Every inserted dict already had `id`s on all the dicts nested in it when it was inserted. */
  predicate InsertsComplete(log: seq<Fields>) {
    forall j :: 0 <= j < |log| ==> Identified(Obj(log[j]))
  }

  lemma InsertsAppend(m: Minter, a: seq<Fields>, b: seq<Fields>, n: nat)
    requires InsertsNumbered(m, a, n) && InsertsNumbered(m, b, n + |a|)
    requires InsertsComplete(a) && InsertsComplete(b)
    ensures InsertsNumbered(m, a + b, n) && InsertsComplete(a + b)
  {
    forall j | 0 <= j < |a + b|
      ensures Get((a + b)[j], IdKey) == Some(Str(Iri(m, n + j))) && Identified(Obj((a + b)[j]))
    {
      if j >= |a| {
        assert (a + b)[j] == b[j - |a|];
        assert n + |a| + (j - |a|) == n + j;
      }
    }
  }

  /** Two dicts with the same keys in the same places have the same keys. */
  lemma {:induction false} SameKeys(a: Fields, b: Fields)
    requires |a| == |b| && forall i :: 0 <= i < |a| ==> a[i].0 == b[i].0
    ensures forall k :: HasKey(a, k) <==> HasKey(b, k)
  {
    if a != [] {
      assert forall i :: 0 <= i < |a| - 1 ==> a[1..][i].0 == b[1..][i].0 by {
        forall i | 0 <= i < |a| - 1 ensures a[1..][i].0 == b[1..][i].0 {
          assert a[1..][i] == a[i + 1] && b[1..][i] == b[i + 1];
        }
      }
      SameKeys(a[1..], b[1..]);
      assert a[0].0 == b[0].0;
      forall k ensures HasKey(a, k) <==> HasKey(b, k) {
        assert Get(a, k) == if a[0].0 == k then Some(a[0].1) else Get(a[1..], k);
        assert Get(b, k) == if b[0].0 == k then Some(b[0].1) else Get(b[1..], k);
        assert HasKey(a[1..], k) <==> HasKey(b[1..], k);
      }
    }
  }

  /** A list of strings is left as it is: nothing to walk, nothing missing. */
  lemma {:induction false} WalkStrings(m: Minter, items: seq<Json>, i: nat, n: nat)
    requires i <= |items| && Walkable(Arr(items)) && NonStrings(items[..i]) == []
    ensures TraverseList(m, items, i, n) == Walk(items[..i], [], n)
    ensures MissingList(items, i) == 0
    ensures forall j :: 0 <= j < i ==> Identified(items[j])
  {
    if i > 0 {
      assert items[..i][..i - 1] == items[..i - 1];
      assert items[..i][i - 1] == items[i - 1];
      WalkStrings(m, items, i - 1, n);
      assert items[..i - 1] + [items[i - 1]] == items[..i];
    }
  }

  /**
   * The test `len(list_of_obj) != 0` only saves work: on a dict without
   * complex objects the walk would change nothing and insert nothing.
   */
  lemma {:induction false} GateIsShortcut(m: Minter, fs: Fields, i: nat, n: nat)
    requires i <= |fs| && Walkable(Obj(fs)) && ComplexObjects(fs[..i]) == []
    ensures TraverseFields(m, fs, i, n) == Walk(fs[..i], [], n)
    ensures MissingFields(fs, i) == 0
    ensures forall j :: 0 <= j < i ==> Identified(fs[j].1)
  {
    if i > 0 {
      ComplexPrefix(fs, i);
      GateIsShortcut(m, fs, i - 1, n);
      assert fs[i - 1] in fs;
      QuietValue(m, fs[i - 1].1, n);
      assert TraverseFields(m, fs, i, n) == Walk(fs[..i - 1] + [(fs[i - 1].0, fs[i - 1].1)], [], n);
      SnocPrefix(fs, i);
    }
  }

  lemma ComplexPrefix(fs: Fields, i: nat)
    requires 0 < i <= |fs| && ComplexObjects(fs[..i]) == []
    ensures ComplexObjects(fs[..i - 1]) == [] && ComplexOf(fs[i - 1].1) == []
  {
    assert fs[..i][..i - 1] == fs[..i - 1];
    assert fs[..i][i - 1] == fs[i - 1];
  }

  /** A value with no complex object in it: the walk leaves it alone. */
  lemma QuietValue(m: Minter, v: Json, n: nat)
    requires Walkable(v) && ComplexOf(v) == []
    ensures VisitValue(m, v, n) == Walk(v, [], n) && MissingValue(v) == 0 && Identified(v)
  {
    if v.Arr? {
      assert v.items[..|v.items|] == v.items;
      WalkStrings(m, v.items, |v.items|, n);
    }
  }

  lemma SnocPrefix(fs: Fields, i: nat)
    requires 0 < i <= |fs|
    ensures fs[..i - 1] + [(fs[i - 1].0, fs[i - 1].1)] == fs[..i]
  {
  }

  /** The first `i` entries of `after` carry the keys of `before`, in place, and its primitive values. */
  predicate Kept(before: Fields, after: Fields, i: nat) {
    i <= |before| && i <= |after| &&
    forall j :: 0 <= j < i ==>
      after[j].0 == before[j].0 && (!before[j].1.Obj? && !before[j].1.Arr? ==> after[j].1 == before[j].1)
  }

  /** The inserts of a walk that started at draw `n`: one draw each, numbered, each complete. */
  predicate Logged<T>(m: Minter, w: Walk<T>, n: nat) {
    w.next == n + |w.log| && InsertsNumbered(m, w.log, n) && InsertsComplete(w.log)
  }

  // What a walk should do, stated without the walk: how a value grows, and
  // which dicts get inserted, in which order.

  /**
   * `after` is `before` as the walk should leave it: anything but a list or
   * a dict is unchanged, a list keeps its length and each element grows,
   * and a dict keeps its keys in place with grown values, followed by an
   * `id` exactly when it had none.
   */
  predicate Grown(before: Json, after: Json)
    decreases before
  {
    match before
    case Arr(xs) =>
      after.Arr? && |after.items| == |xs| &&
      forall i :: 0 <= i < |xs| ==> Grown(xs[i], after.items[i])
    case Obj(fs) =>
      after.Obj? && |after.fields| == |fs| + (if HasKey(fs, IdKey) then 0 else 1) &&
      (forall j :: 0 <= j < |fs| ==> after.fields[j].0 == fs[j].0 && Grown(fs[j].1, after.fields[j].1)) &&
      (!HasKey(fs, IdKey) ==> after.fields[|fs|].0 == IdKey)
    case _ => after == before
  }

  /** The entries of `gs` are those of `fs`, keys in place, values grown: the body itself gets no `id`. */
  predicate GrownFields(fs: Fields, gs: Fields) {
    |gs| == |fs| && forall j :: 0 <= j < |fs| ==> gs[j].0 == fs[j].0 && Grown(fs[j].1, gs[j].1)
  }

  /**
   * The dicts a walk from `before` to `after` should insert, in order: for
   * a dict without an `id`, the inserts of its values first, then the dict
   * as it ends up; a list's elements and a dict's values left to right.
   */
  function Inserts(before: Json, after: Json): seq<Fields>
    decreases before, 1
  {
    match before
    case Arr(xs) => if after.Arr? then ListInserts(xs, after.items, |xs|) else []
    case Obj(fs) =>
      if after.Obj? then FieldInserts(fs, after.fields, |fs|) + (if HasKey(fs, IdKey) then [] else [after.fields])
      else []
    case _ => []
  }

  /** The inserts of the first `i` elements of a list. */
  function ListInserts(xs: seq<Json>, ys: seq<Json>, i: nat): seq<Fields>
    requires i <= |xs|
    decreases Arr(xs), 0, i
  {
    if i == 0 then []
    else ListInserts(xs, ys, i - 1) + (if i - 1 < |ys| then Inserts(xs[i - 1], ys[i - 1]) else [])
  }

  /** The inserts of the values of the first `i` entries of a dict. */
  function FieldInserts(fs: Fields, gs: Fields, i: nat): seq<Fields>
    requires i <= |fs|
    decreases Obj(fs), 0, i
  {
    if i == 0 then []
    else
      assert fs[i - 1] in fs;
      FieldInserts(fs, gs, i - 1) + (if i - 1 < |gs| then Inserts(fs[i - 1].1, gs[i - 1].1) else [])
  }

  /** The inserts of a list's first `i` elements depend only on the first `i` grown elements. */
  lemma {:induction false} ListInsertsFrame(xs: seq<Json>, ys: seq<Json>, zs: seq<Json>, i: nat)
    requires i <= |xs| && i <= |ys| && i <= |zs|
    requires forall j :: 0 <= j < i ==> ys[j] == zs[j]
    ensures ListInserts(xs, ys, i) == ListInserts(xs, zs, i)
  {
    if i > 0 {
      ListInsertsFrame(xs, ys, zs, i - 1);
    }
  }

  /** The inserts of a dict's first `i` values depend only on the first `i` grown entries. */
  lemma {:induction false} FieldInsertsFrame(fs: Fields, gs: Fields, hs: Fields, i: nat)
    requires i <= |fs| && i <= |gs| && i <= |hs|
    requires forall j :: 0 <= j < i ==> gs[j] == hs[j]
    ensures FieldInserts(fs, gs, i) == FieldInserts(fs, hs, i)
  {
    if i > 0 {
      FieldInsertsFrame(fs, gs, hs, i - 1);
    }
  }

  /** Grown entries have the same keys, and the value under each key grows. */
  lemma {:induction false} GrownGet(fs: Fields, gs: Fields, k: string)
    requires GrownFields(fs, gs)
    ensures HasKey(gs, k) <==> HasKey(fs, k)
    ensures HasKey(fs, k) ==> Grown(Get(fs, k).value, Get(gs, k).value)
  {
    if fs != [] && fs[0].0 != k {
      assert GrownFields(fs[1..], gs[1..]) by {
        forall j | 0 <= j < |fs| - 1 ensures gs[1..][j].0 == fs[1..][j].0 && Grown(fs[1..][j].1, gs[1..][j].1) {
          assert fs[1..][j] == fs[j + 1] && gs[1..][j] == gs[j + 1];
        }
      }
      GrownGet(fs[1..], gs[1..], k);
    }
  }

  /** The gate of `process_dictionary` changes nothing: walking the values is traversing them. */
  lemma WalkValuesTraverses(m: Minter, g: Fields, n: nat)
    requires Walkable(Obj(g))
    ensures WalkValues(m, g, n) == TraverseFields(m, g, |g|, n)
  {
    if ComplexObjects(g) == [] {
      assert g[..|g|] == g;
      GateIsShortcut(m, g, |g|, n);
    }
  }

  // What the walk does to the values: keys stay in place, primitive values
  // are untouched, and every dict reached ends up with an `id`.

  /**
   * `process_dictionary` keeps the dict's keys in place, adds `id` at the
   * end if it had none, and leaves every dict in it with an `id`: the
   * result is the dict grown.
   */
  lemma {:induction false} ProcessDictionaryShape(m: Minter, g: Fields, n: nat)
    requires Walkable(Obj(g))
    ensures var r := ProcessDictionary(m, g, n);
            |r.out| == |g| + (if HasKey(g, IdKey) then 0 else 1) && Kept(g, r.out, |g|) && Identified(Obj(r.out)) &&
            Grown(Obj(g), Obj(r.out))
    decreases Obj(g), 1, 0
  {
    var t := WalkValues(m, g, n);
    WalkValuesShape(m, g, n);
    if !HasKey(g, IdKey) {
      var done := Put(t.out, IdKey, Str(Iri(m, t.next)));
      assert done == t.out + [(IdKey, Str(Iri(m, t.next)))];
      assert Kept(g, done, |g|) && GrownFields(g, done[..|g|]) by {
        forall j | 0 <= j < |g| ensures done[j] == t.out[j] { }
      }
      assert AllIdentified(done) by {
        forall i | 0 <= i < |done| ensures Identified(done[i].1) {
          if i < |t.out| { assert done[i] == t.out[i]; }
        }
      }
    }
  }

  /** Walking a dict's values keeps its keys in place, grows every value and leaves every dict in its values with an `id`. */
  lemma {:induction false} WalkValuesShape(m: Minter, g: Fields, n: nat)
    requires Walkable(Obj(g))
    ensures var t := WalkValues(m, g, n);
            |t.out| == |g| && Kept(g, t.out, |g|) && AllIdentified(t.out) && GrownFields(g, t.out) &&
            (HasKey(t.out, IdKey) <==> HasKey(g, IdKey))
    decreases Obj(g), 0, |g| + 1
  {
    var t := WalkValues(m, g, n);
    WalkValuesTraverses(m, g, n);
    TraverseFieldsShape(m, g, |g|, n);
    SameKeys(t.out, g);
  }

  lemma {:induction false} TraverseFieldsShape(m: Minter, fs: Fields, i: nat, n: nat)
    requires i <= |fs| && Walkable(Obj(fs))
    ensures var r := TraverseFields(m, fs, i, n);
            |r.out| == i && Kept(fs, r.out, i) && AllIdentified(r.out) &&
            forall j :: 0 <= j < i ==> Grown(fs[j].1, r.out[j].1)
    decreases Obj(fs), 0, i
  {
    if i > 0 {
      var s := TraverseFields(m, fs, i - 1, n);
      TraverseFieldsShape(m, fs, i - 1, n);
      assert fs[i - 1] in fs;
      var v := fs[i - 1].1;
      var r := VisitValue(m, v, s.next);
      VisitValueShape(m, v, s.next);
      assert TraverseFields(m, fs, i, n).out == s.out + [(fs[i - 1].0, r.out)];
      KeptSnoc(fs, s.out, i - 1, r.out);
    }
  }

  /** One more walked entry: its key is the original one, its value grown, and a primitive value is kept. */
  lemma KeptSnoc(fs: Fields, done: Fields, i: nat, x: Json)
    requires i < |fs| && |done| == i && Kept(fs, done, i) && AllIdentified(done)
    requires forall j :: 0 <= j < i ==> Grown(fs[j].1, done[j].1)
    requires Identified(x) && Grown(fs[i].1, x) && (!fs[i].1.Obj? && !fs[i].1.Arr? ==> x == fs[i].1)
    ensures var out := done + [(fs[i].0, x)];
            Kept(fs, out, i + 1) && AllIdentified(out) &&
            forall j :: 0 <= j < i + 1 ==> Grown(fs[j].1, out[j].1)
  {
    var out := done + [(fs[i].0, x)];
    forall j | 0 <= j < i ensures out[j] == done[j] { }
  }

  lemma {:induction false} VisitValueShape(m: Minter, v: Json, n: nat)
    requires Walkable(v)
    ensures var r := VisitValue(m, v, n);
            Identified(r.out) && Grown(v, r.out) && (!v.Obj? && !v.Arr? ==> r.out == v)
    decreases v, 2, 0
  {
    match v
    case Arr(items) => TraverseListShape(m, items, |items|, n);
    case Obj(g) => ProcessDictionaryShape(m, g, n);
    case _ =>
  }

  lemma {:induction false} TraverseListShape(m: Minter, items: seq<Json>, i: nat, n: nat)
    requires i <= |items| && Walkable(Arr(items))
    ensures var r := TraverseList(m, items, i, n);
            |r.out| == i && (forall j :: 0 <= j < i ==> Identified(r.out[j])) &&
            forall j :: 0 <= j < i ==> Grown(items[j], r.out[j])
    decreases Arr(items), 0, i
  {
    if i > 0 {
      var s := TraverseList(m, items, i - 1, n);
      TraverseListShape(m, items, i - 1, n);
      var e := items[i - 1];
      var x := if IsPrimitive(e) then e else Obj(ProcessDictionary(m, e.fields, s.next).out);
      assert Identified(x) && Grown(e, x) by {
        if !IsPrimitive(e) {
          ProcessDictionaryShape(m, e.fields, s.next);
        }
      }
      assert TraverseList(m, items, i, n).out == s.out + [x];
      IdentifiedSnoc(s.out, x);
      GrownSnoc(items[..i - 1], s.out, e, x);
      assert items[..i - 1] + [e] == items[..i];
    }
  }

  lemma IdentifiedSnoc(a: seq<Json>, x: Json)
    requires (forall j :: 0 <= j < |a| ==> Identified(a[j])) && Identified(x)
    ensures forall j :: 0 <= j < |a + [x]| ==> Identified((a + [x])[j])
  {
  }

  lemma GrownSnoc(a: seq<Json>, b: seq<Json>, x: Json, y: Json)
    requires |a| == |b| && (forall j :: 0 <= j < |a| ==> Grown(a[j], b[j])) && Grown(x, y)
    ensures forall j :: 0 <= j < |a| + 1 ==> Grown((a + [x])[j], (b + [y])[j])
  {
  }

  // What the walk inserts: one insert per dict reached without an `id`,
  // numbered by draw, each complete when it is made, and in the order the
  // post-order collector `Inserts` lists them.

  /**
   * `process_dictionary` makes one insert per dict it reaches without an
   * `id`, the dict itself included; the dict's own insert, if any, is the
   * last one, after those of all its descendants, and carries the dict as
   * it ends up.
   */
  lemma {:induction false} ProcessDictionaryLog(m: Minter, g: Fields, n: nat)
    requires Walkable(Obj(g))
    ensures var r := ProcessDictionary(m, g, n);
            |r.log| == MissingDict(g) && Logged(m, r, n) &&
            (!HasKey(g, IdKey) ==> r.log[|r.log| - 1] == r.out)
    decreases Obj(g), 1, 0
  {
    var t := WalkValues(m, g, n);
    WalkValuesLog(m, g, n);
    WalkValuesKeepsId(m, g, n);
    var r := ProcessDictionary(m, g, n);
    if HasKey(g, IdKey) {
      assert r == t;
    } else {
      var done := Put(t.out, IdKey, Str(Iri(m, t.next)));
      assert r == Walk(done, t.log + [done], t.next + 1);
      assert Identified(Obj(done)) by {
        ProcessDictionaryShape(m, g, n);
      }
      assert InsertsNumbered(m, [done], t.next) by {
        assert Get(done, IdKey) == Some(Str(Iri(m, t.next + 0)));
      }
      assert InsertsComplete([done]);
      InsertsAppend(m, t.log, [done], n);
    }
  }

  /** Walking a dict's values neither adds nor removes its `id`. */
  lemma WalkValuesKeepsId(m: Minter, g: Fields, n: nat)
    requires Walkable(Obj(g))
    ensures HasKey(WalkValues(m, g, n).out, IdKey) <==> HasKey(g, IdKey)
  {
    WalkValuesShape(m, g, n);
  }

  /** Walking a dict's values inserts one dict per dict without an `id` in them. */
  lemma {:induction false} WalkValuesLog(m: Minter, g: Fields, n: nat)
    requires Walkable(Obj(g))
    ensures var t := WalkValues(m, g, n);
            |t.log| == MissingFields(g, |g|) && Logged(m, t, n)
    decreases Obj(g), 0, |g| + 1
  {
    WalkValuesTraverses(m, g, n);
    TraverseFieldsLog(m, g, |g|, n);
  }

  lemma {:induction false} TraverseFieldsLog(m: Minter, fs: Fields, i: nat, n: nat)
    requires i <= |fs| && Walkable(Obj(fs))
    ensures var r := TraverseFields(m, fs, i, n);
            |r.log| == MissingFields(fs, i) && Logged(m, r, n)
    decreases Obj(fs), 0, i
  {
    if i > 0 {
      var s := TraverseFields(m, fs, i - 1, n);
      TraverseFieldsLog(m, fs, i - 1, n);
      assert fs[i - 1] in fs;
      var v := fs[i - 1].1;
      var r := VisitValue(m, v, s.next);
      VisitValueLog(m, v, s.next);
      var w := TraverseFields(m, fs, i, n);
      assert w.log == s.log + r.log && w.next == r.next;
      assert MissingFields(fs, i) == MissingFields(fs, i - 1) + MissingValue(v);
      InsertsAppend(m, s.log, r.log, n);
    }
  }

  lemma {:induction false} VisitValueLog(m: Minter, v: Json, n: nat)
    requires Walkable(v)
    ensures var r := VisitValue(m, v, n);
            |r.log| == MissingValue(v) && Logged(m, r, n)
    decreases v, 2, 0
  {
    match v
    case Arr(items) => TraverseListLog(m, items, |items|, n);
    case Obj(g) => ProcessDictionaryLog(m, g, n);
    case _ =>
  }

  lemma {:induction false} TraverseListLog(m: Minter, items: seq<Json>, i: nat, n: nat)
    requires i <= |items| && Walkable(Arr(items))
    ensures var r := TraverseList(m, items, i, n);
            |r.log| == MissingList(items, i) && Logged(m, r, n)
    decreases Arr(items), 0, i
  {
    if i > 0 {
      var s := TraverseList(m, items, i - 1, n);
      TraverseListLog(m, items, i - 1, n);
      var e := items[i - 1];
      var w := TraverseList(m, items, i, n);
      if IsPrimitive(e) {
        assert w.log == s.log && w.next == s.next;
        assert MissingValue(e) == 0;
      } else {
        var r := ProcessDictionary(m, e.fields, s.next);
        ProcessDictionaryLog(m, e.fields, s.next);
        assert w.log == s.log + r.log && w.next == r.next;
        assert MissingValue(e) == MissingDict(e.fields);
        InsertsAppend(m, s.log, r.log, n);
      }
    }
  }

  // Which dicts the walk inserts, and in which order: exactly those the
  // post-order collector `Inserts` lists for the value and what it became.

  /**
   * The inserts of `process_dictionary` are the dicts without an `id` it
   * reaches, descendants first, each as it ends up.
   */
  lemma {:induction false} ProcessDictionaryCollects(m: Minter, g: Fields, n: nat)
    requires Walkable(Obj(g))
    ensures var r := ProcessDictionary(m, g, n);
            r.log == Inserts(Obj(g), Obj(r.out))
    decreases Obj(g), 1, 0
  {
    var t := WalkValues(m, g, n);
    WalkValuesCollects(m, g, n);
    WalkValuesShape(m, g, n);
    if !HasKey(g, IdKey) {
      var done := Put(t.out, IdKey, Str(Iri(m, t.next)));
      assert ProcessDictionary(m, g, n) == Walk(done, t.log + [done], t.next + 1);
      assert done == t.out + [(IdKey, Str(Iri(m, t.next)))];
      FieldInsertsFrame(g, done, t.out, |g|);
    }
  }

  /** The inserts of walking a dict's values are those `Inserts` collects from its values, left to right. */
  lemma {:induction false} WalkValuesCollects(m: Minter, g: Fields, n: nat)
    requires Walkable(Obj(g))
    ensures var t := WalkValues(m, g, n);
            t.log == FieldInserts(g, t.out, |g|)
    decreases Obj(g), 0, |g| + 1
  {
    WalkValuesTraverses(m, g, n);
    TraverseFieldsCollects(m, g, |g|, n);
  }

  lemma {:induction false} TraverseFieldsCollects(m: Minter, fs: Fields, i: nat, n: nat)
    requires i <= |fs| && Walkable(Obj(fs))
    ensures var r := TraverseFields(m, fs, i, n);
            r.log == FieldInserts(fs, r.out, i)
    decreases Obj(fs), 0, i
  {
    if i > 0 {
      var s := TraverseFields(m, fs, i - 1, n);
      TraverseFieldsCollects(m, fs, i - 1, n);
      TraverseFieldsLength(m, fs, i - 1, n);
      assert fs[i - 1] in fs;
      var v := fs[i - 1].1;
      var r := VisitValue(m, v, s.next);
      VisitValueCollects(m, v, s.next);
      var w := TraverseFields(m, fs, i, n);
      assert w == Walk(s.out + [(fs[i - 1].0, r.out)], s.log + r.log, r.next);
      FieldInsertsSnoc(fs, s.out, fs[i - 1].0, r.out, i);
    }
  }

  /** Traversing the first `i` entries gives `i` entries. */
  lemma {:induction false} TraverseFieldsLength(m: Minter, fs: Fields, i: nat, n: nat)
    requires i <= |fs| && Walkable(Obj(fs))
    ensures |TraverseFields(m, fs, i, n).out| == i
  {
    if i > 0 {
      TraverseFieldsLength(m, fs, i - 1, n);
    }
  }

  /** Traversing the first `i` elements gives `i` elements. */
  lemma {:induction false} TraverseListLength(m: Minter, items: seq<Json>, i: nat, n: nat)
    requires i <= |items| && Walkable(Arr(items))
    ensures |TraverseList(m, items, i, n).out| == i
  {
    if i > 0 {
      TraverseListLength(m, items, i - 1, n);
    }
  }

  /** One more grown entry adds the inserts of its value. */
  lemma FieldInsertsSnoc(fs: Fields, done: Fields, k: string, x: Json, i: nat)
    requires 0 < i <= |fs| && |done| == i - 1
    ensures FieldInserts(fs, done + [(k, x)], i) == FieldInserts(fs, done, i - 1) + Inserts(fs[i - 1].1, x)
  {
    FieldInsertsFrame(fs, done + [(k, x)], done, i - 1);
  }

  lemma {:induction false} VisitValueCollects(m: Minter, v: Json, n: nat)
    requires Walkable(v)
    ensures var r := VisitValue(m, v, n);
            r.log == Inserts(v, r.out)
    decreases v, 2, 0
  {
    match v
    case Arr(items) =>
      TraverseListCollects(m, items, |items|, n);
      TraverseListLength(m, items, |items|, n);
    case Obj(g) => ProcessDictionaryCollects(m, g, n);
    case _ =>
  }

  lemma {:induction false} TraverseListCollects(m: Minter, items: seq<Json>, i: nat, n: nat)
    requires i <= |items| && Walkable(Arr(items))
    ensures var r := TraverseList(m, items, i, n);
            r.log == ListInserts(items, r.out, i)
    decreases Arr(items), 0, i
  {
    if i > 0 {
      var s := TraverseList(m, items, i - 1, n);
      TraverseListCollects(m, items, i - 1, n);
      TraverseListLength(m, items, i - 1, n);
      var e := items[i - 1];
      if IsPrimitive(e) {
        assert TraverseList(m, items, i, n) == Walk(s.out + [e], s.log, s.next);
        assert Inserts(e, e) == [];
        ListInsertsSnoc(items, s.out, e, i);
      } else {
        var r := ProcessDictionary(m, e.fields, s.next);
        ProcessDictionaryCollects(m, e.fields, s.next);
        assert TraverseList(m, items, i, n) == Walk(s.out + [Obj(r.out)], s.log + r.log, r.next);
        assert e == Obj(e.fields);
        ListInsertsSnoc(items, s.out, Obj(r.out), i);
      }
    }
  }

  /** One more grown element adds its inserts. */
  lemma ListInsertsSnoc(items: seq<Json>, done: seq<Json>, x: Json, i: nat)
    requires 0 < i <= |items| && |done| == i - 1
    ensures ListInserts(items, done + [x], i) == ListInserts(items, done, i - 1) + Inserts(items[i - 1], x)
  {
    ListInsertsFrame(items, done + [x], done, i - 1);
  }

  /**
   * `traverse_obj` on the resource itself: its keys and primitive values
   * stay as they are (it never gets an `id` from the walk), every value
   * grows, every dict nested in it ends up with an `id`, and the inserts
   * are exactly the dicts `Inserts` collects from the values, one per
   * nested dict that had none, numbered by draw and complete.
   */
  lemma TraverseObjFacts(m: Minter, body: Fields, n: nat)
    requires Walkable(Obj(body))
    ensures var r := TraverseObj(m, body, n);
            |r.out| == |body| && Kept(body, r.out, |body|) &&
            (forall k :: HasKey(r.out, k) <==> HasKey(body, k)) &&
            AllIdentified(r.out) && GrownFields(body, r.out) &&
            |r.log| == MissingFields(body, |body|) && Logged(m, r, n) &&
            r.log == FieldInserts(body, r.out, |body|)
  {
    TraverseFieldsShape(m, body, |body|, n);
    TraverseFieldsLog(m, body, |body|, n);
    TraverseFieldsCollects(m, body, |body|, n);
    SameKeys(TraverseObj(m, body, n).out, body);
  }

  /** As long as fresh identifiers are not URLs, the inserts of a walk carry pairwise different IRIs. */
  lemma InsertIrisDistinct(m: Minter, log: seq<Fields>, n: nat, i: nat, j: nat)
    requires InsertsNumbered(m, log, n)
    requires i < j < |log|
    requires !m.isUrl(FreshId(n + i)) && !m.isUrl(FreshId(n + j))
    ensures Get(log[i], IdKey) != Get(log[j], IdKey)
  {
    if Get(log[i], IdKey) == Get(log[j], IdKey) {
      InstanceUriInjective(m.isUrl, m.uriPrefix, FreshId(n + i), FreshId(n + j));
      FreshIdInjective(n + i, n + j);
    }
  }

  /** `get_all_complex_objects`: the loop that collects the complex objects of a dict. */
  method GetAllComplexObjects(body: Fields) returns (l: seq<Json>)
    ensures l == ComplexObjects(body)
  {
    l := [];
    var i := 0;
    while i < |body|
      invariant 0 <= i <= |body|
      invariant l == ComplexObjects(body[..i])
    {
      var value := body[i].1;
      ComplexObjectsSnoc(body, i);
      if value.Arr? {
        var inner := NonStringElements(value.items);
        l := l + inner;
      } else if value.Obj? {
        l := l + [value];
      }
      i := i + 1;
    }
    assert body[..i] == body;
  }

  /** The inner loop of `get_all_complex_objects` over a list value: every element that is not a string. */
  method NonStringElements(items: seq<Json>) returns (l: seq<Json>)
    ensures l == NonStrings(items)
  {
    l := [];
    var j := 0;
    while j < |items|
      invariant 0 <= j <= |items|
      invariant l == NonStrings(items[..j])
    {
      NonStringsSnoc(items, j);
      if !items[j].Str? {
        l := l + [items[j]];
      }
      j := j + 1;
    }
    assert items[..j] == items;
  }

  lemma ComplexObjectsSnoc(body: Fields, i: nat)
    requires i < |body|
    ensures ComplexObjects(body[..i + 1]) == ComplexObjects(body[..i]) + ComplexOf(body[i].1)
  {
    assert body[..i + 1][..i] == body[..i];
  }

  lemma NonStringsSnoc(items: seq<Json>, j: nat)
    requires j < |items|
    ensures NonStrings(items[..j + 1]) == NonStrings(items[..j]) + (if items[j].Str? then [] else [items[j]])
  {
    assert items[..j + 1][..j] == items[..j];
  }
}
