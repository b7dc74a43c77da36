/**
 * The JSON-LD contexts the engine keeps: removal of the `id`/`type` terms
 * from the class context, the snake-case aliases added to the property
 * context, the normalisation `frame_results` applies to that context before
 * every framing, `overwrite_endpoint_context` and the module-level `merge`.
 */
module Contexts {
  import opened Wrappers
  import opened Json
  import opened Utils

  /** A context is a dict of terms, in insertion order. */
  type Context = Fields

  /** `remove_jsonld_key`: `pop` the key; a missing key (`KeyError`) leaves the context as it is. */
  function RemoveJsonldKey(ctx: Context, key: string): (r: Context)
    requires DistinctKeys(ctx)
    ensures !HasKey(r, key) && DistinctKeys(r)
    ensures forall k :: k != key ==> Get(r, k) == Get(ctx, k)
    ensures !HasKey(ctx, key) ==> r == ctx
  {
    PopDistinct(ctx, key);
    Pop(ctx, key)
  }

  // ---------------------------------------------------------------------
  // Snake-case aliases (`convert_snake_dict`).

  /** The assignments made for one term: under its own name, then under its snake-case name if that differs. */
  function AliasWritesOf(key: string, value: Json): (ws: Fields)
    ensures |ws| == (if ConvertSnake(key) != key then 2 else 1)
    ensures ws[0] == (key, value)
    ensures |ws| == 2 ==> ws[1] == (ConvertSnake(key), value)
  {
    [(key, value)] + (if ConvertSnake(key) != key then [(ConvertSnake(key), value)] else [])
  }

  /** Every assignment the loop makes, in order. */
  function AliasWrites(entries: Context): Fields
  {
    if entries == [] then []
    else AliasWrites(entries[..|entries| - 1]) + AliasWritesOf(entries[|entries| - 1].0, entries[|entries| - 1].1)
  }

  /** The property context after `convert_snake_dict(entries)` on the context `ctx`. */
  function SnakeDict(ctx: Context, entries: Context): Context
  {
    PutAll(ctx, AliasWrites(entries))
  }

  lemma {:induction false} AliasWritesAppend(a: Context, b: Context)
    ensures AliasWrites(a + b) == AliasWrites(a) + AliasWrites(b)
  {
    if b == [] {
      assert a + b == a;
    } else {
      var n := |b| - 1;
      assert (a + b)[..|a + b| - 1] == a + b[..n];
      AliasWritesAppend(a, b[..n]);
    }
  }

  /** Some entry writes `k`, under its own name or as its alias. */
  predicate WritesKey(entries: Context, k: string) {
    exists i :: 0 <= i < |entries| && (entries[i].0 == k || ConvertSnake(entries[i].0) == k)
  }

  lemma {:induction false} AliasWritesTargets(entries: Context, k: string)
    ensures (exists i :: 0 <= i < |AliasWrites(entries)| && AliasWrites(entries)[i].0 == k) <==> WritesKey(entries, k)
  {
    if entries != [] {
      var init := entries[..|entries| - 1];
      var (key, value) := entries[|entries| - 1];
      AliasWritesTargets(init, k);
      var a: Fields, b: Fields := AliasWrites(init), AliasWritesOf(key, value);
      assert AliasWrites(entries) == a + b;
      if exists i :: 0 <= i < |a + b| && (a + b)[i].0 == k {
        var i :| 0 <= i < |a + b| && (a + b)[i].0 == k;
        if i < |a| {
          assert AliasWrites(init)[i].0 == k;
          assert exists i' :: 0 <= i' < |AliasWrites(init)| && AliasWrites(init)[i'].0 == k;
          var j :| 0 <= j < |init| && (init[j].0 == k || ConvertSnake(init[j].0) == k);
          assert entries[j] == init[j];
        } else {
          assert entries[|entries| - 1].0 == k || ConvertSnake(entries[|entries| - 1].0) == k;
        }
      }
      if WritesKey(entries, k) {
        var j :| 0 <= j < |entries| && (entries[j].0 == k || ConvertSnake(entries[j].0) == k);
        if j < |init| {
          assert init[j] == entries[j];
          var i :| 0 <= i < |a| && a[i].0 == k;
          assert (a + b)[i].0 == k;
        } else if key == k {
          assert (a + b)[|a|].0 == k;
        } else {
          assert (a + b)[|a| + 1].0 == k;
        }
      }
    }
  }

  /** One more term of `convert_snake_dict`'s loop: its name, then its snake-case name if different. */
  lemma SnakeDictStep(ctx: Context, entries: Context, i: nat)
    requires i < |entries|
    ensures var (key, value) := entries[i];
            var c := Put(SnakeDict(ctx, entries[..i]), key, value);
            SnakeDict(ctx, entries[..i + 1]) == if ConvertSnake(key) != key then Put(c, ConvertSnake(key), value) else c
  {
    var (key, value) := entries[i];
    var pre, post := entries[..i], entries[..i + 1];
    assert post[..|post| - 1] == pre && post[|post| - 1] == (key, value);
    var ws := AliasWritesOf(key, value);
    assert AliasWrites(post) == AliasWrites(pre) + ws;
    PutAllAppend(ctx, AliasWrites(pre), ws);
    var base := SnakeDict(ctx, pre);
    assert SnakeDict(ctx, post) == PutAll(base, ws);
    var one := ws[..1];
    assert one[..0] == [] && one[0] == (key, value);
    assert PutAll(base, one) == Put(base, key, value);
    if |ws| == 2 {
      assert ws[..|ws| - 1] == one;
    } else {
      assert ws == one;
    }
  }

  /**
   * `convert_snake_dict`: a key is in the result exactly when it was in the
   * context or some term writes it; nothing is removed; where some term
   * writes a key the last such write gives its value, elsewhere the old
   * value stays.
   */
  lemma SnakeDictLookup(ctx: Context, entries: Context, k: string)
    ensures HasKey(SnakeDict(ctx, entries), k) <==> HasKey(ctx, k) || WritesKey(entries, k)
    ensures HasKey(ctx, k) ==> HasKey(SnakeDict(ctx, entries), k)
    ensures var last := LastWrite(AliasWrites(entries), k);
            Get(SnakeDict(ctx, entries), k) == if last.Some? then last else Get(ctx, k)
  {
    var ws := AliasWrites(entries);
    PutAllLookup(ctx, ws, k);
    LastWriteSome(ws, k);
    AliasWritesTargets(entries, k);
    assert (exists i :: 0 <= i < |ws| && ws[i].0 == k) <==> WritesKey(entries, k);
    assert LastWrite(ws, k).Some? <==> WritesKey(entries, k);
    assert HasKey(SnakeDict(ctx, entries), k) <==> Get(PutAll(ctx, ws), k).Some?;
  }

  /**
   * A term and its alias carry the term's value, unless a later term writes
   * the same name or the same alias.
   */
  lemma AliasSharesValue(ctx: Context, entries: Context, i: int)
    requires 0 <= i < |entries|
    requires forall j :: i < j < |entries| ==>
               entries[j].0 != entries[i].0 && ConvertSnake(entries[j].0) != entries[i].0 &&
               entries[j].0 != ConvertSnake(entries[i].0) && ConvertSnake(entries[j].0) != ConvertSnake(entries[i].0)
    ensures Get(SnakeDict(ctx, entries), entries[i].0) == Some(entries[i].1)
    ensures Get(SnakeDict(ctx, entries), ConvertSnake(entries[i].0)) == Some(entries[i].1)
  {
    var (key, value) := entries[i];
    var later := entries[i + 1..];
    assert entries == entries[..i + 1] + later;
    AliasWritesAppend(entries[..i + 1], later);
    assert entries[..i + 1][..i] == entries[..i];
    var own := AliasWrites(entries[..i + 1]);
    assert own == AliasWrites(entries[..i]) + AliasWritesOf(key, value);
    forall k | k == key || k == ConvertSnake(key)
      ensures Get(SnakeDict(ctx, entries), k) == Some(value)
    {
      AliasWritesTargets(later, k);
      LastWriteSome(AliasWrites(later), k);
      LastWriteAppend(own, AliasWrites(later), k);
      LastWriteAppend(AliasWrites(entries[..i]), AliasWritesOf(key, value), k);
      var ws := AliasWritesOf(key, value);
      if |ws| == 2 {
        assert ws[..1] == [(key, value)];
        if k != ConvertSnake(key) {
          assert LastWrite(ws[..1], k) == Some(value);
        }
      }
      PutAllLookup(ctx, AliasWrites(entries), k);
    }
  }

  /** The alias the API relies on: `hasContactPerson` is readable as `has_contact_person` as well. */
  lemma SnakeDictExample(ctx: Context, v: Json, term: string)
    requires term == "hasContactPerson"
    ensures Get(SnakeDict(ctx, [(term, v)]), term) == Some(v)
    ensures Get(SnakeDict(ctx, [(term, v)]), "has_contact_person") == Some(v)
  {
    ConvertSnakeExample(term);
    AliasSharesValue(ctx, [(term, v)], 0);
  }

  // ---------------------------------------------------------------------
  // Normalisation of the frame context (`frame_results`).

  const ContainerKey := "@container"
  const SetValue := Str("@set")
  const TypeKey := "@type"
  const IdValue := Str("@id")
  const TypeValue := Str("@type")

  /** The `@type` of a term definition is kept only when it is `@id`. */
  predicate KeepsType(fs: Fields) {
    Get(fs, TypeKey).None? || Get(fs, TypeKey) == Some(IdValue)
  }

  /** A term definition as the frame wants it: a set container, and no `@type` other than `@id`. */
  predicate Normalised(v: Json) {
    v.Obj? ==> Get(v.fields, ContainerKey) == Some(SetValue) && KeepsType(v.fields)
  }

  /** The loop body for one term: dict definitions get `@container: @set` and lose a `@type` that is not `@id`. */
  function NormaliseEntry(v: Json): (r: Json)
    ensures !v.Obj? ==> r == v
    ensures v.Obj? ==> r.Obj? && forall k :: k != ContainerKey && k != TypeKey ==> Get(r.fields, k) == Get(v.fields, k)
    ensures v.Obj? && DistinctKeys(v.fields) ==> Normalised(r) && DistinctKeys(r.fields)
  {
    if v.Obj? then
      var fs := Put(v.fields, ContainerKey, SetValue);
      if HasKey(fs, TypeKey) && Get(fs, TypeKey) != Some(IdValue) then
        PutDistinctSilent(v.fields);
        Obj(Pop(fs, TypeKey))
      else
        PutDistinctSilent(v.fields);
        Obj(fs)
    else v
  }

  /** `PutDistinct` and `PopDistinct` for the container assignment, in the form `NormaliseEntry` needs. */
  lemma PutDistinctSilent(fs: Fields)
    ensures DistinctKeys(fs) ==> DistinctKeys(Put(fs, ContainerKey, SetValue))
    ensures DistinctKeys(fs) ==> DistinctKeys(Pop(Put(fs, ContainerKey, SetValue), TypeKey))
    ensures DistinctKeys(fs) ==> !HasKey(Pop(Put(fs, ContainerKey, SetValue), TypeKey), TypeKey)
  {
    if DistinctKeys(fs) {
      PutDistinct(fs, ContainerKey, SetValue);
      PopDistinct(Put(fs, ContainerKey, SetValue), TypeKey);
    }
  }

  /** Applying the entry step to a definition already in shape changes nothing. */
  lemma NormaliseEntryIdempotent(v: Json)
    requires v.Obj? ==> DistinctKeys(v.fields)
    ensures NormaliseEntry(NormaliseEntry(v)) == NormaliseEntry(v)
  {
    if v.Obj? {
      var r := NormaliseEntry(v);
      PutSame(r.fields, ContainerKey, SetValue);
    }
  }

  /** Every term definition of the context, with the entry step applied. */
  function NormaliseEntries(ctx: Context): (r: Context)
    ensures |r| == |ctx|
    ensures forall i :: 0 <= i < |ctx| ==> r[i] == (ctx[i].0, NormaliseEntry(ctx[i].1))
  {
    seq(|ctx|, i requires 0 <= i < |ctx| => (ctx[i].0, NormaliseEntry(ctx[i].1)))
  }

  /** The two aliases `frame_results` forces before the loop. */
  function WithAliases(ctx: Context): Context {
    Put(Put(ctx, "type", TypeValue), "id", IdValue)
  }

  /** The context after one run of the normalisation in `frame_results`. */
  function NormaliseContext(ctx: Context): Context {
    NormaliseEntries(WithAliases(ctx))
  }

  /** Python dicts: distinct keys in the context and in each of its dict definitions. */
  predicate WellFormed(ctx: Context) {
    DistinctKeys(ctx) && forall i :: 0 <= i < |ctx| ==> (ctx[i].1.Obj? ==> DistinctKeys(ctx[i].1.fields))
  }

  lemma {:induction false} GetNormaliseEntries(ctx: Context, k: string)
    ensures Get(NormaliseEntries(ctx), k) == if Get(ctx, k).Some? then Some(NormaliseEntry(Get(ctx, k).value)) else None
  {
    if ctx != [] {
      assert NormaliseEntries(ctx)[1..] == NormaliseEntries(ctx[1..]);
      GetNormaliseEntries(ctx[1..], k);
    }
  }

  lemma {:induction false} GetIsSomeEntry(ctx: Context, k: string)
    requires Get(ctx, k).Some?
    ensures exists i :: 0 <= i < |ctx| && ctx[i] == (k, Get(ctx, k).value)
  {
    if ctx[0].0 != k {
      GetIsSomeEntry(ctx[1..], k);
      var i :| 0 <= i < |ctx[1..]| && ctx[1..][i] == (k, Get(ctx[1..], k).value);
      assert ctx[i + 1] == ctx[1..][i];
    }
  }

  lemma WithAliasesWellFormed(ctx: Context)
    requires WellFormed(ctx)
    ensures WellFormed(WithAliases(ctx))
  {
    var c1 := Put(ctx, "type", TypeValue);
    PutDistinct(ctx, "type", TypeValue);
    PutDistinct(c1, "id", IdValue);
    var c2 := WithAliases(ctx);
    forall i | 0 <= i < |c2| && c2[i].1.Obj? ensures DistinctKeys(c2[i].1.fields) {
      var k := c2[i].0;
      assert Get(c2, k).Some? by { HasKeyAt(c2, k); }
      GetOfDistinct(c2, i);
      GetIsSomeEntry(ctx, k);
      var j :| 0 <= j < |ctx| && ctx[j] == (k, Get(ctx, k).value);
    }
  }

  lemma {:induction false} GetOfDistinct(fs: Fields, i: int)
    requires DistinctKeys(fs) && 0 <= i < |fs|
    ensures Get(fs, fs[i].0) == Some(fs[i].1)
  {
    if i > 0 {
      assert fs[0].0 != fs[i].0;
      assert DistinctKeys(fs[1..]) by {
        forall a, b | 0 <= a < b < |fs[1..]| ensures fs[1..][a].0 != fs[1..][b].0 {
          assert fs[1..][a] == fs[a + 1] && fs[1..][b] == fs[b + 1];
        }
      }
      GetOfDistinct(fs[1..], i - 1);
    }
  }

  /**
   * After the normalisation `type` and `id` are aliases of `@type` and
   * `@id`, a key is present exactly when it was present or is one of those
   * two, and every dict definition has a set container and no `@type`
   * other than `@id`.
   */
  lemma NormaliseContextShape(ctx: Context, k: string)
    requires WellFormed(ctx)
    ensures Get(NormaliseContext(ctx), "type") == Some(TypeValue)
    ensures Get(NormaliseContext(ctx), "id") == Some(IdValue)
    ensures HasKey(NormaliseContext(ctx), k) <==> HasKey(ctx, k) || k == "type" || k == "id"
    ensures Get(NormaliseContext(ctx), k).Some? ==> Normalised(Get(NormaliseContext(ctx), k).value)
    ensures WellFormed(NormaliseContext(ctx))
  {
    var c := WithAliases(ctx);
    WithAliasesWellFormed(ctx);
    GetNormaliseEntries(c, k);
    GetNormaliseEntries(c, "type");
    GetNormaliseEntries(c, "id");
    if Get(c, k).Some? {
      GetIsSomeEntry(c, k);
    }
    var r := NormaliseContext(ctx);
    assert DistinctKeys(r) by {
      forall i, j | 0 <= i < j < |r| ensures r[i].0 != r[j].0 {
        assert r[i].0 == c[i].0 && r[j].0 == c[j].0;
      }
    }
  }

  /** Running the normalisation a second time changes nothing. */
  lemma NormaliseContextIdempotent(ctx: Context)
    requires WellFormed(ctx)
    ensures NormaliseContext(NormaliseContext(ctx)) == NormaliseContext(ctx)
  {
    var c := WithAliases(ctx);
    WithAliasesWellFormed(ctx);
    var r := NormaliseContext(ctx);
    NormaliseContextShape(ctx, "type");
    GetNormaliseEntries(c, "type");
    GetNormaliseEntries(c, "id");
    assert WithAliases(r) == r by {
      PutSame(r, "type", TypeValue);
      PutSame(r, "id", IdValue);
    }
    forall i | 0 <= i < |r| ensures NormaliseEntry(r[i].1) == r[i].1 {
      NormaliseEntryIdempotent(c[i].1);
    }
  }

  // ---------------------------------------------------------------------
  // `overwrite_endpoint_context` and `merge`.

  /** Assignments of `ws` restricted to keys `ctx` already holds, in order. */
  function OverwriteWrites(ctx: Context, ws: Fields): (r: Fields)
    ensures forall i :: 0 <= i < |r| ==> HasKey(ctx, r[i].0)
  {
    if ws == [] then []
    else
      var init := OverwriteWrites(ctx, ws[..|ws| - 1]);
      if HasKey(ctx, ws[|ws| - 1].0) then init + [ws[|ws| - 1]] else init
  }

  /** `overwrite_endpoint_context`: each overwrite term replaces the term of that name, if the endpoint context has one. */
  function OverwriteEndpointContext(endpoint: Context, overwrite: Context): Context
  {
    PutAll(endpoint, OverwriteWrites(endpoint, overwrite))
  }

  lemma {:induction false} OverwriteWritesLast(ctx: Context, ws: Fields, k: string)
    ensures LastWrite(OverwriteWrites(ctx, ws), k) == if HasKey(ctx, k) then LastWrite(ws, k) else None
  {
    if ws != [] {
      var init := ws[..|ws| - 1];
      OverwriteWritesLast(ctx, init, k);
      if HasKey(ctx, ws[|ws| - 1].0) {
        var a := OverwriteWrites(ctx, init);
        assert (a + [ws[|ws| - 1]])[..|a|] == a;
      }
    }
  }

  /** One more overwrite term: it replaces the term of its name when there is one, and is skipped otherwise. */
  lemma OverwriteStep(endpoint: Context, overwrite: Context, i: nat)
    requires i < |overwrite|
    ensures var cur := OverwriteEndpointContext(endpoint, overwrite[..i]);
            var (key, value) := overwrite[i];
            OverwriteEndpointContext(endpoint, overwrite[..i + 1]) ==
              if HasKey(endpoint, key) then Put(cur, key, value) else cur
  {
    var (key, value) := overwrite[i];
    var pre, post := overwrite[..i], overwrite[..i + 1];
    assert post[..|post| - 1] == pre && post[|post| - 1] == (key, value);
    var done := OverwriteWrites(endpoint, pre);
    if HasKey(endpoint, key) {
      assert OverwriteWrites(endpoint, post) == done + [(key, value)];
      assert (done + [(key, value)])[..|done|] == done;
    } else {
      assert OverwriteWrites(endpoint, post) == done;
    }
  }

  /**
   * `overwrite_endpoint_context` adds no key and removes none; a key takes
   * the value of its last overwrite term when there is one, and keeps its
   * value otherwise.
   */
  lemma OverwriteLookup(endpoint: Context, overwrite: Context, k: string)
    ensures HasKey(OverwriteEndpointContext(endpoint, overwrite), k) <==> HasKey(endpoint, k)
    ensures var last := LastWrite(overwrite, k);
            Get(OverwriteEndpointContext(endpoint, overwrite), k) ==
              if HasKey(endpoint, k) && last.Some? then last else Get(endpoint, k)
  {
    OverwriteWritesLast(endpoint, overwrite, k);
    PutAllLookup(endpoint, OverwriteWrites(endpoint, overwrite), k);
  }

  /** Overwriting twice with the same terms is overwriting once. */
  lemma OverwriteIdempotent(endpoint: Context, overwrite: Context)
    requires DistinctKeys(endpoint)
    ensures var once := OverwriteEndpointContext(endpoint, overwrite);
            forall k :: Get(OverwriteEndpointContext(once, overwrite), k) == Get(once, k)
  {
    var once := OverwriteEndpointContext(endpoint, overwrite);
    forall k ensures Get(OverwriteEndpointContext(once, overwrite), k) == Get(once, k) {
      OverwriteLookup(endpoint, overwrite, k);
      OverwriteLookup(once, overwrite, k);
    }
  }

  /** `merge(d1, d2)`, that is `{**d1, **d2}`. */
  function Merge(d1: Context, d2: Context): Context {
    PutAll(d1, d2)
  }

  /** In a merge the second dict wins: a key takes its value from `d2` when `d2` has it, else from `d1`. */
  lemma MergeLookup(d1: Context, d2: Context, k: string)
    requires DistinctKeys(d2)
    ensures Get(Merge(d1, d2), k) == if HasKey(d2, k) then Get(d2, k) else Get(d1, k)
  {
    PutAllLookup(d1, d2, k);
    LastWriteOfDistinct(d2, k);
  }

  /** In a dict with distinct keys, the last write to a key is its value. */
  lemma {:induction false} LastWriteOfDistinct(d: Fields, k: string)
    requires DistinctKeys(d)
    ensures LastWrite(d, k) == Get(d, k)
  {
    if d != [] {
      var init := d[..|d| - 1];
      assert DistinctKeys(init);
      LastWriteOfDistinct(init, k);
      GetAppend(init, d[|d| - 1], k);
      assert init + [d[|d| - 1]] == d;
      if d[|d| - 1].0 == k {
        HasKeyAt(init, k);
      }
    }
  }

  lemma {:induction false} GetAppend(a: Fields, e: (string, Json), k: string)
    ensures Get(a + [e], k) == if HasKey(a, k) then Get(a, k) else if e.0 == k then Some(e.1) else None
  {
    if a != [] {
      assert (a + [e])[1..] == a[1..] + [e];
      GetAppend(a[1..], e, k);
    }
  }
}
