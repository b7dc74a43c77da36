/**
 * JSON values as the engine sees them after `json.loads`: Python dicts keep
 * their keys in insertion order, so an object is a sequence of (key, value)
 * pairs, and the dict operations `d[k]`, `d[k] = v` and `d.pop(k)` are
 * modelled on that sequence.
 */
module Json {
  import opened Wrappers

  datatype Json =
    | Null
    | Bool(b: bool)
    | Num(n: int)
    | Str(s: string)
    | Arr(items: seq<Json>)
    | Obj(fields: seq<(string, Json)>)

  type Fields = seq<(string, Json)>

  /** Python's `primitives` union (int, str, bool, float); `None` is not one of them. */
  predicate IsPrimitive(v: Json) {
    v.Bool? || v.Num? || v.Str?
  }

  /** `d.get(k)`: the value stored under `k`, if any. */
  function Get(fs: Fields, k: string): Option<Json> {
    if fs == [] then None
    else if fs[0].0 == k then Some(fs[0].1)
    else Get(fs[1..], k)
  }

  /** `k in d`. */
  predicate HasKey(fs: Fields, k: string) {
    Get(fs, k).Some?
  }

  /** Python dicts never hold a key twice. */
  predicate DistinctKeys(fs: Fields) {
    forall i, j :: 0 <= i < j < |fs| ==> fs[i].0 != fs[j].0
  }

  /**
   * `d[k] = v`: an existing key keeps its place and takes the new value,
   * a new key goes at the end.
   */
  function Put(fs: Fields, k: string, v: Json): (r: Fields)
    ensures Get(r, k) == Some(v)
    ensures forall j :: j != k ==> Get(r, j) == Get(fs, j)
    ensures !HasKey(fs, k) ==> r == fs + [(k, v)]
    ensures HasKey(fs, k) ==> |r| == |fs| && forall i :: 0 <= i < |r| ==> r[i].0 == fs[i].0
  {
    if fs == [] then [(k, v)]
    else if fs[0].0 == k then [(k, v)] + fs[1..]
    else [fs[0]] + Put(fs[1..], k, v)
  }

  /** `d.pop(k)` on a dict that holds `k` (and `remove_jsonld_key`'s `pop` when it does not). */
  function Pop(fs: Fields, k: string): (r: Fields)
    ensures forall j :: j != k ==> Get(r, j) == Get(fs, j)
    ensures !HasKey(fs, k) ==> r == fs
    ensures |r| <= |fs|
  {
    if fs == [] then []
    else if fs[0].0 == k then fs[1..]
    else [fs[0]] + Pop(fs[1..], k)
  }

  lemma {:induction false} PutSame(fs: Fields, k: string, v: Json)
    requires Get(fs, k) == Some(v)
    ensures Put(fs, k, v) == fs
  {
    if fs != [] && fs[0].0 != k {
      PutSame(fs[1..], k, v);
    }
  }

  /** `k in d` holds exactly when some entry carries the key `k`. */
  lemma {:induction false} HasKeyAt(fs: Fields, k: string)
    ensures HasKey(fs, k) <==> exists i :: 0 <= i < |fs| && fs[i].0 == k
  {
    if fs != [] {
      HasKeyAt(fs[1..], k);
      if HasKey(fs[1..], k) {
        var i :| 0 <= i < |fs[1..]| && fs[1..][i].0 == k;
        assert fs[i + 1].0 == k;
      }
      if exists i :: 0 <= i < |fs| && fs[i].0 == k {
        var i :| 0 <= i < |fs| && fs[i].0 == k;
        if i > 0 { assert fs[1..][i - 1].0 == k; }
      }
    }
  }

  /** Assignment keeps a dict's keys distinct. */
  lemma PutDistinct(fs: Fields, k: string, v: Json)
    requires DistinctKeys(fs)
    ensures DistinctKeys(Put(fs, k, v))
  {
    var r := Put(fs, k, v);
    if !HasKey(fs, k) {
      HasKeyAt(fs, k);
      assert r == fs + [(k, v)];
    }
  }

  /** After `pop` the key is gone and the others stay distinct. */
  lemma {:induction false} PopDistinct(fs: Fields, k: string)
    requires DistinctKeys(fs)
    ensures DistinctKeys(Pop(fs, k)) && !HasKey(Pop(fs, k), k)
  {
    if fs != [] {
      if fs[0].0 == k {
        HasKeyAt(fs[1..], k);
        forall i | 0 <= i < |fs[1..]| ensures fs[1..][i].0 != k {
          assert fs[1..][i] == fs[i + 1];
        }
      } else {
        assert DistinctKeys(fs[1..]) by {
          forall i, j | 0 <= i < j < |fs[1..]| ensures fs[1..][i].0 != fs[1..][j].0 {
            assert fs[1..][i] == fs[i + 1] && fs[1..][j] == fs[j + 1];
          }
        }
        PopDistinct(fs[1..], k);
        var t := Pop(fs[1..], k);
        HasKeyAt(fs[1..], fs[0].0);
        HasKeyAt(t, fs[0].0);
        assert !HasKey(fs[1..], fs[0].0) by {
          forall i | 0 <= i < |fs[1..]| ensures fs[1..][i].0 != fs[0].0 {
            assert fs[1..][i] == fs[i + 1];
          }
        }
        assert Get(t, fs[0].0) == Get(fs[1..], fs[0].0);
        var r := [fs[0]] + t;
        forall i, j | 0 <= i < j < |r| ensures r[i].0 != r[j].0 {
          if i == 0 {
            assert r[j] == t[j - 1];
          } else {
            assert r[i] == t[i - 1] && r[j] == t[j - 1];
          }
        }
      }
    }
  }

  /** `d[k] = v` for every (k, v) of `ws` in order; also `{**d, **ws}`. */
  function PutAll(fs: Fields, ws: Fields): Fields
  {
    if ws == [] then fs
    else Put(PutAll(fs, ws[..|ws| - 1]), ws[|ws| - 1].0, ws[|ws| - 1].1)
  }

  /** The value of the last write to `k` in `ws`, if any. */
  function LastWrite(ws: Fields, k: string): Option<Json>
  {
    if ws == [] then None
    else if ws[|ws| - 1].0 == k then Some(ws[|ws| - 1].1)
    else LastWrite(ws[..|ws| - 1], k)
  }

  /** A sequence of assignments: the last write to a key wins, keys not written keep their value. */
  lemma {:induction false} PutAllLookup(fs: Fields, ws: Fields, k: string)
    ensures Get(PutAll(fs, ws), k) == if LastWrite(ws, k).Some? then LastWrite(ws, k) else Get(fs, k)
  {
    if ws != [] {
      PutAllLookup(fs, ws[..|ws| - 1], k);
    }
  }

  lemma {:induction false} PutAllAppend(fs: Fields, a: Fields, b: Fields)
    ensures PutAll(fs, a + b) == PutAll(PutAll(fs, a), b)
  {
    if b == [] {
      assert a + b == a;
    } else {
      assert (a + b)[..|a + b| - 1] == a + b[..|b| - 1];
      PutAllAppend(fs, a, b[..|b| - 1]);
    }
  }

  lemma {:induction false} LastWriteAppend(a: Fields, b: Fields, k: string)
    ensures LastWrite(a + b, k) == if LastWrite(b, k).Some? then LastWrite(b, k) else LastWrite(a, k)
  {
    if b == [] {
      assert a + b == a;
    } else {
      assert (a + b)[..|a + b| - 1] == a + b[..|b| - 1];
      LastWriteAppend(a, b[..|b| - 1], k);
    }
  }

  /** Some write targets `k` exactly when the last write to `k` exists. */
  lemma {:induction false} LastWriteSome(ws: Fields, k: string)
    ensures LastWrite(ws, k).Some? <==> exists i :: 0 <= i < |ws| && ws[i].0 == k
  {
    if ws != [] {
      var init := ws[..|ws| - 1];
      LastWriteSome(init, k);
      if exists i :: 0 <= i < |init| && init[i].0 == k {
        var i :| 0 <= i < |init| && init[i].0 == k;
        assert ws[i].0 == k;
      }
      if exists i :: 0 <= i < |ws| && ws[i].0 == k {
        var i :| 0 <= i < |ws| && ws[i].0 == k;
        if i < |init| { assert init[i].0 == k; }
      }
    }
  }

  /** Assignments keep a dict's keys distinct. */
  lemma {:induction false} PutAllDistinct(fs: Fields, ws: Fields)
    requires DistinctKeys(fs)
    ensures DistinctKeys(PutAll(fs, ws))
  {
    if ws != [] {
      PutAllDistinct(fs, ws[..|ws| - 1]);
      PutDistinct(PutAll(fs, ws[..|ws| - 1]), ws[|ws| - 1].0, ws[|ws| - 1].1);
    }
  }
}
