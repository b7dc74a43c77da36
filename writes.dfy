/**
 * The write side of `QueryManager`: the SPARQL texts of `insert_query` and
 * `delete_query`, the statements `get_insert_query` keeps from rdflib's
 * Turtle, the document `prepare_jsonld` builds, and what `post_resource`,
 * `put_resource` and `delete_resource` send to the store and answer.
 */
module Writes {
  import opened Wrappers
  import opened Json
  import opened Strings
  import opened Static
  import opened Utils
  import opened Routing
  import opened Traversal
  import opened Contexts
  import opened Framing
  import opened Remote

  // ---------------------------------------------------------------------
  // Query texts.

  /** One line of the prefix block: `PREFIX <name>: <<iri>>`. */
  function PrefixLine(ns: (string, string)): string {
    "PREFIX " + ns.0 + ": <" + ns.1 + ">"
  }

  /** The prefix lines of `get_insert_query`, one per namespace of the graph, in order. */
  function PrefixLines(namespaces: seq<(string, string)>): seq<string>
  {
    if namespaces == [] then []
    else PrefixLines(namespaces[..|namespaces| - 1]) + [PrefixLine(namespaces[|namespaces| - 1])]
  }

  const PrefixDirective := "@prefix"
  const NewLine := "\n"

  /** The statement lines of `get_insert_query`: every line of the Turtle text that does not start with `@prefix`. */
  function TripleLines(lines: seq<string>): seq<string>
  {
    if lines == [] then []
    else
      var last := lines[|lines| - 1];
      TripleLines(lines[..|lines| - 1]) + (if StartsWith(last, PrefixDirective) then [] else [last])
  }

  /** `insert_query`: the prefix block runs straight into the update. */
  function InsertQueryText(prefixes: string, g: string, triples: string): string {
    prefixes + "INSERT DATA { GRAPH <" + g + "> { " + triples + " } }"
  }

  /** The first query of `delete_query`: every triple whose subject is the resource. */
  function DeleteOutgoingText(g: string, r: string): string {
    "DELETE WHERE { GRAPH <" + g + "> { <" + r + "> ?p ?o . } }"
  }

  /** The second query of `delete_query`: every triple whose object is the resource. */
  function DeleteIncomingText(g: string, r: string): string {
    "DELETE WHERE { GRAPH <" + g + "> { ?s ?p <" + r + ">  } }"
  }

  lemma StripPrefix(p: string, x: string, y: string)
    requires p + x == p + y
    ensures x == y
  {
    assert x == (p + x)[|p|..];
    assert y == (p + y)[|p|..];
  }

  lemma StripSuffix(x: string, y: string, s: string)
    requires x + s == y + s
    ensures x == y
  {
    assert x == (x + s)[..|x|];
    assert y == (y + s)[..|y|];
  }

  /** In `a + [c] + r` with `c` not in `a`, the first `c` is at `|a|`. */
  lemma FirstAt(c: char, a: string, r: string)
    requires c !in a
    ensures (a + [c] + r)[|a|] == c
    ensures forall i :: 0 <= i < |a| ==> (a + [c] + r)[i] != c
  {
    forall i | 0 <= i < |a| ensures (a + [c] + r)[i] != c {
      assert (a + [c] + r)[i] == a[i];
    }
  }

  /** A text cut at the first occurrence of a character that the part before it does not hold. */
  lemma CutAt(c: char, a1: string, r1: string, a2: string, r2: string)
    requires c !in a1 && c !in a2
    requires a1 + [c] + r1 == a2 + [c] + r2
    ensures a1 == a2 && r1 == r2
  {
    var s := a1 + [c] + r1;
    var t := a2 + [c] + r2;
    FirstAt(c, a1, r1);
    FirstAt(c, a2, r2);
    assert |a1| == |a2|;
    assert a1 == s[..|a1|] && a2 == t[..|a2|];
    assert r1 == s[|a1| + 1..] && r2 == t[|a2| + 1..];
  }

  /** A prefix line gives back its namespace when the name holds no colon. */
  lemma PrefixLineReadBack(n1: (string, string), n2: (string, string))
    requires ':' !in n1.0 && ':' !in n2.0
    requires PrefixLine(n1) == PrefixLine(n2)
    ensures n1 == n2
  {
    var tail1, tail2 := " <" + n1.1 + ">", " <" + n2.1 + ">";
    assert PrefixLine(n1) == "PREFIX " + (n1.0 + [':'] + tail1);
    assert PrefixLine(n2) == "PREFIX " + (n2.0 + [':'] + tail2);
    StripPrefix("PREFIX ", n1.0 + [':'] + tail1, n2.0 + [':'] + tail2);
    CutAt(':', n1.0, tail1, n2.0, tail2);
    assert tail1 == " <" + (n1.1 + ">") && tail2 == " <" + (n2.1 + ">");
    StripPrefix(" <", n1.1 + ">", n2.1 + ">");
    StripSuffix(n1.1, n2.1, ">");
  }

  /**
   * From an insert text and its prefix block the graph and the statements
   * can be read back, as long as the graph IRI holds no `>`.
   */
  lemma InsertQueryReadBack(p: string, g1: string, t1: string, g2: string, t2: string)
    requires '>' !in g1 && '>' !in g2
    requires InsertQueryText(p, g1, t1) == InsertQueryText(p, g2, t2)
    ensures g1 == g2 && t1 == t2
  {
    var head := p + "INSERT DATA { GRAPH <";
    var rest1, rest2 := " { " + t1 + " } }", " { " + t2 + " } }";
    assert InsertQueryText(p, g1, t1) == head + (g1 + ['>'] + rest1);
    assert InsertQueryText(p, g2, t2) == head + (g2 + ['>'] + rest2);
    StripPrefix(head, g1 + ['>'] + rest1, g2 + ['>'] + rest2);
    CutAt('>', g1, rest1, g2, rest2);
    assert rest1 == " { " + (t1 + " } }") && rest2 == " { " + (t2 + " } }");
    StripPrefix(" { ", t1 + " } }", t2 + " } }");
    StripSuffix(t1, t2, " } }");
  }

  /** A delete text, cut after the graph IRI. */
  lemma DeleteCut(g1: string, x1: string, g2: string, x2: string)
    requires '>' !in g1 && '>' !in g2
    requires "DELETE WHERE { GRAPH <" + g1 + x1 == "DELETE WHERE { GRAPH <" + g2 + x2
    requires |x1| > 0 && |x2| > 0 && x1[0] == '>' && x2[0] == '>'
    ensures g1 == g2 && x1 == x2
  {
    var head := "DELETE WHERE { GRAPH <";
    assert x1 == [x1[0]] + x1[1..] && x2 == [x2[0]] + x2[1..];
    assert head + g1 + x1 == head + (g1 + ['>'] + x1[1..]);
    assert head + g2 + x2 == head + (g2 + ['>'] + x2[1..]);
    StripPrefix(head, g1 + ['>'] + x1[1..], g2 + ['>'] + x2[1..]);
    CutAt('>', g1, x1[1..], g2, x2[1..]);
  }

  /** The first delete names its graph and its resource unambiguously. */
  lemma DeleteOutgoingReadBack(g1: string, r1: string, g2: string, r2: string)
    requires '>' !in g1 && '>' !in g2 && '>' !in r1 && '>' !in r2
    requires DeleteOutgoingText(g1, r1) == DeleteOutgoingText(g2, r2)
    ensures g1 == g2 && r1 == r2
  {
    var tail1, tail2 := " ?p ?o . } }", " ?p ?o . } }";
    var x1, x2 := "> { <" + r1 + ">" + tail1, "> { <" + r2 + ">" + tail2;
    assert DeleteOutgoingText(g1, r1) == "DELETE WHERE { GRAPH <" + g1 + x1;
    assert DeleteOutgoingText(g2, r2) == "DELETE WHERE { GRAPH <" + g2 + x2;
    DeleteCut(g1, x1, g2, x2);
    assert x1 == "> { <" + (r1 + ['>'] + tail1);
    assert x2 == "> { <" + (r2 + ['>'] + tail2);
    StripPrefix("> { <", r1 + ['>'] + tail1, r2 + ['>'] + tail2);
    CutAt('>', r1, tail1, r2, tail2);
  }

  /** The second delete names its graph and its resource unambiguously. */
  lemma DeleteIncomingReadBack(g1: string, r1: string, g2: string, r2: string)
    requires '>' !in g1 && '>' !in g2 && '>' !in r1 && '>' !in r2
    requires DeleteIncomingText(g1, r1) == DeleteIncomingText(g2, r2)
    ensures g1 == g2 && r1 == r2
  {
    var tail1, tail2 := "  } }", "  } }";
    var x1, x2 := "> { ?s ?p <" + r1 + ">" + tail1, "> { ?s ?p <" + r2 + ">" + tail2;
    assert DeleteIncomingText(g1, r1) == "DELETE WHERE { GRAPH <" + g1 + x1;
    assert DeleteIncomingText(g2, r2) == "DELETE WHERE { GRAPH <" + g2 + x2;
    DeleteCut(g1, x1, g2, x2);
    assert x1 == "> { ?s ?p <" + (r1 + ['>'] + tail1);
    assert x2 == "> { ?s ?p <" + (r2 + ['>'] + tail2);
    StripPrefix("> { ?s ?p <", r1 + ['>'] + tail1, r2 + ['>'] + tail2);
    CutAt('>', r1, tail1, r2, tail2);
  }

  /** The two deletes never coincide: one names the resource as subject, the other as object. */
  lemma DeletesDiffer(g1: string, r1: string, g2: string, r2: string)
    requires '>' !in g1 && '>' !in g2
    ensures DeleteOutgoingText(g1, r1) != DeleteIncomingText(g2, r2)
  {
    var x1 := "> { <" + r1 + "> ?p ?o . } }";
    var x2 := "> { ?s ?p <" + r2 + ">  } }";
    assert DeleteOutgoingText(g1, r1) == "DELETE WHERE { GRAPH <" + g1 + x1;
    assert DeleteIncomingText(g2, r2) == "DELETE WHERE { GRAPH <" + g2 + x2;
    assert x1[4] == '<' && x2[4] == '?';
    if DeleteOutgoingText(g1, r1) == DeleteIncomingText(g2, r2) {
      DeleteCut(g1, x1, g2, x2);
      assert false;
    }
  }

  /** A line is kept by `get_insert_query` exactly when it is a line of the Turtle text not starting with `@prefix`. */
  lemma {:induction false} TripleLinesMembership(lines: seq<string>, x: string)
    ensures x in TripleLines(lines) <==> x in lines && !StartsWith(x, PrefixDirective)
  {
    if lines != [] {
      var init := lines[..|lines| - 1];
      TripleLinesMembership(init, x);
      assert lines == init + [lines[|lines| - 1]];
    }
  }

  /** Without `@prefix` lines the filter keeps every line, in order. */
  lemma {:induction false} TripleLinesKeepAll(lines: seq<string>)
    requires forall i :: 0 <= i < |lines| ==> !StartsWith(lines[i], PrefixDirective)
    ensures TripleLines(lines) == lines
  {
    if lines != [] {
      var init := lines[..|lines| - 1];
      TripleLinesKeepAll(init);
      assert lines == init + [lines[|lines| - 1]];
    }
  }

  /** A Turtle text without `@prefix` lines is sent as it is: splitting and joining on newlines gives it back. */
  lemma TurtleSentAsIs(turtle: string)
    requires forall i :: 0 <= i < |SplitOn(turtle, NewLine)| ==> !StartsWith(SplitOn(turtle, NewLine)[i], PrefixDirective)
    ensures JoinWith(TripleLines(SplitOn(turtle, NewLine)), NewLine) == turtle
  {
    TripleLinesKeepAll(SplitOn(turtle, NewLine));
    JoinSplit(turtle, NewLine);
  }

  /** Every prefix line names the namespace in its place. */
  lemma {:induction false} PrefixLinesAt(namespaces: seq<(string, string)>, i: int)
    requires 0 <= i < |namespaces|
    ensures |PrefixLines(namespaces)| == |namespaces|
    ensures PrefixLines(namespaces)[i] == PrefixLine(namespaces[i])
  {
    var init := namespaces[..|namespaces| - 1];
    if i < |init| {
      PrefixLinesAt(init, i);
    } else if init != [] {
      PrefixLinesAt(init, 0);
    }
  }

  // ---------------------------------------------------------------------
  // Inserting one resource.

  /** The JSON-LD document `prepare_jsonld` serialises: the resource with the engine's context under `@context`. */
  function Document(resource: Fields, ctx: Context): Json {
    Obj(Put(resource, ContextKey, Obj(ctx)))
  }

  /** A dict whose `id` is a string, as every caller of `prepare_jsonld` on a dict provides. */
  predicate HasStringId(resource: Fields) {
    Get(resource, IdKey).Some? && Get(resource, IdKey).value.Str?
  }

  /** `prepare_jsonld` on a dict: its `id` made an IRI (in the caller's dict too), and the document to parse. */
  function PrepareJsonld(m: Minter, resource: Fields, ctx: Context): (Fields, Json)
    requires HasStringId(resource)
  {
    var iri := BuildInstanceUri(m.isUrl, m.uriPrefix, Get(resource, IdKey).value.s);
    var updated := Put(resource, IdKey, Str(iri));
    (updated, Document(updated, ctx))
  }

  /**
   * The resource keeps every key and value but `id`, which becomes the
   * instance IRI of the old one; the document holds the same entries plus
   * the context. Preparing the result again changes nothing once its IRI
   * passes as a URL.
   */
  lemma PrepareJsonldFacts(m: Minter, resource: Fields, ctx: Context)
    requires HasStringId(resource)
    ensures var (updated, doc) := PrepareJsonld(m, resource, ctx);
            var iri := BuildInstanceUri(m.isUrl, m.uriPrefix, Get(resource, IdKey).value.s);
            Get(updated, IdKey) == Some(Str(iri)) &&
            (forall k :: k != IdKey ==> Get(updated, k) == Get(resource, k)) &&
            doc.Obj? && Get(doc.fields, ContextKey) == Some(Obj(ctx)) &&
            (forall k :: k != ContextKey ==> Get(doc.fields, k) == Get(updated, k)) &&
            (m.isUrl(iri) ==> PrepareJsonld(m, updated, ctx) == (updated, doc))
  {
    var (updated, doc) := PrepareJsonld(m, resource, ctx);
    var iri := BuildInstanceUri(m.isUrl, m.uriPrefix, Get(resource, IdKey).value.s);
    if m.isUrl(iri) {
      PutSame(updated, IdKey, Str(iri));
    }
  }

  /** `get_insert_query`, the joins and `insert_query` on a document: the update sent and whether it returned; `None` when rdflib raised. */
  function InsertAll(store: Store, doc: Json, g: string): Option<(Call, bool)>
  {
    match store.turtle(doc)
    case None => None
    case Some((namespaces, turtle)) =>
      var prefixes := JoinWith(PrefixLines(namespaces), NewLine);
      var triples := JoinWith(TripleLines(SplitOn(turtle, NewLine)), NewLine);
      var q := InsertQueryText(prefixes, g, triples);
      Some((Update(q), store.update(q)))
  }

  /**
   * An insert is one update into the user's graph, carrying the namespaces
   * as prefix lines and the Turtle statements; its outcome is the store's.
   * A Turtle text without `@prefix` lines is carried whole.
   */
  lemma InsertAllFacts(store: Store, doc: Json, g: string)
    requires store.turtle(doc).Some?
    ensures var (namespaces, turtle) := store.turtle(doc).value;
            var r := InsertAll(store, doc, g);
            r.Some? && r.value.0.Update? && r.value.1 == store.update(r.value.0.text) &&
            ((forall i :: 0 <= i < |SplitOn(turtle, NewLine)| ==> !StartsWith(SplitOn(turtle, NewLine)[i], PrefixDirective)) ==>
               r.value.0.text == InsertQueryText(JoinWith(PrefixLines(namespaces), NewLine), g, turtle))
  {
    var (namespaces, turtle) := store.turtle(doc).value;
    if forall i :: 0 <= i < |SplitOn(turtle, NewLine)| ==> !StartsWith(SplitOn(turtle, NewLine)[i], PrefixDirective) {
      TurtleSentAsIs(turtle);
    }
  }

  // ---------------------------------------------------------------------
  // `delete_query`.

  const Deleted := Answer(Str("Deleted"), 202)
  const DeleteFailed := Answer(Str("Error delete query"), 405)

  /** `delete_query`: the queries sent and the answer. */
  function DeleteQuery(store: Store, g: string, r: string, incoming: bool): (seq<Call>, Reply)
  {
    var out := DeleteOutgoingText(g, r);
    if !store.query(out) then ([Query(out)], DeleteFailed)
    else if incoming then
      var inc := DeleteIncomingText(g, r);
      ([Query(out), Query(inc)], if store.query(inc) then Deleted else DeleteFailed)
    else ([Query(out)], Deleted)
  }

  /**
   * The outgoing triples are always deleted first; the incoming ones only
   * when asked for and after the first delete went through. The answer is
   * `Deleted` exactly when every query sent went through, and the error
   * otherwise.
   */
  lemma DeleteQueryProtocol(store: Store, g: string, r: string, incoming: bool)
    ensures var (calls, reply) := DeleteQuery(store, g, r, incoming);
            1 <= |calls| <= 2 && calls[0] == Query(DeleteOutgoingText(g, r)) &&
            (|calls| == 2 <==> incoming && store.query(DeleteOutgoingText(g, r))) &&
            (|calls| == 2 ==> calls[1] == Query(DeleteIncomingText(g, r))) &&
            (reply == Deleted <==> forall i :: 0 <= i < |calls| ==> store.query(calls[i].text)) &&
            (reply == Deleted || reply == DeleteFailed)
  {
  }

  // ---------------------------------------------------------------------
  // `post_resource`.

  const TypeField := "type"

  /**
   * The class test of `post_resource`: a `type` that does not hold the class
   * gets it appended, and otherwise `type` becomes the one-element list.
   * `None` where Python raises: `in` on a number, boolean or `None`, or
   * `append` on a value that is not a list.
   */
  function WithType(body: Fields, uri: string): Option<Fields>
  {
    if HasKey(body, TypeField) then
      var t := Get(body, TypeField).value;
      match Membership(t, uri)
      case None => None
      case Some(present) =>
        if present then Some(Put(body, TypeField, Arr([Str(uri)])))
        else if t.Arr? then Some(Put(body, TypeField, Arr(t.items + [Str(uri)])))
        else None
    else Some(Put(body, TypeField, Arr([Str(uri)])))
  }

  /**
   * After the class test the body's `type` is a list naming the class and
   * nothing else changed. A list without the class keeps its types and gets
   * the class at the end; a `type` that already names the class (also as a
   * substring of a string, or as a key of a dict) is reset to that class
   * alone. The test raises exactly on a `type` without membership test, or
   * one without the class that is not a list.
   */
  lemma WithTypeFacts(body: Fields, uri: string)
    ensures var r := WithType(body, uri);
            var t := Get(body, TypeField);
            (r.None? <==> t.Some? && (Membership(t.value, uri).None? ||
                                      (Membership(t.value, uri) == Some(false) && !t.value.Arr?))) &&
            (r.Some? ==> (forall k :: k != TypeField ==> Get(r.value, k) == Get(body, k)) &&
                         Get(r.value, TypeField).Some? && Get(r.value, TypeField).value.Arr? &&
                         Str(uri) in Get(r.value, TypeField).value.items) &&
            (t.Some? && t.value.Arr? && Str(uri) !in t.value.items ==>
               r == Some(Put(body, TypeField, Arr(t.value.items + [Str(uri)])))) &&
            (t.Some? && Membership(t.value, uri) == Some(true) ==> Get(r.value, TypeField) == Some(Arr([Str(uri)])))
  {
  }

  /** Assigning a walkable value keeps a dict walkable. */
  lemma {:induction false} PutWalkable(fs: Fields, k: string, v: Json)
    requires Walkable(Obj(fs)) && Walkable(v)
    ensures Walkable(Obj(Put(fs, k, v)))
  {
    if fs != [] && fs[0].0 != k {
      assert Walkable(Obj(fs[1..])) by {
        forall i | 0 <= i < |fs[1..]| ensures Walkable(fs[1..][i].1) {
          assert fs[1..][i] == fs[i + 1];
        }
      }
      PutWalkable(fs[1..], k, v);
      var r := Put(fs, k, v);
      assert r == [fs[0]] + Put(fs[1..], k, v);
      forall i | 0 <= i < |r| ensures Walkable(r[i].1) {
        if i > 0 {
          assert r[i] == Put(fs[1..], k, v)[i - 1];
        }
      }
    } else if fs != [] {
      var r := Put(fs, k, v);
      forall i | 0 <= i < |r| ensures Walkable(r[i].1) {
        if i > 0 {
          assert r[i] == fs[i];
        }
      }
    }
  }

  /** The class test keeps a walkable body walkable. */
  lemma WithTypeWalkable(body: Fields, uri: string)
    requires Walkable(Obj(body)) && WithType(body, uri).Some?
    ensures Walkable(Obj(WithType(body, uri).value))
  {
    if HasKey(body, TypeField) {
      var t := Get(body, TypeField).value;
      if Membership(t, uri) == Some(false) {
        GetIsValue(body, TypeField);
        var items := t.items + [Str(uri)];
        assert Walkable(Arr(items)) by {
          forall i | 0 <= i < |items|
            ensures (IsPrimitive(items[i]) || items[i].Obj?) && Walkable(items[i])
          {
            if i < |t.items| {
              assert items[i] == t.items[i];
            }
          }
        }
        PutWalkable(body, TypeField, Arr(items));
        return;
      }
    }
    PutWalkable(body, TypeField, Arr([Str(uri)]));
  }

  /** A value found under a key of a walkable dict is walkable. */
  lemma {:induction false} GetIsValue(fs: Fields, k: string)
    requires Walkable(Obj(fs)) && HasKey(fs, k)
    ensures Walkable(Get(fs, k).value)
  {
    if fs[0].0 != k {
      assert Walkable(Obj(fs[1..])) by {
        forall i | 0 <= i < |fs[1..]| ensures Walkable(fs[1..][i].1) {
          assert fs[1..][i] == fs[i + 1];
        }
      }
      GetIsValue(fs[1..], k);
    }
  }

  /** A key whose value the walk never touches (not a dict, not a list) keeps it. */
  lemma {:induction false} KeptGet(before: Fields, after: Fields, k: string)
    requires |after| == |before| && Kept(before, after, |before|)
    requires Get(before, k).Some? && !Get(before, k).value.Obj? && !Get(before, k).value.Arr?
    ensures Get(after, k) == Get(before, k)
  {
    assert after[0].0 == before[0].0;
    if before[0].0 != k {
      assert Kept(before[1..], after[1..], |before| - 1) by {
        forall j | 0 <= j < |before| - 1
          ensures after[1..][j].0 == before[1..][j].0 &&
                  (!before[1..][j].1.Obj? && !before[1..][j].1.Arr? ==> after[1..][j].1 == before[1..][j].1)
        {
          assert after[1..][j] == after[j + 1] && before[1..][j] == before[j + 1];
        }
      }
      KeptGet(before[1..], after[1..], k);
    }
  }

  /** Assigning an identified value keeps every value of a dict identified. */
  lemma {:induction false} AllIdentifiedPut(fs: Fields, k: string, v: Json)
    requires AllIdentified(fs) && Identified(v)
    ensures AllIdentified(Put(fs, k, v))
  {
    if fs != [] && fs[0].0 != k {
      assert AllIdentified(fs[1..]) by {
        forall i | 0 <= i < |fs[1..]| ensures Identified(fs[1..][i].1) {
          assert fs[1..][i] == fs[i + 1];
        }
      }
      AllIdentifiedPut(fs[1..], k, v);
      var r := Put(fs, k, v);
      assert r == [fs[0]] + Put(fs[1..], k, v);
      forall i | 0 <= i < |r| ensures Identified(r[i].1) {
        if i > 0 {
          assert r[i] == Put(fs[1..], k, v)[i - 1];
        }
      }
    } else if fs != [] {
      var r := Put(fs, k, v);
      forall i | 0 <= i < |r| ensures Identified(r[i].1) {
        if i > 0 {
          assert r[i] == fs[i];
        }
      }
    }
  }

  /** The outcome of a write: the answer, the calls made to the store, the next identifier to draw. */
  datatype Posted = Posted(reply: Reply, calls: seq<Call>, next: nat)

  /** The inserts of the first `i` walked resources: the updates sent, and where rdflib raised if it did. */
  datatype Inserted = Inserted(calls: seq<Call>, crashedAt: Option<nat>)

  /** What `insert_all_resources` would do with each logged resource, in walk order. */
  function Attempts(store: Store, ctx: Context, log: seq<Fields>, g: string): (r: seq<Option<(Call, bool)>>)
    ensures |r| == |log|
  {
    if log == [] then []
    else Attempts(store, ctx, log[..|log| - 1], g) + [InsertAll(store, Document(log[|log| - 1], ctx), g)]
  }

  lemma {:induction false} AttemptsAt(store: Store, ctx: Context, log: seq<Fields>, g: string, i: nat)
    requires i < |log|
    ensures Attempts(store, ctx, log, g)[i] == InsertAll(store, Document(log[i], ctx), g)
  {
    if i < |log| - 1 {
      AttemptsAt(store, ctx, log[..|log| - 1], g, i);
      assert log[..|log| - 1][i] == log[i];
    }
  }

  /** `insert_all_resources` for each logged resource in turn, until one raises. */
  function InsertLog(store: Store, ctx: Context, log: seq<Fields>, g: string, i: nat): Inserted
    requires i <= |log|
  {
    if i == 0 then Inserted([], None)
    else
      var s := InsertLog(store, ctx, log, g, i - 1);
      if s.crashedAt.Some? then s
      else match Attempts(store, ctx, log, g)[i - 1]
        case None => Inserted(s.calls, Some(i - 1))
        case Some((c, _)) => Inserted(s.calls + [c], None)
  }

  /** How far the inserts got: all `i`, or up to the one that raised. */
  function Reached(s: Inserted, i: nat): nat {
    if s.crashedAt.Some? then s.crashedAt.value else i
  }

  /**
   * The resources are inserted in walk order, one update each, up to the
   * first one rdflib cannot parse; the outcome of each update is ignored.
   */
  lemma {:induction false} InsertLogFacts(store: Store, ctx: Context, log: seq<Fields>, g: string, i: nat)
    requires i <= |log|
    ensures var s := InsertLog(store, ctx, log, g, i);
            var c := Reached(s, i);
            c <= i && |s.calls| == c &&
            (forall j :: 0 <= j < c ==> InsertAll(store, Document(log[j], ctx), g).Some? &&
                                        s.calls[j] == InsertAll(store, Document(log[j], ctx), g).value.0) &&
            (s.crashedAt.Some? ==> c < i && InsertAll(store, Document(log[c], ctx), g).None?)
  {
    if i > 0 {
      InsertLogFacts(store, ctx, log, g, i - 1);
      AttemptsAt(store, ctx, log, g, i - 1);
    }
  }

  /** One more logged resource: its insert is attempted, and a raise stops the run there. */
  lemma InsertLogStep(store: Store, ctx: Context, log: seq<Fields>, g: string, i: nat)
    requires i < |log| && InsertLog(store, ctx, log, g, i).crashedAt.None?
    ensures var s := InsertLog(store, ctx, log, g, i);
            var r := InsertAll(store, Document(log[i], ctx), g);
            InsertLog(store, ctx, log, g, i + 1) ==
              if r.None? then Inserted(s.calls, Some(i)) else Inserted(s.calls + [r.value.0], None)
  {
    AttemptsAt(store, ctx, log, g, i);
  }

  /** Once an insert raised, the later ones are never attempted. */
  lemma {:induction false} InsertLogStaysCrashed(store: Store, ctx: Context, log: seq<Fields>, g: string, i: nat, j: nat)
    requires i <= j <= |log|
    requires InsertLog(store, ctx, log, g, i).crashedAt.Some?
    ensures InsertLog(store, ctx, log, g, j) == InsertLog(store, ctx, log, g, i)
  {
    if j > i {
      InsertLogStaysCrashed(store, ctx, log, g, i, j - 1);
    }
  }

  const PostRejected := Answer(Str("Error inserting resource"), 407)

  /**
   * `post_resource(username, body, rdf_type_uri)` with the `n`-th identifier
   * next to draw; the context is the one inserted documents carry.
   */
  function PostResource(store: Store, m: Minter, ctx: Context, graphBase: string,
                        username: Option<string>, body: Fields, uri: string, n: nat): Posted
    requires Walkable(Obj(body))
  {
    match WithType(body, uri)
    case None => Posted(Crash, [], n)
    case Some(typed) =>
      if HasKey(typed, IdKey) then Posted(PostRejected, [], n)
      else
        WithTypeWalkable(body, uri);
        PostWalk(store, m, ctx, GenerateGraph(graphBase, username), typed, n)
  }

  /** The body with its fresh identifier, before the walk. */
  function Stamped(typed: Fields, n: nat): Fields {
    Put(typed, IdKey, Str(FreshId(n)))
  }

  /**
   * The walk of the stamped body, nested dicts numbered from the next
   * identifier: the body keeps its fresh identifier and every dict in it
   * has an `id` afterwards.
   */
  function Walked(m: Minter, typed: Fields, n: nat): (w: Walk<Fields>)
    requires Walkable(Obj(typed))
    ensures Logged(m, w, n + 1) && AllIdentified(w.out)
    ensures Get(w.out, IdKey) == Some(Str(FreshId(n)))
    ensures GrownFields(Stamped(typed, n), w.out)
    ensures w.log == FieldInserts(Stamped(typed, n), w.out, |Stamped(typed, n)|)
  {
    PutWalkable(typed, IdKey, Str(FreshId(n)));
    TraverseObjFacts(m, Stamped(typed, n), n + 1);
    KeptGet(Stamped(typed, n), TraverseObj(m, Stamped(typed, n), n + 1).out, IdKey);
    TraverseObj(m, Stamped(typed, n), n + 1)
  }

  /** Key by key, `id` aside, the walked body has the typed body's keys, each value grown. */
  lemma WalkedKeys(m: Minter, typed: Fields, n: nat)
    requires Walkable(Obj(typed))
    ensures var w := Walked(m, typed, n);
            (forall k :: k != IdKey ==> (HasKey(w.out, k) <==> HasKey(typed, k))) &&
            (forall k :: k != IdKey && HasKey(typed, k) ==> HasKey(w.out, k) && Grown(Get(typed, k).value, Get(w.out, k).value))
  {
    var w := Walked(m, typed, n);
    forall k | k != IdKey
      ensures HasKey(w.out, k) <==> HasKey(typed, k)
      ensures HasKey(typed, k) ==> Grown(Get(typed, k).value, Get(w.out, k).value)
    {
      GrownGet(Stamped(typed, n), w.out, k);
    }
  }

  /** `post_resource` from the drawing of the identifier on: walk, insert the nested resources, insert the body. */
  function PostWalk(store: Store, m: Minter, ctx: Context, g: string, typed: Fields, n: nat): Posted
    requires Walkable(Obj(typed))
  {
    var w := Walked(m, typed, n);
    var ins := InsertLog(store, ctx, w.log, g, |w.log|);
    if ins.crashedAt.Some? then Posted(Crash, ins.calls, n + 1 + ins.crashedAt.value + 1)
    else
      var (top, doc) := PrepareJsonld(m, w.out, ctx);
      match InsertAll(store, doc, g)
      case None => Posted(Crash, ins.calls, w.next)
      case Some((c, ok)) => Posted(if ok then Answer(Obj(top), 201) else PostRejected, ins.calls + [c], w.next)
  }

  /** A body that brings its own `id` is refused before anything is drawn or sent. */
  lemma PostRejectsOwnId(store: Store, m: Minter, ctx: Context, graphBase: string,
                         username: Option<string>, body: Fields, uri: string, n: nat)
    requires Walkable(Obj(body)) && HasKey(body, IdKey) && WithType(body, uri).Some?
    ensures PostResource(store, m, ctx, graphBase, username, body, uri, n) == Posted(PostRejected, [], n)
  {
    WithTypeFacts(body, uri);
    assert Get(WithType(body, uri).value, IdKey) == Get(body, IdKey);
  }

  /**
   * A created resource comes back with the IRI of the identifier drawn for
   * it and an `id` on every dict nested in it.
   */
  lemma PostCreatedResource(store: Store, m: Minter, ctx: Context, g: string, typed: Fields, n: nat)
    requires Walkable(Obj(typed)) && !HasKey(typed, IdKey)
    requires PostWalk(store, m, ctx, g, typed, n).reply.Answer?
    requires PostWalk(store, m, ctx, g, typed, n).reply.code == 201
    ensures var top := PostWalk(store, m, ctx, g, typed, n).reply.body;
            top.Obj? && Get(top.fields, IdKey) == Some(Str(Iri(m, n))) && AllIdentified(top.fields) &&
            (forall k :: k != IdKey ==> (HasKey(top.fields, k) <==> HasKey(typed, k))) &&
            (forall k :: k != IdKey && HasKey(typed, k) ==> Grown(Get(typed, k).value, Get(top.fields, k).value))
  {
    var w := Walked(m, typed, n);
    PrepareJsonldFacts(m, w.out, ctx);
    AllIdentifiedPut(w.out, IdKey, Str(Iri(m, n)));
    WalkedKeys(m, typed, n);
  }

  /**
   * Before a created resource's own insert went through, every nested dict
   * that had no `id` was inserted, in walk order, each with the next
   * identifier; the identifiers drawn are exactly those and the resource's.
   */
  lemma PostCreatedInserts(store: Store, m: Minter, ctx: Context, g: string, typed: Fields, n: nat)
    requires Walkable(Obj(typed)) && !HasKey(typed, IdKey)
    requires PostWalk(store, m, ctx, g, typed, n).reply.Answer?
    requires PostWalk(store, m, ctx, g, typed, n).reply.code == 201
    ensures var p := PostWalk(store, m, ctx, g, typed, n);
            var w := Walked(m, typed, n);
            |p.calls| == |w.log| + 1 && p.next == n + 1 + |w.log| &&
            (forall j :: 0 <= j < |w.log| ==> Get(w.log[j], IdKey) == Some(Str(Iri(m, n + 1 + j))) &&
                                              InsertAll(store, Document(w.log[j], ctx), g).Some? &&
                                              p.calls[j] == InsertAll(store, Document(w.log[j], ctx), g).value.0) &&
            store.update(p.calls[|w.log|].text)
  {
    var w := Walked(m, typed, n);
    InsertLogFacts(store, ctx, w.log, g, |w.log|);
    var p := PostWalk(store, m, ctx, g, typed, n);
    var ins := InsertLog(store, ctx, w.log, g, |w.log|);
    assert ins.crashedAt.None?;
    var doc := PrepareJsonld(m, w.out, ctx).1;
    assert p.calls == ins.calls + [InsertAll(store, doc, g).value.0] && p.next == w.next;
  }

  /**
   * A post ends in one of three ways: an exception, the refusal, or the
   * created resource. When it gets to the end, its last call is the
   * resource's own update, and the resource counts as created exactly when
   * that update went through; the nested inserts' outcomes play no part.
   */
  lemma PostWalkOutcome(store: Store, m: Minter, ctx: Context, g: string, typed: Fields, n: nat)
    requires Walkable(Obj(typed))
    ensures var p := PostWalk(store, m, ctx, g, typed, n);
            (p.reply.Crash? || p.reply == PostRejected || (p.reply.Answer? && p.reply.code == 201)) &&
            (!p.reply.Crash? ==> |p.calls| >= 1 && p.calls[|p.calls| - 1].Update? &&
                                 (p.reply != PostRejected <==> store.update(p.calls[|p.calls| - 1].text)))
  {
  }

  // ---------------------------------------------------------------------
  // `put_resource` and `delete_resource`.

  const MissingUser := Answer(Str("Bad request: missing username"), 400)
  const PutRejected := Answer(Str("Error inserting query"), 407)

  /**
   * `put_resource(id, body, user)`: the body takes the instance IRI of `id`
   * as its `id`; the resource's outgoing triples are deleted and the body
   * is inserted, without any walk of nested dicts. `user` is `None` when
   * the keyword is not passed.
   */
  function PutResource(store: Store, m: Minter, ctx: Context, graphBase: string,
                       id: string, body: Fields, user: Option<string>): (seq<Call>, Reply)
  {
    var iri := BuildInstanceUri(m.isUrl, m.uriPrefix, id);
    var b := Put(body, IdKey, Str(iri));
    if user.None? then ([], MissingUser)
    else
      var g := GenerateGraph(graphBase, user);
      var deletes := DeleteQuery(store, g, iri, false).0;
      match InsertAll(store, Document(b, ctx), g)
      case None => (deletes, Crash)
      case Some((c, ok)) => (deletes + [c], if ok then Answer(Obj(b), 201) else PutRejected)
  }

  /**
   * A put without a user name sends nothing. Otherwise it deletes the
   * outgoing triples of the resource's IRI (never the incoming ones) and,
   * whether or not that went through, inserts the body, which comes back
   * with the IRI as `id` when the insert went through.
   */
  lemma PutResourceFacts(store: Store, m: Minter, ctx: Context, graphBase: string,
                         id: string, body: Fields, user: Option<string>)
    ensures var (calls, reply) := PutResource(store, m, ctx, graphBase, id, body, user);
            var iri := BuildInstanceUri(m.isUrl, m.uriPrefix, id);
            var g := GenerateGraph(graphBase, user);
            var b := Put(body, IdKey, Str(iri));
            (user.None? <==> calls == [] && reply == MissingUser) &&
            (user.Some? ==> 1 <= |calls| <= 2 && calls[0] == Query(DeleteOutgoingText(g, iri)) &&
                            (reply.Crash? <==> store.turtle(Document(b, ctx)).None?) &&
                            (!reply.Crash? ==> |calls| == 2 && calls[1] == InsertAll(store, Document(b, ctx), g).value.0 &&
                                               (reply == Answer(Obj(b), 201) <==> store.update(calls[1].text)) &&
                                               (reply != Answer(Obj(b), 201) ==> reply == PutRejected))) &&
            (reply.Answer? && reply.code == 201 ==>
               reply.body.Obj? && Get(reply.body.fields, IdKey) == Some(Str(iri)) &&
               forall k :: k != IdKey ==> Get(reply.body.fields, k) == Get(body, k))
  {
    if user.Some? {
      DeleteQueryProtocol(store, GenerateGraph(graphBase, user), BuildInstanceUri(m.isUrl, m.uriPrefix, id), false);
    }
  }

  /** `delete_resource(username, resource_id)`: both deletes, on the identifier exactly as given. */
  function DeleteResource(store: Store, graphBase: string, username: Option<string>, resourceId: string): (seq<Call>, Reply)
  {
    DeleteQuery(store, GenerateGraph(graphBase, username), resourceId, true)
  }

  /**
   * `delete_resource` removes the triples naming the identifier as subject
   * and then as object, in the user's graph, without turning it into an
   * IRI first; it answers `Deleted` exactly when both deletes went through.
   */
  lemma DeleteResourceFacts(store: Store, graphBase: string, username: Option<string>, resourceId: string)
    ensures var (calls, reply) := DeleteResource(store, graphBase, username, resourceId);
            var g := GenerateGraph(graphBase, username);
            calls[0] == Query(DeleteOutgoingText(g, resourceId)) &&
            (store.query(DeleteOutgoingText(g, resourceId)) ==> calls == [Query(DeleteOutgoingText(g, resourceId)), Query(DeleteIncomingText(g, resourceId))]) &&
            (reply == Deleted <==> store.query(DeleteOutgoingText(g, resourceId)) && store.query(DeleteIncomingText(g, resourceId)))
  {
    DeleteQueryProtocol(store, GenerateGraph(graphBase, username), resourceId, true);
  }
}
