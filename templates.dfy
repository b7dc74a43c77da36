/**
 * The query-template table. `read_template` turns the files of one
 * directory into a dict from file stem to query text; the constructor of
 * `QueryManager` reads the `_default_` directory, then, for every entry of the
 * queries directory in listing order, binds the class name to the very same
 * dict object that holds the defaults and writes that directory's templates
 * into it. So there is one table, shared by every class name, in which the
 * last directory that defines a kind wins.
 */
module Templates {
  import opened Wrappers
  import opened Strings
  import opened Static

  /** The files of one directory, in listing order: (file name, file text). */
  type Files = seq<(string, string)>

  /** The class directories of the queries directory, in listing order. */
  type Dirs = seq<(string, Files)>

  /** A table from query kind to query text. */
  type Table = map<string, string>

  predicate EndsWith(s: string, p: string) {
    |p| <= |s| && s[|s| - |p|..] == p
  }

  /**
   * `os.path.splitext(name)[1] == ".rq"`: the name ends in `.rq` and the part
   * before that extension is not made only of dots (`.rq` and `..rq` have no
   * extension at all for `splitext`).
   */
  predicate IsQueryFile(name: string) {
    EndsWith(name, QueryFileExtension) && exists i :: 0 <= i < |name| - 3 && name[i] != '.'
  }

  /** `os.path.splitext(name)[0]` for a query file: the name without `.rq`. */
  function Stem(name: string): (stem: string)
    requires IsQueryFile(name)
    ensures stem + QueryFileExtension == name
  {
    name[..|name| - 3]
  }

  /** The dict `read_template` builds: later files overwrite earlier ones with the same stem. */
  function TemplatesOf(files: Files): Table
  {
    if files == [] then map[]
    else
      var t := TemplatesOf(files[..|files| - 1]);
      var (name, text) := files[|files| - 1];
      if IsQueryFile(name) then t[Stem(name) := text] else t
  }

  /** File `i` is a query file for `kind`. */
  predicate Defines(files: Files, i: int, kind: string)
    requires 0 <= i < |files|
  {
    IsQueryFile(files[i].0) && Stem(files[i].0) == kind
  }

  /**
   * A kind is in the table exactly when some `.rq` file has it as stem, and
   * its text is the text of the last such file.
   */
  lemma {:induction false} TemplatesOfLookup(files: Files, kind: string)
    ensures kind in TemplatesOf(files) <==> exists i :: 0 <= i < |files| && Defines(files, i, kind)
    ensures forall i :: 0 <= i < |files| && Defines(files, i, kind) &&
                        (forall j :: i < j < |files| ==> !Defines(files, j, kind))
                        ==> kind in TemplatesOf(files) && TemplatesOf(files)[kind] == files[i].1
  {
    if files != [] {
      var init := files[..|files| - 1];
      var n := |files| - 1;
      TemplatesOfLookup(init, kind);
      assert forall i :: 0 <= i < n ==> (Defines(init, i, kind) <==> Defines(files, i, kind));
      if !Defines(files, n, kind) {
        assert kind in TemplatesOf(files) <==> kind in TemplatesOf(init);
      }
    }
  }

  /** `read_template`: the loop over the directory listing. */
  method ReadTemplate(files: Files) returns (queries: Table)
    ensures queries == TemplatesOf(files)
  {
    queries := map[];
    var i := 0;
    while i < |files|
      invariant 0 <= i <= |files|
      invariant queries == TemplatesOf(files[..i])
    {
      var (name, text) := files[i];
      assert files[..i + 1][..i] == files[..i];
      if IsQueryFile(name) {
        queries := queries[Stem(name) := text];
      }
      i := i + 1;
    }
    assert files[..i] == files;
  }

  /** The shared table after the defaults were overwritten by the directories in listing order. */
  function SharedTable(defaults: Table, dirs: Dirs): Table
  {
    if dirs == [] then defaults
    else SharedTable(defaults, dirs[..|dirs| - 1]) + TemplatesOf(dirs[|dirs| - 1].1)
  }

  /** The names that `setattr` binds to the shared table. */
  function BoundClasses(dirs: Dirs): set<string>
  {
    {DefaultDir} + set i | 0 <= i < |dirs| :: dirs[i].0
  }

  /** Directory `i` of the listing has a template for `kind`. */
  predicate Overrides(dirs: Dirs, i: int, kind: string)
    requires 0 <= i < |dirs|
  {
    kind in TemplatesOf(dirs[i].1)
  }

  /**
   * Lookup in the shared table: a kind is there when the defaults or some
   * directory define it; the last directory that defines it supplies the
   * text, and the default text stays only where no directory defines it.
   */
  lemma {:induction false} SharedTableLookup(defaults: Table, dirs: Dirs, kind: string)
    ensures kind in SharedTable(defaults, dirs) <==>
              kind in defaults || exists i :: 0 <= i < |dirs| && Overrides(dirs, i, kind)
    ensures forall i :: 0 <= i < |dirs| && Overrides(dirs, i, kind) &&
                        (forall j :: i < j < |dirs| ==> !Overrides(dirs, j, kind))
                        ==> SharedTable(defaults, dirs)[kind] == TemplatesOf(dirs[i].1)[kind]
    ensures (kind in defaults && forall i :: 0 <= i < |dirs| ==> !Overrides(dirs, i, kind)) ==>
              SharedTable(defaults, dirs)[kind] == defaults[kind]
  {
    if dirs != [] {
      var init := dirs[..|dirs| - 1];
      var n := |dirs| - 1;
      SharedTableLookup(defaults, init, kind);
      assert forall i :: 0 <= i < n ==> (Overrides(init, i, kind) <==> Overrides(dirs, i, kind));
      var last := TemplatesOf(dirs[n].1);
      assert SharedTable(defaults, dirs) == SharedTable(defaults, init) + last;
      if kind in last {
        assert Overrides(dirs, n, kind);
        assert SharedTable(defaults, dirs)[kind] == last[kind];
      } else {
        assert !Overrides(dirs, n, kind);
        assert kind in SharedTable(defaults, dirs) <==> kind in SharedTable(defaults, init);
        assert kind in SharedTable(defaults, init) ==>
                 SharedTable(defaults, dirs)[kind] == SharedTable(defaults, init)[kind];
      }
    }
  }

  /** `getattr(self, class)[kind]`; `None` where Python raises. */
  function Resolve(table: Table, classes: set<string>, className: string, kind: string): (r: Option<string>)
    ensures r.Some? <==> className in classes && kind in table
    ensures r.Some? ==> r.value == table[kind]
  {
    if className in classes && kind in table then Some(table[kind]) else None
  }

  /**
   * Every class the constructor bound sees the same templates, whichever
   * directory they came from: an override in one class directory is
   * visible to every other class and to `_default_`.
   */
  lemma SameTemplatesForEveryClass(defaults: Table, dirs: Dirs, c1: string, c2: string, kind: string)
    requires c1 in BoundClasses(dirs) && c2 in BoundClasses(dirs)
    ensures Resolve(SharedTable(defaults, dirs), BoundClasses(dirs), c1, kind)
         == Resolve(SharedTable(defaults, dirs), BoundClasses(dirs), c2, kind)
  {
  }

  /**
   * An instance: class `A` overrides `get_all` and class `B` does not; a
   * request for `B`'s `get_all` still gets `A`'s text.
   */
  lemma OverrideLeaksToOtherClass(dirs: Dirs, defaults: Table, a: string, b: string, mine: string)
    requires a == "A" && b == "B"
    requires dirs == [(a, [("get_all.rq", mine)]), (b, [])]
    ensures Resolve(SharedTable(defaults, dirs), BoundClasses(dirs), b, QueryTypeGetAll) == Some(mine)
  {
    var name := "get_all.rq";
    assert name[0] != '.';
    assert IsQueryFile(name) && Stem(name) == QueryTypeGetAll;
    assert TemplatesOf(dirs[0].1) == map[QueryTypeGetAll := mine];
    assert TemplatesOf(dirs[1].1) == map[];
    assert b == dirs[1].0;
  }

  /** One more directory of the listing: its templates are written over the shared table, its name is bound. */
  lemma DirsSnoc(defaults: Table, dirs: Dirs, i: nat)
    requires i < |dirs|
    ensures SharedTable(defaults, dirs[..i + 1]) == SharedTable(defaults, dirs[..i]) + TemplatesOf(dirs[i].1)
    ensures BoundClasses(dirs[..i + 1]) == BoundClasses(dirs[..i]) + {dirs[i].0}
  {
    var next := dirs[..i + 1];
    assert next[..i] == dirs[..i];
    assert next[i] == dirs[i];
    forall c ensures c in BoundClasses(next) <==> c in BoundClasses(dirs[..i]) + {dirs[i].0} {
      if c in BoundClasses(next) && c != DefaultDir {
        var j :| 0 <= j < |next| && next[j].0 == c;
        if j < i { assert dirs[..i][j].0 == c; }
      }
      if c in BoundClasses(dirs[..i]) && c != DefaultDir {
        var j :| 0 <= j < i && dirs[..i][j].0 == c;
        assert next[j].0 == c;
      }
    }
  }
}
