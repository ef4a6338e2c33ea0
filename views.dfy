// transform.py, create_monitoring_views: one view per query file, named after the
// file. Listing the directory and reading the files are not modelled: the files
// arrive as (path, contents) pairs in the order the listing returns them.

module MonitoringViews {
  import opened Text
  import opened Database

  /** `file.split('/')[-1].replace('.sql', '')` */
  function ViewName(path: string): string
  {
    ReplaceAll(LastField(path, '/'), ".sql", "")
  }

  /** A view name never contains a '/'. */
  lemma ViewNameNoSlash(path: string)
    ensures '/' !in ViewName(path)
  {
    if '/' in ViewName(path) {
      ReplaceAllDeletes(LastField(path, '/'), ".sql", '/');
    }
  }

  /** The file `<dir>/<name>.sql` defines the view `<name>`, for a name without '/' or '.'. */
  lemma ViewNameOfFile(dir: string, name: string)
    requires '/' !in name && '.' !in name
    ensures ViewName(dir + "/" + name + ".sql") == name
  {
    assert '/' !in name + ".sql" by {
      assert forall k :: 0 <= k < |name + ".sql"| ==> (name + ".sql")[k] != '/';
    }
    assert dir + "/" + name + ".sql" == dir + ['/'] + (name + ".sql");
    LastFieldAfter(dir, '/', name + ".sql");
    ReplaceAllSuffix(name, ".sql");
  }

  /** Only the last path component names the view. */
  lemma ViewNameOfBase(dir: string, file: string)
    requires '/' !in file
    ensures ViewName(dir + "/" + file) == ReplaceAll(file, ".sql", "")
  {
    assert dir + "/" + file == dir + ['/'] + file;
    LastFieldAfter(dir, '/', file);
  }

  /** Removing `pat` from a component whose first occurrence follows a `pat[0]`-free prefix. */
  lemma LastFieldReplace(dir: string, name: string, pat: string, rest: string)
    requires |pat| > 0 && pat[0] !in name
    requires '/' !in name && '/' !in pat && '/' !in rest
    ensures ReplaceAll(LastField(dir + "/" + (name + pat + rest), '/'), pat, "") == name + ReplaceAll(rest, pat, "")
  {
    var file := name + pat + rest;
    assert forall k :: 0 <= k < |file| ==> file[k] in name || file[k] in pat || file[k] in rest;
    assert dir + "/" + file == dir + ['/'] + file;
    LastFieldAfter(dir, '/', file);
    ReplaceAllFirst(name, pat, rest);
  }

  /**
   * The name loses every occurrence of ".sql", not only a trailing one:
   * `<dir>/<name>.sql<rest>` defines the view `<name>` followed by `<rest>` with
   * its own occurrences removed.
   */
  lemma ViewNameEveryOccurrence(dir: string, name: string, rest: string)
    requires '/' !in name && '/' !in rest && '.' !in name
    ensures ViewName(dir + "/" + (name + ".sql" + rest)) == name + ReplaceAll(rest, ".sql", "")
  {
    assert ".sql"[0] == '.' && '/' !in ".sql";
    LastFieldReplace(dir, name, ".sql", rest);
  }

  /** Each file as the (view name, query) pair `create_view` receives for it. */
  function Definitions(files: seq<(string, string)>): (defs: seq<(string, string)>)
    ensures |defs| == |files|
    ensures forall k :: 0 <= k < |files| ==> defs[k] == (ViewName(files[k].0), files[k].1)
  {
    seq(|files|, k requires 0 <= k < |files| => (ViewName(files[k].0), files[k].1))
  }

  /** The views after the definitions, in order: a later definition of a name replaces the view. */
  function ViewsAfter(views: map<string, string>, defs: seq<(string, string)>): map<string, string>
    decreases |defs|
  {
    if defs == [] then views
    else
      var last := defs[|defs| - 1];
      ViewsAfter(views, defs[..|defs| - 1])[last.0 := last.1]
  }

  /** One more definition replaces (or adds) exactly its own view. */
  lemma ViewsAfterStep(views: map<string, string>, defs: seq<(string, string)>, i: nat)
    requires i < |defs|
    ensures ViewsAfter(views, defs[..i + 1]) == ViewsAfter(views, defs[..i])[defs[i].0 := defs[i].1]
  {
    assert defs[..i + 1][..i] == defs[..i];
  }

  /** Every definition defines its view. */
  lemma {:induction false} ViewsAfterNamed(views: map<string, string>, defs: seq<(string, string)>, k: nat)
    requires k < |defs|
    ensures defs[k].0 in ViewsAfter(views, defs)
    decreases |defs|
  {
    if k < |defs| - 1 {
      ViewsAfterNamed(views, defs[..|defs| - 1], k);
    }
  }

  /** A view holds the query of the last definition of its name. */
  lemma {:induction false} ViewsAfterLastWins(views: map<string, string>, defs: seq<(string, string)>, k: nat)
    requires k < |defs|
    requires forall j :: k < j < |defs| ==> defs[j].0 != defs[k].0
    ensures defs[k].0 in ViewsAfter(views, defs) && ViewsAfter(views, defs)[defs[k].0] == defs[k].1
    decreases |defs|
  {
    ViewsAfterNamed(views, defs, k);
    if k < |defs| - 1 {
      var init := defs[..|defs| - 1];
      assert init[k] == defs[k];
      assert forall j :: k < j < |init| ==> init[j] == defs[j];
      ViewsAfterLastWins(views, init, k);
    }
  }

  /** Views no definition names keep their queries. */
  lemma {:induction false} ViewsAfterOthers(views: map<string, string>, defs: seq<(string, string)>, n: string)
    requires n in views && forall k :: 0 <= k < |defs| ==> defs[k].0 != n
    ensures n in ViewsAfter(views, defs) && ViewsAfter(views, defs)[n] == views[n]
    decreases |defs|
  {
    if defs != [] {
      var init := defs[..|defs| - 1];
      assert forall k :: 0 <= k < |init| ==> init[k] == defs[k];
      ViewsAfterOthers(views, init, n);
    }
  }

  /** `create_monitoring_views` over the listed files: one CREATE OR REPLACE VIEW per file, in order. */
  method CreateMonitoringViews(db: MySqlDb, files: seq<(string, string)>) returns (statements: seq<string>)
    modifies db
    ensures db.tables == old(db.tables)
    ensures db.views == ViewsAfter(old(db.views), Definitions(files))
    ensures |statements| == |files|
    ensures forall k :: 0 <= k < |files| ==>
      statements[k] == Sql.CreateViewStatement(Definitions(files)[k].0, files[k].1)
  {
    ghost var defs := Definitions(files);
    statements := [];
    var i := 0;
    while i < |files|
      invariant 0 <= i <= |files|
      invariant db.tables == old(db.tables)
      invariant db.views == ViewsAfter(old(db.views), defs[..i])
      invariant |statements| == i
      invariant forall k :: 0 <= k < i ==> statements[k] == Sql.CreateViewStatement(defs[k].0, defs[k].1)
    {
      var viewName := ViewName(files[i].0);
      var query := files[i].1;
      assert (viewName, query) == defs[i];
      var statement := db.CreateView(viewName, query);
      statements := statements + [statement];
      ViewsAfterStep(old(db.views), defs, i);
      i := i + 1;
    }
    assert defs[..i] == defs;
  }
}
