/** Paths between Diff and Apply: Diff prints the segments with dots between them, Apply
    splits at every dot, so a segment that holds one is not read back as it was. */
module Paths {
  import opened Prelude
  import opened Text
  import opened Entities
  import opened Changes
  import opened DiffEngine

  ghost predicate Plain(path: seq<string>) {
    forall s :: s in path ==> Free(s, '.')
  }

  lemma {:induction false} GlueIsJoin(prefix: string, path: seq<string>)
    requires prefix != ""
    ensures Glue(prefix, path) == Join([prefix] + path, '.')
    decreases |path|
  {
    if path != [] {
      GlueIsJoin(Dotted(prefix, path[0]), path[1..]);
      assert ([prefix] + path)[1..] == [path[0]] + path[1..] == path;
      assert ([Dotted(prefix, path[0])] + path[1..])[1..] == path[1..];
    } else {
      assert [prefix] + path == [prefix];
    }
  }

  /** A path as Apply reads it back. */
  function Reread(path: seq<string>): (r: seq<string>)
    requires path != []
    ensures r != []
  {
    Split(Join(path, '.'), '.')
  }

  lemma PrintedIsReread(path: seq<string>)
    requires path != [] && path[0] != ""
    ensures Split(Glue("", path), '.') == Reread(path)
  {
    GlueIsJoin(path[0], path[1..]);
    assert [path[0]] + path[1..] == path;
  }

  /** Apply reads back the path Diff printed exactly when no segment holds a dot. */
  lemma PrintedPathSplits(path: seq<string>)
    requires path != [] && path[0] != ""
    ensures Split(Glue("", path), '.') == path <==> Plain(path)
  {
    PrintedIsReread(path);
    SplitJoin(path, '.');
  }

  lemma RereadPlain(path: seq<string>)
    requires path != []
    ensures Plain(Reread(path)) && (Plain(path) <==> Reread(path) == path)
  {
    SplitPiecesFree(Join(path, '.'), '.');
    SplitJoin(path, '.');
  }

  /** A first segment without a dot is read back as it was. */
  lemma RereadFirst(k: string, rest: seq<string>)
    requires Free(k, '.')
    ensures Reread([k] + rest) == [k] + (if rest == [] then [] else Reread(rest))
  {
    if rest == [] {
      assert [k] + rest == [k];
      SplitFree(k, '.');
    } else {
      assert ([k] + rest)[1..] == rest;
      SplitAtFirst(k, '.', Join(rest, '.'));
    }
  }

  // ----- Lists of changes -----

  function RereadEdit(e: Edit): Edit {
    if e.path == [] then e else e.(path := Reread(e.path))
  }

  function RereadAll(es: seq<Edit>): (r: seq<Edit>)
    ensures |r| == |es| && forall i :: 0 <= i < |es| ==> r[i] == RereadEdit(es[i])
  {
    if es == [] then [] else [RereadEdit(es[0])] + RereadAll(es[1..])
  }

  /** No segment of any of these paths holds a dot. */
  ghost predicate Dotless(es: seq<Edit>) {
    forall i :: 0 <= i < |es| ==> Plain(es[i].path)
  }

  ghost predicate Rooted(es: seq<Edit>) {
    forall i :: 0 <= i < |es| ==> es[i].path != []
  }

  lemma DotlessReread(es: seq<Edit>)
    requires Dotless(es)
    ensures RereadAll(es) == es
  {
    forall i | 0 <= i < |es| ensures RereadEdit(es[i]) == es[i] {
      if es[i].path != [] { RereadPlain(es[i].path); }
    }
  }

  lemma RereadConcat(ds: seq<Edit>, es: seq<Edit>)
    ensures RereadAll(ds + es) == RereadAll(ds) + RereadAll(es)
  {
  }

  lemma RereadUnder(k: string, es: seq<Edit>)
    requires Free(k, '.')
    ensures RereadAll(Under(k, es)) == Under(k, RereadAll(es))
  {
    forall i | 0 <= i < |es| ensures RereadEdit(Under(k, es)[i]) == Under(k, RereadAll(es))[i] {
      RereadFirst(k, es[i].path);
    }
  }

  lemma DotlessUnder(k: string, es: seq<Edit>)
    ensures Dotless(Under(k, es)) <==> es == [] || (Free(k, '.') && Dotless(es))
  {
    var us := Under(k, es);
    forall i | 0 <= i < |es| ensures Plain(us[i].path) <==> Free(k, '.') && Plain(es[i].path) {
      assert us[i].path == [k] + es[i].path;
    }
    if es != [] { assert Plain(us[0].path) <==> Free(k, '.') && Plain(es[0].path); }
  }

  lemma DotlessConcat(ds: seq<Edit>, es: seq<Edit>)
    ensures Dotless(ds + es) <==> Dotless(ds) && Dotless(es)
  {
    if Dotless(ds + es) {
      forall i | 0 <= i < |ds| ensures Plain(ds[i].path) { assert (ds + es)[i] == ds[i]; }
      forall i | 0 <= i < |es| ensures Plain(es[i].path) { assert (ds + es)[|ds| + i] == es[i]; }
    }
  }

  /** Replaying a printed delta is applying its changes with every path read back. */
  lemma {:induction false} ReplayedIsReread(t: Ty, v: Value, es: seq<Edit>)
    requires HasType(v, t) && forall i :: 0 <= i < |es| ==> es[i].path != [] && es[i].path[0] != ""
    ensures Replayed(t, v, Printed("", es)) == ApplyAll(t, v, RereadAll(es))
    decreases |es|
  {
    if es != [] {
      PrintedIsReread(es[0].path);
      assert Printed("", es)[1..] == Printed("", es[1..]);
      var r := ApplyIn(t, v, es[0].path, es[0].after);
      var r' := ApplyIn(t, v, Reread(es[0].path), es[0].after);
      assert RereadAll(es)[1..] == RereadAll(es[1..]);
      if r'.Ok? { ReplayedIsReread(t, r'.value, es[1..]); }
    }
  }
}
