/**
 * The path part of `updateBreadcrumb` in public/script.js: the "Home" crumb
 * and one crumb per non-empty segment of the current path, each linking to
 * the path up to that segment, the last one marked active.
 */
module Breadcrumb {
  import opened Text

  /** One breadcrumb item: the text shown, its `data-path`, whether it is `active`. */
  datatype Crumb = Crumb(text: string, path: string, active: bool)

  /** `path ? path.split('/').filter(p => p) : []`. */
  function Parts(path: string): (parts: seq<string>)
    ensures path == "" ==> parts == []
    ensures forall i :: 0 <= i < |parts| ==> parts[i] != [] && '/' !in parts[i]
  {
    if path == "" then []
    else
      var pieces := Split(path);
      assert forall p :: p in pieces ==> '/' !in p;
      NonEmpty(pieces)
  }

  /** The Home crumb: active exactly on the root. */
  function Home(path: string): Crumb
  {
    Crumb("Home", "", path == "")
  }

  /** The crumbs after Home: segment `i` links to the first `i + 1` segments joined by "/". */
  function Trail(parts: seq<string>): (crumbs: seq<Crumb>)
    ensures |crumbs| == |parts|
  {
    seq(|parts|, i requires 0 <= i < |parts| => Crumb(parts[i], Join(parts[..i + 1]), i == |parts| - 1))
  }

  /**
   * `updateBreadcrumb(path)`: walk the segments, extending the running path
   * by one segment each step.
   */
  method UpdateBreadcrumb(path: string) returns (home: Crumb, crumbs: seq<Crumb>)
    ensures home == Home(path)
    ensures crumbs == Trail(Parts(path))
  {
    var parts := Parts(path);
    home := Crumb("Home", "", path == "");
    crumbs := [];
    var current := "";
    var index := 0;
    while index < |parts|
      invariant 0 <= index <= |parts|
      invariant current == Join(parts[..index])
      invariant index > 0 ==> current != ""
      invariant crumbs == Trail(parts)[..index]
    {
      assert parts[..index + 1][..index] == parts[..index];
      current := current + (if current != "" then "/" else "") + parts[index];
      var isLast := index == |parts| - 1;
      crumbs := crumbs + [Crumb(parts[index], current, isLast)];
      index := index + 1;
    }
  }

  /** Each crumb's path is the previous one's plus "/" and its own segment. */
  lemma TrailExtends(parts: seq<string>, i: nat)
    requires i + 1 < |parts|
    ensures Trail(parts)[i + 1].path == Trail(parts)[i].path + "/" + parts[i + 1]
    ensures Trail(parts)[i + 1].text == parts[i + 1]
  {
    assert parts[..i + 2][..i + 1] == parts[..i + 1];
  }

  /**
   * The last crumb links to the path with its empty segments dropped, which
   * is the path itself when it has none.
   */
  lemma TrailEndsAtPath(path: string)
    ensures Parts(path) != [] ==> Trail(Parts(path))[|Parts(path)| - 1].path == Join(Parts(path))
    ensures path != "" && (forall p :: p in Split(path) ==> p != []) ==>
      |Trail(Parts(path))| > 0 && Trail(Parts(path))[|Parts(path)| - 1].path == path
  {
    var parts := Parts(path);
    assert parts[..|parts|] == parts;
    if path != "" && forall p :: p in Split(path) ==> p != [] {
      var pieces := Split(path);
      assert forall k :: 0 <= k < |pieces| ==> pieces[k] in pieces;
      assert parts == pieces;
    }
  }

  /**
   * Which crumb is active: Home alone on the root; otherwise the last
   * segment's crumb, and none at all when the path is only slashes.
   */
  lemma ActiveCrumbs(path: string)
    ensures path == "" ==> Home(path).active && Trail(Parts(path)) == []
    ensures Parts(path) != [] ==>
      !Home(path).active && forall i :: 0 <= i < |Parts(path)| ==> (Trail(Parts(path))[i].active <==> i == |Parts(path)| - 1)
    ensures path != "" && Parts(path) == [] ==> !Home(path).active && Trail(Parts(path)) == []
  {
  }

  /** A non-empty path has no segments exactly when it is made of slashes only. */
  lemma NoSegmentsIffSlashes(path: string)
    requires path != ""
    ensures Parts(path) == [] <==> forall k :: 0 <= k < |path| ==> path[k] == '/'
  {
    var pieces := Split(path);
    if Parts(path) == [] {
      assert forall k :: 0 <= k < |pieces| ==> pieces[k] == [] by {
        forall k | 0 <= k < |pieces|
          ensures pieces[k] == []
        {
          assert pieces[k] in pieces;
        }
      }
      JoinOfEmpty(pieces);
    }
    if forall k :: 0 <= k < |path| ==> path[k] == '/' {
      // a non-empty segment would hold a character of the path, a slash
      var segments := NonEmpty(pieces);
      if segments != [] {
        assert segments[0] in pieces;
        var i :| 0 <= i < |pieces| && pieces[i] == segments[0];
        JoinHoldsParts(pieces, i, segments[0][0]);
      }
    }
  }

  /** Joining empty segments gives only slashes. */
  lemma {:induction false} JoinOfEmpty(parts: seq<string>)
    requires forall i :: 0 <= i < |parts| ==> parts[i] == []
    ensures forall k :: 0 <= k < |Join(parts)| ==> Join(parts)[k] == '/'
  {
    if |parts| > 1 {
      JoinOfEmpty(parts[..|parts| - 1]);
    }
  }

  /** Every character of a segment is a character of the joined path. */
  lemma {:induction false} JoinHoldsParts(parts: seq<string>, i: nat, c: char)
    requires i < |parts| && c in parts[i]
    ensures c in Join(parts)
  {
    if |parts| > 1 && i < |parts| - 1 {
      JoinHoldsParts(parts[..|parts| - 1], i, c);
    }
  }
}
