/**
 * resolveURI with the root slash kept. The merge of uri.mjs drops the leading
 * slash of a path (uri.mjs:66-68), and the recomposition puts one back only
 * after a non-empty authority (uri.mjs:160-167). As written, resolveURI
 * therefore turns `http://a/` into `http://a` and `file:/x` into `file:x`.
 * Section 5.2.4 of RFC 3986 keeps the slash. Also as written, a reference
 * with an authority keeps its path without removing dot segments
 * (uri.mjs:145-147), which section 5.2.2 of RFC 3986 removes.
 *
 * This module states both behaviours side by side. The as-written lemmas are
 * about `Uri.Resolve`. The corrected resolution, where merge keeps a root
 * slash and an authority's path is merged too, is `ResolveRooted`, and it is
 * idempotent on every result with a scheme.
 */
module RootedUri {
  import opened Json
  import opened Strings
  import opened Uri
  import opened MergeProperties
  import opened ResolveProperties
  import ResolveExamples

  // ---------------------------------------------------------------------
  // the corrected definition
  // ---------------------------------------------------------------------

  /**
   * The merged path hangs from the root: the reference path starts with `/`,
   * or the base pass runs over a base that does.
   */
  predicate Rooted(path: string, base: string) {
    if path != [] && path[0] == '/' then true else base != [] && base[0] == '/'
  }

  /** merge with the root slash kept: a rooted result is merge's result after one `/`. */
  function RootedMerge(path: string, base: string): string {
    var merged := Merge(path, base);
    if Rooted(path, base) && merged != "/" then "/" + merged else merged
  }

  /**
   * The reference transformation with the authority's path merged too
   * (section 5.2.2 of RFC 3986) and every merged path rooted as it was.
   */
  function RootedTarget(ref: UriMatch, base: UriMatch): UriMatch {
    if Truthy(ref.authority) then ref.(scheme := base.scheme, path := RootedMerge(ref.path, []))
    else Target(ref, base).(path := RootedMerge(ref.path, base.path))
  }

  /** resolveURI with RootedMerge and RootedTarget in place of merge and the transformation. */
  function ResolveRooted(uri: string, base: string): Result<string> {
    match MatchUri(uri)
    case None => Err(InvalidUri)
    case Some(ref) =>
      if Truthy(ref.scheme) then Ok(Recompose(ref.(path := RootedMerge(ref.path, []))))
      else
        match MatchUri(base)
        case None => Err(InvalidUri)
        case Some(b) => Ok(Recompose(RootedTarget(ref, b)))
  }

  // ---------------------------------------------------------------------
  // properties of the corrected definition
  // ---------------------------------------------------------------------

  /**
   * A rooted merge starts with `/` exactly when its inputs are rooted or merge
   * leaves the lone "/". Taking away that slash gives merge's result.
   */
  lemma {:induction false} RootedMergeShape(path: string, base: string)
    ensures var r := RootedMerge(path, base);
            (r != [] && r[0] == '/') <==> (Rooted(path, base) || Merge(path, base) == "/")
    ensures var r := RootedMerge(path, base);
            r == Merge(path, base) || r == "/" + Merge(path, base)
  {
    MergeNoLeadingSlash(path, base);
  }

  /**
   * A rooted merge is a fixed point of itself without a base, and so is the
   * text with the authority slash put in front of it.
   */
  lemma {:induction false} RootedMergeAgain(path: string, base: string)
    ensures var t := RootedMerge(path, base);
            RootedMerge(t, []) == t && (t != [] && t[0] != '/' ==> RootedMerge("/" + t, []) == "/" + t)
  {
    var r := Merge(path, base);
    MergeNoLeadingSlash(path, base);
    RootedMergeShape(path, base);
    if r == [] || r == "/" {
      assert RootedMerge(path, base) == [] || RootedMerge(path, base) == "/";
      EdgeFixed(RootedMerge(path, base));
    } else {
      MergeRootAgain(r);
      MergeIdempotent(path, base);
      RootedFixed(r);
      RootedChoice(RootedMerge(path, base), r);
    }
  }

  /** A text that is `r` or `/r`, for a merged `r` that is its own rooted merge both ways, is its own rooted merge. */
  lemma RootedChoice(t: string, r: string)
    requires r != [] && r[0] != '/' && (t == r || t == "/" + r)
    requires RootedMerge(r, []) == r && RootedMerge("/" + r, []) == "/" + r
    ensures RootedMerge(t, []) == t && (t != [] && t[0] != '/' ==> RootedMerge("/" + t, []) == "/" + t)
  {
  }

  /** The empty text and the lone slash are their own rooted merges. */
  lemma EdgeFixed(t: string)
    requires t == [] || t == "/"
    ensures RootedMerge(t, []) == t && (t != [] && t[0] != '/' ==> RootedMerge("/" + t, []) == "/" + t)
  {
    MergeSlashAlone();
    SlashFixed();
  }

  /** The lone slash is its own rooted merge. */
  lemma SlashFixed()
    requires Merge("/", []) == []
    ensures RootedMerge("/", []) == "/" && RootedMerge([], []) == []
  {
    assert Split([]) == [[]];
    assert MergeState([], []) == PathState([], false);
  }

  /** A merged text that does not start with a slash is its own rooted merge, with or without a slash in front. */
  lemma RootedFixed(r: string)
    requires r != [] && r[0] != '/' && r != "/"
    requires Merge(r, []) == r && Merge("/" + r, []) == r
    ensures RootedMerge(r, []) == r && RootedMerge("/" + r, []) == "/" + r
  {
    assert !Rooted(r, []);
    assert Rooted("/" + r, []);
  }

  /** A rooted merge of matched paths is a path RE_URI accepts again. */
  lemma {:induction false} RootedMergePath(path: string, base: string)
    requires Avoids(path, PathStops) && Avoids(base, PathStops)
    ensures Avoids(RootedMerge(path, base), PathStops) && !StartsWithTwoSlashes(RootedMerge(path, base))
  {
    MergedPath(path, base);
    var r := Merge(path, base);
    if Rooted(path, base) && r != "/" {
      MergeNoLeadingSlash(path, base);
      assert Avoids("/" + r, PathStops);
    }
  }

  /** Recomposed groups whose path is a rooted merge resolve to the same text again. */
  lemma {:induction false} RecomposeRootedStable(m: UriMatch, path: string, base: string, other: string)
    requires Recomposable(m) && m.path == RootedMerge(path, base)
    ensures ResolveRooted(Recompose(m), other) == Ok(Recompose(m))
  {
    RecomposeParse(m);
    var c := Canon(m);
    RootedMergeAgain(path, base);
    assert RootedMerge(c.path, []) == c.path;
    RecomposeCanon(m, c.path);
  }

  /**
   * The corrected resolution is idempotent: a result with a scheme resolves
   * to itself against any base.
   */
  lemma {:induction false} ResolveRootedIdempotent(uri: string, base: string, other: string)
    requires MatchUri(uri).Some?
    requires Truthy(MatchUri(uri).value.scheme) || (MatchUri(base).Some? && Truthy(MatchUri(base).value.scheme))
    ensures ResolveRooted(uri, base).Ok?
    ensures ResolveRooted(ResolveRooted(uri, base).value, other) == ResolveRooted(uri, base)
  {
    var ref := MatchUri(uri).value;
    if Truthy(ref.scheme) {
      var m := ref.(path := RootedMerge(ref.path, []));
      RootedAbsolute(uri, base, ref);
      RootedMergePath(ref.path, []);
      assert Recomposable(m);
      RecomposeRootedStable(m, ref.path, [], other);
    } else {
      var b := MatchUri(base).value;
      RootedRelative(uri, base, ref, b);
      RootedTargetRecomposable(ref, b);
      if Truthy(ref.authority) {
        RecomposeRootedStable(RootedTarget(ref, b), ref.path, [], other);
      } else {
        RecomposeRootedStable(RootedTarget(ref, b), ref.path, b.path, other);
      }
    }
  }

  /** ResolveRooted on a reference with a scheme. */
  lemma RootedAbsolute(uri: string, base: string, ref: UriMatch)
    requires MatchUri(uri) == Some(ref) && Truthy(ref.scheme)
    ensures ResolveRooted(uri, base) == Ok(Recompose(ref.(path := RootedMerge(ref.path, []))))
  {
  }

  /** ResolveRooted on a reference without a scheme and a matching base. */
  lemma RootedRelative(uri: string, base: string, ref: UriMatch, b: UriMatch)
    requires MatchUri(uri) == Some(ref) && !Truthy(ref.scheme) && MatchUri(base) == Some(b)
    ensures ResolveRooted(uri, base) == Ok(Recompose(RootedTarget(ref, b)))
  {
  }

  /** The corrected transformation of two matches, the base with a scheme, can be recomposed. */
  lemma {:induction false} RootedTargetRecomposable(ref: UriMatch, b: UriMatch)
    requires ValidMatch(ref) && ValidMatch(b) && Truthy(b.scheme) && !Truthy(ref.scheme)
    ensures Recomposable(RootedTarget(ref, b))
  {
    if Truthy(ref.authority) {
      RootedMergePath(ref.path, []);
    } else {
      RootedMergePath(ref.path, b.path);
      TargetRecomposable(ref, b);
    }
  }

  /** After an authority, the rooted path recomposes to the text the as-written path does. */
  lemma {:induction false} RecomposeAfterAuthority(m: UriMatch, path: string, base: string)
    requires Truthy(m.authority) && Merge(path, base) != []
    ensures Recompose(m.(path := RootedMerge(path, base))) == Recompose(m.(path := Merge(path, base)))
  {
    var r := Merge(path, base);
    RootedMergeShape(path, base);
    MergeNoLeadingSlash(path, base);
    if RootedMerge(path, base) != r {
      RecomposeSlash(m, r);
    }
  }

  /** After an authority, a path and the same path behind one `/` recompose alike. */
  lemma RecomposeSlash(m: UriMatch, p: string)
    requires Truthy(m.authority) && p != [] && p[0] != '/'
    ensures Recompose(m.(path := "/" + p)) == Recompose(m.(path := p))
  {
    var withScheme := if Truthy(m.scheme) then m.scheme.value + ":" else [];
    var withAuthority := withScheme + ("//" + m.authority.value);
    assert withAuthority + "/" + p == withAuthority + ("/" + p);
  }

  /**
   * The correction changes nothing where an authority precedes a non-empty
   * merged path that the code merges: for a reference with a scheme and an
   * authority, and for one with neither against a base with an authority.
   */
  lemma {:induction false} ResolveRootedAgrees(uri: string, base: string)
    requires MatchUri(uri).Some?
    requires var ref := MatchUri(uri).value;
             if Truthy(ref.scheme) then Truthy(ref.authority) && Merge(ref.path, []) != []
             else !Truthy(ref.authority) && MatchUri(base).Some? && Truthy(MatchUri(base).value.authority) &&
                  Merge(ref.path, MatchUri(base).value.path) != []
    ensures ResolveRooted(uri, base) == Resolve(uri, base)
  {
    var ref := MatchUri(uri).value;
    if Truthy(ref.scheme) {
      AgreesAbsolute(uri, base, ref);
    } else {
      AgreesRelative(uri, base, ref, MatchUri(base).value);
    }
  }

  lemma AgreesAbsolute(uri: string, base: string, ref: UriMatch)
    requires MatchUri(uri) == Some(ref) && Truthy(ref.scheme)
    requires Truthy(ref.authority) && Merge(ref.path, []) != []
    ensures ResolveRooted(uri, base) == Resolve(uri, base)
  {
    ResolveAbsolute(uri, base, ref);
    RootedAbsolute(uri, base, ref);
    RecomposeAfterAuthority(ref, ref.path, []);
  }

  lemma AgreesRelative(uri: string, base: string, ref: UriMatch, b: UriMatch)
    requires MatchUri(uri) == Some(ref) && !Truthy(ref.scheme) && MatchUri(base) == Some(b)
    requires !Truthy(ref.authority) && Truthy(b.authority) && Merge(ref.path, b.path) != []
    ensures ResolveRooted(uri, base) == Resolve(uri, base)
  {
    var t := Target(ref, b);
    ResolveRelative(uri, base, ref, b);
    RootedRelative(uri, base, ref, b);
    TargetMerged(ref, b);
    RecomposeAfterAuthority(t, ref.path, b.path);
  }

  /** Without an authority, the transformation keeps the base's authority and merges the path; the correction re-roots that path. */
  lemma TargetMerged(ref: UriMatch, b: UriMatch)
    requires !Truthy(ref.authority)
    ensures var t := Target(ref, b);
            t.authority == b.authority && t.(path := Merge(ref.path, b.path)) == t &&
            RootedTarget(ref, b) == t.(path := RootedMerge(ref.path, b.path))
  {
  }

  // ---------------------------------------------------------------------
  // the discrepancies, as written and corrected
  // ---------------------------------------------------------------------

  /** A reference with a scheme, resolved as written against any base. */
  lemma {:induction false} AsWritten(uri: string, other: string, ref: UriMatch, expected: string)
    requires ValidMatch(ref) && Unsplit(ref) == uri && Truthy(ref.scheme)
    requires Recompose(ref.(path := Merge(ref.path, []))) == expected
    ensures Resolve(uri, other) == Ok(expected)
  {
    MatchExact(ref);
    ResolveAbsolute(uri, other, ref);
  }

  /** A reference with a scheme, resolved with the correction against any base. */
  lemma {:induction false} Corrected(uri: string, other: string, ref: UriMatch, expected: string)
    requires ValidMatch(ref) && Unsplit(ref) == uri && Truthy(ref.scheme)
    requires Recompose(ref.(path := RootedMerge(ref.path, []))) == expected
    ensures ResolveRooted(uri, other) == Ok(expected)
  {
    MatchExact(ref);
    RootedAbsolute(uri, other, ref);
  }

  /** A schemeless reference, resolved with the correction against the RFC 3986 base. */
  lemma {:induction false} CorrectedRelative(uri: string, ref: UriMatch, target: UriMatch, expected: string)
    requires ValidMatch(ref) && Unsplit(ref) == uri && ref.scheme.None?
    requires RootedTarget(ref, ResolveExamples.BaseMatch) == target && Recompose(target) == expected
    ensures ResolveRooted(uri, ResolveExamples.Base) == Ok(expected)
  {
    MatchExact(ref);
    ResolveExamples.MatchBase();
    RootedRelative(uri, ResolveExamples.Base, ref, ResolveExamples.BaseMatch);
  }

  const ServerRoot: UriMatch := UriMatch(Some("http"), Some("a"), "/", None, None)

  lemma ParseServerRoot()
    ensures ValidMatch(ServerRoot) && Unsplit(ServerRoot) == "http://a/"
  {
    ServerMatch("http", "a", "/");
    assert "http" + ":" + ("//" + "a") + "/" == "http://a/";
  }

  lemma TextServer()
    ensures Recompose(ServerRoot.(path := [])) == "http://a"
    ensures Recompose(ServerRoot) == "http://a/"
  {
  }

  /** As written: `http://a/` loses its slash, since merge("/") is empty. */
  lemma SlashLost(other: string)
    ensures Resolve("http://a/", other) == Ok("http://a")
  {
    ParseServerRoot();
    MergeSlashAlone();
    TextServer();
    AsWritten("http://a/", other, ServerRoot, "http://a");
  }

  /**
   * As written, resolveURI is not idempotent: the RFC 3986 example `../..`
   * gives `http://a/` (test/uri.test.mjs:29), which resolves to `http://a`.
   */
  lemma RootNotStable()
    ensures Resolve("../..", ResolveExamples.Base) == Ok("http://a/")
    ensures Resolve(Resolve("../..", ResolveExamples.Base).value, ResolveExamples.Base) != Resolve("../..", ResolveExamples.Base)
  {
    ResolveExamples.ExampleRoot();
    SlashLost(ResolveExamples.Base);
  }

  /** Corrected: `http://a/` is kept as it is. */
  lemma SlashKept(other: string)
    ensures ResolveRooted("http://a/", other) == Ok("http://a/")
  {
    ParseServerRoot();
    MergeSlashAlone();
    TextServer();
    assert RootedMerge("/", []) == "/";
    Corrected("http://a/", other, ServerRoot, "http://a/");
  }

  /** Corrected, the RFC 3986 example `../..` still gives `http://a/`. */
  lemma RootedExampleRoot()
    ensures ResolveRooted("../..", ResolveExamples.Base) == Ok("http://a/")
  {
    var ref := UriMatch(None, None, "../..", None, None);
    ResolveExamples.ParseRoot();
    ResolveExamples.MergeToRoot("..", "../..");
    ResolveExamples.TextRoot();
    assert Rooted("../..", ResolveExamples.BaseMatch.path);
    assert RootedTarget(ref, ResolveExamples.BaseMatch) == ServerRoot;
    CorrectedRelative("../..", ref, ServerRoot, "http://a/");
  }

  /** `x` merges to itself. */
  lemma {:induction false} MergeWord(x: string)
    requires x == "x"
    ensures Merge(x, []) == x && Merge("/" + x, []) == x
  {
    SplitNoSlash(x);
    assert Split([]) == [[]];
    assert BaseStart(x, []) == [];
    var st := PathState([], false);
    assert Steps(st, []) == st;
    assert MergeState(x, []) == PathState([x], false);
    MergeRootAgain(x);
  }

  const FileRoot: UriMatch := UriMatch(Some("file"), None, "/x", None, None)

  lemma ParseFileRoot()
    ensures ValidMatch(FileRoot) && Unsplit(FileRoot) == "file:/x"
  {
  }

  lemma TextFile()
    ensures Recompose(FileRoot.(path := "x")) == "file:x"
    ensures Recompose(FileRoot) == "file:/x"
  {
  }

  /** `/x` merges to `x`, and the corrected merge keeps it. */
  lemma FilePath()
    ensures Merge(FileRoot.path, []) == "x"
    ensures RootedMerge(FileRoot.path, []) == FileRoot.path
  {
    var x := "x";
    MergeWord(x);
    assert "/" + x == FileRoot.path;
    assert Rooted(FileRoot.path, []);
    assert x != "/";
  }

  /** As written: without an authority the root slash is lost for good, and `file:/x` becomes `file:x`. */
  lemma RootLost(other: string)
    ensures Resolve("file:/x", other) == Ok("file:x")
  {
    ParseFileRoot();
    FilePath();
    TextFile();
    AsWritten("file:/x", other, FileRoot, "file:x");
  }

  /** Corrected: `file:/x` is kept as it is. */
  lemma RootKept(other: string)
    ensures ResolveRooted("file:/x", other) == Ok("file:/x")
  {
    ParseFileRoot();
    FilePath();
    TextFile();
    assert FileRoot.(path := RootedMerge(FileRoot.path, [])) == FileRoot;
    Corrected("file:/x", other, FileRoot, "file:/x");
  }

  /** `./x` and `/./x` merge to `x`. */
  lemma {:induction false} MergeDotWord(d: string, x: string)
    requires d == "." && x == "x"
    ensures Merge(d + "/" + x, []) == x && Merge("/" + (d + "/" + x), []) == x
  {
    var p := d + "/" + x;
    SplitNoSlash(d);
    SplitSlash(d, x);
    assert Split(p) == [d, x];
    assert Split([]) == [[]];
    assert BaseStart(p, []) == [];
    var st := PathState([], false);
    StepsSnoc(st, [], d);
    assert [] + [d] == [d];
    assert Init([d, x]) == [d];
    assert Steps(st, [d]) == PathState([], true);
    assert MergeState(p, []) == PathState([x], false);
    MergeRootAgain(p);
  }

  const NetworkDots: UriMatch := UriMatch(None, Some("g"), "/./x", None, None)
  const ServerDots: UriMatch := UriMatch(Some("http"), Some("g"), "/./x", None, None)

  lemma ParseNetworkDots()
    ensures ValidMatch(NetworkDots) && Unsplit(NetworkDots) == "//g/./x"
  {
    ResolveExamples.NoScheme("//g/./x", 0);
  }

  lemma ParseServerDots()
    ensures ValidMatch(ServerDots) && Unsplit(ServerDots) == "http://g/./x"
  {
    ServerMatch("http", "g", "/./x");
    assert "http" + ":" + ("//" + "g") + "/./x" == "http://g/./x";
  }

  /** The groups of a reference with a scheme, an authority and a rooted path. */
  lemma ServerMatch(scheme: string, authority: string, path: string)
    requires scheme != [] && Avoids(scheme, SchemeStops) && Avoids(authority, AuthorityStops)
    requires path != [] && path[0] == '/' && Avoids(path, PathStops)
    ensures ValidMatch(UriMatch(Some(scheme), Some(authority), path, None, None))
    ensures Unsplit(UriMatch(Some(scheme), Some(authority), path, None, None)) == scheme + ":" + ("//" + authority) + path
  {
  }

  /** `/./x` merges to `x`, and the corrected merge gives `/x`. */
  lemma DotsPath()
    ensures Merge(ServerDots.path, []) == "x"
    ensures RootedMerge(ServerDots.path, []) == "/x"
  {
    MergeDotWord(".", "x");
    assert "/" + ("." + "/" + "x") == ServerDots.path;
  }

  lemma TextDots()
    ensures Recompose(ServerDots) == "http://g/./x"
    ensures Recompose(ServerDots.(path := "x")) == "http://g/x"
    ensures Recompose(ServerDots.(path := "/x")) == "http://g/x"
  {
  }

  /**
   * As written: a reference with an authority keeps its dot segments
   * (uri.mjs:145-147), and only a second resolution removes them
   * (uri.mjs:121).
   */
  lemma DotsKept(other: string)
    ensures Resolve("//g/./x", ResolveExamples.Base) == Ok("http://g/./x")
    ensures Resolve("http://g/./x", other) == Ok("http://g/x")
  {
    ParseNetworkDots();
    ParseServerDots();
    DotsPath();
    TextDots();
    assert Target(NetworkDots, ResolveExamples.BaseMatch) == ServerDots;
    ResolveExamples.Relative("//g/./x", NetworkDots, ServerDots, "http://g/./x");
    AsWritten("http://g/./x", other, ServerDots, "http://g/x");
  }

  /** Corrected: the authority's path is merged at once. */
  lemma DotsRemoved()
    ensures ResolveRooted("//g/./x", ResolveExamples.Base) == Ok("http://g/x")
  {
    ParseNetworkDots();
    DotsPath();
    TextDots();
    assert RootedTarget(NetworkDots, ResolveExamples.BaseMatch) == ServerDots.(path := "/x");
    CorrectedRelative("//g/./x", NetworkDots, ServerDots.(path := "/x"), "http://g/x");
  }
}
