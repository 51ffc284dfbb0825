/**
 * The reference resolution examples of section 5.4 of RFC 3986, against the
 * base `http://a/b/c/d;p?q`, as resolveURI computes them. Each example is
 * taken apart into the groups of the reference, its transformed groups and
 * the recomposed text; the string pieces are passed as parameters so that the
 * general lemmas do the work.
 */
module ResolveExamples {
  import opened Json
  import opened Strings
  import opened Uri
  import MergeProperties

  const Base: string := "http://a/b/c/d;p?q"
  const BaseMatch: UriMatch := UriMatch(Some("http"), Some("a"), "/b/c/d;p", Some("q"), None)

  /** Text whose first scheme stop is not a colon has no scheme. */
  lemma {:induction false} NoScheme(s: string, k: nat)
    requires k < |s| && s[k] in SchemeStops && s[k] != ':' && Avoids(s[..k], SchemeStops)
    ensures !HasScheme(s)
  {
    assert s == s[..k] + s[k..];
    SpanUnique(s[..k], s[k..], SchemeStops);
  }

  /** Text without any scheme stop has no scheme. */
  lemma {:induction false} NoStops(s: string)
    requires Avoids(s, SchemeStops)
    ensures !HasScheme(s)
  {
    assert s == s + [];
    SpanUnique(s, [], SchemeStops);
  }

  lemma MatchBase()
    ensures MatchUri(Base) == Some(BaseMatch)
  {
    assert Unsplit(BaseMatch) == Base;
    MatchExact(BaseMatch);
  }

  /** The groups of a schemeless reference without an authority. */
  lemma {:induction false} RefMatch(path: string, query: Option<string>, fragment: Option<string>)
    requires Avoids(path, PathStops) && !StartsWithTwoSlashes(path)
    requires !HasScheme(path + QueryText(query) + FragmentText(fragment))
    requires query.Some? ==> Avoids(query.value, QueryStops)
    requires fragment.Some? ==> NoLineTerminator(fragment.value)
    ensures ValidMatch(UriMatch(None, None, path, query, fragment))
    ensures Unsplit(UriMatch(None, None, path, query, fragment)) == path + QueryText(query) + FragmentText(fragment)
  {
    assert [] + [] + path == path;
  }

  /** A schemeless example: the reference's groups, its transformation and its text. */
  lemma {:induction false} Relative(uri: string, ref: UriMatch, target: UriMatch, expected: string)
    requires ValidMatch(ref) && Unsplit(ref) == uri && ref.scheme.None?
    requires Target(ref, BaseMatch) == target && Recompose(target) == expected
    ensures Resolve(uri, Base) == Ok(expected)
  {
    MatchExact(ref);
    MatchBase();
    ResolveRelative(uri, Base, ref, BaseMatch);
  }

  /** A reference with a scheme: its groups and its text with the path merged. */
  lemma {:induction false} Absolute(uri: string, ref: UriMatch, expected: string)
    requires ValidMatch(ref) && Unsplit(ref) == uri && Truthy(ref.scheme)
    requires Recompose(ref.(path := Merge(ref.path, []))) == expected
    ensures Resolve(uri, Base) == Ok(expected)
  {
    MatchExact(ref);
    ResolveAbsolute(uri, Base, ref);
  }

  /** Four slash-free pieces joined by slashes split back into those pieces. */
  lemma {:induction false} Split4(a: string, b: string, c: string, d: string)
    requires NoSlash(a) && NoSlash(b) && NoSlash(c) && NoSlash(d)
    ensures Split(a + "/" + b + "/" + c + "/" + d) == [a, b, c, d]
  {
    SplitNoSlash(a);
    SplitSlash(a, b);
    SplitSlash(a + "/" + b, c);
    SplitSlash(a + "/" + b + "/" + c, d);
  }

  /** Two plain segments after a leading slash are pushed in order. */
  lemma {:induction false} BaseStack3(b: string, c: string)
    requires b != [] && b != "." && b != ".." && c != [] && c != "." && c != ".."
    ensures BaseStack([[], b, c]) == [b, c]
  {
    BaseStackSnoc([], []);
    var none: seq<string> := [];
    assert none + [[]] == [[]];
    BaseStackSnoc([[]], b);
    assert [[]] + [b] == [[], b];
    BaseStackSnoc([[], b], c);
    assert [[], b] + [c] == [[], b, c];
  }

  /** The pieces of the base path, and what its slash-terminated pieces leave on the stack. */
  lemma BasePath()
    ensures Split("/b/c/d;p") == [[], "b", "c", "d;p"]
    ensures BaseStack([[], "b", "c"]) == ["b", "c"]
  {
    Split4([], "b", "c", "d;p");
    assert [] + "/" + "b" + "/" + "c" + "/" + "d;p" == "/b/c/d;p";
    BaseStack3("b", "c");
  }

  /** What the base pass leaves: the base directory, and its whole path for an empty reference. */
  lemma {:induction false} BaseKept(path: string, b: string, c: string, d: string)
    requires b == "b" && c == "c" && d == "d;p"
    ensures path != [] ==> BaseStart(path, "/b/c/d;p") == [b, c]
    ensures BaseStart([], "/b/c/d;p") == [b, c, d]
  {
    BasePath();
    assert Init([[], b, c, d]) == [[], b, c];
  }

  /** Joins of two and three pieces. */
  lemma {:induction false} Join3(a: string, b: string, c: string)
    ensures Join([a, b]) == a + "/" + b
    ensures Join([a, b, c]) == a + "/" + b + "/" + c
  {
    JoinSnoc([a], b);
    assert [a] + [b] == [a, b];
    JoinSnoc([a, b], c);
    assert [a, b] + [c] == [a, b, c];
  }

  /** A reference path of one plain segment is pushed onto what the base leaves. */
  lemma {:induction false} MergeOneSegment(x: string, base: string)
    requires x != [] && NoSlash(x) && x != "." && x != ".."
    ensures MergeState(x, base) == PathState(BaseStart(x, base) + [x], false)
  {
    SplitNoSlash(x);
    assert Steps(PathState(BaseStart(x, base), false), []) == PathState(BaseStart(x, base), false);
  }

  /** `g` against the base merges to `b/c/g`. */
  lemma {:induction false} MergeSegment(b: string, c: string, g: string)
    requires b == "b" && c == "c" && g == "g"
    ensures Merge(g, "/b/c/d;p") == "b/c/g"
  {
    MergeOneSegment(g, "/b/c/d;p");
    BaseKept(g, b, c, "d;p");
    assert [b, c] + [g] == [b, c, g];
    Join3(b, c, g);
  }

  /** The empty reference path merges to the base's whole path. */
  lemma {:induction false} MergeEmpty(b: string, c: string, d: string)
    requires b == "b" && c == "c" && d == "d;p"
    ensures Merge([], "/b/c/d;p") == "b/c/d;p"
  {
    BaseKept([], b, c, d);
    assert Split([]) == [[]];
    var st := PathState([b, c, d], false);
    assert Steps(st, []) == st;
    assert MergeState([], "/b/c/d;p") == st;
    Join3(b, c, d);
  }

  // `g` -> `http://a/b/c/g`

  lemma ParseSegment()
    ensures ValidMatch(UriMatch(None, None, "g", None, None)) && Unsplit(UriMatch(None, None, "g", None, None)) == "g"
  {
    NoStops("g");
    RefMatch("g", None, None);
  }

  lemma TargetSegment()
    ensures Target(UriMatch(None, None, "g", None, None), BaseMatch) == UriMatch(Some("http"), Some("a"), "b/c/g", None, None)
  {
    MergeSegment("b", "c", "g");
  }

  lemma TextSegment()
    ensures Recompose(UriMatch(Some("http"), Some("a"), "b/c/g", None, None)) == "http://a/b/c/g"
  {
  }

  /** `g` resolves to `http://a/b/c/g`: the base's last segment is replaced. */
  lemma ExampleSegment()
    ensures Resolve("g", Base) == Ok("http://a/b/c/g")
  {
    ParseSegment();
    TargetSegment();
    TextSegment();
    Relative("g", UriMatch(None, None, "g", None, None), UriMatch(Some("http"), Some("a"), "b/c/g", None, None), "http://a/b/c/g");
  }

  // `../../../../g` -> `http://a/g`

  /** Five slash-free pieces joined by slashes split back into those pieces. */
  lemma {:induction false} Split5(a: string, b: string, c: string, d: string, e: string)
    requires NoSlash(a) && NoSlash(b) && NoSlash(c) && NoSlash(d) && NoSlash(e)
    ensures Split(a + "/" + b + "/" + c + "/" + d + "/" + e) == [a, b, c, d, e]
  {
    Split4(a, b, c, d);
    SplitSlash(a + "/" + b + "/" + c + "/" + d, e);
  }

  lemma PiecesAboveRoot()
    ensures Split("../../../../g") == ["..", "..", "..", "..", "g"]
  {
    Split5("..", "..", "..", "..", "g");
    assert ".." + "/" + ".." + "/" + ".." + "/" + ".." + "/" + "g" == "../../../../g";
  }

  lemma {:induction false} StepsAboveRoot(b: string, c: string, u: string)
    requires u == ".."
    ensures Steps(PathState([b, c], false), [u, u, u, u]) == PathState([], true)
  {
    var st := PathState([b, c], false);
    StepsSnoc(st, [], u);
    assert [] + [u] == [u];
    assert Steps(st, [u]) == PathState([b], true);
    StepsSnoc(st, [u], u);
    assert [u] + [u] == [u, u];
    assert Steps(st, [u, u]) == PathState([], true);
    StepsSnoc(st, [u, u], u);
    assert [u, u] + [u] == [u, u, u];
    StepsSnoc(st, [u, u, u], u);
    assert [u, u, u] + [u] == [u, u, u, u];
  }

  lemma {:induction false} MergeAboveRoot(u: string, g: string, path: string)
    requires u == ".." && g == "g" && path == "../../../../g"
    ensures Merge(path, "/b/c/d;p") == "g"
  {
    PiecesAboveRoot();
    BaseKept(path, "b", "c", "d;p");
    StepsAboveRoot("b", "c", u);
    assert Init([u, u, u, u, g]) == [u, u, u, u];
    assert MergeState(path, "/b/c/d;p") == Finish(PathState([], true), path, g) == PathState([g], false);
  }

  /** Joins of five pieces. */
  lemma {:induction false} Join5(a: string, b: string, c: string, d: string, e: string)
    ensures Join([a, b, c, d, e]) == a + "/" + b + "/" + c + "/" + d + "/" + e
  {
    Join3(a, b, c);
    JoinSnoc([a, b, c], d);
    assert [a, b, c] + [d] == [a, b, c, d];
    JoinSnoc([a, b, c, d], e);
    assert [a, b, c, d] + [e] == [a, b, c, d, e];
  }

  /** A path of `..` segments and a last plain segment is a schemeless reference with no authority. */
  lemma {:induction false} ParseUp(u: string, g: string, path: string)
    requires u == ".." && Avoids(g, PathStops)
    requires path == u + "/" + u + "/" + u + "/" + u + "/" + g
    ensures ValidMatch(UriMatch(None, None, path, None, None))
    ensures Unsplit(UriMatch(None, None, path, None, None)) == path
  {
    var xs := [u, u, u, u, g];
    assert forall k :: 0 <= k < |xs| ==> Avoids(xs[k], PathStops);
    MergeProperties.JoinAvoids(xs, PathStops);
    Join5(u, u, u, u, g);
    assert path[..2] == u;
    NoScheme(path, 2);
    assert path + [] + [] == path;
    RefMatch(path, None, None);
  }

  lemma ParseAboveRoot()
    ensures ValidMatch(UriMatch(None, None, "../../../../g", None, None))
    ensures Unsplit(UriMatch(None, None, "../../../../g", None, None)) == "../../../../g"
  {
    ParseUp("..", "g", "../../../../g");
  }

  lemma TargetAboveRoot()
    ensures Target(UriMatch(None, None, "../../../../g", None, None), BaseMatch) == UriMatch(Some("http"), Some("a"), "g", None, None)
  {
    MergeAboveRoot("..", "g", "../../../../g");
  }

  lemma TextAboveRoot()
    ensures Recompose(UriMatch(Some("http"), Some("a"), "g", None, None)) == "http://a/g"
  {
  }

  /** `../../../../g` resolves to `http://a/g`: `..` above the root is dropped. */
  lemma ExampleAboveRoot()
    ensures Resolve("../../../../g", Base) == Ok("http://a/g")
  {
    ParseAboveRoot();
    TargetAboveRoot();
    TextAboveRoot();
    Relative("../../../../g", UriMatch(None, None, "../../../../g", None, None), UriMatch(Some("http"), Some("a"), "g", None, None), "http://a/g");
  }

  // the empty reference, `?y` and `#s`: the path is the base's whole path

  lemma TargetEmpty()
    ensures Target(UriMatch(None, None, [], None, None), BaseMatch) == UriMatch(Some("http"), Some("a"), "b/c/d;p", Some("q"), None)
  {
    MergeEmpty("b", "c", "d;p");
  }

  lemma TextEmpty()
    ensures Recompose(UriMatch(Some("http"), Some("a"), "b/c/d;p", Some("q"), None)) == "http://a/b/c/d;p?q"
  {
  }

  /** The empty reference resolves to the base itself, path and query included. */
  lemma ExampleEmpty()
    ensures Resolve([], Base) == Ok("http://a/b/c/d;p?q")
  {
    RefMatch([], None, None);
    TargetEmpty();
    TextEmpty();
    Relative([], UriMatch(None, None, [], None, None), UriMatch(Some("http"), Some("a"), "b/c/d;p", Some("q"), None), "http://a/b/c/d;p?q");
  }

  lemma ParseQuery()
    ensures ValidMatch(UriMatch(None, None, [], Some("y"), None)) && Unsplit(UriMatch(None, None, [], Some("y"), None)) == "?y"
  {
    NoScheme("?y", 0);
    RefMatch([], Some("y"), None);
  }

  lemma TargetQuery()
    ensures Target(UriMatch(None, None, [], Some("y"), None), BaseMatch) == UriMatch(Some("http"), Some("a"), "b/c/d;p", Some("y"), None)
  {
    MergeEmpty("b", "c", "d;p");
  }

  lemma TextQuery()
    ensures Recompose(UriMatch(Some("http"), Some("a"), "b/c/d;p", Some("y"), None)) == "http://a/b/c/d;p?y"
  {
  }

  /** `?y` resolves to `http://a/b/c/d;p?y`: the base path stays, the query is replaced. */
  lemma ExampleQuery()
    ensures Resolve("?y", Base) == Ok("http://a/b/c/d;p?y")
  {
    ParseQuery();
    TargetQuery();
    TextQuery();
    Relative("?y", UriMatch(None, None, [], Some("y"), None), UriMatch(Some("http"), Some("a"), "b/c/d;p", Some("y"), None), "http://a/b/c/d;p?y");
  }

  lemma ParseFragment()
    ensures ValidMatch(UriMatch(None, None, [], None, Some("s"))) && Unsplit(UriMatch(None, None, [], None, Some("s"))) == "#s"
  {
    NoScheme("#s", 0);
    RefMatch([], None, Some("s"));
  }

  lemma TargetFragment()
    ensures Target(UriMatch(None, None, [], None, Some("s")), BaseMatch) == UriMatch(Some("http"), Some("a"), "b/c/d;p", Some("q"), Some("s"))
  {
    MergeEmpty("b", "c", "d;p");
  }

  lemma TextFragment()
    ensures Recompose(UriMatch(Some("http"), Some("a"), "b/c/d;p", Some("q"), Some("s"))) == "http://a/b/c/d;p?q#s"
  {
  }

  /** `#s` resolves to `http://a/b/c/d;p?q#s`: everything but the fragment is the base's. */
  lemma ExampleFragment()
    ensures Resolve("#s", Base) == Ok("http://a/b/c/d;p?q#s")
  {
    ParseFragment();
    TargetFragment();
    TextFragment();
    Relative("#s", UriMatch(None, None, [], None, Some("s")), UriMatch(Some("http"), Some("a"), "b/c/d;p", Some("q"), Some("s")), "http://a/b/c/d;p?q#s");
  }

  // `//g` -> `http://g`

  lemma ParseNetwork()
    ensures ValidMatch(UriMatch(None, Some("g"), [], None, None)) && Unsplit(UriMatch(None, Some("g"), [], None, None)) == "//g"
  {
    NoScheme("//g", 0);
  }

  /** `//g` resolves to `http://g`: an authority takes everything after the scheme. */
  lemma ExampleNetworkPath()
    ensures Resolve("//g", Base) == Ok("http://g")
  {
    ParseNetwork();
    assert Target(UriMatch(None, Some("g"), [], None, None), BaseMatch) == UriMatch(Some("http"), Some("g"), [], None, None);
    assert Recompose(UriMatch(Some("http"), Some("g"), [], None, None)) == "http://g";
    Relative("//g", UriMatch(None, Some("g"), [], None, None), UriMatch(Some("http"), Some("g"), [], None, None), "http://g");
  }

  // `g?y/../x` -> `http://a/b/c/g?y/../x`

  /** A one-character path and a query: the path stops the scheme at `?`. */
  lemma {:induction false} QueryRef(g: string, q: string, uri: string)
    requires |g| == 1 && Avoids(g, PathStops) && Avoids(g, SchemeStops) && g != "/"
    requires Avoids(q, QueryStops) && uri == g + "?" + q
    ensures ValidMatch(UriMatch(None, None, g, Some(q), None))
    ensures Unsplit(UriMatch(None, None, g, Some(q), None)) == uri
  {
    assert uri[..1] == g && uri[1] == '?';
    NoScheme(uri, 1);
    assert g + QueryText(Some(q)) + FragmentText(None) == uri;
    RefMatch(g, Some(q), None);
  }

  lemma ParseQueryDots()
    ensures ValidMatch(UriMatch(None, None, "g", Some("y/../x"), None))
    ensures Unsplit(UriMatch(None, None, "g", Some("y/../x"), None)) == "g?y/../x"
  {
    QueryRef("g", "y/../x", "g?y/../x");
  }

  lemma TargetQueryDots()
    ensures Target(UriMatch(None, None, "g", Some("y/../x"), None), BaseMatch) == UriMatch(Some("http"), Some("a"), "b/c/g", Some("y/../x"), None)
  {
    MergeSegment("b", "c", "g");
  }

  lemma TextQueryDots()
    ensures Recompose(UriMatch(Some("http"), Some("a"), "b/c/g", Some("y/../x"), None)) == "http://a/b/c/g?y/../x"
  {
  }

  /** `g?y/../x` resolves to `http://a/b/c/g?y/../x`: dot segments in a query are kept. */
  lemma ExampleQueryDots()
    ensures Resolve("g?y/../x", Base) == Ok("http://a/b/c/g?y/../x")
  {
    ParseQueryDots();
    TargetQueryDots();
    TextQueryDots();
    Relative("g?y/../x", UriMatch(None, None, "g", Some("y/../x"), None), UriMatch(Some("http"), Some("a"), "b/c/g", Some("y/../x"), None), "http://a/b/c/g?y/../x");
  }

  // `g:h` -> `g:h`

  lemma {:induction false} MergePlain(h: string)
    requires h == "h" || h == "g"
    ensures Merge(h, []) == h
  {
    MergeOneSegment(h, []);
    assert Split([]) == [[]];
    assert BaseStart(h, []) == [];
    assert [] + [h] == [h];
  }

  lemma ParseScheme()
    ensures ValidMatch(UriMatch(Some("g"), None, "h", None, None)) && Unsplit(UriMatch(Some("g"), None, "h", None, None)) == "g:h"
  {
  }

  /** A scheme and a path, nothing else: the scheme, a colon and the path. */
  lemma RecomposeScheme(g: string, h: string)
    requires g != []
    ensures Recompose(UriMatch(Some(g), None, h, None, None)) == g + ":" + h
  {
  }

  lemma TextScheme()
    ensures Recompose(UriMatch(Some("g"), None, "h", None, None).(path := Merge("h", []))) == "g:h"
  {
    MergePlain("h");
    assert UriMatch(Some("g"), None, "h", None, None).(path := Merge("h", [])) == UriMatch(Some("g"), None, "h", None, None);
    RecomposeScheme("g", "h");
    assert "g" + ":" + "h" == "g:h";
  }

  /** `g:h` resolves to itself: a reference with a scheme ignores the base. */
  lemma ExampleScheme()
    ensures Resolve("g:h", Base) == Ok("g:h")
  {
    ParseScheme();
    TextScheme();
    Absolute("g:h", UriMatch(Some("g"), None, "h", None, None), "g:h");
  }


  // `http:g` -> `http:g`

  lemma ParseStrict()
    ensures ValidMatch(UriMatch(Some("http"), None, "g", None, None)) && Unsplit(UriMatch(Some("http"), None, "g", None, None)) == "http:g"
  {
  }

  lemma TextStrict()
    ensures Recompose(UriMatch(Some("http"), None, "g", None, None).(path := Merge("g", []))) == "http:g"
  {
    MergePlain("g");
    assert UriMatch(Some("http"), None, "g", None, None).(path := Merge("g", [])) == UriMatch(Some("http"), None, "g", None, None);
    RecomposeScheme("http", "g");
    assert "http" + ":" + "g" == "http:g";
  }

  /**
   * `http:g` resolves to itself: the strict reading of section 5.2.2 of
   * RFC 3986, where a reference with the base's scheme is still absolute.
   */
  lemma ExampleStrict()
    ensures Resolve("http:g", Base) == Ok("http:g")
  {
    ParseStrict();
    TextStrict();
    Absolute("http:g", UriMatch(Some("http"), None, "g", None, None), "http:g");
  }

  // `../..` -> `http://a/`

  lemma {:induction false} MergeToRoot(u: string, path: string)
    requires u == ".." && path == "../.."
    ensures Merge(path, "/b/c/d;p") == "/"
  {
    SplitToRoot(u, path);
    BaseKept(path, "b", "c", "d;p");
    StepsToRoot(u);
    assert MergeState(path, "/b/c/d;p") == PathState([], true);
  }

  lemma {:induction false} SplitToRoot(u: string, path: string)
    requires u == ".." && path == "../.."
    ensures Split(path) == [u, u] && path[0] != '/'
  {
    SplitNoSlash(u);
    SplitSlash(u, u);
    assert u + "/" + u == path;
  }

  lemma {:induction false} StepsToRoot(u: string)
    requires u == ".."
    ensures Init([u, u]) == [u] && Last([u, u]) == u
    ensures Steps(PathState(["b", "c"], false), [u]) == PathState(["b"], true)
  {
    StepsSnoc(PathState(["b", "c"], false), [], u);
    assert [] + [u] == [u];
  }

  lemma ParseRoot()
    ensures ValidMatch(UriMatch(None, None, "../..", None, None)) && Unsplit(UriMatch(None, None, "../..", None, None)) == "../.."
  {
    assert "../.."[..2] == "..";
    NoScheme("../..", 2);
    RefMatch("../..", None, None);
  }

  lemma TargetRoot()
    ensures Target(UriMatch(None, None, "../..", None, None), BaseMatch) == UriMatch(Some("http"), Some("a"), "/", None, None)
  {
    MergeToRoot("..", "../..");
  }

  lemma TextRoot()
    ensures Recompose(UriMatch(Some("http"), Some("a"), "/", None, None)) == "http://a/"
  {
  }

  /** `../..` resolves to `http://a/`: two `..` climb to the root and leave its slash. */
  lemma ExampleRoot()
    ensures Resolve("../..", Base) == Ok("http://a/")
  {
    ParseRoot();
    TargetRoot();
    TextRoot();
    Relative("../..", UriMatch(None, None, "../..", None, None), UriMatch(Some("http"), Some("a"), "/", None, None), "http://a/");
  }
}
