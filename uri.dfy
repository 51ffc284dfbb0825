/**
 * URI reference resolution (uri.mjs): the component split of RE_URI (the
 * regular expression of Appendix B of RFC 3986), the path merge with
 * dot-segment removal (sections 5.2.3 and 5.2.4 of RFC 3986 as the code does
 * them), the reference transformation of section 5.2.2, the recomposition of
 * section 5.3, and the fragment split.
 */
module Uri {
  import opened Json
  import opened Strings

  // ---------------------------------------------------------------------
  // RE_URI
  // ---------------------------------------------------------------------

  /** The characters each group of RE_URI stops at. */
  const SchemeStops: set<char> := {':', '/', '?', '#'}
  const AuthorityStops: set<char> := {'/', '?', '#'}
  const PathStops: set<char> := {'?', '#'}
  const QueryStops: set<char> := {'#'}

  /** The characters JavaScript's `.` does not match. */
  predicate IsLineTerminator(c: char) {
    c == '\n' || c == '\r' || c == '\U{2028}' || c == '\U{2029}'
  }

  predicate Avoids(s: string, stops: set<char>) {
    forall i :: 0 <= i < |s| ==> s[i] !in stops
  }

  /** Length of the longest prefix of `s` that avoids `stops` (a greedy `[^...]*`). */
  function Span(s: string, stops: set<char>): (n: nat)
    ensures n <= |s| && Avoids(s[..n], stops)
    ensures n < |s| ==> s[n] in stops
    decreases |s|
  {
    if s == [] || s[0] in stops then 0
    else
      var n := 1 + Span(s[1..], stops);
      assert s[..n] == [s[0]] + s[1..][..n - 1];
      n
  }

  /** A prefix that avoids `stops` and is followed by a stop or the end is the greedy one. */
  lemma {:induction false} SpanUnique(x: string, y: string, stops: set<char>)
    requires Avoids(x, stops)
    requires y == [] || y[0] in stops
    ensures Span(x + y, stops) == |x|
    decreases |x|
  {
    if x != [] {
      assert (x + y)[0] == x[0];
      assert (x + y)[1..] == x[1..] + y;
      SpanUnique(x[1..], y, stops);
    }
  }

  predicate StartsWithTwoSlashes(s: string) {
    |s| >= 2 && s[0] == '/' && s[1] == '/'
  }

  /** True when the text starts with a scheme and its colon. */
  predicate HasScheme(s: string) {
    var k := Span(s, SchemeStops);
    0 < k < |s| && s[k] == ':'
  }

  /** The text of an optional group with its delimiter; nothing when the group is absent. */
  function SchemeText(scheme: Option<string>): string {
    if scheme.Some? then scheme.value + ":" else []
  }

  function AuthorityText(authority: Option<string>): string {
    if authority.Some? then "//" + authority.value else []
  }

  function QueryText(query: Option<string>): string {
    if query.Some? then "?" + query.value else []
  }

  function FragmentText(fragment: Option<string>): string {
    if fragment.Some? then "#" + fragment.value else []
  }

  /** `(?:([^:/?#]+):)?`: a scheme and the rest of the text. */
  function SchemeGroup(s: string): (r: (Option<string>, string))
    ensures s == SchemeText(r.0) + r.1
    ensures r.0.Some? ==> r.0.value != [] && Avoids(r.0.value, SchemeStops)
    ensures r.0.None? <==> !HasScheme(s)
  {
    var k := Span(s, SchemeStops);
    if 0 < k < |s| && s[k] == ':' then
      assert s == s[..k] + ":" + s[k + 1..];
      (Some(s[..k]), s[k + 1..])
    else
      assert s == [] + s;
      (None, s)
  }

  /** `(?:\/\/([^/?#]*))?`: an authority and the rest of the text. */
  function AuthorityGroup(s: string): (r: (Option<string>, string))
    ensures r.0.Some? <==> StartsWithTwoSlashes(s)
    ensures s == AuthorityText(r.0) + r.1
    ensures r.0.Some? ==> Avoids(r.0.value, AuthorityStops)
    ensures r.0.Some? ==> r.1 == [] || r.1[0] in AuthorityStops
  {
    if StartsWithTwoSlashes(s) then
      var j := Span(s[2..], AuthorityStops);
      assert s == "//" + s[2..][..j] + s[2 + j..];
      (Some(s[2..][..j]), s[2 + j..])
    else
      assert s == [] + s;
      (None, s)
  }

  /** `([^?#]*)`: the path and the rest of the text. */
  function PathGroup(s: string): (r: (string, string))
    ensures s == r.0 + r.1 && Avoids(r.0, PathStops)
    ensures r.1 == [] || r.1[0] in PathStops
  {
    var p := Span(s, PathStops);
    assert s == s[..p] + s[p..];
    (s[..p], s[p..])
  }

  /** `(?:\?([^#]*))?`: a query and the rest of the text. */
  function QueryGroup(s: string): (r: (Option<string>, string))
    requires s == [] || s[0] in PathStops
    ensures r.0.Some? <==> s != [] && s[0] == '?'
    ensures s == QueryText(r.0) + r.1
    ensures r.0.Some? ==> Avoids(r.0.value, QueryStops)
    ensures r.1 == [] || r.1[0] == '#'
  {
    if s != [] && s[0] == '?' then
      var q := Span(s[1..], QueryStops);
      assert s == "?" + s[1..][..q] + s[1 + q..];
      (Some(s[1..][..q]), s[1 + q..])
    else
      assert s == [] + s;
      (None, s)
  }

  /**
   * The five groups of an RE_URI match (uri.mjs:1-6). `None` is a group that
   * did not take part; the path group always does.
   */
  datatype UriMatch = UriMatch(
    scheme: Option<string>,
    authority: Option<string>,
    path: string,
    query: Option<string>,
    fragment: Option<string>)

  /** The text a match covers, delimiters included. */
  function Unsplit(m: UriMatch): string {
    SchemeText(m.scheme) + AuthorityText(m.authority) + m.path + QueryText(m.query) + FragmentText(m.fragment)
  }

  predicate NoLineTerminator(s: string) {
    forall i :: 0 <= i < |s| ==> !IsLineTerminator(s[i])
  }

  /**
   * What the greedy match of RE_URI guarantees of its groups: each group stays
   * within its character class, and each optional group is taken whenever the
   * text allows it.
   */
  predicate ValidMatch(m: UriMatch) {
    && (m.scheme.Some? ==> m.scheme.value != [] && Avoids(m.scheme.value, SchemeStops))
    && (m.scheme.None? ==> !HasScheme(Unsplit(m)))
    && (m.authority.Some? ==> Avoids(m.authority.value, AuthorityStops) && (m.path == [] || m.path[0] == '/'))
    && (m.authority.None? ==> !StartsWithTwoSlashes(m.path))
    && Avoids(m.path, PathStops)
    && (m.query.Some? ==> Avoids(m.query.value, QueryStops))
    && (m.fragment.Some? ==> NoLineTerminator(m.fragment.value))
  }

  /** Index of the first `#`, or the length when there is none. */
  function FirstHash(s: string): (n: nat)
    ensures n <= |s| && Avoids(s[..n], {'#'}) && (n < |s| ==> s[n] == '#')
  {
    Span(s, {'#'})
  }

  /** The regular expression fails exactly when the text after the first `#` has a line break. */
  predicate BrokenFragment(s: string) {
    !NoLineTerminator(s[FirstHash(s)..])
  }

  /**
   * `RE_URI.exec(s)`: the split into (scheme, authority, path, query,
   * fragment), or `None` when the expression does not match.
   */
  function MatchUri(s: string): (r: Option<UriMatch>)
    ensures r.Some? ==> ValidMatch(r.value) && Unsplit(r.value) == s
    ensures r.None? <==> BrokenFragment(s)
  {
    var (scheme, afterScheme) := SchemeGroup(s);
    var (authority, afterAuthority) := AuthorityGroup(afterScheme);
    var (path, afterPath) := PathGroup(afterAuthority);
    var (query, afterQuery) := QueryGroup(afterPath);
    var m := UriMatch(scheme, authority, path, query, if afterQuery == [] then None else Some(afterQuery[1..]));
    MatchUriFacts(s, m, afterScheme, afterAuthority, afterPath, afterQuery);
    if afterQuery != [] && !NoLineTerminator(afterQuery[1..]) then None
    else Some(m)
  }

  /** The groups MatchUri takes cover the whole text. */
  lemma MatchCovers(s: string, m: UriMatch, afterScheme: string, afterAuthority: string,
                    afterPath: string, afterQuery: string)
    requires s == SchemeText(m.scheme) + afterScheme
    requires afterScheme == AuthorityText(m.authority) + afterAuthority
    requires afterAuthority == m.path + afterPath
    requires afterPath == QueryText(m.query) + afterQuery
    ensures s == SchemeText(m.scheme) + AuthorityText(m.authority) + m.path + QueryText(m.query) + afterQuery
  {
    Concat5(SchemeText(m.scheme), AuthorityText(m.authority), m.path, QueryText(m.query), afterQuery);
  }

  /** The proof obligations of MatchUri, from what each group guarantees. */
  lemma MatchUriFacts(s: string, m: UriMatch, afterScheme: string, afterAuthority: string,
                      afterPath: string, afterQuery: string)
    requires s == SchemeText(m.scheme) + afterScheme
    requires m.scheme.Some? ==> m.scheme.value != [] && Avoids(m.scheme.value, SchemeStops)
    requires m.scheme.None? ==> !HasScheme(s)
    requires afterScheme == AuthorityText(m.authority) + afterAuthority
    requires m.authority.Some? ==> Avoids(m.authority.value, AuthorityStops)
    requires m.authority.Some? ==> afterAuthority == [] || afterAuthority[0] in AuthorityStops
    requires m.authority.None? ==> !StartsWithTwoSlashes(afterScheme)
    requires afterAuthority == m.path + afterPath && Avoids(m.path, PathStops)
    requires afterPath == QueryText(m.query) + afterQuery
    requires m.query.Some? ==> Avoids(m.query.value, QueryStops)
    requires afterQuery == [] || afterQuery[0] == '#'
    requires m.fragment == if afterQuery == [] then None else Some(afterQuery[1..])
    ensures Unsplit(m) == s
    ensures BrokenFragment(s) <==> afterQuery != [] && !NoLineTerminator(afterQuery[1..])
    ensures !BrokenFragment(s) ==> ValidMatch(m)
  {
    MatchCovers(s, m, afterScheme, afterAuthority, afterPath, afterQuery);
    assert afterQuery == FragmentText(m.fragment);
    var head := SchemeText(m.scheme) + AuthorityText(m.authority) + m.path + QueryText(m.query);
    FragmentBroken(s, m, head, afterQuery);
    PathAfterAuthority(m, afterScheme, afterAuthority, afterPath);
  }

  /** The text after the first `#` is the fragment group with its `#`. */
  lemma FragmentBroken(s: string, m: UriMatch, head: string, rest: string)
    requires m.scheme.Some? ==> Avoids(m.scheme.value, SchemeStops)
    requires m.authority.Some? ==> Avoids(m.authority.value, AuthorityStops)
    requires Avoids(m.path, PathStops)
    requires m.query.Some? ==> Avoids(m.query.value, QueryStops)
    requires head == SchemeText(m.scheme) + AuthorityText(m.authority) + m.path + QueryText(m.query)
    requires s == head + rest && (rest == [] || rest[0] == '#')
    ensures BrokenFragment(s) <==> rest != [] && !NoLineTerminator(rest[1..])
  {
    FirstHashAt(s, m, head, rest);
    if rest != [] {
      assert rest == [rest[0]] + rest[1..];
    }
  }

  lemma EmptyConcat(a: string, b: string)
    requires a == []
    ensures a + b == b
  {
  }

  lemma Concat5(a: string, b: string, c: string, d: string, e: string)
    ensures a + (b + (c + (d + e))) == a + b + c + d + e
  {
  }

  /** The path group starts where the authority group stopped. */
  lemma PathAfterAuthority(m: UriMatch, afterScheme: string, afterAuthority: string, afterPath: string)
    requires afterScheme == AuthorityText(m.authority) + afterAuthority
    requires m.authority.Some? ==> afterAuthority == [] || afterAuthority[0] in AuthorityStops
    requires m.authority.None? ==> !StartsWithTwoSlashes(afterScheme)
    requires afterAuthority == m.path + afterPath && Avoids(m.path, PathStops)
    ensures m.authority.Some? ==> m.path == [] || m.path[0] == '/'
    ensures m.authority.None? ==> !StartsWithTwoSlashes(m.path)
  {
    if m.authority.Some? && m.path != [] {
      assert afterAuthority[0] == m.path[0];
    }
    if m.authority.None? && |m.path| >= 2 {
      assert afterScheme == afterAuthority;
      assert afterScheme[..2] == m.path[..2];
    }
  }

  /** In a matched text the first `#` is the one that opens the fragment group. */
  lemma FirstHashAt(s: string, m: UriMatch, head: string, rest: string)
    requires m.scheme.Some? ==> Avoids(m.scheme.value, SchemeStops)
    requires m.authority.Some? ==> Avoids(m.authority.value, AuthorityStops)
    requires Avoids(m.path, PathStops)
    requires m.query.Some? ==> Avoids(m.query.value, QueryStops)
    requires head == SchemeText(m.scheme) + AuthorityText(m.authority) + m.path + QueryText(m.query)
    requires s == head + rest && (rest == [] || rest[0] == '#')
    ensures s[FirstHash(s)..] == rest
  {
    AvoidsConcat4(SchemeText(m.scheme), AuthorityText(m.authority), m.path, QueryText(m.query), {'#'});
    SpanUnique(head, rest, {'#'});
  }

  lemma AvoidsConcat4(a: string, b: string, c: string, d: string, stops: set<char>)
    requires Avoids(a, stops) && Avoids(b, stops) && Avoids(c, stops) && Avoids(d, stops)
    ensures Avoids(a + b + c + d, stops)
  {
    var s := a + b + c + d;
    forall i | 0 <= i < |s| ensures s[i] !in stops {
      if i < |a| { assert s[i] == a[i]; }
      else if i < |a| + |b| { assert s[i] == b[i - |a|]; }
      else if i < |a| + |b| + |c| { assert s[i] == c[i - |a| - |b|]; }
      else { assert s[i] == d[i - |a| - |b| - |c|]; }
    }
  }

  /** The scheme group takes exactly a valid scheme and its colon. */
  lemma SchemeGroupOf(m: UriMatch, rest: string)
    requires m.scheme.Some? ==> m.scheme.value != [] && Avoids(m.scheme.value, SchemeStops)
    requires m.scheme.None? ==> !HasScheme(rest)
    ensures SchemeGroup(SchemeText(m.scheme) + rest) == (m.scheme, rest)
  {
    var s := SchemeText(m.scheme) + rest;
    if m.scheme.Some? {
      var k := |m.scheme.value|;
      assert s == m.scheme.value + (":" + rest);
      SpanUnique(m.scheme.value, ":" + rest, SchemeStops);
      assert s[..k] == m.scheme.value && s[k] == ':' && s[k + 1..] == rest;
    } else {
      assert s == rest;
    }
  }

  /** The authority group takes exactly `//`, a valid authority and nothing more. */
  lemma AuthorityGroupOf(m: UriMatch, rest: string)
    requires m.authority.Some? ==> Avoids(m.authority.value, AuthorityStops)
    requires m.authority.Some? ==> rest == [] || rest[0] in AuthorityStops
    requires m.authority.None? ==> !StartsWithTwoSlashes(rest)
    ensures AuthorityGroup(AuthorityText(m.authority) + rest) == (m.authority, rest)
  {
    var s := AuthorityText(m.authority) + rest;
    if m.authority.Some? {
      var j := |m.authority.value|;
      assert s[2..] == m.authority.value + rest;
      SpanUnique(m.authority.value, rest, AuthorityStops);
      assert s[2..][..j] == m.authority.value;
      assert s[2 + j..] == rest;
    } else {
      assert s == rest;
    }
  }

  /** The query group takes exactly `?` and a valid query. */
  lemma QueryGroupOf(m: UriMatch, rest: string)
    requires m.query.Some? ==> Avoids(m.query.value, QueryStops)
    requires rest == [] || rest[0] == '#'
    ensures QueryGroup(QueryText(m.query) + rest) == (m.query, rest)
  {
    var s := QueryText(m.query) + rest;
    if m.query.Some? {
      assert s[1..] == m.query.value + rest;
      SpanUnique(m.query.value, rest, QueryStops);
      assert s[1..][..|m.query.value|] == m.query.value;
    } else {
      assert s == rest;
    }
  }

  /** A path that does not start with `//`, followed by a stop, does not either. */
  lemma NoTwoSlashes(path: string, tail: string)
    requires !StartsWithTwoSlashes(path) && Avoids(path, PathStops)
    requires tail == [] || tail[0] in PathStops
    ensures !StartsWithTwoSlashes(path + tail)
  {
    var s := path + tail;
    if |path| >= 2 {
      assert s[..2] == path[..2];
    } else if |path| == 1 && tail != [] {
      assert s[1] == tail[0];
    } else if path == [] {
      assert s == tail;
    }
  }

  /**
   * The match of RE_URI is the only valid split: whatever groups satisfy
   * ValidMatch and cover the text are the ones the expression returns.
   */
  lemma MatchExact(m: UriMatch)
    requires ValidMatch(m)
    ensures MatchUri(Unsplit(m)) == Some(m)
  {
    var tail := QueryText(m.query) + FragmentText(m.fragment);
    ExactScheme(m);
    ExactAuthority(m);
    SpanUnique(m.path, tail, PathStops);
    assert PathGroup(m.path + tail) == (m.path, tail);
    QueryGroupOf(m, FragmentText(m.fragment));
    if m.fragment.Some? {
      assert FragmentText(m.fragment)[1..] == m.fragment.value;
    }
  }

  lemma ExactScheme(m: UriMatch)
    requires ValidMatch(m)
    ensures SchemeGroup(Unsplit(m)) == (m.scheme, AuthorityText(m.authority) + (m.path + (QueryText(m.query) + FragmentText(m.fragment))))
  {
    var afterScheme := AuthorityText(m.authority) + (m.path + (QueryText(m.query) + FragmentText(m.fragment)));
    Concat5(SchemeText(m.scheme), AuthorityText(m.authority), m.path, QueryText(m.query), FragmentText(m.fragment));
    if m.scheme.None? {
      EmptyConcat(SchemeText(m.scheme), afterScheme);
    }
    SchemeGroupOf(m, afterScheme);
  }

  lemma ExactAuthority(m: UriMatch)
    requires ValidMatch(m)
    ensures AuthorityGroup(AuthorityText(m.authority) + (m.path + (QueryText(m.query) + FragmentText(m.fragment))))
         == (m.authority, m.path + (QueryText(m.query) + FragmentText(m.fragment)))
  {
    var tail := QueryText(m.query) + FragmentText(m.fragment);
    if m.authority.Some? && m.path == [] {
      assert m.path + tail == tail;
    }
    if m.authority.None? {
      NoTwoSlashes(m.path, tail);
    }
    AuthorityGroupOf(m, m.path + tail);
  }

  // ---------------------------------------------------------------------
  // merge: segment stack specification
  // ---------------------------------------------------------------------

  /** `segments.pop()`: drops the top segment; nothing happens on an empty stack. */
  function Pop(stack: seq<string>): seq<string> {
    if stack == [] then [] else stack[..|stack| - 1]
  }

  /** One base-path segment: `..` pops, `.` is dropped, anything else is pushed. */
  function Apply(stack: seq<string>, segment: string): seq<string> {
    if segment == ".." then Pop(stack)
    else if segment == "." then stack
    else stack + [segment]
  }

  /** The slash-terminated base pieces; empty pieces are skipped. */
  function BaseStack(pieces: seq<string>): seq<string>
    decreases |pieces|
  {
    if pieces == [] then []
    else
      var stack := BaseStack(pieces[..|pieces| - 1]);
      var segment := pieces[|pieces| - 1];
      if segment == [] then stack else Apply(stack, segment)
  }

  /**
   * The stack the base path leaves for the reference path: every piece of the
   * base a slash terminates, and the last piece only when the reference path is
   * empty (and the base is not).
   */
  function BaseStart(path: string, base: string): seq<string> {
    var pieces := Split(base);
    var kept := BaseStack(Init(pieces));
    if path == [] && base != [] then Apply(kept, Last(pieces)) else kept
  }

  lemma BaseStackSnoc(pieces: seq<string>, piece: string)
    ensures BaseStack(pieces + [piece]) == if piece == [] then BaseStack(pieces) else Apply(BaseStack(pieces), piece)
  {
    assert (pieces + [piece])[..|pieces|] == pieces;
  }

  /** BaseStart in terms of the closed pieces and the open one. */
  lemma BaseStartOf(path: string, base: string, anchor: nat, done: seq<string>)
    requires anchor <= |base| && Split(base) == done + [base[anchor..]]
    ensures BaseStart(path, base)
         == if path == [] && base != [] then Apply(BaseStack(done), base[anchor..]) else BaseStack(done)
  {
  }

  /** The segment stack and the `endSlash` flag of the reference-path pass. */
  datatype PathState = PathState(stack: seq<string>, endSlash: bool)

  /** One reference-path segment: as Apply, and a dot segment asks for a closing slash. */
  function Step(st: PathState, segment: string): PathState {
    if segment == [] then st
    else if segment == ".." then PathState(Pop(st.stack), true)
    else if segment == "." then PathState(st.stack, true)
    else PathState(st.stack + [segment], false)
  }

  function Steps(st: PathState, pieces: seq<string>): PathState
    decreases |pieces|
  {
    if pieces == [] then st else Step(Steps(st, pieces[..|pieces| - 1]), pieces[|pieces| - 1])
  }

  lemma StepsSnoc(st: PathState, pieces: seq<string>, piece: string)
    ensures Steps(st, pieces + [piece]) == Step(Steps(st, pieces), piece)
  {
    assert (pieces + [piece])[..|pieces|] == pieces;
  }

  /**
   * The last reference piece: a non-empty piece is one more step; an empty one
   * (the path ends in a slash) pushes an empty segment unless a dot segment
   * already asked for the slash.
   */
  function Finish(st: PathState, path: string, last: string): PathState {
    if last != [] then Step(st, last)
    else if path != [] && !st.endSlash then PathState(st.stack + [[]], false)
    else st
  }

  /**
   * The state both passes of merge leave: the base pass runs only for a path
   * that is empty or does not start with `/`.
   */
  function MergeState(path: string, base: string): PathState {
    var start := if path == [] || path[0] != '/' then BaseStart(path, base) else [];
    var pieces := Split(path);
    Finish(Steps(PathState(start, false), Init(pieces)), path, Last(pieces))
  }

  /** The finishing join of merge (uri.mjs:93-100): segments, then a closing slash if asked for. */
  function Render(st: PathState): string {
    Join(st.stack) + (if st.endSlash then "/" else [])
  }

  /** `merge(path, base)`: the merged, dot-free path. */
  function Merge(path: string, base: string): string {
    Render(MergeState(path, base))
  }

  /**
   * `merge` (uri.mjs:16-101): the base pass, run only for a path that is empty
   * or does not start with `/`, then the path pass, then the join.
   */
  method MergePaths(path: string, base: string) returns (merged: string)
    ensures merged == Merge(path, base)
  {
    var segments: seq<string> := [];
    if path == [] || path[0] != '/' {
      segments := MergeBasePass(path, base);
    }
    var endSlash;
    segments, endSlash := MergePathPass(path, segments);
    merged := Join(segments);
    if endSlash {
      merged := merged + "/";
    }
  }

  /**
   * The first `do…while` of merge (uri.mjs:26-60): one BaseRound for every
   * `index` from 0 to the base length.
   */
  method MergeBasePass(path: string, base: string) returns (segments: seq<string>)
    ensures segments == BaseStart(path, base)
  {
    segments := [];
    var index := 0;
    var anchor := 0;
    var current: Option<char> := None;
    var length := |base|;
    ghost var done: seq<string> := [];
    while index <= length
      invariant index <= length + 1
      invariant index <= length ==> BaseScanned(base, index, anchor, current, segments, done)
      invariant index == length + 1 ==> segments == BaseStart(path, base)
      decreases length + 1 - index
    {
      segments, anchor, current, done := BaseRound(path, base, index, anchor, current, segments, done);
      index := index + 1;
    }
  }

  /**
   * The state of the base pass before round `index`: `done` holds the pieces
   * closed so far, the open piece starts at `anchor`, `segments` is their stack
   * and `current` is the `char` variable.
   */
  ghost predicate BaseScanned(base: string, index: nat, anchor: nat, current: Option<char>,
                              segments: seq<string>, done: seq<string>)
  {
    && anchor <= index <= |base|
    && Split(base[..index]) == done + [base[anchor..index]]
    && segments == BaseStack(done)
    && current == (if index == 0 then None else Some(base[index - 1]))
    && (0 < anchor ==> base[anchor - 1] == '/')
  }

  /**
   * One round of the base pass (uri.mjs:31-53): a slash closes the open
   * piece; so does the end of the base, for an empty path only. A closed
   * piece goes through the `switch` unless it is empty, except that the
   * final piece of a base ending in `/` does.
   */
  method BaseRound(path: string, base: string, index: nat, anchor: nat, current: Option<char>,
                   segments: seq<string>, ghost done: seq<string>)
    returns (segments': seq<string>, anchor': nat, current': Option<char>, ghost done': seq<string>)
    requires index <= |base| && BaseScanned(base, index, anchor, current, segments, done)
    ensures index < |base| ==> BaseScanned(base, index + 1, anchor', current', segments', done')
    ensures index == |base| ==> segments' == BaseStart(path, base)
  {
    if index < |base| {
      segments', anchor', current', done' := BaseInside(base, index, anchor, current, segments, done);
    } else {
      segments', anchor', current' := BaseAtEnd(path, base, anchor, current, segments, done);
      done' := done;
    }
  }

  /** A round at a character of the base: `char` is that character, and only a slash closes the open piece. */
  method BaseInside(base: string, index: nat, anchor: nat, current: Option<char>,
                    segments: seq<string>, ghost done: seq<string>)
    returns (segments': seq<string>, anchor': nat, current': Option<char>, ghost done': seq<string>)
    requires index < |base| && BaseScanned(base, index, anchor, current, segments, done)
    ensures BaseScanned(base, index + 1, anchor', current', segments', done')
  {
    segments', anchor', done' := segments, anchor, done;
    current' := Some(base[index]);
    if current' == Some('/') {
      if index != anchor {
        segments' := ApplySegment(segments, base[anchor..index]);
      }
      done' := done + [base[anchor..index]];
      anchor' := index + 1;
      BaseSlash(base, index, anchor, current, segments, done, segments', done');
    } else {
      BaseChar(base, index, anchor, current, segments, done);
    }
  }

  /**
   * The round at the end of the base: for an empty path it closes the open
   * piece with `char` still the last character; otherwise `char` becomes
   * `undefined` and nothing closes.
   */
  method BaseAtEnd(path: string, base: string, anchor: nat, current: Option<char>,
                   segments: seq<string>, ghost done: seq<string>)
    returns (segments': seq<string>, anchor': nat, current': Option<char>)
    requires BaseScanned(base, |base|, anchor, current, segments, done)
    ensures segments' == BaseStart(path, base)
  {
    segments', anchor', current' := segments, anchor, current;
    if path == [] {
      if |base| != anchor || current == Some('/') {
        segments' := ApplySegment(segments, base[anchor..|base|]);
      }
      anchor' := |base| + 1;
    } else {
      current' := None;
    }
    BaseEnd(path, base, anchor, current, segments, done);
  }

  /** A slash in the base closes the open piece, which is applied unless it is empty. */
  lemma BaseSlash(base: string, index: nat, anchor: nat, current: Option<char>, segments: seq<string>, done: seq<string>,
                  segments': seq<string>, done': seq<string>)
    requires index < |base| && base[index] == '/' && BaseScanned(base, index, anchor, current, segments, done)
    requires segments' == (if index != anchor then Apply(segments, base[anchor..index]) else segments)
    requires done' == done + [base[anchor..index]]
    ensures BaseScanned(base, index + 1, index + 1, Some(base[index]), segments', done')
  {
    SplitGrow(base, index, anchor, done);
    BaseStackSnoc(done, base[anchor..index]);
  }

  /** Any other character of the base extends the open piece. */
  lemma BaseChar(base: string, index: nat, anchor: nat, current: Option<char>, segments: seq<string>, done: seq<string>)
    requires index < |base| && base[index] != '/' && BaseScanned(base, index, anchor, current, segments, done)
    ensures BaseScanned(base, index + 1, anchor, Some(base[index]), segments, done)
  {
    SplitGrow(base, index, anchor, done);
  }

  /**
   * The end of the base: for an empty path the open piece is applied unless it
   * is empty, except after a final `/`; for any other path it is dropped.
   */
  lemma BaseEnd(path: string, base: string, anchor: nat, current: Option<char>, segments: seq<string>, done: seq<string>)
    requires BaseScanned(base, |base|, anchor, current, segments, done)
    ensures path == [] && (|base| != anchor || current == Some('/')) ==>
              Apply(segments, base[anchor..|base|]) == BaseStart(path, base)
    ensures !(path == [] && (|base| != anchor || current == Some('/'))) ==> segments == BaseStart(path, base)
  {
    assert base[..|base|] == base && base[anchor..|base|] == base[anchor..];
    BaseStartOf(path, base, anchor, done);
  }

  /**
   * The second `do…while` of merge (uri.mjs:62-91): one PathRound for every
   * `index` from 0 to the path length, starting from the base pass's stack.
   */
  method MergePathPass(path: string, start: seq<string>) returns (segments: seq<string>, endSlash: bool)
    ensures PathState(segments, endSlash)
         == Finish(Steps(PathState(start, false), Init(Split(path))), path, Last(Split(path)))
  {
    segments := start;
    endSlash := false;
    var index := 0;
    var anchor := 0;
    var current: Option<char> := None;
    var length := |path|;
    ghost var done: seq<string> := [];
    while index <= length
      invariant index <= length + 1
      invariant index <= length ==> PathScanned(path, start, index, anchor, current, PathState(segments, endSlash), done)
      invariant index == length + 1 ==>
                  PathState(segments, endSlash)
                  == Finish(Steps(PathState(start, false), Init(Split(path))), path, Last(Split(path)))
      decreases length + 1 - index
    {
      segments, endSlash, anchor, current, done := PathRound(path, start, index, anchor, current, segments, endSlash, done);
      index := index + 1;
    }
  }

  /** The state of the path pass before round `index`, as BaseScanned. */
  ghost predicate PathScanned(path: string, start: seq<string>, index: nat, anchor: nat, current: Option<char>,
                              st: PathState, done: seq<string>)
  {
    && anchor <= index <= |path|
    && Split(path[..index]) == done + [path[anchor..index]]
    && st == Steps(PathState(start, false), done)
    && current == (if index == 0 then None else Some(path[index - 1]))
    && (0 < anchor ==> path[anchor - 1] == '/')
  }

  /**
   * One round of the path pass (uri.mjs:66-89): a slash or the end closes the
   * open piece, which goes through the `switch` unless it is empty; an empty
   * final piece of a path ending in `/` does too, unless a dot segment has
   * already asked for the closing slash.
   */
  method PathRound(path: string, start: seq<string>, index: nat, anchor: nat, current: Option<char>,
                   segments: seq<string>, endSlash: bool, ghost done: seq<string>)
    returns (segments': seq<string>, endSlash': bool, anchor': nat, current': Option<char>, ghost done': seq<string>)
    requires index <= |path| && PathScanned(path, start, index, anchor, current, PathState(segments, endSlash), done)
    ensures index < |path| ==>
              PathScanned(path, start, index + 1, anchor', current', PathState(segments', endSlash'), done')
    ensures index == |path| ==>
              PathState(segments', endSlash')
              == Finish(Steps(PathState(start, false), Init(Split(path))), path, Last(Split(path)))
  {
    segments', endSlash', anchor', current', done' := segments, endSlash, anchor, current, done;
    var closes: bool;
    if index == |path| {
      closes := true;
    } else {
      current' := Some(path[index]);
      closes := current' == Some('/');
    }
    if index < |path| {
      SplitGrow(path, index, anchor, done);
    } else {
      assert path[..index] == path;
    }
    if closes {
      if index != anchor || (index == |path| && !endSlash && current' == Some('/')) {
        segments', endSlash' := StepSegment(segments, endSlash, path[anchor..index]);
      }
      if index < |path| {
        assert path[index] == '/';
        StepsSnoc(PathState(start, false), done, path[anchor..index]);
        done' := done + [path[anchor..index]];
      }
      anchor' := index + 1;
    }
  }

  /** The `switch` of the base pass (uri.mjs:37-49). */
  method ApplySegment(segments: seq<string>, segment: string) returns (next: seq<string>)
    ensures next == Apply(segments, segment)
  {
    next := segments;
    if segment == ".." {
      if next != [] {
        next := next[..|next| - 1];
      }
    } else if segment != "." {
      next := next + [segment];
    }
  }

  /** The `switch` of the path pass (uri.mjs:71-85), where `..` falls through to `.`. */
  method StepSegment(segments: seq<string>, endSlash: bool, segment: string)
    returns (next: seq<string>, nextEndSlash: bool)
    ensures segment != [] ==> PathState(next, nextEndSlash) == Step(PathState(segments, endSlash), segment)
    ensures segment == [] ==> PathState(next, nextEndSlash) == PathState(segments + [[]], false)
  {
    next, nextEndSlash := segments, endSlash;
    if segment == ".." {
      if next != [] {
        next := next[..|next| - 1];
      }
      nextEndSlash := true;
    } else if segment == "." {
      nextEndSlash := true;
    } else {
      next := next + [segment];
      nextEndSlash := false;
    }
  }

  // ---------------------------------------------------------------------
  // resolveURI and splitFragment
  // ---------------------------------------------------------------------

  /** A group that took part and is not empty: the only test the code applies to a group. */
  predicate Truthy(group: Option<string>) {
    group.Some? && group.value != []
  }

  /**
   * The reference transformation of resolveURI (uri.mjs:131-151) for a
   * reference without a scheme: the scheme is always the base's; the
   * authority, the path, the query and the fragment are the base's up to the
   * first one the reference supplies, and the reference's from there on. The
   * path is merged with the base's unless the reference has an authority.
   */
  function Target(ref: UriMatch, base: UriMatch): UriMatch {
    if Truthy(ref.authority) then ref.(scheme := base.scheme)
    else
      var path := Merge(ref.path, base.path);
      if ref.path != [] then UriMatch(base.scheme, base.authority, path, ref.query, ref.fragment)
      else if Truthy(ref.query) then UriMatch(base.scheme, base.authority, path, ref.query, ref.fragment)
      else if Truthy(ref.fragment) then UriMatch(base.scheme, base.authority, path, base.query, ref.fragment)
      else UriMatch(base.scheme, base.authority, path, base.query, base.fragment)
  }

  /**
   * The text resolveURI builds from its groups (uri.mjs:153-187), appended in
   * the same order: empty groups are left out, and a `/` separates an
   * authority from a path that does not start with one.
   */
  function Recompose(m: UriMatch): string {
    var withScheme := if Truthy(m.scheme) then m.scheme.value + ":" else [];
    var withAuthority := if Truthy(m.authority) then withScheme + ("//" + m.authority.value) else withScheme;
    var separated :=
      if Truthy(m.authority) && m.path != [] && m.path[0] != '/' then withAuthority + "/" else withAuthority;
    var withPath := separated + m.path;
    var withQuery := if Truthy(m.query) then withPath + ("?" + m.query.value) else withPath;
    if Truthy(m.fragment) then withQuery + ("#" + m.fragment.value) else withQuery
  }

  /**
   * `resolveURI(uri, base)`: a reference with a scheme only has its path
   * normalised; any other is transformed against the base. Either text
   * failing RE_URI is an InvalidUri error.
   */
  function Resolve(uri: string, base: string): Result<string> {
    match MatchUri(uri)
    case None => Err(InvalidUri)
    case Some(ref) =>
      if Truthy(ref.scheme) then Ok(Recompose(ref.(path := Merge(ref.path, []))))
      else
        match MatchUri(base)
        case None => Err(InvalidUri)
        case Some(b) => Ok(Recompose(Target(ref, b)))
  }

  /** The groups of a match as the code indexes them (uri.mjs:2-6); index 0 is the whole text. */
  function Groups(whole: string, m: UriMatch): seq<Option<string>> {
    [Some(whole), m.scheme, m.authority, Some(m.path), m.query, m.fragment]
  }

  /**
   * `resolveURI` (uri.mjs:109-188): the match array `parts` is overwritten
   * group by group, then the result is built up from it.
   */
  method ResolveUri(uri: string, base: string) returns (r: Result<string>)
    ensures r == Resolve(uri, base)
  {
    var mUri := MatchUri(uri);
    if mUri.None? {
      return Err(InvalidUri);
    }
    var ref := mUri.value;
    var parts := NewGroups(uri, ref);
    ghost var target;
    if Truthy(parts[1]) {
      NormalisePath(parts, uri, ref);
      target := ref.(path := Merge(ref.path, []));
      ResolveAbsolute(uri, base, ref);
    } else {
      var mBase := MatchUri(base);
      if mBase.None? {
        ResolveBadBase(uri, base, ref);
        return Err(InvalidUri);
      }
      TransformGroups(parts, uri, ref, mBase.value);
      target := Target(ref, mBase.value);
      ResolveRelative(uri, base, ref, mBase.value);
    }
    var out := RecomposeGroups(parts[..], uri, target);
    r := Ok(out);
  }

  /** Resolve on a reference with a scheme, by cases. */
  lemma ResolveAbsolute(uri: string, base: string, ref: UriMatch)
    requires MatchUri(uri) == Some(ref) && Truthy(ref.scheme)
    ensures Resolve(uri, base) == Ok(Recompose(ref.(path := Merge(ref.path, []))))
  {
  }

  /** Resolve on a reference without a scheme and a base that does not match. */
  lemma ResolveBadBase(uri: string, base: string, ref: UriMatch)
    requires MatchUri(uri) == Some(ref) && !Truthy(ref.scheme) && MatchUri(base).None?
    ensures Resolve(uri, base) == Err(InvalidUri)
  {
  }

  /** Resolve on a reference without a scheme and a matching base, by cases. */
  lemma ResolveRelative(uri: string, base: string, ref: UriMatch, b: UriMatch)
    requires MatchUri(uri) == Some(ref) && !Truthy(ref.scheme) && MatchUri(base) == Some(b)
    ensures Resolve(uri, base) == Ok(Recompose(Target(ref, b)))
  {
  }

  /** The match array `RE_URI.exec` returns for a match (uri.mjs:111). */
  method NewGroups(uri: string, m: UriMatch) returns (parts: array<Option<string>>)
    ensures fresh(parts) && parts.Length == 6 && parts[..] == Groups(uri, m)
    ensures parts[1] == m.scheme
  {
    parts := new Option<string>[6] [Some(uri), m.scheme, m.authority, Some(m.path), m.query, m.fragment];
  }

  /** A reference with a scheme only has its path normalised (uri.mjs:119-122). */
  method NormalisePath(parts: array<Option<string>>, uri: string, m: UriMatch)
    requires parts.Length == 6 && parts[..] == Groups(uri, m)
    modifies parts
    ensures parts[..] == Groups(uri, m.(path := Merge(m.path, [])))
  {
    var path := MergePaths(parts[3].value, []);
    parts[3] := Some(path);
  }

  /**
   * The `for` loop with `break` of resolveURI (uri.mjs:131-151): groups are
   * taken from the base until the reference supplies one.
   */
  method TransformGroups(parts: array<Option<string>>, uri: string, ref: UriMatch, b: UriMatch)
    requires parts.Length == 6 && parts[..] == Groups(uri, ref) && !Truthy(ref.scheme)
    modifies parts
    ensures parts[..] == Groups(uri, Target(ref, b))
  {
    var baseParts := Groups(uri, b);
    var i := 1;
    while i <= 5
      invariant 1 <= i <= 6
      invariant TakenFromBase(parts[..], uri, ref, b, i)
      decreases 6 - i
    {
      var part := parts[i];
      ghost var before := parts[..];
      if i == 3 {
        var path := MergePaths(part.value, baseParts[3].value);
        parts[i] := Some(path);
        assert parts[..] == before[3 := Some(Merge(before[3].value, b.path))];
        if part.value != [] {
          TargetAtPath(before, parts[..], uri, ref, b);
          break;
        }
        PathFromBase(before, parts[..], uri, ref, b);
      } else {
        if Truthy(part) {
          TargetAtGroup(parts[..], uri, ref, b, i);
          break;
        }
        parts[i] := baseParts[i];
        assert parts[..] == before[i := baseParts[i]];
        GroupFromBase(before, parts[..], uri, ref, b, i);
      }
      i := i + 1;
    }
    if i == 6 {
      TargetAllBase(parts[..], uri, ref, b);
    }
  }

  /** The text built from the groups with `+=` (uri.mjs:153-187). */
  method RecomposeGroups(parts: seq<Option<string>>, ghost uri: string, ghost m: UriMatch) returns (out: string)
    requires parts == Groups(uri, m)
    ensures out == Recompose(m)
  {
    var tmp := parts[1];
    out := if Truthy(tmp) then tmp.value + ":" else [];
    tmp := parts[2];
    if Truthy(tmp) {
      out := out + ("//" + tmp.value);
      tmp := parts[3];
      if Truthy(tmp) && tmp.value[0] != '/' {
        out := out + "/";
      }
    }
    out := out + parts[3].value;
    tmp := parts[4];
    if Truthy(tmp) {
      out := out + ("?" + tmp.value);
    }
    tmp := parts[5];
    if Truthy(tmp) {
      out := out + ("#" + tmp.value);
    }
  }

  /**
   * The groups the loop of resolveURI holds before index `i`: the groups
   * before `i` are the base's (the path merged with the base's), the
   * reference left them all empty, and those from `i` on are still the
   * reference's.
   */
  ghost predicate TakenFromBase(parts: seq<Option<string>>, uri: string, ref: UriMatch, b: UriMatch, i: int) {
    |parts| == 6 && 1 <= i <= 6 && !Truthy(ref.scheme) && parts[0] == Some(uri) &&
    (forall j :: i <= j < 6 ==> parts[j] == Groups(uri, ref)[j]) &&
    (forall j :: 1 <= j < i && j != 3 ==> parts[j] == Groups(uri, b)[j] && !Truthy(Groups(uri, ref)[j])) &&
    (3 < i ==> parts[3] == Some(Merge(ref.path, b.path)) && ref.path == [])
  }

  /** An empty group of the reference is replaced by the base's. */
  lemma GroupFromBase(before: seq<Option<string>>, parts: seq<Option<string>>, uri: string, ref: UriMatch, b: UriMatch, i: int)
    requires TakenFromBase(before, uri, ref, b, i) && i <= 5 && i != 3 && !Truthy(before[i])
    requires parts == before[i := Groups(uri, b)[i]]
    ensures TakenFromBase(parts, uri, ref, b, i + 1)
  {
  }

  /** An empty path is merged with the base's and the loop goes on. */
  lemma PathFromBase(before: seq<Option<string>>, parts: seq<Option<string>>, uri: string, ref: UriMatch, b: UriMatch)
    requires TakenFromBase(before, uri, ref, b, 3) && before[3].value == []
    requires parts == before[3 := Some(Merge(before[3].value, b.path))]
    ensures TakenFromBase(parts, uri, ref, b, 4)
  {
  }

  /** A non-empty path is merged with the base's and ends the loop. */
  lemma TargetAtPath(before: seq<Option<string>>, parts: seq<Option<string>>, uri: string, ref: UriMatch, b: UriMatch)
    requires TakenFromBase(before, uri, ref, b, 3) && before[3].value != []
    requires parts == before[3 := Some(Merge(before[3].value, b.path))]
    ensures parts == Groups(uri, Target(ref, b))
  {
    assert before[2] == Groups(uri, b)[2] && !Truthy(Groups(uri, ref)[2]);
    assert before[3] == Some(ref.path);
    assert Target(ref, b) == UriMatch(b.scheme, b.authority, Merge(ref.path, b.path), ref.query, ref.fragment);
  }

  /** A group the reference supplies ends the loop with the rest of the reference's groups. */
  lemma TargetAtGroup(parts: seq<Option<string>>, uri: string, ref: UriMatch, b: UriMatch, i: int)
    requires TakenFromBase(parts, uri, ref, b, i) && i <= 5 && i != 3 && Truthy(parts[i])
    ensures parts == Groups(uri, Target(ref, b))
  {
    var t := Target(ref, b);
    if i == 2 {
      assert t == ref.(scheme := b.scheme);
    } else {
      assert parts[2] == Groups(uri, b)[2] && !Truthy(Groups(uri, ref)[2]);
      if i == 4 {
        assert t == UriMatch(b.scheme, b.authority, Merge(ref.path, b.path), ref.query, ref.fragment);
      } else {
        assert parts[4] == Groups(uri, b)[4] && !Truthy(Groups(uri, ref)[4]);
        assert t == UriMatch(b.scheme, b.authority, Merge(ref.path, b.path), b.query, ref.fragment);
      }
    }
  }

  /** A reference with every group empty takes all of the base's. */
  lemma TargetAllBase(parts: seq<Option<string>>, uri: string, ref: UriMatch, b: UriMatch)
    requires TakenFromBase(parts, uri, ref, b, 6)
    ensures parts == Groups(uri, Target(ref, b))
  {
    assert parts[2] == Groups(uri, b)[2] && !Truthy(Groups(uri, ref)[2]);
    assert parts[4] == Groups(uri, b)[4] && !Truthy(Groups(uri, ref)[4]);
    assert parts[5] == Groups(uri, b)[5] && !Truthy(Groups(uri, ref)[5]);
    assert Target(ref, b) == UriMatch(b.scheme, b.authority, Merge(ref.path, b.path), b.query, b.fragment);
  }

  /**
   * `splitFragment` (uri.mjs:196-200): the text before the first `#` and the
   * text after it, or the whole text and nothing when there is no `#`.
   */
  function SplitFragment(uri: string): (r: (string, string))
    ensures '#' !in r.0
    ensures '#' !in uri ==> r == (uri, [])
    ensures '#' in uri ==> uri == r.0 + "#" + r.1
  {
    var index := FirstHash(uri);
    if index == |uri| then
      assert uri[..index] == uri;
      (uri, [])
    else
      assert uri == uri[..index] + "#" + uri[index + 1..];
      (uri[..index], uri[index + 1..])
  }
}
