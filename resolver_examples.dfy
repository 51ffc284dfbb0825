/**
 * The two usage examples of the library (test/base.test.mjs): a document
 * whose `$ref` nodes point into itself, and a document whose `$ref` nodes
 * point into two other registered documents. The uri arithmetic is proved for
 * any plain names first, the examples then instantiate it.
 */
module ResolverExamples {
  import opened Json
  import opened Strings
  import opened Uri
  import Pointers
  import opened Resolver
  import ResolverProperties
  import ResolveExamples

  // ---------------------------------------------------------------------
  // uri arithmetic on plain names
  // ---------------------------------------------------------------------

  /** A path segment without any character RE_URI or merge treats specially. */
  predicate Name(s: string) {
    s != [] && s != "." && s != ".." && Avoids(s, SchemeStops)
  }

  /** A segment merge pushes as it is. */
  predicate Plain(s: string) {
    s != [] && s != "." && s != ".." && NoSlash(s)
  }

  lemma NamePlain(s: string)
    requires Name(s)
    ensures Plain(s) && Avoids(s, PathStops)
  {
  }

  const NoBaseMatch: UriMatch := UriMatch(None, None, NoBase, None, None)

  /** The text of `undefined` is a relative reference of one segment. */
  lemma MatchNoBase()
    ensures MatchUri(NoBase) == Some(NoBaseMatch)
  {
    NameNoBase();
    ParseName(NoBase);
    MatchExact(NoBaseMatch);
  }

  lemma NameNoBase()
    ensures Name(NoBase)
  {
  }

  /** A schemeless reference against a matching base, as resolveURI transforms it. */
  lemma {:induction false} Against(uri: string, base: string, ref: UriMatch, b: UriMatch, target: UriMatch, expected: string)
    requires ValidMatch(ref) && Unsplit(ref) == uri && ref.scheme.None? && MatchUri(base) == Some(b)
    requires Target(ref, b) == target && Recompose(target) == expected
    ensures Resolve(uri, base) == Ok(expected)
  {
    MatchExact(ref);
    ResolveRelative(uri, base, ref, b);
  }

  /** The base pass over `undefined` keeps nothing for a non-empty path. */
  lemma {:induction false} NoBaseStart(path: string)
    requires path != []
    ensures BaseStart(path, NoBase) == []
  {
    SplitNoSlash(NoBase);
    assert Init([NoBase]) == [];
  }

  /** A name merged against `undefined` is itself. */
  lemma {:induction false} MergeName(x: string)
    requires Name(x)
    ensures Merge(x, NoBase) == x
  {
    assert NoSlash(x);
    ResolveExamples.MergeOneSegment(x, NoBase);
    NoBaseStart(x);
    assert [] + [x] == [x];
  }

  /** A name is a schemeless reference of one segment. */
  lemma {:induction false} ParseName(x: string)
    requires Name(x)
    ensures ValidMatch(UriMatch(None, None, x, None, None)) && Unsplit(UriMatch(None, None, x, None, None)) == x
  {
    ResolveExamples.NoStops(x);
    assert x + [] + [] == x;
    ResolveExamples.RefMatch(x, None, None);
  }

  /**
   * A name is its own store key: resolved without a base (against the text
   * `undefined`, Resolver.mjs:39) it comes back unchanged.
   */
  lemma {:induction false} NameKey(x: string)
    requires Name(x)
    ensures Resolve(x, NoBase) == Ok(x)
  {
    ParseName(x);
    MergeName(x);
    OwnKey(x);
  }

  /** A schemeless path that merge leaves as it is is its own store key. */
  lemma {:induction false} OwnKey(p: string)
    requires p != [] && ValidMatch(UriMatch(None, None, p, None, None)) && Unsplit(UriMatch(None, None, p, None, None)) == p
    requires Merge(p, NoBase) == p
    ensures Resolve(p, NoBase) == Ok(p)
  {
    var ref := UriMatch(None, None, p, None, None);
    MatchNoBase();
    assert Target(ref, NoBaseMatch) == ref;
    Against(p, NoBase, ref, NoBaseMatch, ref, p);
  }

  /** Two names joined by a slash split back into them. */
  lemma {:induction false} SplitTwo(d: string, x: string)
    requires Plain(d) && Plain(x)
    ensures Split(d + "/" + x) == [d, x]
  {
    SplitNoSlash(d);
    SplitSlash(d, x);
  }

  /** Two names joined by a slash are a schemeless reference. */
  lemma {:induction false} ParseTwo(p: string, d: string, x: string)
    requires Name(d) && Name(x) && p == d + "/" + x
    ensures ValidMatch(UriMatch(None, None, p, None, None)) && Unsplit(UriMatch(None, None, p, None, None)) == p
  {
    assert p[..|d|] == d && p[|d|] == '/';
    ResolveExamples.NoScheme(p, |d|);
    assert Avoids(p, PathStops) by {
      forall i | 0 <= i < |p|
        ensures p[i] !in PathStops
      {
        if i < |d| { assert p[i] == d[i]; } else if i > |d| { assert p[i] == x[i - |d| - 1]; }
      }
    }
    assert p[0] == d[0];
    assert p + [] + [] == p;
    ResolveExamples.RefMatch(p, None, None);
  }

  /** Two names merged against `undefined` are kept. */
  lemma {:induction false} MergeTwo(p: string, d: string, x: string)
    requires Plain(d) && Plain(x) && p == d + "/" + x
    ensures Merge(p, NoBase) == p
  {
    SplitTwo(d, x);
    NoBaseStart(p);
    assert p[0] == d[0] && p[0] != '/';
    var st := PathState([], false);
    StepsSnoc(st, [], d);
    assert [] + [d] == [d];
    assert Steps(st, [d]) == PathState([d], false);
    assert Init([d, x]) == [d];
    assert MergeState(p, NoBase) == PathState([d, x], false);
    ResolveExamples.Join3(d, x, x);
  }

  /** A path of two names is its own store key. */
  lemma {:induction false} PathKey(p: string, d: string, x: string)
    requires Name(d) && Name(x) && p == d + "/" + x
    ensures Resolve(p, NoBase) == Ok(p)
  {
    ParseTwo(p, d, x);
    NamePlain(d);
    NamePlain(x);
    MergeTwo(p, d, x);
    OwnKey(p);
  }

  /** The base pass over `d/x` keeps `d` for a non-empty path. */
  lemma {:induction false} BaseDirectory(p: string, base: string, d: string, x: string)
    requires p != [] && Plain(d) && Plain(x) && base == d + "/" + x
    ensures BaseStart(p, base) == [d]
  {
    SplitTwo(d, x);
    assert Init([d, x]) == [d];
    BaseStackSnoc([], d);
    var none: seq<string> := [];
    assert none + [d] == [d];
    assert d != [] && d != "." && d != "..";
  }

  /** `../y` splits into its two pieces. */
  lemma {:induction false} UpPieces(p: string, u: string, y: string)
    requires u == ".." && NoSlash(y) && p == u + "/" + y
    ensures Split(p) == [u, y] && p[0] == '.'
  {
    SplitNoSlash(u);
    SplitSlash(u, y);
  }

  /** One `..` pops the one directory. */
  lemma {:induction false} StepUp(d: string, u: string)
    requires u == ".."
    ensures Steps(PathState([d], false), [u]) == PathState([], true)
  {
    var st := PathState([d], false);
    StepsSnoc(st, [], u);
    assert [] + [u] == [u];
    assert Steps(st, []) == st;
  }

  /** `../y` against `d/x`: the `..` climbs out of `d`. */
  lemma {:induction false} MergeUp(p: string, base: string, u: string, y: string, d: string, x: string)
    requires u == ".." && Plain(y) && Plain(d) && Plain(x) && p == u + "/" + y && base == d + "/" + x
    ensures Merge(p, base) == y
  {
    UpPieces(p, u, y);
    BaseDirectory(p, base, d, x);
    StepUp(d, u);
    assert Init([u, y]) == [u] && Last([u, y]) == y;
    assert MergeState(p, base) == Finish(PathState([], true), p, y);
  }

  /** `../y` never holds a `?` or a `#`. */
  lemma {:induction false} UpAvoids(p: string, u: string, y: string)
    requires u == ".." && Avoids(y, PathStops) && p == u + "/" + y
    ensures Avoids(p, PathStops) && p[..2] == u && p[2] == '/'
  {
    forall i | 0 <= i < |p|
      ensures p[i] !in PathStops
    {
      if i > 2 { assert p[i] == y[i - 3]; }
    }
  }

  /** `../y#f` is a schemeless reference with a fragment. */
  lemma {:induction false} ParseUp(s: string, p: string, u: string, y: string, f: string)
    requires u == ".." && Avoids(y, PathStops) && NoLineTerminator(f) && p == u + "/" + y && s == p + "#" + f
    ensures ValidMatch(UriMatch(None, None, p, None, Some(f))) && Unsplit(UriMatch(None, None, p, None, Some(f))) == s
  {
    UpAvoids(p, u, y);
    UpNoScheme(s, p, u, f);
    assert p[0] == '.';
    ResolveExamples.RefMatch(p, None, Some(f));
  }

  /** Text starting with `../` has no scheme. */
  lemma {:induction false} UpNoScheme(s: string, p: string, u: string, f: string)
    requires u == ".." && |p| > 2 && p[..2] == u && p[2] == '/' && s == p + "#" + f
    ensures !HasScheme(s) && s == p + QueryText(None) + FragmentText(Some(f))
  {
    assert s[..2] == u && s[2] == '/';
    ResolveExamples.NoScheme(s, 2);
  }

  /**
   * `../y#f` against the key `d/x` is `y#f`: a document at `calc/simple.json`
   * reaches `constants.json` (test/base.test.mjs:61-63).
   */
  lemma {:induction false} UpRef(s: string, base: string, d: string, x: string, y: string, f: string)
    requires Name(d) && Name(x) && Name(y) && f != [] && NoLineTerminator(f)
    requires s == ".." + "/" + y + "#" + f && base == d + "/" + x
    ensures Resolve(s, base) == Ok(y + "#" + f)
  {
    var u := "..";
    var p := u + "/" + y;
    NamePlain(d);
    NamePlain(x);
    NamePlain(y);
    ParseUp(s, p, u, y, f);
    ParseTwo(base, d, x);
    MergeUp(p, base, u, y, d, x);
    Climbed(s, base, p, y, f);
  }

  /** A schemeless reference whose path merges to `y` against a schemeless base. */
  lemma {:induction false} Climbed(s: string, base: string, p: string, y: string, f: string)
    requires p != [] && f != []
    requires ValidMatch(UriMatch(None, None, p, None, Some(f))) && Unsplit(UriMatch(None, None, p, None, Some(f))) == s
    requires ValidMatch(UriMatch(None, None, base, None, None)) && Unsplit(UriMatch(None, None, base, None, None)) == base
    requires Merge(p, base) == y
    ensures Resolve(s, base) == Ok(y + "#" + f)
  {
    var ref := UriMatch(None, None, p, None, Some(f));
    var b := UriMatch(None, None, base, None, None);
    MatchExact(b);
    var t := UriMatch(None, None, y, None, Some(f));
    ClimbedTarget(p, base, y, f);
    Against(s, base, ref, b, t, y + "#" + f);
  }

  lemma ClimbedTarget(p: string, base: string, y: string, f: string)
    requires p != [] && f != [] && Merge(p, base) == y
    ensures Target(UriMatch(None, None, p, None, Some(f)), UriMatch(None, None, base, None, None)) == UriMatch(None, None, y, None, Some(f))
    ensures Recompose(UriMatch(None, None, y, None, Some(f))) == y + "#" + f
  {
  }

  /** A fragment-only reference against the empty base is itself (Resolver.mjs:125). */
  lemma {:induction false} LocalRef(f: string)
    requires f != [] && NoLineTerminator(f)
    ensures Resolve("#" + f, []) == Ok("#" + f)
  {
    var ref := UriMatch(None, None, [], None, Some(f));
    var b := UriMatch(None, None, [], None, None);
    ResolveExamples.NoScheme("#" + f, 0);
    assert [] + QueryText(None) + FragmentText(Some(f)) == "#" + f;
    ResolveExamples.RefMatch([], None, Some(f));
    assert Unsplit(b) == [];
    MatchExact(b);
    assert Split([]) == [[]];
    var st := PathState([], false);
    assert Steps(st, []) == st;
    assert MergeState([], []) == st;
    var t := UriMatch(None, None, [], None, Some(f));
    assert Target(ref, b) == t;
    Against("#" + f, [], ref, b, t, "#" + f);
  }

  // ---------------------------------------------------------------------
  // the keys of the examples
  // ---------------------------------------------------------------------

  lemma NameCalc()
    ensures Name("calc") && Name("simple.json")
  {
  }

  lemma NameConstants()
    ensures Name("constants.json")
  {
  }

  lemma NameOperations()
    ensures Name("operations.json")
  {
  }

  /** `constants.json` is stored as `constants.json`. */
  lemma ConstantsKey()
    ensures Resolve("constants.json", NoBase) == Ok("constants.json")
  {
    NameConstants();
    NameKey("constants.json");
  }

  /** `operations.json` is stored as `operations.json`. */
  lemma OperationsKey()
    ensures Resolve("operations.json", NoBase) == Ok("operations.json")
  {
    NameOperations();
    NameKey("operations.json");
  }

  /** `calc/simple.json` is its own base. */
  lemma SimpleKey()
    ensures Resolve("calc/simple.json", NoBase) == Ok("calc/simple.json")
  {
    NameCalc();
    assert "calc/simple.json" == "calc" + "/" + "simple.json";
    PathKey("calc/simple.json", "calc", "simple.json");
  }

  lemma CrossTexts()
    ensures "../constants.json#/foo" == ".." + "/" + "constants.json" + "#" + "/foo"
    ensures "calc/simple.json" == "calc" + "/" + "simple.json"
    ensures "constants.json#/foo" == "constants.json" + "#" + "/foo"
  {
  }

  /** `../constants.json#/foo` in `calc/simple.json` is `constants.json#/foo`. */
  lemma CrossRef()
    ensures Resolve("../constants.json#/foo", "calc/simple.json") == Ok("constants.json#/foo")
  {
    NameCalc();
    NameConstants();
    CrossTexts();
    UpRef("../constants.json#/foo", "calc/simple.json", "calc", "simple.json", "constants.json", "/foo");
  }

  // ---------------------------------------------------------------------
  // JSON Pointers over plain keys
  // ---------------------------------------------------------------------

  /** A key its pointer token spells as it is, and not an array index. */
  predicate Key(s: string) {
    && s != [] && !Pointers.IsDigit(s[0])
    && forall i :: 0 <= i < |s| ==> s[i] != '~' && s[i] != '/' && s[i] != '%' && s[i] != '+'
  }

  /** A key without `~`, `/`, `%` or `+` escapes to itself. */
  lemma {:induction false} EscapeKey(s: string)
    requires forall i :: 0 <= i < |s| ==> s[i] != '~' && s[i] != '/' && s[i] != '%' && s[i] != '+'
    ensures Pointers.Escape(s) == s
    decreases |s|
  {
    if s != [] {
      assert forall i :: 0 <= i < |s| - 1 ==> s[1..][i] == s[i + 1];
      EscapeKey(s[1..]);
      assert s == [s[0]] + s[1..];
    }
  }

  /** `/k` walks to the member `k`. */
  lemma {:induction false} MemberPointer(members: seq<Member>, k: string, x: Value)
    requires Key(k) && Lookup(members, k) == Some(x)
    ensures Pointers.Pointer(Obj(members), "/" + k) == Ok(x)
  {
    EscapeKey(k);
    assert !Pointers.AllDigits(k) by { assert !Pointers.IsDigit(k[0]); }
    Pointers.PointerMember(members, k, x);
  }

  /** `/k1/k2` walks to the member `k2` of the member `k1`. */
  lemma {:induction false} NestedPointer(members: seq<Member>, k1: string, inner: seq<Member>, k2: string, x: Value)
    requires Key(k1) && Key(k2) && Lookup(members, k1) == Some(Obj(inner)) && Lookup(inner, k2) == Some(x)
    ensures Pointers.Pointer(Obj(members), "/" + k1 + "/" + k2) == Ok(x)
  {
    MemberPointer(members, k1, Obj(inner));
    MemberPointer(inner, k2, x);
    assert "/" + k1 + "/" + k2 == ("/" + k1) + ("/" + k2);
    Pointers.PointerAppend(Obj(members), "/" + k1, "/" + k2);
  }

  // ---------------------------------------------------------------------
  // the walk, one node at a time
  // ---------------------------------------------------------------------

  /** `{ $ref: target }`. */
  function RefNode(target: string): (v: Value)
    ensures target != [] ==> RefOf(v) == Some(target)
  {
    Obj([Member("$ref", Str(target))])
  }

  /** A scalar below the root is left as it is. */
  lemma ScalarUnchanged(store: Store, root: Value, v: Value, base: string)
    requires !v.Arr? && !v.Obj?
    ensures Refs(store, root, v, base, false) == Unchanged
  {
  }

  /** A `$ref` to a JSON Pointer fragment of the root document is replaced by what it points at. */
  lemma {:induction false} LocalRefNode(store: Store, root: Value, f: string, x: Value)
    requires f != [] && f[0] == '/' && NoLineTerminator(f) && Pointers.Pointer(root, f) == Ok(x)
    ensures Refs(store, root, RefNode("#" + f), [], false) == Replaced(x)
  {
    LocalRef(f);
    ResolverProperties.FetchLocal(store, f, root);
    ResolverProperties.RefTarget(store, root, RefNode("#" + f), [], false, "#" + f, Ok(x));
  }

  /** A `$ref` to a JSON Pointer fragment of a stored document is replaced by what it points at. */
  lemma {:induction false} StoredRefNode(store: Store, root: Value, s: string, base: string, uri: string, f: string, x: Value)
    requires s != [] && uri != [] && '#' !in uri && f != [] && f[0] == '/'
    requires Resolve(s, base) == Ok(uri + "#" + f)
    requires Resolve(uri, NoBase).Ok? && Resolve(uri, NoBase).value in store
    requires Pointers.Pointer(store[Resolve(uri, NoBase).value], f) == Ok(x)
    ensures Refs(store, root, RefNode(s), base, false) == Replaced(x)
  {
    ResolverProperties.FetchStored(store, uri, f, Some(root));
    ResolverProperties.RefTarget(store, root, RefNode(s), base, false, uri + "#" + f, Ok(x));
  }

  /** Each slot of `out` holds its member with the walk result settled in, and no slot failed. */
  predicate SettlesTo(members: seq<Member>, results: seq<Change>, out: seq<Member>) {
    && |results| == |members| == |out|
    && forall i :: 0 <= i < |members| ==>
         !results[i].Failed? && out[i] == Member(members[i].key, Settle(members[i].val, results[i]).0)
  }

  /**
   * An object without `$ref` or a nested identity: its members are walked,
   * and it is copied exactly when one of them was replaced.
   */
  lemma {:induction false} ObjectWalk(store: Store, root: Value, members: seq<Member>, base: string, top: bool, results: seq<Change>, out: seq<Member>)
    requires RefOf(Obj(members)).None? && SubIdentity(Obj(members), top).None?
    requires MemberResults(store, root, members, base) == results
    requires SettlesTo(members, results, out)
    ensures (exists i :: 0 <= i < |results| && results[i].Replaced?) ==> Refs(store, root, Obj(members), base, top) == Replaced(Obj(out))
    ensures (forall i :: 0 <= i < |results| ==> !results[i].Replaced?) ==> Refs(store, root, Obj(members), base, top) == Unchanged
  {
    ResolverProperties.SettleMembersOk(members, results);
    ResolverProperties.SettleMembersSlots(members, results);
    ResolverProperties.SettleMembersCopies(members, results);
    var settled := SettleMembers(members, results).value;
    assert settled.0 == out;
    assert Narrow(Obj(members), base, top) == Ok(base);
    assert RefsChildren(store, root, Obj(members), base) == if settled.1 then Replaced(Obj(out)) else Unchanged;
  }

  /** What the walk of an object needs: no `$ref`, no nested identity, each member's result, and the `k`th replaced. */
  predicate WalkedTo(store: Store, root: Value, members: seq<Member>, base: string, top: bool, results: seq<Change>, out: seq<Member>, k: nat) {
    && RefOf(Obj(members)).None? && SubIdentity(Obj(members), top).None?
    && MemberResults(store, root, members, base) == results
    && SettlesTo(members, results, out)
    && k < |results| && results[k].Replaced?
  }

  /** An object one of whose members, the `k`th, was replaced is copied with the settled members. */
  lemma ObjectReplaced(store: Store, root: Value, members: seq<Member>, base: string, top: bool, results: seq<Change>, out: seq<Member>, k: nat)
    requires WalkedTo(store, root, members, base, top, results, out, k)
    ensures Refs(store, root, Obj(members), base, top) == Replaced(Obj(out))
  {
    ObjectWalk(store, root, members, base, top, results, out);
  }

  /** Scalars below the root hold no identity to register. */
  lemma {:induction false} ScanScalars(store: Store, equal: (Value, Value) -> bool, members: seq<Member>, base: string)
    requires forall i :: 0 <= i < |members| ==> !members[i].val.Arr? && !members[i].val.Obj?
    ensures ScanMembers(store, equal, members, base) == Stored(store, Pass)
    decreases members
  {
    if members != [] {
      assert Scan(store, equal, members[0].val, base, false) == Stored(store, Pass);
      ScanScalars(store, equal, members[1..], base);
    }
  }

  // ---------------------------------------------------------------------
  // basic resolution (test/base.test.mjs:7-40)
  // ---------------------------------------------------------------------

  const Constants: Value := Obj([Member("foo", Num(123)), Member("bar", Num(42))])
  const Maths: Value :=
    Obj([Member("operation", Str("add")), Member("number1", RefNode("#/constants/foo")), Member("number2", RefNode("#/constants/bar"))])
  const Basic: Value := Obj([Member("maths", Maths), Member("constants", Constants)])

  const MathsResolved: Value := Obj([Member("operation", Str("add")), Member("number1", Num(123)), Member("number2", Num(42))])
  const BasicResolved: Value := Obj([Member("maths", MathsResolved), Member("constants", Constants)])

  lemma BasicKeys()
    ensures Key("constants") && Key("foo") && Key("bar")
  {
  }

  lemma BasicTexts()
    ensures "#/constants/foo" == "#" + ("/" + "constants" + "/" + "foo")
    ensures "#/constants/bar" == "#" + ("/" + "constants" + "/" + "bar")
  {
  }

  lemma NoLineTerminators()
    ensures NoLineTerminator("/" + "constants" + "/" + "foo") && NoLineTerminator("/" + "constants" + "/" + "bar")
  {
  }

  /** None of the objects has a `$ref` or an `$id`. */
  lemma PlainObjects()
    ensures RefOf(Maths).None? && SubIdentity(Maths, false).None?
    ensures RefOf(Constants).None? && SubIdentity(Constants, false).None?
    ensures RefOf(Basic).None? && SubIdentity(Basic, true).None?
  {
  }

  /** The document has no `$id`, so the walk starts with the empty base. */
  lemma BasicRoot()
    ensures IdOf(Basic).None? && RootUri(Basic, []) == []
  {
  }

  /** One slot of the walk results of a member list. */
  lemma SlotResult(store: Store, root: Value, members: seq<Member>, base: string, i: nat)
    requires i < |members|
    ensures MemberResults(store, root, members, base)[i] == Refs(store, root, members[i].val, base, false)
  {
  }

  /** The walk results of a member list, from the result of each slot. */
  lemma {:induction false} SlotResults(store: Store, root: Value, members: seq<Member>, base: string, results: seq<Change>)
    requires |members| == |results|
    requires forall i :: 0 <= i < |members| ==> Refs(store, root, members[i].val, base, false) == results[i]
    ensures MemberResults(store, root, members, base) == results
  {
    var r := MemberResults(store, root, members, base);
    forall i | 0 <= i < |members|
      ensures r[i] == results[i]
    {
      SlotResult(store, root, members, base, i);
    }
  }

  /** `#/constants/foo` is replaced by 123. */
  lemma BasicFoo(store: Store)
    ensures Refs(store, Basic, RefNode("#/constants/foo"), [], false) == Replaced(Num(123))
  {
    BasicKeys();
    BasicTexts();
    NoLineTerminators();
    NestedPointer(Basic.members, "constants", Constants.members, "foo", Num(123));
    LocalRefNode(store, Basic, "/" + "constants" + "/" + "foo", Num(123));
  }

  /** `#/constants/bar` is replaced by 42. */
  lemma BasicBar(store: Store)
    ensures Refs(store, Basic, RefNode("#/constants/bar"), [], false) == Replaced(Num(42))
  {
    BasicKeys();
    BasicTexts();
    NoLineTerminators();
    NestedPointer(Basic.members, "constants", Constants.members, "bar", Num(42));
    LocalRefNode(store, Basic, "/" + "constants" + "/" + "bar", Num(42));
  }

  /** The members of `maths`, one by one. */
  lemma MathsSlots(store: Store)
    ensures Refs(store, Basic, Maths.members[0].val, [], false) == Unchanged
    ensures Refs(store, Basic, Maths.members[1].val, [], false) == Replaced(Num(123))
    ensures Refs(store, Basic, Maths.members[2].val, [], false) == Replaced(Num(42))
  {
    ScalarUnchanged(store, Basic, Str("add"), []);
    BasicFoo(store);
    BasicBar(store);
  }

  /** The walk results of the members of `maths`. */
  lemma MathsResults(store: Store)
    ensures MemberResults(store, Basic, Maths.members, []) == [Unchanged, Replaced(Num(123)), Replaced(Num(42))]
  {
    var results := [Unchanged, Replaced(Num(123)), Replaced(Num(42))];
    MathsSlots(store);
    forall i | 0 <= i < 3
      ensures Refs(store, Basic, Maths.members[i].val, [], false) == results[i]
    {
      if i == 0 {
      } else if i == 1 {
      } else {
        assert i == 2;
      }
    }
    SlotResults(store, Basic, Maths.members, [], results);
  }

  /** `maths` is copied with both numbers in place. */
  lemma BasicMaths(store: Store)
    ensures Refs(store, Basic, Maths, [], false) == Replaced(MathsResolved)
  {
    var results := [Unchanged, Replaced(Num(123)), Replaced(Num(42))];
    MathsResults(store);
    PlainObjects();
    MathsSettle();
    assert results[1].Replaced?;
    ObjectWalk(store, Basic, Maths.members, [], false, results, MathsResolved.members);
  }

  lemma MathsSettle()
    ensures SettlesTo(Maths.members, [Unchanged, Replaced(Num(123)), Replaced(Num(42))], MathsResolved.members)
  {
    var members, results, out := Maths.members, [Unchanged, Replaced(Num(123)), Replaced(Num(42))], MathsResolved.members;
    forall i | 0 <= i < 3
      ensures !results[i].Failed? && out[i] == Member(members[i].key, Settle(members[i].val, results[i]).0)
    {
      if i == 0 {
      } else if i == 1 {
      } else {
        assert i == 2;
      }
    }
  }

  /** The walk results of the members of `constants`. */
  lemma ConstantsResults(store: Store)
    ensures MemberResults(store, Basic, Constants.members, []) == [Unchanged, Unchanged]
  {
    var r := MemberResults(store, Basic, Constants.members, []);
    ScalarUnchanged(store, Basic, Num(123), []);
    ScalarUnchanged(store, Basic, Num(42), []);
    assert r[0] == Unchanged && r[1] == Unchanged;
  }

  /** `constants` holds no `$ref` and is left as it is. */
  lemma BasicConstants(store: Store)
    ensures Refs(store, Basic, Constants, [], false) == Unchanged
  {
    var results := [Unchanged, Unchanged];
    ConstantsResults(store);
    PlainObjects();
    ConstantsSettle();
    ObjectWalk(store, Basic, Constants.members, [], false, results, Constants.members);
  }

  lemma ConstantsSettle()
    ensures SettlesTo(Constants.members, [Unchanged, Unchanged], Constants.members)
    ensures forall i :: 0 <= i < 2 ==> ![Unchanged, Unchanged][i].Replaced?
  {
    var members, results := Constants.members, [Unchanged, Unchanged];
    forall i | 0 <= i < 2
      ensures !results[i].Failed? && !results[i].Replaced? && members[i] == Member(members[i].key, Settle(members[i].val, results[i]).0)
    {
      if i == 0 {
      } else {
        assert i == 1;
      }
    }
  }

  /** The walk results of the members of the document. */
  lemma BasicResults()
    ensures MemberResults(map[], Basic, Basic.members, []) == [Replaced(MathsResolved), Unchanged]
  {
    var r := MemberResults(map[], Basic, Basic.members, []);
    BasicMaths(map[]);
    BasicConstants(map[]);
    assert r[0] == Replaced(MathsResolved) && r[1] == Unchanged;
  }

  /** `resolve(object)` of index.mjs gives the expected tree: the two `$ref` nodes replaced, the rest kept. */
  lemma BasicResolution()
    ensures Resolution(map[], Basic, []) == Ok(BasicResolved)
  {
    var results := [Replaced(MathsResolved), Unchanged];
    BasicResults();
    PlainObjects();
    BasicRoot();
    BasicSettle();
    assert results[0].Replaced?;
    ObjectWalk(map[], Basic, Basic.members, [], true, results, BasicResolved.members);
  }

  lemma BasicSettle()
    ensures SettlesTo(Basic.members, [Replaced(MathsResolved), Unchanged], BasicResolved.members)
  {
    var members, results, out := Basic.members, [Replaced(MathsResolved), Unchanged], BasicResolved.members;
    forall i | 0 <= i < 2
      ensures !results[i].Failed? && out[i] == Member(members[i].key, Settle(members[i].val, results[i]).0)
    {
      if i == 0 {
      } else {
        assert i == 1;
      }
    }
  }

  /** The example run through the method of index.mjs. */
  method BasicExample(equal: (Value, Value) -> bool) returns (r: Result<Value>)
    ensures r == Ok(BasicResolved)
  {
    BasicResolution();
    r := ResolveDocument(Basic, [], equal);
  }

  // ---------------------------------------------------------------------
  // cross-document resolution (test/base.test.mjs:42-77)
  // ---------------------------------------------------------------------

  /** No member holds an object or an array. */
  predicate Leaves(members: seq<Member>) {
    forall i :: 0 <= i < |members| ==> !members[i].val.Arr? && !members[i].val.Obj?
  }

  /** Adding a flat document under a new key registers it and nothing else. */
  lemma {:induction false} AddLeaves(store: Store, equal: (Value, Value) -> bool, document: Value, uri: string, key: string)
    requires AddKey(document, uri) == Ok(key) && key !in store
    requires document.Obj? && Leaves(document.members)
    ensures Added(store, equal, document, uri) == Stored(store[key := document], Pass)
  {
    var added := store[key := document];
    assert Register(store, equal, key, document) == Stored(added, Pass);
    assert Narrow(document, key, true) == Ok(key);
    ScanScalars(added, equal, document.members, key);
    assert Scan(added, equal, document, key, true) == Stored(added, Pass);
  }

  const ConstantsDoc: Value := Obj([Member("$id", Str("constants.json")), Member("foo", Num(123)), Member("bar", Num(42))])
  const OperationsDoc: Value := Obj([Member("add", Str("+")), Member("sub", Str("-"))])
  const Simple: Value :=
    Obj([Member("$id", Str("calc/simple.json")), Member("operation", RefNode("../operations.json#/add")),
         Member("number1", RefNode("../constants.json#/foo")), Member("number2", RefNode("../constants.json#/bar"))])
  const SimpleResolved: Value :=
    Obj([Member("$id", Str("calc/simple.json")), Member("operation", Str("+")), Member("number1", Num(123)), Member("number2", Num(42))])

  /** The store after both documents are added. */
  const Library: Store := map["constants.json" := ConstantsDoc, "operations.json" := OperationsDoc]

  lemma FlatDocuments()
    ensures Leaves(ConstantsDoc.members) && Leaves(OperationsDoc.members)
  {
    forall i | 0 <= i < 3
      ensures !ConstantsDoc.members[i].val.Arr? && !ConstantsDoc.members[i].val.Obj?
    {
      if i == 0 {
      } else if i == 1 {
      } else {
        assert i == 2;
      }
    }
    forall i | 0 <= i < 2
      ensures !OperationsDoc.members[i].val.Arr? && !OperationsDoc.members[i].val.Obj?
    {
      if i == 0 {
      } else {
        assert i == 1;
      }
    }
  }

  lemma NoHashes()
    ensures '#' !in "constants.json" && '#' !in "operations.json" && '#' !in "calc/simple.json"
  {
  }

  /** A root uri without `#` is keyed by its resolution without a base. */
  lemma RootKeyOf(uri: string, key: string)
    requires uri != [] && '#' !in uri && Resolve(uri, NoBase) == Ok(key)
    ensures RootKey(uri) == Ok(key)
  {
  }

  /** `add(doc1)` takes its key from `$id`. */
  lemma ConstantsAddKey()
    ensures AddKey(ConstantsDoc, []) == Ok("constants.json")
  {
    assert IdOf(ConstantsDoc) == Some("constants.json");
    assert RootUri(ConstantsDoc, []) == "constants.json";
    NoHashes();
    ConstantsKey();
    RootKeyOf("constants.json", "constants.json");
  }

  /** `add(doc2, 'operations.json')` takes the key it is given. */
  lemma OperationsAddKey()
    ensures AddKey(OperationsDoc, "operations.json") == Ok("operations.json")
  {
    assert RootUri(OperationsDoc, "operations.json") == "operations.json";
    NoHashes();
    OperationsKey();
    RootKeyOf("operations.json", "operations.json");
  }

  /** Both documents are registered, each under its own key. */
  lemma Registered(equal: (Value, Value) -> bool)
    ensures Added(map[], equal, ConstantsDoc, []) == Stored(map["constants.json" := ConstantsDoc], Pass)
    ensures Added(map["constants.json" := ConstantsDoc], equal, OperationsDoc, "operations.json") == Stored(Library, Pass)
  {
    LibraryStores();
    AddConstants(map[], equal);
    AddOperations(map["constants.json" := ConstantsDoc], equal);
  }

  lemma LibraryStores()
    ensures "operations.json" !in map["constants.json" := ConstantsDoc]
    ensures map["constants.json" := ConstantsDoc]["operations.json" := OperationsDoc] == Library
  {
  }

  /** `add(doc1)` into any store without `constants.json`. */
  lemma AddConstants(store: Store, equal: (Value, Value) -> bool)
    requires "constants.json" !in store
    ensures Added(store, equal, ConstantsDoc, []) == Stored(store["constants.json" := ConstantsDoc], Pass)
  {
    FlatDocuments();
    ConstantsAddKey();
    AddLeaves(store, equal, ConstantsDoc, [], "constants.json");
  }

  /** `add(doc2, 'operations.json')` into any store without `operations.json`. */
  lemma AddOperations(store: Store, equal: (Value, Value) -> bool)
    requires "operations.json" !in store
    ensures Added(store, equal, OperationsDoc, "operations.json") == Stored(store["operations.json" := OperationsDoc], Pass)
  {
    FlatDocuments();
    OperationsAddKey();
    AddLeaves(store, equal, OperationsDoc, "operations.json", "operations.json");
  }

  /** `../y#f` in `calc/simple.json` is replaced by what `f` points at in the document stored as `y`. */
  lemma {:induction false} SiblingRefNode(store: Store, root: Value, y: string, f: string, x: Value)
    requires Name(y) && f != [] && f[0] == '/' && NoLineTerminator(f)
    requires y in store && Pointers.Pointer(store[y], f) == Ok(x)
    ensures Refs(store, root, RefNode(".." + "/" + y + "#" + f), "calc/simple.json", false) == Replaced(x)
  {
    var s := ".." + "/" + y + "#" + f;
    NameCalc();
    CrossTexts();
    UpRef(s, "calc/simple.json", "calc", "simple.json", y, f);
    NameKey(y);
    assert '#' !in y;
    StoredRefNode(store, root, s, "calc/simple.json", y, f, x);
  }

  lemma SimpleTexts()
    ensures "../operations.json#/add" == ".." + "/" + "operations.json" + "#" + ("/" + "add")
    ensures "../constants.json#/foo" == ".." + "/" + "constants.json" + "#" + ("/" + "foo")
    ensures "../constants.json#/bar" == ".." + "/" + "constants.json" + "#" + ("/" + "bar")
  {
  }

  lemma SimpleKeys()
    ensures Key("add") && Key("foo") && Key("bar")
    ensures NoLineTerminator("/" + "add") && NoLineTerminator("/" + "foo") && NoLineTerminator("/" + "bar")
  {
  }

  /** The store holds both documents under their keys. */
  predicate Stocked(store: Store) {
    && "constants.json" in store && store["constants.json"] == ConstantsDoc
    && "operations.json" in store && store["operations.json"] == OperationsDoc
  }

  /** `../operations.json#/add` is replaced by `+`. */
  lemma SimpleOperation(store: Store, root: Value)
    requires Stocked(store)
    ensures Refs(store, root, RefNode("../operations.json#/add"), "calc/simple.json", false) == Replaced(Str("+"))
  {
    NameOperations();
    SimpleTexts();
    SimpleKeys();
    MemberPointer(OperationsDoc.members, "add", Str("+"));
    SiblingRefNode(store, root, "operations.json", "/" + "add", Str("+"));
  }

  /** `../constants.json#/foo` is replaced by 123. */
  lemma SimpleFoo(store: Store, root: Value)
    requires Stocked(store)
    ensures Refs(store, root, RefNode("../constants.json#/foo"), "calc/simple.json", false) == Replaced(Num(123))
  {
    NameConstants();
    SimpleTexts();
    SimpleKeys();
    MemberPointer(ConstantsDoc.members, "foo", Num(123));
    SiblingRefNode(store, root, "constants.json", "/" + "foo", Num(123));
  }

  /** `../constants.json#/bar` is replaced by 42. */
  lemma SimpleBar(store: Store, root: Value)
    requires Stocked(store)
    ensures Refs(store, root, RefNode("../constants.json#/bar"), "calc/simple.json", false) == Replaced(Num(42))
  {
    NameConstants();
    SimpleTexts();
    SimpleKeys();
    MemberPointer(ConstantsDoc.members, "bar", Num(42));
    SiblingRefNode(store, root, "constants.json", "/" + "bar", Num(42));
  }

  lemma SimpleValues()
    ensures |Simple.members| == 4 && Simple.members[0].val == Str("calc/simple.json")
    ensures Simple.members[1].val == RefNode("../operations.json#/add")
    ensures Simple.members[2].val == RefNode("../constants.json#/foo")
    ensures Simple.members[3].val == RefNode("../constants.json#/bar")
  {
  }

  /** Each member of the document, walked against its base. */
  lemma SimpleSlots(store: Store, root: Value)
    requires Stocked(store)
    ensures forall i :: 0 <= i < 4 ==>
              Refs(store, root, Simple.members[i].val, "calc/simple.json", false) ==
              [Unchanged, Replaced(Str("+")), Replaced(Num(123)), Replaced(Num(42))][i]
  {
    var results := [Unchanged, Replaced(Str("+")), Replaced(Num(123)), Replaced(Num(42))];
    SimpleValues();
    forall i | 0 <= i < 4
      ensures Refs(store, root, Simple.members[i].val, "calc/simple.json", false) == results[i]
    {
      if i == 0 {
        ScalarUnchanged(store, root, Str("calc/simple.json"), "calc/simple.json");
      } else if i == 1 {
        SimpleOperation(store, root);
      } else if i == 2 {
        SimpleFoo(store, root);
      } else {
        assert i == 3;
        SimpleBar(store, root);
      }
    }
  }

  /** The walk results of the members of the document. */
  lemma SimpleResults(store: Store, root: Value)
    requires Stocked(store)
    ensures MemberResults(store, root, Simple.members, "calc/simple.json") ==
              [Unchanged, Replaced(Str("+")), Replaced(Num(123)), Replaced(Num(42))]
  {
    SimpleSlots(store, root);
    SimpleValues();
    SlotResults(store, root, Simple.members, "calc/simple.json", [Unchanged, Replaced(Str("+")), Replaced(Num(123)), Replaced(Num(42))]);
  }

  lemma SimpleSettle()
    ensures SettlesTo(Simple.members, [Unchanged, Replaced(Str("+")), Replaced(Num(123)), Replaced(Num(42))], SimpleResolved.members)
  {
    var members, results, out := Simple.members, [Unchanged, Replaced(Str("+")), Replaced(Num(123)), Replaced(Num(42))], SimpleResolved.members;
    forall i | 0 <= i < 4
      ensures !results[i].Failed? && out[i] == Member(members[i].key, Settle(members[i].val, results[i]).0)
    {
      if i == 0 {
      } else if i == 1 {
      } else if i == 2 {
      } else {
        assert i == 3;
      }
    }
  }

  lemma SimpleNoRef()
    ensures Lookup(Simple.members, "$ref").None?
  {
    forall i | 0 <= i < 4
      ensures Simple.members[i].key != "$ref"
    {
      if i == 0 {
      } else if i == 1 {
      } else if i == 2 {
      } else {
        assert i == 3;
      }
    }
  }

  /** The document's `$id` is its base, and the root itself is not a sub-document. */
  lemma SimpleShape()
    ensures RefOf(Simple).None? && SubIdentity(Simple, true).None?
  {
    SimpleNoRef();
  }

  lemma SimpleRoot()
    ensures RootUri(Simple, []) == "calc/simple.json" && RootKey("calc/simple.json") == Ok("calc/simple.json")
  {
    assert IdOf(Simple) == Some("calc/simple.json");
    NoHashes();
    SimpleKey();
    RootKeyOf("calc/simple.json", "calc/simple.json");
  }

  /**
   * `resolver.resolve(object)` with both documents stored gives the expected
   * tree: each `$ref` resolved against `calc/simple.json` and fetched from the
   * store.
   */
  lemma CrossResolution()
    ensures Resolution(Library, Simple, []) == Ok(SimpleResolved)
  {
    assert Stocked(Library);
    StockedResolution(Library);
  }

  /** The same over any store that holds both documents. */
  lemma StockedResolution(store: Store)
    requires Stocked(store)
    ensures Resolution(store, Simple, []) == Ok(SimpleResolved)
  {
    SimpleRoot();
    SimpleWalk(store, Simple);
  }

  /** The walk of the whole document over any store that holds both documents. */
  lemma SimpleWalk(store: Store, root: Value)
    requires Stocked(store)
    ensures Refs(store, root, Simple, "calc/simple.json", true) == Replaced(SimpleResolved)
  {
    SimpleWalked(store, root);
    ObjectReplaced(store, root, Simple.members, "calc/simple.json", true,
                   [Unchanged, Replaced(Str("+")), Replaced(Num(123)), Replaced(Num(42))], SimpleResolved.members, 1);
  }

  lemma SimpleWalked(store: Store, root: Value)
    requires Stocked(store)
    ensures WalkedTo(store, root, Simple.members, "calc/simple.json", true,
                     [Unchanged, Replaced(Str("+")), Replaced(Num(123)), Replaced(Num(42))], SimpleResolved.members, 1)
  {
    SimpleShape();
    SimpleResults(store, root);
    SimpleSettle();
  }

  /** The example run through the class: two `add` calls, then `resolve`. */
  method CrossExample(equal: (Value, Value) -> bool) returns (first: Outcome, second: Outcome, r: Result<Value>)
    ensures first == Pass && second == Pass && r == Ok(SimpleResolved)
  {
    Registered(equal);
    CrossResolution();
    var resolver := new Resolver(equal);
    first := resolver.Add(ConstantsDoc, []);
    second := resolver.Add(OperationsDoc, "operations.json");
    r := resolver.Resolve(Simple, []);
  }
}
