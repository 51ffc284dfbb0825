/**
 * The document store and the `$ref` walk (Resolver.mjs, index.mjs): a
 * Resolver keeps a map from normalised URI to document, registers a root and
 * its nested `$id` sub-documents, and replaces every `$ref` node of a tree by
 * the node it points at, copying only the containers on the way.
 */
module Resolver {
  import opened Json
  import Uri
  import Pointers

  /** What `resolveURI(uri)` receives as its base when none is given: the text of `undefined`. */
  const NoBase: string := "undefined"

  // ---------------------------------------------------------------------
  // removeFragment
  // ---------------------------------------------------------------------

  /** `s.lastIndexOf('#')`: the last `#`, or -1. */
  function LastHash(s: string): (k: int)
    ensures -1 <= k < |s|
    ensures k >= 0 ==> s[k] == '#' && forall j :: k < j < |s| ==> s[j] != '#'
    ensures k == -1 ==> '#' !in s
    decreases |s|
  {
    if s == [] then -1
    else if s[|s| - 1] == '#' then |s| - 1
    else
      var k := LastHash(s[..|s| - 1]);
      assert forall j :: 0 <= j < |s| - 1 ==> s[j] == s[..|s| - 1][j];
      k
  }

  /**
   * `removeFragment` (Resolver.mjs:5-13): the text unchanged without a `#`,
   * without its last character when that is the last `#`, and nothing for a
   * `#` followed by text.
   */
  function RemoveFragment(uri: string): (r: Option<string>)
    ensures '#' !in uri ==> r == Some(uri)
    ensures uri != [] && uri[|uri| - 1] == '#' ==> r == Some(uri[..|uri| - 1])
    ensures '#' in uri && uri[|uri| - 1] != '#' ==> r == None
    ensures r.Some? ==> |r.value| <= |uri|
  {
    var index := LastHash(uri);
    if index == -1 then Some(uri)
    else if index == |uri| - 1 then Some(uri[..|uri| - 1])
    else None
  }

  // ---------------------------------------------------------------------
  // the store and registration
  // ---------------------------------------------------------------------

  type Store = map<string, Value>

  /** A store after an operation that may throw part-way, and whether it threw. */
  datatype Stored = Stored(store: Store, outcome: Outcome)

  /**
   * `#add` (Resolver.mjs:136-144): a uri already holding a document that is
   * not deep-equal to the new one throws and keeps the old one; otherwise the
   * uri maps to the new document.
   */
  function Register(store: Store, equal: (Value, Value) -> bool, uri: string, document: Value): (r: Stored)
    ensures r.outcome.Pass? <==> uri !in store || equal(store[uri], document)
    ensures r.outcome.Pass? ==> r.store == store[uri := document]
    ensures r.outcome.Fail? ==> r.store == store && r.outcome.error == DocumentConflict
  {
    if uri in store && !equal(store[uri], document) then Stored(store, Fail(DocumentConflict))
    else Stored(store[uri := document], Pass)
  }

  /**
   * The identity a nested node declares (Resolver.mjs:151-154, 190-193): a
   * non-empty string `$id` of a node below the root whose removeFragment is
   * non-empty.
   */
  function SubIdentity(document: Value, top: bool): (r: Option<string>)
    ensures r.Some? ==> !top && r.value != [] && document.Obj? &&
                        exists id :: IdOf(document) == Some(id) && id != [] && RemoveFragment(id) == r
    ensures !top && IdOf(document).Some? && IdOf(document).value != [] &&
            RemoveFragment(IdOf(document).value).Some? && RemoveFragment(IdOf(document).value).value != [] ==>
              r == RemoveFragment(IdOf(document).value)
  {
    if top then None
    else
      match IdOf(document)
      case Some(id) =>
        if id != [] && RemoveFragment(id).Some? && RemoveFragment(id).value != [] then RemoveFragment(id) else None
      case None => None
  }

  /** The base a node's descendants are resolved against: its identity resolved against the enclosing base, if it has one. */
  function Narrow(document: Value, base: string, top: bool): Result<string> {
    match SubIdentity(document, top)
    case Some(uri) => Uri.Resolve(uri, base)
    case None => Ok(base)
  }

  /**
   * `#scanSubDocuments` (Resolver.mjs:147-177): every nested object with an
   * identity is registered under that identity resolved against the base of
   * its nearest registered ancestor, in pre-order; the first failure stops the
   * scan and keeps what was registered before it.
   */
  function Scan(store: Store, equal: (Value, Value) -> bool, document: Value, base: string, top: bool): Stored
    decreases document, 1
  {
    match Narrow(document, base, top)
    case Err(e) => Stored(store, Fail(e))
    case Ok(narrowed) =>
      if SubIdentity(document, top).None? then ScanChildren(store, equal, document, narrowed)
      else
        var added := Register(store, equal, narrowed, document);
        if added.outcome.Fail? then added else ScanChildren(added.store, equal, document, narrowed)
  }

  /** The children of a container scanned in order with the same base; nothing for a scalar. */
  function ScanChildren(store: Store, equal: (Value, Value) -> bool, document: Value, base: string): Stored
    decreases document, 0
  {
    match document
    case Arr(items) => ScanItems(store, equal, items, base)
    case Obj(members) => ScanMembers(store, equal, members, base)
    case _ => Stored(store, Pass)
  }

  function ScanItems(store: Store, equal: (Value, Value) -> bool, items: seq<Value>, base: string): Stored
    decreases items
  {
    if items == [] then Stored(store, Pass)
    else
      var first := Scan(store, equal, items[0], base, false);
      if first.outcome.Fail? then first else ScanItems(first.store, equal, items[1..], base)
  }

  function ScanMembers(store: Store, equal: (Value, Value) -> bool, members: seq<Member>, base: string): Stored
    decreases members
  {
    if members == [] then Stored(store, Pass)
    else
      var first := Scan(store, equal, members[0].val, base, false);
      if first.outcome.Fail? then first else ScanMembers(first.store, equal, members[1..], base)
  }

  /** `!uri && document && typeof document.$id === 'string'`: a missing uri is taken from the document's `$id`. */
  function RootUri(document: Value, uri: string): string {
    if uri == [] && IdOf(document).Some? then IdOf(document).value else uri
  }

  /** The normalised key of a root uri (Resolver.mjs:31-40, 112-121). */
  function RootKey(uri: string): Result<string>
    requires uri != []
  {
    match RemoveFragment(uri)
    case Some(stripped) => if stripped == [] then Err(UnexpectedFragment) else Uri.Resolve(stripped, NoBase)
    case None => Err(UnexpectedFragment)
  }

  /** The key `add` registers a document under (Resolver.mjs:21-40): a missing identity is an error. */
  function AddKey(document: Value, uri: string): Result<string> {
    var root := RootUri(document, uri);
    if root == [] then Err(MissingIdentity) else RootKey(root)
  }

  /** `add` (Resolver.mjs:19-47): the root is registered, then its sub-documents are scanned. */
  function Added(store: Store, equal: (Value, Value) -> bool, document: Value, uri: string): Stored {
    match AddKey(document, uri)
    case Err(e) => Stored(store, Fail(e))
    case Ok(key) =>
      var added := Register(store, equal, key, document);
      if added.outcome.Fail? then added else Scan(added.store, equal, document, key, true)
  }

  /**
   * `delete` (Resolver.mjs:49-58): a uri with a non-empty fragment (or an
   * empty one) answers false; otherwise the normalised key is removed and the
   * answer is whether it was there.
   */
  function Deleted(store: Store, uri: string): (Store, Result<bool>) {
    match RemoveFragment(uri)
    case None => (store, Ok(false))
    case Some(stripped) =>
      if stripped == [] then (store, Ok(false))
      else
        match Uri.Resolve(stripped, NoBase)
        case Err(e) => (store, Err(e))
        case Ok(key) => (store - {key}, Ok(key in store))
  }

  // ---------------------------------------------------------------------
  // get
  // ---------------------------------------------------------------------

  /**
   * `get` (Resolver.mjs:60-101): the document is the root for an empty base
   * part and the stored one otherwise; a fragment starting with `/` is a JSON
   * Pointer, any other non-empty fragment an `$id` anchor.
   */
  function Fetch(store: Store, uri: string, root: Option<Value>): Result<Value> {
    var (baseUri, fragment) := Uri.SplitFragment(uri);
    var document :=
      if baseUri == [] then
        if root.None? then Err(MissingRoot) else Ok(root.value)
      else
        match Uri.Resolve(baseUri, NoBase)
        case Err(e) => Err(e)
        case Ok(key) => if key in store then Ok(store[key]) else Err(DocumentNotFound);
    match document
    case Err(e) => Err(e)
    case Ok(d) =>
      if fragment == [] then Ok(d)
      else if fragment[0] == '/' then Pointers.Pointer(d, fragment)
      else
        match Pointers.FindId(d, "#" + fragment)
        case Some(found) => Ok(found)
        case None => Err(ReferenceNotFound)
  }

  // ---------------------------------------------------------------------
  // the $ref walk
  // ---------------------------------------------------------------------

  /** What `#resolveRefs` returns: a thrown error, `undefined` (nothing to copy), or a new node. */
  datatype Change = Failed(error: Error) | Unchanged | Replaced(value: Value)

  /** The node a child slot holds after the walk, and whether it changed. */
  function Settle(item: Value, change: Change): (Value, bool)
    requires !change.Failed?
  {
    if change.Replaced? then (change.value, true) else (item, false)
  }

  /**
   * `#resolveRefs` (Resolver.mjs:180-239): a `$ref` node is replaced whole by
   * its target, resolved against the enclosing base; otherwise a nested
   * identity narrows the base and the children are walked, and the container
   * is copied only when one of them changed.
   */
  function Refs(store: Store, root: Value, document: Value, base: string, top: bool): Change
    decreases document, 2
  {
    match RefOf(document)
    case Some(ref) =>
      (match Uri.Resolve(ref, base)
       case Err(e) => Failed(e)
       case Ok(target) =>
         match Fetch(store, target, Some(root))
         case Err(e) => Failed(e)
         case Ok(found) => Replaced(found))
    case None =>
      match Narrow(document, base, top)
      case Err(e) => Failed(e)
      case Ok(narrowed) => RefsChildren(store, root, document, narrowed)
  }

  /** The children walked with the same base; the container is copied when one of them changed. */
  function RefsChildren(store: Store, root: Value, document: Value, base: string): Change
    decreases document, 1
  {
    match document
    case Arr(items) =>
      (match SettleAll(items, ItemResults(store, root, items, base))
       case Err(e) => Failed(e)
       case Ok((clone, needsClone)) => if needsClone then Replaced(Arr(clone)) else Unchanged)
    case Obj(members) =>
      (match SettleMembers(members, MemberResults(store, root, members, base))
       case Err(e) => Failed(e)
       case Ok((clone, needsClone)) => if needsClone then Replaced(Obj(clone)) else Unchanged)
    case _ => Unchanged
  }

  /** The walk result of each item of a list (Resolver.mjs:204, 220): the store does not change during the walk. */
  function ItemResults(store: Store, root: Value, items: seq<Value>, base: string): (r: seq<Change>)
    ensures |r| == |items|
    decreases items, 0
  {
    seq(|items|, i requires 0 <= i < |items| => Refs(store, root, items[i], base, false))
  }

  function MemberResults(store: Store, root: Value, members: seq<Member>, base: string): (r: seq<Change>)
    ensures |r| == |members|
    decreases members, 0
  {
    seq(|members|, i requires 0 <= i < |members| => Refs(store, root, members[i].val, base, false))
  }

  /**
   * The array loop (Resolver.mjs:202-217) over the items' walk results, in
   * index order: the first failure is thrown, otherwise each slot holds the
   * item or its replacement.
   */
  function SettleAll(items: seq<Value>, results: seq<Change>): Result<(seq<Value>, bool)>
    requires |results| == |items|
    decreases |items|
  {
    if items == [] then Ok(([], false))
    else
      var n := |items| - 1;
      match SettleAll(items[..n], results[..n])
      case Err(e) => Err(e)
      case Ok((clone, needsClone)) =>
        if results[n].Failed? then Err(results[n].error)
        else Ok((clone + [Settle(items[n], results[n]).0], needsClone || results[n].Replaced?))
  }

  /** The key loop (Resolver.mjs:218-232), keeping each key in its place. */
  function SettleMembers(members: seq<Member>, results: seq<Change>): Result<(seq<Member>, bool)>
    requires |results| == |members|
    decreases |members|
  {
    if members == [] then Ok(([], false))
    else
      var n := |members| - 1;
      match SettleMembers(members[..n], results[..n])
      case Err(e) => Err(e)
      case Ok((clone, needsClone)) =>
        if results[n].Failed? then Err(results[n].error)
        else Ok((clone + [Member(members[n].key, Settle(members[n].val, results[n]).0)], needsClone || results[n].Replaced?))
  }

  /**
   * `resolve` (Resolver.mjs:103-133): the walk starts at the document with the
   * normalised document uri as base, or the empty base when there is none; an
   * unchanged walk returns the document itself.
   */
  function Resolution(store: Store, document: Value, uri: string): Result<Value> {
    var id := RootUri(document, uri);
    var base := if id == [] then Ok([]) else RootKey(id);
    match base
    case Err(e) => Err(e)
    case Ok(b) =>
      match Refs(store, document, document, b, true)
      case Failed(e) => Err(e)
      case Unchanged => Ok(document)
      case Replaced(found) => Ok(found)
  }

  // ---------------------------------------------------------------------
  // the class
  // ---------------------------------------------------------------------

  /** `class Resolver` (Resolver.mjs:15-240) with its `#store`; `equal` is the deep equality it is given. */
  class Resolver {
    var store: Store
    const equal: (Value, Value) -> bool

    constructor (equal: (Value, Value) -> bool)
      ensures this.store == map[] && this.equal == equal
    {
      this.store := map[];
      this.equal := equal;
    }

    /** `#add` (Resolver.mjs:136-144). */
    method AddEntry(document: Value, uri: string) returns (outcome: Outcome)
      modifies this
      ensures Stored(store, outcome) == Register(old(store), equal, uri, document)
    {
      if uri in store && !equal(store[uri], document) {
        return Fail(DocumentConflict);
      }
      store := store[uri := document];
      outcome := Pass;
    }

    /** `#scanSubDocuments` (Resolver.mjs:147-177). */
    method ScanSubDocuments(document: Value, baseUri: string, top: bool) returns (outcome: Outcome)
      modifies this
      ensures Stored(store, outcome) == Scan(old(store), equal, document, baseUri, top)
      decreases document, 1
    {
      var narrowed := NarrowBase(document, baseUri, top);
      if narrowed.Err? {
        outcome := Fail(narrowed.error);
      } else {
        outcome := Pass;
        if SubIdentity(document, top).Some? {
          outcome := AddEntry(document, narrowed.value);
        }
        if outcome.Pass? {
          outcome := ScanChildrenOf(document, narrowed.value);
        }
      }
    }

    /** The walk over a container's children in `#scanSubDocuments` (Resolver.mjs:161-175). */
    method ScanChildrenOf(document: Value, base: string) returns (outcome: Outcome)
      modifies this
      ensures Stored(store, outcome) == ScanChildren(old(store), equal, document, base)
      decreases document, 0
    {
      match document {
        case Arr(items) =>
          outcome := ScanArray(items, base);
        case Obj(members) =>
          outcome := ScanObject(members, base);
        case _ =>
          outcome := Pass;
      }
    }

    /** A nested identity narrowing the base (Resolver.mjs:151-158, 190-198). */
    method NarrowBase(document: Value, base: string, top: bool) returns (r: Result<string>)
      ensures r == Narrow(document, base, top)
    {
      var identity := SubIdentity(document, top);
      if identity.Some? {
        r := Uri.ResolveUri(identity.value, base);
      } else {
        r := Ok(base);
      }
    }

    /** The array loop of `#scanSubDocuments` (Resolver.mjs:161-168). */
    method ScanArray(items: seq<Value>, base: string) returns (outcome: Outcome)
      modifies this
      ensures Stored(store, outcome) == ScanItems(old(store), equal, items, base)
      decreases items, 0
    {
      var i := 0;
      while i < |items|
        invariant 0 <= i <= |items|
        invariant ScanItems(old(store), equal, items, base) == ScanItems(store, equal, items[i..], base)
      {
        assert items[i..][0] == items[i] && items[i..][1..] == items[i + 1..];
        outcome := ScanSubDocuments(items[i], base, false);
        if outcome.Fail? {
          return;
        }
        i := i + 1;
      }
      outcome := Pass;
    }

    /** The key loop of `#scanSubDocuments` (Resolver.mjs:169-175). */
    method ScanObject(members: seq<Member>, base: string) returns (outcome: Outcome)
      modifies this
      ensures Stored(store, outcome) == ScanMembers(old(store), equal, members, base)
      decreases members, 0
    {
      var i := 0;
      while i < |members|
        invariant 0 <= i <= |members|
        invariant ScanMembers(old(store), equal, members, base) == ScanMembers(store, equal, members[i..], base)
      {
        assert members[i..][0] == members[i] && members[i..][1..] == members[i + 1..];
        outcome := ScanSubDocuments(members[i].val, base, false);
        if outcome.Fail? {
          return;
        }
        i := i + 1;
      }
      outcome := Pass;
    }

    /** The uri normalisation `add` and `resolve` share (Resolver.mjs:31-40, 112-121). */
    method NormaliseRoot(uri: string) returns (r: Result<string>)
      requires uri != []
      ensures r == RootKey(uri)
    {
      var stripped := RemoveFragment(uri);
      if stripped.None? || stripped.value == [] {
        return Err(UnexpectedFragment);
      }
      r := Uri.ResolveUri(stripped.value, NoBase);
    }

    /** `add` (Resolver.mjs:19-47). */
    method Add(document: Value, uri: string) returns (outcome: Outcome)
      modifies this
      ensures Stored(store, outcome) == Added(old(store), equal, document, uri)
    {
      var root := uri;
      if root == [] && IdOf(document).Some? {
        root := IdOf(document).value;
      }
      if root == [] {
        return Fail(MissingIdentity);
      }
      var key := NormaliseRoot(root);
      if key.Err? {
        return Fail(key.error);
      }
      outcome := AddEntry(document, key.value);
      if outcome.Fail? {
        return;
      }
      outcome := ScanSubDocuments(document, key.value, true);
    }

    /** `delete` (Resolver.mjs:49-58). */
    method Delete(uri: string) returns (r: Result<bool>)
      modifies this
      ensures (store, r) == Deleted(old(store), uri)
    {
      var stripped := RemoveFragment(uri);
      if stripped.None? || stripped.value == [] {
        return Ok(false);
      }
      var key := Uri.ResolveUri(stripped.value, NoBase);
      if key.Err? {
        return Err(key.error);
      }
      r := Ok(key.value in store);
      store := store - {key.value};
    }

    /** `get` (Resolver.mjs:60-101): reads the store and changes nothing. */
    method Get(uri: string, root: Option<Value>) returns (r: Result<Value>)
      ensures r == Fetch(store, uri, root)
    {
      var (baseUri, fragment) := Uri.SplitFragment(uri);
      var document: Value;
      if baseUri == [] {
        if root.None? {
          return Err(MissingRoot);
        }
        document := root.value;
      } else {
        var key := Uri.ResolveUri(baseUri, NoBase);
        if key.Err? {
          return Err(key.error);
        }
        if key.value !in store {
          return Err(DocumentNotFound);
        }
        document := store[key.value];
      }
      if fragment != [] {
        if fragment[0] == '/' {
          r := Pointers.UnrefPtr(document, fragment);
          return;
        }
        var found := Pointers.FindId(document, "#" + fragment);
        if found.None? {
          return Err(ReferenceNotFound);
        }
        document := found.value;
      }
      r := Ok(document);
    }

    /** `resolve` (Resolver.mjs:103-133): reads the store and changes nothing. */
    method Resolve(document: Value, uri: string) returns (r: Result<Value>)
      ensures r == Resolution(store, document, uri)
    {
      var id := uri;
      if id == [] && IdOf(document).Some? {
        id := IdOf(document).value;
      }
      var base: Result<string> := Ok([]);
      if id != [] {
        base := NormaliseRoot(id);
      }
      if base.Err? {
        r := Err(base.error);
      } else {
        var temp := ResolveRefs(document, document, base.value, true);
        r := if temp.Failed? then Err(temp.error) else if temp.Replaced? then Ok(temp.value) else Ok(document);
      }
    }

    /** `#resolveRefs` (Resolver.mjs:180-239): fills a fresh clone and copies it only when needed. */
    method ResolveRefs(root: Value, document: Value, baseUri: string, top: bool) returns (r: Change)
      ensures r == Refs(store, root, document, baseUri, top)
      decreases document, 2
    {
      var ref := RefOf(document);
      if ref.Some? {
        var target := Uri.ResolveUri(ref.value, baseUri);
        if target.Err? {
          return Failed(target.error);
        }
        var found := Get(target.value, Some(root));
        if found.Err? {
          return Failed(found.error);
        }
        return Replaced(found.value);
      }
      var narrowed := NarrowBase(document, baseUri, top);
      if narrowed.Err? {
        return Failed(narrowed.error);
      }
      var base := narrowed.value;
      r := ResolveChildren(root, document, base);
    }

    /** The children part of `#resolveRefs` (Resolver.mjs:200-238): the container is copied only when needed. */
    method ResolveChildren(root: Value, document: Value, base: string) returns (r: Change)
      ensures r == RefsChildren(store, root, document, base)
      decreases document, 1
    {
      match document {
        case Arr(items) =>
          var temp := ResolveArray(root, items, base);
          r := if temp.Err? then Failed(temp.error) else if temp.value.1 then Replaced(Arr(temp.value.0)) else Unchanged;
        case Obj(members) =>
          var temp := ResolveObject(root, members, base);
          r := if temp.Err? then Failed(temp.error) else if temp.value.1 then Replaced(Obj(temp.value.0)) else Unchanged;
        case _ =>
          r := Unchanged;
      }
    }

    /** The array loop of `#resolveRefs` (Resolver.mjs:202-217): fills a fresh array clone. */
    method ResolveArray(root: Value, items: seq<Value>, base: string) returns (r: Result<(seq<Value>, bool)>)
      ensures r == SettleAll(items, ItemResults(store, root, items, base))
      decreases items, 0
    {
      ghost var results := ItemResults(store, root, items, base);
      var needsClone := false;
      var clone := new Value[|items|];
      var i := 0;
      while i < |items|
        invariant 0 <= i <= |items|
        invariant SettleAll(items[..i], results[..i]) == Ok((clone[..i], needsClone))
      {
        var item := items[i];
        var temp := ResolveRefs(root, item, base, false);
        if temp.Failed? {
          SettleAllStop(items, results, i);
          return Err(temp.error);
        }
        ghost var before := needsClone;
        if temp.Replaced? {
          item := temp.value;
          needsClone := true;
        }
        SettleAllStep(items, results, i, clone[..i], before, item, needsClone);
        clone[i] := item;
        assert clone[..i + 1] == clone[..i] + [item];
        i := i + 1;
      }
      assert items[..i] == items && results[..i] == results;
      assert clone[..] == clone[..i];
      r := Ok((clone[..], needsClone));
    }

    /** The key loop of `#resolveRefs` (Resolver.mjs:218-232): fills an object clone key by key. */
    method ResolveObject(root: Value, members: seq<Member>, base: string) returns (r: Result<(seq<Member>, bool)>)
      ensures r == SettleMembers(members, MemberResults(store, root, members, base))
      decreases members, 0
    {
      ghost var results := MemberResults(store, root, members, base);
      var needsClone := false;
      var clone: seq<Member> := [];
      var i := 0;
      while i < |members|
        invariant 0 <= i <= |members|
        invariant SettleMembers(members[..i], results[..i]) == Ok((clone, needsClone))
      {
        var member := members[i];
        var item := member.val;
        var temp := ResolveRefs(root, item, base, false);
        if temp.Failed? {
          SettleMembersStop(members, results, i);
          return Err(temp.error);
        }
        ghost var before := needsClone;
        if temp.Replaced? {
          item := temp.value;
          needsClone := true;
        }
        SettleMembersStep(members, results, i, clone, before, item, needsClone);
        clone := clone + [Member(member.key, item)];
        i := i + 1;
      }
      assert members[..i] == members && results[..i] == results;
      r := Ok((clone, needsClone));
    }
  }

  /** `resolve` of index.mjs (index.mjs:8-12): a fresh resolver with an empty store. */
  method ResolveDocument(document: Value, uri: string, equal: (Value, Value) -> bool) returns (r: Result<Value>)
    ensures r == Resolution(map[], document, uri)
  {
    var resolver := new Resolver(equal);
    r := resolver.Resolve(document, uri);
  }

  // ---------------------------------------------------------------------
  // early exits of the loops
  // ---------------------------------------------------------------------

  /** A loop that fails part-way fails as a whole with the same error. */
  lemma {:induction false} SettleAllRest(items: seq<Value>, results: seq<Change>, k: nat)
    requires k <= |items| == |results| && SettleAll(items[..k], results[..k]).Err?
    ensures SettleAll(items, results) == SettleAll(items[..k], results[..k])
    decreases |items| - k
  {
    if k < |items| {
      assert items[..k + 1][..k] == items[..k] && results[..k + 1][..k] == results[..k];
      SettleAllRest(items, results, k + 1);
    } else {
      assert items[..k] == items && results[..k] == results;
    }
  }

  lemma {:induction false} SettleMembersRest(members: seq<Member>, results: seq<Change>, k: nat)
    requires k <= |members| == |results| && SettleMembers(members[..k], results[..k]).Err?
    ensures SettleMembers(members, results) == SettleMembers(members[..k], results[..k])
    decreases |members| - k
  {
    if k < |members| {
      assert members[..k + 1][..k] == members[..k] && results[..k + 1][..k] == results[..k];
      SettleMembersRest(members, results, k + 1);
    } else {
      assert members[..k] == members && results[..k] == results;
    }
  }

  /** A failing slot after a clean prefix ends the whole loop with its error. */
  lemma SettleAllStop(items: seq<Value>, results: seq<Change>, i: nat)
    requires i < |items| == |results| && SettleAll(items[..i], results[..i]).Ok? && results[i].Failed?
    ensures SettleAll(items, results) == Err(results[i].error)
  {
    assert items[..i + 1][..i] == items[..i] && results[..i + 1][..i] == results[..i];
    SettleAllRest(items, results, i + 1);
  }

  /** A slot that does not fail appends its settled value. */
  lemma SettleAllStep(items: seq<Value>, results: seq<Change>, i: nat,
                      clone: seq<Value>, needsClone: bool, item: Value, needsClone': bool)
    requires i < |items| == |results| && SettleAll(items[..i], results[..i]) == Ok((clone, needsClone))
    requires !results[i].Failed? && item == Settle(items[i], results[i]).0
    requires needsClone' == (needsClone || results[i].Replaced?)
    ensures SettleAll(items[..i + 1], results[..i + 1]) == Ok((clone + [item], needsClone'))
  {
    assert items[..i + 1][..i] == items[..i] && results[..i + 1][..i] == results[..i];
  }

  lemma SettleMembersStop(members: seq<Member>, results: seq<Change>, i: nat)
    requires i < |members| == |results| && SettleMembers(members[..i], results[..i]).Ok? && results[i].Failed?
    ensures SettleMembers(members, results) == Err(results[i].error)
  {
    assert members[..i + 1][..i] == members[..i] && results[..i + 1][..i] == results[..i];
    SettleMembersRest(members, results, i + 1);
  }

  lemma SettleMembersStep(members: seq<Member>, results: seq<Change>, i: nat,
                          clone: seq<Member>, needsClone: bool, item: Value, needsClone': bool)
    requires i < |members| == |results| && SettleMembers(members[..i], results[..i]) == Ok((clone, needsClone))
    requires !results[i].Failed? && item == Settle(members[i].val, results[i]).0
    requires needsClone' == (needsClone || results[i].Replaced?)
    ensures SettleMembers(members[..i + 1], results[..i + 1]) == Ok((clone + [Member(members[i].key, item)], needsClone'))
  {
    assert members[..i + 1][..i] == members[..i] && results[..i + 1][..i] == results[..i];
  }
}
