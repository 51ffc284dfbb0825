/**
 * What the store operations and the `$ref` walk of Resolver.mjs promise,
 * stated over the specification functions the class's methods are proved
 * against: which documents `add` registers, what `delete` and `get` answer,
 * and the shape of the tree `resolve` returns.
 */
module ResolverProperties {
  import opened Json
  import Uri
  import Pointers
  import opened Resolver

  // ---------------------------------------------------------------------
  // the deep equality the store is given
  // ---------------------------------------------------------------------

  /** Deep equality only equates equal trees. */
  ghost predicate Sound(equal: (Value, Value) -> bool) {
    forall a, b :: equal(a, b) ==> a == b
  }

  /** Deep equality equates every tree with itself. */
  ghost predicate Reflexive(equal: (Value, Value) -> bool) {
    forall a :: equal(a, a)
  }

  // ---------------------------------------------------------------------
  // the registrations of a scan, as a list
  // ---------------------------------------------------------------------

  type Entry = (string, Value)

  /**
   * The (uri, sub-document) pairs `#scanSubDocuments` registers, in
   * pre-order: every nested node with an identity, under that identity
   * resolved against the base of its nearest registered ancestor.
   */
  function Entries(document: Value, base: string, top: bool): seq<Entry>
    decreases document, 1
  {
    match Narrow(document, base, top)
    case Err(_) => []
    case Ok(narrowed) =>
      if SubIdentity(document, top).None? then ChildEntries(document, narrowed)
      else [(narrowed, document)] + ChildEntries(document, narrowed)
  }

  function ChildEntries(document: Value, base: string): seq<Entry>
    decreases document, 0
  {
    match document
    case Arr(items) => ItemsEntries(items, base)
    case Obj(members) => MembersEntries(members, base)
    case _ => []
  }

  function ItemsEntries(items: seq<Value>, base: string): seq<Entry>
    decreases items
  {
    if items == [] then []
    else Entries(items[0], base, false) + ItemsEntries(items[1..], base)
  }

  function MembersEntries(members: seq<Member>, base: string): seq<Entry>
    decreases members
  {
    if members == [] then []
    else Entries(members[0].val, base, false) + MembersEntries(members[1..], base)
  }

  /** The uris of a list of entries. */
  function Keys(entries: seq<Entry>): (r: set<string>)
    ensures forall i :: 0 <= i < |entries| ==> entries[i].0 in r
    ensures forall k :: k in r ==> exists i :: 0 <= i < |entries| && entries[i].0 == k
  {
    set i | 0 <= i < |entries| :: entries[i].0
  }

  /** Every entry that was in the store is still there with the same document. */
  predicate Grows(before: Store, after: Store) {
    forall k :: k in before ==> k in after && after[k] == before[k]
  }

  /** Every entry of the list is in the store. */
  predicate Covers(store: Store, entries: seq<Entry>) {
    forall i :: 0 <= i < |entries| ==> entries[i].0 in store && store[entries[i].0] == entries[i].1
  }

  /** `after` is `before` with exactly the entries of the list added, and nothing overwritten. */
  predicate Holds(before: Store, after: Store, entries: seq<Entry>) {
    after.Keys == before.Keys + Keys(entries) && Grows(before, after) && Covers(after, entries)
  }

  lemma KeysAppend(xs: seq<Entry>, ys: seq<Entry>)
    ensures Keys(xs + ys) == Keys(xs) + Keys(ys)
  {
    forall k | k in Keys(xs + ys) ensures k in Keys(xs) + Keys(ys) {
      var i :| 0 <= i < |xs + ys| && (xs + ys)[i].0 == k;
      if i >= |xs| {
        assert ys[i - |xs|] == (xs + ys)[i];
      }
    }
    forall k | k in Keys(xs) ensures k in Keys(xs + ys) {
      var i :| 0 <= i < |xs| && xs[i].0 == k;
      assert (xs + ys)[i] == xs[i];
    }
    forall k | k in Keys(ys) ensures k in Keys(xs + ys) {
      var i :| 0 <= i < |ys| && ys[i].0 == k;
      assert (xs + ys)[|xs| + i] == ys[i];
    }
  }

  lemma HoldsTrans(a: Store, b: Store, c: Store, xs: seq<Entry>, ys: seq<Entry>)
    requires Holds(a, b, xs) && Holds(b, c, ys)
    ensures Holds(a, c, xs + ys)
  {
    KeysAppend(xs, ys);
    forall i | 0 <= i < |xs + ys| ensures (xs + ys)[i].0 in c && c[(xs + ys)[i].0] == (xs + ys)[i].1 {
      if i < |xs| {
        assert (xs + ys)[i] == xs[i];
      } else {
        assert (xs + ys)[i] == ys[i - |xs|];
      }
    }
  }

  /** A registration that passes under a sound equality adds its one entry and overwrites nothing. */
  lemma RegisterHolds(store: Store, equal: (Value, Value) -> bool, uri: string, document: Value)
    requires Sound(equal)
    ensures var r := Register(store, equal, uri, document);
      Grows(store, r.store) && (r.outcome.Pass? ==> Holds(store, r.store, [(uri, document)]))
  {
    var r := Register(store, equal, uri, document);
    if r.outcome.Pass? {
      var one := [(uri, document)];
      assert one[0].0 == uri;
      assert Keys(one) == {uri};
      if uri in store {
        assert equal(store[uri], document);
      }
    }
  }

  /**
   * `#scanSubDocuments` under a sound equality: whatever it does, no entry
   * is lost or overwritten; when it passes, the store has gained exactly the
   * entries of the scan, each mapped to its sub-document.
   */
  lemma {:induction false} ScanHolds(store: Store, equal: (Value, Value) -> bool, document: Value, base: string, top: bool)
    requires Sound(equal)
    ensures var r := Scan(store, equal, document, base, top);
      Grows(store, r.store) && (r.outcome.Pass? ==> Holds(store, r.store, Entries(document, base, top)))
    decreases document, 1
  {
    match Narrow(document, base, top)
    case Err(_) =>
    case Ok(narrowed) =>
      if SubIdentity(document, top).None? {
        ChildrenHolds(store, equal, document, narrowed);
      } else {
        var added := Register(store, equal, narrowed, document);
        RegisterHolds(store, equal, narrowed, document);
        if added.outcome.Pass? {
          ChildrenHolds(added.store, equal, document, narrowed);
          var r := ScanChildren(added.store, equal, document, narrowed);
          if r.outcome.Pass? {
            HoldsTrans(store, added.store, r.store, [(narrowed, document)], ChildEntries(document, narrowed));
          }
        }
      }
  }

  lemma {:induction false} ChildrenHolds(store: Store, equal: (Value, Value) -> bool, document: Value, base: string)
    requires Sound(equal)
    ensures var r := ScanChildren(store, equal, document, base);
      Grows(store, r.store) && (r.outcome.Pass? ==> Holds(store, r.store, ChildEntries(document, base)))
    decreases document, 0
  {
    match document
    case Arr(items) => ItemsHolds(store, equal, items, base);
    case Obj(members) => MembersHolds(store, equal, members, base);
    case _ => assert Keys([]) == {};
  }

  lemma {:induction false} ItemsHolds(store: Store, equal: (Value, Value) -> bool, items: seq<Value>, base: string)
    requires Sound(equal)
    ensures var r := ScanItems(store, equal, items, base);
      Grows(store, r.store) && (r.outcome.Pass? ==> Holds(store, r.store, ItemsEntries(items, base)))
    decreases items
  {
    if items == [] {
      assert Keys([]) == {};
    } else {
      var rest := items[1..];
      ScanHolds(store, equal, items[0], base, false);
      var first := Scan(store, equal, items[0], base, false);
      if first.outcome.Pass? {
        ItemsHolds(first.store, equal, rest, base);
        var r := ScanItems(first.store, equal, rest, base);
        if r.outcome.Pass? {
          HoldsTrans(store, first.store, r.store, Entries(items[0], base, false), ItemsEntries(rest, base));
        }
      }
    }
  }


  lemma {:induction false} MembersHolds(store: Store, equal: (Value, Value) -> bool, members: seq<Member>, base: string)
    requires Sound(equal)
    ensures var r := ScanMembers(store, equal, members, base);
      Grows(store, r.store) && (r.outcome.Pass? ==> Holds(store, r.store, MembersEntries(members, base)))
    decreases members
  {
    if members == [] {
      assert Keys([]) == {};
    } else {
      var rest := members[1..];
      ScanHolds(store, equal, members[0].val, base, false);
      var first := Scan(store, equal, members[0].val, base, false);
      if first.outcome.Pass? {
        MembersHolds(first.store, equal, rest, base);
        var r := ScanMembers(first.store, equal, rest, base);
        if r.outcome.Pass? {
          HoldsTrans(store, first.store, r.store, Entries(members[0].val, base, false), MembersEntries(rest, base));
        }
      }
    }
  }


  // ---------------------------------------------------------------------
  // add
  // ---------------------------------------------------------------------

  /** The prechecks of `add` throw before anything is registered. */
  lemma AddRejects(store: Store, equal: (Value, Value) -> bool, document: Value, uri: string)
    ensures RootUri(document, uri) == [] ==> Added(store, equal, document, uri) == Stored(store, Fail(MissingIdentity))
    ensures RootUri(document, uri) == "#" ==> Added(store, equal, document, uri) == Stored(store, Fail(UnexpectedFragment))
    ensures var root := RootUri(document, uri);
      '#' in root && root[|root| - 1] != '#' ==> Added(store, equal, document, uri) == Stored(store, Fail(UnexpectedFragment))
  {
    var root := RootUri(document, uri);
    if root == "#" {
      assert RemoveFragment(root) == Some([]);
    }
  }

  /**
   * A successful `add` under a sound equality: the normalised uri maps to the
   * document, every sub-document of the scan is registered under its
   * resolved identity, and nothing else changes. A failed one overwrites
   * nothing.
   */
  lemma AddRegisters(store: Store, equal: (Value, Value) -> bool, document: Value, uri: string)
    requires Sound(equal)
    ensures var r := Added(store, equal, document, uri);
      Grows(store, r.store) &&
      (r.outcome.Pass? ==> AddKey(document, uri).Ok? &&
                           Holds(store, r.store, [(AddKey(document, uri).value, document)] +
                                                 ChildEntries(document, AddKey(document, uri).value)))
  {
    match AddKey(document, uri)
    case Err(_) =>
    case Ok(key) =>
      var added := Register(store, equal, key, document);
      RegisterHolds(store, equal, key, document);
      if added.outcome.Pass? {
        ScanHolds(added.store, equal, document, key, true);
        var r := Scan(added.store, equal, document, key, true);
        if r.outcome.Pass? {
          assert Entries(document, key, true) == ChildEntries(document, key);
          HoldsTrans(store, added.store, r.store, [(key, document)], ChildEntries(document, key));
        }
      }
  }

  /** The root document is what its key holds after a successful `add`. */
  lemma AddStoresRoot(store: Store, equal: (Value, Value) -> bool, document: Value, uri: string)
    requires Sound(equal)
    requires Added(store, equal, document, uri).outcome.Pass?
    ensures AddKey(document, uri).Ok?
    ensures var r := Added(store, equal, document, uri);
      AddKey(document, uri).value in r.store && r.store[AddKey(document, uri).value] == document
  {
    AddRegisters(store, equal, document, uri);
    var key := AddKey(document, uri).value;
    assert ([(key, document)] + ChildEntries(document, key))[0] == (key, document);
  }

  /**
   * A scan that passed once passes again, changing nothing, on any store that
   * already holds its entries, when the equality is reflexive.
   */
  lemma {:induction false} ScanReplay(store: Store, t: Store, equal: (Value, Value) -> bool, document: Value, base: string, top: bool)
    requires Reflexive(equal)
    requires Scan(store, equal, document, base, top).outcome.Pass?
    requires Covers(t, Entries(document, base, top))
    ensures Scan(t, equal, document, base, top) == Stored(t, Pass)
    decreases document, 1
  {
    var narrowed := Narrow(document, base, top).value;
    if SubIdentity(document, top).None? {
      ChildrenReplay(store, t, equal, document, narrowed);
    } else {
      CoversSplit(t, [(narrowed, document)], ChildEntries(document, narrowed));
      RegisterReplay(t, equal, narrowed, document);
      var added := Register(store, equal, narrowed, document);
      ChildrenReplay(added.store, t, equal, document, narrowed);
    }
  }

  /** Registering an entry the store already holds passes and changes nothing. */
  lemma RegisterReplay(t: Store, equal: (Value, Value) -> bool, uri: string, document: Value)
    requires Reflexive(equal)
    requires Covers(t, [(uri, document)])
    ensures Register(t, equal, uri, document) == Stored(t, Pass)
  {
    assert [(uri, document)][0] == (uri, document);
    assert equal(t[uri], document);
    assert t[uri := document] == t;
  }

  lemma {:induction false} ChildrenReplay(store: Store, t: Store, equal: (Value, Value) -> bool, document: Value, base: string)
    requires Reflexive(equal)
    requires ScanChildren(store, equal, document, base).outcome.Pass?
    requires Covers(t, ChildEntries(document, base))
    ensures ScanChildren(t, equal, document, base) == Stored(t, Pass)
    decreases document, 0
  {
    match document
    case Arr(items) => ItemsReplay(store, t, equal, items, base);
    case Obj(members) => MembersReplay(store, t, equal, members, base);
    case _ =>
  }

  /** A list that covers `xs + ys` covers each part. */
  lemma CoversSplit(t: Store, xs: seq<Entry>, ys: seq<Entry>)
    requires Covers(t, xs + ys)
    ensures Covers(t, xs) && Covers(t, ys)
  {
    forall i | 0 <= i < |xs| ensures xs[i].0 in t && t[xs[i].0] == xs[i].1 {
      assert (xs + ys)[i] == xs[i];
    }
    forall i | 0 <= i < |ys| ensures ys[i].0 in t && t[ys[i].0] == ys[i].1 {
      assert (xs + ys)[|xs| + i] == ys[i];
    }
  }

  lemma {:induction false} ItemsReplay(store: Store, t: Store, equal: (Value, Value) -> bool, items: seq<Value>, base: string)
    requires Reflexive(equal)
    requires ScanItems(store, equal, items, base).outcome.Pass?
    requires Covers(t, ItemsEntries(items, base))
    ensures ScanItems(t, equal, items, base) == Stored(t, Pass)
    decreases items
  {
    if items != [] {
      var rest := items[1..];
      CoversSplit(t, Entries(items[0], base, false), ItemsEntries(rest, base));
      ScanReplay(store, t, equal, items[0], base, false);
      var first := Scan(store, equal, items[0], base, false);
      ItemsReplay(first.store, t, equal, rest, base);
    }
  }


  lemma {:induction false} MembersReplay(store: Store, t: Store, equal: (Value, Value) -> bool, members: seq<Member>, base: string)
    requires Reflexive(equal)
    requires ScanMembers(store, equal, members, base).outcome.Pass?
    requires Covers(t, MembersEntries(members, base))
    ensures ScanMembers(t, equal, members, base) == Stored(t, Pass)
    decreases members
  {
    if members != [] {
      var rest := members[1..];
      CoversSplit(t, Entries(members[0].val, base, false), MembersEntries(rest, base));
      ScanReplay(store, t, equal, members[0].val, base, false);
      var first := Scan(store, equal, members[0].val, base, false);
      MembersReplay(first.store, t, equal, rest, base);
    }
  }


  /** Adding the same document under the same uri a second time passes and changes nothing. */
  lemma AddIdempotent(store: Store, equal: (Value, Value) -> bool, document: Value, uri: string)
    requires Sound(equal) && Reflexive(equal)
    requires Added(store, equal, document, uri).outcome.Pass?
    ensures var r := Added(store, equal, document, uri);
      Added(r.store, equal, document, uri) == r
  {
    var r := Added(store, equal, document, uri);
    var key := AddKey(document, uri).value;
    AddRegisters(store, equal, document, uri);
    CoversSplit(r.store, [(key, document)], ChildEntries(document, key));
    RegisterReplay(r.store, equal, key, document);
    var added := Register(store, equal, key, document);
    assert Entries(document, key, true) == ChildEntries(document, key);
    ScanReplay(added.store, r.store, equal, document, key, true);
  }

  /** A nested identity that a passing scan registers is the base the `$ref` walk narrows to below it. */
  lemma ScanNarrows(store: Store, equal: (Value, Value) -> bool, document: Value, base: string)
    requires Sound(equal)
    requires SubIdentity(document, false).Some?
    requires Scan(store, equal, document, base, false).outcome.Pass?
    ensures Narrow(document, base, false).Ok?
    ensures var r := Scan(store, equal, document, base, false);
      Narrow(document, base, false).value in r.store && r.store[Narrow(document, base, false).value] == document
  {
    ScanHolds(store, equal, document, base, false);
    var narrowed := Narrow(document, base, false).value;
    assert Entries(document, base, false)[0] == (narrowed, document);
  }

  // ---------------------------------------------------------------------
  // delete
  // ---------------------------------------------------------------------

  /**
   * `delete` normalises its uri as `add` does: a normalised key is removed
   * and the answer is whether it was there; a uri with a fragment answers
   * false and keeps the store; only an unparsable uri throws.
   */
  lemma DeleteKey(store: Store, uri: string, key: string)
    requires uri != [] && RootKey(uri) == Ok(key)
    ensures Deleted(store, uri) == (store - {key}, Ok(key in store))
  {
  }

  /** An empty uri is treated as a fragment-only one. */
  lemma DeleteEmpty(store: Store)
    ensures Deleted(store, []) == (store, Ok(false))
  {
    assert RemoveFragment([]) == Some([]);
  }

  /** A uri `add` would reject keeps the store; only an unparsable one throws. */
  lemma DeleteRejected(store: Store, uri: string, e: Error)
    requires uri != [] && RootKey(uri) == Err(e)
    ensures Deleted(store, uri).0 == store
    ensures e == UnexpectedFragment ==> Deleted(store, uri).1 == Ok(false)
    ensures e != UnexpectedFragment ==> e == InvalidUri && Deleted(store, uri).1 == Err(InvalidUri)
  {
    if e != UnexpectedFragment {
      var stripped := RemoveFragment(uri).value;
      assert Uri.Resolve(stripped, NoBase) == Err(e);
    }
  }

  /** A uri with text after its last `#` answers false. */
  lemma DeleteFragment(store: Store, uri: string)
    requires '#' in uri && uri[|uri| - 1] != '#'
    ensures Deleted(store, uri) == (store, Ok(false))
  {
  }

  /** Deleting what a successful `add` registered answers true and removes only its key. */
  lemma DeleteAfterAdd(store: Store, equal: (Value, Value) -> bool, document: Value, uri: string)
    requires Sound(equal) && uri != []
    requires Added(store, equal, document, uri).outcome.Pass?
    ensures var after := Added(store, equal, document, uri).store;
      Deleted(after, uri) == (after - {AddKey(document, uri).value}, Ok(true))
  {
    AddStoresRoot(store, equal, document, uri);
    DeleteKey(Added(store, equal, document, uri).store, uri, AddKey(document, uri).value);
  }

  /** A second `delete` of the same uri finds nothing and changes nothing. */
  lemma DeleteTwice(store: Store, uri: string)
    requires Deleted(store, uri).1.Ok?
    ensures var after := Deleted(store, uri).0;
      Deleted(after, uri) == (after, Ok(false))
  {
    match RemoveFragment(uri)
    case None =>
    case Some(stripped) =>
      if stripped != [] {
        var key := Uri.Resolve(stripped, NoBase).value;
        var after := store - {key};
        assert Deleted(after, uri) == (after - {key}, Ok(key in after));
        RemoveAbsent(after, key);
      }
  }

  lemma RemoveAbsent(m: Store, key: string)
    requires key !in m
    ensures m - {key} == m
  {
  }

  // ---------------------------------------------------------------------
  // get
  // ---------------------------------------------------------------------

  /** The text before the first `#` is determined by the whole. */
  lemma HashSplitUnique(a: string, b: string, c: string, d: string)
    requires '#' !in a && '#' !in c && a + "#" + b == c + "#" + d
    ensures a == c && b == d
  {
    assert a + "#" + b == a + ("#" + b);
    assert c + "#" + d == c + ("#" + d);
    Uri.SpanUnique(a, "#" + b, {'#'});
    Uri.SpanUnique(c, "#" + d, {'#'});
    assert a == (a + "#" + b)[..|a|];
    assert c == (c + "#" + d)[..|c|];
    assert b == (a + "#" + b)[|a| + 1..];
    assert d == (c + "#" + d)[|c| + 1..];
  }

  /** A fragment after an empty base part is looked up in the root, whatever the store holds. */
  lemma FetchLocal(store: Store, fragment: string, root: Value)
    ensures Fetch(store, "#" + fragment, None) == Err(MissingRoot)
    ensures fragment == [] ==> Fetch(store, "#" + fragment, Some(root)) == Ok(root)
    ensures fragment != [] && fragment[0] == '/' ==>
              Fetch(store, "#" + fragment, Some(root)) == Pointers.Pointer(root, fragment)
    ensures fragment != [] && fragment[0] != '/' ==>
              match Fetch(store, "#" + fragment, Some(root))
              case Ok(found) => Pointers.FindId(root, "#" + fragment) == Some(found) && Pointers.Matches(found, "#" + fragment)
              case Err(e) => e == ReferenceNotFound && Pointers.FindId(root, "#" + fragment).None?
  {
    var uri := "#" + fragment;
    assert '#' in uri by { assert uri[0] == '#'; }
    var (first, second) := Uri.SplitFragment(uri);
    HashSplitUnique(first, second, [], fragment);
  }

  /**
   * What a successful `add` registered is found by `get`: the document under
   * its own uri, a JSON Pointer fragment walked from it, and an anchor
   * fragment searched in it.
   */
  lemma GetAfterAdd(store: Store, equal: (Value, Value) -> bool, document: Value, uri: string, fragment: string, root: Option<Value>)
    requires Sound(equal) && uri != [] && '#' !in uri
    requires Added(store, equal, document, uri).outcome.Pass?
    ensures var after := Added(store, equal, document, uri).store;
      Fetch(after, uri, root) == Ok(document) &&
      Fetch(after, uri + "#", root) == Ok(document) &&
      (fragment != [] && fragment[0] == '/' ==> Fetch(after, uri + "#" + fragment, root) == Pointers.Pointer(document, fragment)) &&
      (fragment != [] && fragment[0] != '/' ==>
         Fetch(after, uri + "#" + fragment, root) ==
         if Pointers.FindId(document, "#" + fragment).Some? then Ok(Pointers.FindId(document, "#" + fragment).value)
         else Err(ReferenceNotFound))
  {
    AddStoresRoot(store, equal, document, uri);
    var after := Added(store, equal, document, uri).store;
    assert RemoveFragment(uri) == Some(uri);
    var (first, second) := Uri.SplitFragment(uri + "#" + fragment);
    assert '#' in uri + "#" + fragment by { assert (uri + "#" + fragment)[|uri|] == '#'; }
    HashSplitUnique(first, second, uri, fragment);
    var (first', second') := Uri.SplitFragment(uri + "#");
    assert '#' in uri + "#" by { assert (uri + "#")[|uri|] == '#'; }
    assert uri + "#" == uri + "#" + [];
    HashSplitUnique(first', second', uri, []);
  }

  /** A base part whose normalised key is not stored is not found. */
  lemma FetchMissing(store: Store, uri: string, root: Option<Value>)
    requires uri != [] && '#' !in uri
    requires Uri.Resolve(uri, NoBase).Ok? && Uri.Resolve(uri, NoBase).value !in store
    ensures Fetch(store, uri, root) == Err(DocumentNotFound)
  {
  }

  /** A JSON Pointer fragment after a stored base part is walked from the stored document. */
  lemma FetchStored(store: Store, uri: string, fragment: string, root: Option<Value>)
    requires uri != [] && '#' !in uri && fragment != [] && fragment[0] == '/'
    requires Uri.Resolve(uri, NoBase).Ok? && Uri.Resolve(uri, NoBase).value in store
    ensures Fetch(store, uri + "#" + fragment, root) == Pointers.Pointer(store[Uri.Resolve(uri, NoBase).value], fragment)
  {
    var (first, second) := Uri.SplitFragment(uri + "#" + fragment);
    assert '#' in uri + "#" + fragment by { assert (uri + "#" + fragment)[|uri|] == '#'; }
    HashSplitUnique(first, second, uri, fragment);
  }

  // ---------------------------------------------------------------------
  // the $ref walk
  // ---------------------------------------------------------------------

  /** No node of the list has a non-empty string `$ref`. */
  predicate RefFree(nodes: seq<Value>) {
    forall i :: 0 <= i < |nodes| ==> RefOf(nodes[i]).None?
  }

  lemma RefFreeSplit(xs: seq<Value>, ys: seq<Value>)
    requires RefFree(xs + ys)
    ensures RefFree(xs) && RefFree(ys)
  {
    forall i | 0 <= i < |xs| ensures RefOf(xs[i]).None? {
      assert (xs + ys)[i] == xs[i];
    }
    forall i | 0 <= i < |ys| ensures RefOf(ys[i]).None? {
      assert (xs + ys)[|xs| + i] == ys[i];
    }
  }

  /** Each item's nodes are among the list's nodes. */
  lemma {:induction false} RefFreeItem(items: seq<Value>, i: nat)
    requires i < |items| && RefFree(Pointers.ItemsPreOrder(items))
    ensures RefFree(Pointers.PreOrder(items[i]))
    decreases i
  {
    RefFreeSplit(Pointers.PreOrder(items[0]), Pointers.ItemsPreOrder(items[1..]));
    if i > 0 {
      RefFreeItem(items[1..], i - 1);
    }
  }

  lemma {:induction false} RefFreeMember(members: seq<Member>, i: nat)
    requires i < |members| && RefFree(Pointers.MembersPreOrder(members))
    ensures RefFree(Pointers.PreOrder(members[i].val))
    decreases i
  {
    RefFreeSplit(Pointers.PreOrder(members[0].val), Pointers.MembersPreOrder(members[1..]));
    if i > 0 {
      RefFreeMember(members[1..], i - 1);
    }
  }

  /** A tree none of whose nodes has a `$ref` is never copied: the walk leaves it as it is or throws. */
  lemma {:induction false} NoRefsUnchanged(store: Store, root: Value, document: Value, base: string, top: bool)
    requires RefFree(Pointers.PreOrder(document))
    ensures !Refs(store, root, document, base, top).Replaced?
    decreases document, 2
  {
    assert Pointers.PreOrder(document)[0] == document;
    match Narrow(document, base, top)
    case Err(_) =>
    case Ok(narrowed) => NoRefsChildren(store, root, document, narrowed);
  }

  lemma {:induction false} NoRefsChildren(store: Store, root: Value, document: Value, base: string)
    requires RefFree(Pointers.PreOrder(document))
    ensures !RefsChildren(store, root, document, base).Replaced?
    decreases document, 1
  {
    match document
    case Arr(items) =>
      RefFreeSplit([document], Pointers.ItemsPreOrder(items));
      NoRefsItems(store, root, items, base);
      if SettleAll(items, ItemResults(store, root, items, base)).Ok? {
        SettleAllCopies(items, ItemResults(store, root, items, base));
      }
    case Obj(members) =>
      RefFreeSplit([document], Pointers.MembersPreOrder(members));
      NoRefsMembers(store, root, members, base);
      if SettleMembers(members, MemberResults(store, root, members, base)).Ok? {
        SettleMembersCopies(members, MemberResults(store, root, members, base));
      }
    case _ =>
  }

  lemma {:induction false} NoRefsItems(store: Store, root: Value, items: seq<Value>, base: string)
    requires RefFree(Pointers.ItemsPreOrder(items))
    ensures forall i :: 0 <= i < |items| ==> !ItemResults(store, root, items, base)[i].Replaced?
    decreases items, 0
  {
    forall i | 0 <= i < |items| ensures !ItemResults(store, root, items, base)[i].Replaced? {
      RefFreeItem(items, i);
      NoRefsUnchanged(store, root, items[i], base, false);
    }
  }

  lemma {:induction false} NoRefsMembers(store: Store, root: Value, members: seq<Member>, base: string)
    requires RefFree(Pointers.MembersPreOrder(members))
    ensures forall i :: 0 <= i < |members| ==> !MemberResults(store, root, members, base)[i].Replaced?
    decreases members, 0
  {
    forall i | 0 <= i < |members| ensures !MemberResults(store, root, members, base)[i].Replaced? {
      RefFreeMember(members, i);
      NoRefsUnchanged(store, root, members[i].val, base, false);
    }
  }

  /** `resolve` of a document without any `$ref` returns that document, or throws. */
  lemma ResolveNoRefs(store: Store, document: Value, uri: string)
    requires RefFree(Pointers.PreOrder(document))
    ensures Resolution(store, document, uri).Ok? ==> Resolution(store, document, uri).value == document
  {
    var id := RootUri(document, uri);
    var base := if id == [] then Ok([]) else RootKey(id);
    if base.Ok? {
      NoRefsUnchanged(store, document, document, base.value, true);
    }
  }

  /**
   * A `$ref` node is replaced whole: its result is that of the bare
   * reference, whatever `$id` and other members it has and wherever it sits.
   */
  lemma RefReplacedWhole(store: Store, root: Value, document: Value, base: string, top: bool)
    requires RefOf(document).Some?
    ensures var ref := RefOf(document).value;
      Refs(store, root, document, base, top) == Refs(store, root, Obj([Member("$ref", Str(ref))]), base, false)
  {
    var ref := RefOf(document).value;
    var bare := Obj([Member("$ref", Str(ref))]);
    assert Lookup(bare.members, "$ref") == Some(Str(ref));
  }

  /** A `$ref` node is never left unchanged: it is replaced or the walk throws. */
  lemma RefNeverKept(store: Store, root: Value, document: Value, base: string, top: bool)
    requires RefOf(document).Some?
    ensures !Refs(store, root, document, base, top).Unchanged?
  {
  }

  /** A reference that does not resolve against the enclosing base makes the walk throw that error. */
  lemma RefUnresolvable(store: Store, root: Value, document: Value, base: string, top: bool, e: Error)
    requires RefOf(document).Some? && Uri.Resolve(RefOf(document).value, base) == Err(e)
    ensures Refs(store, root, document, base, top) == Failed(e)
  {
  }

  /**
   * The replacement of a `$ref` node is the `get` of the reference resolved
   * against the enclosing base, looked up with the walked document as root,
   * and it is not walked again; a failed `get` makes the walk throw its error.
   */
  lemma RefTarget(store: Store, root: Value, document: Value, base: string, top: bool, target: string, found: Result<Value>)
    requires RefOf(document).Some? && Uri.Resolve(RefOf(document).value, base) == Ok(target)
    requires Fetch(store, target, Some(root)) == found
    ensures found.Ok? ==> Refs(store, root, document, base, top) == Replaced(found.value)
    ensures found.Err? ==> Refs(store, root, document, base, top) == Failed(found.error)
  {
  }

  /** A successful array loop has one slot per item, each the item's own settled value. */
  lemma {:induction false} SettleAllSlots(items: seq<Value>, results: seq<Change>)
    requires |results| == |items| && SettleAll(items, results).Ok?
    ensures |SettleAll(items, results).value.0| == |items|
    ensures forall i :: 0 <= i < |items| ==>
              !results[i].Failed? && SettleAll(items, results).value.0[i] == Settle(items[i], results[i]).0
    decreases |items|
  {
    if items != [] {
      var n := |items| - 1;
      SettleAllSlots(items[..n], results[..n]);
      var front := SettleAll(items[..n], results[..n]).value.0;
      var clone := front + [Settle(items[n], results[n]).0];
      assert forall i :: 0 <= i < n ==> clone[i] == front[i] && items[..n][i] == items[i] && results[..n][i] == results[i];
    }
  }

  /** A successful array loop asks for a copy exactly when some slot was replaced. */
  lemma {:induction false} SettleAllCopies(items: seq<Value>, results: seq<Change>)
    requires |results| == |items| && SettleAll(items, results).Ok?
    ensures SettleAll(items, results).value.1 <==> exists i :: 0 <= i < |items| && results[i].Replaced?
    decreases |items|
  {
    if items != [] {
      var n := |items| - 1;
      SettleAllCopies(items[..n], results[..n]);
      assert forall i :: 0 <= i < n ==> results[..n][i] == results[i];
    }
  }

  /** A failed array loop throws the error of the first failing slot. */
  lemma {:induction false} SettleAllFirstError(items: seq<Value>, results: seq<Change>)
    requires |results| == |items| && SettleAll(items, results).Err?
    ensures exists i :: 0 <= i < |items| && results[i] == Failed(SettleAll(items, results).error) &&
                        forall j :: 0 <= j < i ==> !results[j].Failed?
    decreases |items|
  {
    var n := |items| - 1;
    var front := SettleAll(items[..n], results[..n]);
    assert forall i :: 0 <= i < n ==> results[..n][i] == results[i];
    if front.Err? {
      SettleAllFirstError(items[..n], results[..n]);
    } else {
      SettleAllSlots(items[..n], results[..n]);
      assert results[n] == Failed(SettleAll(items, results).error);
    }
  }

  /** A successful key loop has one slot per member, each the member's own settled value under its own key. */
  lemma {:induction false} SettleMembersSlots(members: seq<Member>, results: seq<Change>)
    requires |results| == |members| && SettleMembers(members, results).Ok?
    ensures |SettleMembers(members, results).value.0| == |members|
    ensures forall i :: 0 <= i < |members| ==>
              !results[i].Failed? && SettleMembers(members, results).value.0[i] == Member(members[i].key, Settle(members[i].val, results[i]).0)
    decreases |members|
  {
    if members != [] {
      var n := |members| - 1;
      SettleMembersSlots(members[..n], results[..n]);
      var front := SettleMembers(members[..n], results[..n]).value.0;
      var clone := front + [Member(members[n].key, Settle(members[n].val, results[n]).0)];
      assert forall i :: 0 <= i < n ==> clone[i] == front[i] && members[..n][i] == members[i] && results[..n][i] == results[i];
    }
  }

  /** A successful key loop asks for a copy exactly when some slot was replaced. */
  lemma {:induction false} SettleMembersCopies(members: seq<Member>, results: seq<Change>)
    requires |results| == |members| && SettleMembers(members, results).Ok?
    ensures SettleMembers(members, results).value.1 <==> exists i :: 0 <= i < |members| && results[i].Replaced?
    decreases |members|
  {
    if members != [] {
      var n := |members| - 1;
      SettleMembersCopies(members[..n], results[..n]);
      assert forall i :: 0 <= i < n ==> results[..n][i] == results[i];
    }
  }

  /** A failed key loop throws the error of the first failing slot. */
  lemma {:induction false} SettleMembersFirstError(members: seq<Member>, results: seq<Change>)
    requires |results| == |members| && SettleMembers(members, results).Err?
    ensures exists i :: 0 <= i < |members| && results[i] == Failed(SettleMembers(members, results).error) &&
                        forall j :: 0 <= j < i ==> !results[j].Failed?
    decreases |members|
  {
    var n := |members| - 1;
    var front := SettleMembers(members[..n], results[..n]);
    assert forall i :: 0 <= i < n ==> results[..n][i] == results[i];
    if front.Err? {
      SettleMembersFirstError(members[..n], results[..n]);
    } else {
      SettleMembersSlots(members[..n], results[..n]);
      assert results[n] == Failed(SettleMembers(members, results).error);
    }
  }

  /** The key loop completes when no slot failed. */
  lemma {:induction false} SettleMembersOk(members: seq<Member>, results: seq<Change>)
    requires |results| == |members| && forall i :: 0 <= i < |results| ==> !results[i].Failed?
    ensures SettleMembers(members, results).Ok?
    decreases |members|
  {
    if members != [] {
      var n := |members| - 1;
      assert forall i :: 0 <= i < n ==> results[..n][i] == results[i];
      SettleMembersOk(members[..n], results[..n]);
    }
  }
}
