/**
 * What resolveURI promises: when it fails, which groups of the result come
 * from the reference and which from the base, and that the text it builds
 * parses back into exactly those groups.
 */
module ResolveProperties {
  import opened Json
  import opened Strings
  import opened Uri
  import opened MergeProperties

  /** A text made of a scheme, a colon and anything else starts with a scheme. */
  lemma {:induction false} HasSchemeOf(s: string, scheme: string, rest: string)
    requires scheme != [] && Avoids(scheme, SchemeStops) && s == scheme + ":" + rest
    ensures HasScheme(s)
  {
    assert s == scheme + (":" + rest);
    SpanUnique(scheme, ":" + rest, SchemeStops);
    assert s[|scheme|] == ':';
  }

  /** A match has a scheme exactly when its text starts with one; a matched scheme is never empty. */
  lemma {:induction false} SchemeIffHasScheme(m: UriMatch)
    requires ValidMatch(m)
    ensures Truthy(m.scheme) <==> HasScheme(Unsplit(m))
  {
    if m.scheme.Some? {
      var a := AuthorityText(m.authority);
      var q := QueryText(m.query);
      var f := FragmentText(m.fragment);
      Concat5(m.scheme.value + ":", a, m.path, q, f);
      HasSchemeOf(Unsplit(m), m.scheme.value, a + (m.path + (q + f)));
    }
  }

  /**
   * resolveURI throws exactly when the reference fails RE_URI, or when it has
   * no scheme and the base fails RE_URI (uri.mjs:111-115, 125-129); RE_URI
   * fails exactly on a line terminator after the first `#`.
   */
  lemma {:induction false} ResolveFails(uri: string, base: string)
    ensures Resolve(uri, base).Err? <==> BrokenFragment(uri) || (!HasScheme(uri) && BrokenFragment(base))
    ensures Resolve(uri, base).Err? ==> Resolve(uri, base).error == InvalidUri
  {
    if MatchUri(uri).Some? {
      SchemeIffHasScheme(MatchUri(uri).value);
    }
  }

  /** A reference with a scheme ignores the base completely (uri.mjs:119-122). */
  lemma {:induction false} ResolveAbsoluteIgnoresBase(uri: string, base: string, other: string)
    requires HasScheme(uri)
    ensures Resolve(uri, base) == Resolve(uri, other)
  {
    if MatchUri(uri).Some? {
      SchemeIffHasScheme(MatchUri(uri).value);
    }
  }

  /** The group an index of the match array names (uri.mjs:2-6). */
  function Part(m: UriMatch, i: int): Option<string> {
    if i == 1 then m.scheme
    else if i == 2 then m.authority
    else if i == 3 then Some(m.path)
    else if i == 4 then m.query
    else m.fragment
  }

  /** The reference supplies group `i`: it is non-empty (a path counts even without the test for presence). */
  predicate Supplies(ref: UriMatch, i: int) {
    if i == 3 then ref.path != [] else 2 <= i <= 5 && Truthy(Part(ref, i))
  }

  /** Some group from the authority up to `i` is supplied by the reference. */
  predicate SuppliedBy(ref: UriMatch, i: int) {
    exists j :: 2 <= j <= i && Supplies(ref, j)
  }

  /**
   * The transformation of a schemeless reference: the scheme always comes from
   * the base; the authority, the query and the fragment come from the base
   * until the first group the reference supplies, and from the reference after
   * it; the path is the reference's own when its authority is supplied and is
   * merged with the base's otherwise (uri.mjs:131-151).
   */
  lemma {:induction false} TargetProvenance(ref: UriMatch, b: UriMatch)
    ensures Target(ref, b).scheme == b.scheme
    ensures forall i :: 2 <= i <= 5 && i != 3 ==>
              Part(Target(ref, b), i) == if SuppliedBy(ref, i) then Part(ref, i) else Part(b, i)
    ensures Target(ref, b).path == if Truthy(ref.authority) then ref.path else Merge(ref.path, b.path)
  {
    forall i | 2 <= i <= 5 && i != 3
      ensures Part(Target(ref, b), i) == if SuppliedBy(ref, i) then Part(ref, i) else Part(b, i)
    {
      if SuppliedBy(ref, i) {
        var j :| 2 <= j <= i && Supplies(ref, j);
        assert Supplies(ref, j);
      } else {
        assert !Supplies(ref, 2) && (3 <= i ==> !Supplies(ref, 3)) && (4 <= i ==> !Supplies(ref, 4));
        assert 5 <= i ==> !Supplies(ref, 5);
      }
    }
  }

  /**
   * The groups the recomposed text parses into: empty groups become absent, and
   * a path after an authority gains its separating slash.
   */
  function Canon(m: UriMatch): UriMatch {
    UriMatch(
      if Truthy(m.scheme) then m.scheme else None,
      if Truthy(m.authority) then m.authority else None,
      if Truthy(m.authority) && m.path != [] && m.path[0] != '/' then "/" + m.path else m.path,
      if Truthy(m.query) then m.query else None,
      if Truthy(m.fragment) then m.fragment else None)
  }

  lemma {:induction false} RecomposeUnsplit(m: UriMatch)
    ensures Recompose(m) == Unsplit(Canon(m))
  {
    var c := Canon(m);
    var head := SchemeText(c.scheme) + AuthorityText(c.authority);
    if Truthy(m.authority) && m.path != [] && m.path[0] != '/' {
      assert head + "/" + m.path == head + ("/" + m.path);
    }
  }

  /** Groups that RE_URI could have produced, apart from the empty ones. */
  predicate Recomposable(m: UriMatch) {
    && Truthy(m.scheme) && Avoids(m.scheme.value, SchemeStops)
    && (Truthy(m.authority) ==> Avoids(m.authority.value, AuthorityStops))
    && (!Truthy(m.authority) ==> !StartsWithTwoSlashes(m.path))
    && Avoids(m.path, PathStops)
    && (m.query.Some? ==> Avoids(m.query.value, QueryStops))
    && (m.fragment.Some? ==> NoLineTerminator(m.fragment.value))
  }

  /** The text resolveURI builds parses back into its groups (section 5.3 of RFC 3986). */
  lemma {:induction false} RecomposeParse(m: UriMatch)
    requires Recomposable(m)
    ensures MatchUri(Recompose(m)) == Some(Canon(m))
  {
    RecomposeUnsplit(m);
    var c := Canon(m);
    if Truthy(m.authority) && m.path != [] && m.path[0] != '/' {
      assert Avoids("/" + m.path, PathStops);
    }
    assert ValidMatch(c);
    MatchExact(c);
  }

  /** A matched path merged with a matched base path is a path RE_URI accepts again. */
  lemma {:induction false} MergedPath(path: string, base: string)
    requires Avoids(path, PathStops) && Avoids(base, PathStops)
    ensures Avoids(Merge(path, base), PathStops) && !StartsWithTwoSlashes(Merge(path, base))
  {
    MergeAvoids(path, base, PathStops);
    MergeNoLeadingSlash(path, base);
  }

  /**
   * A reference with a scheme resolves to a text whose scheme, authority,
   * query and fragment are the reference's own and whose path is the
   * reference's path merged (uri.mjs:119-122).
   */
  lemma {:induction false} ResolveAbsoluteParts(uri: string, base: string)
    requires MatchUri(uri).Some? && Truthy(MatchUri(uri).value.scheme)
    ensures Resolve(uri, base).Ok?
    ensures var ref := MatchUri(uri).value;
            MatchUri(Resolve(uri, base).value) == Some(Canon(ref.(path := Merge(ref.path, []))))
  {
    var ref := MatchUri(uri).value;
    ResolveAbsolute(uri, base, ref);
    MergedPath(ref.path, []);
    RecomposeParse(ref.(path := Merge(ref.path, [])));
  }

  /** The transformed groups of two matches, the base with a scheme, can be recomposed. */
  lemma {:induction false} TargetRecomposable(ref: UriMatch, b: UriMatch)
    requires ValidMatch(ref) && ValidMatch(b) && Truthy(b.scheme)
    ensures Recomposable(Target(ref, b))
  {
    MergedPath(ref.path, b.path);
  }

  /**
   * A reference without a scheme, against a base with one, resolves to a text
   * that parses into the transformed groups (uri.mjs:131-187).
   */
  lemma {:induction false} ResolveRelativeParts(uri: string, base: string, ref: UriMatch, b: UriMatch)
    requires MatchUri(uri) == Some(ref) && !Truthy(ref.scheme)
    requires MatchUri(base) == Some(b) && Truthy(b.scheme)
    ensures Resolve(uri, base).Ok?
    ensures MatchUri(Resolve(uri, base).value) == Some(Canon(Target(ref, b)))
  {
    ResolveRelative(uri, base, ref, b);
    TargetRecomposable(ref, b);
    RecomposeParse(Target(ref, b));
  }

  /**
   * Recomposed groups with a scheme whose path merge leaves as it is are
   * resolved to the same text again, against any base. The slash the
   * recomposition puts after an authority is dropped again by merge.
   */
  lemma {:induction false} RecomposeStable(m: UriMatch, other: string)
    requires Recomposable(m) && Merge(m.path, []) == m.path
    ensures Resolve(Recompose(m), other) == Ok(Recompose(m))
  {
    RecomposeParse(m);
    var c := Canon(m);
    ResolveAbsolute(Recompose(m), other, c);
    if c.path != m.path {
      MergeRootAgain(m.path);
    }
    RecomposeCanon(m, m.path);
  }

  /** The canonical groups recompose to the same text, with the path as it is or with its authority slash. */
  lemma RecomposeCanon(m: UriMatch, p: string)
    requires p == m.path || (Truthy(m.authority) && m.path != [] && m.path[0] != '/' && p == "/" + m.path)
    ensures Recompose(Canon(m).(path := p)) == Recompose(m)
  {
  }

  /**
   * resolveURI is idempotent on the results of a reference with a scheme,
   * unless merge leaves the lone "/" (uri.mjs:119-122, 154-187).
   */
  lemma {:induction false} ResolveAbsoluteIdempotent(uri: string, base: string, other: string)
    requires MatchUri(uri).Some? && Truthy(MatchUri(uri).value.scheme)
    requires Merge(MatchUri(uri).value.path, []) != "/"
    ensures Resolve(uri, base).Ok?
    ensures Resolve(Resolve(uri, base).value, other) == Resolve(uri, base)
  {
    var ref := MatchUri(uri).value;
    ResolveAbsolute(uri, base, ref);
    MergedPath(ref.path, []);
    MergeIdempotent(ref.path, []);
    RecomposeStable(ref.(path := Merge(ref.path, [])), other);
  }

  /**
   * resolveURI is idempotent on the results of a reference without a scheme
   * or an authority against a base with a scheme, unless merge leaves the
   * lone "/" (uri.mjs:131-187).
   */
  lemma {:induction false} ResolveRelativeIdempotent(uri: string, base: string, other: string, ref: UriMatch, b: UriMatch)
    requires MatchUri(uri) == Some(ref) && !Truthy(ref.scheme) && !Truthy(ref.authority)
    requires MatchUri(base) == Some(b) && Truthy(b.scheme) && Merge(ref.path, b.path) != "/"
    ensures Resolve(uri, base).Ok?
    ensures Resolve(Resolve(uri, base).value, other) == Resolve(uri, base)
  {
    ResolveRelative(uri, base, ref, b);
    TargetRecomposable(ref, b);
    MergeIdempotent(ref.path, b.path);
    RecomposeStable(Target(ref, b), other);
  }
}
