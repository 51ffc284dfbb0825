# json-resolve in Dafny

A model of the core of `json-resolve`. This JavaScript library replaces every
`$ref` node of a JSON-shaped document by the node it refers to. A reference is
a URI, optionally followed by a JSON Pointer fragment (`#/a/0`) or a plain
anchor (`#foo`). It is resolved against the base URI set by the nearest
enclosing `$id`. The library has three parts, and the model follows them:

- **`uri.mjs`** (module `Uri`). `RE_URI` splits a URI into its five groups.
  `merge` removes dot segments from a reference path merged with a base path.
  `resolveURI` performs the group transformation of section 5.2.2 of RFC 3986
  and recomposes the text. `splitFragment` cuts at the first `#`.
- **`pointers.mjs`** (module `Pointers`). `decode` undoes the escapes of a
  reference token (`~0`, `~1`, `%XY`, `+`) and turns an all-digit token into a
  number. `unrefPtr` walks a JSON Pointer. `unrefId` is a depth-first search
  for the first node whose `$id` equals an anchor.
- **`Resolver.mjs`** and **`index.mjs`** (module `Resolver`). `removeFragment`
  is modelled, as is the class `Resolver`, whose `#store` maps a normalised
  URI to a document:
  - `add` registers a root and all nested `$id` sub-documents;
  - `delete` removes a key;
  - `get` looks up a URI and follows its fragment;
  - `resolve` walks a document and copies only the containers on the way to a
    replaced `$ref`.

  `index.mjs`'s `resolve` is a resolver with an empty store.

The loops of the source are Dafny methods over the same state: the `do…while`
passes of `merge`, the `for` loop with `break` over the match array, the
`decode` and `unrefPtr` scans, and the clone-filling loops of `#resolveRefs`.
Each method is proved equal to a recursive specification function (`Merge`,
`Resolve`, `Decode`, `Pointer`, `Refs`, …). The properties the library relies
on are lemmas about those functions. Examples:

- `decode` undoes escaping;
- pointers compose;
- `unrefId` returns the first pre-order match;
- `merge` is idempotent (except that `/` merges to the empty path) and leaves
  no dot segment;
- `resolveURI` is idempotent on the result of a reference with a scheme, or of
  one with neither scheme nor authority against a base with a scheme, except
  where `merge` leaves the lone `/`; a reference with an authority keeps its
  dot segments (see "## Findings");
- the recomposed URI parses back into its groups;
- `add` registers exactly the scanned entries and is idempotent;
- `delete` after `add` removes exactly the key;
- `get` finds what `add` stored;
- a document without `$ref` is returned unchanged.

A JSON value is the datatype `Json.Value`. Objects are ordered member
sequences, in the order `for…in` enumerates them. A thrown error is
`Err(e)`, `Fail(e)` or `Failed(e)`, with one `Json.Error` kind per error
message. The two `URIError` sites in `src/uri.mjs` are both InvalidUri, and the
two `throw` sites in `src/Resolver.mjs` that share one text are both
UnexpectedFragment.

In three places the code does something other than what its own comments or
RFC 3986 say, and the model follows the code:

- **Relative root URIs are resolved, not rejected.** The comments at
  `src/Resolver.mjs:38-39` and `src/Resolver.mjs:119-120` say that calling
  `resolveURI` without a base throws for a relative URI. It does not.
  `resolveURI(uri)` calls `RE_URI.exec(undefined)`, which matches the text
  `"undefined"`. A relative root URI is therefore resolved against the path
  `undefined` and accepted. For example, `constants.json` stays
  `constants.json` (`ResolverExamples.ConstantsKey`), which the cross-document
  test at `test/base.test.mjs:42-77` relies on. The model passes the base
  `Resolver.NoBase == "undefined"`.
- **`resolve` without an identity does not throw.** The comment at
  `src/index.mjs:6` says the uri may be left out when `$id` is set. When there
  is neither, the code walks the document with the empty base
  (`src/Resolver.mjs:123-126`).
- **`merge` drops the root slash.** `merge` never keeps a leading `/`:
  `merge("/g")` is `g`. Section 5.2.4 of RFC 3986 keeps it. After a non-empty
  authority, the recomposition puts a slash back (`src/uri.mjs:160-167`).
  Without an authority the slash is lost for good: `file:/x` becomes `file:x`.
  A `merge` result starts with `/` only when it is exactly `/`
  (`MergeProperties.MergeNoLeadingSlash`), and `merge("/")` is empty, so
  `http://a/` becomes `http://a`. See "## Findings".

These quirks are modelled as written too:

- `removeFragment` uses `lastIndexOf`, so `a#b#` passes as the key `a#b`.
- A numeric pointer token on an object looks up `String(Number(token))`, so
  `/01` reads the key `1`.
- A reference with an authority keeps its path without removing dot
  segments: `//g/./x` resolves to `http://g/./x`. See "## Findings".

The module `Resolver` keeps the as-written resolution `Uri.Resolve`, so that
`add`, `get` and `resolve` are modelled as the code behaves. The corrected
definition is `RootedUri.ResolveRooted`, and the missing properties are proved
about it. `RootedUri.ResolveRootedAgrees` shows that the two give the same text
wherever an authority precedes a non-empty merged path.

## Model

| member | source | states |
|---|---|---|
| Json.Lookup | src/pointers.mjs:107-115 | the lookup finds a value exactly when some member has the key, and the value is that of the first member with the key |
| Json.IdOf | src/Resolver.mjs:21 | an identity is reported exactly when the value is an object whose `$id` member is a string, and it is that string |
| Json.RefOf | src/Resolver.mjs:184 | a reference is reported exactly when the value is an object whose `$ref` member is a non-empty string, and it is that string |
| Strings.SplitPieces | src/uri.mjs:66 | no piece of a split contains a slash |
| Strings.JoinSplit | src/uri.mjs:94 | joining the pieces of a split with `/` gives back the text |
| Strings.SplitJoin | src/uri.mjs:94 | splitting joined slash-free segments gives back the segments |
| Strings.SplitNoSlash | src/uri.mjs:66 | text without a slash is a single piece |
| Strings.SplitSlash | src/uri.mjs:66 | a slash closes the pieces on its left and opens a new one |
| Strings.SplitGrow | src/uri.mjs:66-88 | reading one more character either closes the open piece at a slash or extends it |
| Strings.SplitGrowFrom | src/pointers.mjs:100-119 | the same one-character step for the text after the pointer's first character |
| Strings.SplitConcat | src/pointers.mjs:100-120 | splitting at one slash splits each side separately |
| Strings.JoinPrefix | src/uri.mjs:94 | the joined text starts with the first piece |
| Strings.JoinSnoc | src/uri.mjs:94 | joining one more piece appends a slash and the piece |
| Uri.SchemeGroup | src/uri.mjs:1 | `(?:([^:/?#]+):)?` takes a non-empty scheme and its colon exactly when the text starts with one; text is neither lost nor added |
| Uri.AuthorityGroup | src/uri.mjs:1 | `(?:\/\/([^/?#]*))?` takes an authority exactly when the text starts with `//`, and stops at the first of `/?#` |
| Uri.PathGroup | src/uri.mjs:1 | `([^?#]*)` takes the longest prefix without `?` or `#` |
| Uri.QueryGroup | src/uri.mjs:1 | `(?:\?([^#]*))?` takes a query exactly when the rest starts with `?`, and stops at `#` |
| Uri.FirstHash | src/uri.mjs:198 | the index of the first `#`, or the length when there is none |
| Uri.MatchUri | src/uri.mjs:1 | a match covers the text and satisfies every group's character class and greediness; there is no match exactly when a line terminator follows the first `#` |
| Uri.MatchUriFacts | src/uri.mjs:1 | the groups taken one after another cover the text, and fail only on a line break in the fragment |
| Uri.FragmentBroken | src/uri.mjs:1 | `(?:#(.*))?$` fails exactly when the text after the first `#` has a line terminator |
| Uri.SchemeGroupOf | src/uri.mjs:1 | the scheme group reads back exactly a valid scheme and its colon |
| Uri.AuthorityGroupOf | src/uri.mjs:1 | the authority group reads back exactly `//` and a valid authority |
| Uri.QueryGroupOf | src/uri.mjs:1 | the query group reads back exactly `?` and a valid query |
| Uri.MatchExact | src/uri.mjs:1 | the greedy match is the only valid split: any groups that satisfy the match conditions are the groups RE_URI returns for their text |
| Uri.ExactScheme | src/uri.mjs:1 | the scheme group of a valid split's text is its scheme |
| Uri.ExactAuthority | src/uri.mjs:1 | the authority group of a valid split's text after the scheme is its authority |
| Uri.BaseStartOf | src/uri.mjs:26-60 | the stack the base pass leaves, in terms of the closed pieces and the open one |
| Uri.MergePaths | src/uri.mjs:16-101 | the two `do…while` passes and the join compute `Merge` |
| Uri.MergeBasePass | src/uri.mjs:26-60 | the base pass leaves the base's slash-terminated segments on the stack, and its last segment too for an empty path |
| Uri.BaseRound | src/uri.mjs:31-55 | one round of the base pass keeps the loop state, and the last round leaves the final stack |
| Uri.BaseInside | src/uri.mjs:32-53 | a round at a character of the base sets `char` to it, and only a slash closes the open piece |
| Uri.BaseAtEnd | src/uri.mjs:32-53 | the round at the end closes the open piece only for an empty path; the stack is then the final one |
| Uri.BaseSlash | src/uri.mjs:32-52 | a slash applies the open piece unless it is empty, then opens a new piece |
| Uri.BaseChar | src/uri.mjs:32 | any other character extends the open piece |
| Uri.BaseEnd | src/uri.mjs:32-50 | at the end, the open piece is applied for an empty path unless it is empty, except after a final `/` |
| Uri.MergePathPass | src/uri.mjs:62-91 | the path pass steps every slash-terminated piece, then finishes with the last piece |
| Uri.PathRound | src/uri.mjs:66-89 | one round of the path pass keeps the loop state, and the last round leaves the final state |
| Uri.ApplySegment | src/uri.mjs:37-49 | `..` pops, `.` is dropped, anything else is pushed |
| Uri.StepSegment | src/uri.mjs:71-85 | as ApplySegment, and a dot segment asks for a closing slash (the `..` case falls through to `.`) |
| Uri.ResolveUri | src/uri.mjs:109-188 | the method over the match array computes `Resolve`: InvalidUri when a text fails RE_URI, otherwise the recomposed transformed groups |
| Uri.ResolveAbsolute | src/uri.mjs:119-122 | a reference with a scheme only has its path merged with an empty base |
| Uri.ResolveBadBase | src/uri.mjs:125-129 | a schemeless reference with a base that does not match throws InvalidUri |
| Uri.ResolveRelative | src/uri.mjs:131-151 | a schemeless reference with a matching base is recomposed from the transformed groups |
| Uri.NewGroups | src/uri.mjs:111 | the match array holds the whole text, then the five groups |
| Uri.NormalisePath | src/uri.mjs:121 | only the path group changes, to the merged path |
| Uri.TransformGroups | src/uri.mjs:131-151 | the loop with `break` leaves exactly the groups of `Target` |
| Uri.GroupFromBase | src/uri.mjs:143-150 | an empty reference group is replaced by the base's, and the loop goes on |
| Uri.PathFromBase | src/uri.mjs:135-142 | an empty path is merged with the base's path, and the loop goes on |
| Uri.TargetAtPath | src/uri.mjs:135-142 | a non-empty path is merged with the base's path and ends the loop with the groups of `Target` |
| Uri.TargetAtGroup | src/uri.mjs:145-148 | a group the reference supplies ends the loop, keeping the reference's remaining groups |
| Uri.TargetAllBase | src/uri.mjs:131-151 | a reference with every group empty takes all of the base's groups |
| Uri.RecomposeGroups | src/uri.mjs:154-187 | the `+=` sequence builds `Recompose`: empty groups are left out, and a `/` separates an authority from a path that does not start with one |
| Uri.SplitFragment | src/uri.mjs:196-200 | the first part has no `#`; with no `#` the text is returned whole with an empty fragment; otherwise text = first + `#` + second |
| MergeProperties.StepsPush | src/uri.mjs:62-91 | stepping over clean segments pushes them all, in order |
| MergeProperties.BaseStartShape | src/uri.mjs:26-60 | the base pass leaves clean segments, with at most one empty last segment, and only for an empty path |
| MergeProperties.FinishShape | src/uri.mjs:62-91 | the last reference piece keeps the stack in normal form |
| MergeProperties.MergeStateShape | src/uri.mjs:16-91 | the segments merge ends with are in normal form |
| MergeProperties.MergeForm | src/uri.mjs:16-101 | the merged path is clean segments joined by `/`, with or without one closing slash, and splitting it gives the segments back |
| MergeProperties.MergeDotFree | src/uri.mjs:37-85 | no piece of a merged path is `.` or `..` |
| MergeProperties.MergeNoLeadingSlash | src/uri.mjs:16-101 | a merged path starts with `/` only when it is exactly `/` |
| MergeProperties.MergeAvoids | src/uri.mjs:16-101 | merge introduces no character other than `/` that neither input contains |
| MergeProperties.FinishSlash | src/uri.mjs:68-98 | the last reference piece decides the closing slash |
| MergeProperties.MergeClosingSlash | src/uri.mjs:68-98 | a reference path ending in `/`, `.` or `..` gives a path closed by a slash; any other last piece gives one that is not |
| MergeProperties.MergeBaseUse | src/uri.mjs:26-32 | with a non-empty reference path the base's last piece is never read, and a path starting with `/` ignores the base |
| MergeProperties.MergeEmptyPath | src/uri.mjs:32 | an empty reference path keeps the base's last segment, as if that segment were given again |
| MergeProperties.RemergeSlash | src/uri.mjs:16-101 | a normal-form path with a closing slash merges to itself |
| MergeProperties.RemergePlain | src/uri.mjs:16-101 | a normal-form path without a closing slash merges to itself |
| MergeProperties.MergeIdempotent | src/uri.mjs:16-101 | merging a merged path again, without a base, changes nothing (except the lone `/`) |
| MergeProperties.StepsSkipEmpty | src/uri.mjs:66-68 | an empty piece in front of the path pieces changes nothing in the path pass |
| MergeProperties.MergeRootAgain | src/uri.mjs:26-68 | merging `/` and a text that does not start with one, without a base, merges the text alone: the root slash is dropped |
| MergeProperties.MergeSlashAlone | src/uri.mjs:66-94 | the lone `/` merges to the empty path |
| ResolveProperties.HasSchemeOf | src/uri.mjs:1 | a scheme, a colon and anything else is parsed as having a scheme |
| ResolveProperties.SchemeIffHasScheme | src/uri.mjs:119 | a match has a non-empty scheme exactly when its text starts with one |
| ResolveProperties.ResolveFails | src/uri.mjs:111-129 | resolveURI throws InvalidUri exactly when the reference fails RE_URI, or when it has no scheme and the base fails |
| ResolveProperties.ResolveAbsoluteIgnoresBase | src/uri.mjs:119-122 | a reference with a scheme resolves the same against every base |
| ResolveProperties.TargetProvenance | src/uri.mjs:131-151 | the scheme is always the base's; authority, query and fragment come from the base until the first group the reference supplies, and from the reference afterwards; the path is the reference's own after an authority and is merged otherwise |
| ResolveProperties.RecomposeUnsplit | src/uri.mjs:154-187 | the recomposed text is the canonical groups with their delimiters |
| ResolveProperties.RecomposeParse | src/uri.mjs:154-187 | the recomposed text parses back into the canonical groups |
| ResolveProperties.MergedPath | src/uri.mjs:16-101 | merging two matched paths gives a path RE_URI accepts again |
| ResolveProperties.ResolveAbsoluteParts | src/uri.mjs:119-187 | a reference with a scheme resolves to a text whose groups are its own, with the path merged |
| ResolveProperties.TargetRecomposable | src/uri.mjs:131-151 | transforming two matches against a base with a scheme yields groups that can be recomposed |
| ResolveProperties.ResolveRelativeParts | src/uri.mjs:131-187 | a schemeless reference against a base with a scheme resolves to a text that parses into the transformed groups |
| ResolveProperties.RecomposeStable | src/uri.mjs:119-187 | recomposed groups with a scheme whose path merge keeps resolve to the same text again, against any base |
| ResolveProperties.ResolveAbsoluteIdempotent | src/uri.mjs:119-187 | resolving the result of a reference with a scheme again gives the same result, unless merge leaves the lone `/` |
| ResolveProperties.ResolveRelativeIdempotent | src/uri.mjs:131-187 | resolving the result of a reference without scheme or authority, against a base with a scheme, again gives the same result, unless merge leaves the lone `/` |
| ResolveExamples.NoScheme | src/uri.mjs:1 | text whose first scheme stop is not a colon has no scheme |
| ResolveExamples.NoStops | src/uri.mjs:1 | text without a scheme stop has no scheme |
| ResolveExamples.MatchBase | test/uri.test.mjs:6 | the test base `http://a/b/c/d;p?q` parses into scheme `http`, authority `a`, path `/b/c/d;p` and query `q` |
| ResolveExamples.RefMatch | src/uri.mjs:1 | a schemeless path with an optional query and fragment is a valid match of its text |
| ResolveExamples.Relative | src/uri.mjs:131-187 | for a schemeless example, its groups, its transformation and its text give the expected result |
| ResolveExamples.Absolute | src/uri.mjs:119-122 | for an example with a scheme, its groups and its merged text give the expected result |
| ResolveExamples.BaseKept | src/uri.mjs:26-60 | the test base's pass keeps `b/c` for a non-empty path, and `b/c/d;p` for an empty one |
| ResolveExamples.MergeSegment | test/uri.test.mjs:10 | `g` merged with `/b/c/d;p` is `b/c/g` |
| ResolveExamples.MergeEmpty | test/uri.test.mjs:23 | the empty path merged with `/b/c/d;p` is `b/c/d;p` |
| ResolveExamples.MergeAboveRoot | test/uri.test.mjs:33 | `../../../../g` merged with `/b/c/d;p` is `g` |
| ResolveExamples.ExampleSegment | test/uri.test.mjs:10 | `g` resolves to `http://a/b/c/g` |
| ResolveExamples.ExampleAboveRoot | test/uri.test.mjs:33 | `../../../../g` resolves to `http://a/g` |
| ResolveExamples.ExampleEmpty | test/uri.test.mjs:23 | the empty reference resolves to `http://a/b/c/d;p?q` |
| ResolveExamples.ExampleQuery | test/uri.test.mjs:15 | `?y` resolves to `http://a/b/c/d;p?y` |
| ResolveExamples.ExampleFragment | test/uri.test.mjs:17 | `#s` resolves to `http://a/b/c/d;p?q#s` |
| ResolveExamples.ExampleNetworkPath | test/uri.test.mjs:14 | `//g` resolves to `http://g` |
| ResolveExamples.QueryRef | src/uri.mjs:1 | a one-character path followed by a query is a schemeless match |
| ResolveExamples.ExampleQueryDots | test/uri.test.mjs:47 | `g?y/../x` resolves to `http://a/b/c/g?y/../x`: dot segments in a query are kept |
| ResolveExamples.MergePlain | test/uri.test.mjs:9-50 | the one-segment paths `h` of `g:h` and `g` of `http:g` merge to themselves without a base |
| ResolveExamples.RecomposeScheme | src/uri.mjs:154-171 | a scheme and a path alone recompose to scheme, colon and path |
| ResolveExamples.ExampleScheme | test/uri.test.mjs:9 | `g:h` resolves to itself |
| ResolveExamples.ExampleStrict | test/uri.test.mjs:50 | `http:g` resolves to itself: a reference with the base's own scheme is still absolute (the strict reading) |
| ResolveExamples.MergeToRoot | test/uri.test.mjs:29 | `../..` merged with `/b/c/d;p` is `/`: two `..` climb to the root |
| ResolveExamples.ExampleRoot | test/uri.test.mjs:29 | `../..` resolves to `http://a/` |
| RootedUri.RootedMergeShape | src/uri.mjs:16-101 | the corrected merge starts with `/` exactly when its inputs are rooted or merge leaves `/`, and is merge's result with or without one slash in front |
| RootedUri.RootedMergeAgain | src/uri.mjs:16-101 | the corrected merge is its own corrected merge without a base, and so is the text with the authority slash in front |
| RootedUri.RootedMergePath | src/uri.mjs:16-101 | the corrected merge of two matched paths is a path RE_URI accepts again |
| RootedUri.RecomposeRootedStable | src/uri.mjs:119-187 | recomposed groups whose path is a corrected merge resolve to the same text again, with the correction |
| RootedUri.ResolveRootedIdempotent | src/uri.mjs:109-188 | the corrected resolution is idempotent on every result with a scheme, including a lone root path |
| RootedUri.RootedTargetRecomposable | src/uri.mjs:131-151 | the corrected transformation of two matches, against a base with a scheme, can be recomposed |
| RootedUri.RecomposeAfterAuthority | src/uri.mjs:160-171 | after a non-empty authority, the corrected path and the as-written path recompose to the same text |
| RootedUri.ResolveRootedAgrees | src/uri.mjs:119-187 | the corrected and the as-written resolution give the same text for a reference with a scheme and an authority, and for one with neither against a base with an authority, when the merged path is non-empty |
| RootedUri.SlashLost | src/uri.mjs:119-171 | as written, `http://a/` resolves to `http://a` against any base |
| RootedUri.RootNotStable | src/uri.mjs:109-188 | as written, `../..` resolves to `http://a/`, and resolving that again gives something else |
| RootedUri.SlashKept | src/uri.mjs:119-171 | corrected, `http://a/` resolves to itself against any base |
| RootedUri.RootedExampleRoot | test/uri.test.mjs:29 | corrected, `../..` still resolves to `http://a/` |
| RootedUri.RootLost | src/uri.mjs:119-171 | as written, `file:/x` resolves to `file:x` against any base: without an authority the root slash is lost |
| RootedUri.RootKept | src/uri.mjs:119-171 | corrected, `file:/x` resolves to itself against any base |
| RootedUri.DotsKept | src/uri.mjs:131-151 | as written, `//g/./x` resolves to `http://g/./x`, and only a second resolution gives `http://g/x` |
| RootedUri.DotsRemoved | src/uri.mjs:131-151 | corrected, `//g/./x` resolves to `http://g/x` at once |
| Pointers.Hex | src/pointers.mjs:8-26 | a digit of either case has a value below 16, and any other character throws |
| Pointers.HexRoundTrip | src/pointers.mjs:8-26 | hex reads back the value of the lower- and upper-case spelling of a digit |
| Pointers.UnescapeFrom | src/pointers.mjs:46-86 | the decoded text is never longer than the raw text, and the only errors are the tilde, percent and hex ones |
| Pointers.Unescape | src/pointers.mjs:33-89 | the decoded token is never longer than the raw token |
| Pointers.NumberText | src/pointers.mjs:115 | `String(n)` is non-empty and all digits |
| Pointers.DecodeToken | src/pointers.mjs:33-89 | the loop with `anchor`, `offset` and `push` computes `Decode` |
| Pointers.Push | src/pointers.mjs:36-39 | `push` appends the raw text since `anchor`, then the decoded sequence |
| Pointers.DigitsStep | src/pointers.mjs:79 | `isNumeric` stays true exactly while every raw character read is a digit |
| Pointers.PendingDone | src/pointers.mjs:83-86 | at the end, the pending raw text completes the decoding |
| Pointers.EscapeFails | src/pointers.mjs:49-69 | a malformed escape makes the whole token fail with its error |
| Pointers.EscapeAdvance | src/pointers.mjs:49-77 | an escape copies the pending text and the decoded character, then skips past the escape |
| Pointers.PlainAdvance | src/pointers.mjs:46-81 | any other character joins the pending raw text |
| Pointers.UnescapeDigits | src/pointers.mjs:46-86 | a text of digits has no escape to undo |
| Pointers.FromAppend | src/pointers.mjs:58-71 | decoded text is never scanned again: once a front part decodes completely, the rest decodes separately |
| Pointers.UnescapeAppend | src/pointers.mjs:58-71 | a completely decoded front part is followed by the decoding of the rest |
| Pointers.NoRescan | src/pointers.mjs:49-71 | `~01` and `%7E1` both decode to `~1` |
| Pointers.UnescapeErrors | src/pointers.mjs:49-69 | after correctly escaped text, each of these throws its error: `~` at the end, `~` before anything but `0`/`1`, `%` with fewer than two following characters, `%` before a non-hex character |
| Pointers.UnescapeEscape | src/pointers.mjs:46-86 | decoding undoes escaping, so every key can be written as a pointer token |
| Pointers.EscapeDigits | src/pointers.mjs:79 | the escaped form of a key is all digits exactly when the key is |
| Pointers.DecodeNumber | src/pointers.mjs:79-88 | decode returns a number exactly when every raw character is a digit, that number is the token's decimal value, and otherwise the result is the unescaped key |
| Pointers.EncodedDigit | src/pointers.mjs:62-79 | a percent-encoded digit is not a raw digit: `%31` is the key `1` |
| Pointers.NumberTextValue | src/pointers.mjs:115 | the decimal value of `String(n)` is `n` |
| Pointers.Descend | src/pointers.mjs:107-115 | a step succeeds exactly on an array with an index below its length, or an object with an own key named by the token; it yields that item or member, and otherwise throws PointerNotFound |
| Pointers.UnrefPtr | src/pointers.mjs:91-123 | the scan with `anchor` and `index` computes `Pointer`: the pieces after the first character are walked in order, skipping empty ones |
| Pointers.PointerStart | src/pointers.mjs:93-97 | the scan starts after the first character at the root |
| Pointers.FollowToken | src/pointers.mjs:104-116 | a non-empty token is decoded and descended into |
| Pointers.WalkSnoc | src/pointers.mjs:100-120 | walking one more piece follows it from where the walk stood |
| Pointers.WalkFailed | src/pointers.mjs:113 | a failed walk stays failed whatever pieces follow |
| Pointers.PointerStops | src/pointers.mjs:102-114 | a token that fails ends the whole walk with its error |
| Pointers.PointerClose | src/pointers.mjs:102-118 | a token that can be followed moves the walk on, and at the end of the pointer its node is the answer |
| Pointers.PointerOpen | src/pointers.mjs:119 | any other character extends the current token |
| Pointers.ClosePiece | src/pointers.mjs:102-118 | a slash or the end closes the current token |
| Pointers.OpenPiece | src/pointers.mjs:119 | a non-slash character extends the current token |
| Pointers.WalkEmpty | src/pointers.mjs:104 | empty tokens do not move the walk |
| Pointers.PointerSlashes | src/pointers.mjs:100-122 | a pointer made only of slashes after its first character returns the root |
| Pointers.WalkAppend | src/pointers.mjs:100-120 | walking two runs of pieces walks the second from where the first ends |
| Pointers.PointerAppend | src/pointers.mjs:91-123 | pointers compose: `p + q` leads where `q` leads from the target of `p` |
| Pointers.PointerOne | src/pointers.mjs:106-115 | a pointer of one token is one decode and one step |
| Pointers.DecodeEscape | src/pointers.mjs:33-89 | the escaped form of a key that is not all digits decodes to that key |
| Pointers.PointerMember | src/pointers.mjs:107-115 | one escaped key leads to its member, whatever characters the key holds |
| Pointers.PointerItem | src/pointers.mjs:107-115 | a decimal index leads to that item of an array, and fails past its end |
| Pointers.FindId | src/pointers.mjs:125-158 | a node that is found is an object whose `$id` is the anchor |
| Pointers.FindInItems | src/pointers.mjs:137-144 | a node found among the items is an object whose `$id` is the anchor |
| Pointers.FindInMembers | src/pointers.mjs:148-155 | a node found among the member values is an object whose `$id` is the anchor |
| Pointers.First | src/pointers.mjs:125-158 | the first match of a list is preceded by no match, and no match means no node matches |
| Pointers.FirstAppend | src/pointers.mjs:137-155 | the first match of two lists is the first list's, or else the second's |
| Pointers.FindIdFirst | src/pointers.mjs:125-158 | unrefId finds exactly the first match of the pre-order, looking at the root before its children and searching children in order |
| Pointers.ItemsFirst | src/pointers.mjs:137-144 | the item loop finds the first match of the items' pre-orders |
| Pointers.MembersFirst | src/pointers.mjs:148-155 | the key loop finds the first match of the member values' pre-orders |
| Pointers.FindIdRoot | src/pointers.mjs:129-132 | a root that matches is returned itself |
| Resolver.LastHash | src/Resolver.mjs:7 | the index of the last `#`, or -1 when there is none |
| Resolver.RemoveFragment | src/Resolver.mjs:5-13 | text without `#` is kept; a final `#` that is the last `#` is removed; text after the last `#` gives nothing |
| Resolver.Register | src/Resolver.mjs:136-144 | a conflicting document throws DocumentConflict and keeps the store; otherwise the uri maps to the document |
| Resolver.SubIdentity | src/Resolver.mjs:151-154 | a node declares an identity exactly when it is below the root and has a non-empty string `$id` whose removeFragment is non-empty, and that identity is the removeFragment |
| Resolver.Resolver.constructor | src/Resolver.mjs:17 | a new resolver has an empty store |
| Resolver.Resolver.AddEntry | src/Resolver.mjs:136-144 | `#add` changes the store as `Register` does |
| Resolver.Resolver.ScanSubDocuments | src/Resolver.mjs:147-177 | the recursive scan changes the store as `Scan` does |
| Resolver.Resolver.ScanChildrenOf | src/Resolver.mjs:161-175 | the children of a container are scanned in order with the narrowed base |
| Resolver.Resolver.NarrowBase | src/Resolver.mjs:151-158 | a nested identity is resolved against the enclosing base, and its absence keeps the base |
| Resolver.Resolver.ScanArray | src/Resolver.mjs:161-168 | the item loop scans each item in index order and stops at the first failure |
| Resolver.Resolver.ScanObject | src/Resolver.mjs:169-175 | the key loop scans each member value in key order and stops at the first failure |
| Resolver.Resolver.NormaliseRoot | src/Resolver.mjs:31-40 | a root uri with a non-empty fragment is rejected, and any other is normalised with resolveURI without a base |
| Resolver.Resolver.Add | src/Resolver.mjs:19-47 | `add` changes the store as `Added` does: identity, normalisation, the root's registration, then the scan |
| Resolver.Resolver.Delete | src/Resolver.mjs:49-58 | `delete` changes the store and answers as `Deleted` does |
| Resolver.Resolver.Get | src/Resolver.mjs:60-101 | `get` answers as `Fetch` does and changes nothing |
| Resolver.Resolver.Resolve | src/Resolver.mjs:103-133 | `resolve` answers as `Resolution` does and changes nothing |
| Resolver.Resolver.ResolveRefs | src/Resolver.mjs:180-239 | `#resolveRefs` computes `Refs` |
| Resolver.Resolver.ResolveChildren | src/Resolver.mjs:200-238 | a container is copied exactly when one of its children changed |
| Resolver.Resolver.ResolveArray | src/Resolver.mjs:202-217 | the array loop fills the clone slot by slot and computes the fold over the items' walk results |
| Resolver.Resolver.ResolveObject | src/Resolver.mjs:218-232 | the key loop fills the clone key by key and computes the fold over the members' walk results |
| Resolver.ResolveDocument | src/index.mjs:8-12 | `resolve` of index.mjs is `Resolution` on an empty store |
| Resolver.SettleAllRest | src/Resolver.mjs:206-216 | an array loop that fails part-way fails as a whole with the same error |
| Resolver.SettleAllStop | src/Resolver.mjs:209 | a failing item after a clean prefix ends the array loop with its error |
| Resolver.SettleAllStep | src/Resolver.mjs:208-215 | an item that does not fail appends its settled value and updates `needsClone` |
| Resolver.SettleMembersRest | src/Resolver.mjs:221-231 | a key loop that fails part-way fails as a whole with the same error |
| Resolver.SettleMembersStop | src/Resolver.mjs:224 | a failing member after a clean prefix ends the key loop with its error |
| Resolver.SettleMembersStep | src/Resolver.mjs:223-230 | a member that does not fail appends its key and settled value, and updates `needsClone` |
| ResolverProperties.Keys | src/Resolver.mjs:143 | the keys of a list of entries are exactly their uris |
| ResolverProperties.RegisterHolds | src/Resolver.mjs:136-144 | under a sound equality, a registration overwrites nothing, and a passing one adds exactly its entry |
| ResolverProperties.ScanHolds | src/Resolver.mjs:147-177 | under a sound equality, no entry is ever lost or overwritten, and a passing scan adds exactly its pre-order entries |
| ResolverProperties.ChildrenHolds | src/Resolver.mjs:161-175 | the same for the children of a container |
| ResolverProperties.ItemsHolds | src/Resolver.mjs:161-168 | the same for the item loop |
| ResolverProperties.MembersHolds | src/Resolver.mjs:169-175 | the same for the key loop |
| ResolverProperties.AddRejects | src/Resolver.mjs:21-36 | a missing identity and a root uri with a fragment are rejected before anything is registered |
| ResolverProperties.AddRegisters | src/Resolver.mjs:19-47 | a successful add maps the normalised uri to the document, registers every scanned sub-document and changes nothing else; a failed one overwrites nothing |
| ResolverProperties.AddStoresRoot | src/Resolver.mjs:40-43 | after a successful add the root's key holds the root |
| ResolverProperties.ScanReplay | src/Resolver.mjs:147-177 | a scan that passed once passes again, changing nothing, on a store that already holds its entries |
| ResolverProperties.RegisterReplay | src/Resolver.mjs:136-144 | registering an entry the store already holds passes and changes nothing |
| ResolverProperties.ChildrenReplay | src/Resolver.mjs:161-175 | the same replay for the children of a container |
| ResolverProperties.ItemsReplay | src/Resolver.mjs:161-168 | the same replay for the item loop |
| ResolverProperties.MembersReplay | src/Resolver.mjs:169-175 | the same replay for the key loop |
| ResolverProperties.AddIdempotent | src/Resolver.mjs:19-47 | adding the same document under the same uri again passes and changes nothing |
| ResolverProperties.ScanNarrows | src/Resolver.mjs:151-158 | a nested identity that a passing scan registers is the base the `$ref` walk narrows to below it |
| ResolverProperties.DeleteKey | src/Resolver.mjs:49-58 | `delete` normalises the uri as `add` does, removes that key and answers whether it was there |
| ResolverProperties.DeleteEmpty | src/Resolver.mjs:52-55 | an empty uri answers false and keeps the store |
| ResolverProperties.DeleteRejected | src/Resolver.mjs:51-57 | a uri `add` would reject keeps the store: a fragment answers false, and an unparsable uri throws InvalidUri |
| ResolverProperties.DeleteFragment | src/Resolver.mjs:51-55 | a uri with text after its last `#` answers false |
| ResolverProperties.DeleteAfterAdd | src/Resolver.mjs:19-58 | deleting what a successful add registered answers true and removes only its key |
| ResolverProperties.DeleteTwice | src/Resolver.mjs:49-58 | a second delete of the same uri finds nothing and changes nothing |
| ResolverProperties.HashSplitUnique | src/uri.mjs:196-200 | the text before the first `#` and the text after it are determined by the whole |
| ResolverProperties.FetchLocal | src/Resolver.mjs:65-98 | a fragment-only uri is looked up in the root: without a root it throws, an empty fragment is the root, `/…` is a pointer, anything else an anchor search |
| ResolverProperties.GetAfterAdd | src/Resolver.mjs:60-101 | after a successful add, `get` finds the document under its uri (with or without a final `#`) and follows pointer and anchor fragments from it |
| ResolverProperties.FetchMissing | src/Resolver.mjs:75-80 | a uri whose normalised key is not stored throws DocumentNotFound |
| ResolverProperties.FetchStored | src/Resolver.mjs:60-98 | a uri whose base part is stored, with a JSON Pointer fragment, is the pointer walked from the stored document |
| ResolverProperties.RefFreeItem | src/Resolver.mjs:204-216 | the nodes of each item are among the nodes of the list |
| ResolverProperties.RefFreeMember | src/Resolver.mjs:220-231 | the nodes of each member value are among the nodes of the object |
| ResolverProperties.NoRefsUnchanged | src/Resolver.mjs:180-239 | a tree with no `$ref` node is never copied: the walk leaves it unchanged or throws |
| ResolverProperties.NoRefsChildren | src/Resolver.mjs:200-238 | a container with no `$ref` below it is never copied |
| ResolverProperties.NoRefsItems | src/Resolver.mjs:204-216 | no item without a `$ref` is replaced |
| ResolverProperties.NoRefsMembers | src/Resolver.mjs:220-231 | no member value without a `$ref` is replaced |
| ResolverProperties.ResolveNoRefs | src/Resolver.mjs:129-132 | `resolve` of a document without `$ref` returns that document, or throws |
| ResolverProperties.RefReplacedWhole | src/Resolver.mjs:184-188 | a `$ref` node is replaced as the bare reference would be, whatever other members it has and wherever it sits |
| ResolverProperties.RefNeverKept | src/Resolver.mjs:184-188 | a `$ref` node is never left unchanged |
| ResolverProperties.RefUnresolvable | src/Resolver.mjs:186 | a reference that does not resolve against the enclosing base throws that error |
| ResolverProperties.RefTarget | src/Resolver.mjs:186-187 | a `$ref` node becomes the `get` of its reference, resolved against the enclosing base with the walked document as root, and is not walked again; a failed `get` throws its error |
| ResolverProperties.SettleAllSlots | src/Resolver.mjs:204-216 | a successful array loop has one slot per item, each the item or its replacement |
| ResolverProperties.SettleAllCopies | src/Resolver.mjs:210-214 | a successful array loop asks for a copy exactly when some item was replaced |
| ResolverProperties.SettleAllFirstError | src/Resolver.mjs:206-216 | a failed array loop throws the error of the first failing item |
| ResolverProperties.SettleMembersSlots | src/Resolver.mjs:220-231 | a successful key loop has one slot per member, in key order, each the member's value or its replacement under the same key |
| ResolverProperties.SettleMembersCopies | src/Resolver.mjs:225-229 | a successful key loop asks for a copy exactly when some member was replaced |
| ResolverProperties.SettleMembersFirstError | src/Resolver.mjs:221-231 | a failed key loop throws the error of the first failing member |
| ResolverProperties.SettleMembersOk | src/Resolver.mjs:220-231 | the key loop completes when no member failed |
| ResolverExamples.NameKey | src/Resolver.mjs:38-40 | a plain name with no scheme, slash or dot segment is normalised to itself without a base |
| ResolverExamples.PathKey | src/Resolver.mjs:38-40 | a two-segment relative path of plain names is normalised to itself without a base |
| ResolverExamples.ConstantsKey | test/base.test.mjs:74 | the root uri `constants.json` stays `constants.json` |
| ResolverExamples.OperationsKey | test/base.test.mjs:75 | the root uri `operations.json` stays `operations.json` |
| ResolverExamples.SimpleKey | test/base.test.mjs:59 | the root uri `calc/simple.json` stays `calc/simple.json` |
| ResolverExamples.UpRef | src/uri.mjs:131-187 | `../y#f` resolved against `d/x` is `y#f` |
| ResolverExamples.CrossRef | test/base.test.mjs:61 | `../constants.json#/foo` resolved against `calc/simple.json` is `constants.json#/foo` |
| ResolverExamples.LocalRef | src/uri.mjs:131-187 | a fragment-only reference resolved against the empty base is itself |
| ResolverExamples.EscapeKey | src/pointers.mjs:33-89 | a key without `~`, `/`, `%` or `+` is its own escaped form |
| ResolverExamples.MemberPointer | src/pointers.mjs:91-123 | `/k` leads to the first member with the plain key `k` |
| ResolverExamples.NestedPointer | src/pointers.mjs:91-123 | `/k1/k2` leads to the member `k2` of the member `k1` |
| ResolverExamples.RefNode | src/Resolver.mjs:184 | a node built from a non-empty target is a `$ref` to that target |
| ResolverExamples.ScalarUnchanged | src/Resolver.mjs:180-182 | a scalar is left unchanged by the walk |
| ResolverExamples.LocalRefNode | src/Resolver.mjs:184-188 | a `#`-pointer `$ref` in a document without a base is replaced by what the pointer reaches from the root |
| ResolverExamples.StoredRefNode | src/Resolver.mjs:184-188 | a `$ref` that resolves to a stored uri and a pointer is replaced by what the pointer reaches in the stored document |
| ResolverExamples.SiblingRefNode | test/base.test.mjs:60-62 | `../y#f` in `calc/simple.json` is replaced by what `f` reaches in the document stored as `y` |
| ResolverExamples.ObjectWalk | src/Resolver.mjs:180-238 | an object without `$ref` or nested identity is copied with the settled members when some member was replaced, and left unchanged otherwise |
| ResolverExamples.ObjectReplaced | src/Resolver.mjs:180-238 | an object one of whose members was replaced is copied with the settled members |
| ResolverExamples.ScanScalars | src/Resolver.mjs:169-175 | scanning members that are all scalars registers nothing and passes |
| ResolverExamples.BasicResolution | test/base.test.mjs:7-40 | `resolve(object)` gives the expected tree: `number1` and `number2` replaced by 123 and 42, the rest kept |
| ResolverExamples.BasicExample | test/base.test.mjs:39 | the resolve of index.mjs returns that expected tree |
| ResolverExamples.AddLeaves | src/Resolver.mjs:19-47 | adding a flat document under a new key stores it under that key and passes |
| ResolverExamples.ConstantsAddKey | test/base.test.mjs:74 | `add(doc1)` takes the key `constants.json` from `$id` |
| ResolverExamples.OperationsAddKey | test/base.test.mjs:75 | `add(doc2, 'operations.json')` takes the key it is given |
| ResolverExamples.AddConstants | test/base.test.mjs:74 | `add(doc1)` into a store without `constants.json` stores it there and passes |
| ResolverExamples.AddOperations | test/base.test.mjs:75 | `add(doc2, 'operations.json')` into a store without that key stores it there and passes |
| ResolverExamples.Registered | test/base.test.mjs:73-75 | the two adds of the test both pass and leave both documents stored under their keys |
| ResolverExamples.SimpleWalk | test/base.test.mjs:57-71 | over any store holding both documents, the walk of the object gives the expected tree |
| ResolverExamples.StockedResolution | test/base.test.mjs:77 | over any store holding both documents, `resolve(object)` gives the expected tree |
| ResolverExamples.CrossResolution | test/base.test.mjs:42-77 | with both documents stored, `resolve(object)` gives the expected tree: each `$ref` resolved against `calc/simple.json` and fetched from the store |
| ResolverExamples.CrossExample | test/base.test.mjs:73-77 | through the class, both adds pass and `resolve` returns the expected tree |

## Findings

| source | as written | input that shows it | evidently intended | confidence | as-written member | corrected member |
|---|---|---|---|---|---|---|
| src/uri.mjs:63-171 | `merge` drops the leading `/` of a path, and the recomposition restores it only after a non-empty authority | `http://a/` resolves to `http://a`; `file:/x` resolves to `file:x`; `../..` against `http://a/b/c/d;p?q` gives `http://a/`, which resolves again to `http://a` | the root slash is kept (section 5.2.4 of RFC 3986), so resolution is idempotent | not executed | RootedUri.SlashLost, RootedUri.RootLost, RootedUri.RootNotStable | RootedUri.SlashKept, RootedUri.RootKept, RootedUri.ResolveRootedIdempotent |
| src/uri.mjs:143-150 | a reference with an authority ends the group loop before its path is merged, so its dot segments stay | `//g/./x` against `http://a/b/c/d;p?q` resolves to `http://g/./x`, and only a second resolution gives `http://g/x` | the authority's path has its dot segments removed at once (section 5.2.2 of RFC 3986) | not executed | RootedUri.DotsKept | RootedUri.DotsRemoved |

## Left out

- **Deep equality.** The deep-equality package `slow-deep-equal` is not part of this
  model. The class takes the equality as the constructor parameter `equal`.
  The properties that need it require it to be sound (`Sound`) or reflexive
  (`Reflexive`), and say so in their `requires`. `Sound` (`equal` implies
  `==`) is stronger than a deep equality that ignores member order, which
  `Json.Value` distinguishes. Under such an equality, `Register` replaces a
  stored entry with the new deep-equal document, as its `ensures` states, so
  the "nothing overwritten" part of `ResolverProperties.ScanHolds` and
  `ResolverProperties.AddRegisters` then holds only up to `equal`.
- **Object key order.** `for…in` order (integer-like keys first) is not
  modelled. Objects keep their members in the order given, and that order is
  the one every loop follows.
- **Repeated keys.** `Json.Value` allows repeated keys, which a JavaScript
  object cannot hold (`JSON.parse` keeps the last one). `Json.Lookup` takes
  the first member with the key; on values whose keys are distinct this is
  the `hasOwnProperty` / `root[segment]` step.
- **Arrays as objects.** String keys on arrays (a non-numeric token such as
  `/length` on an array) and inherited properties are not modelled. A pointer
  step into an array takes only a numeric token.
- **Numbers.** Only integers are modelled, with no limit. `Number(…)` beyond
  2^53 (precision loss) and non-integer JSON numbers are not modelled.
- **The empty token.** `decode("")` would return `Number("") == 0`. It is
  never reached, because `unrefPtr` skips empty tokens. `Pointers.Decode` of
  the empty text is the index 0, as it is in the source.
- **Error texts.** The message texts are not modelled. Errors are kinds, one
  per error message, so a `get` inside a walk reports the same kind as a direct
  `get`.
- **Object identity.** Aliasing and object identity are not modelled:
  `Resolver.resolve` returns "the document itself" as an equal value.
  `equal` is a deep comparison, not reference equality.
- **Partial effects of a failed `add`.** A failed `add` keeps what it
  registered before the failure, as `Resolver.Scan` states. The properties
  only say what a failure does not overwrite (`ResolverProperties.ScanHolds`),
  not which prefix was added.
- **Walk results as pure functions.** `#resolveRefs` and the `get` calls it
  makes do not change the store. The walk result of each child is therefore
  the pure function `Refs`, applied to the unchanged store: `ItemResults`,
  `MemberResults`.
- **Foreign code and output.** The `URIError` subclass and the module wiring
  of `index.mjs` are not modelled, and there is no output or I/O. `index.mjs`
  imports `Resolver` by name, while `Resolver.mjs` only has a default export.
  `Resolver.mjs` imports `./URI.mjs`, while the file is `uri.mjs`.
- **Unicode.** Strings are sequences of Dafny characters, which are Unicode
  scalar values. JavaScript strings are UTF-16 code units, so a lone surrogate
  and the code-unit length of a character outside the Basic Multilingual Plane
  are not modelled. `%XY` yields the character with code 16·X+Y, which is below
  256 in both.
- **The other RFC 3986 cases.** `test/uri.test.mjs` lists 42 cases. The
  model proves ten of them value by value (`ResolveExamples.Example*`). The
  other 32 are covered only by the general lemmas (`ResolveProperties.*`,
  `MergeProperties.*`), not one by one.
