/**
 * The values the resolver works on: JSON-shaped trees, the error kinds its
 * operations raise, and the small wrappers used to carry them.
 */
module Json {

  /** A value that may be absent (a JS `undefined`, a regex group that did not take part). */
  datatype Option<+T> = None | Some(value: T)

  /** The synchronous failures raised by the resolver, one kind per error message. */
  datatype Error =
    | InvalidUri          // uri.mjs: URIError, the text does not match RE_URI
    | InvalidTilde        // pointers.mjs: `~` at the end or before anything but 0 / 1
    | InvalidPercent      // pointers.mjs: `%` without two following characters
    | InvalidHex          // pointers.mjs: a non-hexadecimal character after `%`
    | PointerNotFound     // pointers.mjs: a pointer step that cannot descend
    | MissingIdentity     // Resolver.mjs: no uri and no string `$id`
    | UnexpectedFragment  // Resolver.mjs: a root uri with a non-empty fragment
    | DocumentConflict    // Resolver.mjs: a uri already holds a different document
    | MissingRoot         // Resolver.mjs: a fragment-only lookup without a root
    | DocumentNotFound    // Resolver.mjs: no document under the looked-up uri
    | ReferenceNotFound   // Resolver.mjs: no node carries the looked-up anchor

  /** A computation that either yields a value or throws one of the errors above. */
  datatype Result<+T> = Ok(value: T) | Err(error: Error)

  /** A side-effecting operation's verdict: it returned normally or it threw. */
  datatype Outcome = Pass | Fail(error: Error)

  /** An object member, in the order the object enumerates its keys. */
  datatype Member = Member(key: string, val: Value)

  /**
   * A JSON-shaped tree. Objects are ordered member sequences, arrays are
   * sequences; numbers are integers here.
   */
  datatype Value =
    | Null
    | Bool(b: bool)
    | Num(n: int)
    | Str(s: string)
    | Arr(items: seq<Value>)
    | Obj(members: seq<Member>)

  /** The value of the first member named `key`, if any (own-property lookup). */
  function Lookup(members: seq<Member>, key: string): (r: Option<Value>)
    ensures r.Some? <==> exists i :: 0 <= i < |members| && members[i].key == key
    ensures r.Some? ==> exists i :: 0 <= i < |members| && members[i] == Member(key, r.value) &&
                                    forall j :: 0 <= j < i ==> members[j].key != key
  {
    if members == [] then None
    else if members[0].key == key then Some(members[0].val)
    else
      var r := Lookup(members[1..], key);
      assert forall i :: 1 <= i < |members| ==> members[i] == members[1..][i - 1];
      r
  }

  /** `v.$id` when it is a string; `None` for non-objects and non-string ids. */
  function IdOf(v: Value): (r: Option<string>)
    ensures r.Some? ==> v.Obj? && Lookup(v.members, "$id") == Some(Str(r.value))
    ensures v.Obj? && Lookup(v.members, "$id").Some? && Lookup(v.members, "$id").value.Str? ==>
              r == Some(Lookup(v.members, "$id").value.s)
  {
    if v.Obj? then
      match Lookup(v.members, "$id")
      case Some(Str(s)) => Some(s)
      case _ => None
    else None
  }

  /** `v.$ref && typeof v.$ref === 'string'`: a non-empty string `$ref`. */
  function RefOf(v: Value): (r: Option<string>)
    ensures r.Some? ==> v.Obj? && r.value != [] && Lookup(v.members, "$ref") == Some(Str(r.value))
    ensures v.Obj? && Lookup(v.members, "$ref").Some? && Lookup(v.members, "$ref").value.Str? &&
              Lookup(v.members, "$ref").value.s != [] ==>
              r == Some(Lookup(v.members, "$ref").value.s)
  {
    if v.Obj? then
      match Lookup(v.members, "$ref")
      case Some(Str(s)) => if s != [] then Some(s) else None
      case _ => None
    else None
  }
}
