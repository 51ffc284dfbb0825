/**
 * JSON Pointer tokens and lookups (pointers.mjs): decoding one reference token,
 * walking a tree token by token, and the pre-order search for an `$id` anchor.
 */
module Pointers {
  import opened Json
  import opened Strings

  // ---------------------------------------------------------------------
  // characters
  // ---------------------------------------------------------------------

  /** `isNumber` (pointers.mjs:28-31): an ASCII decimal digit. */
  predicate IsDigit(c: char) {
    '0' <= c <= '9'
  }

  predicate IsHexDigit(c: char) {
    IsDigit(c) || 'a' <= c <= 'f' || 'A' <= c <= 'F'
  }

  /** `hex` (pointers.mjs:8-26): the value of a hexadecimal digit of either case; anything else throws. */
  function Hex(c: char): (r: Result<nat>)
    ensures r.Ok? <==> IsHexDigit(c)
    ensures r.Ok? ==> r.value < 16
    ensures r.Err? ==> r.error == InvalidHex
  {
    if '0' <= c <= '9' then Ok(c as int - 48)
    else if 'a' <= c <= 'f' then Ok(c as int - 87)
    else if 'A' <= c <= 'F' then Ok(c as int - 55)
    else Err(InvalidHex)
  }

  /** The lower-case and the upper-case digit for a value below 16. */
  function HexChar(n: nat, upper: bool): char
    requires n < 16
  {
    if n < 10 then (48 + n) as char
    else if upper then (55 + n) as char
    else (87 + n) as char
  }

  /** Hex reads back the value of either spelling of a digit. */
  lemma HexRoundTrip(n: nat, upper: bool)
    requires n < 16
    ensures Hex(HexChar(n, upper)) == Ok(n)
  {
  }

  // ---------------------------------------------------------------------
  // decode: the specification
  // ---------------------------------------------------------------------

  /** Puts `p` in front of a decoded text; an error stays as it is. */
  function Prefix(p: string, r: Result<string>): Result<string> {
    if r.Ok? then Ok(p + r.value) else r
  }

  /**
   * The token escapes of `s[i..]` undone in one left-to-right pass
   * (pointers.mjs:46-86): `~0` is `~`, `~1` is `/`, `%XY` is the code unit
   * 16·X+Y, `+` is a space, and every other character stands for itself. The
   * first malformed escape decides the error.
   */
  function UnescapeFrom(s: string, i: nat): (r: Result<string>)
    requires i <= |s|
    ensures r.Ok? ==> |r.value| <= |s| - i
    ensures r.Err? ==> r.error == InvalidTilde || r.error == InvalidPercent || r.error == InvalidHex
    decreases |s| - i
  {
    if i == |s| then Ok([])
    else if s[i] == '~' then
      if i + 1 < |s| && (s[i + 1] == '0' || s[i + 1] == '1') then Prefix([if s[i + 1] == '0' then '~' else '/'], UnescapeFrom(s, i + 2))
      else Err(InvalidTilde)
    else if s[i] == '%' then
      if i + 2 >= |s| then Err(InvalidPercent)
      else if Hex(s[i + 1]).Err? || Hex(s[i + 2]).Err? then Err(InvalidHex)
      else Prefix([(16 * Hex(s[i + 1]).value + Hex(s[i + 2]).value) as char], UnescapeFrom(s, i + 3))
    else if s[i] == '+' then Prefix(" ", UnescapeFrom(s, i + 1))
    else Prefix([s[i]], UnescapeFrom(s, i + 1))
  }

  /** The whole token with its escapes undone. */
  function Unescape(s: string): (r: Result<string>)
    ensures r.Ok? ==> |r.value| <= |s|
  {
    UnescapeFrom(s, 0)
  }

  /** Every character is a digit. */
  predicate AllDigits(s: string) {
    forall i :: 0 <= i < |s| ==> IsDigit(s[i])
  }

  /** `Number(s)` for a string of digits: its decimal value (0 for the empty string). */
  function DecimalValue(s: string): nat
    requires AllDigits(s)
    decreases |s|
  {
    if s == [] then 0 else 10 * DecimalValue(s[..|s| - 1]) + (s[|s| - 1] as int - 48)
  }

  /** `String(n)`: the decimal text of `n`, without leading zeros. */
  function NumberText(n: nat): (r: string)
    ensures r != [] && AllDigits(r)
  {
    if n < 10 then [(48 + n) as char] else NumberText(n / 10) + [(48 + n % 10) as char]
  }

  /** A decoded reference token: a number for an all-digit token, a key otherwise. */
  datatype Token = Index(n: nat) | Key(name: string)

  /** `decode` (pointers.mjs:33-89): the unescaped token, as a number when every raw character is a digit. */
  function Decode(s: string): Result<Token> {
    match Unescape(s)
    case Err(e) => Err(e)
    case Ok(t) => if AllDigits(s) then Ok(Index(DecimalValue(s))) else Ok(Key(t))
  }

  // ---------------------------------------------------------------------
  // decode: the loop
  // ---------------------------------------------------------------------

  /**
   * `decode` (pointers.mjs:33-89): `anchor` marks the start of the raw text
   * not yet copied to `result`; each escape copies that text and the decoded
   * character, and jumps past the escape.
   */
  method DecodeToken(str: string) returns (r: Result<Token>)
    ensures r == Decode(str)
  {
    var length := |str|;
    var anchor := 0;
    var offset := 0;
    var result := "";
    var isNumeric := true;
    assert "" + str[0..0] == [];
    PrefixEmpty(Unescape(str));
    while offset < length
      invariant 0 <= anchor <= offset <= length
      invariant isNumeric == AllDigits(str[..offset])
      invariant Pending(str, result, anchor, offset)
      decreases length - offset
    {
      var c := str[offset];
      ghost var start := offset;
      if c == '~' {
        var ctrl := offset + 1;
        if !(ctrl < length && (str[ctrl] == '0' || str[ctrl] == '1')) {
          EscapeFails(str, result, anchor, offset);
          return Err(InvalidTilde);
        }
        var decoded := if str[ctrl] == '0' then '~' else '/';
        EscapeAdvance(str, result, anchor, offset, [decoded], 2);
        result := Push(str, result, anchor, offset, [decoded]);
        offset := ctrl;
        anchor := offset + 1;
      } else if c == '%' {
        if offset + 2 >= length {
          EscapeFails(str, result, anchor, offset);
          return Err(InvalidPercent);
        }
        var high := Hex(str[offset + 1]);
        var low := Hex(str[offset + 2]);
        if high.Err? || low.Err? {
          EscapeFails(str, result, anchor, offset);
          return Err(InvalidHex);
        }
        var decoded := (16 * high.value + low.value) as char;
        EscapeAdvance(str, result, anchor, offset, [decoded], 3);
        result := Push(str, result, anchor, offset, [decoded]);
        offset := offset + 2;
        anchor := offset + 1;
      } else if c == '+' {
        EscapeAdvance(str, result, anchor, offset, " ", 1);
        result := Push(str, result, anchor, offset, " ");
        anchor := offset + 1;
      } else {
        PlainAdvance(str, result, anchor, offset);
      }
      DigitsStep(str, start, offset + 1);
      isNumeric := isNumeric && IsDigit(c);
      offset := offset + 1;
    }
    PendingDone(str, result, anchor);
    assert str[..offset] == str;
    if anchor != length {
      result := result + str[anchor..];
    } else {
      assert result + str[anchor..] == result;
    }
    if isNumeric {
      UnescapeDigits(str);
      r := Ok(Index(DecimalValue(result)));
    } else {
      r := Ok(Key(result));
    }
  }

  /** `push` (pointers.mjs:36-39): the raw text since `anchor`, then the decoded sequence. */
  method Push(str: string, result: string, anchor: nat, offset: nat, sequence: string) returns (result': string)
    requires anchor <= offset <= |str|
    ensures result' == result + str[anchor..offset] + sequence
  {
    if anchor == offset {
      result' := result + sequence;
    } else {
      result' := result + (str[anchor..offset] + sequence);
    }
  }

  /** One more raw character read: the text stays all digits only if it is one; an escape is not. */
  lemma DigitsStep(str: string, start: nat, next: nat)
    requires start < next <= |str| && (next == start + 1 || !IsDigit(str[start]))
    ensures AllDigits(str[..next]) == (AllDigits(str[..start]) && IsDigit(str[start]))
  {
    assert str[..next][start] == str[start];
    if next == start + 1 {
      assert str[..next] == str[..start] + [str[start]];
    }
  }

  /**
   * The loop state of decode: what is decoded so far, the raw text from
   * `anchor` to `offset` still to be copied, then the decoding of the rest.
   */
  ghost predicate Pending(str: string, result: string, anchor: nat, offset: nat) {
    anchor <= offset <= |str| && Unescape(str) == Prefix(result + str[anchor..offset], UnescapeFrom(str, offset))
  }

  /** At the end of the text the pending raw text completes the decoding. */
  lemma PendingDone(str: string, result: string, anchor: nat)
    requires Pending(str, result, anchor, |str|)
    ensures Unescape(str) == Ok(result + str[anchor..])
  {
    assert result + str[anchor..|str|] + [] == result + str[anchor..];
  }

  /** A malformed escape at `offset` is the error of the whole token. */
  lemma EscapeFails(str: string, result: string, anchor: nat, offset: nat)
    requires offset < |str| && Pending(str, result, anchor, offset)
    requires str[offset] == '~' ==> !(offset + 1 < |str| && (str[offset + 1] == '0' || str[offset + 1] == '1'))
    requires str[offset] == '%' ==> offset + 2 >= |str| || Hex(str[offset + 1]).Err? || Hex(str[offset + 2]).Err?
    requires str[offset] == '~' || str[offset] == '%'
    ensures Decode(str) == Err(if str[offset] == '~' then InvalidTilde else if offset + 2 >= |str| then InvalidPercent else InvalidHex)
  {
  }

  /** An escape of `width` raw characters: the pending text and the decoded character are copied. */
  lemma EscapeAdvance(str: string, result: string, anchor: nat, offset: nat, decoded: string, width: nat)
    requires offset < |str| && Pending(str, result, anchor, offset)
    requires str[offset] == '~' ==> width == 2 && offset + 1 < |str| && decoded == [if str[offset + 1] == '0' then '~' else '/'] && (str[offset + 1] == '0' || str[offset + 1] == '1')
    requires str[offset] == '%' ==> width == 3 && offset + 2 < |str| && Hex(str[offset + 1]).Ok? && Hex(str[offset + 2]).Ok? &&
                                    decoded == [(16 * Hex(str[offset + 1]).value + Hex(str[offset + 2]).value) as char]
    requires str[offset] == '+' ==> width == 1 && decoded == " "
    requires str[offset] == '~' || str[offset] == '%' || str[offset] == '+'
    ensures Pending(str, result + str[anchor..offset] + decoded, offset + width, offset + width)
  {
    var done := result + str[anchor..offset];
    PrefixPrefix(done, decoded, UnescapeFrom(str, offset + width));
    assert done + decoded + str[offset + width..offset + width] == done + decoded;
  }

  /** Any other character joins the pending raw text. */
  lemma PlainAdvance(str: string, result: string, anchor: nat, offset: nat)
    requires offset < |str| && Pending(str, result, anchor, offset)
    requires str[offset] != '~' && str[offset] != '%' && str[offset] != '+'
    ensures Pending(str, result, anchor, offset + 1)
  {
    PrefixPrefix(result + str[anchor..offset], [str[offset]], UnescapeFrom(str, offset + 1));
    assert str[anchor..offset + 1] == str[anchor..offset] + [str[offset]];
    assert result + str[anchor..offset + 1] == result + str[anchor..offset] + [str[offset]];
  }

  lemma PrefixEmpty(r: Result<string>)
    ensures Prefix([], r) == r
  {
    if r.Ok? {
      assert [] + r.value == r.value;
    }
  }

  /** Decoded text put in front in two steps is the two pieces put in front at once. */
  lemma PrefixPrefix(a: string, b: string, r: Result<string>)
    ensures Prefix(a, Prefix(b, r)) == Prefix(a + b, r)
  {
    if r.Ok? {
      assert a + (b + r.value) == a + b + r.value;
    }
  }

  /** Text of digits has no escape to undo. */
  lemma {:induction false} UnescapeDigits(s: string)
    requires AllDigits(s)
    ensures Unescape(s) == Ok(s)
  {
    DigitsFrom(s, 0);
  }

  lemma {:induction false} DigitsFrom(s: string, i: nat)
    requires AllDigits(s) && i <= |s|
    ensures UnescapeFrom(s, i) == Ok(s[i..])
    decreases |s| - i
  {
    if i < |s| {
      DigitsFrom(s, i + 1);
      assert [s[i]] + s[i + 1..] == s[i..];
    }
  }

  // ---------------------------------------------------------------------
  // decode: properties
  // ---------------------------------------------------------------------

  /** Decoding looks only at the text from `i` on. */
  lemma {:induction false} FromShift(p: string, t: string, i: nat)
    requires i <= |t|
    ensures UnescapeFrom(p + t, |p| + i) == UnescapeFrom(t, i)
    decreases |t| - i
  {
    var s := p + t;
    var j := |p| + i;
    if i < |t| {
      assert s[j] == t[i];
      if t[i] == '~' {
        if i + 1 < |t| {
          assert s[j + 1] == t[i + 1];
          FromShift(p, t, i + 2);
        }
      } else if t[i] == '%' {
        if i + 2 < |t| {
          assert s[j + 1] == t[i + 1] && s[j + 2] == t[i + 2];
          FromShift(p, t, i + 3);
        }
      } else {
        FromShift(p, t, i + 1);
      }
    }
  }

  /**
   * Decoded text is never scanned again: once `s[i..|a|]` decodes completely,
   * what follows it decodes on its own, whatever the decoded characters are.
   */
  lemma {:induction false} FromAppend(a: string, b: string, i: nat)
    requires i <= |a| && UnescapeFrom(a, i).Ok?
    ensures UnescapeFrom(a + b, i) == Prefix(UnescapeFrom(a, i).value, Unescape(b))
    decreases |a| - i
  {
    var s := a + b;
    if i == |a| {
      FromShift(a, b, 0);
      PrefixEmpty(Unescape(b));
    } else {
      assert s[i] == a[i];
      if i + 1 < |a| { assert s[i + 1] == a[i + 1]; }
      if i + 2 < |a| { assert s[i + 2] == a[i + 2]; }
      var width := if a[i] == '~' then 2 else if a[i] == '%' then 3 else 1;
      FromAppend(a, b, i + width);
      var decoded := if a[i] == '~' then [if a[i + 1] == '0' then '~' else '/']
                     else if a[i] == '%' then [(16 * Hex(a[i + 1]).value + Hex(a[i + 2]).value) as char]
                     else if a[i] == '+' then " " else [a[i]];
      assert UnescapeFrom(a, i) == Prefix(decoded, UnescapeFrom(a, i + width));
      assert UnescapeFrom(s, i) == Prefix(decoded, UnescapeFrom(s, i + width));
      PrefixPrefix(decoded, UnescapeFrom(a, i + width).value, Unescape(b));
    }
  }

  /** A completely decoded front part is followed by the decoding of the rest (pointers.mjs:58-60, 69-71). */
  lemma UnescapeAppend(a: string, b: string)
    requires Unescape(a).Ok?
    ensures Unescape(a + b) == Prefix(Unescape(a).value, Unescape(b))
  {
    FromAppend(a, b, 0);
  }

  /** A last plain character decodes to itself. */
  lemma LastPlain(s: string)
    requires |s| >= 1 && s[|s| - 1] != '~' && s[|s| - 1] != '%' && s[|s| - 1] != '+'
    ensures UnescapeFrom(s, |s| - 1) == Ok([s[|s| - 1]])
  {
    assert [s[|s| - 1]] + [] == [s[|s| - 1]];
  }

  /** `~01` decodes to `~1` and `%7E1` to `~1`: an escape's output is not an escape again. */
  lemma NoRescan()
    ensures Unescape("~01") == Ok("~1")
    ensures Unescape("%7E1") == Ok("~1")
  {
    LastPlain("~01");
    LastPlain("%7E1");
    assert Hex('7') == Ok(7) && Hex('E') == Ok(14);
    assert "~" + "1" == "~1" && [(16 * 7 + 14) as char] + "1" == "~1";
  }

  /**
   * The errors of decode (pointers.mjs:49-56, 62-69): after correctly escaped
   * text, a `~` at the end or before anything but `0`/`1`, a `%` without two
   * following characters, and a `%` before a non-hexadecimal character throw.
   */
  lemma UnescapeErrors(a: string, c: char, d: char, b: string)
    requires Unescape(a).Ok?
    ensures Unescape(a + "~") == Err(InvalidTilde)
    ensures c != '0' && c != '1' ==> Unescape(a + ['~', c] + b) == Err(InvalidTilde)
    ensures Unescape(a + "%") == Err(InvalidPercent) && Unescape(a + ['%', c]) == Err(InvalidPercent)
    ensures !IsHexDigit(c) || !IsHexDigit(d) ==> Unescape(a + ['%', c, d] + b) == Err(InvalidHex)
  {
    UnescapeAppend(a, "~");
    UnescapeAppend(a, ['~', c] + b);
    assert a + ['~', c] + b == a + (['~', c] + b);
    UnescapeAppend(a, "%");
    UnescapeAppend(a, ['%', c]);
    UnescapeAppend(a, ['%', c, d] + b);
    assert a + ['%', c, d] + b == a + (['%', c, d] + b);
  }

  /** How a token is escaped to go into a pointer; `%` and `+` are percent-encoded. */
  function EscapeChar(c: char): string {
    if c == '~' then "~0" else if c == '/' then "~1" else if c == '%' then "%25" else if c == '+' then "%2B" else [c]
  }

  /** The escaped form of a key: every character escaped on its own. */
  function Escape(s: string): (r: string)
    ensures NoSlash(r)
    decreases |s|
  {
    if s == [] then [] else EscapeChar(s[0]) + Escape(s[1..])
  }

  /** Decoding undoes escaping: every key can be written as a pointer token. */
  lemma {:induction false} UnescapeEscape(s: string)
    ensures Unescape(Escape(s)) == Ok(s)
    decreases |s|
  {
    if s != [] {
      var e := EscapeChar(s[0]);
      UnescapeEscape(s[1..]);
      EscapeCharDecodes(s[0]);
      FromAppend(e, Escape(s[1..]), 0);
      assert [s[0]] + s[1..] == s;
    }
  }

  /** One escaped character decodes back to itself. */
  lemma EscapeCharDecodes(c: char)
    ensures UnescapeFrom(EscapeChar(c), 0) == Ok([c])
  {
    var e := EscapeChar(c);
    assert UnescapeFrom(e, |e|) == Ok([]);
    assert [c] + [] == [c];
    if c == '%' || c == '+' {
      assert e[1] == '2' && Hex('2') == Ok(2) && Hex('5') == Ok(5) && Hex('B') == Ok(11);
    }
  }

  /** Escaping keeps digits and adds none: the escaped form is all digits exactly when the key is. */
  lemma {:induction false} EscapeDigits(s: string)
    ensures AllDigits(Escape(s)) <==> AllDigits(s)
    decreases |s|
  {
    if s != [] {
      EscapeDigits(s[1..]);
      var e := Escape(s);
      var head := EscapeChar(s[0]);
      assert e == head + Escape(s[1..]);
      assert head[0] == (if s[0] == '~' || s[0] == '/' then '~' else if s[0] == '%' || s[0] == '+' then '%' else s[0]);
      if AllDigits(s) {
        assert IsDigit(s[0]) && head == [s[0]];
        assert forall i :: 1 <= i < |s| ==> s[1..][i - 1] == s[i];
      }
      if AllDigits(e) {
        assert forall i :: 0 <= i < |Escape(s[1..])| ==> e[|head| + i] == Escape(s[1..])[i];
        assert IsDigit(e[0]);
        assert forall i :: 1 <= i < |s| ==> s[i] == s[1..][i - 1];
      }
    }
  }

  /**
   * decode returns a number exactly when every raw character is a digit, and
   * that number is the token's decimal value (pointers.mjs:28-31, 79, 88).
   */
  lemma DecodeNumber(s: string)
    ensures Decode(s).Ok? && Decode(s).value.Index? <==> AllDigits(s)
    ensures AllDigits(s) ==> Decode(s) == Ok(Index(DecimalValue(s)))
    ensures !AllDigits(s) && Unescape(s).Ok? ==> Decode(s) == Ok(Key(Unescape(s).value))
  {
    if AllDigits(s) {
      UnescapeDigits(s);
    }
  }

  /** A percent-encoded digit is not a raw digit: `%31` stays the key `1`. */
  lemma EncodedDigit()
    ensures Decode("%31") == Ok(Key("1"))
  {
    assert !IsDigit("%31"[0]);
    assert Hex('3') == Ok(3) && Hex('1') == Ok(1);
    assert UnescapeFrom("%31", 3) == Ok([]);
    assert [(16 * 3 + 1) as char] + [] == "1";
  }

  /** The decimal value of `String(n)` is `n`. */
  lemma {:induction false} NumberTextValue(n: nat)
    ensures DecimalValue(NumberText(n)) == n
  {
    if n >= 10 {
      NumberTextValue(n / 10);
      var t := NumberText(n);
      assert t[..|t| - 1] == NumberText(n / 10);
    }
  }

  // ---------------------------------------------------------------------
  // unrefPtr
  // ---------------------------------------------------------------------

  /** The own key a token names on an object: a number is converted back with `String`. */
  function KeyOf(t: Token): string {
    match t
    case Index(n) => NumberText(n)
    case Key(k) => k
  }

  /**
   * One pointer step (pointers.mjs:107-115): an array takes a numeric token
   * below its length, an object a token naming one of its own keys; anything
   * else cannot be descended into.
   */
  function Descend(v: Value, t: Token): (r: Result<Value>)
    ensures r.Ok? <==> (v.Arr? && t.Index? && t.n < |v.items|) ||
                       (v.Obj? && exists i :: 0 <= i < |v.members| && v.members[i].key == KeyOf(t))
    ensures r.Ok? && v.Arr? ==> r.value == v.items[t.n]
    ensures r.Ok? && v.Obj? ==> exists i :: 0 <= i < |v.members| && v.members[i] == Member(KeyOf(t), r.value)
    ensures r.Err? ==> r.error == PointerNotFound
  {
    match v
    case Arr(items) => if t.Index? && t.n < |items| then Ok(items[t.n]) else Err(PointerNotFound)
    case Obj(members) =>
      (match Lookup(members, KeyOf(t))
       case Some(x) => Ok(x)
       case None => Err(PointerNotFound))
    case _ => Err(PointerNotFound)
  }

  /** The walk over the pieces of a pointer: empty pieces are skipped, the first failure stops it. */
  function Walk(v: Value, pieces: seq<string>): Result<Value>
    decreases |pieces|
  {
    if pieces == [] then Ok(v)
    else
      match Walk(v, Init(pieces))
      case Err(e) => Err(e)
      case Ok(here) => Follow(here, Last(pieces))
  }

  /** One token of the pointer: an empty one is skipped, any other is decoded and descended into. */
  function Follow(here: Value, piece: string): Result<Value> {
    if piece == [] then Ok(here)
    else
      match Decode(piece)
      case Err(e) => Err(e)
      case Ok(t) => Descend(here, t)
  }

  /** `unrefPtr(root, pointer)`: the first character is skipped, the rest is split at slashes. */
  function Pointer(root: Value, pointer: string): Result<Value> {
    if pointer == [] then Ok(root) else Walk(root, Split(pointer[1..]))
  }

  /**
   * `unrefPtr` (pointers.mjs:91-123): `anchor` is the start of the current
   * token; at a slash or at the end a non-empty token is decoded and descended.
   */
  method UnrefPtr(root: Value, pointer: string) returns (r: Result<Value>)
    ensures r == Pointer(root, pointer)
  {
    var length := |pointer|;
    var node := root;
    var anchor := 1;
    var index := 1;
    ghost var done: seq<string> := [];
    if length > 0 {
      PointerStart(root, pointer);
    }
    while index <= length
      invariant 1 <= index <= length + 1
      invariant index <= length ==> PointerScanned(root, pointer, index, anchor, node, done)
      invariant index == length + 1 ==> Pointer(root, pointer) == Ok(node)
      decreases length + 1 - index
    {
      if index == length || pointer[index] == '/' {
        var piece := pointer[anchor..index];
        ghost var before := node;
        if anchor != index {
          var next := FollowToken(node, piece);
          if next.Err? {
            PointerStops(root, pointer, index, anchor, node, done, next.error);
            return Err(next.error);
          }
          node := next.value;
        }
        PointerClose(root, pointer, index, anchor, before, done, node, done + [piece]);
        done := done + [piece];
        anchor := index + 1;
      } else {
        PointerOpen(root, pointer, index, anchor, node, done);
      }
      index := index + 1;
    }
    r := Ok(node);
  }

  /**
   * The state of unrefPtr before round `index`: the tokens closed so far are
   * `done`, the current one starts at `anchor`, and `node` is where the closed
   * tokens lead.
   */
  ghost predicate PointerScanned(root: Value, pointer: string, index: nat, anchor: nat, node: Value, done: seq<string>) {
    && 1 <= anchor <= index <= |pointer|
    && Split(pointer[1..index]) == done + [pointer[anchor..index]]
    && Walk(root, done) == Ok(node)
  }

  lemma PointerStart(root: Value, pointer: string)
    requires pointer != []
    ensures PointerScanned(root, pointer, 1, 1, root, [])
  {
    assert pointer[1..1] == [];
  }

  /** The body of the `anchor !== index` branch (pointers.mjs:105-116): decode the token, then descend. */
  method FollowToken(node: Value, piece: string) returns (r: Result<Value>)
    requires piece != []
    ensures r == Follow(node, piece)
  {
    var token := DecodeToken(piece);
    if token.Err? {
      r := Err(token.error);
    } else {
      r := Descend(node, token.value);
    }
  }

  lemma WalkSnoc(v: Value, pieces: seq<string>, piece: string)
    ensures Walk(v, pieces + [piece]) ==
      match Walk(v, pieces)
      case Err(e) => Err(e)
      case Ok(here) => Follow(here, piece)
  {
    assert Init(pieces + [piece]) == pieces;
  }

  /** A failed walk stays failed whatever pieces follow. */
  lemma {:induction false} WalkFailed(v: Value, xs: seq<string>, ys: seq<string>)
    requires Walk(v, xs).Err?
    ensures Walk(v, xs + ys) == Walk(v, xs)
    decreases |ys|
  {
    if ys == [] {
      assert xs + ys == xs;
    } else {
      var front := ys[..|ys| - 1];
      WalkFailed(v, xs, front);
      assert xs + ys == (xs + front) + [ys[|ys| - 1]];
      WalkSnoc(v, xs + front, ys[|ys| - 1]);
    }
  }

  /** A token that fails ends the whole walk with its error. */
  lemma PointerStops(root: Value, pointer: string, index: nat, anchor: nat, node: Value, done: seq<string>, e: Error)
    requires PointerScanned(root, pointer, index, anchor, node, done)
    requires index == |pointer| || pointer[index] == '/'
    requires Follow(node, pointer[anchor..index]) == Err(e)
    ensures Pointer(root, pointer) == Err(e)
  {
    var closed := done + [pointer[anchor..index]];
    WalkSnoc(root, done, pointer[anchor..index]);
    if index < |pointer| {
      assert pointer[1..] == pointer[1..index] + "/" + pointer[index + 1..];
      SplitConcat(pointer[1..index], pointer[index + 1..]);
      WalkFailed(root, closed, Split(pointer[index + 1..]));
    } else {
      assert pointer[1..index] == pointer[1..];
    }
  }

  /** A token that can be followed moves the walk on; at the end of the pointer it is the answer. */
  lemma PointerClose(root: Value, pointer: string, index: nat, anchor: nat, node: Value, done: seq<string>,
                     node': Value, done': seq<string>)
    requires PointerScanned(root, pointer, index, anchor, node, done)
    requires index == |pointer| || pointer[index] == '/'
    requires Follow(node, pointer[anchor..index]) == Ok(node') && done' == done + [pointer[anchor..index]]
    ensures index < |pointer| ==> PointerScanned(root, pointer, index + 1, index + 1, node', done')
    ensures index == |pointer| ==> Pointer(root, pointer) == Ok(node')
  {
    WalkSnoc(root, done, pointer[anchor..index]);
    ClosePiece(pointer, anchor, index, done);
  }

  /** Any other character extends the current token. */
  lemma PointerOpen(root: Value, pointer: string, index: nat, anchor: nat, node: Value, done: seq<string>)
    requires PointerScanned(root, pointer, index, anchor, node, done)
    requires index < |pointer| && pointer[index] != '/'
    ensures PointerScanned(root, pointer, index + 1, anchor, node, done)
  {
    OpenPiece(pointer, anchor, index, done);
  }

  /** A slash or the end closes the current token. */
  lemma ClosePiece(pointer: string, anchor: nat, index: nat, done: seq<string>)
    requires 1 <= anchor <= index <= |pointer|
    requires index == |pointer| || pointer[index] == '/'
    requires Split(pointer[1..index]) == done + [pointer[anchor..index]]
    ensures index + 1 <= |pointer| ==> Split(pointer[1..index + 1]) == done + [pointer[anchor..index]] + [pointer[index + 1..index + 1]]
    ensures index == |pointer| ==> Split(pointer[1..]) == done + [pointer[anchor..index]]
  {
    if index < |pointer| {
      SplitGrowFrom(pointer, 1, index, anchor, done);
    } else {
      assert pointer[1..index] == pointer[1..];
    }
  }

  /** Any other character extends the current token. */
  lemma OpenPiece(pointer: string, anchor: nat, index: nat, done: seq<string>)
    requires 1 <= anchor <= index < |pointer| && pointer[index] != '/'
    requires Split(pointer[1..index]) == done + [pointer[anchor..index]]
    ensures Split(pointer[1..index + 1]) == done + [pointer[anchor..index + 1]]
  {
    SplitGrowFrom(pointer, 1, index, anchor, done);
  }

  // ---------------------------------------------------------------------
  // unrefPtr: properties
  // ---------------------------------------------------------------------

  /** A text of slashes splits into empty pieces only. */
  lemma {:induction false} SplitSlashes(s: string)
    requires forall i :: 0 <= i < |s| ==> s[i] == '/'
    ensures forall k :: 0 <= k < |Split(s)| ==> Split(s)[k] == []
    decreases |s|
  {
    if s != [] {
      SplitSlashes(s[..|s| - 1]);
    }
  }

  /** Empty pieces do not move the walk. */
  lemma {:induction false} WalkEmpty(v: Value, pieces: seq<string>)
    requires forall k :: 0 <= k < |pieces| ==> pieces[k] == []
    ensures Walk(v, pieces) == Ok(v)
    decreases |pieces|
  {
    if pieces != [] {
      WalkEmpty(v, Init(pieces));
    }
  }

  /** A pointer made only of slashes (after its first character) returns the root (pointers.mjs:100-104, 122). */
  lemma PointerSlashes(root: Value, pointer: string)
    requires forall i :: 1 <= i < |pointer| ==> pointer[i] == '/'
    ensures Pointer(root, pointer) == Ok(root)
  {
    if pointer != [] {
      SplitSlashes(pointer[1..]);
      WalkEmpty(root, Split(pointer[1..]));
    }
  }

  /** Walking two runs of pieces is walking the second from where the first ends. */
  lemma {:induction false} WalkAppend(v: Value, xs: seq<string>, ys: seq<string>)
    ensures Walk(v, xs + ys) == match Walk(v, xs) case Err(e) => Err(e) case Ok(w) => Walk(w, ys)
    decreases |ys|
  {
    if ys == [] {
      assert xs + ys == xs;
    } else {
      var front := ys[..|ys| - 1];
      var piece := ys[|ys| - 1];
      WalkAppend(v, xs, front);
      assert xs + ys == (xs + front) + [piece];
      WalkSnoc(v, xs + front, piece);
      assert ys == front + [piece];
      if Walk(v, xs).Ok? {
        WalkSnoc(Walk(v, xs).value, front, piece);
      }
    }
  }

  /** Pointers compose: `p + q` leads where `q` leads from the target of `p`. */
  lemma PointerAppend(root: Value, p: string, q: string)
    requires p != [] && q != [] && q[0] == '/'
    ensures Pointer(root, p + q) == match Pointer(root, p) case Err(e) => Err(e) case Ok(w) => Pointer(w, q)
  {
    assert (p + q)[1..] == p[1..] + "/" + q[1..];
    SplitConcat(p[1..], q[1..]);
    WalkAppend(root, Split(p[1..]), Split(q[1..]));
  }

  /** A pointer of one token is one decode and one step. */
  lemma PointerOne(root: Value, t: string)
    requires t != [] && NoSlash(t)
    ensures Pointer(root, "/" + t) == match Decode(t) case Err(e) => Err(e) case Ok(token) => Descend(root, token)
  {
    assert ("/" + t)[1..] == t;
    SplitNoSlash(t);
    assert Pointer(root, "/" + t) == Walk(root, [t]);
    assert Init([t]) == [] && Last([t]) == t;
    assert Walk(root, []) == Ok(root);
  }

  /** The escaped form of a key that is not all digits decodes to that key. */
  lemma DecodeEscape(k: string)
    requires !AllDigits(k)
    ensures Decode(Escape(k)) == Ok(Key(k))
  {
    UnescapeEscape(k);
    EscapeDigits(k);
  }

  /** A single escaped key leads to its member, whatever characters the key holds. */
  lemma PointerMember(members: seq<Member>, k: string, x: Value)
    requires !AllDigits(k) && Lookup(members, k) == Some(x)
    ensures Pointer(Obj(members), "/" + Escape(k)) == Ok(x)
  {
    DecodeEscape(k);
    PointerOne(Obj(members), Escape(k));
  }

  /** A decimal index leads to that item of an array, and fails past its end. */
  lemma PointerItem(items: seq<Value>, n: nat)
    ensures Pointer(Arr(items), "/" + NumberText(n)) == if n < |items| then Ok(items[n]) else Err(PointerNotFound)
  {
    var t := NumberText(n);
    assert NoSlash(t);
    DecodeNumber(t);
    NumberTextValue(n);
    PointerOne(Arr(items), t);
  }

  // ---------------------------------------------------------------------
  // unrefId
  // ---------------------------------------------------------------------

  /** `root.$id && root.$id === id`: an object whose `$id` is the non-empty string `id`. */
  predicate Matches(v: Value, id: string) {
    id != [] && IdOf(v) == Some(id)
  }

  /**
   * `unrefId` (pointers.mjs:125-158): the node itself when it matches,
   * otherwise the first match among its children, searched in index order
   * for arrays and in key order for objects.
   */
  function FindId(v: Value, id: string): (r: Option<Value>)
    ensures r.Some? ==> Matches(r.value, id) && r.value.Obj?
    decreases v, 1
  {
    match v
    case Arr(items) => FindInItems(items, id)
    case Obj(members) => if Matches(v, id) then Some(v) else FindInMembers(members, id)
    case _ => None
  }

  /** The loop over array items (pointers.mjs:137-144): the first item with a match wins. */
  function FindInItems(items: seq<Value>, id: string): (r: Option<Value>)
    ensures r.Some? ==> Matches(r.value, id) && r.value.Obj?
    decreases items, 0
  {
    if items == [] then None
    else
      match FindId(items[0], id)
      case Some(found) => Some(found)
      case None => FindInItems(items[1..], id)
  }

  /** The loop over object keys (pointers.mjs:148-155): the first member value with a match wins. */
  function FindInMembers(members: seq<Member>, id: string): (r: Option<Value>)
    ensures r.Some? ==> Matches(r.value, id) && r.value.Obj?
    decreases members, 0
  {
    if members == [] then None
    else
      match FindId(members[0].val, id)
      case Some(found) => Some(found)
      case None => FindInMembers(members[1..], id)
  }

  /** Every node of a tree in pre-order: the node, then its children's trees in order. */
  function PreOrder(v: Value): (r: seq<Value>)
    ensures |r| >= 1 && r[0] == v
    decreases v, 1
  {
    match v
    case Arr(items) => [v] + ItemsPreOrder(items)
    case Obj(members) => [v] + MembersPreOrder(members)
    case _ => [v]
  }

  function ItemsPreOrder(items: seq<Value>): seq<Value>
    decreases items, 0
  {
    if items == [] then [] else PreOrder(items[0]) + ItemsPreOrder(items[1..])
  }

  function MembersPreOrder(members: seq<Member>): seq<Value>
    decreases members, 0
  {
    if members == [] then [] else PreOrder(members[0].val) + MembersPreOrder(members[1..])
  }

  /** The first node of a list that matches. */
  function First(nodes: seq<Value>, id: string): (r: Option<Value>)
    ensures r.Some? ==> exists i :: 0 <= i < |nodes| && nodes[i] == r.value && Matches(nodes[i], id) &&
                                    forall j :: 0 <= j < i ==> !Matches(nodes[j], id)
    ensures r.None? ==> forall i :: 0 <= i < |nodes| ==> !Matches(nodes[i], id)
  {
    if nodes == [] then None
    else if Matches(nodes[0], id) then Some(nodes[0])
    else
      var r := First(nodes[1..], id);
      assert forall i :: 1 <= i < |nodes| ==> nodes[i] == nodes[1..][i - 1];
      if r.Some? then
        var k :| 0 <= k < |nodes[1..]| && nodes[1..][k] == r.value && Matches(nodes[1..][k], id) &&
                 forall j :: 0 <= j < k ==> !Matches(nodes[1..][j], id);
        assert nodes[k + 1] == r.value && forall j :: 0 <= j < k + 1 ==> !Matches(nodes[j], id);
        r
      else r
  }

  /** The first match of two lists in a row. */
  lemma {:induction false} FirstAppend(xs: seq<Value>, ys: seq<Value>, id: string)
    ensures First(xs + ys, id) == if First(xs, id).Some? then First(xs, id) else First(ys, id)
    decreases |xs|
  {
    if xs == [] {
      assert xs + ys == ys;
    } else {
      assert (xs + ys)[0] == xs[0];
      assert (xs + ys)[1..] == xs[1..] + ys;
      FirstAppend(xs[1..], ys, id);
    }
  }

  /**
   * unrefId finds exactly the first match of the pre-order (pointers.mjs:127-157):
   * the root before its children, array items in index order, object values in
   * key order; nothing when no node matches.
   */
  lemma {:induction false} FindIdFirst(v: Value, id: string)
    ensures FindId(v, id) == First(PreOrder(v), id)
    decreases v, 1
  {
    match v
    case Arr(items) =>
      ItemsFirst(items, id);
      FirstAppend([v], ItemsPreOrder(items), id);
    case Obj(members) =>
      MembersFirst(members, id);
      FirstAppend([v], MembersPreOrder(members), id);
    case _ =>
  }

  lemma {:induction false} ItemsFirst(items: seq<Value>, id: string)
    ensures FindInItems(items, id) == First(ItemsPreOrder(items), id)
    decreases items, 0
  {
    if items != [] {
      FindIdFirst(items[0], id);
      ItemsFirst(items[1..], id);
      FirstAppend(PreOrder(items[0]), ItemsPreOrder(items[1..]), id);
    }
  }

  lemma {:induction false} MembersFirst(members: seq<Member>, id: string)
    ensures FindInMembers(members, id) == First(MembersPreOrder(members), id)
    decreases members, 0
  {
    if members != [] {
      FindIdFirst(members[0].val, id);
      MembersFirst(members[1..], id);
      FirstAppend(PreOrder(members[0].val), MembersPreOrder(members[1..]), id);
    }
  }

  /** The root itself is returned when it matches; the search never looks past it. */
  lemma FindIdRoot(v: Value, id: string)
    requires Matches(v, id)
    ensures FindId(v, id) == Some(v)
  {
  }
}
