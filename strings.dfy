/**
 * Splitting a path-like string on `/` and joining segments back, as
 * `String.prototype.split('/')` and `Array.prototype.join('/')` do. Both the
 * path merge of uri.mjs and the pointer walk of pointers.mjs cut their input
 * at slashes; their specifications are stated over these pieces.
 */
module Strings {

  /** True when no character of `s` is a slash. */
  predicate NoSlash(s: string) {
    forall i :: 0 <= i < |s| ==> s[i] != '/'
  }

  /** `s.split('/')`: the text between consecutive slashes, in order. */
  function Split(s: string): (pieces: seq<string>)
    ensures |pieces| >= 1
    decreases |s|
  {
    if s == [] then [[]]
    else
      var front := Split(s[..|s| - 1]);
      var c := s[|s| - 1];
      if c == '/' then front + [[]]
      else front[..|front| - 1] + [front[|front| - 1] + [c]]
  }

  /** No piece contains a slash. */
  lemma {:induction false} SplitPieces(s: string)
    ensures forall k :: 0 <= k < |Split(s)| ==> NoSlash(Split(s)[k])
    decreases |s|
  {
    if s != [] {
      SplitPieces(s[..|s| - 1]);
      var front := Split(s[..|s| - 1]);
      if s[|s| - 1] != '/' {
        assert NoSlash(front[|front| - 1]);
      }
    }
  }

  /** `xs.join('/')`. */
  function Join(xs: seq<string>): string
    decreases |xs|
  {
    if xs == [] then []
    else if |xs| == 1 then xs[0]
    else Join(xs[..|xs| - 1]) + "/" + xs[|xs| - 1]
  }

  /** All pieces but the last: the ones a slash terminates. */
  function Init<T>(xs: seq<T>): seq<T>
    requires |xs| >= 1
  {
    xs[..|xs| - 1]
  }

  /** The last piece: the text after the final slash. */
  function Last<T>(xs: seq<T>): T
    requires |xs| >= 1
  {
    xs[|xs| - 1]
  }

  /** Text without a slash is a single piece. */
  lemma {:induction false} SplitNoSlash(b: string)
    requires NoSlash(b)
    ensures Split(b) == [b]
    decreases |b|
  {
    if b != [] {
      SplitNoSlash(b[..|b| - 1]);
      assert b[..|b| - 1] + [b[|b| - 1]] == b;
    }
  }

  /** A slash ends the pieces of its left side and starts a fresh one. */
  lemma {:induction false} SplitSlash(a: string, b: string)
    requires NoSlash(b)
    ensures Split(a + "/" + b) == Split(a) + [b]
    decreases |b|
  {
    var s := a + "/" + b;
    if b == [] {
      assert s[..|s| - 1] == a;
    } else {
      var b' := b[..|b| - 1];
      assert s[..|s| - 1] == a + "/" + b';
      SplitSlash(a, b');
      assert b' + [b[|b| - 1]] == b;
      assert (Split(a) + [b'])[..|Split(a)|] == Split(a);
    }
  }

  /** Joining the pieces gives back the text. */
  lemma {:induction false} JoinSplit(s: string)
    ensures Join(Split(s)) == s
    decreases |s|
  {
    if s != [] {
      var t := s[..|s| - 1];
      JoinSplit(t);
      assert s == t + [s[|s| - 1]];
      if s[|s| - 1] == '/' {
        JoinSlashStep(s, t);
      } else {
        JoinCharStep(s, t, s[|s| - 1]);
      }
    }
  }

  /** A trailing slash adds an empty last piece. */
  lemma JoinSlashStep(s: string, t: string)
    requires s == t + ['/'] && Join(Split(t)) == t
    ensures Join(Split(s)) == s
  {
    assert s[..|s| - 1] == t;
    var front := Split(t);
    assert Split(s) == front + [[]];
    assert (front + [[]])[..|front|] == front;
  }

  /** Any other trailing character extends the last piece. */
  lemma JoinCharStep(s: string, t: string, c: char)
    requires c != '/' && s == t + [c] && Join(Split(t)) == t
    ensures Join(Split(s)) == s
  {
    assert s[..|s| - 1] == t && s[|s| - 1] == c;
    var front := Split(t);
    var p := Split(s);
    assert p == front[..|front| - 1] + [front[|front| - 1] + [c]];
    if |front| == 1 {
      assert Join(front) == front[0];
    } else {
      assert p[..|p| - 1] == front[..|front| - 1];
      assert Join(front) == Join(front[..|front| - 1]) + "/" + front[|front| - 1];
    }
  }

  /** Splitting joined slash-free segments gives back the segments. */
  lemma {:induction false} SplitJoin(xs: seq<string>)
    requires |xs| >= 1
    requires forall k :: 0 <= k < |xs| ==> NoSlash(xs[k])
    ensures Split(Join(xs)) == xs
    decreases |xs|
  {
    if |xs| == 1 {
      SplitNoSlash(xs[0]);
    } else {
      var front := xs[..|xs| - 1];
      SplitJoin(front);
      SplitSlash(Join(front), xs[|xs| - 1]);
      assert front + [xs[|xs| - 1]] == xs;
    }
  }

  /**
   * Reading one more character of `s`: a slash closes the open piece
   * `s[anchor..i]` and opens an empty one, any other character extends it.
   */
  lemma SplitGrow(s: string, i: nat, anchor: nat, done: seq<string>)
    requires anchor <= i < |s|
    requires Split(s[..i]) == done + [s[anchor..i]]
    ensures s[i] == '/' ==> Split(s[..i + 1]) == done + [s[anchor..i]] + [s[i + 1..i + 1]]
    ensures s[i] != '/' ==> Split(s[..i + 1]) == done + [s[anchor..i + 1]]
  {
    assert s[..i + 1][..i] == s[..i];
    var front := Split(s[..i]);
    if s[i] == '/' {
      assert s[i + 1..i + 1] == [];
    } else {
      assert front[..|front| - 1] == done;
      assert s[anchor..i] + [s[i]] == s[anchor..i + 1];
    }
  }

  /** Joining one more piece adds a slash and the piece. */
  lemma JoinSnoc(xs: seq<string>, x: string)
    requires |xs| >= 1
    ensures Join(xs + [x]) == Join(xs) + "/" + x
  {
    assert (xs + [x])[..|xs|] == xs;
  }

  /** The joined text starts with the first piece. */
  lemma {:induction false} JoinPrefix(xs: seq<string>)
    requires |xs| >= 1
    ensures |xs[0]| <= |Join(xs)| && Join(xs)[..|xs[0]|] == xs[0]
    decreases |xs|
  {
    if |xs| > 1 {
      var front := xs[..|xs| - 1];
      JoinPrefix(front);
      assert Join(xs) == Join(front) + "/" + xs[|xs| - 1];
      assert Join(xs)[..|xs[0]|] == Join(front)[..|xs[0]|];
    }
  }

  /** Splitting at one slash splits each side on its own. */
  lemma {:induction false} SplitConcat(a: string, b: string)
    ensures Split(a + "/" + b) == Split(a) + Split(b)
    decreases |b|
  {
    var s := a + "/" + b;
    if b == [] {
      assert s[..|s| - 1] == a;
    } else {
      var b' := b[..|b| - 1];
      var c := b[|b| - 1];
      assert s[..|s| - 1] == a + "/" + b';
      SplitConcat(a, b');
      if c == '/' {
        assert Split(a) + Split(b') + [[]] == Split(a) + (Split(b') + [[]]);
      } else {
        ExtendLast(Split(a), Split(b'), c);
      }
    }
  }

  /** Extending the last piece of `left + right` extends the last piece of `right`. */
  lemma ExtendLast(left: seq<string>, right: seq<string>, c: char)
    requires |right| >= 1
    ensures var front := left + right;
      front[..|front| - 1] + [front[|front| - 1] + [c]] == left + (right[..|right| - 1] + [right[|right| - 1] + [c]])
  {
    var front := left + right;
    assert front[..|front| - 1] == left + right[..|right| - 1];
  }

  /** SplitGrow for the text from `start` on: the pieces of `s[start..i]` with one more character read. */
  lemma SplitGrowFrom(s: string, start: nat, i: nat, anchor: nat, done: seq<string>)
    requires start <= anchor <= i < |s|
    requires Split(s[start..i]) == done + [s[anchor..i]]
    ensures s[i] == '/' ==> Split(s[start..i + 1]) == done + [s[anchor..i]] + [s[i + 1..i + 1]]
    ensures s[i] != '/' ==> Split(s[start..i + 1]) == done + [s[anchor..i + 1]]
  {
    var t := s[start..i + 1];
    assert t[..|t| - 1] == s[start..i];
    assert t[|t| - 1] == s[i];
    var front := Split(s[start..i]);
    if s[i] == '/' {
      assert s[i + 1..i + 1] == [];
    } else {
      assert front[..|front| - 1] == done;
      assert s[anchor..i] + [s[i]] == s[anchor..i + 1];
    }
  }
}
