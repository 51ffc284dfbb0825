/**
 * What merge promises about its output: no dot segments, no leading slash
 * (except the lone "/" a top-level "." or ".." leaves), a closing slash exactly
 * when the reference path ends in `/`, `.` or `..`, and which parts of the base
 * path it reads.
 */
module MergeProperties {
  import opened Json
  import opened Strings
  import opened Uri

  /** A segment merge keeps on its stack: non-empty, slash-free, not a dot segment. */
  predicate Segment(s: string, stops: set<char>) {
    s != [] && NoSlash(s) && s != "." && s != ".." && Avoids(s, stops)
  }

  predicate Segments(stack: seq<string>, stops: set<char>) {
    forall k :: 0 <= k < |stack| ==> Segment(stack[k], stops)
  }

  /** Pieces of a split text that avoids `stops`. */
  predicate Pieces(pieces: seq<string>, stops: set<char>) {
    forall k :: 0 <= k < |pieces| ==> NoSlash(pieces[k]) && Avoids(pieces[k], stops)
  }

  predicate EndsWithSlash(s: string) {
    s != [] && s[|s| - 1] == '/'
  }

  lemma {:induction false} SplitAvoids(s: string, stops: set<char>)
    requires Avoids(s, stops)
    ensures Pieces(Split(s), stops)
    decreases |s|
  {
    SplitPieces(s);
    if s != [] {
      SplitAvoids(s[..|s| - 1], stops);
      var front := Split(s[..|s| - 1]);
      if s[|s| - 1] != '/' {
        assert Avoids(front[|front| - 1], stops);
      }
    }
  }

  lemma {:induction false} JoinAvoids(xs: seq<string>, stops: set<char>)
    requires '/' !in stops
    requires forall k :: 0 <= k < |xs| ==> Avoids(xs[k], stops)
    ensures Avoids(Join(xs), stops)
    decreases |xs|
  {
    if |xs| > 1 {
      JoinAvoids(xs[..|xs| - 1], stops);
    }
  }

  lemma {:induction false} BaseStackSegments(pieces: seq<string>, stops: set<char>)
    requires Pieces(pieces, stops)
    ensures Segments(BaseStack(pieces), stops)
    decreases |pieces|
  {
    if pieces != [] {
      BaseStackSegments(pieces[..|pieces| - 1], stops);
    }
  }

  lemma {:induction false} StepsSegments(st: PathState, pieces: seq<string>, stops: set<char>)
    requires Segments(st.stack, stops) && Pieces(pieces, stops)
    ensures Segments(Steps(st, pieces).stack, stops)
    decreases |pieces|
  {
    if pieces != [] {
      StepsSegments(st, pieces[..|pieces| - 1], stops);
    }
  }

  /** Stepping over clean segments pushes them all. */
  lemma {:induction false} StepsPush(stack: seq<string>, endSlash: bool, xs: seq<string>, stops: set<char>)
    requires Segments(xs, stops)
    ensures Steps(PathState(stack, endSlash), xs) == PathState(stack + xs, if xs == [] then endSlash else false)
    decreases |xs|
  {
    if xs != [] {
      var front := xs[..|xs| - 1];
      StepsPush(stack, endSlash, front, stops);
      assert stack + front + [xs[|xs| - 1]] == stack + xs;
    }
  }

  /**
   * The stack merge ends with: clean segments, or clean segments closed by one
   * empty segment that stands for a final slash.
   */
  predicate Shaped(st: PathState, stops: set<char>) {
    || Segments(st.stack, stops)
    || (|st.stack| >= 1 && Segments(Init(st.stack), stops) && Last(st.stack) == [] && !st.endSlash)
  }

  /** The base pass leaves clean segments, and at most an empty last one for an empty path. */
  lemma {:induction false} BaseStartShape(path: string, base: string, stops: set<char>)
    requires Avoids(base, stops)
    ensures Shaped(PathState(BaseStart(path, base), false), stops)
    ensures path != [] ==> Segments(BaseStart(path, base), stops)
  {
    SplitAvoids(base, stops);
    var pieces := Split(base);
    assert Pieces(Init(pieces), stops);
    BaseStackSegments(Init(pieces), stops);
    var kept := BaseStack(Init(pieces));
    if path == [] && base != [] {
      var last := Last(pieces);
      assert NoSlash(last) && Avoids(last, stops);
      if last != [] && last != "." && last != ".." {
        assert Segment(last, stops);
        assert Apply(kept, last) == kept + [last];
      }
    }
  }

  /** The last reference piece keeps the stack shaped. */
  lemma {:induction false} FinishShape(pre: PathState, path: string, last: string, stops: set<char>)
    requires Segments(pre.stack, stops) && NoSlash(last) && Avoids(last, stops)
    ensures Shaped(Finish(pre, path, last), stops)
  {
    if last != [] && last != "." && last != ".." {
      assert Segment(last, stops);
    } else if last == [] && path != [] && !pre.endSlash {
      assert Init(pre.stack + [[]]) == pre.stack;
    }
  }

  lemma {:induction false} MergeStateShape(path: string, base: string, stops: set<char>)
    requires Avoids(path, stops) && Avoids(base, stops)
    ensures Shaped(MergeState(path, base), stops)
  {
    BaseStartShape(path, base, stops);
    if path == [] {
      assert Split(path) == [[]];
      var st := PathState(BaseStart(path, base), false);
      assert Steps(st, []) == st;
      assert MergeState(path, base) == Finish(st, path, []) == st;
    } else {
      SplitAvoids(path, stops);
      var pieces := Split(path);
      var start := if path[0] != '/' then BaseStart(path, base) else [];
      assert Pieces(Init(pieces), stops);
      StepsSegments(PathState(start, false), Init(pieces), stops);
      var pre := Steps(PathState(start, false), Init(pieces));
      FinishShape(pre, path, Last(pieces), stops);
      assert MergeState(path, base) == Finish(pre, path, Last(pieces));
    }
  }

  /** Splitting joined slash-free segments, with or without a closing slash. */
  lemma {:induction false} SplitRendered(segs: seq<string>, slash: bool)
    requires segs != [] && forall k :: 0 <= k < |segs| ==> NoSlash(segs[k])
    ensures Split(Join(segs) + (if slash then "/" else [])) == segs + (if slash then [[]] else [])
  {
    SplitJoin(segs);
    if slash {
      SplitSlash(Join(segs), []);
      assert Join(segs) + "/" + [] == Join(segs) + (if slash then "/" else []);
    } else {
      assert Join(segs) + [] == Join(segs);
      assert segs + [] == segs;
    }
  }

  /** The rendered text of a shaped state: clean segments, with or without a closing slash. */
  lemma {:induction false} FormOf(st: PathState, stops: set<char>) returns (segs: seq<string>, slash: bool)
    requires Shaped(st, stops)
    ensures Segments(segs, stops)
    ensures Render(st) == Join(segs) + (if slash then "/" else [])
  {
    if Segments(st.stack, stops) {
      segs, slash := st.stack, st.endSlash;
    } else {
      segs := Init(st.stack);
      assert st.stack == segs + [[]];
      if segs == [] {
        slash := false;
      } else {
        slash := true;
        JoinSnoc(segs, []);
      }
    }
  }

  /**
   * The normal form of merge's output: clean segments joined by slashes, with
   * or without a closing slash; nothing else. Splitting it gives back the
   * segments (and an empty last piece for the closing slash).
   */
  lemma {:induction false} MergeForm(path: string, base: string, stops: set<char>) returns (segs: seq<string>, slash: bool)
    requires Avoids(path, stops) && Avoids(base, stops)
    ensures Segments(segs, stops)
    ensures Merge(path, base) == Join(segs) + (if slash then "/" else [])
    ensures segs != [] ==> Split(Merge(path, base)) == segs + (if slash then [[]] else [])
  {
    MergeStateShape(path, base, stops);
    segs, slash := FormOf(MergeState(path, base), stops);
    if segs != [] {
      SplitRendered(segs, slash);
    }
  }

  /** No piece of the merged path is `.` or `..` (uri.mjs:37-48, 71-84). */
  lemma {:induction false} MergeDotFree(path: string, base: string)
    ensures var pieces := Split(Merge(path, base));
            forall k :: 0 <= k < |pieces| ==> pieces[k] != "." && pieces[k] != ".."
  {
    var segs, slash := MergeForm(path, base, {});
    if segs == [] {
      assert Split("/") == Split([]) + [[]];
    }
  }

  /** Merge never starts with a slash, except the lone "/" of a path like "." or "..". */
  lemma {:induction false} MergeNoLeadingSlash(path: string, base: string)
    ensures var r := Merge(path, base); r != [] && r[0] == '/' ==> r == "/"
  {
    var segs, slash := MergeForm(path, base, {});
    if segs != [] {
      JoinPrefix(segs);
      assert Merge(path, base)[0] == segs[0][0];
    }
  }

  /** Merge keeps out every character that neither input has, other than `/`. */
  lemma {:induction false} MergeAvoids(path: string, base: string, stops: set<char>)
    requires Avoids(path, stops) && Avoids(base, stops) && '/' !in stops
    ensures Avoids(Merge(path, base), stops)
  {
    var segs, slash := MergeForm(path, base, stops);
    JoinAvoids(segs, stops);
  }

  /** Joining ends with the last piece. */
  lemma {:induction false} JoinEnds(xs: seq<string>, x: string)
    requires x != []
    ensures Join(xs + [x]) != [] && Join(xs + [x])[|Join(xs + [x])| - 1] == x[|x| - 1]
  {
    if xs != [] {
      JoinSnoc(xs, x);
    }
  }

  /** Joining with an empty last piece ends with the slash before it. */
  lemma {:induction false} JoinEmptyEnd(xs: seq<string>)
    requires xs != []
    ensures EndsWithSlash(Join(xs + [[]]))
  {
    JoinSnoc(xs, []);
    assert Join(xs) + "/" + [] == Join(xs) + "/";
  }

  /** The closing slash as the last reference piece decides it. */
  lemma {:induction false} FinishSlash(pre: PathState, path: string, last: string)
    requires path != [] && NoSlash(last)
    ensures (last == "." || last == "..") ==> EndsWithSlash(Render(Finish(pre, path, last)))
    ensures last == [] ==> Render(Finish(pre, path, last)) == [] || EndsWithSlash(Render(Finish(pre, path, last)))
    ensures last != [] && last != "." && last != ".." ==> !EndsWithSlash(Render(Finish(pre, path, last)))
  {
    var st := Finish(pre, path, last);
    if last == "." || last == ".." {
      assert st.endSlash;
    } else if last == [] {
      if !pre.endSlash && pre.stack != [] {
        assert st == PathState(pre.stack + [[]], false);
        JoinEmptyEnd(pre.stack);
      }
    } else {
      assert st == PathState(pre.stack + [last], false);
      JoinEnds(pre.stack, last);
      assert last[|last| - 1] != '/';
    }
  }

  /**
   * A reference path whose last piece is empty (it ends in `/`), `.` or `..`
   * yields a merged path closed by a slash; any other last piece yields one
   * that is not (uri.mjs:68, 77-79, 95-98).
   */
  lemma {:induction false} MergeClosingSlash(path: string, base: string)
    requires path != []
    ensures var last := Last(Split(path));
            (last == "." || last == "..") ==> EndsWithSlash(Merge(path, base))
    ensures Last(Split(path)) == [] ==> Merge(path, base) == [] || EndsWithSlash(Merge(path, base))
    ensures var last := Last(Split(path));
            last != [] && last != "." && last != ".." ==> !EndsWithSlash(Merge(path, base))
  {
    var pieces := Split(path);
    var start := if path[0] != '/' then BaseStart(path, base) else [];
    var pre := Steps(PathState(start, false), Init(pieces));
    assert MergeState(path, base) == Finish(pre, path, Last(pieces));
    SplitPieces(path);
    FinishSlash(pre, path, Last(pieces));
  }

  /**
   * Which part of the base merge reads: with a non-empty reference path, never
   * the base's last piece; with a path starting with `/`, nothing at all
   * (uri.mjs:26, 32).
   */
  lemma {:induction false} MergeBaseUse(path: string, dir: string, x: string, y: string, other: string)
    requires path != [] && NoSlash(x) && NoSlash(y)
    ensures Merge(path, dir + "/" + x) == Merge(path, dir + "/" + y)
    ensures path[0] == '/' ==> Merge(path, dir + "/" + x) == Merge(path, other)
  {
    SplitSlash(dir, x);
    SplitSlash(dir, y);
    assert Init(Split(dir) + [x]) == Split(dir) == Init(Split(dir) + [y]);
  }

  /**
   * An empty reference path keeps the base's last segment: it merges exactly
   * as that segment given again would (uri.mjs:32).
   */
  lemma {:induction false} MergeEmptyPath(base: string)
    requires Segment(Last(Split(base)), {})
    ensures Merge([], base) == Merge(Last(Split(base)), base)
  {
    var x := Last(Split(base));
    SplitNoSlash(x);
    assert base != [];
    assert x[0] != '/';
  }

  /** A text in merge's normal form does not start with a slash, so the (empty) base pass runs. */
  lemma {:induction false} RemergeStart(segs: seq<string>, r: string)
    requires Segments(segs, {}) && segs != []
    requires |Join(segs)| <= |r| && r[..|Join(segs)|] == Join(segs)
    ensures r != [] && r[0] != '/' && BaseStart(r, []) == []
  {
    JoinPrefix(segs);
    assert r[0] == Join(segs)[0] == segs[0][0];
    assert Split([]) == [[]];
  }

  /** Merge without a base of a text that does not start with a slash, by its pieces. */
  lemma {:induction false} MergeStateNoBase(r: string, pieces: seq<string>)
    requires r != [] && r[0] != '/' && BaseStart(r, []) == [] && Split(r) == pieces
    ensures MergeState(r, []) == Finish(Steps(PathState([], false), Init(pieces)), r, Last(pieces))
  {
  }

  /** A normal-form text with a closing slash merges to itself. */
  lemma {:induction false} RemergeSlash(segs: seq<string>)
    requires Segments(segs, {}) && segs != []
    requires Split(Join(segs) + "/") == segs + [[]]
    ensures Merge(Join(segs) + "/", []) == Join(segs) + "/"
  {
    var r := Join(segs) + "/";
    RemergeStart(segs, r);
    var pieces := segs + [[]];
    MergeStateNoBase(r, pieces);
    assert Init(pieces) == segs && Last(pieces) == [];
    StepsPush([], false, segs, {});
    var st := PathState(segs + [[]], false);
    assert MergeState(r, []) == st;
    JoinSnoc(segs, []);
    assert Render(st) == Join(segs) + "/" + [];
  }

  /** A normal-form text without a closing slash merges to itself. */
  lemma {:induction false} RemergePlain(segs: seq<string>)
    requires Segments(segs, {}) && segs != []
    requires Split(Join(segs)) == segs
    ensures Merge(Join(segs), []) == Join(segs)
  {
    var r := Join(segs);
    RemergeStart(segs, r);
    MergeStateNoBase(r, segs);
    var front := Init(segs);
    assert Segments(front, {});
    StepsPush([], false, front, {});
    assert [] + front == front;
    var pre := PathState(front, false);
    assert Steps(PathState([], false), front) == pre;
    var last := Last(segs);
    assert Segment(last, {});
    assert Finish(pre, r, last) == PathState(front + [last], false);
    assert front + [last] == segs;
  }

  /** Merging a merged path again, without a base, leaves it as it is (except "/"). */
  lemma {:induction false} MergeIdempotent(path: string, base: string)
    requires Merge(path, base) != "/"
    ensures Merge(Merge(path, base), []) == Merge(path, base)
  {
    var segs, slash := MergeForm(path, base, {});
    if segs == [] {
      assert Merge(path, base) == [];
      assert Split([]) == [[]];
    } else if slash {
      RemergeSlash(segs);
    } else {
      assert Join(segs) + [] == Join(segs) && segs + [] == segs;
      RemergePlain(segs);
    }
  }

  /** An empty piece in front is skipped, as every empty piece is. */
  lemma {:induction false} StepsSkipEmpty(st: PathState, xs: seq<string>)
    ensures Steps(st, [[]] + xs) == Steps(st, xs)
    decreases |xs|
  {
    var ys := [[]] + xs;
    if xs == [] {
      var none: seq<string> := [];
      assert ys[..0] == none;
    } else {
      var front := xs[..|xs| - 1];
      assert ys[..|ys| - 1] == [[]] + front;
      StepsSkipEmpty(st, front);
    }
  }

  /**
   * A leading slash is dropped (uri.mjs:26, 66-68): merging `/` and a text
   * that does not start with one, without a base, merges the text alone.
   */
  lemma {:induction false} MergeRootAgain(r: string)
    requires r != [] && r[0] != '/'
    ensures Merge("/" + r, []) == Merge(r, [])
  {
    var t := "/" + r;
    var pieces := Split(r);
    SlashPieces(r);
    var pre := Steps(PathState([], false), Init(pieces));
    StepsSkipEmpty(PathState([], false), Init(pieces));
    assert Init([[]] + pieces) == [[]] + Init(pieces);
    assert Last([[]] + pieces) == Last(pieces);
    assert MergeState(t, []) == Finish(pre, t, Last(pieces));
    assert Split([]) == [[]];
    assert BaseStart(r, []) == [];
    assert MergeState(r, []) == Finish(pre, r, Last(pieces));
  }

  /** The pieces of a text after a slash: an empty piece, then the text's own. */
  lemma SlashPieces(r: string)
    ensures Split("/" + r) == [[]] + Split(r)
  {
    SplitConcat([], r);
    assert [] + "/" + r == "/" + r;
    assert Split([]) == [[]];
  }

  /** The lone slash merges to nothing (uri.mjs:66-68, 94). */
  lemma MergeSlashAlone()
    ensures Merge("/", []) == []
  {
    SplitSlash([], []);
    assert [] + "/" + [] == "/";
    assert Split([]) == [[]];
    assert Split("/") == [[], []];
    var st := PathState([], false);
    var none: seq<string> := [];
    assert [[]][..0] == none;
    assert Steps(st, [[]]) == st;
    assert MergeState("/", []) == PathState([[]], false);
  }
}
