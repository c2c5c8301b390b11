/**
 * Pattern matching of internal/crawler/robots.go, against the pattern language of section 2.2.3
 * of RFC 9309: `*` matches any sequence, a trailing `$` anchors the match to the path's end.
 */
module Robots {

  datatype Rule = Rule(disallow: bool, pattern: string)

  // ---------------------------------------------------------------- the pattern language

  /** The `*`-separated pieces of a pattern, in order; there is always at least one. */
  function Split(p: string): (segs: seq<string>)
    ensures segs != []
    ensures |segs| > 1 <==> '*' in p
    ensures p != "" ==> |segs| > 1 || segs[0] != ""
  {
    if p == [] then [""]
    else if p[0] == '*' then [""] + Split(p[1..])
    else
      var rest := Split(p[1..]);
      [[p[0]] + rest[0]] + rest[1..]
  }

  /** The pieces with a `*` between each and the next. */
  function Starred(segs: seq<string>): string
    requires segs != []
  {
    if |segs| == 1 then segs[0] else segs[0] + "*" + Starred(segs[1..])
  }

  lemma StarredAfterStar(segs: seq<string>)
    requires segs != []
    ensures Starred([""] + segs) == "*" + Starred(segs)
  {
    assert ([""] + segs)[1..] == segs;
  }

  lemma StarredLonger(first: string, rest: seq<string>, c: char)
    ensures Starred([[c] + first] + rest) == [c] + Starred([first] + rest)
  {
    var one, longer := [first] + rest, [[c] + first] + rest;
    assert one[1..] == rest && longer[1..] == rest;
    if rest != [] {
      assert Starred(one) == first + "*" + Starred(rest);
      assert Starred(longer) == [c] + first + "*" + Starred(rest);
    }
  }

  /** Splitting is undone by putting the wildcards back, and leaves none inside a piece. */
  lemma {:induction false} SplitIs(p: string)
    ensures Starred(Split(p)) == p
    ensures forall seg :: seg in Split(p) ==> '*' !in seg
  {
    if p != [] {
      var rest := Split(p[1..]);
      SplitIs(p[1..]);
      StarredAfterStar(rest);
      StarredLonger(rest[0], rest[1..], p[0]);
      assert p == [p[0]] + p[1..] && rest == [rest[0]] + rest[1..];
    }
  }

  /** And no other list of pieces has both properties. */
  lemma {:induction false} OnlySplitIs(segs: seq<string>)
    requires segs != [] && forall seg :: seg in segs ==> '*' !in seg
    ensures Split(Starred(segs)) == segs
    decreases |segs|, |segs[0]|
  {
    var p := Starred(segs);
    if segs[0] == "" {
      if |segs| > 1 {
        OnlySplitIs(segs[1..]);
        assert p == "*" + Starred(segs[1..]) && p[1..] == Starred(segs[1..]);
        assert segs == [""] + segs[1..];
      }
    } else {
      var c, shorter := segs[0][0], [segs[0][1..]] + segs[1..];
      assert c in segs[0] && segs[0] == [c] + segs[0][1..];
      forall seg | seg in shorter ensures '*' !in seg {
        assert seg in segs[1..] || forall d :: d in seg ==> d in segs[0];
      }
      OnlySplitIs(shorter);
      StarredLonger(segs[0][1..], segs[1..], c);
      assert shorter[1..] == segs[1..] && segs == [[c] + shorter[0]] + segs[1..];
      assert p == [c] + Starred(shorter);
      assert segs == [[c] + shorter[0]] + shorter[1..];
    }
  }

  predicate OccursAt(path: string, k: nat, seg: string) {
    k + |seg| <= |path| && path[k..k + |seg|] == seg
  }

  /** `at` places the first `n` pieces, one after the other. */
  ghost predicate Placed(segs: seq<string>, n: nat, path: string, at: seq<nat>)
    requires n <= |segs|
  {
    && |at| == n
    && (forall k :: 0 <= k < n ==> OccursAt(path, at[k], segs[k]))
    && (forall k :: 0 < k < n ==> at[k - 1] + |segs[k - 1]| <= at[k])
  }

  /** Where the last piece ends. */
  function End(segs: seq<string>, at: seq<nat>): nat
    requires |at| == |segs| > 0
  {
    at[|at| - 1] + |segs[|segs| - 1]|
  }

  predicate Anchored(pattern: string) {
    pattern != [] && pattern[|pattern| - 1] == '$'
  }

  function Body(pattern: string): string {
    if Anchored(pattern) then pattern[..|pattern| - 1] else pattern
  }

  /** A split of the path that a pattern describes: the first piece at its start, and so on. */
  ghost predicate Witness(pattern: string, path: string, at: seq<nat>) {
    var segs := Split(Body(pattern));
    && Placed(segs, |segs|, path, at)
    && at[0] == 0
    && (Anchored(pattern) ==> End(segs, at) == |path|)
  }

  /** The meaning of a pattern, with no matching strategy in it. */
  ghost predicate Glob(pattern: string, path: string) {
    exists at: seq<nat> :: Witness(pattern, path, at)
  }

  /** An empty piece stands right at `from`, any other before none of its occurrences from there on. */
  ghost predicate NoEarlier(path: string, from: nat, k: nat, seg: string) {
    if seg == "" then k == from else forall j: nat :: from <= j < k ==> !OccursAt(path, j, seg)
  }

  /** Each of the first `n` pieces stands where it first occurs after the one before. */
  ghost predicate Leftmost(segs: seq<string>, n: nat, path: string, at: seq<nat>)
    requires n <= |segs| && n <= |at|
  {
    forall k :: 0 < k < n ==> NoEarlier(path, at[k - 1] + |segs[k - 1]|, at[k], segs[k])
  }

  // ---------------------------------------------------------------- the greedy matcher

  /** `strings.Index`: the leftmost occurrence of `seg` at or after `pos`, or -1. */
  function Find(path: string, pos: nat, seg: string): (r: int)
    requires pos <= |path|
    ensures r == -1 || (r >= pos && OccursAt(path, r, seg))
    ensures forall k: nat :: pos <= k && OccursAt(path, k, seg) ==> 0 <= r <= k
    decreases |path| - pos
  {
    if OccursAt(path, pos, seg) then pos
    else if pos == |path| then -1
    else Find(path, pos + 1, seg)
  }

  datatype Scan = Stuck | At(pos: nat)

  /** Where the scan stands after the pieces from index `i` on, each taken leftmost. */
  function Greedy(segs: seq<string>, i: nat, path: string, pos: nat): (r: Scan)
    requires i <= |segs| && pos <= |path|
    ensures r.At? ==> pos <= r.pos <= |path|
    decreases |segs| - i
  {
    if i == |segs| then At(pos)
    else if segs[i] == "" then Greedy(segs, i + 1, path, pos)
    else
      var idx := Find(path, pos, segs[i]);
      if idx == -1 || (i == 0 && idx != 0) then Stuck
      else Greedy(segs, i + 1, path, idx + |segs[i]|)
  }

  function Matches(pattern: string, path: string): bool {
    var p := Body(pattern);
    if p == "" then !Anchored(pattern) || path == ""
    else
      match Greedy(Split(p), 0, path, 0)
      case Stuck => false
      case At(pos) => Anchored(pattern) ==> pos == |path|
  }

  /** The loop over the pieces. */
  method ScanPieces(segs: seq<string>, path: string) returns (r: Scan)
    ensures r == Greedy(segs, 0, path, 0)
  {
    var pos := 0;
    var i := 0;
    while i < |segs|
      invariant 0 <= i <= |segs| && 0 <= pos <= |path|
      invariant Greedy(segs, i, path, pos) == Greedy(segs, 0, path, 0)
    {
      var seg := segs[i];
      if seg != "" {
        var idx := Find(path, pos, seg);
        if idx < 0 {
          return Stuck;
        }
        if i == 0 && idx != 0 {
          return Stuck;
        }
        pos := idx + |seg|;
      }
      i := i + 1;
    }
    return At(pos);
  }

  method PathMatches(pattern: string, path: string) returns (m: bool)
    ensures m == Matches(pattern, path)
  {
    var anchored := pattern != [] && pattern[|pattern| - 1] == '$';
    var p := if anchored then pattern[..|pattern| - 1] else pattern;
    if p == "" {
      return !anchored || path == "";
    }
    var scan := ScanPieces(Split(p), path);
    if scan.Stuck? {
      return false;
    }
    if anchored {
      return scan.pos == |path|;
    }
    return true;
  }

  // ---------------------------------------------------------------- what the scan is worth

  /** Where the scan takes piece `i`, if it finds it. */
  function Here(segs: seq<string>, i: nat, path: string, pos: nat): int
    requires i < |segs| && pos <= |path|
  {
    if segs[i] == "" then pos else Find(path, pos, segs[i])
  }

  lemma GreedyTakes(segs: seq<string>, i: nat, path: string, pos: nat)
    requires i < |segs| && pos <= |path|
    ensures
      var here := Here(segs, i, path, pos);
      if here < 0 || (i == 0 && here != 0 && segs[i] != "") then Greedy(segs, i, path, pos) == Stuck
      else
        && pos <= here && OccursAt(path, here, segs[i])
        && Greedy(segs, i, path, pos) == Greedy(segs, i + 1, path, here + |segs[i]|)
  {
  }

  lemma PlaceNext(segs: seq<string>, i: nat, path: string, done: seq<nat>, here: nat)
    requires i < |segs| && Placed(segs, i, path, done) && OccursAt(path, here, segs[i])
    requires i > 0 ==> done[i - 1] + |segs[i - 1]| <= here
    ensures Placed(segs, i + 1, path, done + [here])
  {
  }

  lemma FindIsEarliest(path: string, pos: nat, seg: string, k: nat)
    requires pos <= k && OccursAt(path, k, seg)
    ensures 0 <= Find(path, pos, seg) <= k
  {
  }

  lemma LeftmostNext(segs: seq<string>, i: nat, path: string, done: seq<nat>)
    requires i < |segs| && |done| == i && Leftmost(segs, i, path, done)
    requires i > 0 ==> done[i - 1] + |segs[i - 1]| <= |path|
    requires i > 0 ==> Here(segs, i, path, done[i - 1] + |segs[i - 1]|) >= 0
    ensures i > 0 ==> Leftmost(segs, i + 1, path, done + [Here(segs, i, path, done[i - 1] + |segs[i - 1]|)])
  {
    if i > 0 {
      var from := done[i - 1] + |segs[i - 1]|;
      var here := Here(segs, i, path, from);
      if segs[i] != "" {
        assert here == Find(path, from, segs[i]);
      }
    }
  }

  /** The first `i` pieces placed leftmost, and the scan right behind them. */
  ghost predicate ScannedTo(segs: seq<string>, i: nat, path: string, pos: nat, done: seq<nat>)
    requires i <= |segs|
  {
    && Placed(segs, i, path, done) && Leftmost(segs, i, path, done)
    && if i == 0 then pos == 0 else done[0] == 0 && pos == done[i - 1] + |segs[i - 1]|
  }

  lemma ScanOne(segs: seq<string>, i: nat, path: string, pos: nat, done: seq<nat>)
    requires i < |segs| && pos <= |path| && Greedy(segs, i, path, pos).At? && ScannedTo(segs, i, path, pos, done)
    ensures
      var here := Here(segs, i, path, pos);
      && 0 <= here && here + |segs[i]| <= |path|
      && Greedy(segs, i, path, pos) == Greedy(segs, i + 1, path, here + |segs[i]|)
      && ScannedTo(segs, i + 1, path, here + |segs[i]|, done + [here])
  {
    GreedyTakes(segs, i, path, pos);
    PlaceNext(segs, i, path, done, Here(segs, i, path, pos));
    LeftmostNext(segs, i, path, done);
  }

  /** A scan that gets through yields a leftmost placement that ends where the scan stands. */
  lemma {:induction false} GreedySound(segs: seq<string>, i: nat, path: string, pos: nat, done: seq<nat>)
    returns (at: seq<nat>)
    requires i <= |segs| && segs != [] && pos <= |path| && Greedy(segs, i, path, pos).At?
    requires ScannedTo(segs, i, path, pos, done)
    ensures Placed(segs, |segs|, path, at) && Leftmost(segs, |segs|, path, at)
    ensures at[0] == 0 && End(segs, at) == Greedy(segs, i, path, pos).pos
    decreases |segs| - i
  {
    at := done;
    if i < |segs| {
      var here := Here(segs, i, path, pos);
      ScanOne(segs, i, path, pos, done);
      at := GreedySound(segs, i + 1, path, here + |segs[i]|, done + [here]);
    }
  }

  /** A piece that stands nowhere earlier is where the scan takes it. */
  lemma TakenThere(segs: seq<string>, i: nat, path: string, pos: nat, k: nat)
    requires i < |segs| && pos <= |path| && pos <= k && OccursAt(path, k, segs[i])
    requires if i == 0 then k == pos == 0 else NoEarlier(path, pos, k, segs[i])
    ensures Greedy(segs, i, path, pos) == Greedy(segs, i + 1, path, k + |segs[i]|)
  {
    FindIsEarliest(path, pos, segs[i], k);
    GreedyTakes(segs, i, path, pos);
    assert Here(segs, i, path, pos) == k;
  }

  /** Where the scan stands before the piece with this number. */
  function Before(segs: seq<string>, at: seq<nat>, i: nat): nat
    requires i <= |segs| == |at|
  {
    if i == 0 then 0 else at[i - 1] + |segs[i - 1]|
  }

  lemma OneTaken(segs: seq<string>, i: nat, path: string, at: seq<nat>)
    requires i < |segs| && Placed(segs, |segs|, path, at) && Leftmost(segs, |segs|, path, at) && at[0] == 0
    ensures Before(segs, at, i) <= |path| && Before(segs, at, i + 1) <= |path|
    ensures Greedy(segs, i, path, Before(segs, at, i)) == Greedy(segs, i + 1, path, Before(segs, at, i + 1))
  {
    assert OccursAt(path, at[i], segs[i]);
    TakenThere(segs, i, path, Before(segs, at, i), at[i]);
  }

  /** A leftmost placement is the one the scan finds. */
  lemma {:induction false} GreedyFindsLeftmost(segs: seq<string>, i: nat, path: string, at: seq<nat>)
    requires i <= |segs| && segs != []
    requires Placed(segs, |segs|, path, at) && Leftmost(segs, |segs|, path, at) && at[0] == 0
    ensures Before(segs, at, i) <= |path| && Greedy(segs, i, path, Before(segs, at, i)) == At(End(segs, at))
    decreases |segs| - i
  {
    if i < |segs| {
      OneTaken(segs, i, path, at);
      GreedyFindsLeftmost(segs, i + 1, path, at);
    } else {
      assert OccursAt(path, at[i - 1], segs[i - 1]);
    }
  }

  /** Any placement is overtaken by the scan: it gets through, and no later. */
  lemma {:induction false} GreedyIsEarliest(segs: seq<string>, i: nat, path: string, at: seq<nat>, pos: nat)
    requires i < |segs| && Placed(segs, |segs|, path, at) && pos <= at[i] && pos <= |path|
    requires i == 0 ==> pos == at[0] == 0
    ensures Greedy(segs, i, path, pos).At? && Greedy(segs, i, path, pos).pos <= End(segs, at)
    decreases |segs| - i
  {
    FindIsEarliest(path, pos, segs[i], at[i]);
    GreedyTakes(segs, i, path, pos);
    if i + 1 < |segs| {
      GreedyIsEarliest(segs, i + 1, path, at, Here(segs, i, path, pos) + |segs[i]|);
    }
  }

  /** A match reported is a match: the path has the split the pattern describes. */
  lemma MatchesIsSound(pattern: string, path: string)
    requires Matches(pattern, path)
    ensures Glob(pattern, path)
  {
    var segs := Split(Body(pattern));
    if Body(pattern) == "" {
      assert segs == [""];
      assert Witness(pattern, path, [0]);
    } else {
      var at := GreedySound(segs, 0, path, 0, []);
      assert Witness(pattern, path, at);
    }
  }

  /** Pieces in place, each where it first occurs after the one before, ending where an anchor says. */
  ghost predicate LeftmostGlob(pattern: string, path: string) {
    exists at: seq<nat> :: Witness(pattern, path, at) && Leftmost(Split(Body(pattern)), |at|, path, at)
  }

  /** Exactly what the matcher accepts, anchored or not: the leftmost placements that fit. */
  lemma MatchesIffLeftmost(pattern: string, path: string)
    ensures Matches(pattern, path) <==> LeftmostGlob(pattern, path)
  {
    var segs := Split(Body(pattern));
    if Body(pattern) == "" {
      assert segs == [""];
      assert Witness(pattern, path, [0]) <==> !Anchored(pattern) || path == "";
      assert Leftmost(segs, 1, path, [0]);
    } else {
      if Matches(pattern, path) {
        var at := GreedySound(segs, 0, path, 0, []);
        assert Witness(pattern, path, at) && Leftmost(segs, |at|, path, at);
      }
      if LeftmostGlob(pattern, path) {
        var at: seq<nat> :| Witness(pattern, path, at) && Leftmost(segs, |at|, path, at);
        GreedyFindsLeftmost(segs, 0, path, at);
      }
    }
  }

  /** Without an anchor, or without a wildcard, no match is missed. */
  lemma MatchesIsComplete(pattern: string, path: string)
    requires !Anchored(pattern) || '*' !in pattern
    requires Glob(pattern, path)
    ensures Matches(pattern, path)
  {
    var segs := Split(Body(pattern));
    var at: seq<nat> :| Witness(pattern, path, at);
    GreedyIsEarliest(segs, 0, path, at, 0);
    if Anchored(pattern) {
      assert forall k :: 0 <= k < |Body(pattern)| ==> Body(pattern)[k] == pattern[k];
      assert |segs| == 1;
      var found := GreedySound(segs, 0, path, 0, []);
      assert End(segs, at) == End(segs, found) == |path|;
    }
  }

  // ---------------------------------------------------------------- where greed fails

  /** The first `n` pieces, run together. */
  function Joined(segs: seq<string>, n: nat): string
    requires n <= |segs|
  {
    if n == 0 then "" else Joined(segs, n - 1) + segs[n - 1]
  }

  /** Each piece occurs in their concatenation right after the ones before it. */
  lemma {:induction false} PieceOccurs(segs: seq<string>, n: nat, k: nat, tail: string)
    requires k < n <= |segs|
    ensures OccursAt(Joined(segs, n) + tail, |Joined(segs, k)|, segs[k])
    ensures |Joined(segs, k)| + |segs[k]| == |Joined(segs, k + 1)|
  {
    var before, last := Joined(segs, n - 1), segs[n - 1];
    assert before + last + tail == before + (last + tail);
    if k < n - 1 {
      PieceOccurs(segs, n - 1, k, last + tail);
    } else {
      OccursAfter(before, last, tail);
    }
  }

  lemma OccursAfter(pre: string, seg: string, post: string)
    ensures OccursAt(pre + seg + post, |pre|, seg)
  {
  }

  /** The pieces back to back, but for the last, which is pushed back by `shift`. */
  function Offsets(segs: seq<string>, shift: nat): (at: seq<nat>)
    requires segs != []
  {
    var n := |segs| - 1;
    seq(n, k requires 0 <= k < n => |Joined(segs, k)|) + [|Joined(segs, n)| + shift]
  }

  /** A tail after which the last piece occurs again: any text for an empty one, else its repetition. */
  predicate Repeats(last: string, tail: string) { last == "" || tail == last }

  lemma LastOccursAgain(pre: string, last: string, tail: string)
    requires Repeats(last, tail)
    ensures OccursAt(pre + last + tail, |pre| + |tail|, last)
  {
    if last != "" {
      OccursAfter(pre + last, last, "");
      assert pre + last + last == pre + last + last + "";
    }
  }

  lemma OffsetOf(segs: seq<string>, shift: nat, k: nat)
    requires k < |segs|
    ensures
      var at := Offsets(segs, shift);
      |at| == |segs| && at[k] == |Joined(segs, k)| + if k == |segs| - 1 then shift else 0
  {
  }

  lemma OffsetOccurs(segs: seq<string>, tail: string, shift: nat, k: nat)
    requires k < |segs| && (shift == 0 || (shift == |tail| && Repeats(segs[|segs| - 1], tail)))
    ensures OccursAt(Joined(segs, |segs|) + tail, Offsets(segs, shift)[k], segs[k])
    ensures k + 1 < |segs| ==> Offsets(segs, shift)[k] + |segs[k]| <= Offsets(segs, shift)[k + 1]
  {
    var n := |segs| - 1;
    OffsetOf(segs, shift, k);
    PieceOccurs(segs, |segs|, k, tail);
    if k < n {
      OffsetOf(segs, shift, k + 1);
    } else if shift != 0 {
      LastOccursAgain(Joined(segs, n), segs[n], tail);
    }
  }

  /** Back to back they are placed in their own concatenation, the last also at the very end. */
  lemma OffsetsPlace(segs: seq<string>, tail: string, shift: nat)
    requires segs != [] && (shift == 0 || (shift == |tail| && Repeats(segs[|segs| - 1], tail)))
    ensures
      var path, at := Joined(segs, |segs|) + tail, Offsets(segs, shift);
      && Placed(segs, |segs|, path, at)
      && (|segs| > 1 ==> at[0] == 0)
      && End(segs, at) == |path| - |tail| + shift
  {
    var at := Offsets(segs, shift);
    OffsetOf(segs, shift, 0);
    OffsetOf(segs, shift, |segs| - 1);
    forall k | 0 <= k < |segs| ensures OccursAt(Joined(segs, |segs|) + tail, at[k], segs[k]) {
      OffsetOccurs(segs, tail, shift, k);
    }
    forall k | 0 < k < |segs| ensures at[k - 1] + |segs[k - 1]| <= at[k] {
      OffsetOccurs(segs, tail, shift, k - 1);
    }
  }

  /** A path the pattern describes, whose pieces also occur earlier than they have to. */
  function Trap(pattern: string): string {
    var segs := Split(Body(pattern));
    Joined(segs, |segs|) + (if segs[|segs| - 1] == "" then "x" else segs[|segs| - 1])
  }

  /** An anchored pattern with a wildcard misses its trap. */
  lemma TrapIsMissed(pattern: string)
    requires Anchored(pattern) && '*' in pattern
    ensures Glob(pattern, Trap(pattern)) && !Matches(pattern, Trap(pattern))
  {
    var segs := Split(Body(pattern));
    var last := segs[|segs| - 1];
    var extra := if last == "" then "x" else last;
    var path := Trap(pattern);
    assert '*' in Body(pattern) by {
      var k :| 0 <= k < |pattern| && pattern[k] == '*';
      assert Body(pattern)[k] == '*';
    }
    OffsetsPlace(segs, extra, 0);
    GreedyIsEarliest(segs, 0, path, Offsets(segs, 0), 0);
    OffsetsPlace(segs, extra, |extra|);
    assert Witness(pattern, path, Offsets(segs, |extra|));
  }

  /**
   * Exactly when the greedy matcher decides the pattern language: for every pattern but the
   * anchored ones that contain a wildcard.
   */
  lemma ExactIffNotAnchoredWildcard(pattern: string)
    ensures (forall path :: Matches(pattern, path) <==> Glob(pattern, path))
      <==> !(Anchored(pattern) && '*' in pattern)
  {
    if Anchored(pattern) && '*' in pattern {
      TrapIsMissed(pattern);
    } else {
      forall path ensures Matches(pattern, path) <==> Glob(pattern, path) {
        if Matches(pattern, path) { MatchesIsSound(pattern, path); }
        if Glob(pattern, path) { MatchesIsComplete(pattern, path); }
      }
    }
  }

  // ---------------------------------------------------------------- choosing among rules

  /** Among the first `n`, `i` is a matching rule, none that matches is longer, and none as long is earlier. */
  ghost predicate Decides(rules: seq<Rule>, path: string, n: nat, i: nat)
    requires n <= |rules|
  {
    && i < n && Matches(rules[i].pattern, path)
    && (forall j :: 0 <= j < n && Matches(rules[j].pattern, path) ==> |rules[j].pattern| <= |rules[i].pattern|)
    && (forall j :: 0 <= j < i && Matches(rules[j].pattern, path) ==> |rules[j].pattern| < |rules[i].pattern|)
  }

  ghost predicate NoneMatch(rules: seq<Rule>, path: string, n: nat)
    requires n <= |rules|
  {
    forall j :: 0 <= j < n ==> !Matches(rules[j].pattern, path)
  }

  /** The same two, with the outcome of every match laid out. */
  ghost predicate Best(rules: seq<Rule>, hits: seq<bool>, n: nat, i: nat)
    requires n <= |rules| == |hits|
  {
    && i < n && hits[i]
    && (forall j :: 0 <= j < n && hits[j] ==> |rules[j].pattern| <= |rules[i].pattern|)
    && (forall j :: 0 <= j < i && hits[j] ==> |rules[j].pattern| < |rules[i].pattern|)
  }

  lemma BestMore(rules: seq<Rule>, hits: seq<bool>, n: nat, i: nat)
    requires n < |rules| == |hits| && Best(rules, hits, n, i)
    requires hits[n] ==> |rules[n].pattern| <= |rules[i].pattern|
    ensures Best(rules, hits, n + 1, i)
  {
  }

  lemma BestNew(rules: seq<Rule>, hits: seq<bool>, n: nat, i: nat)
    requires n < |rules| == |hits| && hits[n]
    requires
      || (forall j :: 0 <= j < n ==> !hits[j])
      || (Best(rules, hits, n, i) && |rules[n].pattern| > |rules[i].pattern|)
    ensures Best(rules, hits, n + 1, n)
  {
  }

  lemma BestDecides(rules: seq<Rule>, path: string, hits: seq<bool>, i: nat)
    requires |hits| == |rules| && Best(rules, hits, |rules|, i)
    requires forall j :: 0 <= j < |rules| ==> hits[j] == Matches(rules[j].pattern, path)
    ensures Decides(rules, path, |rules|, i)
  {
  }

  /** The verdict is that of the earliest among the longest matching rules; with none, allowed. */
  method MatchRules(rules: seq<Rule>, path: string) returns (allowed: bool)
    ensures
      || (NoneMatch(rules, path, |rules|) && allowed)
      || exists i: nat :: Decides(rules, path, |rules|, i) && allowed == !rules[i].disallow
  {
    ghost var hits := seq(|rules|, j requires 0 <= j < |rules| => Matches(rules[j].pattern, path));
    var bestLen := -1;
    var bestDisallow := false;
    ghost var best: nat := 0;
    var n := 0;
    while n < |rules|
      invariant 0 <= n <= |rules|
      invariant bestLen < 0 ==> bestLen == -1 && forall j :: 0 <= j < n ==> !hits[j]
      invariant bestLen >= 0 ==> Best(rules, hits, n, best)
      invariant bestLen >= 0 ==> bestLen == |rules[best].pattern| && bestDisallow == rules[best].disallow
    {
      var r := rules[n];
      var m := PathMatches(r.pattern, path);
      assert m == hits[n];
      if m && |r.pattern| > bestLen {
        BestNew(rules, hits, n, best);
        bestLen := |r.pattern|;
        bestDisallow := r.disallow;
        best := n;
      } else if bestLen >= 0 {
        BestMore(rules, hits, n, best);
      }
      n := n + 1;
    }
    if bestLen < 0 {
      assert forall j :: 0 <= j < |rules| ==> hits[j] == Matches(rules[j].pattern, path);
      return true;
    }
    BestDecides(rules, path, hits, best);
    return !bestDisallow;
  }
}
