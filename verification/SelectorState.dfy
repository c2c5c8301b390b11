/**
 * `CommitState` of internal/extract/selector/state.go: folding one crawl's outcome into the
 * history of imported URLs.
 */
module SelectorState {
  import opened Wrappers
  import opened DistinctLists
  import Ranks

  const MAX_CANDIDATES := 500
  const MAX_SEEN := 2000
  const MAX_ARTICLE_RETRIES := 3

  datatype State = State(seen: seq<string>, pending: map<string, nat>, truncated: bool, configHash: string)

  /** What a missing or unreadable state decodes to. */
  const ZERO := State([], map[], false, "")

  datatype CommitInput = CommitInput(
    candidates: seq<string>, imported: seq<string>, fetchFailed: seq<string>,
    initial: bool, truncated: bool, configHash: string)

  function Count(pending: map<string, nat>, u: string): nat {
    if u in pending then pending[u] else 0
  }

  // ---------------------------------------------------------------- the five rules, as functions

  /** Rules 1 and 3: imported URLs, and on the first crawl everything not failed, become seen. */
  function Additions(input: CommitInput): seq<string> {
    input.imported +
    (if input.initial then Without(input.candidates, Elements(input.fetchFailed)) else [])
  }

  /** Rule 4: pending survives only for candidates not imported. */
  function Retained(pending: map<string, nat>, input: CommitInput): map<string, nat> {
    map u | u in pending && u in input.candidates && u !in input.imported :: pending[u]
  }

  /** Rule 2: one more failure for each listed URL. */
  function BumpAll(pending: map<string, nat>, failed: seq<string>): map<string, nat> {
    if failed == [] then pending
    else
      var p := BumpAll(pending, failed[..|failed| - 1]);
      var u := failed[|failed| - 1];
      p[u := Count(p, u) + 1]
  }

  /** Rule 5: drop the first `n` URLs outside `keep`. */
  function Evict(order: seq<string>, n: int, keep: set<string>): seq<string> {
    if order == [] then []
    else if n > 0 && order[0] !in keep then Evict(order[1..], n - 1, keep)
    else [order[0]] + Evict(order[1..], n, keep)
  }

  function Capped(order: seq<string>, keep: set<string>): seq<string> {
    if |order| > MAX_SEEN then Evict(order, |order| - MAX_SEEN, keep) else order
  }

  function Commit(prev: Option<State>, input: CommitInput): State {
    var st := if prev.Some? then prev.value else ZERO;
    var order := AddAll(AddAll([], st.seen), Additions(input));
    State(Capped(order, Elements(input.candidates)),
          BumpAll(Retained(st.pending, input), input.fetchFailed),
          input.truncated, input.configHash)
  }

  // ---------------------------------------------------------------- the program's loops

  method AddEach(seenSet0: set<string>, order0: seq<string>, urls: seq<string>)
    returns (seenSet: set<string>, order: seq<string>)
    requires seenSet0 == Elements(order0)
    ensures order == AddAll(order0, urls) && seenSet == Elements(order)
  {
    seenSet, order := seenSet0, order0;
    var n := 0;
    while n < |urls|
      invariant 0 <= n <= |urls|
      invariant order == AddAll(order0, urls[..n]) && seenSet == Elements(order)
    {
      assert urls[..n + 1][..n] == urls[..n];
      if urls[n] !in seenSet {
        assert Elements(order + [urls[n]]) == Elements(order) + {urls[n]};
        seenSet := seenSet + {urls[n]};
        order := order + [urls[n]];
      }
      n := n + 1;
    }
    assert urls[..n] == urls;
  }

  method Bump(pending0: map<string, nat>, failed: seq<string>) returns (pending: map<string, nat>)
    ensures pending == BumpAll(pending0, failed)
  {
    pending := pending0;
    var n := 0;
    while n < |failed|
      invariant 0 <= n <= |failed|
      invariant pending == BumpAll(pending0, failed[..n])
    {
      assert failed[..n + 1][..n] == failed[..n];
      pending := pending[failed[n] := Count(pending, failed[n]) + 1];
      n := n + 1;
    }
    assert failed[..n] == failed;
  }

  method EvictOldest(order: seq<string>, toRemove: nat, keep: set<string>) returns (kept: seq<string>)
    ensures kept == Evict(order, toRemove, keep)
  {
    kept := [];
    var removed := 0;
    var n := 0;
    while n < |order|
      invariant 0 <= n <= |order| && 0 <= removed <= toRemove
      invariant kept + Evict(order[n..], toRemove - removed, keep) == Evict(order, toRemove, keep)
    {
      assert order[n..][1..] == order[n + 1..];
      var u := order[n];
      n := n + 1;
      if removed < toRemove && u !in keep {
        removed := removed + 1;
        continue;
      }
      kept := kept + [u];
    }
  }

  /** Rules 1 to 3: the history with this crawl's additions, before the cap. */
  method FoldSeen(seen: seq<string>, input: CommitInput) returns (order: seq<string>)
    ensures order == AddAll(AddAll([], seen), Additions(input))
  {
    var seenSet;
    seenSet, order := AddEach({}, [], seen);
    seenSet, order := AddEach(seenSet, order, input.imported);
    assert input.imported + [] == input.imported;
    if input.initial {
      var failed := set u | u in input.fetchFailed;
      var unfailed := Without(input.candidates, failed);
      seenSet, order := AddEach(seenSet, order, unfailed);
      AddAllConcat(AddAll([], seen), input.imported, unfailed);
    }
  }

  /** Rules 4 and 5: failures still open among the candidates, and one more for each new failure. */
  method FoldPending(pending: map<string, nat>, input: CommitInput) returns (next: map<string, nat>)
    ensures next == BumpAll(Retained(pending, input), input.fetchFailed)
  {
    var candSet := set u | u in input.candidates;
    next := map u | u in pending && u in candSet :: pending[u];
    next := next - (set u | u in input.imported);
    assert next == Retained(pending, input);
    next := Bump(next, input.fetchFailed);
  }

  method CommitState(prev: Option<State>, input: CommitInput) returns (next: State)
    ensures next == Commit(prev, input)
  {
    var st := if prev.Some? then prev.value else ZERO;
    var order := FoldSeen(st.seen, input);
    var newPending := FoldPending(st.pending, input);
    if |order| > MAX_SEEN {
      order := EvictOldest(order, |order| - MAX_SEEN, set u | u in input.candidates);
    }
    next := State(order, newPending, input.truncated, input.configHash);
  }

  // ---------------------------------------------------------------- what a commit keeps

  /** A state the crawler can be left with. */
  ghost predicate Healthy(s: State) {
    && Distinct(s.seen) && |s.seen| <= MAX_SEEN
    && (forall u :: u in s.pending ==> u !in s.seen && 1 <= s.pending[u] < MAX_ARTICLE_RETRIES)
  }

  /** What the crawler reports: new URLs, split into imported, failed and untouched. */
  ghost predicate Reported(prev: Option<State>, input: CommitInput) {
    var st := if prev.Some? then prev.value else ZERO;
    && Distinct(input.candidates) && |input.candidates| <= MAX_CANDIDATES
    && Distinct(input.imported) && Distinct(input.fetchFailed)
    && (forall u :: u in input.candidates ==> u !in st.seen)
    && (forall u :: u in input.imported ==> u in input.candidates && u !in input.fetchFailed)
    && (forall u :: u in input.fetchFailed ==>
          u in input.candidates && Count(st.pending, u) + 1 < MAX_ARTICLE_RETRIES)
    && (input.initial ==> prev.None?)
  }

  lemma {:induction false} BumpAllFacts(pending: map<string, nat>, failed: seq<string>)
    requires Distinct(failed)
    ensures forall u :: u in BumpAll(pending, failed) <==> u in pending || u in failed
    ensures forall u :: Count(BumpAll(pending, failed), u) == Count(pending, u) + (if u in failed then 1 else 0)
  {
    if failed != [] {
      var init, last := failed[..|failed| - 1], failed[|failed| - 1];
      assert failed == init + [last];
      assert last !in init;
      BumpAllFacts(pending, init);
    }
  }

  /** When the oldest `n` are all outside `keep`, rule 5 drops exactly those. */
  lemma {:induction false} EvictOldestPrefix(order: seq<string>, n: nat, keep: set<string>)
    requires n <= |order| && forall i :: 0 <= i < n ==> order[i] !in keep
    ensures Evict(order, n, keep) == order[n..]
  {
    if order != [] {
      EvictOldestPrefix(order[1..], if n > 0 then n - 1 else 0, keep);
    }
  }

  lemma {:induction false} EvictFacts(order: seq<string>, n: int, keep: set<string>)
    ensures forall u :: u in Evict(order, n, keep) ==> u in order
    ensures forall u :: u in order && u in keep ==> u in Evict(order, n, keep)
    ensures Distinct(order) ==> Distinct(Evict(order, n, keep))
  {
    if order != [] {
      EvictFacts(order[1..], if n > 0 && order[0] !in keep then n - 1 else n, keep);
      if Distinct(order) { assert order[0] !in order[1..]; }
    }
  }

  lemma OrderBeforeCap(prev: State, input: CommitInput)
    requires Healthy(prev) && Reported(Some(prev), input)
    ensures AddAll(AddAll([], prev.seen), Additions(input)) == prev.seen + input.imported
    ensures Distinct(prev.seen + input.imported) && |input.imported| <= MAX_CANDIDATES
  {
    AddAllFresh([], prev.seen);
    AddAllFresh(prev.seen, input.imported);
    AddAllFacts(prev.seen, input.imported);
    assert [] + prev.seen == prev.seen && input.imported + [] == input.imported;
    DistinctSize(input.imported);
    DistinctSize(input.candidates);
    Ranks.SubsetSize(Elements(input.imported), Elements(input.candidates));
  }

  /** How far a commit overshoots the cap. */
  function Excess(prev: State, input: CommitInput): nat {
    if |prev.seen| + |input.imported| > MAX_SEEN then |prev.seen| + |input.imported| - MAX_SEEN else 0
  }

  /** The new history is the old one followed by the imports, minus exactly the oldest of the old ones. */
  lemma CommitForgetsOnlyOldest(prev: State, input: CommitInput)
    requires Healthy(prev) && Reported(Some(prev), input)
    ensures Excess(prev, input) <= |prev.seen|
    ensures Commit(Some(prev), input).seen == (prev.seen + input.imported)[Excess(prev, input)..]
  {
    OrderBeforeCap(prev, input);
    var order, n := prev.seen + input.imported, Excess(prev, input);
    forall i | 0 <= i < n ensures order[i] !in Elements(input.candidates) {
      assert order[i] == prev.seen[i] && prev.seen[i] in prev.seen;
    }
    if n > 0 {
      EvictOldestPrefix(order, n, Elements(input.candidates));
    }
  }

  /** A URL of the old history is forgotten exactly when it is among the oldest that exceed the cap. */
  lemma ForgottenIff(prev: State, input: CommitInput, i: nat)
    requires Healthy(prev) && Reported(Some(prev), input) && i < |prev.seen|
    ensures prev.seen[i] in Commit(Some(prev), input).seen <==> i >= Excess(prev, input)
  {
    CommitForgetsOnlyOldest(prev, input);
    OrderBeforeCap(prev, input);
    var order, n := prev.seen + input.imported, Excess(prev, input);
    assert order[i] == prev.seen[i];
    if i >= n {
      assert order[n..][i - n] == prev.seen[i];
    }
  }

  /** A commit forgets nothing exactly when history and imports fit under the cap together. */
  lemma ForgetsNothingIff(prev: State, input: CommitInput)
    requires Healthy(prev) && Reported(Some(prev), input)
    ensures Elements(prev.seen) <= Elements(Commit(Some(prev), input).seen)
      <==> |prev.seen| + |input.imported| <= MAX_SEEN
  {
    CommitForgetsOnlyOldest(prev, input);
    if Excess(prev, input) > 0 {
      ForgottenIff(prev, input, 0);
      assert prev.seen[0] in Elements(prev.seen);
    } else {
      forall u | u in prev.seen ensures u in Commit(Some(prev), input).seen {
        var i :| 0 <= i < |prev.seen| && prev.seen[i] == u;
        ForgottenIff(prev, input, i);
      }
    }
  }

  /** On a first crawl nothing is forgotten, since the candidates alone are far below the cap. */
  lemma FirstCommitForgetsNothing(input: CommitInput)
    requires Reported(None, input)
    ensures Elements(Commit(None, input).seen) == Elements(Additions(input))
    ensures Distinct(Commit(None, input).seen) && |Commit(None, input).seen| <= MAX_CANDIDATES
  {
    var order := AddAll(AddAll([], []), Additions(input));
    AddAllFacts([], Additions(input));
    WithoutMembers(input.candidates, Elements(input.fetchFailed));
    DistinctSize(order);
    DistinctSize(input.candidates);
    Ranks.SubsetSize(Elements(order), Elements(input.candidates));
  }

  lemma CommitSeenHealthy(prev: Option<State>, input: CommitInput)
    requires prev.Some? ==> Healthy(prev.value)
    requires Reported(prev, input)
    ensures Distinct(Commit(prev, input).seen) && |Commit(prev, input).seen| <= MAX_SEEN
    ensures forall u :: u in input.imported ==> u in Commit(prev, input).seen
  {
    if prev.Some? {
      CommitForgetsOnlyOldest(prev.value, input);
      OrderBeforeCap(prev.value, input);
      var order, n := prev.value.seen + input.imported, Excess(prev.value, input);
      forall u | u in input.imported ensures u in order[n..] {
        var i :| 0 <= i < |input.imported| && input.imported[i] == u;
        assert order[n..][|prev.value.seen| - n + i] == u;
      }
    } else {
      FirstCommitForgetsNothing(input);
      assert forall u :: u in input.imported ==> u in Elements(Additions(input));
    }
  }

  /** One commit keeps the state healthy and records every import. */
  lemma CommitKeepsHealthy(prev: Option<State>, input: CommitInput)
    requires prev.Some? ==> Healthy(prev.value)
    requires Reported(prev, input)
    ensures Healthy(Commit(prev, input))
    ensures forall u :: u in input.imported ==> u in Commit(prev, input).seen
  {
    CommitSeenHealthy(prev, input);
    BumpAllFacts(Retained(if prev.Some? then prev.value.pending else map[], input), input.fetchFailed);
    var next := Commit(prev, input);
    forall u | u in next.pending ensures u !in next.seen && 1 <= next.pending[u] < MAX_ARTICLE_RETRIES {
      assert next.pending[u] == Count(next.pending, u);
      PendingIsUnseen(prev, input, u);
    }
  }

  /** A commit makes seen only what was seen, imported, or sealed on a first crawl. */
  lemma SeenComesFrom(prev: Option<State>, input: CommitInput, u: string)
    requires u in Commit(prev, input).seen
    ensures
      || (prev.Some? && u in prev.value.seen)
      || u in input.imported
      || (input.initial && u in input.candidates && u !in input.fetchFailed)
  {
    var st := if prev.Some? then prev.value else ZERO;
    var order := AddAll(AddAll([], st.seen), Additions(input));
    AddAllFacts([], st.seen);
    AddAllFacts(AddAll([], st.seen), Additions(input));
    WithoutMembers(input.candidates, Elements(input.fetchFailed));
    EvictFacts(order, |order| - MAX_SEEN, Elements(input.candidates));
  }

  lemma PendingIsUnseen(prev: Option<State>, input: CommitInput, u: string)
    requires prev.Some? ==> Healthy(prev.value)
    requires Reported(prev, input)
    requires u in Commit(prev, input).pending
    ensures u in input.candidates && u !in Commit(prev, input).seen
  {
    var st := if prev.Some? then prev.value else ZERO;
    BumpAllFacts(Retained(st.pending, input), input.fetchFailed);
    if u in Commit(prev, input).seen { SeenComesFrom(prev, input, u); }
  }

  /** The failure count of a candidate that was not imported. */
  lemma CommitPending(prev: Option<State>, input: CommitInput, u: string)
    requires Reported(prev, input) && u in input.candidates && u !in input.imported
    ensures
      var st := if prev.Some? then prev.value else ZERO;
      Count(Commit(prev, input).pending, u) == Count(st.pending, u) + (if u in input.fetchFailed then 1 else 0)
  {
    var st := if prev.Some? then prev.value else ZERO;
    BumpAllFacts(Retained(st.pending, input), input.fetchFailed);
  }
}
