/**
 * What the boilerplate learner guarantees over whole runs of observed pages: bounded counters,
 * chrome that stays recognised, and stale chrome that is forgotten.
 */
module BoilerplateRuns {
  import opened DistinctLists
  import opened Boilerplate
  import Ranks

  type Pages = seq<seq<string>>

  /** The learner after a sequence of observed pages. */
  function Learn(l: Learner, pages: Pages): Learner {
    if pages == [] then l else Observed(Learn(l, pages[..|pages| - 1]), pages[|pages| - 1])
  }

  ghost predicate DuplicateFree(pages: Pages) {
    forall i :: 0 <= i < |pages| ==> Distinct(pages[i])
  }

  // ---------------------------------------------------------------- bounds

  ghost predicate Bounded(l: Learner) {
    && l.pages < DECAY_PAGES && |l.counts| <= MAX_SIGNATURES
    && forall sig :: sig in l.counts ==> 0 < l.counts[sig].count <= l.pages
  }

  lemma {:induction false} BumpFacts(counts: Counts, sigs: seq<string>, pages: nat)
    requires Distinct(sigs)
    ensures forall sig :: sig in Bump(counts, sigs, pages) <==> sig in counts || sig in sigs
    ensures forall sig ::
      Get(Bump(counts, sigs, pages), sig).count == Get(counts, sig).count + (if sig in sigs then 1 else 0)
  {
    if sigs != [] {
      var init, last := sigs[..|sigs| - 1], sigs[|sigs| - 1];
      assert sigs == init + [last];
      assert last !in init;
      BumpFacts(counts, init, pages);
    }
  }

  /** The counter of one signature after a page, before eviction. */
  lemma CountedOne(l: Learner, sigs: seq<string>, sig: string)
    requires Distinct(sigs)
    ensures
      var n := Get(l.counts, sig).count + (if sig in sigs then 1 else 0);
      Get(Counted(l, sigs).counts, sig).count == if l.pages + 1 >= DECAY_PAGES then n / 2 else n
    ensures sig in Counted(l, sigs).counts ==> sig in l.counts || sig in sigs
    ensures Bounded(l) && sig in Counted(l, sigs).counts ==> Counted(l, sigs).counts[sig].count > 0
  {
    BumpFacts(l.counts, sigs, l.pages + 1);
    var b := Bump(l.counts, sigs, l.pages + 1);
    assert sig in b ==> b[sig].count == Get(b, sig).count;
  }

  lemma MapMinus(counts: Counts, gone: set<string>)
    requires gone <= counts.Keys
    ensures |counts - gone| == |counts| - |gone|
  {
    assert (counts - gone).Keys == counts.Keys - gone;
    assert counts.Keys == (counts.Keys - gone) + gone;
  }

  /** Eviction keeps counters as they are, and at most `limit` of them. */
  lemma EvictedSize(counts: Counts, limit: nat)
    ensures |Evicted(counts, limit)| == if |counts| <= limit then |counts| else limit
    ensures forall sig :: sig in Evicted(counts, limit) ==> sig in counts && Evicted(counts, limit)[sig] == counts[sig]
  {
    if |counts| > limit {
      WeakestSize(counts, |counts| - limit);
      MapMinus(counts, Weakest(counts, |counts| - limit));
    }
  }

  lemma WeakestSize(counts: Counts, n: nat)
    requires n <= |counts|
    ensures Weakest(counts, n) <= counts.Keys && |Weakest(counts, n)| == n
  {
    StrengthIsStrictTotal(counts);
    Ranks.FirstSize(counts.Keys, n, ByStrength(counts));
  }

  lemma ObserveStaysBounded(l: Learner, sigs: seq<string>)
    requires Bounded(l) && Distinct(sigs)
    ensures Bounded(Observed(l, sigs))
  {
    var c := Counted(l, sigs);
    EvictedSize(c.counts, MAX_SIGNATURES);
    forall sig | sig in Observed(l, sigs).counts ensures 0 < Observed(l, sigs).counts[sig].count <= c.pages {
      CountedOne(l, sigs, sig);
      assert Get(c.counts, sig) == c.counts[sig];
    }
  }

  /** From nothing, under any duplicate-free pages, all counters stay within their bounds. */
  lemma {:induction false} BumpStamps(counts: Counts, sigs: seq<string>, pages: nat, sig: string)
    ensures
      sig in Bump(counts, sigs, pages) ==>
        Get(Bump(counts, sigs, pages), sig).lastSeen == if sig in sigs then pages else Get(counts, sig).lastSeen
  {
    if sigs != [] {
      var init, last := sigs[..|sigs| - 1], sigs[|sigs| - 1];
      assert sigs == init + [last];
      BumpStamps(counts, init, pages, sig);
    }
  }

  /** What one page makes of a counter: one more if it was there, then half of it every 64 pages. */
  ghost predicate CountsFor(l: Learner, sigs: seq<string>, sig: string, c: SigCount) {
    var n := (if sig in l.counts then l.counts[sig].count else 0) + (if sig in sigs then 1 else 0);
    && c.count == (if l.pages + 1 >= 64 then n / 2 else n)
    && c.count > 0
    && c.lastSeen == if sig in sigs then l.pages + 1 else if sig in l.counts then l.counts[sig].lastSeen else 0
  }

  lemma CountedIs(l: Learner, sigs: seq<string>, sig: string)
    requires Bounded(l) && Distinct(sigs)
    ensures sig in Counted(l, sigs).counts ==> CountsFor(l, sigs, sig, Counted(l, sigs).counts[sig])
    ensures (exists c :: CountsFor(l, sigs, sig, c)) ==> sig in Counted(l, sigs).counts
  {
    CountedOne(l, sigs, sig);
    BumpFacts(l.counts, sigs, l.pages + 1);
    BumpStamps(l.counts, sigs, l.pages + 1, sig);
  }

  /** Fewer sightings, or as many but longer ago, or neither and first in the alphabet. */
  ghost predicate Yields(sig: string, a: SigCount, other: string, b: SigCount) {
    || a.count < b.count
    || (a.count == b.count && a.lastSeen < b.lastSeen)
    || (a.count == b.count && a.lastSeen == b.lastSeen && Less(sig, other))
  }

  /** Alphabetical: a beginning of the other, or smaller where they first differ. */
  lemma {:induction false} LessIs(a: string, b: string)
    ensures Less(a, b) <==> a < b || exists k :: 0 <= k < |a| && k < |b| && a[..k] == b[..k] && a[k] < b[k]
  {
    if a != [] && b != [] {
      if a[0] == b[0] {
        LessIs(a[1..], b[1..]);
        assert a == [a[0]] + a[1..] && b == [b[0]] + b[1..];
        if k :| 0 <= k < |a[1..]| && k < |b[1..]| && a[1..][..k] == b[1..][..k] && a[1..][k] < b[1..][k] {
          assert a[..k + 1] == [a[0]] + a[1..][..k] && b[..k + 1] == [b[0]] + b[1..][..k];
        }
        if k :| 0 <= k < |a| && k < |b| && a[..k] == b[..k] && a[k] < b[k] {
          assert k > 0;
          assert a[1..][..k - 1] == a[..k][1..] && b[1..][..k - 1] == b[..k][1..];
        }
      } else {
        assert a[..0] == b[..0];
        forall k | 0 < k < |a| && k < |b| ensures a[..k] != b[..k] {
          assert a[..k][0] != b[..k][0];
        }
      }
    }
  }

  /**
   * One observed page: the page count goes up by one and is halved at 64 together with every
   * counter; a signature is remembered unless its counter came to nothing or 2000 others, none of
   * which yields to it, are.
   */
  lemma ObserveIsExact(l: Learner, sigs: seq<string>, sig: string)
    requires Bounded(l) && Distinct(sigs)
    ensures
      var r := Observed(l, sigs);
      && r.pages == (if l.pages + 1 >= 64 then (l.pages + 1) / 2 else l.pages + 1)
      && (sig in r.counts ==> CountsFor(l, sigs, sig, r.counts[sig]))
      && (forall c | sig !in r.counts && CountsFor(l, sigs, sig, c) ::
            |r.counts| == 2000 && forall s :: s in r.counts ==> Yields(sig, c, s, r.counts[s]))
  {
    var c := Counted(l, sigs);
    var r := Observed(l, sigs);
    CountedIs(l, sigs, sig);
    EvictedSize(c.counts, MAX_SIGNATURES);
    if sig in c.counts && sig !in r.counts {
      forall s | s in r.counts ensures Yields(sig, c.counts[sig], s, r.counts[s]) {
        EvictedYields(c.counts, sig, s);
      }
    }
  }

  lemma EvictedYields(counts: Counts, gone: string, kept: string)
    requires gone in counts && gone !in Evicted(counts, MAX_SIGNATURES) && kept in Evicted(counts, MAX_SIGNATURES)
    ensures kept in counts && Yields(gone, counts[gone], kept, counts[kept])
  {
    StrengthIsStrictTotal(counts);
    Ranks.FirstAreFirst(counts.Keys, |counts| - MAX_SIGNATURES, ByStrength(counts), gone, kept);
    assert ByStrength(counts)(gone, kept);
  }

  lemma {:induction false} LearningStaysBounded(pages: Pages)
    requires DuplicateFree(pages)
    ensures Bounded(Learn(EMPTY, pages))
  {
    if pages != [] {
      LearningStaysBounded(pages[..|pages| - 1]);
      ObserveStaysBounded(Learn(EMPTY, pages[..|pages| - 1]), pages[|pages| - 1]);
    }
  }

  // ---------------------------------------------------------------- chrome on every page

  /** Signatures counted on every page of the window. */
  function Leaders(l: Learner): set<string> {
    set sig | sig in l.counts && l.counts[sig].count == l.pages
  }

  /** If leaders fit under the cap, eviction takes none of them. */
  lemma LeadersSurvive(c: Learner, sig: string)
    requires forall s :: s in c.counts ==> c.counts[s].count <= c.pages
    requires |Leaders(c)| <= MAX_SIGNATURES && sig in Leaders(c)
    ensures sig in Evicted(c.counts, MAX_SIGNATURES) && Evicted(c.counts, MAX_SIGNATURES)[sig] == c.counts[sig]
  {
    if |c.counts| > MAX_SIGNATURES {
      var less := ByStrength(c.counts);
      var ahead := Ranks.Ahead(c.counts.Keys, sig, less);
      var others := c.counts.Keys - Leaders(c);
      forall s | s in others ensures s in ahead {
        assert less(s, sig);
      }
      Ranks.SubsetSize(others, ahead);
      assert c.counts.Keys == others + Leaders(c);
    }
  }

  /** One page: leaders that are on it stay leaders, and nothing else becomes one. */
  lemma LeadersStep(l: Learner, sigs: seq<string>, sig: string)
    requires Bounded(l) && Distinct(sigs)
    ensures sig in Leaders(Counted(l, sigs)) <==>
      sig in sigs && (l.pages == 0 || sig in Leaders(l))
  {
    CountedOne(l, sigs, sig);
    var c := Counted(l, sigs);
    assert sig in c.counts ==> Get(c.counts, sig) == c.counts[sig];
    if sig in l.counts { assert Get(l.counts, sig) == l.counts[sig]; }
  }

  lemma CountedBelowPages(l: Learner, sigs: seq<string>)
    requires Bounded(l) && Distinct(sigs)
    ensures forall s :: s in Counted(l, sigs).counts ==> Counted(l, sigs).counts[s].count <= Counted(l, sigs).pages
  {
    forall s | s in Counted(l, sigs).counts ensures Counted(l, sigs).counts[s].count <= Counted(l, sigs).pages {
      CountedOne(l, sigs, s);
      assert Get(Counted(l, sigs).counts, s) == Counted(l, sigs).counts[s];
    }
  }

  ghost predicate Ubiquitous(pages: Pages, sig: string) {
    forall i :: 0 <= i < |pages| ==> sig in pages[i]
  }

  lemma UbiquitousSnoc(pages: Pages, sig: string)
    requires pages != []
    ensures Ubiquitous(pages, sig) <==> Ubiquitous(pages[..|pages| - 1], sig) && sig in pages[|pages| - 1]
  {
    var init := pages[..|pages| - 1];
    if Ubiquitous(init, sig) && sig in pages[|pages| - 1] {
      forall i | 0 <= i < |pages| ensures sig in pages[i] {
        if i < |init| { assert sig in init[i]; }
      }
    }
    if Ubiquitous(pages, sig) {
      forall i | 0 <= i < |init| ensures sig in init[i] { assert sig in pages[i]; }
    }
  }

  /** A page that keeps the leaders under the cap keeps exactly those that are on it. */
  lemma LeadersAfter(before: Learner, sigs: seq<string>, first: seq<string>)
    requires Bounded(before) && Distinct(sigs) && Distinct(first) && |first| <= MAX_SIGNATURES
    requires if before.pages == 0 then first == sigs else Leaders(before) <= Elements(first)
    ensures Leaders(Observed(before, sigs)) ==
      set s | s in Elements(first) && s in sigs && (before.pages == 0 || s in Leaders(before))
  {
    var c := Counted(before, sigs);
    var l := Observed(before, sigs);
    forall s ensures s in Leaders(c) <==> s in sigs && (before.pages == 0 || s in Leaders(before)) {
      LeadersStep(before, sigs, s);
    }
    DistinctSize(first);
    Ranks.SubsetSize(Leaders(c), Elements(first));
    CountedBelowPages(before, sigs);
    EvictedSize(c.counts, MAX_SIGNATURES);
    forall s ensures s in Leaders(l) <==> s in Leaders(c) {
      if s in Leaders(c) { LeadersSurvive(c, s); }
    }
  }

  lemma PagesGrow(l: Learner, sigs: seq<string>)
    requires Bounded(l)
    ensures Observed(l, sigs).pages >= 1 && (l.pages >= 1 ==> Observed(l, sigs).pages >= 2)
  {
  }

  /** The leaders are exactly the signatures on every page so far, if the first page fits the cap. */
  lemma {:induction false} LeadersAreUbiquitous(pages: Pages, sig: string)
    requires DuplicateFree(pages) && pages != [] && |pages[0]| <= MAX_SIGNATURES
    ensures Learn(EMPTY, pages).pages >= 1 && (|pages| >= 2 ==> Learn(EMPTY, pages).pages >= 2)
    ensures Leaders(Learn(EMPTY, pages)) <= Elements(pages[0])
    ensures sig in Leaders(Learn(EMPTY, pages)) <==> Ubiquitous(pages, sig)
  {
    var n := |pages| - 1;
    var init := pages[..n];
    var before := Learn(EMPTY, init);
    UbiquitousSnoc(pages, sig);
    LearningStaysBounded(init);
    PagesGrow(before, pages[n]);
    if init == [] {
      LeadersAfter(EMPTY, pages[0], pages[0]);
    } else {
      assert init[0] == pages[0];
      LeadersAreUbiquitous(init, sig);
      LeadersAfter(before, pages[n], pages[0]);
    }
  }

  /** Chrome on every page keeps a full count and is recognised from the second page on. */
  lemma ChromeIsRecognised(pages: Pages, sig: string)
    requires DuplicateFree(pages) && |pages| >= 2 && |pages[0]| <= MAX_SIGNATURES
    requires Ubiquitous(pages, sig)
    ensures
      var l := Learn(EMPTY, pages);
      sig in l.counts && l.counts[sig].count == l.pages && IsBoilerplate(l, sig)
  {
    LeadersAreUbiquitous(pages, sig);
    assert sig in Leaders(Learn(EMPTY, pages));
  }

  // ---------------------------------------------------------------- chrome that disappears

  predicate Recurrent(count: nat, pages: nat) {
    count >= MIN_PAGES && count * 2 >= pages
  }

  /** How many further pages without the signature it takes until its count no longer qualifies. */
  function Lingers(count: nat, pages: nat): int {
    if !Recurrent(count, pages) then 0
    else if count < DECAY_PAGES / 2 then 2 * count + 1 - pages
    else DECAY_PAGES - pages + 2 * (count / 2) - 31
  }

  function LingersIn(l: Learner, sig: string): int {
    if sig in l.counts then Lingers(l.counts[sig].count, l.pages) else 0
  }

  lemma LingersBound(count: nat, pages: nat)
    requires count <= pages < DECAY_PAGES
    ensures 0 <= Lingers(count, pages) <= 33
    ensures Recurrent(count, pages) <==> Lingers(count, pages) > 0
  {
  }

  /** A page without it brings a recurrent count one step closer, and revives no other. */
  lemma AbsentCount(count: nat, pages: nat)
    requires 0 < count <= pages < DECAY_PAGES
    ensures
      var p := if pages + 1 >= DECAY_PAGES then (pages + 1) / 2 else pages + 1;
      var c := if pages + 1 >= DECAY_PAGES then count / 2 else count;
      && (!Recurrent(count, pages) ==> !Recurrent(c, p))
      && (Recurrent(count, pages) ==> Lingers(c, p) == Lingers(count, pages) - 1)
  {
  }

  /** A signature not on the page keeps its counter, halved when the window is. */
  lemma AbsentCounter(l: Learner, sigs: seq<string>, sig: string)
    requires Bounded(l) && Distinct(sigs) && sig !in sigs
    ensures
      var c := Counted(l, sigs);
      sig in c.counts ==>
        sig in l.counts &&
        c.counts[sig].count == if l.pages + 1 >= DECAY_PAGES then l.counts[sig].count / 2 else l.counts[sig].count
  {
    var c := Counted(l, sigs);
    CountedOne(l, sigs, sig);
    if sig in c.counts {
      assert Get(c.counts, sig) == c.counts[sig] && Get(l.counts, sig) == l.counts[sig];
    }
  }

  lemma AbsentLingers(l: Learner, sigs: seq<string>, sig: string)
    requires Bounded(l) && Distinct(sigs) && sig !in sigs
    ensures
      var left, next := LingersIn(l, sig), LingersIn(Counted(l, sigs), sig);
      0 <= left && next <= if left > 0 then left - 1 else 0
  {
    AbsentCounter(l, sigs, sig);
    if sig in l.counts {
      AbsentCount(l.counts[sig].count, l.pages);
      LingersBound(l.counts[sig].count, l.pages);
    }
  }

  /** Eviction forgets or leaves alone. */
  lemma EvictionLingers(c: Learner, sig: string)
    ensures
      var kept := c.(counts := Evicted(c.counts, MAX_SIGNATURES));
      LingersIn(kept, sig) == 0 || LingersIn(kept, sig) == LingersIn(c, sig)
  {
    EvictedSize(c.counts, MAX_SIGNATURES);
  }

  lemma AbsentStep(l: Learner, sigs: seq<string>, sig: string)
    requires Bounded(l) && Distinct(sigs) && sig !in sigs
    ensures
      var left, next := LingersIn(l, sig), LingersIn(Observed(l, sigs), sig);
      0 <= left && next <= if left > 0 then left - 1 else 0
  {
    AbsentLingers(l, sigs, sig);
    EvictionLingers(Counted(l, sigs), sig);
  }

  /** The learner over further pages, from any bounded state. */
  lemma {:induction false} AbsentRun(l: Learner, pages: Pages, sig: string)
    requires Bounded(l) && DuplicateFree(pages)
    requires forall i :: 0 <= i < |pages| ==> sig !in pages[i]
    ensures Bounded(Learn(l, pages))
    ensures LingersIn(Learn(l, pages), sig) <= if LingersIn(l, sig) >= |pages| then LingersIn(l, sig) - |pages| else 0
  {
    if pages != [] {
      var init, last := pages[..|pages| - 1], pages[|pages| - 1];
      AbsentRun(l, init, sig);
      assert sig !in pages[|pages| - 1];
      AbsentStep(Learn(l, init), last, sig);
      ObserveStaysBounded(Learn(l, init), last);
    } else {
      LingersInBound(l, sig);
    }
  }

  lemma LingersInBound(l: Learner, sig: string)
    requires Bounded(l)
    ensures 0 <= LingersIn(l, sig) <= 33
    ensures IsBoilerplate(l, sig) <==> LingersIn(l, sig) > 0
  {
    if sig in l.counts { LingersBound(l.counts[sig].count, l.pages); }
  }

  /** Chrome that stops appearing is forgotten within 33 pages, and stays so until seen again. */
  lemma StaleChromeIsForgotten(l: Learner, pages: Pages, sig: string)
    requires Bounded(l) && DuplicateFree(pages) && |pages| >= 33
    requires forall i :: 0 <= i < |pages| ==> sig !in pages[i]
    ensures !IsBoilerplate(Learn(l, pages), sig)
  {
    LingersInBound(l, sig);
    AbsentRun(l, pages, sig);
    LingersInBound(Learn(l, pages), sig);
  }

  /** What is not chrome does not become chrome by being absent. */
  lemma AbsenceNeverConvicts(l: Learner, pages: Pages, sig: string)
    requires Bounded(l) && DuplicateFree(pages) && !IsBoilerplate(l, sig)
    requires forall i :: 0 <= i < |pages| ==> sig !in pages[i]
    ensures !IsBoilerplate(Learn(l, pages), sig)
  {
    LingersInBound(l, sig);
    AbsentRun(l, pages, sig);
    LingersInBound(Learn(l, pages), sig);
  }

  // ---------------------------------------------------------------- chrome that arrives

  function Max(a: int, b: int): int { if a > b then a else b }

  /** How many further pages with the signature it takes until its count qualifies. */
  function Needs(count: nat, pages: nat): int {
    if Recurrent(count, pages) then 0
    else
      var k := Max(pages - 2 * count, MIN_PAGES - count);
      if pages + k <= DECAY_PAGES then k
      else
        var halved := (count + DECAY_PAGES - pages) / 2;
        DECAY_PAGES - pages + Max(DECAY_PAGES / 2 - 2 * halved, MIN_PAGES - halved)
  }

  function NeedsIn(l: Learner, sig: string): int { Needs(Get(l.counts, sig).count, l.pages) }

  lemma NeedsBound(count: nat, pages: nat)
    requires count <= pages < DECAY_PAGES
    ensures 0 <= Needs(count, pages) <= 33
    ensures Recurrent(count, pages) <==> Needs(count, pages) == 0
  {
  }

  /** A page with it brings a count exactly one step closer, and unseats none that qualifies. */
  lemma PresentCount(count: nat, pages: nat)
    requires count <= pages < DECAY_PAGES
    ensures
      var p := if pages + 1 >= DECAY_PAGES then (pages + 1) / 2 else pages + 1;
      var c := if pages + 1 >= DECAY_PAGES then (count + 1) / 2 else count + 1;
      Needs(c, p) == if Recurrent(count, pages) then 0 else Needs(count, pages) - 1
  {
  }

  /** Those evicted after `sig`. */
  function Stronger(counts: Counts, sig: string): set<string> {
    set s | s in counts && Weaker(counts, sig, s)
  }

  /** Eviction spares a signature exactly when fewer than the limit are stronger. */
  lemma SparedIff(counts: Counts, limit: nat, sig: string)
    requires sig in counts
    ensures sig in Evicted(counts, limit) <==> |Stronger(counts, sig)| < limit
  {
    StrengthIsStrictTotal(counts);
    var ahead := Ranks.Ahead(counts.Keys, sig, ByStrength(counts));
    var stronger := Stronger(counts, sig);
    forall s | s in counts ensures s == sig || (s in ahead) != (s in stronger) {
      LessTotal(s, sig);
    }
    assert sig !in ahead && sig !in stronger by { LessTotal(sig, sig); }
    assert counts.Keys == ahead + stronger + {sig};
    assert ahead !! stronger;
    assert |counts| == |ahead| + |stronger| + 1;
  }

  /** There are too many stronger signatures for this one to be kept. */
  predicate Outranked(counts: Counts, sig: string) {
    sig in counts && |Stronger(counts, sig)| >= MAX_SIGNATURES
  }

  lemma BoilerplateIffNothingNeeded(l: Learner, sig: string)
    requires Bounded(l)
    ensures 0 <= NeedsIn(l, sig) <= 33
    ensures IsBoilerplate(l, sig) <==> NeedsIn(l, sig) == 0
  {
    NeedsBound(Get(l.counts, sig).count, l.pages);
  }

  lemma CountedNeeds(l: Learner, sigs: seq<string>, sig: string)
    requires Bounded(l) && Distinct(sigs) && sig in sigs
    ensures NeedsIn(Counted(l, sigs), sig) == if NeedsIn(l, sig) == 0 then 0 else NeedsIn(l, sig) - 1
  {
    CountedOne(l, sigs, sig);
    NeedsBound(Get(l.counts, sig).count, l.pages);
    PresentCount(Get(l.counts, sig).count, l.pages);
  }

  lemma PresentStep(l: Learner, sigs: seq<string>, sig: string)
    requires Bounded(l) && Distinct(sigs) && sig in sigs && !Outranked(Counted(l, sigs).counts, sig)
    ensures NeedsIn(Observed(l, sigs), sig) == if NeedsIn(l, sig) == 0 then 0 else NeedsIn(l, sig) - 1
  {
    CountedNeeds(l, sigs, sig);
    var c := Counted(l, sigs).counts;
    EvictedSize(c, MAX_SIGNATURES);
    if sig in c { SparedIff(c, MAX_SIGNATURES, sig); }
  }

  ghost predicate NeverOutranked(l: Learner, pages: Pages, sig: string) {
    forall i :: 0 <= i < |pages| ==> !Outranked(Counted(Learn(l, pages[..i]), pages[i]).counts, sig)
  }

  lemma NeverOutrankedEarlier(l: Learner, pages: Pages, sig: string, n: nat)
    requires n <= |pages| && NeverOutranked(l, pages, sig)
    ensures NeverOutranked(l, pages[..n], sig)
  {
    forall i | 0 <= i < n ensures !Outranked(Counted(Learn(l, pages[..n][..i]), pages[i]).counts, sig) {
      assert pages[..n][..i] == pages[..i];
    }
  }

  lemma {:induction false} PresentRun(l: Learner, pages: Pages, sig: string)
    requires Bounded(l) && DuplicateFree(pages) && Ubiquitous(pages, sig) && NeverOutranked(l, pages, sig)
    ensures Bounded(Learn(l, pages))
    ensures NeedsIn(Learn(l, pages), sig) == Max(NeedsIn(l, sig) - |pages|, 0)
  {
    if pages == [] {
      BoilerplateIffNothingNeeded(l, sig);
    } else {
      var n := |pages| - 1;
      UbiquitousSnoc(pages, sig);
      NeverOutrankedEarlier(l, pages, sig, n);
      PresentRun(l, pages[..n], sig);
      var before := Learn(l, pages[..n]);
      assert sig in pages[n] && Distinct(pages[n]) && !Outranked(Counted(before, pages[n]).counts, sig);
      PresentStep(before, pages[n], sig);
      ObserveStaysBounded(before, pages[n]);
    }
  }

  /** So many signatures are never in play at once if all that ever occur fit under the cap. */
  lemma FewAreNeverOutranked(l: Learner, pages: Pages, sig: string, all: set<string>)
    requires DuplicateFree(pages) && |all| <= MAX_SIGNATURES && l.counts.Keys <= all
    requires forall i :: 0 <= i < |pages| ==> Elements(pages[i]) <= all
    ensures NeverOutranked(l, pages, sig)
  {
    forall i | 0 <= i < |pages| ensures !Outranked(Counted(Learn(l, pages[..i]), pages[i]).counts, sig) {
      LearnsNoOthers(l, pages[..i], all);
      CountsNoOthers(Learn(l, pages[..i]), pages[i], all);
      var c := Counted(Learn(l, pages[..i]), pages[i]).counts;
      if sig in c {
        LessTotal(sig, sig);
        Ranks.SubsetSize(Stronger(c, sig), all - {sig});
      }
    }
  }

  lemma CountsNoOthers(l: Learner, sigs: seq<string>, all: set<string>)
    requires Distinct(sigs) && l.counts.Keys <= all && Elements(sigs) <= all
    ensures Counted(l, sigs).counts.Keys <= all
  {
    forall s | s in Counted(l, sigs).counts ensures s in all {
      CountedOne(l, sigs, s);
      assert s in sigs ==> s in Elements(sigs);
    }
  }

  lemma {:induction false} LearnsNoOthers(l: Learner, pages: Pages, all: set<string>)
    requires DuplicateFree(pages) && l.counts.Keys <= all
    requires forall i :: 0 <= i < |pages| ==> Elements(pages[i]) <= all
    ensures Learn(l, pages).counts.Keys <= all
  {
    if pages != [] {
      var n := |pages| - 1;
      LearnsNoOthers(l, pages[..n], all);
      CountsNoOthers(Learn(l, pages[..n]), pages[n], all);
      EvictedSize(Counted(Learn(l, pages[..n]), pages[n]).counts, MAX_SIGNATURES);
    }
  }

  /**
   * From any bounded state, a signature that is on every further page and never outranked is
   * boilerplate exactly from the page its counter calls for, at the latest the 33rd, and stays so.
   */
  lemma NewChromeIsLearned(l: Learner, pages: Pages, sig: string)
    requires Bounded(l) && DuplicateFree(pages) && Ubiquitous(pages, sig) && NeverOutranked(l, pages, sig)
    ensures IsBoilerplate(Learn(l, pages), sig) <==> |pages| >= NeedsIn(l, sig)
    ensures 0 <= NeedsIn(l, sig) <= 33
  {
    PresentRun(l, pages, sig);
    BoilerplateIffNothingNeeded(l, sig);
    BoilerplateIffNothingNeeded(Learn(l, pages), sig);
  }

  /** An absent signature lingers exactly one page less, before eviction. */
  lemma CountedLingers(l: Learner, sigs: seq<string>, sig: string)
    requires Bounded(l) && Distinct(sigs) && sig !in sigs
    ensures LingersIn(Counted(l, sigs), sig) == Max(LingersIn(l, sig) - 1, 0)
  {
    CountedOne(l, sigs, sig);
    AbsentCounter(l, sigs, sig);
    if sig in l.counts {
      assert Get(l.counts, sig) == l.counts[sig];
      LingersBound(l.counts[sig].count, l.pages);
      AbsentCount(l.counts[sig].count, l.pages);
    }
  }

  lemma AbsentStepIsExact(l: Learner, sigs: seq<string>, sig: string)
    requires Bounded(l) && Distinct(sigs) && sig !in sigs && !Outranked(Counted(l, sigs).counts, sig)
    ensures LingersIn(Observed(l, sigs), sig) == Max(LingersIn(l, sig) - 1, 0)
  {
    CountedLingers(l, sigs, sig);
    var c := Counted(l, sigs).counts;
    EvictedSize(c, MAX_SIGNATURES);
    if sig in c { SparedIff(c, MAX_SIGNATURES, sig); }
  }

  lemma {:induction false} AbsentRunIsExact(l: Learner, pages: Pages, sig: string)
    requires Bounded(l) && DuplicateFree(pages) && NeverOutranked(l, pages, sig)
    requires forall i :: 0 <= i < |pages| ==> sig !in pages[i]
    ensures Bounded(Learn(l, pages))
    ensures LingersIn(Learn(l, pages), sig) == Max(LingersIn(l, sig) - |pages|, 0)
  {
    LingersInBound(l, sig);
    if pages != [] {
      var n := |pages| - 1;
      NeverOutrankedEarlier(l, pages, sig, n);
      AbsentRunIsExact(l, pages[..n], sig);
      AbsentStepIsExact(Learn(l, pages[..n]), pages[n], sig);
      ObserveStaysBounded(Learn(l, pages[..n]), pages[n]);
    }
  }

  /**
   * Forgetting is as exact as learning: a signature absent from every further page and never
   * outranked is boilerplate for just as many pages as its counter lets it linger, at most 32.
   */
  lemma ChromeLingersIff(l: Learner, pages: Pages, sig: string)
    requires Bounded(l) && DuplicateFree(pages) && NeverOutranked(l, pages, sig)
    requires forall i :: 0 <= i < |pages| ==> sig !in pages[i]
    ensures IsBoilerplate(Learn(l, pages), sig) <==> |pages| < LingersIn(l, sig)
    ensures LingersIn(l, sig) <= 33
  {
    AbsentRunIsExact(l, pages, sig);
    LingersInBound(l, sig);
    LingersInBound(Learn(l, pages), sig);
  }

  /** A page that leaves a signature outranked leaves it unknown. */
  lemma OutrankedIsUnknown(l: Learner, sigs: seq<string>, sig: string)
    requires Outranked(Counted(l, sigs).counts, sig)
    ensures sig !in Observed(l, sigs).counts
  {
    SparedIff(Counted(l, sigs).counts, MAX_SIGNATURES, sig);
  }

  /** A redesign: 33 pages on, the old chrome is forgotten and the new is known. */
  lemma RedesignConverges(l: Learner, pages: Pages, gone: string, arrived: string)
    requires Bounded(l) && DuplicateFree(pages) && |pages| >= 33
    requires Ubiquitous(pages, arrived) && NeverOutranked(l, pages, arrived)
    requires forall i :: 0 <= i < |pages| ==> gone !in pages[i]
    ensures !IsBoilerplate(Learn(l, pages), gone) && IsBoilerplate(Learn(l, pages), arrived)
  {
    StaleChromeIsForgotten(l, pages, gone);
    NewChromeIsLearned(l, pages, arrived);
  }
}
