/**
 The eviction loop of scripts/cargo-space-guard.py. The directory scan is an input, a lock
 that can be taken is an oracle, and times are real numbers.
 */
module Eviction {

  datatype TargetCache = TargetCache(path: string, lastUsed: real, size: nat)

  // ----- sorting by age -----

  predicate Sorted(caches: seq<TargetCache>) {
    forall i, j :: 0 <= i < j < |caches| ==> caches[i].lastUsed <= caches[j].lastUsed
  }

  /** Puts a cache after every one that is as old. */
  function Insert(c: TargetCache, sorted: seq<TargetCache>): seq<TargetCache> {
    if sorted == [] || c.lastUsed < sorted[0].lastUsed then [c] + sorted else [sorted[0]] + Insert(c, sorted[1..])
  }

  /** Stable: caches of one age keep the order in which they were found. */
  function ByAge(caches: seq<TargetCache>): seq<TargetCache> {
    if caches == [] then [] else Insert(caches[|caches| - 1], ByAge(caches[..|caches| - 1]))
  }

  /** The caches of one age, in order. */
  function OfAge(caches: seq<TargetCache>, age: real): seq<TargetCache> {
    if caches == [] then []
    else if caches[0].lastUsed == age then [caches[0]] + OfAge(caches[1..], age)
    else OfAge(caches[1..], age)
  }

  lemma {:induction false} OfAgeConcat(xs: seq<TargetCache>, ys: seq<TargetCache>, age: real)
    ensures OfAge(xs + ys, age) == OfAge(xs, age) + OfAge(ys, age)
  {
    if xs == [] {
      assert xs + ys == ys;
    } else {
      var whole, tail := xs + ys, OfAge(xs[1..], age);
      assert whole[1..] == xs[1..] + ys && whole[0] == xs[0];
      OfAgeConcat(xs[1..], ys, age);
      assert [xs[0]] + (tail + OfAge(ys, age)) == ([xs[0]] + tail) + OfAge(ys, age);
    }
  }

  lemma {:induction false} NoneOfAge(xs: seq<TargetCache>, age: real)
    requires forall i :: 0 <= i < |xs| ==> xs[i].lastUsed != age
    ensures OfAge(xs, age) == []
  {
    if xs != [] {
      NoneOfAge(xs[1..], age);
    }
  }

  lemma {:induction false} InsertIsSorted(c: TargetCache, sorted: seq<TargetCache>)
    requires Sorted(sorted)
    ensures Sorted(Insert(c, sorted)) && |Insert(c, sorted)| == |sorted| + 1
    ensures forall x :: x in Insert(c, sorted) <==> x == c || x in sorted
  {
    if sorted != [] && c.lastUsed >= sorted[0].lastUsed {
      var tail := sorted[1..];
      InsertIsSorted(c, tail);
      var all := Insert(c, sorted);
      assert sorted == [sorted[0]] + tail;
      forall i, j | 0 <= i < j < |all|
        ensures all[i].lastUsed <= all[j].lastUsed
      {
        if i == 0 {
          assert all[j] in Insert(c, tail);
        } else {
          assert all[i] == Insert(c, tail)[i - 1] && all[j] == Insert(c, tail)[j - 1];
        }
      }
    }
  }

  lemma HeadAndTail(sorted: seq<TargetCache>)
    requires sorted != [] && Sorted(sorted)
    ensures sorted == [sorted[0]] + sorted[1..] && Sorted(sorted[1..])
    ensures forall i :: 0 <= i < |sorted| ==> sorted[0].lastUsed <= sorted[i].lastUsed
  {
  }

  lemma {:induction false} InsertIsStable(c: TargetCache, sorted: seq<TargetCache>, age: real)
    requires Sorted(sorted)
    ensures OfAge(Insert(c, sorted), age) == OfAge(sorted, age) + OfAge([c], age)
  {
    if sorted == [] {
      assert [c] + sorted == sorted + [c] == [c];
      OfAgeConcat(sorted, [c], age);
    } else if c.lastUsed < sorted[0].lastUsed {
      HeadAndTail(sorted);
      OfAgeConcat([c], sorted, age);
      if c.lastUsed == age {
        NoneOfAge(sorted, age);
      } else {
        NoneOfAge([c], age);
      }
    } else {
      var first, tail := [sorted[0]], sorted[1..];
      HeadAndTail(sorted);
      InsertIsStable(c, tail, age);
      OfAgeConcat(first, Insert(c, tail), age);
      OfAgeConcat(first, tail, age);
      assert OfAge(first, age) + (OfAge(tail, age) + OfAge([c], age)) == (OfAge(first, age) + OfAge(tail, age)) + OfAge([c], age);
    }
  }

  /** Sorting orders by age, and of each age keeps the same caches in the same order. */
  lemma {:induction false} ByAgeIsStableSort(caches: seq<TargetCache>)
    ensures Sorted(ByAge(caches)) && |ByAge(caches)| == |caches|
    ensures forall age :: OfAge(ByAge(caches), age) == OfAge(caches, age)
  {
    if caches != [] {
      var n := |caches| - 1;
      ByAgeIsStableSort(caches[..n]);
      InsertIsSorted(caches[n], ByAge(caches[..n]));
      assert caches == caches[..n] + [caches[n]];
      forall age
        ensures OfAge(ByAge(caches), age) == OfAge(caches, age)
      {
        InsertIsStable(caches[n], ByAge(caches[..n]), age);
        OfAgeConcat(caches[..n], [caches[n]], age);
      }
    }
  }

  // ----- what can be removed -----

  function Total(caches: seq<TargetCache>): nat {
    if caches == [] then 0 else Total(caches[..|caches| - 1]) + caches[|caches| - 1].size
  }

  /** What the run may touch: not kept, and in an executing run not locked by someone else. */
  predicate Removable(c: TargetCache, keep: set<string>, execute: bool, free: string -> bool) {
    c.path !in keep && (execute ==> free(c.path))
  }

  function Eligible(caches: seq<TargetCache>, keep: set<string>, execute: bool, free: string -> bool): seq<TargetCache> {
    if caches == [] then []
    else
      var c := caches[|caches| - 1];
      Eligible(caches[..|caches| - 1], keep, execute, free) + (if Removable(c, keep, execute, free) then [c] else [])
  }

  lemma {:induction false} EligibleIsSorted(caches: seq<TargetCache>, keep: set<string>, execute: bool, free: string -> bool)
    requires Sorted(caches)
    ensures Sorted(Eligible(caches, keep, execute, free))
    ensures forall c :: c in Eligible(caches, keep, execute, free) <==> c in caches && Removable(c, keep, execute, free)
  {
    if caches != [] {
      var n := |caches| - 1;
      EligibleIsSorted(caches[..n], keep, execute, free);
      assert caches == caches[..n] + [caches[n]];
      var front := Eligible(caches[..n], keep, execute, free);
      forall i | 0 <= i < |front|
        ensures front[i].lastUsed <= caches[n].lastUsed
      {
        assert front[i] in caches[..n];
      }
    }
  }

  lemma EligibleSnoc(caches: seq<TargetCache>, n: nat, keep: set<string>, execute: bool, free: string -> bool)
    requires n < |caches|
    ensures Eligible(caches[..n + 1], keep, execute, free) ==
            Eligible(caches[..n], keep, execute, free) + (if Removable(caches[n], keep, execute, free) then [caches[n]] else [])
  {
    assert caches[..n + 1][..n] == caches[..n];
  }

  /**
   The verdict on `removed` as a selection from the eligible caches, oldest first: a prefix
   of them, with every one past the cutoff in it; each recent one in it went while
   the total was over the limit; and recent ones left behind mean the total is within it.
   */
  ghost predicate OldestFirst(removed: seq<TargetCache>, eligible: seq<TargetCache>, total: nat, cutoff: real, maximum: nat) {
    && removed <= eligible
    && (forall i :: |removed| <= i < |eligible| ==> eligible[i].lastUsed >= cutoff)
    && (forall i :: 0 <= i < |removed| && removed[i].lastUsed >= cutoff ==> total - Total(removed[..i]) > maximum)
    && (|removed| < |eligible| ==> total - Total(removed) <= maximum)
  }

  /**
   These conditions leave no choice: for each input only one selection meets them.
   */
  lemma OldestFirstIsUnique(a: seq<TargetCache>, b: seq<TargetCache>, eligible: seq<TargetCache>, total: nat, cutoff: real, maximum: nat)
    requires OldestFirst(a, eligible, total, cutoff, maximum) && OldestFirst(b, eligible, total, cutoff, maximum)
    ensures a == b
  {
    NotLonger(a, b, eligible, total, cutoff, maximum);
    NotLonger(b, a, eligible, total, cutoff, maximum);
  }

  lemma NotLonger(a: seq<TargetCache>, b: seq<TargetCache>, eligible: seq<TargetCache>, total: nat, cutoff: real, maximum: nat)
    requires OldestFirst(a, eligible, total, cutoff, maximum)
    ensures |a| < |b| && b <= eligible ==> !OldestFirst(b, eligible, total, cutoff, maximum)
  {
    if |a| < |b| && b <= eligible {
      assert b[..|a|] == a;
      assert b[|a|] == eligible[|a|];
    }
  }

  /** A removal that turns away one eligible cache turns away all that follow. */
  lemma SkipKeepsOldestFirst(removed: seq<TargetCache>, eligible: seq<TargetCache>, c: TargetCache, total: nat, cutoff: real, maximum: nat)
    requires OldestFirst(removed, eligible, total, cutoff, maximum)
    requires c.lastUsed >= cutoff && total - Total(removed) <= maximum
    ensures OldestFirst(removed, eligible + [c], total, cutoff, maximum)
  {
    var more := eligible + [c];
    forall i | |removed| <= i < |more|
      ensures more[i].lastUsed >= cutoff
    {
      if i < |eligible| {
        assert more[i] == eligible[i];
      }
    }
  }

  lemma LeftBehindIsRecent(removed: seq<TargetCache>, eligible: seq<TargetCache>, c: TargetCache, total: nat, cutoff: real, maximum: nat)
    requires OldestFirst(removed, eligible, total, cutoff, maximum) && Sorted(eligible + [c])
    ensures |removed| < |eligible| ==> c.lastUsed >= cutoff && total - Total(removed) <= maximum
  {
    var more := eligible + [c];
    if |removed| < |eligible| {
      assert more[|removed|] == eligible[|removed|] && more[|eligible|] == c;
    }
  }

  lemma TakeKeepsOldestFirst(removed: seq<TargetCache>, eligible: seq<TargetCache>, c: TargetCache, total: nat, cutoff: real, maximum: nat)
    requires OldestFirst(removed, eligible, total, cutoff, maximum) && Sorted(eligible + [c])
    requires c.lastUsed < cutoff || total - Total(removed) > maximum
    ensures OldestFirst(removed + [c], eligible + [c], total, cutoff, maximum) && Total(removed + [c]) == Total(removed) + c.size
  {
    var more := eligible + [c];
    LeftBehindIsRecent(removed, eligible, c, total, cutoff, maximum);
    assert removed == eligible;
    assert more[..|removed|] == removed;
    forall i | 0 <= i < |more| && more[i].lastUsed >= cutoff
      ensures total - Total(more[..i]) > maximum
    {
      if i < |removed| {
        assert more[i] == removed[i] && more[..i] == removed[..i];
      }
    }
  }

  /** Sorting loses and adds no cache. */
  lemma {:induction false} ByAgeKeeps(caches: seq<TargetCache>, c: TargetCache)
    ensures c in ByAge(caches) <==> c in caches
  {
    if caches != [] {
      var n := |caches| - 1;
      ByAgeKeeps(caches[..n], c);
      ByAgeIsStableSort(caches[..n]);
      InsertIsSorted(caches[n], ByAge(caches[..n]));
      assert caches == caches[..n] + [caches[n]];
    }
  }

  lemma EligibleIff(caches: seq<TargetCache>, keep: set<string>, execute: bool, free: string -> bool, c: TargetCache)
    ensures c in Eligible(ByAge(caches), keep, execute, free) <==> c in caches && c.path !in keep && (execute ==> free(c.path))
  {
    ByAgeIsStableSort(caches);
    EligibleIsSorted(ByAge(caches), keep, execute, free);
    ByAgeKeeps(caches, c);
  }

  lemma LeftOver(gone: seq<TargetCache>, eligible: seq<TargetCache>, total: nat, cutoff: real, maximum: nat, c: TargetCache)
    requires OldestFirst(gone, eligible, total, cutoff, maximum)
    ensures c in gone ==> c in eligible
    ensures c in eligible && c !in gone ==> c.lastUsed >= cutoff && total - Total(gone) <= maximum
  {
    if c in eligible && c !in gone {
      var i :| 0 <= i < |eligible| && eligible[i] == c;
      assert gone == eligible[..|gone|];
    }
  }

  /** What an oldest-first selection means for each cache found. */
  lemma GoneIsRight(gone: seq<TargetCache>, caches: seq<TargetCache>, keep: set<string>, execute: bool, free: string -> bool,
                    total: nat, cutoff: real, maximum: nat)
    requires OldestFirst(gone, Eligible(ByAge(caches), keep, execute, free), total, cutoff, maximum)
    ensures forall c :: c in gone ==> c in caches && c.path !in keep && (execute ==> free(c.path))
    ensures forall c :: c in caches && c.path !in keep && (execute ==> free(c.path)) && c !in gone ==>
              c.lastUsed >= cutoff && total - Total(gone) <= maximum
  {
    var eligible := Eligible(ByAge(caches), keep, execute, free);
    forall c | c in gone ensures c in caches && c.path !in keep && (execute ==> free(c.path)) {
      LeftOver(gone, eligible, total, cutoff, maximum, c);
      EligibleIff(caches, keep, execute, free, c);
    }
    forall c | c in caches && c.path !in keep && (execute ==> free(c.path)) && c !in gone
      ensures c.lastUsed >= cutoff && total - Total(gone) <= maximum
    {
      LeftOver(gone, eligible, total, cutoff, maximum, c);
      EligibleIff(caches, keep, execute, free, c);
    }
  }

  /** A dry run selects exactly what an executing run removes when no lock is held. */
  lemma DryRunForetells(shown: seq<TargetCache>, gone: seq<TargetCache>, caches: seq<TargetCache>, keep: set<string>,
                        free: string -> bool, locks: string -> bool, cutoff: real, maximum: nat)
    requires forall c :: c in ByAge(caches) ==> free(c.path)
    requires OldestFirst(shown, Eligible(ByAge(caches), keep, false, locks), Total(caches), cutoff, maximum)
    requires OldestFirst(gone, Eligible(ByAge(caches), keep, true, free), Total(caches), cutoff, maximum)
    ensures shown == gone
  {
    NoLocksSameEligible(ByAge(caches), keep, free, locks);
    OldestFirstIsUnique(shown, gone, Eligible(ByAge(caches), keep, true, free), Total(caches), cutoff, maximum);
  }

  lemma {:induction false} NoLocksSameEligible(caches: seq<TargetCache>, keep: set<string>, free: string -> bool, locks: string -> bool)
    requires forall c :: c in caches ==> free(c.path)
    ensures Eligible(caches, keep, false, locks) == Eligible(caches, keep, true, free)
  {
    if caches != [] {
      NoLocksSameEligible(caches[..|caches| - 1], keep, free, locks);
    }
  }

  /** One turn of the loop: the cache at `n` joins exactly if it may be touched and must go. */
  lemma TurnKeepsOldestFirst(gone: seq<TargetCache>, order: seq<TargetCache>, n: nat, keep: set<string>, execute: bool,
                             free: string -> bool, total: nat, cutoff: real, maximum: nat)
    requires n < |order| && Sorted(order)
    requires OldestFirst(gone, Eligible(order[..n], keep, execute, free), total, cutoff, maximum)
    ensures var c := order[n];
      var due := c.lastUsed < cutoff || total - Total(gone) > maximum;
      && OldestFirst(if Removable(c, keep, execute, free) && due then gone + [c] else gone,
                     Eligible(order[..n + 1], keep, execute, free), total, cutoff, maximum)
      && Total(gone + [c]) == Total(gone) + c.size
  {
    var c := order[n];
    var eligible := Eligible(order[..n], keep, execute, free);
    EligibleSnoc(order, n, keep, execute, free);
    EligibleIsSorted(order[..n + 1], keep, execute, free);
    assert (gone + [c])[..|gone|] == gone;
    if Removable(c, keep, execute, free) {
      if c.lastUsed < cutoff || total - Total(gone) > maximum {
        TakeKeepsOldestFirst(gone, eligible, c, total, cutoff, maximum);
      } else {
        SkipKeepsOldestFirst(gone, eligible, c, total, cutoff, maximum);
      }
    } else {
      assert eligible + [] == eligible;
    }
  }

  /**
   `clean_targets` on the caches found: what it removes, or in a dry run selects, is the
   one oldest-first selection from the caches it may touch.
   */
  method CleanTargets(caches: seq<TargetCache>, keep: set<string>, retention: real, maximum: nat, execute: bool, now: real, free: string -> bool)
    returns (gone: seq<TargetCache>)
    ensures OldestFirst(gone, Eligible(ByAge(caches), keep, execute, free), Total(caches), now - retention, maximum)
    ensures forall c :: c in gone ==> c in caches && c.path !in keep && (execute ==> free(c.path))
    ensures forall c :: c in caches && c.path !in keep && (execute ==> free(c.path)) && c !in gone ==>
              c.lastUsed >= now - retention && Total(caches) - Total(gone) <= maximum
  {
    var total := Total(caches);
    var projected: int := total;
    var cutoff := now - retention;
    var selected, removed := [], [];
    var order := ByAge(caches);
    ByAgeIsStableSort(caches);
    gone := [];
    for n := 0 to |order|
      invariant (execute ==> removed == gone) && (!execute ==> selected == gone)
      invariant projected == total - Total(gone)
      invariant OldestFirst(gone, Eligible(order[..n], keep, execute, free), total, cutoff, maximum)
    {
      var c := order[n];
      TurnKeepsOldestFirst(gone, order, n, keep, execute, free, total, cutoff, maximum);
      if c.path in keep {
        continue;
      }
      if c.lastUsed >= cutoff && projected <= maximum {
        continue;
      }
      if !execute {
        selected := selected + [c];
        gone := gone + [c];
        projected := projected - c.size;
        continue;
      }
      if !free(c.path) {
        continue;
      }
      removed := removed + [c];
      gone := gone + [c];
      projected := projected - c.size;
    }
    assert order[..|order|] == order;
    gone := if execute then removed else selected;
    GoneIsRight(gone, caches, keep, execute, free, total, cutoff, maximum);
  }
}
