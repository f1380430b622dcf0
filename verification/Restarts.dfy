/** What saving and restoring the token windows does to every later answer, and to the budget. */
module Restarts {
  import opened Types
  import opened Accounting

  // ---- A restart in the middle of a history ----

  /**
   * What a restarted accountant with window w' answers: its history was kept with window w up to the save,
   * restored, and then continued.
   */
  function AfterRestart(w: int, w': int, base: seq<Entry>, log: seq<Op>, restored: Time, later: seq<Op>,
                        now: Time): int {
    Usage(w', Since(Kept(w, base, log), restored - w as real), later, now)
  }

  /** One nondecreasing clock throughout: the history, the restore, what comes later, the question. */
  predicate OneClock(base: seq<Entry>, log: seq<Op>, restored: Time, later: seq<Op>, now: Time) {
    && (forall d :: d in base ==> d.at <= restored)
    && Chronological(log) && NotAfter(log, restored)
    && (forall i :: 0 <= i < |later| ==> restored <= later[i].now)
    && Chronological(later) && NotAfter(later, now) && restored <= now
  }

  /** The restart cannot be told from the ledger of all debits ever made, read with the new window. */
  ghost predicate RestartInvisible(w: int, w': int, base: seq<Entry>, log: seq<Op>, restored: Time, later: seq<Op>,
                                   now: Time) {
    AfterRestart(w, w', base, log, restored, later, now) == Sum(Since(Ledger(base, log + later), now - w' as real))
  }

  /** Two starting points that look the same from a cutoff on still do after the same operations. */
  lemma {:induction false} SameSince(a: seq<Entry>, b: seq<Entry>, log: seq<Op>, cutoff: Time)
    requires Since(a, cutoff) == Since(b, cutoff)
    ensures Since(Ledger(a, log), cutoff) == Since(Ledger(b, log), cutoff)
  {
    if log == [] {
    } else {
      SameSince(a, b, log[..|log| - 1], cutoff);
      SinceLedgerLast(a, log, cutoff);
      SinceLedgerLast(b, log, cutoff);
    }
  }

  lemma {:induction false} LedgerConcat(base: seq<Entry>, log: seq<Op>, later: seq<Op>)
    ensures Ledger(base, log + later) == Ledger(Ledger(base, log), later)
  {
    if later == [] {
      assert log + later == log;
    } else {
      LedgerConcat(base, log, later[..|later| - 1]);
      assert (log + later)[..|log + later| - 1] == log + later[..|later| - 1];
    }
  }

  /** From the question's cutoff on, the restored entries are the ledger. */
  lemma RestoredLooksTheSame(w: int, w': int, base: seq<Entry>, log: seq<Op>, restored: Time, now: Time)
    requires OneClock(base, log, restored, [], now) && (w' <= w || w' < 0)
    ensures Since(Since(Kept(w, base, log), restored - w as real), now - w' as real)
         == Since(Ledger(base, log), now - w' as real)
  {
    var oldest, cutoff := restored - w as real, now - w' as real;
    LazyEvictionIsExact(w, base, log, oldest);
    ChronologicalSurvivors(w, base, log, oldest);
    if w' <= w {
      SinceTwice(Ledger(base, log), oldest, cutoff);
      assert Later(oldest, cutoff) == cutoff;
    } else {
      SinceTwice(Ledger(base, log), oldest, cutoff);
      LedgerNotAfter(base, log, restored);
      SinceFuture(Ledger(base, log), Later(oldest, cutoff));
      SinceFuture(Ledger(base, log), cutoff);
    }
  }

  lemma RestartWithinWindow(w: int, w': int, base: seq<Entry>, log: seq<Op>, restored: Time, later: seq<Op>, now: Time)
    requires OneClock(base, log, restored, later, now) && (w' <= w || w' < 0)
    ensures RestartInvisible(w, w', base, log, restored, later, now)
  {
    var kept := Since(Kept(w, base, log), restored - w as real);
    UsageIsLedgerSum(w', kept, later, now);
    RestoredLooksTheSame(w, w', base, log, restored, now);
    SameSince(kept, Ledger(base, log), later, now - w' as real);
    LedgerConcat(base, log, later);
  }

  lemma {:induction false} LedgerNotAfter(base: seq<Entry>, log: seq<Op>, now: Time)
    requires NotAfter(log, now) && forall d :: d in base ==> d.at <= now
    ensures forall d :: d in Ledger(base, log) ==> d.at <= now
  {
    if log == [] {
    } else {
      LedgerNotAfter(base, log[..|log| - 1], now);
    }
  }

  lemma {:induction false} SinceFuture(ds: seq<Entry>, cutoff: Time)
    requires forall d :: d in ds ==> d.at < cutoff
    ensures Since(ds, cutoff) == []
  {
    if ds == [] {
    } else {
      SinceFuture(ds[..|ds| - 1], cutoff);
    }
  }

  /** The history of one debit of one token at time zero, seen from a cutoff. */
  lemma OneDebit(w: int, cutoff: Time)
    ensures Kept(w, [], [Op.Add(0.0, 1)]) == [Entry(0.0, 1)] == Ledger([], [Op.Add(0.0, 1)])
    ensures Since([Entry(0.0, 1)], cutoff) == if cutoff <= 0.0 then [Entry(0.0, 1)] else []
  {
    assert [Op.Add(0.0, 1)][..0] == [];
    assert [] + [Entry(0.0, 1)] == [Entry(0.0, 1)];
    SinceAppend([], Entry(0.0, 1), cutoff);
  }

  lemma OneDebitIsDropped(w: int, w': int)
    requires w < w' && 0 <= w'
    ensures AfterRestart(w, w', [], [Op.Add(0.0, 1)], w' as real, [], w' as real) == 0
  {
    OneDebit(w, w' as real - w as real);
  }

  /** A longer new window would need a debit that the restore has dropped. */
  lemma LongerWindowShows(w: int, w': int)
    requires w < w' && 0 <= w'
    ensures var t := w' as real;
      OneClock([], [Op.Add(0.0, 1)], t, [], t) && !RestartInvisible(w, w', [], [Op.Add(0.0, 1)], t, [], t)
  {
    OneDebitIsDropped(w, w');
    assert Sum(Since(Ledger([], [Op.Add(0.0, 1)] + []), w' as real - w' as real)) == 1 by {
      OneDebit(w, 0.0);
      assert [Op.Add(0.0, 1)] + [] == [Op.Add(0.0, 1)];
      SumAppend([], Entry(0.0, 1));
      assert [] + [Entry(0.0, 1)] == [Entry(0.0, 1)];
    }
  }

  /**
   * Saving and restoring on one clock is invisible, for every history before and after and at every later time,
   * exactly when the new window is not longer than the saved one (or so short that nothing is ever counted).
   */
  lemma RestartInvisibleExactlyWhen(w: int, w': int)
    ensures (forall base, log, restored, later, now :: OneClock(base, log, restored, later, now) ==>
               RestartInvisible(w, w', base, log, restored, later, now))
      <==> w' <= w || w' < 0
  {
    if w' <= w || w' < 0 {
      forall base, log, restored, later, now | OneClock(base, log, restored, later, now)
        ensures RestartInvisible(w, w', base, log, restored, later, now)
      {
        RestartWithinWindow(w, w', base, log, restored, later, now);
      }
    } else {
      LongerWindowShows(w, w');
    }
  }

  lemma ChronologicalConcat(log: seq<Op>, t: Time, later: seq<Op>)
    requires Chronological(log) && NotAfter(log, t)
    requires Chronological(later) && forall i :: 0 <= i < |later| ==> t <= later[i].now
    ensures Chronological(log + later)
  {
    var all := log + later;
    forall i, j | 0 <= i < j < |all| ensures all[i].now <= all[j].now {
      if i < |log| <= j {
        assert log[i].now <= t <= later[j - |log|].now;
      }
    }
  }

  /** With the window unchanged, the restarted accountant goes on answering as one that never stopped. */
  lemma RestartIsLikeNeverStopping(w: int, base: seq<Entry>, log: seq<Op>, restored: Time, later: seq<Op>, now: Time)
    requires OneClock(base, log, restored, later, now)
    ensures AfterRestart(w, w, base, log, restored, later, now) == Usage(w, base, log + later, now)
  {
    RestartWithinWindow(w, w, base, log, restored, later, now);
    ChronologicalConcat(log, restored, later);
    UsageIsLedgerSum(w, base, log + later, now);
  }

  // ---- What a restored window answers ----

  /** With any new window: what the restore kept of the ledger, and everything after it. */
  lemma RestartAnswers(w: int, w': int, base: seq<Entry>, log: seq<Op>, restored: Time, later: seq<Op>, now: Time)
    requires OneClock(base, log, restored, later, now)
    ensures AfterRestart(w, w', base, log, restored, later, now)
         == Sum(Since(Ledger(Since(Ledger(base, log), restored - w as real), later), now - w' as real))
  {
    LazyEvictionIsExact(w, base, log, restored - w as real);
    ChronologicalSurvivors(w, base, log, restored - w as real);
    UsageIsLedgerSum(w', Since(Kept(w, base, log), restored - w as real), later, now);
  }

  /**
   * A window of length w' that starts with the given entries answers, whatever comes later, as the ledger of a
   * history, of which what was older than w at the restore is gone.
   */
  ghost predicate GoesOnFrom(w: int, w': int, start: seq<Entry>, base: seq<Entry>, log: seq<Op>, restored: Time) {
    forall later, now :: OneClock(base, log, restored, later, now) ==>
      Usage(w', start, later, now)
      == Sum(Since(Ledger(Since(Ledger(base, log), restored - w as real), later), now - w' as real))
  }

  /** It answers as the full ledger of the history. */
  ghost predicate GoesOn(w': int, start: seq<Entry>, base: seq<Entry>, log: seq<Op>, restored: Time) {
    forall later, now :: OneClock(base, log, restored, later, now) ==>
      Usage(w', start, later, now) == Sum(Since(Ledger(base, log + later), now - w' as real))
  }

  lemma RestoredGoesOnFrom(w: int, w': int, base: seq<Entry>, log: seq<Op>, restored: Time)
    ensures GoesOnFrom(w, w', Since(Kept(w, base, log), restored - w as real), base, log, restored)
  {
    forall later, now | OneClock(base, log, restored, later, now)
      ensures Usage(w', Since(Kept(w, base, log), restored - w as real), later, now)
           == Sum(Since(Ledger(Since(Ledger(base, log), restored - w as real), later), now - w' as real))
    {
      RestartAnswers(w, w', base, log, restored, later, now);
    }
  }

  /** What a restore from a window of length w leaves, for a new window of length w'. */
  ghost predicate Continues(w: int, w': int, start: seq<Entry>, base: seq<Entry>, log: seq<Op>, restored: Time) {
    && GoesOnFrom(w, w', start, base, log, restored)
    && (w' <= w || w' < 0 ==> GoesOn(w', start, base, log, restored))
  }

  lemma RestoredContinues(w: int, w': int, base: seq<Entry>, log: seq<Op>, restored: Time)
    ensures Continues(w, w', Since(Kept(w, base, log), restored - w as real), base, log, restored)
  {
    RestoredGoesOnFrom(w, w', base, log, restored);
    if w' <= w || w' < 0 {
      forall later, now | OneClock(base, log, restored, later, now)
        ensures Usage(w', Since(Kept(w, base, log), restored - w as real), later, now)
             == Sum(Since(Ledger(base, log + later), now - w' as real))
      {
        RestartWithinWindow(w, w', base, log, restored, later, now);
      }
    }
  }

  // ---- Any number of restarts ----

  /** The operations between two restarts, and when their result was restored. */
  datatype Life = Life(log: seq<Op>, restored: Time)

  /** What a window holds after living through some restarts. */
  function Carried(w: int, lives: seq<Life>): seq<Entry> {
    if lives == [] then []
    else
      var last := lives[|lives| - 1];
      Since(Kept(w, Carried(w, lives[..|lives| - 1]), last.log), last.restored - w as real)
  }

  /** All the operations, as if there had been no restart. */
  function AllOps(lives: seq<Life>): seq<Op> {
    if lives == [] then [] else AllOps(lives[..|lives| - 1]) + lives[|lives| - 1].log
  }

  /** One nondecreasing clock through all the lives. */
  predicate OneClockLives(lives: seq<Life>) {
    lives != [] ==>
      var init, last := lives[..|lives| - 1], lives[|lives| - 1];
      && OneClockLives(init)
      && Chronological(last.log) && NotAfter(last.log, last.restored)
      && (init != [] ==>
            && init[|init| - 1].restored <= last.restored
            && forall i :: 0 <= i < |last.log| ==> init[|init| - 1].restored <= last.log[i].now)
  }

  lemma {:induction false} AllOpsOnOneClock(lives: seq<Life>)
    requires OneClockLives(lives)
    ensures Chronological(AllOps(lives))
    ensures lives != [] ==> NotAfter(AllOps(lives), lives[|lives| - 1].restored)
  {
    if lives == [] {
    } else {
      var init, last := lives[..|lives| - 1], lives[|lives| - 1];
      AllOpsOnOneClock(init);
      if init == [] {
        assert AllOps(lives) == last.log;
      } else {
        ChronologicalConcat(AllOps(init), init[|init| - 1].restored, last.log);
      }
    }
  }

  /** From the last restore's cutoff on, what is carried over is the full ledger. */
  lemma {:induction false} CarriedIsTheLedger(w: int, lives: seq<Life>, cutoff: Time)
    requires OneClockLives(lives)
    requires lives != [] ==> lives[|lives| - 1].restored - w as real <= cutoff
    ensures Since(Carried(w, lives), cutoff) == Since(Ledger([], AllOps(lives)), cutoff)
  {
    if lives == [] {
    } else {
      var init, last := lives[..|lives| - 1], lives[|lives| - 1];
      var base := Carried(w, init);
      CarriedIsTheLedger(w, init, cutoff);
      SinceTwice(Kept(w, base, last.log), last.restored - w as real, cutoff);
      LazyEvictionIsExact(w, base, last.log, cutoff);
      ChronologicalSurvivors(w, base, last.log, cutoff);
      SameSince(base, Ledger([], AllOps(init)), last.log, cutoff);
      LedgerConcat([], AllOps(init), last.log);
    }
  }

  /** After any number of restarts a window goes on answering as one that never stopped. */
  lemma RestartsAreLikeNeverStopping(w: int, lives: seq<Life>, later: seq<Op>, now: Time)
    requires OneClockLives(lives + [Life(later, now)])
    ensures Usage(w, Carried(w, lives), later, now) == Usage(w, [], AllOps(lives) + later, now)
  {
    var all := lives + [Life(later, now)];
    assert all[..|lives|] == lives;
    AllOpsOnOneClock(all);
    UsageIsLedgerSum(w, [], AllOps(lives) + later, now);
    UsageIsLedgerSum(w, Carried(w, lives), later, now);
    CarriedIsTheLedger(w, lives, now - w as real);
    SameSince(Carried(w, lives), Ledger([], AllOps(lives)), later, now - w as real);
    LedgerConcat([], AllOps(lives), later);
  }

  // ---- The budget across restarts ----

  lemma OneClockPrefix(lives: seq<Life>, last: Life, c: nat)
    requires OneClockLives(lives + [last]) && c < |last.log|
    ensures OneClockLives(lives + [Life(last.log[..c], last.log[c].now)])
  {
    var all, cut := lives + [last], lives + [Life(last.log[..c], last.log[c].now)];
    assert all[..|lives|] == lives == cut[..|lives|];
    var log := last.log[..c];
    forall i, j | 0 <= i < j < |log| ensures log[i].now <= log[j].now {
      assert last.log[i] == log[i] && last.log[j] == log[j];
    }
  }

  lemma LaterCheckCounts(w: int, budget: int, lives: seq<Life>, last: Life, c: nat, estimate: int)
    requires OneClockLives(lives + [last]) && CheckSucceeds(w, budget, Carried(w, lives), last.log, c, estimate)
    ensures CheckSucceeds(w, budget, [], AllOps(lives) + last.log, |AllOps(lives)| + c, estimate)
  {
    var before := AllOps(lives);
    OneClockPrefix(lives, last, c);
    RestartsAreLikeNeverStopping(w, lives, last.log[..c], last.log[c].now);
    assert (before + last.log)[..|before| + c] == before + last.log[..c];
  }

  lemma EarlierGuardCounts(w: int, budget: int, log: seq<Op>, later: seq<Op>, d: nat)
    requires d < |log| && log[d].Add? && Guarded(w, budget, [], log, d)
    ensures Guarded(w, budget, [], log + later, d)
  {
    var all := log + later;
    var c: nat, estimate :|
      && c < d && CheckSucceeds(w, budget, [], log, c, estimate) && log[d].tokens <= estimate
      && forall i :: c < i < d ==> log[i].Query?;
    assert all[..c] == log[..c];
    assert CheckSucceeds(w, budget, [], all, c, estimate);
  }

  lemma LaterGuardCounts(w: int, budget: int, lives: seq<Life>, last: Life, d: nat)
    requires OneClockLives(lives + [last])
    requires d < |last.log| && last.log[d].Add? && Guarded(w, budget, Carried(w, lives), last.log, d)
    ensures Guarded(w, budget, [], AllOps(lives) + last.log, |AllOps(lives)| + d)
  {
    var c, estimate := GuardOf(w, budget, Carried(w, lives), last.log, d);
    LaterCheckCounts(w, budget, lives, last, c, estimate);
    GuardedBy(w, budget, AllOps(lives), last.log, c, estimate, d);
  }

  lemma GuardOf(w: int, budget: int, base: seq<Entry>, log: seq<Op>, d: nat) returns (c: nat, estimate: int)
    requires d < |log| && log[d].Add? && Guarded(w, budget, base, log, d)
    ensures c < d && CheckSucceeds(w, budget, base, log, c, estimate) && log[d].tokens <= estimate
    ensures forall i :: c < i < d ==> log[i].Query?
  {
    c, estimate :|
      && c < d && CheckSucceeds(w, budget, base, log, c, estimate) && log[d].tokens <= estimate
      && forall i :: c < i < d ==> log[i].Query?;
  }

  lemma GuardedBy(w: int, budget: int, before: seq<Op>, later: seq<Op>, c: nat, estimate: int, d: nat)
    requires c < d < |later| && later[d].Add? && later[d].tokens <= estimate
    requires CheckSucceeds(w, budget, [], before + later, |before| + c, estimate)
    requires forall i :: c < i < d ==> later[i].Query?
    ensures Guarded(w, budget, [], before + later, |before| + d)
  {
    var all, c', d' := before + later, |before| + c, |before| + d;
    assert forall i :: c' < i < d' ==> all[i] == later[i - |before|];
    assert all[d'] == later[d];
  }

  /** In every life, every debit follows a successful check of the window as that life carries it. */
  ghost predicate LivesGuarded(w: int, budget: int, lives: seq<Life>) {
    lives != [] ==>
      var init := lives[..|lives| - 1];
      LivesGuarded(w, budget, init) && AllGuarded(w, budget, Carried(w, init), lives[|lives| - 1].log)
  }

  lemma {:induction false} GuardedThroughout(w: int, budget: int, lives: seq<Life>)
    requires OneClockLives(lives) && LivesGuarded(w, budget, lives)
    ensures AllGuarded(w, budget, [], AllOps(lives))
  {
    if lives == [] {
    } else {
      var init, last := lives[..|lives| - 1], lives[|lives| - 1];
      var before, all := AllOps(init), AllOps(lives);
      GuardedThroughout(w, budget, init);
      assert lives == init + [last];
      forall d: nat | d < |all| && all[d].Add? ensures all[d].tokens >= 0 && Guarded(w, budget, [], all, d) {
        if d < |before| {
          EarlierGuardCounts(w, budget, before, last.log, d);
        } else {
          LaterGuardCounts(w, budget, init, last, d - |before|);
        }
      }
    }
  }

  /**
   * Budgets survive restarts, however many: if in every life every debit follows a successful check of at least its
   * size, answered by the window as restored for that life, then every closed interval of the window's length, also
   * one that spans restarts, holds at most the budget, unless it holds nothing.
   */
  lemma BudgetSurvivesRestarts(w: int, budget: int, lives: seq<Life>, lo: Time)
    requires OneClockLives(lives) && LivesGuarded(w, budget, lives)
    ensures var inside := Between(Ledger([], AllOps(lives)), lo, lo + w as real);
      inside != [] ==> Sum(inside) <= budget
  {
    AllOpsOnOneClock(lives);
    GuardedThroughout(w, budget, lives);
    BudgetHoldsInEveryInterval(w, budget, AllOps(lives), lo);
  }
}
