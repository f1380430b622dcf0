/** Sliding-window token usage: lazy eviction against the full ledger of debits. */
module Accounting {
  import opened Types

  datatype Entry = Entry(at: Time, tokens: int)

  /** One locked operation on an agent's window, with the clock reading it works with. */
  datatype Op = Query(now: Time) | Add(now: Time, tokens: int)

  function Sum(ds: seq<Entry>): int {
    if ds == [] then 0 else Sum(ds[..|ds| - 1]) + ds[|ds| - 1].tokens
  }

  /** The debits not older than a cutoff, in order. */
  function Since(ds: seq<Entry>, cutoff: Time): seq<Entry> {
    if ds == [] then []
    else
      var rest := Since(ds[..|ds| - 1], cutoff);
      if ds[|ds| - 1].at >= cutoff then rest + [ds[|ds| - 1]] else rest
  }

  /** Every debit ever made, after those the window started with: nothing is evicted. */
  function Ledger(base: seq<Entry>, log: seq<Op>): seq<Entry> {
    if log == [] then base
    else
      var rest := Ledger(base, log[..|log| - 1]);
      match log[|log| - 1]
      case Query(_) => rest
      case Add(now, tokens) => rest + [Entry(now, tokens)]
  }

  /** The entry list the code keeps: each operation evicts, then a debit appends. A restored window has a base. */
  function Kept(window: int, base: seq<Entry>, log: seq<Op>): seq<Entry> {
    if log == [] then base
    else
      var op := log[|log| - 1];
      var rest := Since(Kept(window, base, log[..|log| - 1]), op.now - window as real);
      match op
      case Query(_) => rest
      case Add(now, tokens) => rest + [Entry(now, tokens)]
  }

  /** What a usage query at a time answers after a log. */
  function Usage(window: int, base: seq<Entry>, log: seq<Op>, now: Time): int {
    Sum(Since(Kept(window, base, log), now - window as real))
  }

  predicate Chronological(log: seq<Op>) {
    forall i, j :: 0 <= i < j < |log| ==> log[i].now <= log[j].now
  }

  predicate NotAfter(log: seq<Op>, now: Time) {
    forall i :: 0 <= i < |log| ==> log[i].now <= now
  }

  function Later(a: Time, b: Time): Time {
    if a < b then b else a
  }

  lemma {:induction false} SinceTwice(ds: seq<Entry>, a: Time, b: Time)
    ensures Since(Since(ds, a), b) == Since(ds, Later(a, b))
  {
    if ds == [] {
    } else {
      var init, last := ds[..|ds| - 1], ds[|ds| - 1];
      SinceTwice(init, a, b);
      if last.at >= a {
        assert (Since(init, a) + [last])[..|Since(init, a)|] == Since(init, a);
      }
    }
  }

  lemma SinceAppend(ds: seq<Entry>, d: Entry, cutoff: Time)
    ensures Since(ds + [d], cutoff) == Since(ds, cutoff) + if d.at >= cutoff then [d] else []
  {
    assert (ds + [d])[..|ds|] == ds;
  }

  /**
   * A debit outlives a log from a position on when it is younger than the given cutoff and than that of every
   * operation there. Operations are ordered by lock acquisition; since the clock is read before the lock is
   * taken their readings need not be.
   */
  predicate Outlives(window: int, at: Time, log: seq<Op>, from: nat, cutoff: Time) {
    cutoff <= at && forall j :: from <= j < |log| ==> log[j].now - window as real <= at
  }

  /** Of the debits the window started with, those that outlive the whole log. */
  function BaseSurvivors(window: int, base: seq<Entry>, log: seq<Op>, cutoff: Time): seq<Entry> {
    if base == [] then []
    else
      var d := base[|base| - 1];
      BaseSurvivors(window, base[..|base| - 1], log, cutoff)
      + if Outlives(window, d.at, log, 0, cutoff) then [d] else []
  }

  /** Of the first n operations, the debits that outlive everything after them. */
  function DebitSurvivors(window: int, log: seq<Op>, n: nat, cutoff: Time): seq<Entry>
    requires n <= |log|
  {
    if n == 0 then []
    else
      var op := log[n - 1];
      DebitSurvivors(window, log, n - 1, cutoff)
      + if op.Add? && Outlives(window, op.now, log, n, cutoff) then [Entry(op.now, op.tokens)] else []
  }

  /** The debits that survive, in order and with no assumption on the clock. */
  function Survivors(window: int, base: seq<Entry>, log: seq<Op>, cutoff: Time): seq<Entry> {
    BaseSurvivors(window, base, log, cutoff) + DebitSurvivors(window, log, |log|, cutoff)
  }

  /** The last operation of a log only raises the cutoff for the ones before it. */
  lemma OutlivesLast(window: int, at: Time, log: seq<Op>, from: nat, cutoff: Time)
    requires from < |log|
    ensures Outlives(window, at, log, from, cutoff)
      <==> Outlives(window, at, log[..|log| - 1], from, Later(log[|log| - 1].now - window as real, cutoff))
  {
    var init := log[..|log| - 1];
    assert forall j :: from <= j < |init| ==> init[j] == log[j];
    assert forall j :: from <= j < |log| ==> j == |log| - 1 || log[j] == init[j];
  }

  lemma {:induction false} BaseSurvivorsLast(window: int, base: seq<Entry>, log: seq<Op>, cutoff: Time)
    requires log != []
    ensures BaseSurvivors(window, base, log, cutoff)
         == BaseSurvivors(window, base, log[..|log| - 1], Later(log[|log| - 1].now - window as real, cutoff))
  {
    if base == [] {
    } else {
      BaseSurvivorsLast(window, base[..|base| - 1], log, cutoff);
      OutlivesLast(window, base[|base| - 1].at, log, 0, cutoff);
    }
  }

  lemma {:induction false} DebitSurvivorsLast(window: int, log: seq<Op>, n: nat, cutoff: Time)
    requires n < |log|
    ensures DebitSurvivors(window, log, n, cutoff)
         == DebitSurvivors(window, log[..|log| - 1], n, Later(log[|log| - 1].now - window as real, cutoff))
  {
    if n == 0 {
    } else {
      DebitSurvivorsLast(window, log, n - 1, cutoff);
      OutlivesLast(window, log[n - 1].now, log, n, cutoff);
    }
  }

  lemma {:induction false} BaseSurvivorsAlone(window: int, base: seq<Entry>, cutoff: Time)
    ensures BaseSurvivors(window, base, [], cutoff) == Since(base, cutoff)
  {
    if base == [] {
    } else {
      BaseSurvivorsAlone(window, base[..|base| - 1], cutoff);
    }
  }

  lemma EvictThenAdd(ds: seq<Entry>, oldest: Time, op: Op, cutoff: Time)
    ensures Since(Since(ds, oldest) + (if op.Add? then [Entry(op.now, op.tokens)] else []), cutoff)
         == Since(ds, Later(oldest, cutoff)) + (if op.Add? && op.now >= cutoff then [Entry(op.now, op.tokens)] else [])
  {
    SinceTwice(ds, oldest, cutoff);
    if op.Add? {
      SinceAppend(Since(ds, oldest), Entry(op.now, op.tokens), cutoff);
    } else {
      assert Since(ds, oldest) + [] == Since(ds, oldest);
    }
  }

  lemma KeptLast(window: int, base: seq<Entry>, log: seq<Op>)
    requires log != []
    ensures var op := log[|log| - 1];
      Kept(window, base, log) == Since(Kept(window, base, log[..|log| - 1]), op.now - window as real)
                           + (if op.Add? then [Entry(op.now, op.tokens)] else [])
  {
  }

  lemma SurvivorsLast(window: int, base: seq<Entry>, log: seq<Op>, cutoff: Time)
    requires log != []
    ensures var op := log[|log| - 1];
      Survivors(window, base, log, cutoff)
      == Survivors(window, base, log[..|log| - 1], Later(op.now - window as real, cutoff))
         + (if op.Add? && op.now >= cutoff then [Entry(op.now, op.tokens)] else [])
  {
    BaseSurvivorsLast(window, base, log, cutoff);
    DebitSurvivorsLast(window, log, |log| - 1, cutoff);
  }

  lemma LazyEvictionStep(window: int, base: seq<Entry>, log: seq<Op>, cutoff: Time, older: Time)
    requires log != [] && older == Later(log[|log| - 1].now - window as real, cutoff)
    requires Since(Kept(window, base, log[..|log| - 1]), older) == Survivors(window, base, log[..|log| - 1], older)
    ensures Since(Kept(window, base, log), cutoff) == Survivors(window, base, log, cutoff)
  {
    var op := log[|log| - 1];
    EvictThenAdd(Kept(window, base, log[..|log| - 1]), op.now - window as real, op, cutoff);
    KeptLast(window, base, log);
    SurvivorsLast(window, base, log, cutoff);
  }

  /**
   * What lazy eviction keeps, for any clock readings: seen from a cutoff, exactly the debits that no later
   * operation's cutoff, nor the given one, is younger than, each once and in order.
   */
  lemma {:induction false} LazyEvictionIsExact(window: int, base: seq<Entry>, log: seq<Op>, cutoff: Time)
    ensures Since(Kept(window, base, log), cutoff) == Survivors(window, base, log, cutoff)
    decreases log
  {
    if log == [] {
      BaseSurvivorsAlone(window, base, cutoff);
    } else {
      var older := Later(log[|log| - 1].now - window as real, cutoff);
      LazyEvictionIsExact(window, base, log[..|log| - 1], older);
      LazyEvictionStep(window, base, log, cutoff, older);
    }
  }

  lemma SinceLedgerLast(base: seq<Entry>, log: seq<Op>, cutoff: Time)
    requires log != []
    ensures var op := log[|log| - 1];
      Since(Ledger(base, log), cutoff)
      == Since(Ledger(base, log[..|log| - 1]), cutoff)
         + (if op.Add? && op.now >= cutoff then [Entry(op.now, op.tokens)] else [])
  {
    var op := log[|log| - 1];
    if op.Add? {
      SinceAppend(Ledger(base, log[..|log| - 1]), Entry(op.now, op.tokens), cutoff);
    }
  }

  /** No debit younger than a cutoff is lost: none of them has a later operation whose own cutoff is younger. */
  predicate NothingLost(window: int, base: seq<Entry>, log: seq<Op>, cutoff: Time) {
    && (forall d, j :: d in base && d.at >= cutoff && 0 <= j < |log| ==> log[j].now - window as real <= d.at)
    && (forall i, j :: 0 <= i < j < |log| && log[i].Add? && log[i].now >= cutoff ==>
          log[j].now - window as real <= log[i].now)
  }

  lemma {:induction false} BaseSurvivorsOfLedger(window: int, base: seq<Entry>, log: seq<Op>, cutoff: Time)
    ensures |BaseSurvivors(window, base, log, cutoff)| <= |Since(base, cutoff)|
    ensures |BaseSurvivors(window, base, log, cutoff)| == |Since(base, cutoff)| <==>
      forall d, j :: d in base && d.at >= cutoff && 0 <= j < |log| ==> log[j].now - window as real <= d.at
    ensures |BaseSurvivors(window, base, log, cutoff)| == |Since(base, cutoff)| ==>
      BaseSurvivors(window, base, log, cutoff) == Since(base, cutoff)
  {
    if base == [] {
    } else {
      BaseSurvivorsOfLedger(window, base[..|base| - 1], log, cutoff);
      assert base == base[..|base| - 1] + [base[|base| - 1]];
    }
  }

  /** The debits among the first n operations that are younger than a cutoff. */
  function DebitsSince(log: seq<Op>, n: nat, cutoff: Time): seq<Entry>
    requires n <= |log|
  {
    if n == 0 then []
    else
      var op := log[n - 1];
      DebitsSince(log, n - 1, cutoff) + if op.Add? && op.now >= cutoff then [Entry(op.now, op.tokens)] else []
  }

  lemma {:induction false} DebitSurvivorsOfLedger(window: int, log: seq<Op>, n: nat, cutoff: Time)
    requires n <= |log|
    ensures |DebitSurvivors(window, log, n, cutoff)| <= |DebitsSince(log, n, cutoff)|
    ensures |DebitSurvivors(window, log, n, cutoff)| == |DebitsSince(log, n, cutoff)| <==>
      forall i, j :: 0 <= i < n && i < j < |log| && log[i].Add? && log[i].now >= cutoff ==>
        log[j].now - window as real <= log[i].now
    ensures |DebitSurvivors(window, log, n, cutoff)| == |DebitsSince(log, n, cutoff)| ==>
      DebitSurvivors(window, log, n, cutoff) == DebitsSince(log, n, cutoff)
  {
    if n == 0 {
    } else {
      DebitSurvivorsOfLedger(window, log, n - 1, cutoff);
    }
  }

  lemma {:induction false} LedgerSince(base: seq<Entry>, log: seq<Op>, n: nat, cutoff: Time)
    requires n <= |log|
    ensures Since(Ledger(base, log[..n]), cutoff) == Since(base, cutoff) + DebitsSince(log, n, cutoff)
  {
    if n == 0 {
    } else {
      LedgerSince(base, log, n - 1, cutoff);
      assert log[..n][..n - 1] == log[..n - 1];
      SinceLedgerLast(base, log[..n], cutoff);
    }
  }

  lemma SplitAlike<T>(a: seq<T>, b: seq<T>, a': seq<T>, b': seq<T>)
    requires |a| <= |a'| && |b| <= |b'| && a + b == a' + b'
    ensures |a| == |a'| && |b| == |b'|
  {
    assert |a + b| == |a' + b'|;
  }

  /**
   * With readings in any order, seen from a cutoff the entries kept are the full ledger exactly when no debit
   * younger than the cutoff has a later operation whose own cutoff is younger than the debit.
   */
  lemma LedgerIsKeptExactlyWhen(window: int, base: seq<Entry>, log: seq<Op>, cutoff: Time)
    ensures Since(Kept(window, base, log), cutoff) == Since(Ledger(base, log), cutoff)
      <==> NothingLost(window, base, log, cutoff)
  {
    LazyEvictionIsExact(window, base, log, cutoff);
    BaseSurvivorsOfLedger(window, base, log, cutoff);
    DebitSurvivorsOfLedger(window, log, |log|, cutoff);
    LedgerSince(base, log, |log|, cutoff);
    assert log[..|log|] == log;
    if Since(Kept(window, base, log), cutoff) == Since(Ledger(base, log), cutoff) {
      SplitAlike(BaseSurvivors(window, base, log, cutoff), DebitSurvivors(window, log, |log|, cutoff),
                 Since(base, cutoff), DebitsSince(log, |log|, cutoff));
    }
  }

  lemma ChronologicalSurvivors(window: int, base: seq<Entry>, log: seq<Op>, cutoff: Time)
    requires Chronological(log) && (log != [] ==> log[|log| - 1].now - window as real <= cutoff)
    ensures Survivors(window, base, log, cutoff) == Since(Ledger(base, log), cutoff)
  {
    LazyEvictionIsExact(window, base, log, cutoff);
    LedgerIsKeptExactlyWhen(window, base, log, cutoff);
  }

  /**
   * Lazy eviction refines the full ledger: under a nondecreasing clock, whatever queries and debits came before,
   * the usage reported at a time is the sum of all debits ever made that are not older than the window.
   */
  lemma UsageIsLedgerSum(window: int, base: seq<Entry>, log: seq<Op>, now: Time)
    requires Chronological(log) && NotAfter(log, now)
    ensures Usage(window, base, log, now) == Sum(Since(Ledger(base, log), now - window as real))
  {
    LazyEvictionIsExact(window, base, log, now - window as real);
    ChronologicalSurvivors(window, base, log, now - window as real);
  }

  lemma {:induction false} LedgerIgnoresQueries(base: seq<Entry>, a: seq<Op>, q: Time, b: seq<Op>)
    ensures Ledger(base, a + [Query(q)] + b) == Ledger(base, a + b)
  {
    if b == [] {
      assert (a + [Query(q)] + b)[..|a|] == a;
      assert a + b == a;
    } else {
      var init := b[..|b| - 1];
      LedgerIgnoresQueries(base, a, q, init);
      assert (a + [Query(q)] + b)[..|a| + |b|] == a + [Query(q)] + init;
      assert (a + b)[..|a + b| - 1] == a + init;
    }
  }

  /** A query inserted anywhere changes no later answer. */
  lemma QueriesAreInvisible(window: int, base: seq<Entry>, a: seq<Op>, q: Time, b: seq<Op>, now: Time)
    requires Chronological(a + [Query(q)] + b) && NotAfter(a + [Query(q)] + b, now)
    ensures Usage(window, base, a + [Query(q)] + b, now) == Usage(window, base, a + b, now)
  {
    var queried, without := a + [Query(q)] + b, a + b;
    forall i, j | 0 <= i < j < |without| ensures without[i].now <= without[j].now {
      var i' := if i < |a| then i else i + 1;
      var j' := if j < |a| then j else j + 1;
      assert queried[i'] == without[i] && queried[j'] == without[j];
    }
    forall i | 0 <= i < |without| ensures without[i].now <= now {
      assert queried[if i < |a| then i else i + 1] == without[i];
    }
    LedgerIgnoresQueries(base, a, q, b);
    UsageIsLedgerSum(window, base, queried, now);
    UsageIsLedgerSum(window, base, without, now);
  }

  // ---- The same for the reported sums ----

  /** No tokens younger than a cutoff are lost; a debit of none does not show in a sum. */
  predicate NoTokensLost(window: int, base: seq<Entry>, log: seq<Op>, cutoff: Time) {
    && (forall d, j :: d in base && d.tokens > 0 && d.at >= cutoff && 0 <= j < |log| ==>
          log[j].now - window as real <= d.at)
    && (forall i :: 0 <= i < |log| ==> TokensSafe(window, log, i, cutoff))
  }

  predicate TokensSafe(window: int, log: seq<Op>, i: nat, cutoff: Time)
    requires i < |log|
  {
    log[i].Add? && log[i].tokens > 0 && log[i].now >= cutoff ==>
      forall j :: i < j < |log| ==> log[j].now - window as real <= log[i].now
  }

  lemma SumAppend(ds: seq<Entry>, d: Entry)
    ensures Sum(ds + [d]) == Sum(ds) + d.tokens
  {
    assert (ds + [d])[..|ds|] == ds;
  }

  lemma {:induction false} SumConcat(a: seq<Entry>, b: seq<Entry>)
    ensures Sum(a + b) == Sum(a) + Sum(b)
    decreases b
  {
    if b == [] {
      assert a + b == a;
    } else {
      SumConcat(a, b[..|b| - 1]);
      assert (a + b)[..|a + b| - 1] == a + b[..|b| - 1];
    }
  }

  lemma SumMaybe(ds: seq<Entry>, d: Entry, take: bool)
    ensures Sum(ds + if take then [d] else []) == Sum(ds) + if take then d.tokens else 0
  {
    if take {
      SumAppend(ds, d);
    } else {
      assert ds + [] == ds;
    }
  }

  lemma {:induction false} BaseTokensLost(window: int, base: seq<Entry>, log: seq<Op>, cutoff: Time)
    requires forall d :: d in base ==> d.tokens >= 0
    ensures Sum(BaseSurvivors(window, base, log, cutoff)) <= Sum(Since(base, cutoff))
    ensures Sum(BaseSurvivors(window, base, log, cutoff)) == Sum(Since(base, cutoff)) <==>
      forall d, j :: d in base && d.tokens > 0 && d.at >= cutoff && 0 <= j < |log| ==>
        log[j].now - window as real <= d.at
  {
    if base == [] {
    } else {
      var init, d := base[..|base| - 1], base[|base| - 1];
      BaseTokensLost(window, init, log, cutoff);
      assert base == init + [d];
      SumMaybe(BaseSurvivors(window, init, log, cutoff), d, Outlives(window, d.at, log, 0, cutoff));
      SumMaybe(Since(init, cutoff), d, d.at >= cutoff);
      assert Since(init, cutoff) + [] == Since(init, cutoff);
    }
  }

  lemma DebitSumsLast(window: int, log: seq<Op>, n: nat, cutoff: Time)
    requires 0 < n <= |log|
    ensures var op := log[n - 1];
      && Sum(DebitSurvivors(window, log, n, cutoff)) == Sum(DebitSurvivors(window, log, n - 1, cutoff))
           + (if op.Add? && Outlives(window, op.now, log, n, cutoff) then op.tokens else 0)
      && Sum(DebitsSince(log, n, cutoff)) == Sum(DebitsSince(log, n - 1, cutoff))
           + (if op.Add? && op.now >= cutoff then op.tokens else 0)
  {
    var op := log[n - 1];
    if op.Add? {
      var d := Entry(op.now, op.tokens);
      SumMaybe(DebitSurvivors(window, log, n - 1, cutoff), d, Outlives(window, op.now, log, n, cutoff));
      SumMaybe(DebitsSince(log, n - 1, cutoff), d, op.now >= cutoff);
    } else {
      assert DebitSurvivors(window, log, n, cutoff) == DebitSurvivors(window, log, n - 1, cutoff);
      assert DebitsSince(log, n, cutoff) == DebitsSince(log, n - 1, cutoff);
    }
  }

  lemma {:induction false} DebitTokensLost(window: int, log: seq<Op>, n: nat, cutoff: Time)
    requires n <= |log| && forall i :: 0 <= i < |log| && log[i].Add? ==> log[i].tokens >= 0
    ensures Sum(DebitSurvivors(window, log, n, cutoff)) <= Sum(DebitsSince(log, n, cutoff))
    ensures Sum(DebitSurvivors(window, log, n, cutoff)) == Sum(DebitsSince(log, n, cutoff))
      <==> forall i :: 0 <= i < n ==> TokensSafe(window, log, i, cutoff)
  {
    if n == 0 {
    } else {
      DebitTokensLost(window, log, n - 1, cutoff);
      DebitSumsLast(window, log, n, cutoff);
      var op := log[n - 1];
      assert TokensSafe(window, log, n - 1, cutoff)
        <==> (op.Add? && op.tokens > 0 && op.now >= cutoff ==> Outlives(window, op.now, log, n, cutoff));
      assert (forall i :: 0 <= i < n ==> TokensSafe(window, log, i, cutoff))
        <==> TokensSafe(window, log, n - 1, cutoff)
             && forall i :: 0 <= i < n - 1 ==> TokensSafe(window, log, i, cutoff);
    }
  }

  lemma UsageSplits(window: int, base: seq<Entry>, log: seq<Op>, now: Time)
    ensures var cutoff := now - window as real;
      Usage(window, base, log, now)
      == Sum(BaseSurvivors(window, base, log, cutoff)) + Sum(DebitSurvivors(window, log, |log|, cutoff))
  {
    var cutoff := now - window as real;
    LazyEvictionIsExact(window, base, log, cutoff);
    SumConcat(BaseSurvivors(window, base, log, cutoff), DebitSurvivors(window, log, |log|, cutoff));
  }

  lemma LedgerSumSplits(base: seq<Entry>, log: seq<Op>, cutoff: Time)
    ensures Sum(Since(Ledger(base, log), cutoff)) == Sum(Since(base, cutoff)) + Sum(DebitsSince(log, |log|, cutoff))
  {
    LedgerSince(base, log, |log|, cutoff);
    assert log[..|log|] == log;
    SumConcat(Since(base, cutoff), DebitsSince(log, |log|, cutoff));
  }

  /**
   * With readings in any order a reported usage never exceeds the ledger sum, and equals it exactly when no tokens
   * inside the window were dropped by an operation between their debit and the query.
   */
  lemma UsageIsLedgerSumExactlyWhen(window: int, base: seq<Entry>, log: seq<Op>, now: Time)
    requires forall d :: d in base ==> d.tokens >= 0
    requires forall i :: 0 <= i < |log| && log[i].Add? ==> log[i].tokens >= 0
    ensures Usage(window, base, log, now) <= Sum(Since(Ledger(base, log), now - window as real))
    ensures Usage(window, base, log, now) == Sum(Since(Ledger(base, log), now - window as real))
      <==> NoTokensLost(window, base, log, now - window as real)
  {
    var cutoff := now - window as real;
    UsageSplits(window, base, log, now);
    LedgerSumSplits(base, log, cutoff);
    BaseTokensLost(window, base, log, cutoff);
    DebitTokensLost(window, log, |log|, cutoff);
  }

  /** If the clock readings arrive out of order, a recent debit can go missing from an answer. */
  lemma OutOfOrderReadingsUnderReport(window: int, tokens: int)
    requires window > 0 && tokens != 0
    ensures var log := [Add(0.0, tokens), Query(window as real + 1.0)];
      Usage(window, [], log, 0.5) == 0 && Sum(Since(Ledger([], log), 0.5 - window as real)) == tokens
  {
    var first, log := [Add(0.0, tokens)], [Add(0.0, tokens), Query(window as real + 1.0)];
    var debit := Entry(0.0, tokens);
    assert log[..1] == first && first[..0] == [];
    assert Kept(window, [], first) == [debit] == Ledger([], first) == Ledger([], log);
    assert [] + [debit] == [debit];
    SinceAppend([], debit, 1.0);
    SinceAppend([], debit, 0.5 - window as real);
    SumAppend([], debit);
  }

  // ---- The budget, over every window ----

  /** Debits inside a closed time interval. */
  function Between(ds: seq<Entry>, lo: Time, hi: Time): seq<Entry> {
    if ds == [] then []
    else
      var rest := Between(ds[..|ds| - 1], lo, hi);
      var d := ds[|ds| - 1];
      if lo <= d.at <= hi then rest + [d] else rest
  }

  /** An interval takes each debit by its own time, in order. */
  lemma {:induction false} BetweenSplits(a: seq<Entry>, b: seq<Entry>, lo: Time, hi: Time)
    ensures Between(a + b, lo, hi) == Between(a, lo, hi) + Between(b, lo, hi)
    ensures forall d :: Between([d], lo, hi) == if lo <= d.at <= hi then [d] else []
    decreases b
  {
    forall d ensures Between([d], lo, hi) == if lo <= d.at <= hi then [d] else [] {
      assert [d][..0] == [];
    }
    if b == [] {
      assert a + b == a;
    } else {
      BetweenSplits(a, b[..|b| - 1], lo, hi);
      assert (a + b)[..|a + b| - 1] == a + b[..|b| - 1];
    }
  }

  /** The check at position c, for an estimate, succeeds. */
  predicate CheckSucceeds(window: int, budget: int, base: seq<Entry>, log: seq<Op>, c: nat, estimate: int) {
    c < |log| && log[c].Query? && Usage(window, base, log[..c], log[c].now) + estimate <= budget
  }

  /** The debit at position d comes after a successful check of at least its size, with no debit between the two. */
  ghost predicate Guarded(window: int, budget: int, base: seq<Entry>, log: seq<Op>, d: nat)
    requires d < |log| && log[d].Add?
  {
    exists c: nat, estimate ::
      && c < d && CheckSucceeds(window, budget, base, log, c, estimate) && log[d].tokens <= estimate
      && forall i :: c < i < d ==> log[i].Query?
  }

  ghost predicate AllGuarded(window: int, budget: int, base: seq<Entry>, log: seq<Op>) {
    forall d: nat :: d < |log| && log[d].Add? ==> log[d].tokens >= 0 && Guarded(window, budget, base, log, d)
  }

  lemma {:induction false} NoDebitsBetween(log: seq<Op>, c: nat)
    requires c <= |log| && forall i :: c <= i < |log| ==> log[i].Query?
    ensures Ledger([], log) == Ledger([], log[..c])
  {
    if c < |log| {
      assert log[..|log| - 1][..c] == log[..c];
      NoDebitsBetween(log[..|log| - 1], c);
    } else {
      assert log[..c] == log;
    }
  }

  /** An interval starting at or after a cutoff holds no more than everything since the cutoff. */
  lemma {:induction false} IntervalWithinWindow(ds: seq<Entry>, lo: Time, hi: Time, cutoff: Time)
    requires cutoff <= lo && forall d :: d in ds ==> d.tokens >= 0
    ensures 0 <= Sum(Between(ds, lo, hi)) <= Sum(Since(ds, cutoff))
  {
    if ds == [] {
    } else {
      var init, d := ds[..|ds| - 1], ds[|ds| - 1];
      IntervalWithinWindow(init, lo, hi, cutoff);
      SumAppend(Between(init, lo, hi), d);
      SumAppend(Since(init, cutoff), d);
    }
  }

  lemma {:induction false} LedgerTokens(log: seq<Op>)
    ensures forall d :: d in Ledger([], log) ==> exists i :: 0 <= i < |log| && log[i] == Add(d.at, d.tokens)
  {
    if log == [] {
    } else {
      var init := log[..|log| - 1];
      LedgerTokens(init);
      forall d | d in Ledger([], log) ensures exists i :: 0 <= i < |log| && log[i] == Add(d.at, d.tokens) {
        if d in Ledger([], init) {
          var i :| 0 <= i < |init| && init[i] == Add(d.at, d.tokens);
          assert log[i] == Add(d.at, d.tokens);
        } else {
          assert log[|log| - 1] == Add(d.at, d.tokens);
        }
      }
    }
  }

  lemma GuardedPrefix(window: int, budget: int, log: seq<Op>)
    requires log != [] && AllGuarded(window, budget, [], log)
    ensures AllGuarded(window, budget, [], log[..|log| - 1])
  {
    var init := log[..|log| - 1];
    forall d: nat | d < |init| && init[d].Add? ensures init[d].tokens >= 0 && Guarded(window, budget, [], init, d) {
      assert log[d] == init[d] && Guarded(window, budget, [], log, d);
      var c: nat, estimate :|
        && c < d && CheckSucceeds(window, budget, [], log, c, estimate) && log[d].tokens <= estimate
        && forall i :: c < i < d ==> log[i].Query?;
      assert init[..c] == log[..c];
      assert CheckSucceeds(window, budget, [], init, c, estimate);
    }
  }

  /** What the successful check before a debit says about any interval that the debit closes. */
  lemma CheckCoversInterval(window: int, budget: int, before: seq<Op>, checked: Time, estimate: int, lo: Time)
    requires Chronological(before) && NotAfter(before, checked)
    requires forall i :: 0 <= i < |before| && before[i].Add? ==> before[i].tokens >= 0
    requires Usage(window, [], before, checked) + estimate <= budget
    requires checked - window as real <= lo
    ensures Sum(Between(Ledger([], before), lo, lo + window as real)) + estimate <= budget
  {
    UsageIsLedgerSum(window, [], before, checked);
    LedgerTokens(before);
    forall e | e in Ledger([], before) ensures e.tokens >= 0 {
      var i: nat :| i < |before| && before[i] == Add(e.at, e.tokens);
    }
    IntervalWithinWindow(Ledger([], before), lo, lo + window as real, checked - window as real);
  }

  lemma GuardCoversInterval(window: int, budget: int, init: seq<Op>, c: nat, estimate: int, lo: Time)
    requires Chronological(init) && CheckSucceeds(window, budget, [], init, c, estimate)
    requires forall i :: 0 <= i < |init| && init[i].Add? ==> init[i].tokens >= 0
    requires forall i :: c <= i < |init| ==> init[i].Query?
    requires init[c].now - window as real <= lo
    ensures Sum(Between(Ledger([], init), lo, lo + window as real)) + estimate <= budget
  {
    var before := init[..c];
    forall i | 0 <= i < |before| && before[i].Add? ensures before[i].tokens >= 0 {
      assert before[i] == init[i];
    }
    CheckCoversInterval(window, budget, before, init[c].now, estimate, lo);
    NoDebitsBetween(init, c);
  }

  lemma LastDebitFits(window: int, budget: int, log: seq<Op>, lo: Time)
    requires log != [] && log[|log| - 1].Add? && Chronological(log) && AllGuarded(window, budget, [], log)
    requires lo >= log[|log| - 1].now - window as real
    ensures Sum(Between(Ledger([], log[..|log| - 1]), lo, lo + window as real)) + log[|log| - 1].tokens <= budget
  {
    var d := |log| - 1;
    var init := log[..d];
    assert Guarded(window, budget, [], log, d);
    var c: nat, estimate :|
      && c < d && CheckSucceeds(window, budget, [], log, c, estimate) && log[d].tokens <= estimate
      && forall i :: c < i < d ==> log[i].Query?;
    assert init[..c] == log[..c];
    forall i | 0 <= i < |init| && init[i].Add? ensures init[i].tokens >= 0 {
      assert log[i] == init[i];
    }
    GuardCoversInterval(window, budget, init, c, estimate, lo);
  }

  /**
   * The budget holds over every window, wherever it starts: if every debit follows a successful check of at
   * least its size with no other debit in between, then the debits inside any closed interval of the window's
   * length sum to at most the budget, unless there are none.
   */
  lemma {:induction false} BudgetHoldsInEveryInterval(window: int, budget: int, log: seq<Op>, lo: Time)
    requires Chronological(log) && AllGuarded(window, budget, [], log)
    ensures var inside := Between(Ledger([], log), lo, lo + window as real);
      inside != [] ==> Sum(inside) <= budget
  {
    if log == [] {
    } else {
      var init, op := log[..|log| - 1], log[|log| - 1];
      GuardedPrefix(window, budget, log);
      BudgetHoldsInEveryInterval(window, budget, init, lo);
      if op.Add? {
        var d := Entry(op.now, op.tokens);
        assert (Ledger([], init) + [d])[..|Ledger([], init)|] == Ledger([], init);
        if lo <= d.at <= lo + window as real {
          LastDebitFits(window, budget, log, lo);
          SumAppend(Between(Ledger([], init), lo, lo + window as real), d);
        }
      }
    }
  }
}
