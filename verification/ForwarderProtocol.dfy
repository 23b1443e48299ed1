/**
 * The batching protocol of both forwarders under every interleaving (internal/forwarder/forwarder.go). A step is a
 * section under the mutex or the local work between two of them. Thread 0 runs flushLoop; the others call Submit.
 */
module ForwarderProtocol {

  /**
   * Where a thread is. `added` is how many items the Submit it is in appended (0 in flushLoop), `size` the length it
   * saw under the lock, `batch` the number of the batch it took, and `final` marks the flush after Close.
   */
  datatype Pc =
    | Idle
    | Appended(added: nat, size: nat)
    | Flushing(added: nat, final: bool)
    | Working(batch: nat, final: bool)
    | Stopped

  datatype Result = Sent | MarshalError | SendError | NothingKept

  /** A taken batch is being worked on by a thread, or done: which items relabelling kept, and what became of those. */
  datatype Fate = InFlight(thread: nat) | Done(kept: seq<bool>, result: Result)

  /** `log` (every item appended, in lock order), `taken` (the batches, in swap order) and `fates` are history. */
  datatype State<T> = State(pending: seq<T>, threads: seq<Pc>, closed: bool,
                            log: seq<T>, taken: seq<seq<T>>, fates: seq<Fate>)

  datatype Step<T> =
    | Submit(t: nat, items: seq<T>)
    | Test(t: nat)
    | Tick
    | Close
    | SeeClosed
    | Take(t: nat)
    | Finish(t: nat, kept: seq<bool>, result: Result)

  ghost predicate Init<T>(s: State<T>) {
    && s.pending == [] && s.log == [] && s.taken == [] && s.fates == [] && !s.closed
    && s.threads != [] && forall t :: 0 <= t < |s.threads| ==> s.threads[t] == Idle
  }

  predicate Enabled<T>(s: State<T>, step: Step<T>) {
    && s.threads != [] && |s.taken| == |s.fates|
    && match step
       case Submit(t, _) => 0 < t < |s.threads| && s.threads[t].Idle?
       case Test(t) => t < |s.threads| && s.threads[t].Appended?
       case Tick => s.threads[0].Idle?
       case Close => !s.closed
       case SeeClosed => s.threads[0].Idle? && s.closed
       case Take(t) => t < |s.threads| && s.threads[t].Flushing?
       case Finish(t, kept, result) =>
         && t < |s.threads| && s.threads[t].Working? && s.threads[t].batch < |s.taken|
         && |kept| == |s.taken[s.threads[t].batch]| && (result.NothingKept? <==> true !in kept)
  }

  function After(final: bool): Pc {
    if final then Stopped else Idle
  }

  function Do<T>(batchSize: int, s: State<T>, step: Step<T>): State<T>
    requires Enabled(s, step)
  {
    match step
    case Submit(t, items) =>
      s.(pending := s.pending + items, log := s.log + items,
         threads := s.threads[t := Appended(|items|, |s.pending + items|)])
    case Test(t) =>
      var pc := s.threads[t];
      s.(threads := s.threads[t := if pc.size >= batchSize then Flushing(pc.added, false) else Idle])
    case Tick => s.(threads := s.threads[0 := Flushing(0, false)])
    case Close => s.(closed := true)
    case SeeClosed => s.(threads := s.threads[0 := Flushing(0, true)])
    case Take(t) =>
      var final := s.threads[t].final;
      if s.pending == [] then s.(threads := s.threads[t := After(final)])
      else s.(pending := [], taken := s.taken + [s.pending], fates := s.fates + [InFlight(t)],
              threads := s.threads[t := Working(|s.taken|, final)])
    case Finish(t, kept, result) =>
      s.(fates := s.fates[s.threads[t].batch := Done(kept, result)],
         threads := s.threads[t := After(s.threads[t].final)])
  }

  ghost predicate Next<T(!new)>(batchSize: int, s: State<T>, s': State<T>) {
    exists step :: Enabled(s, step) && s' == Do(batchSize, s, step)
  }

  ghost predicate Run<T(!new)>(batchSize: int, trace: seq<State<T>>) {
    && trace != [] && Init(trace[0])
    && forall i :: 0 <= i < |trace| - 1 ==> Next(batchSize, trace[i], trace[i + 1])
  }

  // ---------- The ledger ----------

  function Flatten<T>(batches: seq<seq<T>>): seq<T> {
    if batches == [] then [] else Flatten(batches[..|batches| - 1]) + batches[|batches| - 1]
  }

  /** Batches in flight and threads at work belong together one to one. */
  ghost predicate Owned<T>(s: State<T>) {
    && |s.fates| == |s.taken|
    && (forall t :: 0 <= t < |s.threads| && s.threads[t].Working? ==>
          s.threads[t].batch < |s.fates| && s.fates[s.threads[t].batch] == InFlight(t))
    && (forall j :: 0 <= j < |s.fates| ==>
          match s.fates[j]
          case InFlight(t) => t < |s.threads| && s.threads[t].Working? && s.threads[t].batch == j
          case Done(kept, result) => |kept| == |s.taken[j]| && (result.NothingKept? <==> true !in kept))
  }

  ghost predicate Ledger<T>(s: State<T>) {
    && Owned(s) && s.threads != []
    && Flatten(s.taken) + s.pending == s.log
    && forall j :: 0 <= j < |s.taken| ==> s.taken[j] != []
  }

  // ---------- The backlog ----------

  /** What a thread that saw the threshold reached, and has not swapped since, may have left in `pending`. */
  function Credit(batchSize: int, pc: Pc): nat {
    match pc
    case Appended(added, size) => if size >= batchSize then added else 0
    case Flushing(added, _) => added
    case _ => 0
  }

  function Credits(batchSize: int, threads: seq<Pc>): nat {
    if threads == [] then 0 else Credit(batchSize, threads[0]) + Credits(batchSize, threads[1..])
  }

  lemma {:induction false} CreditsUpdate(batchSize: int, threads: seq<Pc>, t: nat, pc: Pc)
    requires t < |threads|
    ensures Credits(batchSize, threads[t := pc]) ==
            Credits(batchSize, threads) - Credit(batchSize, threads[t]) + Credit(batchSize, pc)
    decreases |threads|
  {
    hide Credit;
    if t == 0 {
      assert threads[t := pc][1..] == threads[1..];
    } else {
      assert threads[t := pc][1..] == threads[1..][t - 1 := pc];
      CreditsUpdate(batchSize, threads[1..], t - 1, pc);
    }
  }

  function Below(batchSize: int): nat {
    if batchSize >= 1 then batchSize - 1 else 0
  }

  ghost predicate Backlog<T>(batchSize: int, s: State<T>) {
    |s.pending| <= Below(batchSize) + Credits(batchSize, s.threads)
  }

  lemma StepKeepsBacklog<T>(batchSize: int, s: State<T>, step: Step<T>)
    requires Enabled(s, step) && Backlog(batchSize, s)
    ensures Backlog(batchSize, Do(batchSize, s, step))
  {
    hide Credits;
    var s' := Do(batchSize, s, step);
    match step {
      case Submit(t, items) => CreditsUpdate(batchSize, s.threads, t, s'.threads[t]);
      case Test(t) => CreditsUpdate(batchSize, s.threads, t, s'.threads[t]);
      case Tick => CreditsUpdate(batchSize, s.threads, 0, s'.threads[0]);
      case Close =>
      case SeeClosed => CreditsUpdate(batchSize, s.threads, 0, s'.threads[0]);
      case Take(t) => CreditsUpdate(batchSize, s.threads, t, s'.threads[t]);
      case Finish(t, _, _) => CreditsUpdate(batchSize, s.threads, t, s'.threads[t]);
    }
  }

  lemma FlattenAppend<T>(batches: seq<seq<T>>, b: seq<T>)
    ensures Flatten(batches + [b]) == Flatten(batches) + b
  {
    assert (batches + [b])[..|batches|] == batches;
  }

  lemma TakeKeepsLedger<T>(batchSize: int, s: State<T>, t: nat)
    requires Enabled(s, Take(t)) && Ledger(s)
    ensures Ledger(Do(batchSize, s, Take(t)))
  {
    hide Flatten, Owned;
    TakeKeepsOwned(batchSize, s, t);
    FlattenAppend(s.taken, s.pending);
    assert Flatten(s.taken) + s.pending + [] == s.log;
  }

  lemma TakeKeepsOwned<T>(batchSize: int, s: State<T>, t: nat)
    requires Enabled(s, Take(t)) && Owned(s)
    ensures Owned(Do(batchSize, s, Take(t)))
  {
  }

  lemma StepKeepsLedger<T>(batchSize: int, s: State<T>, step: Step<T>)
    requires Enabled(s, step) && Ledger(s)
    ensures Ledger(Do(batchSize, s, step))
  {
    hide Flatten;
    var s' := Do(batchSize, s, step);
    match step {
      case Submit(_, items) => assert Flatten(s.taken) + (s.pending + items) == Flatten(s.taken) + s.pending + items;
      case Take(t) => TakeKeepsLedger(batchSize, s, t);
      case _ =>
    }
  }

  lemma {:induction false} RunKeepsInvariants<T(!new)>(batchSize: int, trace: seq<State<T>>, i: nat)
    requires Run(batchSize, trace) && i < |trace|
    ensures Ledger(trace[i]) && Backlog(batchSize, trace[i])
  {
    hide Ledger, Backlog, Do, Enabled;
    if i == 0 {
      InitHasInvariants(batchSize, trace[0]);
    } else {
      RunKeepsInvariants(batchSize, trace, i - 1);
      assert Next(batchSize, trace[i - 1], trace[i - 1 + 1]);
      var step :| Enabled(trace[i - 1], step) && trace[i] == Do(batchSize, trace[i - 1], step);
      StepKeepsLedger(batchSize, trace[i - 1], step);
      StepKeepsBacklog(batchSize, trace[i - 1], step);
    }
  }

  lemma InitHasInvariants<T>(batchSize: int, s: State<T>)
    requires Init(s)
    ensures Ledger(s) && Backlog(batchSize, s)
  {
  }

  // ---------- What holds in every reachable state ----------

  /** A Submit is in progress while its thread has not returned from it. */
  predicate Submitting(s: seq<Pc>) {
    exists t :: 0 < t < |s| && !s[t].Idle?
  }

  lemma {:induction false} NoCredits(batchSize: int, threads: seq<Pc>)
    requires forall t :: 0 <= t < |threads| ==> Credit(batchSize, threads[t]) == 0
    ensures Credits(batchSize, threads) == 0
  {
    if threads != [] {
      NoCredits(batchSize, threads[1..]);
    }
  }

  /** Thread 0 never appends. */
  ghost predicate LoopAppendsNothing<T>(s: State<T>) {
    s.threads != [] && !s.threads[0].Appended? && (s.threads[0].Flushing? ==> s.threads[0].added == 0)
  }

  lemma {:induction false} LoopRole<T(!new)>(batchSize: int, trace: seq<State<T>>, i: nat)
    requires Run(batchSize, trace) && i < |trace|
    ensures LoopAppendsNothing(trace[i])
  {
    if i > 0 {
      LoopRole(batchSize, trace, i - 1);
      assert Next(batchSize, trace[i - 1], trace[i - 1 + 1]);
    }
  }

  /**
   * The backlog: below the batch size, plus what callers added who saw the threshold reached but have not swapped yet;
   * hence below the batch size whenever no Submit is in progress.
   */
  lemma BacklogBound<T(!new)>(batchSize: int, trace: seq<State<T>>, i: nat)
    requires Run(batchSize, trace) && i < |trace|
    ensures |trace[i].pending| <= Below(batchSize) + Credits(batchSize, trace[i].threads)
    ensures !Submitting(trace[i].threads) ==> |trace[i].pending| <= Below(batchSize)
    ensures !Submitting(trace[i].threads) && batchSize >= 1 ==> |trace[i].pending| < batchSize
  {
    RunKeepsInvariants(batchSize, trace, i);
    if !Submitting(trace[i].threads) {
      LoopRole(batchSize, trace, i);
      var threads := trace[i].threads;
      forall t | 0 <= t < |threads|
        ensures Credit(batchSize, threads[t]) == 0
      {
        assert t == 0 || threads[t].Idle?;
      }
      NoCredits(batchSize, threads);
    }
  }

  // ---------- Conservation ----------

  datatype Class = Flying | Relabelled | Delivered | LostMarshal | LostSend

  function Kept(kept: seq<bool>): nat {
    if kept == [] then 0 else (if kept[0] then 1 else 0) + Kept(kept[1..])
  }

  lemma {:induction false} KeptBound(kept: seq<bool>)
    ensures Kept(kept) <= |kept| && (true !in kept ==> Kept(kept) == 0)
  {
    if kept != [] {
      KeptBound(kept[1..]);
    }
  }

  /** How many of a batch's `n` items are in class `c`. */
  function InClass(n: nat, fate: Fate, c: Class): int {
    match fate
    case InFlight(_) => if c.Flying? then n else 0
    case Done(kept, result) =>
      match c
      case Flying => 0
      case Relabelled => n - Kept(kept)
      case Delivered => if result.Sent? then Kept(kept) else 0
      case LostMarshal => if result.MarshalError? then Kept(kept) else 0
      case LostSend => if result.SendError? then Kept(kept) else 0
  }

  function Total<T>(taken: seq<seq<T>>, fates: seq<Fate>, c: Class): int
    requires |taken| == |fates|
  {
    if taken == [] then 0
    else
      var n := |taken| - 1;
      Total(taken[..n], fates[..n], c) + InClass(|taken[n]|, fates[n], c)
  }

  lemma {:induction false} TakenIsAccountedFor<T>(taken: seq<seq<T>>, fates: seq<Fate>)
    requires |taken| == |fates|
    requires forall j :: 0 <= j < |fates| && fates[j].Done? ==>
               |fates[j].kept| == |taken[j]| && (fates[j].result.NothingKept? <==> true !in fates[j].kept)
    ensures |Flatten(taken)| ==
            Total(taken, fates, Flying) + Total(taken, fates, Relabelled) + Total(taken, fates, Delivered) +
            Total(taken, fates, LostMarshal) + Total(taken, fates, LostSend)
    ensures forall c :: Total(taken, fates, c) >= 0
    decreases |taken|
  {
    if taken != [] {
      var n := |taken| - 1;
      TakenIsAccountedFor(taken[..n], fates[..n]);
      if fates[n].Done? {
        KeptBound(fates[n].kept);
      }
    }
  }

  /**
   * Nothing is lost track of and nothing is taken twice: the batches in swap order, followed by `pending`, are exactly
   * the appended items in lock order; and every appended item is pending, in flight, dropped by relabelling, sent, or
   * lost to a marshal or send error.
   */
  lemma ItemsConserved<T(!new)>(batchSize: int, trace: seq<State<T>>, i: nat)
    requires Run(batchSize, trace) && i < |trace|
    ensures Flatten(trace[i].taken) + trace[i].pending == trace[i].log
    ensures |trace[i].taken| == |trace[i].fates|
    ensures var s := trace[i];
            |s.log| == |s.pending| + Total(s.taken, s.fates, Flying) + Total(s.taken, s.fates, Relabelled) +
                       Total(s.taken, s.fates, Delivered) + Total(s.taken, s.fates, LostMarshal) +
                       Total(s.taken, s.fates, LostSend)
    ensures forall c :: Total(trace[i].taken, trace[i].fates, c) >= 0
  {
    hide Total, Flatten;
    RunKeepsInvariants(batchSize, trace, i);
    TakenIsAccountedFor(trace[i].taken, trace[i].fates);
  }

  /** `s'` has what `s` knows of batch `j`: its items, and its outcome once there is one. */
  ghost predicate SameFate<T>(s: State<T>, s': State<T>, j: nat) {
    && j < |s.taken| == |s.fates| && j < |s'.taken| == |s'.fates|
    && s'.taken[j] == s.taken[j]
    && (s.fates[j].Done? ==> s'.fates[j] == s.fates[j])
  }

  lemma StepKeepsFate<T>(batchSize: int, s: State<T>, step: Step<T>, j: nat)
    requires Enabled(s, step) && Owned(s) && j < |s.taken|
    ensures SameFate(s, Do(batchSize, s, step), j)
  {
  }

  lemma NextKeepsFate<T(!new)>(batchSize: int, s: State<T>, s': State<T>, j: nat)
    requires Next(batchSize, s, s') && Ledger(s) && j < |s.taken|
    ensures SameFate(s, s', j)
  {
    hide Do, Enabled, Owned, Flatten, SameFate;
    var step :| Enabled(s, step) && s' == Do(batchSize, s, step);
    StepKeepsFate(batchSize, s, step, j);
  }

  lemma NextInRun<T(!new)>(batchSize: int, trace: seq<State<T>>, k: nat)
    requires Run(batchSize, trace) && 0 < k < |trace|
    ensures Next(batchSize, trace[k - 1], trace[k])
  {
    hide Next, Init;
    assert Next(batchSize, trace[k - 1], trace[k - 1 + 1]);
  }

  /** A batch once done keeps its fate, and one once taken keeps its items. */
  lemma {:induction false} FatesAreFinal<T(!new)>(batchSize: int, trace: seq<State<T>>, i: nat, k: nat, j: nat)
    requires Run(batchSize, trace) && i <= k < |trace| && j < |trace[i].taken| == |trace[i].fates|
    ensures j < |trace[k].taken| == |trace[k].fates| && trace[k].taken[j] == trace[i].taken[j]
    ensures trace[i].fates[j].Done? ==> trace[k].fates[j] == trace[i].fates[j]
    decreases k
  {
    hide Run, Next, Ledger, Backlog;
    if i < k {
      FatesAreFinal(batchSize, trace, i, k - 1, j);
      RunKeepsInvariants(batchSize, trace, k - 1);
      NextInRun(batchSize, trace, k);
      NextKeepsFate(batchSize, trace[k - 1], trace[k], j);
    }
  }
}
