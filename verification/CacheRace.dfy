/**
 * The disk cache under every interleaving of its writers and its replay loop (internal/cache/cache.go). Writers run
 * one at a time under the mutex; a replay pass lists the directory under it but reads and removes files without it.
 * File operations are single steps, removals work, and no two stored batches share a name.
 */
module CacheRace {
  import opened GoTypes
  import opened Order
  import opened Cache

  /** The byte limit, and which replay callbacks are set. */
  datatype Config = Config(limit: int, onMetrics: bool, onLogs: bool)

  /** The holder of the mutex, in `write` and `evictIfNeeded`; `Removing` is between the stat and the removal. */
  datatype Writer =
    | NoWriter
    | Summing(list: seq<bytes>, i: nat, total: int, name: bytes, file: File)
    | Evicting(rest: seq<bytes>, total: int, name: bytes, file: File)
    | Removing(rest: seq<bytes>, total: int, name: bytes, file: File)
    | Writing(name: bytes, file: File)

  datatype Reason = Replayed | Expired(cutoff: int) | Corrupt | Evicted

  /** A pass at the head of its loop, with a file read, or about to remove the file at hand. */
  datatype Replayer =
    | NoReplay
    | Scanning(rest: seq<bytes>, cutoff: int)
    | Loaded(rest: seq<bytes>, cutoff: int, file: File)
    | Finishing(rest: seq<bytes>, cutoff: int, reason: Reason)

  /** `born` (every file ever stored), `gone` (why a file left) and `replays` (with their pass's cutoff) are history. */
  datatype State = State(dir: Directory, writer: Writer, replayer: Replayer,
                         born: Directory, gone: map<bytes, Reason>, replays: seq<(bytes, int)>)

  datatype Step =
    | BeginWrite(name: bytes, file: File)
    | StatNext
    | EndSum
    | StatOldest
    | RemoveOldest
    | EndEvict
    | WriteFile
    | WriteFails(left: Option<File>)
    | BeginReplay(cutoff: int)
    | ReadFile
    | Decide
    | RemoveRead
    | EndReplay

  predicate Replayable(cfg: Config, b: Batch) {
    (if b.kind.Metrics? then cfg.onMetrics else cfg.onLogs) && b.items > 0
  }

  ghost predicate Init(s: State) {
    s.writer.NoWriter? && s.replayer.NoReplay? && s.born == s.dir && s.gone == map[] && s.replays == []
  }

  /** What a failed write leaves, if anything: part of the content, which may not decode, or all of it. */
  predicate LeftBehind(file: File, left: File) {
    left.size <= file.size && (left.batch.None? || left == file)
  }

  predicate Enabled(cfg: Config, s: State, step: Step) {
    match step
    case BeginWrite(name, _) => s.writer.NoWriter? && name !in s.born
    case StatNext => s.writer.Summing? && s.writer.i < |s.writer.list|
    case EndSum => s.writer.Summing? && s.writer.i >= |s.writer.list|
    case StatOldest => s.writer.Evicting? && s.writer.total > cfg.limit && s.writer.rest != []
    case RemoveOldest => s.writer.Removing? && s.writer.rest != []
    case EndEvict => s.writer.Evicting? && (s.writer.total <= cfg.limit || s.writer.rest == [])
    case WriteFile => s.writer.Writing?
    case WriteFails(left) => s.writer.Writing? && (left.Some? ==> LeftBehind(s.writer.file, left.value))
    case BeginReplay(_) => s.replayer.NoReplay? && s.writer.NoWriter?
    case ReadFile => s.replayer.Scanning? && s.replayer.rest != []
    case Decide => s.replayer.Loaded? && s.replayer.rest != []
    case RemoveRead => s.replayer.Finishing? && s.replayer.rest != []
    case EndReplay => s.replayer.Scanning?  // the list is done, or the pass timed out
  }

  /** os.Remove, noting why; a file already gone stays gone for its first reason. */
  function Remove(s: State, name: bytes, reason: Reason): State {
    if name in s.dir then s.(dir := s.dir - {name}, gone := s.gone[name := reason]) else s
  }

  /** A new file on disk. */
  function Appear(s: State, name: bytes, file: File): State {
    s.(dir := s.dir[name := file], born := s.born[name := file])
  }

  ghost function Do(cfg: Config, s: State, step: Step): State
    requires Enabled(cfg, s, step)
  {
    var w, r := s.writer, s.replayer;
    match step
    case BeginWrite(name, file) => s.(writer := Summing(Listing(s.dir.Keys), 0, 0, name, file))
    case StatNext => s.(writer := w.(i := w.i + 1, total := w.total + SizeOf(s.dir, w.list[w.i])))
    case EndSum => s.(writer := Evicting(w.list, w.total, w.name, w.file))
    case StatOldest => s.(writer := Removing(w.rest, w.total - SizeOf(s.dir, w.rest[0]), w.name, w.file))
    case RemoveOldest => Remove(s, w.rest[0], Evicted).(writer := Evicting(w.rest[1..], w.total, w.name, w.file))
    case EndEvict => s.(writer := Writing(w.name, w.file))
    case WriteFile => Appear(s, w.name, w.file).(writer := NoWriter)
    case WriteFails(left) => (if left.Some? then Appear(s, w.name, left.value) else s).(writer := NoWriter)
    case BeginReplay(cutoff) => s.(replayer := Scanning(Listing(s.dir.Keys), cutoff))
    case ReadFile =>
      if r.rest[0] in s.dir then s.(replayer := Loaded(r.rest, r.cutoff, s.dir[r.rest[0]]))
      else s.(replayer := Scanning(r.rest[1..], r.cutoff))
    case Decide =>
      if r.file.batch.None? then s.(replayer := Finishing(r.rest, r.cutoff, Corrupt))
      else if r.file.batch.value.createdAt < r.cutoff then
        s.(replayer := Finishing(r.rest, r.cutoff, Expired(r.cutoff)))
      else if Replayable(cfg, r.file.batch.value) then
        s.(replayer := Finishing(r.rest, r.cutoff, Replayed), replays := s.replays + [(r.rest[0], r.cutoff)])
      else s.(replayer := Scanning(r.rest[1..], r.cutoff))
    case RemoveRead => Remove(s, r.rest[0], r.reason).(replayer := Scanning(r.rest[1..], r.cutoff))
    case EndReplay => s.(replayer := NoReplay)
  }

  ghost predicate Next(cfg: Config, s: State, s': State) {
    exists step :: Enabled(cfg, s, step) && s' == Do(cfg, s, step)
  }

  ghost predicate Run(cfg: Config, trace: seq<State>) {
    && trace != [] && Init(trace[0])
    && forall i :: 0 <= i < |trace| - 1 ==> Next(cfg, trace[i], trace[i + 1])
  }

  // ---------- The ledger ----------

  ghost predicate WasReplayed(replays: seq<(bytes, int)>, name: bytes) {
    exists i :: 0 <= i < |replays| && replays[i].0 == name
  }

  /** A reason that is true of the stored file. */
  ghost predicate Justified(s: State, name: bytes, reason: Reason)
    requires name in s.born
  {
    var batch := s.born[name].batch;
    match reason
    case Replayed => WasReplayed(s.replays, name)
    case Expired(cutoff) => batch.Some? && batch.value.createdAt < cutoff
    case Corrupt => batch.None?
    case Evicted => true
  }

  /** Every stored file is on disk as stored, or has left for a reason. */
  ghost predicate DiskOk(s: State) {
    && s.born.Keys == s.dir.Keys + s.gone.Keys && s.dir.Keys !! s.gone.Keys
    && (forall n :: n in s.dir ==> s.dir[n] == s.born[n])
    && (forall n :: n in s.gone ==> Justified(s, n, s.gone[n]))
  }

  /** The file a pass has replayed and not removed yet. */
  ghost predicate AtHand(s: State, name: bytes) {
    s.replayer.Finishing? && s.replayer.reason.Replayed? && s.replayer.rest != [] && s.replayer.rest[0] == name
  }

  ghost predicate ReplaysOk(s: State) {
    && (forall i, j :: 0 <= i < j < |s.replays| ==> s.replays[i].0 != s.replays[j].0)
    && (forall i :: 0 <= i < |s.replays| ==>
          var (name, cutoff) := s.replays[i];
          && name in s.born && s.born[name].batch.Some? && s.born[name].batch.value.createdAt >= cutoff
          && (name in s.dir ==> AtHand(s, name)))
  }

  /** Stored names in order, none of them replayed. */
  ghost predicate Ahead(s: State, names: seq<bytes>) {
    Ascending(names) && forall n :: n in names ==> n in s.born && !WasReplayed(s.replays, n)
  }

  ghost predicate ScanOk(s: State) {
    match s.replayer
    case NoReplay => true
    case Scanning(rest, _) => Ahead(s, rest)
    case Loaded(rest, _, file) => Ahead(s, rest) && rest != [] && rest[0] in s.born && file == s.born[rest[0]]
    case Finishing(rest, _, reason) =>
      && rest != [] && rest[0] in s.born && Justified(s, rest[0], reason)
      && Ahead(s, rest[1..]) && rest[0] !in rest[1..]
      && (!reason.Replayed? ==> !WasReplayed(s.replays, rest[0]))
  }

  ghost predicate LedgerOk(s: State) {
    DiskOk(s) && ReplaysOk(s) && ScanOk(s)
  }

  // ---------- The size ----------

  ghost predicate Covers(names: seq<bytes>, dir: Directory) {
    Ascending(names) && forall n :: n in dir ==> n in names
  }

  /** The running total never falls below the true size of the files it stands for. */
  ghost predicate SizeOk(cfg: Config, s: State) {
    match s.writer
    case NoWriter => true
    case Summing(list, i, total, name, _) =>
      name !in s.born && Covers(list, s.dir) && i <= |list| && total >= TotalOf(s.dir, list[..i])
    case Evicting(rest, total, name, _) => name !in s.born && Covers(rest, s.dir) && total >= TotalOf(s.dir, rest)
    case Removing(rest, total, name, _) =>
      name !in s.born && rest != [] && Covers(rest, s.dir) && total >= TotalOf(s.dir, rest[1..])
    case Writing(name, _) => name !in s.born && DirBytes(s.dir) <= AtLeastZero(cfg.limit)
  }

  ghost predicate Inv(cfg: Config, s: State) {
    LedgerOk(s) && SizeOk(cfg, s)
  }

  lemma {:induction false} TotalAppend(dir: Directory, names: seq<bytes>, name: bytes)
    ensures TotalOf(dir, names + [name]) == TotalOf(dir, names) + SizeOf(dir, name)
  {
    if names == [] {
      assert names + [name] == [name] && [name][1..] == [];
    } else {
      assert (names + [name])[1..] == names[1..] + [name];
      TotalAppend(dir, names[1..], name);
    }
  }

  /** Removals by anybody keep the size invariant. */
  lemma RemovalKeepsSize(cfg: Config, s: State, s': State)
    requires SizeOk(cfg, s) && s'.writer == s.writer && s'.born == s.born
    requires forall n :: n in s'.dir ==> n in s.dir && s'.dir[n] == s.dir[n]
    ensures SizeOk(cfg, s')
  {
    hide TotalOf, DirBytes;
    match s.writer {
      case NoWriter =>
      case Summing(list, i, _, _, _) => TotalShrinks(s.dir, s'.dir, list[..i]);
      case Evicting(rest, _, _, _) => TotalShrinks(s.dir, s'.dir, rest);
      case Removing(rest, _, _, _) => TotalShrinks(s.dir, s'.dir, rest[1..]);
      case Writing(_, _) => RemovalShrinks(s.dir, s'.dir);
    }
  }

  lemma EvictionRoundKeepsSize(cfg: Config, s: State)
    requires SizeOk(cfg, s) && Enabled(cfg, s, RemoveOldest)
    ensures SizeOk(cfg, Do(cfg, s, RemoveOldest))
  {
    hide TotalOf;
    var rest, s' := s.writer.rest, Do(cfg, s, RemoveOldest);
    TotalShrinks(s.dir, s'.dir, rest[1..]);
    forall i, j | 0 <= i < j < |rest| - 1
      ensures Less(rest[1..][i], rest[1..][j])
    {
      assert rest[1..][i] == rest[i + 1] && rest[1..][j] == rest[j + 1];
    }
    forall n | n in s'.dir
      ensures n in rest[1..]
    {
      assert n in s.dir && n in rest && n != rest[0];
      assert rest == [rest[0]] + rest[1..];
    }
  }

  lemma WriterKeepsSize(cfg: Config, s: State, step: Step)
    requires SizeOk(cfg, s) && Enabled(cfg, s, step)
    requires step.BeginWrite? || step.StatNext? || step.EndSum? || step.StatOldest? || step.EndEvict?
    ensures SizeOk(cfg, Do(cfg, s, step))
  {
    hide DirBytes, Ascending, Less;
    var w := s.writer;
    match step {
      case BeginWrite(_, _) =>
        ListingCovers(s.dir);
        assert Listing(s.dir.Keys)[..0] == [];
      case StatNext =>
        TotalAppend(s.dir, w.list[..w.i], w.list[w.i]);
        assert w.list[..w.i + 1] == w.list[..w.i] + [w.list[w.i]];
      case EndSum =>
        assert w.list[..w.i] == w.list;
      case EndEvict => CoveringTotalOf(s.dir, w.rest);
      case _ =>
    }
  }

  lemma ListingCovers(dir: Directory)
    ensures Covers(Listing(dir.Keys), dir)
  {
  }

  lemma CoveringTotalOf(dir: Directory, names: seq<bytes>)
    requires Covers(names, dir)
    ensures TotalOf(dir, names) == DirBytes(dir)
  {
    CoveringTotal(dir, names);
  }

  // ---------- Steps and the ledger ----------

  /** A removal keeps the ledger as long as the file at hand of a pass stays accounted for. */
  lemma RemoveKeepsLedger(s: State, name: bytes, reason: Reason)
    requires LedgerOk(s) && (name in s.dir ==> Justified(s, name, reason))
    ensures LedgerOk(Remove(s, name, reason))
  {
    hide Ascending, WasReplayed;
    var s' := Remove(s, name, reason);
  }

  lemma AppearKeepsLedger(s: State, name: bytes, file: File)
    requires LedgerOk(s) && name !in s.born
    ensures LedgerOk(Appear(s, name, file))
  {
    hide DiskOk, ReplaysOk, ScanOk, Appear;
    AppearKeepsDisk(s, name, file);
    AppearKeepsReplays(s, name, file);
  }

  lemma AppearKeepsDisk(s: State, name: bytes, file: File)
    requires DiskOk(s) && name !in s.born
    ensures DiskOk(Appear(s, name, file))
  {
    hide WasReplayed;
  }

  lemma AppearKeepsReplays(s: State, name: bytes, file: File)
    requires ReplaysOk(s) && ScanOk(s) && name !in s.born
    ensures ReplaysOk(Appear(s, name, file)) && ScanOk(Appear(s, name, file))
  {
    hide Ascending, WasReplayed;
  }

  lemma WriteKeepsLedger(cfg: Config, s: State, step: Step)
    requires LedgerOk(s) && SizeOk(cfg, s) && Enabled(cfg, s, step) && (step.WriteFile? || step.WriteFails?)
    ensures LedgerOk(Do(cfg, s, step))
  {
    hide LedgerOk, DirBytes;
    var s' := Do(cfg, s, step);
    if step.WriteFile? || step.left.Some? {
      var file := if step.WriteFile? then s.writer.file else step.left.value;
      AppearKeepsLedger(s, s.writer.name, file);
      QuietStepKeepsLedger(Appear(s, s.writer.name, file), s');
    } else {
      QuietStepKeepsLedger(s, s');
    }
  }

  lemma BeginReplayKeepsLedger(cfg: Config, s: State, cutoff: int)
    requires LedgerOk(s) && Enabled(cfg, s, BeginReplay(cutoff))
    ensures LedgerOk(Do(cfg, s, BeginReplay(cutoff)))
  {
    hide Less;
    var s' := Do(cfg, s, BeginReplay(cutoff));
  }

  lemma TailAhead(s: State, names: seq<bytes>)
    requires Ahead(s, names) && names != []
    ensures Ahead(s, names[1..]) && names[0] !in names[1..] && names[0] in s.born && !WasReplayed(s.replays, names[0])
  {
    hide WasReplayed;
    assert names[0] in names;
    forall i, j | 0 <= i < j < |names| - 1
      ensures Less(names[1..][i], names[1..][j])
    {
      assert names[1..][i] == names[i + 1] && names[1..][j] == names[j + 1];
    }
    if names[0] in names[1..] {
      Behind(names, names[0]);
      LessIrreflexive(names[0]);
    }
  }

  lemma ReadKeepsLedger(cfg: Config, s: State)
    requires LedgerOk(s) && Enabled(cfg, s, ReadFile)
    ensures LedgerOk(Do(cfg, s, ReadFile))
  {
    hide Ascending;
    TailAhead(s, s.replayer.rest);
    var s' := Do(cfg, s, ReadFile);
  }

  lemma CallbackKeepsLedger(s: State, s': State)
    requires LedgerOk(s) && s.replayer.Loaded? && s.replayer.rest != []
    requires var r := s.replayer;
             && r.file.batch.Some? && r.file.batch.value.createdAt >= r.cutoff
             && s' == s.(replayer := Finishing(r.rest, r.cutoff, Replayed),
                         replays := s.replays + [(r.rest[0], r.cutoff)])
    ensures LedgerOk(s')
  {
    hide Ascending;
    var name := s.replayer.rest[0];
    TailAhead(s, s.replayer.rest);
    forall n
      ensures WasReplayed(s'.replays, n) <==> WasReplayed(s.replays, n) || n == name
    {
      assert s'.replays[|s.replays|].0 == name;
      if i :| 0 <= i < |s.replays| && s.replays[i].0 == n {
        assert s'.replays[i].0 == n;
      }
    }
  }

  lemma DecideKeepsLedger(cfg: Config, s: State)
    requires LedgerOk(s) && Enabled(cfg, s, Decide)
    ensures LedgerOk(Do(cfg, s, Decide))
  {
    hide Ascending, WasReplayed;
    var r, s' := s.replayer, Do(cfg, s, Decide);
    if s'.replays != s.replays {
      CallbackKeepsLedger(s, s');
    } else {
      TailAhead(s, r.rest);
    }
  }

  lemma RemoveReadKeepsLedger(cfg: Config, s: State)
    requires LedgerOk(s) && Enabled(cfg, s, RemoveRead)
    ensures LedgerOk(Do(cfg, s, RemoveRead))
  {
    hide Ascending, WasReplayed;
    var r := s.replayer;
    RemoveKeepsLedger(s, r.rest[0], r.reason);
    var s1, s' := Remove(s, r.rest[0], r.reason), Do(cfg, s, RemoveRead);
  }

  /** Steps of the writer that touch no file, and the end of a pass. */
  lemma QuietStepKeepsLedger(s: State, s': State)
    requires LedgerOk(s) && s' == s.(writer := s'.writer, replayer := s'.replayer)
    requires s'.replayer == s.replayer || (s'.replayer.NoReplay? && s.replayer.Scanning?)
    ensures LedgerOk(s')
  {
    hide Ascending;
  }

  lemma WriterStepKeepsInv(cfg: Config, s: State, step: Step)
    requires Inv(cfg, s) && Enabled(cfg, s, step)
    requires step.BeginWrite? || step.StatNext? || step.EndSum? || step.StatOldest? || step.EndEvict?
    ensures Inv(cfg, Do(cfg, s, step))
  {
    hide LedgerOk, SizeOk, Listing, SizeOf;
    QuietStepKeepsLedger(s, Do(cfg, s, step));
    WriterKeepsSize(cfg, s, step);
  }

  lemma StepKeepsInv(cfg: Config, s: State, step: Step)
    requires Inv(cfg, s) && Enabled(cfg, s, step)
    ensures Inv(cfg, Do(cfg, s, step))
  {
    hide LedgerOk, SizeOk;
    var s' := Do(cfg, s, step);
    match step {
      case RemoveOldest =>
        EvictionRoundKeepsSize(cfg, s);
        EvictionKeepsLedger(cfg, s);
      case WriteFile =>
        WriteKeepsLedger(cfg, s, step);
        NoWriterSizeOk(cfg, s');
      case WriteFails(_) =>
        WriteKeepsLedger(cfg, s, step);
        NoWriterSizeOk(cfg, s');
      case BeginReplay(cutoff) =>
        BeginReplayKeepsLedger(cfg, s, cutoff);
        RemovalKeepsSize(cfg, s, s');
      case ReadFile =>
        ReadKeepsLedger(cfg, s);
        RemovalKeepsSize(cfg, s, s');
      case Decide =>
        DecideKeepsLedger(cfg, s);
        RemovalKeepsSize(cfg, s, s');
      case RemoveRead =>
        RemoveReadKeepsLedger(cfg, s);
        RemovalKeepsSize(cfg, s, s');
      case EndReplay =>
        QuietStepKeepsLedger(s, s');
        RemovalKeepsSize(cfg, s, s');
      case _ =>
        WriterStepKeepsInv(cfg, s, step);
    }
  }

  lemma EvictionKeepsLedger(cfg: Config, s: State)
    requires LedgerOk(s) && Enabled(cfg, s, RemoveOldest)
    ensures LedgerOk(Do(cfg, s, RemoveOldest))
  {
    hide LedgerOk;
    EvictedIsJustified(s, s.writer.rest[0]);
    RemoveKeepsLedger(s, s.writer.rest[0], Evicted);
    QuietStepKeepsLedger(Remove(s, s.writer.rest[0], Evicted), Do(cfg, s, RemoveOldest));
  }

  lemma EvictedIsJustified(s: State, name: bytes)
    requires LedgerOk(s)
    ensures name in s.dir ==> name in s.born && Justified(s, name, Evicted)
  {
  }

  lemma NoWriterSizeOk(cfg: Config, s: State)
    requires s.writer.NoWriter?
    ensures SizeOk(cfg, s)
  {
  }

  lemma InitHasInv(cfg: Config, s: State)
    requires Init(s)
    ensures Inv(cfg, s)
  {
  }

  lemma {:induction false} RunKeepsInv(cfg: Config, trace: seq<State>, i: nat)
    requires Run(cfg, trace) && i < |trace|
    ensures Inv(cfg, trace[i])
  {
    hide Inv, Do, Enabled, Init;
    if i == 0 {
      InitHasInv(cfg, trace[0]);
    } else {
      RunKeepsInv(cfg, trace, i - 1);
      assert Next(cfg, trace[i - 1], trace[i - 1 + 1]);
      var step :| Enabled(cfg, trace[i - 1], step) && trace[i] == Do(cfg, trace[i - 1], step);
      StepKeepsInv(cfg, trace[i - 1], step);
    }
  }

  // ---------- What holds in every reachable state ----------

  /** A stored batch is replayed at most once, over all passes, and never when older than the pass's cutoff. */
  lemma ReplayedAtMostOnce(cfg: Config, trace: seq<State>, i: nat)
    requires Run(cfg, trace) && i < |trace|
    ensures var s := trace[i];
            && (forall j, k :: 0 <= j < k < |s.replays| ==> s.replays[j].0 != s.replays[k].0)
            && (forall j :: 0 <= j < |s.replays| ==>
                  var (name, cutoff) := s.replays[j];
                  name in s.born && s.born[name].batch.Some? && s.born[name].batch.value.createdAt >= cutoff)
  {
    RunKeepsInv(cfg, trace, i);
  }

  /** A stored file is on disk unchanged, or has left by replay, expiry, corruption or eviction, never otherwise. */
  lemma EveryFileAccountedFor(cfg: Config, trace: seq<State>, i: nat, name: bytes)
    requires Run(cfg, trace) && i < |trace| && name in trace[i].born
    ensures var s := trace[i];
            if name in s.dir then name !in s.gone && s.dir[name] == s.born[name]
            else name in s.gone && Justified(s, name, s.gone[name])
  {
    RunKeepsInv(cfg, trace, i);
  }

  /**
   * Whatever a concurrent pass removes meanwhile, a write, even a failing one that leaves a part of the file, leaves at
   * most the limit plus its own file on disk; no other step grows the directory.
   */
  lemma SizeAfterStep(cfg: Config, trace: seq<State>, i: nat, step: Step)
    requires Run(cfg, trace) && i < |trace| && Enabled(cfg, trace[i], step)
    ensures step.WriteFile? || step.WriteFails? ==>
              DirBytes(Do(cfg, trace[i], step).dir) <= AtLeastZero(cfg.limit) + trace[i].writer.file.size
    ensures !step.WriteFile? && !step.WriteFails? ==> DirBytes(Do(cfg, trace[i], step).dir) <= DirBytes(trace[i].dir)
  {
    hide DirBytes, LedgerOk;
    RunKeepsInv(cfg, trace, i);
    var s, s' := trace[i], Do(cfg, trace[i], step);
    BornCoversDisk(s);
    if step.WriteFile? {
      NewFileAdds(s.dir, s.writer.name, s.writer.file);
    } else if step.WriteFails? && step.left.Some? {
      NewFileAdds(s.dir, s.writer.name, step.left.value);
    } else {
      RemovalShrinks(s.dir, s'.dir);
    }
  }

  lemma BornCoversDisk(s: State)
    requires LedgerOk(s)
    ensures s.dir.Keys <= s.born.Keys
  {
  }

  // ---------- Which files a pass replays ----------

  /** A batch with items whose kind has a callback. */
  predicate Wanted(cfg: Config, batch: Option<Batch>) {
    && batch.Some? && batch.value.items > 0
    && match batch.value.kind
       case Metrics => cfg.onMetrics
       case Logs => cfg.onLogs
  }

  ghost predicate OnlyWanted(cfg: Config, s: State) {
    forall r :: r in s.replays ==> r.0 in s.born && Wanted(cfg, s.born[r.0].batch)
  }

  lemma StepReplaysWanted(cfg: Config, s: State, step: Step)
    requires LedgerOk(s) && Enabled(cfg, s, step) && OnlyWanted(cfg, s) && SizeOk(cfg, s)
    ensures OnlyWanted(cfg, Do(cfg, s, step))
  {
    hide Ascending, DirBytes, TotalOf, WasReplayed, ReplaysOk, DiskOk;
  }

  /** Whatever runs, a callback gets only batches that are not empty and of a kind that has one. */
  lemma {:induction false} ReplaysAreWanted(cfg: Config, trace: seq<State>, i: nat)
    requires Run(cfg, trace) && i < |trace|
    ensures OnlyWanted(cfg, trace[i])
  {
    hide LedgerOk, SizeOk, OnlyWanted, Do, Enabled, Init, Next;
    if i == 0 {
      NoReplaysYet(cfg, trace[0]);
    } else {
      ReplaysAreWanted(cfg, trace, i - 1);
      RunKeepsInv(cfg, trace, i - 1);
      var step := StepTaken(cfg, trace, i);
      StepReplaysWanted(cfg, trace[i - 1], step);
    }
  }

  lemma NoReplaysYet(cfg: Config, s: State)
    requires Init(s)
    ensures OnlyWanted(cfg, s)
  {
  }

  lemma StepTaken(cfg: Config, trace: seq<State>, i: nat) returns (step: Step)
    requires Run(cfg, trace) && 0 < i < |trace|
    ensures Enabled(cfg, trace[i - 1], step) && trace[i] == Do(cfg, trace[i - 1], step)
  {
    hide Do, Enabled, Init;
    assert Next(cfg, trace[i - 1], trace[i - 1 + 1]);
    step :| Enabled(cfg, trace[i - 1], step) && trace[i] == Do(cfg, trace[i - 1], step);
  }

  /** What a pass owes a listed file: a replay, unless it is unwanted or too old, or was evicted before its turn. */
  ghost predicate Served(cfg: Config, s: State, name: bytes, cutoff: int)
    requires name in s.born
  {
    var batch := s.born[name].batch;
    || (name, cutoff) in s.replays
    || !Wanted(cfg, batch) || batch.value.createdAt < cutoff
    || (name in s.gone && s.gone[name].Evicted?)
  }

  /** A file that does not decode, is too old, or was to be replayed, is off the disk. */
  ghost predicate Swept(cfg: Config, s: State, name: bytes, cutoff: int)
    requires name in s.born
  {
    var batch := s.born[name].batch;
    batch.None? || batch.value.createdAt < cutoff || Wanted(cfg, batch) ==> name in s.gone
  }

  /**
   * A pass over `list` has come to its last |rest| names: those before are served, the one being finished is too, and
   * those that are left can only have been evicted.
   */
  ghost predicate Passing(cfg: Config, s: State, list: seq<bytes>, cutoff: int) {
    && !s.replayer.NoReplay? && s.replayer.cutoff == cutoff && |s.replayer.rest| <= |list|
    && var done := |list| - |s.replayer.rest|;
    && s.replayer.rest == list[done..]
    && (forall i :: 0 <= i < |list| ==> list[i] in s.born)
    && (forall i :: 0 <= i < done ==> Served(cfg, s, list[i], cutoff) && Swept(cfg, s, list[i], cutoff))
    && (s.replayer.Finishing? && done < |list| ==> Served(cfg, s, list[done], cutoff))
    && (forall i :: done <= i < |list| && list[i] in s.gone ==> s.gone[list[i]].Evicted?)
  }

  /** History only grows. */
  ghost predicate Later(s: State, s': State) {
    && (forall n :: n in s.born ==> n in s'.born && s'.born[n] == s.born[n])
    && (forall n :: n in s.gone ==> n in s'.gone && s'.gone[n] == s.gone[n])
    && (forall r :: r in s.replays ==> r in s'.replays)
  }

  lemma StepIsLater(cfg: Config, s: State, step: Step)
    requires LedgerOk(s) && SizeOk(cfg, s) && Enabled(cfg, s, step)
    ensures Later(s, Do(cfg, s, step))
  {
    hide LedgerOk, SizeOk, SizeOf, Listing, Replayable, Remove, Appear, DirBytes;
    var w, r := s.writer, s.replayer;
    match step {
      case RemoveOldest => RemovedIsLater(s, w.rest[0], Evicted);
      case RemoveRead => RemovedIsLater(s, r.rest[0], r.reason);
      case WriteFile => AppearedIsLater(cfg, s, w.file);
      case WriteFails(left) =>
        if left.Some? {
          AppearedIsLater(cfg, s, left.value);
        }
      case _ =>
    }
  }

  lemma RemovedIsLater(s: State, name: bytes, reason: Reason)
    requires LedgerOk(s)
    ensures Later(s, Remove(s, name, reason))
  {
    hide ReplaysOk, ScanOk, Justified;
  }

  lemma AppearedIsLater(cfg: Config, s: State, file: File)
    requires SizeOk(cfg, s) && s.writer.Writing?
    ensures Later(s, Appear(s, s.writer.name, file))
  {
    hide DirBytes;
  }

  lemma StepKeepsServed(cfg: Config, s: State, step: Step, name: bytes, cutoff: int)
    requires LedgerOk(s) && SizeOk(cfg, s) && Enabled(cfg, s, step) && name in s.born
    ensures name in Do(cfg, s, step).born
    ensures Served(cfg, s, name, cutoff) ==> Served(cfg, Do(cfg, s, step), name, cutoff)
    ensures Swept(cfg, s, name, cutoff) ==> Swept(cfg, Do(cfg, s, step), name, cutoff)
  {
    hide LedgerOk, SizeOk, Enabled, Do, Wanted;
    StepIsLater(cfg, s, step);
  }

  /** Nothing listed gets lost, and nothing served is owed again. */
  ghost predicate KeepsServed(cfg: Config, s: State, s': State, list: seq<bytes>, cutoff: int) {
    forall n :: n in list && n in s.born ==>
                  && n in s'.born && (Served(cfg, s, n, cutoff) ==> Served(cfg, s', n, cutoff))
                  && (Swept(cfg, s, n, cutoff) ==> Swept(cfg, s', n, cutoff))
  }

  lemma StepKeepsAllServed(cfg: Config, s: State, step: Step, list: seq<bytes>, cutoff: int)
    requires Inv(cfg, s) && Enabled(cfg, s, step)
    ensures KeepsServed(cfg, s, Do(cfg, s, step), list, cutoff)
  {
    hide LedgerOk, SizeOk, Do, Enabled, Served, Swept;
    forall n | n in list && n in s.born
      ensures n in Do(cfg, s, step).born
      ensures Served(cfg, s, n, cutoff) ==> Served(cfg, Do(cfg, s, step), n, cutoff)
      ensures Swept(cfg, s, n, cutoff) ==> Swept(cfg, Do(cfg, s, step), n, cutoff)
    {
      StepKeepsServed(cfg, s, step, n, cutoff);
    }
  }

  /** The pass goes on to the next name. */
  lemma Advances(cfg: Config, s: State, s': State, list: seq<bytes>, cutoff: int)
    requires Passing(cfg, s, list, cutoff) && KeepsServed(cfg, s, s', list, cutoff) && s.replayer.rest != []
    requires s'.replayer == Scanning(s.replayer.rest[1..], cutoff)
    requires s.replayer.rest[0] in s'.born && Served(cfg, s', s.replayer.rest[0], cutoff)
    requires Swept(cfg, s', s.replayer.rest[0], cutoff)
    requires forall n :: n in s.replayer.rest[1..] && n in s'.gone ==> s'.gone[n].Evicted?
    ensures Passing(cfg, s', list, cutoff)
  {
    hide Served, Swept;
    var done := |list| - |s.replayer.rest|;
    assert list[done..][0] == list[done] && list[done..][1..] == list[done + 1..];
    forall i | done < i < |list| && list[i] in s'.gone
      ensures s'.gone[list[i]].Evicted?
    {
      assert list[i] == s.replayer.rest[1..][i - done - 1];
    }
  }

  /** The pass stays at its name. */
  lemma Stays(cfg: Config, s: State, s': State, list: seq<bytes>, cutoff: int)
    requires Passing(cfg, s, list, cutoff) && KeepsServed(cfg, s, s', list, cutoff) && s.replayer.rest != []
    requires !s'.replayer.NoReplay? && s'.replayer.rest == s.replayer.rest && s'.replayer.cutoff == cutoff
    requires s'.replayer.Finishing? ==> s.replayer.rest[0] in s'.born && Served(cfg, s', s.replayer.rest[0], cutoff)
    requires s'.gone == s.gone
    ensures Passing(cfg, s', list, cutoff)
  {
    hide Served, Swept;
    var done := |list| - |s.replayer.rest|;
    assert list[done..][0] == list[done];
  }

  /** The name at hand and those behind it, as the pass and the ledger know them. */
  lemma AtItsName(cfg: Config, s: State, list: seq<bytes>, cutoff: int)
    requires Passing(cfg, s, list, cutoff) && s.replayer.rest != []
    ensures s.replayer.cutoff == cutoff && s.replayer.rest[0] in list && s.replayer.rest[0] in s.born
    ensures s.replayer.Finishing? ==> Served(cfg, s, s.replayer.rest[0], cutoff)
    ensures forall n :: n in s.replayer.rest ==> n in list && (n in s.gone ==> s.gone[n].Evicted?)
  {
    hide Served, Swept;
    var done := |list| - |s.replayer.rest|;
    assert list[done..][0] == list[done];
    forall n | n in s.replayer.rest
      ensures n in list && (n in s.gone ==> s.gone[n].Evicted?)
    {
      var i :| 0 <= i < |s.replayer.rest| && s.replayer.rest[i] == n;
      assert list[done + i] == n;
    }
  }

  lemma ReadFileKeepsPassing(cfg: Config, s: State, list: seq<bytes>, cutoff: int)
    requires Inv(cfg, s) && Enabled(cfg, s, ReadFile) && Passing(cfg, s, list, cutoff)
    ensures Passing(cfg, Do(cfg, s, ReadFile), list, cutoff)
  {
    hide Ascending, WasReplayed, Passing, KeepsServed, ReplaysOk, ScanOk, SizeOk, Justified;
    var s' := Do(cfg, s, ReadFile);
    StepKeepsAllServed(cfg, s, ReadFile, list, cutoff);
    AtItsName(cfg, s, list, cutoff);
    if s.replayer.rest[0] in s.dir {
      Stays(cfg, s, s', list, cutoff);
    } else {
      Advances(cfg, s, s', list, cutoff);
    }
  }

  lemma DecideKeepsPassing(cfg: Config, s: State, list: seq<bytes>, cutoff: int)
    requires Inv(cfg, s) && Enabled(cfg, s, Decide) && Passing(cfg, s, list, cutoff)
    ensures Passing(cfg, Do(cfg, s, Decide), list, cutoff)
  {
    hide Ascending, WasReplayed, Passing, KeepsServed, ReplaysOk, DiskOk, SizeOk, Ahead;
    var s' := Do(cfg, s, Decide);
    StepKeepsAllServed(cfg, s, Decide, list, cutoff);
    AtItsName(cfg, s, list, cutoff);
    assert s.replayer.file == s.born[s.replayer.rest[0]];
    if s'.replayer.Finishing? {
      Stays(cfg, s, s', list, cutoff);
    } else {
      Advances(cfg, s, s', list, cutoff);
    }
  }

  lemma RemoveReadKeepsPassing(cfg: Config, s: State, list: seq<bytes>, cutoff: int)
    requires Inv(cfg, s) && Enabled(cfg, s, RemoveRead) && Passing(cfg, s, list, cutoff)
    ensures Passing(cfg, Do(cfg, s, RemoveRead), list, cutoff)
  {
    hide Ascending, WasReplayed, Passing, Served, ReplaysOk, SizeOk, Ahead, Justified, Wanted;
    var s' := Do(cfg, s, RemoveRead);
    StepKeepsAllServed(cfg, s, RemoveRead, list, cutoff);
    AtItsName(cfg, s, list, cutoff);
    Advances(cfg, s, s', list, cutoff);
  }

  /** A step of a writer. */
  lemma OtherStepKeepsPassing(cfg: Config, s: State, step: Step, list: seq<bytes>, cutoff: int)
    requires Inv(cfg, s) && Enabled(cfg, s, step) && Passing(cfg, s, list, cutoff)
    requires !step.ReadFile? && !step.Decide? && !step.RemoveRead? && !step.EndReplay?
    ensures Passing(cfg, Do(cfg, s, step), list, cutoff)
  {
    hide Ascending, DirBytes, TotalOf, WasReplayed, Served, Swept, ReplaysOk, ScanOk;
    StepKeepsAllServed(cfg, s, step, list, cutoff);
  }

  lemma {:induction false} PassGoesOn(cfg: Config, trace: seq<State>, i: nat, k: nat)
    requires Run(cfg, trace) && 0 < i <= k < |trace| && trace[i - 1].replayer.NoReplay?
    requires forall j :: i <= j <= k ==> !trace[j].replayer.NoReplay?
    ensures trace[i].replayer.Scanning?
    ensures Passing(cfg, trace[k], trace[i].replayer.rest, trace[i].replayer.cutoff)
    decreases k
  {
    hide Inv, Passing, Do, Enabled;
    RunKeepsInv(cfg, trace, k - 1);
    var step := StepTaken(cfg, trace, k);
    if i == k {
      PassBegins(cfg, trace[i - 1], step);
    } else {
      PassGoesOn(cfg, trace, i, k - 1);
      PassContinues(cfg, trace[k - 1], step, trace[i].replayer.rest, trace[i].replayer.cutoff);
    }
  }

  lemma PassBegins(cfg: Config, s: State, step: Step)
    requires Inv(cfg, s) && Enabled(cfg, s, step) && s.replayer.NoReplay? && !Do(cfg, s, step).replayer.NoReplay?
    ensures var s' := Do(cfg, s, step);
            && s'.replayer.Scanning? && Passing(cfg, s', s'.replayer.rest, s'.replayer.cutoff)
            && (forall n :: n in s'.dir <==> n in s'.replayer.rest)
  {
    hide LedgerOk, SizeOk, Passing, Served, Swept, IsListing;
    assert step.BeginReplay?;
    ListingMembers(s.dir);
    PassListed(cfg, s, step.cutoff, Listing(s.dir.Keys));
  }

  lemma ListingMembers(dir: Directory)
    ensures forall n :: n in dir <==> n in Listing(dir.Keys)
  {
  }

  lemma PassListed(cfg: Config, s: State, cutoff: int, list: seq<bytes>)
    requires LedgerOk(s) && forall n :: n in s.dir <==> n in list
    ensures Passing(cfg, s.(replayer := Scanning(list, cutoff)), list, cutoff)
  {
    hide Ascending, ReplaysOk, ScanOk, Justified, Served, Swept;
    forall i | 0 <= i < |list|
      ensures list[i] in s.dir
    {
      assert list[i] in list;
    }
  }

  lemma PassContinues(cfg: Config, s: State, step: Step, list: seq<bytes>, cutoff: int)
    requires Inv(cfg, s) && Enabled(cfg, s, step) && Passing(cfg, s, list, cutoff)
    requires !Do(cfg, s, step).replayer.NoReplay?
    ensures Passing(cfg, Do(cfg, s, step), list, cutoff)
  {
    assert !step.EndReplay?;
    hide Inv, Passing, Do, Enabled;
    match step {
      case ReadFile => ReadFileKeepsPassing(cfg, s, list, cutoff);
      case Decide => DecideKeepsPassing(cfg, s, list, cutoff);
      case RemoveRead => RemoveReadKeepsPassing(cfg, s, list, cutoff);
      case _ => OtherStepKeepsPassing(cfg, s, step, list, cutoff);
    }
  }

  lemma GoneIsOffDisk(s: State, name: bytes, cfg: Config)
    requires Inv(cfg, s)
    ensures name in s.gone ==> name !in s.dir
  {
  }

  /**
   * A pass that begins at `i` and has come to the end of its list at `k` has replayed every file that was on disk when
   * it began, but for those without a wanted batch, those older than its cutoff, and those evicted before their turn.
   * Of these files, those replayed, too old or not decodable are off the disk.
   */
  lemma PassServesAll(cfg: Config, trace: seq<State>, i: nat, k: nat, name: bytes)
    requires Run(cfg, trace) && 0 < i <= k < |trace| && trace[i - 1].replayer.NoReplay?
    requires forall j :: i <= j <= k ==> !trace[j].replayer.NoReplay?
    requires trace[k].replayer.Scanning? && trace[k].replayer.rest == [] && name in trace[i].dir
    ensures trace[i].replayer.Scanning? && name in trace[k].born
    ensures var cutoff, batch := trace[i].replayer.cutoff, trace[k].born[name].batch;
            || (name, cutoff) in trace[k].replays
            || !Wanted(cfg, batch) || batch.value.createdAt < cutoff
            || (name in trace[k].gone && trace[k].gone[name].Evicted?)
    ensures var cutoff, batch := trace[i].replayer.cutoff, trace[k].born[name].batch;
            batch.None? || batch.value.createdAt < cutoff || Wanted(cfg, batch) ==> name !in trace[k].dir
  {
    hide Inv, Do, Enabled, Wanted;
    RunKeepsInv(cfg, trace, k);
    GoneIsOffDisk(trace[k], name, cfg);
    PassGoesOn(cfg, trace, i, k);
    RunKeepsInv(cfg, trace, i - 1);
    var step := StepTaken(cfg, trace, i);
    PassBegins(cfg, trace[i - 1], step);
    var list := trace[i].replayer.rest;
    var j :| 0 <= j < |list| && list[j] == name;
  }
}
