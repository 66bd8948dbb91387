/** Crash-safe durability: a step machine over the log file, the snapshot file and its
    temporary, refining the list of mutations that took effect.
    The engine that drives these files keeps the contract its documentation states: log before
    apply, snapshot before truncate, skip records at or below the snapshot sequence, and no mutation
    during a checkpoint. Torn bytes are removed before the first append after a recovery
    (Replay.AppendAfterTail shows that this is needed). */
module Durability {
  import opened Values
  import opened Replay
  import opened Snapshot
  import opened Wal

  /** The record format, the snapshot format and the effect of a mutation. */
  datatype Engine = Engine(
    log: Codec,
    encode: (int, Collections) -> string,
    decode: string -> Option<(int, Collections)>,
    apply: (Collections, Entry) -> Collections
  )

  ghost predicate Faithful(g: Engine) {
    ReadsBack(g.log) && forall n: int, state: Collections :: g.decode(g.encode(n, state)) == Some((n, state))
  }

  // ---------- mutations ----------

  function Fold(g: Engine, state: Collections, es: seq<Entry>): Collections {
    if es == [] then state else g.apply(Fold(g, state, es[..|es| - 1]), es[|es| - 1])
  }

  /** The records after a sequence number. */
  function Newer(es: seq<Entry>, n: int): seq<Entry> {
    if es == [] then [] else (if es[0].sequence > n then [es[0]] else []) + Newer(es[1..], n)
  }

  predicate Subsequence(a: seq<Entry>, b: seq<Entry>)
    decreases |b|
  {
    if a == [] then true
    else if b == [] then false
    else if a[|a| - 1] == b[|b| - 1] then Subsequence(a[..|a| - 1], b[..|b| - 1]) || Subsequence(a, b[..|b| - 1])
    else Subsequence(a, b[..|b| - 1])
  }

  // ---------- recovery ----------

  /** Load the snapshot, then apply the log records after its sequence. None stands for an exception. */
  function Recover(g: Engine, snapshot: Option<string>, wal: string): Option<(int, Collections)> {
    match ReadSnapshot(g.decode, snapshot)
    case None => None
    case Some((n, state)) =>
      match ReplayText(g.log, wal)
      case Raised(_) => None
      case Replayed(applied, last, _) => Some((if last > n then last else n, Fold(g, state, Newer(applied, n))))
  }

  // ---------- the machine ----------

  datatype Phase =
    | Ready                 // waiting for a mutation or a checkpoint
    | Logged(e: Entry)      // a record is written but not yet synced: in flight
    | TempWritten | TempSynced | Renamed | RenameDurable | LogCut  // the steps of a checkpoint
    | Crashed               // nothing but the disk is left
    | Recovered             // memory is rebuilt; the log may still end in a torn record

  /** `wal` and `files.visible` are what the running system sees, `walDurable` and `files.durable` what has
      surely reached the disk. The last six fields are history: the mutations that took effect and those
      acknowledged, the number of crashes, the records in the log, and how many
      mutations the durable and the visible snapshot cover. */
  datatype State = State(
    wal: string, walDurable: string, files: Files,
    phase: Phase, memory: Collections, sequence: int,
    effective: seq<Entry>, acked: seq<Entry>, crashes: nat,
    lines: seq<Entry>, durable: nat, visible: nat
  )

  const INITIAL := State("", "", SettledAt(None, ""), Ready, map[], 0, [], [], 0, [], 0, 0)

  /** Append: the record is written after everything in the log. */
  predicate Log(g: Engine, s: State, s': State, e: Entry) {
    s.phase == Ready && e.sequence > s.sequence
    && s' == s.(wal := s.wal + Line(g.log, e), phase := Logged(e))
  }

  /** The sync returns; the mutation is applied in memory and acknowledged. */
  predicate Acknowledge(g: Engine, s: State, s': State) {
    s.phase.Logged?
    && var e := s.phase.e;
      s' == s.(walDurable := s.wal, phase := Ready, memory := g.apply(s.memory, e), sequence := e.sequence,
        effective := s.effective + [e], acked := s.acked + [e], lines := s.lines + [e])
  }

  /** The append raises and leaves nothing of the record in the file: the process goes on. After one that leaves any of
      it the database has to be opened again, as after a crash: Replay.AppendAfterFailure shows why. */
  predicate Withdraw(s: State, s': State) {
    s.phase.Logged? && s' == s.(wal := s.walDurable, phase := Ready)
  }

  predicate Checkpoint(g: Engine, s: State, s': State) {
    match s.phase
    case Ready => s' == s.(phase := TempWritten, files := WriteTemp(s.files, g.encode(s.sequence, s.memory)))
    case TempWritten => s' == s.(phase := TempSynced, files := SyncTemp(s.files))
    case TempSynced => s' == s.(phase := Renamed, files := Replace(s.files), visible := |s.effective|)
    case Renamed => s' == s.(phase := RenameDurable, files := SyncDirectory(s.files), durable := s.visible)
    case RenameDurable => s' == s.(phase := LogCut, wal := "")
    case LogCut => s' == s.(phase := Ready, walDurable := "", lines := [])
    case _ => false
  }

  /** A failed write of the temporary gives the checkpoint up. */
  predicate Abandon(s: State, s': State) {
    (s.phase.TempWritten? || s.phase.TempSynced?) && s' == s.(phase := Ready)
  }

  /** The log a crash may leave: the durable part and any part of what was written after it,
      or, when the log was cut but not synced, any prefix of the old one. */
  predicate MayLeaveLog(s: State, left: string) {
    (s.walDurable <= left && left <= s.wal) || (s.wal == "" && left <= s.walDurable)
  }

  /** The records whose newline is in the log a crash left. */
  function Surviving(g: Engine, s: State, left: string): seq<Entry> {
    var written := if s.phase.Logged? then s.lines + [s.phase.e] else s.lines;
    written[..Survivors(g.log, written, |left|)]
  }

  /** The mutations in effect after a crash: the record in flight is one of them if all of it survived. */
  function EffectiveAfter(g: Engine, s: State, left: string): seq<Entry> {
    if s.phase.Logged? && |Surviving(g, s, left)| > |s.lines| then s.effective + [s.phase.e] else s.effective
  }

  predicate Crash(g: Engine, s: State, s': State, wal: string, snapshot: Option<string>, temp: string) {
    MayLeaveLog(s, wal) && MayLeave(s.files, snapshot)
    && var covered := if snapshot == s.files.durable then s.durable else s.visible;
      s' == State(wal, wal, SettledAt(snapshot, temp), Crashed, map[], 0,
        EffectiveAfter(g, s, wal), s.acked, s.crashes + 1, Surviving(g, s, wal), covered, covered)
  }

  /** Opening the database after a crash; if recovery raised there would be no such step. */
  predicate Reopen(g: Engine, s: State, s': State) {
    s.phase.Crashed?
    && var r := Recover(g, s.files.visible.text, s.wal);
      r.Some? && s' == s.(phase := Recovered, sequence := r.value.0, memory := r.value.1)
  }

  /** The text up to the last newline. */
  function Trim(s: string): string {
    if s == "" || Terminated(s) then s else Trim(s[..|s| - 1])
  }

  /** Torn bytes are removed before the database takes new mutations. */
  predicate Repair(s: State, s': State) {
    s.phase.Recovered? && s' == s.(phase := Ready, wal := Trim(s.wal), walDurable := Trim(s.wal))
  }

  ghost predicate Next(g: Engine, s: State, s': State) {
    || (exists e :: Log(g, s, s', e))
    || Acknowledge(g, s, s')
    || Withdraw(s, s')
    || Checkpoint(g, s, s')
    || Abandon(s, s')
    || (exists wal, snapshot, temp :: Crash(g, s, s', wal, snapshot, temp))
    || Reopen(g, s, s')
    || Repair(s, s')
  }

  ghost predicate Run(g: Engine, run: seq<State>) {
    run != [] && run[0] == INITIAL && forall i | 0 <= i < |run| - 1 :: Next(g, run[i], run[i + 1])
  }

  // ---------- the invariant ----------

  /** A snapshot file that holds the first k mutations. */
  predicate Covers(g: Engine, snapshot: Option<string>, es: seq<Entry>, k: nat) {
    k <= |es|
    && ReadSnapshot(g.decode, snapshot) == Some((LastSeq(es[..k], 0), Fold(g, map[], es[..k])))
  }

  /** The snapshot of the first k mutations and the log together hold all mutations. */
  predicate Complete(s: State, k: nat) {
    k <= |s.effective| && Newer(s.lines, LastSeq(s.effective[..k], 0)) == s.effective[k..]
  }

  predicate HistoryOk(s: State) {
    Increasing(s.effective, 0) && Increasing(s.lines, 0)
    && LastSeq(s.lines, 0) <= LastSeq(s.effective, 0)
    && Complete(s, s.durable) && Complete(s, s.visible)
    && Subsequence(s.acked, s.effective) && |s.effective| <= |s.acked| + s.crashes
  }

  predicate FilesOk(g: Engine, s: State) {
    Covers(g, s.files.durable, s.effective, s.durable) && Covers(g, s.files.visible.text, s.effective, s.visible)
    && s.files.visible.synced && (forall t | t in s.files.earlier :: t == Target(s.files.durable, true))
    && (s.phase.Renamed? || (s.files.visible.text == s.files.durable && s.visible == s.durable))
    && (s.phase.TempWritten? || s.phase.TempSynced? ==> s.files.temp == g.encode(s.sequence, s.memory))
    && (s.phase.TempSynced? ==> s.files.tempSynced)
    && (s.phase.Renamed? || s.phase.RenameDurable? || s.phase.LogCut? ==> s.visible == |s.effective|)
  }

  ghost predicate LogOk(g: Engine, s: State) {
    match s.phase
    case Logged(e) =>
      s.walDurable == LogOf(g.log, s.lines) && s.wal == s.walDurable + Line(g.log, e) && e.sequence > s.sequence
    case LogCut => s.walDurable == LogOf(g.log, s.lines) && s.wal == ""
    case Crashed => s.wal == s.walDurable && TornLog(g, s)
    case Recovered => s.wal == s.walDurable && TornLog(g, s)
    case _ => s.wal == s.walDurable == LogOf(g.log, s.lines)
  }

  ghost predicate TornLog(g: Engine, s: State) {
    exists tail :: '\n' !in tail && s.wal == LogOf(g.log, s.lines) + tail
  }

  /** Memory is the fold of every mutation in effect. */
  predicate MemoryOk(g: Engine, s: State) {
    s.phase.Crashed? || (s.memory == Fold(g, map[], s.effective) && s.sequence == LastSeq(s.effective, 0))
  }

  ghost predicate Invariant(g: Engine, s: State) {
    HistoryOk(s) && FilesOk(g, s) && LogOk(g, s) && MemoryOk(g, s)
  }

  // ---------- lemmas on histories ----------

  lemma {:induction false} LastSeqGrows(es: seq<Entry>, last: int, k: nat)
    requires Increasing(es, last) && k <= |es|
    ensures last <= LastSeq(es[..k], last) <= LastSeq(es, last)
    decreases |es|
  {
    if k > 0 {
      LastSeqGrows(es[1..], es[0].sequence, k - 1);
      assert es[..k][1..] == es[1..][..k - 1];
      assert es[..k][0] == es[0];
    } else if es != [] {
      LastSeqGrows(es[1..], es[0].sequence, 0);
    }
  }

  lemma {:induction false} NewerAppend(es: seq<Entry>, e: Entry, n: int)
    ensures Newer(es + [e], n) == Newer(es, n) + if e.sequence > n then [e] else []
  {
    if es == [] {
      assert es + [e] == [e];
    } else {
      assert (es + [e])[1..] == es[1..] + [e];
      NewerAppend(es[1..], e, n);
    }
  }

  lemma {:induction false} NewerPrefix(es: seq<Entry>, k: nat, n: int)
    requires k <= |es| && Newer(es, n) == []
    ensures Newer(es[..k], n) == []
    decreases k
  {
    if k > 0 {
      NewerPrefix(es[1..], k - 1, n);
      assert es[..k][1..] == es[1..][..k - 1];
    }
  }

  lemma {:induction false} FoldAppend(g: Engine, state: Collections, a: seq<Entry>, b: seq<Entry>)
    ensures Fold(g, Fold(g, state, a), b) == Fold(g, state, a + b)
    decreases |b|
  {
    if b == [] {
      assert a + b == a;
    } else {
      FoldAppend(g, state, a, b[..|b| - 1]);
      assert (a + b)[..|a + b| - 1] == a + b[..|b| - 1];
    }
  }

  lemma {:induction false} SubsequenceSkip(a: seq<Entry>, b: seq<Entry>, e: Entry)
    requires Subsequence(a, b)
    ensures Subsequence(a, b + [e]) && Subsequence(a + [e], b + [e])
  {
    assert (b + [e])[..|b|] == b;
    assert (a + [e])[..|a|] == a;
  }

  lemma {:induction false} SurvivorsAll(c: Codec, es: seq<Entry>, n: nat)
    requires n >= |LogOf(c, es)|
    ensures Survivors(c, es, n) == |es|
    decreases |es|
  {
    if es != [] { SurvivorsAll(c, es[1..], n - |Line(c, es[0])|); }
  }

  lemma {:induction false} SurvivorsMore(c: Codec, es: seq<Entry>, e: Entry, n: nat)
    requires n >= |LogOf(c, es)|
    ensures Survivors(c, es + [e], n) >= |es|
    decreases |es|
  {
    if es != [] {
      assert (es + [e])[1..] == es[1..] + [e];
      SurvivorsMore(c, es[1..], e, n - |Line(c, es[0])|);
    }
  }

  lemma {:induction false} NewerLast(es: seq<Entry>, n: int, last: int)
    requires Increasing(es, last) && Newer(es, n) != []
    ensures es != [] && Newer(es, n)[|Newer(es, n)| - 1] == es[|es| - 1]
    decreases |es|
  {
    if |es| > 1 {
      if Newer(es[1..], n) != [] {
        NewerLast(es[1..], n, es[0].sequence);
      }
    }
  }

  lemma {:induction false} LastSeqMeans(es: seq<Entry>, last: int)
    ensures LastSeq(es, last) == if es == [] then last else es[|es| - 1].sequence
  {
    if es != [] { LastSeqMeans(es[1..], es[0].sequence); }
  }

  // ---------- recovery is right ----------

  /** The larger of the snapshot's and the log's last sequence is that of the last mutation. */
  lemma RecoveredSequence(s: State, k: nat)
    requires HistoryOk(s) && Complete(s, k)
    ensures var n, last := LastSeq(s.effective[..k], 0), LastSeq(s.lines, 0);
      (if last > n then last else n) == LastSeq(s.effective, 0)
  {
    hide Newer, Subsequence, Increasing, LastSeq;
    var es := s.effective;
    LastSeqGrows(es, 0, k);
    LastSeqMeans(es, 0);
    LastSeqMeans(s.lines, 0);
    if k < |es| {
      NewerLast(s.lines, LastSeq(es[..k], 0), 0);
      assert es[k..][|es[k..]| - 1] == es[|es| - 1];
    } else {
      assert es[..k] == es;
    }
  }

  lemma {:induction false} IncreasingMeans(es: seq<Entry>, last: int)
    requires Increasing(es, last)
    ensures forall k | 0 <= k < |es| :: last < es[k].sequence
    ensures forall k, l | 0 <= k < l < |es| :: es[k].sequence < es[l].sequence
  {
    if es != [] {
      IncreasingMeans(es[1..], es[0].sequence);
      assert forall k | 0 < k < |es| :: es[k] == es[1..][k - 1];
    }
  }

  lemma {:induction false} NewerAll(es: seq<Entry>, n: int)
    requires forall i | 0 <= i < |es| :: es[i].sequence > n
    ensures Newer(es, n) == es
  {
    if es != [] {
      NewerAll(es[1..], n);
      assert es == [es[0]] + es[1..];
    }
  }

  /** In increasing records those after n are a suffix. */
  lemma {:induction false} NewerSuffix(es: seq<Entry>, n: int, last: int) returns (k: nat)
    requires Increasing(es, last)
    ensures k <= |es| && Newer(es, n) == es[k..]
    ensures (forall i | 0 <= i < k :: es[i].sequence <= n) && forall i | k <= i < |es| :: es[i].sequence > n
  {
    k := 0;
    if es != [] && es[0].sequence <= n {
      var rest := es[1..];
      var j := NewerSuffix(rest, n, es[0].sequence);
      k := j + 1;
      assert Newer(es, n) == [] + Newer(rest, n);
      assert es[k..] == rest[j..];
      hide Newer, Increasing;
      forall i | 0 <= i < |es| ensures i < k <==> es[i].sequence <= n {
        if i > 0 { assert es[i] == rest[i - 1]; }
      }
    } else {
      IncreasingMeans(es, last);
      NewerAll(es, n);
    }
  }

  /** On any files whatever, recovery raises exactly when the snapshot does not read or replay raises; otherwise it
      applies to the snapshot's collections exactly the log's records after the snapshot, in order. */
  lemma RecoverMeans(g: Engine, snapshot: Option<string>, wal: string) returns (k: nat)
    ensures Recover(g, snapshot, wal) == None
      <==> (snapshot.Some? && g.decode(snapshot.value).None?) || ReplayText(g.log, wal).Raised?
    ensures Recover(g, snapshot, wal).Some? ==>
      var (n, state) := if snapshot.Some? then g.decode(snapshot.value).value else (0, map[]);
      var es := ReplayText(g.log, wal).applied;
      k <= |es| && (forall i | 0 <= i < k :: es[i].sequence <= n) && (forall i | k <= i < |es| :: es[i].sequence > n)
      && Recover(g, snapshot, wal).value.0
          == (if k < |es| then es[|es| - 1].sequence else if es == [] && n < 0 then 0 else n)
      && Recover(g, snapshot, wal).value.1 == Fold(g, state, es[k..])
  {
    hide ReplayText, Lines, Fold, Newer, Increasing;
    k := 0;
    if Recover(g, snapshot, wal).Some? {
      var (n, _) := ReadSnapshot(g.decode, snapshot).value;
      var o := ReplayText(g.log, wal);
      ReplayOutcome(g.log, wal);
      LastSeqMeans(o.applied, 0);
      k := NewerSuffix(o.applied, n, 0);
    }
  }

  /** A covering snapshot and a complete log recover every mutation in effect. */
  lemma RecoverExact(g: Engine, s: State, snapshot: Option<string>, k: nat, tail: string)
    requires Faithful(g) && HistoryOk(s) && Complete(s, k) && Covers(g, snapshot, s.effective, k) && '\n' !in tail
    ensures Recover(g, snapshot, LogOf(g.log, s.lines) + tail)
      == Some((LastSeq(s.effective, 0), Fold(g, map[], s.effective)))
  {
    hide Increasing, ReplayText, LogOf, Newer, LastSeq, Fold, Subsequence;
    ReplayLogAndFragment(g.log, s.lines, tail);
    RecoveredSequence(s, k);
    FoldAppend(g, map[], s.effective[..k], s.effective[k..]);
    assert s.effective[..k] + s.effective[k..] == s.effective;
  }

  /** What a crash leaves of the log: whole records and a fragment; of the record in flight, all
      or nothing counts. */
  lemma CrashLog(g: Engine, s: State, left: string) returns (tail: string)
    requires Faithful(g) && Invariant(g, s) && MayLeaveLog(s, left)
    ensures var lines' := Surviving(g, s, left);
      left == LogOf(g.log, lines') + tail && '\n' !in tail
      && (!s.phase.LogCut? ==> lines' == s.lines || (s.phase.Logged? && lines' == s.lines + [s.phase.e]))
      && (s.phase.LogCut? ==> lines' <= s.lines)
  {
    hide LogOf, Newer, LastSeq, Fold, Subsequence, Increasing, Covers;
    var log := LogOf(g.log, s.lines);
    if s.phase.Crashed? || s.phase.Recovered? {
      tail :| '\n' !in tail && s.wal == log + tail;
      SurvivorsAll(g.log, s.lines, |left|);
      assert s.lines[..|s.lines|] == s.lines;
    } else if s.phase.Logged? {
      var e := s.phase.e;
      LogOfAppend(g.log, s.lines, [e]);
      LogOfOne(g.log, e);
      tail := CutLog(g.log, s.lines + [e], |left|);
      assert left == s.wal[..|left|];
      SurvivorsMore(g.log, s.lines, e, |left|);
      assert (s.lines + [e])[..|s.lines|] == s.lines;
      assert (s.lines + [e])[..|s.lines| + 1] == s.lines + [e];
    } else {
      tail := CutLog(g.log, s.lines, |left|);
      assert left == log[..|left|];
      if !s.phase.LogCut? {
        SurvivorsAll(g.log, s.lines, |left|);
        assert s.lines[..|s.lines|] == s.lines;
      }
    }
  }

  // ---------- every step keeps the invariant ----------

  lemma LogKeeps(g: Engine, s: State, s': State, e: Entry)
    requires Invariant(g, s) && Log(g, s, s', e)
    ensures Invariant(g, s')
  {}

  /** One more mutation in effect, one more record in the log. */
  lemma HistoryExtends(s: State, s': State, e: Entry)
    requires HistoryOk(s) && e.sequence > LastSeq(s.effective, 0)
    requires s'.effective == s.effective + [e] && s'.lines == s.lines + [e]
    requires (s'.acked == s.acked + [e] && s'.crashes == s.crashes)
      || (s'.acked == s.acked && s'.crashes == s.crashes + 1)
    requires s'.durable in {s.durable, s.visible} && s'.visible in {s.durable, s.visible}
    ensures HistoryOk(s')
  {
    IncreasingAppend(s.effective, e, 0);
    IncreasingAppend(s.lines, e, 0);
    CompleteExtends(s, s', e, s.durable);
    CompleteExtends(s, s', e, s.visible);
    SubsequenceSkip(s.acked, s.effective, e);
  }

  lemma CompleteExtends(s: State, s': State, e: Entry, k: nat)
    requires Increasing(s.effective, 0) && Complete(s, k) && e.sequence > LastSeq(s.effective, 0)
    requires s'.effective == s.effective + [e] && s'.lines == s.lines + [e]
    ensures Complete(s', k)
  {
    LastSeqGrows(s.effective, 0, k);
    NewerAppend(s.lines, e, LastSeq(s.effective[..k], 0));
    assert s'.effective[..k] == s.effective[..k];
    assert s'.effective[k..] == s.effective[k..] + [e];
  }

  lemma CoversExtends(g: Engine, snapshot: Option<string>, es: seq<Entry>, e: Entry, k: nat)
    requires Covers(g, snapshot, es, k)
    ensures Covers(g, snapshot, es + [e], k)
  {
    assert (es + [e])[..k] == es[..k];
  }

  lemma AcknowledgeKeeps(g: Engine, s: State, s': State)
    requires Invariant(g, s) && Acknowledge(g, s, s')
    ensures Invariant(g, s')
  {
    var e := s.phase.e;
    HistoryExtends(s, s', e);
    CoversExtends(g, s.files.durable, s.effective, e, s.durable);
    CoversExtends(g, s.files.visible.text, s.effective, e, s.visible);
    LogOfAppend(g.log, s.lines, [e]);
    LogOfOne(g.log, e);
    assert s'.effective[..|s.effective|] == s.effective;
  }

  lemma NewerThanAll(s: State)
    requires HistoryOk(s)
    ensures Complete(s, |s.effective|)
  {
    assert s.effective[..|s.effective|] == s.effective;
    NewerNothing(s.lines, LastSeq(s.effective, 0), 0);
  }

  lemma {:induction false} NewerNothing(es: seq<Entry>, n: int, last: int)
    requires Increasing(es, last) && LastSeq(es, last) <= n
    ensures Newer(es, n) == []
    decreases |es|
  {
    if es != [] {
      LastSeqGrows(es, last, 1);
      NewerNothing(es[1..], n, es[0].sequence);
    }
  }

  lemma CheckpointKeeps(g: Engine, s: State, s': State)
    requires Faithful(g) && Invariant(g, s) && Checkpoint(g, s, s')
    ensures Invariant(g, s')
  {
    hide Newer, LastSeq, Fold, Subsequence, Increasing, LogOf;
    NewerThanAll(s);
    assert s.effective[..|s.effective|] == s.effective;
    match s.phase
    case LogCut => CutKeeps(g, s, s');
    case _ =>
  }

  lemma CutKeeps(g: Engine, s: State, s': State)
    requires Invariant(g, s) && s.phase.LogCut? && Checkpoint(g, s, s')
    ensures Invariant(g, s')
  {
    hide Fold, Subsequence;
    LastSeqGrows(s.effective, 0, 0);
    assert s'.effective[|s.effective|..] == [];
  }

  lemma SurvivingPrefix(s: State, k: nat, lines': seq<Entry>)
    requires Complete(s, k) && k == |s.effective| && lines' <= s.lines
    ensures Newer(lines', LastSeq(s.effective[..k], 0)) == s.effective[k..]
  {
    NewerPrefix(s.lines, |lines'|, LastSeq(s.effective[..k], 0));
    assert lines' == s.lines[..|lines'|];
  }

  /** After any crash the history still fits the files. */
  lemma CrashHistory(g: Engine, s: State, s': State, wal: string, snapshot: Option<string>, temp: string)
    requires Faithful(g) && Invariant(g, s) && Crash(g, s, s', wal, snapshot, temp)
    ensures HistoryOk(s') && FilesOk(g, s')
  {
    hide Newer, LastSeq, Fold, Subsequence, Increasing, LogOf, Surviving;
    var tail := CrashLog(g, s, wal);
    var lines' := Surviving(g, s, wal);
    if s.phase.Logged? && |lines'| > |s.lines| {
      var e := s.phase.e;
      HistoryExtends(s, s', e);
      CoversExtends(g, s.files.durable, s.effective, e, s.durable);
      CoversExtends(g, s.files.visible.text, s.effective, e, s.visible);
    } else if s.phase.LogCut? {
      SurvivingPrefix(s, s.durable, lines');
      IncreasingPrefix(s.lines, 0, |lines'|);
      LastSeqGrows(s.lines, 0, |lines'|);
      assert lines' == s.lines[..|lines'|];
    }
  }

  lemma CrashKeeps(g: Engine, s: State, s': State, wal: string, snapshot: Option<string>, temp: string)
    requires Faithful(g) && Invariant(g, s) && Crash(g, s, s', wal, snapshot, temp)
    ensures Invariant(g, s')
  {
    CrashHistory(g, s, s', wal, snapshot, temp);
    var tail := CrashLog(g, s, wal);
    assert TornLog(g, s');
  }

  lemma ReopenKeeps(g: Engine, s: State, s': State)
    requires Faithful(g) && Invariant(g, s) && Reopen(g, s, s')
    ensures Invariant(g, s')
  {
    var tail :| '\n' !in tail && s.wal == LogOf(g.log, s.lines) + tail;
    RecoverExact(g, s, s.files.visible.text, s.visible, tail);
  }

  lemma {:induction false} TrimFragment(s: string, tail: string)
    requires '\n' !in tail && (s == "" || Terminated(s))
    ensures Trim(s + tail) == s
  {
    if tail == "" {
      assert s + tail == s;
    } else {
      assert (s + tail)[..|s + tail| - 1] == s + tail[..|tail| - 1];
      assert tail[|tail| - 1] in tail;
      TrimFragment(s, tail[..|tail| - 1]);
    }
  }

  lemma {:induction false} LogTerminated(c: Codec, es: seq<Entry>)
    ensures LogOf(c, es) == "" || Terminated(LogOf(c, es))
  {
    if es != [] { LogTerminated(c, es[1..]); }
  }

  lemma RepairKeeps(g: Engine, s: State, s': State)
    requires Invariant(g, s) && Repair(s, s')
    ensures Invariant(g, s')
  {
    var tail :| '\n' !in tail && s.wal == LogOf(g.log, s.lines) + tail;
    LogTerminated(g.log, s.lines);
    TrimFragment(LogOf(g.log, s.lines), tail);
  }

  lemma NextKeeps(g: Engine, s: State, s': State)
    requires Faithful(g) && Invariant(g, s) && Next(g, s, s')
    ensures Invariant(g, s')
  {
    hide Invariant, Log, Acknowledge, Withdraw, Checkpoint, Abandon, Crash, Reopen, Repair;
    if e :| Log(g, s, s', e) {
      LogKeeps(g, s, s', e);
    } else if Acknowledge(g, s, s') {
      AcknowledgeKeeps(g, s, s');
    } else if Withdraw(s, s') {
      WithdrawKeeps(g, s, s');
    } else if Checkpoint(g, s, s') {
      CheckpointKeeps(g, s, s');
    } else if Abandon(s, s') {
      AbandonKeeps(g, s, s');
    } else if wal, snapshot, temp :| Crash(g, s, s', wal, snapshot, temp) {
      CrashKeeps(g, s, s', wal, snapshot, temp);
    } else if Reopen(g, s, s') {
      ReopenKeeps(g, s, s');
    } else {
      RepairKeeps(g, s, s');
    }
  }

  lemma WithdrawKeeps(g: Engine, s: State, s': State)
    requires Invariant(g, s) && Withdraw(s, s')
    ensures Invariant(g, s')
  {}

  lemma AbandonKeeps(g: Engine, s: State, s': State)
    requires Invariant(g, s) && Abandon(s, s')
    ensures Invariant(g, s')
  {}

  // ---------- main results ----------

  /** Every state of every run keeps the invariant. */
  lemma {:induction false} RunKeeps(g: Engine, run: seq<State>, i: nat)
    requires Faithful(g) && Run(g, run) && i < |run|
    ensures Invariant(g, run[i])
  {
    if i == 0 {
      assert Invariant(g, INITIAL);
    } else {
      RunKeeps(g, run, i - 1);
      NextKeeps(g, run[i - 1], run[i]);
    }
  }

  /** Whatever a crash leaves at whatever moment of whatever run, recovery succeeds and yields the fold
      of the mutations in effect, plus at most the one in flight; every acknowledged mutation is among
      them, and beyond those at most one for each crash so far. */
  lemma CrashSafety(g: Engine, run: seq<State>, i: nat, wal: string, snapshot: Option<string>)
      returns (es: seq<Entry>)
    requires Faithful(g) && Run(g, run) && i < |run|
    requires run[i].walDurable <= wal <= run[i].wal || (run[i].wal == "" && wal <= run[i].walDurable)
    requires MayLeave(run[i].files, snapshot)
    ensures es == run[i].effective || (run[i].phase.Logged? && es == run[i].effective + [run[i].phase.e])
    ensures Recover(g, snapshot, wal) == Some((if es == [] then 0 else es[|es| - 1].sequence, Fold(g, map[], es)))
    ensures Subsequence(run[i].acked, es) && |es| <= |run[i].acked| + run[i].crashes + 1
    ensures es == EffectiveAfter(g, run[i], wal)
  {
    var s := run[i];
    RunKeeps(g, run, i);
    var covered := if snapshot == s.files.durable then s.durable else s.visible;
    var s' := State(wal, wal, SettledAt(snapshot, ""), Crashed, map[], 0,
      EffectiveAfter(g, s, wal), s.acked, s.crashes + 1, Surviving(g, s, wal), covered, covered);
    assert Crash(g, s, s', wal, snapshot, "");
    CrashHistory(g, s, s', wal, snapshot, "");
    var tail := CrashLog(g, s, wal);
    RecoverExact(g, s', snapshot, covered, tail);
    es := EffectiveAfter(g, s, wal);
    LastSeqMeans(es, 0);
  }

  lemma NextAcknowledges(g: Engine, s: State, s': State)
    requires Next(g, s, s')
    ensures s.acked <= s'.acked
  {}

  lemma {:induction false} AcknowledgedGrows(g: Engine, run: seq<State>, i: nat, j: nat)
    requires Run(g, run) && i <= j < |run|
    ensures run[i].acked <= run[j].acked
  {
    if i < j {
      AcknowledgedGrows(g, run, i, j - 1);
      NextAcknowledges(g, run[j - 1], run[j]);
    }
  }

  lemma {:induction false} SubsequencePrefix(a: seq<Entry>, k: nat, b: seq<Entry>)
    requires Subsequence(a, b) && k <= |a|
    ensures Subsequence(a[..k], b)
    decreases |b|
  {
    if k > 0 && k < |a| {
      var a', b' := a[..|a| - 1], b[..|b| - 1];
      if a[|a| - 1] == b[|b| - 1] && Subsequence(a', b') {
        SubsequencePrefix(a', k, b');
        assert a'[..k] == a[..k];
      } else {
        SubsequencePrefix(a, k, b');
      }
      assert Subsequence(a[..k], b');
      assert b == b' + [b[|b| - 1]];
      SubsequenceSkip(a[..k], b', b[|b| - 1]);
    } else if k == |a| {
      assert a[..k] == a;
    }
  }

  /** Once acknowledged, forever recovered: however often the database crashes afterwards, whatever the last crash
      leaves, the mutations acknowledged by some moment are all among those recovery folds, in order. */
  lemma AcknowledgedForever(g: Engine, run: seq<State>, i: nat, j: nat, wal: string, snapshot: Option<string>)
      returns (es: seq<Entry>, at: seq<nat>)
    requires Faithful(g) && Run(g, run) && i <= j < |run|
    requires run[j].walDurable <= wal <= run[j].wal || (run[j].wal == "" && wal <= run[j].walDurable)
    requires MayLeave(run[j].files, snapshot)
    ensures Recover(g, snapshot, wal) == Some((if es == [] then 0 else es[|es| - 1].sequence, Fold(g, map[], es)))
    ensures forall k, l | 0 <= k < l < |es| :: es[k].sequence < es[l].sequence
    ensures Picks(at, run[i].acked, es)
  {
    hide Run, MayLeave, Recover, Subsequence, Fold;
    es := CrashSafety(g, run, j, wal, snapshot);
    AcknowledgedGrows(g, run, i, j);
    SubsequencePrefix(run[j].acked, |run[i].acked|, es);
    assert run[j].acked[..|run[i].acked|] == run[i].acked;
    at := Positions(run[i].acked, es);
    RunKeeps(g, run, j);
    IncreasingAfter(g, run[j], wal);
    IncreasingMeans(es, 0);
  }

  /** The entries of a are those of b at increasing positions. */
  predicate Picks(at: seq<nat>, a: seq<Entry>, b: seq<Entry>) {
    |at| == |a|
    && (forall k | 0 <= k < |a| :: at[k] < |b| && b[at[k]] == a[k])
    && forall k, l | 0 <= k < l < |a| :: at[k] < at[l]
  }

  lemma {:induction false} Positions(a: seq<Entry>, b: seq<Entry>) returns (at: seq<nat>)
    requires Subsequence(a, b)
    ensures Picks(at, a, b)
    decreases |b|
  {
    if a == [] {
      at := [];
    } else {
      var a', b' := a[..|a| - 1], b[..|b| - 1];
      if a[|a| - 1] == b[|b| - 1] && Subsequence(a', b') {
        at := Positions(a', b');
        at := at + [|b'|];
      } else {
        at := Positions(a, b');
      }
    }
  }

  /** A crash may come at any moment and leave any part of the log that was not yet synced. */
  lemma CrashAnywhere(g: Engine, s: State, wal: string, snapshot: Option<string>, temp: string) returns (s': State)
    requires s.walDurable <= wal <= s.wal || (s.wal == "" && wal <= s.walDurable)
    requires MayLeave(s.files, snapshot)
    ensures Next(g, s, s') && s'.phase == Crashed && s'.wal == s'.walDurable == wal && s'.memory == map[]
    ensures s'.files == SettledAt(snapshot, temp)
  {
    hide Surviving, EffectiveAfter, MayLeave;
    var covered := if snapshot == s.files.durable then s.durable else s.visible;
    s' := State(wal, wal, SettledAt(snapshot, temp), Crashed, map[], 0,
      EffectiveAfter(g, s, wal), s.acked, s.crashes + 1, Surviving(g, s, wal), covered, covered);
    assert Crash(g, s, s', wal, snapshot, temp);
  }

  /** Every waiting database can take a mutation with a later sequence and acknowledge it. */
  lemma MutationCompletes(g: Engine, s: State, e: Entry) returns (logged: State, done: State)
    requires s.phase == Ready && e.sequence > s.sequence
    ensures Next(g, s, logged) && logged.phase == Logged(e) && logged.walDurable == s.walDurable
    ensures logged.wal == s.wal + g.log.encode(e) + "\n"
    ensures Next(g, logged, done) && done.phase == Ready && done.wal == done.walDurable == logged.wal
    ensures done.acked == s.acked + [e] && done.effective == s.effective + [e] && done.memory == g.apply(s.memory, e)
  {
    logged := s.(wal := s.wal + Line(g.log, e), phase := Logged(e));
    done := logged.(walDurable := logged.wal, phase := Ready, memory := g.apply(s.memory, e), sequence := e.sequence,
      effective := s.effective + [e], acked := s.acked + [e], lines := s.lines + [e]);
    assert Log(g, s, logged, e);
    assert Acknowledge(g, logged, done);
  }

  /** ... and can complete a checkpoint: the snapshot of memory is then durable, the log empty, and memory the same. */
  lemma CheckpointCompletes(g: Engine, s: State) returns (steps: seq<State>)
    requires s.phase == Ready
    ensures steps != [] && steps[0] == s && forall i | 0 <= i < |steps| - 1 :: Next(g, steps[i], steps[i + 1])
    ensures var (done, text) := (steps[|steps| - 1], g.encode(s.sequence, s.memory));
      done.phase == Ready && done.wal == done.walDurable == "" && done.files == SettledAt(Some(text), text)
      && done.memory == s.memory && done.effective == s.effective && done.acked == s.acked
  {
    var s1 := s.(phase := TempWritten, files := WriteTemp(s.files, g.encode(s.sequence, s.memory)));
    var s2 := s1.(phase := TempSynced, files := SyncTemp(s1.files));
    var s3 := s2.(phase := Renamed, files := Replace(s2.files), visible := |s2.effective|);
    var s4 := s3.(phase := RenameDurable, files := SyncDirectory(s3.files), durable := s3.visible);
    var s5 := s4.(phase := LogCut, wal := "");
    var s6 := s5.(phase := Ready, walDurable := "", lines := []);
    steps := [s, s1, s2, s3, s4, s5, s6];
    assert Checkpoint(g, s, s1) && Checkpoint(g, s1, s2) && Checkpoint(g, s2, s3);
    assert Checkpoint(g, s3, s4) && Checkpoint(g, s4, s5) && Checkpoint(g, s5, s6);
  }

  /** An append that raises may leave nothing and a temporary may not be written: the database waits again, with the
      same mutations in effect. */
  lemma FailuresGoOn(g: Engine, s: State)
    ensures s.phase.Logged? ==> Next(g, s, s.(wal := s.walDurable, phase := Ready))
    ensures s.phase.TempWritten? || s.phase.TempSynced? ==> Next(g, s, s.(phase := Ready))
  {
    if s.phase.Logged? { assert Withdraw(s, s.(wal := s.walDurable, phase := Ready)); }
    if s.phase.TempWritten? || s.phase.TempSynced? { assert Abandon(s, s.(phase := Ready)); }
  }

  /** A crashed database can always be opened and repaired again, whatever happened before. */
  lemma CrashedReopens(g: Engine, run: seq<State>, i: nat) returns (reopened: State, ready: State)
    requires Faithful(g) && Run(g, run) && i < |run| && run[i].phase.Crashed?
    ensures Reopen(g, run[i], reopened) && Repair(reopened, ready)
    ensures ready.memory == Fold(g, map[], run[i].effective) && ready.effective == run[i].effective
    ensures ready.wal == LogOf(g.log, ready.lines)
  {
    RunKeeps(g, run, i);
    var s := run[i];
    var tail :| '\n' !in tail && s.wal == LogOf(g.log, s.lines) + tail;
    RecoverExact(g, s, s.files.visible.text, s.visible, tail);
    var r := Recover(g, s.files.visible.text, s.wal).value;
    reopened := s.(phase := Recovered, sequence := r.0, memory := r.1);
    ready := reopened.(phase := Ready, wal := Trim(s.wal), walDurable := Trim(s.wal));
    LogTerminated(g.log, s.lines);
    TrimFragment(LogOf(g.log, s.lines), tail);
  }

  lemma IncreasingAfter(g: Engine, s: State, wal: string)
    requires Invariant(g, s)
    ensures Increasing(EffectiveAfter(g, s, wal), 0)
  {
    if s.phase.Logged? { IncreasingAppend(s.effective, s.phase.e, 0); }
  }

  /** Cutting the log after the rename but before it is durable: a crash that leaves the old snapshot
      recovers only the mutations that one covers, so nothing is lost exactly when it covers all. */
  lemma CutNeedsDurableRename(g: Engine, s: State)
    requires Faithful(g) && Invariant(g, s) && s.phase.Renamed?
    ensures var es := s.effective;
      Recover(g, s.files.durable, "") == Some((LastSeq(es[..s.durable], 0), Fold(g, map[], es[..s.durable])))
      && (Recover(g, s.files.durable, "") == Some((LastSeq(es, 0), Fold(g, map[], es))) <==> s.durable == |es|)
  {
    var es := s.effective;
    ReplayLogAndFragment(g.log, [], "");
    assert LogOf(g.log, []) + "" == "";
    LastSeqGrows(es, 0, s.durable);
    assert Newer([], LastSeq(es[..s.durable], 0)) == [];
    if s.durable < |es| {
      LastSeqStrict(es, 0, s.durable);
    } else {
      assert es[..s.durable] == es;
    }
  }

  /** A run in which it does not: the first mutation ever, then a checkpoint up to the rename. */
  lemma RenamedUncovered(g: Engine, e: Entry) returns (run: seq<State>)
    requires e.sequence > 0
    ensures Run(g, run)
    ensures var s := run[|run| - 1]; s.phase.Renamed? && s.durable < |s.effective|
  {
    hide LogOf, Line;
    var logged := INITIAL.(wal := INITIAL.wal + Line(g.log, e), phase := Logged(e));
    var acked := logged.(walDurable := logged.wal, phase := Ready, memory := g.apply(map[], e), sequence := e.sequence,
      effective := [] + [e], acked := [] + [e], lines := [] + [e]);
    var written := acked.(phase := TempWritten,
      files := WriteTemp(acked.files, g.encode(acked.sequence, acked.memory)));
    var synced := written.(phase := TempSynced, files := SyncTemp(written.files));
    var renamed := synced.(phase := Renamed, files := Replace(synced.files), visible := 1);
    assert Log(g, INITIAL, logged, e);
    assert Acknowledge(g, logged, acked);
    assert Checkpoint(g, acked, written) && Checkpoint(g, written, synced) && Checkpoint(g, synced, renamed);
    run := [INITIAL, logged, acked, written, synced, renamed];
  }

  lemma {:induction false} LastSeqStrict(es: seq<Entry>, last: int, k: nat)
    requires Increasing(es, last) && k < |es|
    ensures LastSeq(es[..k], last) < LastSeq(es, last)
    decreases k
  {
    if k > 0 {
      LastSeqStrict(es[1..], es[0].sequence, k - 1);
      assert es[..k][1..] == es[1..][..k - 1];
      assert es[..k][0] == es[0];
    } else {
      LastSeqGrows(es, last, 1);
    }
  }

  // ---------- the repository's formats ----------

  /** The log and snapshot formats of the repository, with any effect of mutations. */
  function Repository(py: Python, crc: Checksum, sha: Digest, apply: (Collections, Entry) -> Collections): Engine {
    Engine(WalCodec(py, crc), (n: int, state: Collections) => EncodeSnapshot(sha, n, state),
      text => DecodeSnapshot(py, sha, text), apply)
  }

  /** They meet the assumption of the results above. */
  lemma RepositoryFaithful(py: Python, crc: Checksum, sha: Digest, apply: (Collections, Entry) -> Collections)
    ensures Faithful(Repository(py, crc, sha, apply))
  {
    WalCodecReadsBack(py, crc);
    forall n: int, state: Collections
      ensures DecodeSnapshot(py, sha, EncodeSnapshot(sha, n, state)) == Some((n, state))
    {
      SnapshotRoundTrip(py, sha, n, state);
    }
  }
}
