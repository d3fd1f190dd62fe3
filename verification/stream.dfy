/**
 The stream loop as a log of effects. A process crash cuts the log anywhere; a restart opens the
 next session at the committed position. What the source, the transforms and the sink do is given
 by a tape, one entry per delivery.
 */
module Stream {
  import opened Prelude

  /** Deliveries are numbered from 0 within a session. `Acked(u)` acknowledges the first `u` of them. */
  datatype Effect =
    | LoopHead(pending: nat)
    | Dropped(d: nat)
    | DeadLettered(d: nat)
    | Published(d: nat)
    | Flushed
    | Acked(upTo: nat)

  datatype Transformed = Kept | Discarded | Raised

  /** A commit acknowledges everything delivered, is not supported, or fails after a prefix. */
  datatype Commit = Committed | Unsupported | FailsAfter(k: nat)

  datatype Turn = Turn(transformed: Transformed, publishOk: bool, timer: bool, flushOk: bool, commit: Commit, stop: bool)

  datatype Config = Config(maxRecords: int, afterFlush: bool, dlq: bool)

  datatype Exit = Finished | TransformRaised | PublishRaised | FlushRaised | CommitRaised | SourceRaised

  /** `body` is the loop, `tail` the `finally` block; `pending` counts publishes not flushed when the loop ended. */
  datatype Session = Session(body: seq<Effect>, tail: seq<Effect>, read: nat, written: nat, exit: Exit, pending: nat)

  // ---------- at least once ----------

  /** Delivery `d` was dropped by a transform, handed to the dead-letter sink, or published and flushed. */
  ghost predicate Handled(log: seq<Effect>, d: nat) {
    || Dropped(d) in log
    || DeadLettered(d) in log
    || FlushedAfter(log, d)
  }

  ghost predicate FlushedAfter(log: seq<Effect>, d: nat) {
    exists i, j :: 0 <= i < j < |log| && log[i] == Published(d) && log[j] == Flushed
  }

  /** Whatever is acknowledged at some point was handled before that point. */
  ghost predicate Safe(log: seq<Effect>) {
    forall i, d :: 0 <= i < |log| && log[i].Acked? && 0 <= d < log[i].upTo ==> Handled(log[..i], d)
  }

  lemma HandledGrows(log: seq<Effect>, more: seq<Effect>, d: nat)
    requires Handled(log, d)
    ensures Handled(log + more, d)
  {
    if FlushedAfter(log, d) {
      var i, j :| 0 <= i < j < |log| && log[i] == Published(d) && log[j] == Flushed;
      assert (log + more)[i] == Published(d) && (log + more)[j] == Flushed;
    }
  }

  lemma HandledByFlush(log: seq<Effect>, d: nat)
    requires Published(d) in log
    ensures Handled(log + [Flushed], d)
  {
    var i :| 0 <= i < |log| && log[i] == Published(d);
    assert (log + [Flushed])[i] == Published(d) && (log + [Flushed])[|log|] == Flushed;
  }

  lemma SafeStep(log: seq<Effect>, e: Effect)
    ensures Safe(log + [e]) <==> Safe(log) && (e.Acked? ==> forall d :: 0 <= d < e.upTo ==> Handled(log, d))
  {
    var more := log + [e];
    assert forall i :: 0 <= i <= |log| ==> more[..i] == log[..i];
    assert log[..|log|] == log;
    assert forall i :: 0 <= i < |log| ==> more[i] == log[i];
    if Safe(more) {
      forall i, d | 0 <= i < |log| && log[i].Acked? && 0 <= d < log[i].upTo ensures Handled(log[..i], d) {
        assert more[i] == log[i];
      }
      if e.Acked? {
        forall d | 0 <= d < e.upTo ensures Handled(log, d) {
          assert more[|log|] == e;
        }
      }
    }
  }

  /** A crash keeps the guarantee: every prefix of a safe log is safe. */
  lemma SafePrefix(log: seq<Effect>, k: nat)
    requires k <= |log| && Safe(log)
    ensures Safe(log[..k])
  {
    forall i, d | 0 <= i < k && log[..k][i].Acked? && 0 <= d < log[..k][i].upTo ensures Handled(log[..k][..i], d) {
      assert log[..k][..i] == log[..i];
    }
  }

  // ---------- the loop ----------

  function Limit(cfg: Config): nat {
    if cfg.maxRecords > 1 then cfg.maxRecords else 1
  }

  function CountPublished(log: seq<Effect>): nat {
    if log == [] then 0 else CountPublished(log[..|log| - 1]) + (if log[|log| - 1].Published? then 1 else 0)
  }

  lemma {:induction false} CountSnoc(log: seq<Effect>, e: Effect)
    ensures CountPublished(log + [e]) == CountPublished(log) + (if e.Published? then 1 else 0)
  {
    assert (log + [e])[..|log|] == log;
  }

  ghost predicate Settled(log: seq<Effect>, d: nat) {
    Dropped(d) in log || DeadLettered(d) in log || Published(d) in log
  }

  /** The effect speaks of the first `n` deliveries only. */
  predicate About(e: Effect, n: nat) {
    match e
    case Dropped(d) => d < n
    case DeadLettered(d) => d < n
    case Published(d) => d < n
    case Acked(u) => u <= n
    case _ => true
  }

  /** The loop's invariant after `n` deliveries that have all been dealt with. */
  ghost predicate LoopInv(log: seq<Effect>, n: nat, pending: nat, written: nat) {
    && Safe(log)
    && (forall d :: 0 <= d < n ==> Settled(log, d))
    && (pending == 0 ==> forall d :: 0 <= d < n ==> Handled(log, d))
    && (forall i :: 0 <= i < |log| ==> About(log[i], n))
    && written == CountPublished(log)
  }

  ghost predicate HeadsBounded(log: seq<Effect>, limit: nat) {
    forall i :: 0 <= i < |log| && log[i].LoopHead? ==> log[i].pending < limit
  }

  lemma SettledFlushes(log: seq<Effect>, d: nat)
    requires Settled(log, d)
    ensures Handled(log + [Flushed], d)
  {
    if Published(d) in log {
      HandledByFlush(log, d);
    } else {
      HandledGrows(log, [Flushed], d);
    }
  }

  lemma AfterHead(log: seq<Effect>, n: nat, pending: nat, written: nat)
    requires LoopInv(log, n, pending, written)
    ensures LoopInv(log + [LoopHead(pending)], n, pending, written)
  {
    var e := LoopHead(pending);
    SafeStep(log, e);
    CountSnoc(log, e);
    forall d: nat | d < n ensures Settled(log + [e], d) && (Handled(log, d) ==> Handled(log + [e], d)) {
      StillSettled(log, e, d);
    }
    AboutStep(log, e, n);
  }

  lemma AboutStep(log: seq<Effect>, e: Effect, n: nat)
    requires (forall i :: 0 <= i < |log| ==> About(log[i], n)) && About(e, n)
    ensures forall i :: 0 <= i < |log + [e]| ==> About((log + [e])[i], n)
  {
    forall i | 0 <= i < |log| ensures (log + [e])[i] == log[i] {}
  }

  lemma StillSettled(log: seq<Effect>, e: Effect, d: nat)
    ensures Settled(log, d) ==> Settled(log + [e], d)
    ensures Handled(log, d) ==> Handled(log + [e], d)
  {
    if Handled(log, d) {
      HandledGrows(log, [e], d);
    }
  }

  /** Delivery `n` is settled by `e`: dropped, dead-lettered or published. */
  lemma AfterSettling(log: seq<Effect>, n: nat, pending: nat, written: nat, e: Effect)
    requires LoopInv(log, n, pending, written)
    requires e == Dropped(n) || e == DeadLettered(n) || e == Published(n)
    ensures LoopInv(log + [e], n + 1, if e.Published? then pending + 1 else pending, if e.Published? then written + 1 else written)
  {
    SafeStep(log, e);
    CountSnoc(log, e);
    var more := log + [e];
    assert more[|log|] == e && e in more;
    forall d | 0 <= d < n && Handled(log, d) ensures Handled(more, d) {
      HandledGrows(log, [e], d);
    }
    forall d | 0 <= d < n ensures Settled(more, d) {
      assert Settled(log, d);
    }
    forall i | 0 <= i < |more| ensures About(more[i], n + 1) {
      assert i < |log| ==> About(log[i], n);
    }
  }

  lemma AfterFlush(log: seq<Effect>, n: nat, pending: nat, written: nat)
    requires LoopInv(log, n, pending, written)
    ensures LoopInv(log + [Flushed], n, 0, written)
  {
    SafeStep(log, Flushed);
    CountSnoc(log, Flushed);
    forall d | 0 <= d < n ensures Settled(log + [Flushed], d) && Handled(log + [Flushed], d) {
      assert Settled(log, d);
      SettledFlushes(log, d);
    }
  }

  lemma AfterAck(log: seq<Effect>, n: nat, written: nat, u: nat)
    requires LoopInv(log, n, 0, written) && u <= n
    ensures LoopInv(log + [Acked(u)], n, 0, written)
  {
    SafeStep(log, Acked(u));
    CountSnoc(log, Acked(u));
    forall d | 0 <= d < n ensures Settled(log + [Acked(u)], d) && Handled(log + [Acked(u)], d) {
      assert Settled(log, d);
      HandledGrows(log, [Acked(u)], d);
    }
  }

  // ---------- the log tells what happened ----------

  /** Deliveries made so far. */
  function Delivered(log: seq<Effect>): nat {
    if log == [] then 0 else Delivered(log[..|log| - 1]) + (if log[|log| - 1].LoopHead? then 1 else 0)
  }

  /** Publishes since the last flush. */
  function Unflushed(log: seq<Effect>): nat {
    if log == [] then 0
    else
      match log[|log| - 1]
      case Flushed => 0
      case Published(_) => Unflushed(log[..|log| - 1]) + 1
      case _ => Unflushed(log[..|log| - 1])
  }

  predicate AsOnTape(cfg: Config, tape: seq<Turn>, e: Effect) {
    match e
    case Dropped(d) => d < |tape| && tape[d].transformed.Discarded?
    case DeadLettered(d) => d < |tape| && tape[d].transformed.Raised? && cfg.dlq
    case Published(d) => d < |tape| && tape[d].transformed.Kept? && tape[d].publishOk
    case _ => true
  }

  predicate AllCommit(tape: seq<Turn>) {
    forall d :: 0 <= d < |tape| ==> tape[d].commit.Committed?
  }

  /** The loop heads report the publishes not yet flushed, and a flush is followed by its commit. */
  ghost predicate Truthful(cfg: Config, tape: seq<Turn>, log: seq<Effect>) {
    && (forall i :: 0 <= i < |log| ==> AsOnTape(cfg, tape, log[i]))
    && (forall i :: 0 <= i < |log| && log[i].LoopHead? ==> log[i].pending == Unflushed(log[..i]))
    && (cfg.afterFlush && AllCommit(tape) ==>
          forall i :: 0 <= i < |log| && log[i].Flushed? ==> i + 1 < |log| && log[i + 1] == Acked(Delivered(log[..i])))
  }

  lemma {:induction false} CountsStep(log: seq<Effect>, e: Effect)
    ensures Delivered(log + [e]) == Delivered(log) + (if e.LoopHead? then 1 else 0)
    ensures Unflushed(log + [e]) == if e.Flushed? then 0 else Unflushed(log) + (if e.Published? then 1 else 0)
  {
    assert (log + [e])[..|log|] == log;
  }

  lemma {:induction false} TruthfulStep(cfg: Config, tape: seq<Turn>, log: seq<Effect>, e: Effect)
    requires Truthful(cfg, tape, log) && AsOnTape(cfg, tape, e) && !e.Flushed?
    requires e.LoopHead? ==> e.pending == Unflushed(log)
    ensures Truthful(cfg, tape, log + [e])
  {
    var more := log + [e];
    forall i | 0 <= i <= |log| ensures more[..i] == log[..i] {}
    forall i | 0 <= i < |log| ensures more[i] == log[i] {}
    assert log[..|log|] == log;
  }

  lemma TruthfulLoneFlush(cfg: Config, tape: seq<Turn>, log: seq<Effect>)
    requires Truthful(cfg, tape, log) && !(cfg.afterFlush && AllCommit(tape))
    ensures Truthful(cfg, tape, log + [Flushed])
  {
    var more := log + [Flushed];
    forall i | 0 <= i <= |log| ensures more[..i] == log[..i] {}
    forall i | 0 <= i < |log| ensures more[i] == log[i] {}
  }

  lemma {:induction false} TruthfulPair(cfg: Config, tape: seq<Turn>, log: seq<Effect>, u: nat)
    requires Truthful(cfg, tape, log) && (AllCommit(tape) ==> u == Delivered(log))
    ensures Truthful(cfg, tape, log + [Flushed, Acked(u)])
  {
    var more := log + [Flushed, Acked(u)];
    forall i | 0 <= i <= |log| ensures more[..i] == log[..i] {}
    forall i | 0 <= i < |log| ensures more[i] == log[i] {}
    assert log[..|log|] == log;
    assert more[|log|] == Flushed && more[|log| + 1] == Acked(u);
  }

  function AckedBy(c: Commit, n: nat): nat {
    match c
    case Committed => n
    case Unsupported => 0
    case FailsAfter(k) => if k < n then k else n
  }

  /** What a flush and commit after `n` deliveries appends to the log. */
  function FlushEffects(cfg: Config, n: nat, flushOk: bool, commit: Commit): seq<Effect> {
    if !flushOk then []
    else if !cfg.afterFlush || commit.Unsupported? then [Flushed]
    else [Flushed, Acked(AckedBy(commit, n))]
  }

  function FlushExit(cfg: Config, flushOk: bool, commit: Commit): Exit {
    if !flushOk then FlushRaised
    else if cfg.afterFlush && commit.FailsAfter? then CommitRaised
    else Finished
  }

  /** `_flush_and_commit`. */
  method FlushAndCommit(cfg: Config, n: nat, flushOk: bool, commit: Commit)
    returns (effects: seq<Effect>, exit: Exit)
    ensures effects == FlushEffects(cfg, n, flushOk, commit) && exit == FlushExit(cfg, flushOk, commit)
  {
    if !flushOk {
      return [], FlushRaised;
    }
    effects := [Flushed];
    exit := Finished;
    if cfg.afterFlush {
      if !commit.Unsupported? {
        effects := effects + [Acked(AckedBy(commit, n))];
      }
      if commit.FailsAfter? {
        exit := CommitRaised;
      }
    }
  }

  /**
   A flush that works settles everything published before it, and only then may an
   acknowledgement follow, of deliveries made and only under `after_sink_flush`: on a log whose
   deliveries are all dealt with, a flush and commit is safe and leaves nothing unflushed.
   */
  lemma {:induction false} FlushBeforeAck(cfg: Config, log: seq<Effect>, n: nat, pending: nat, written: nat, flushOk: bool, commit: Commit)
    requires LoopInv(log, n, pending, written)
    ensures var more := log + FlushEffects(cfg, n, flushOk, commit);
            && Safe(more)
            && (flushOk ==> Unflushed(more) == 0 && forall d: nat :: d < n ==> Handled(more, d))
            && (FurthestAck(more) > FurthestAck(log) ==> flushOk && cfg.afterFlush && FurthestAck(more) <= n)
  {
    var effects := FlushEffects(cfg, n, flushOk, commit);
    FlushKeeps(log, n, pending, written, effects, cfg, flushOk, commit);
    CountsStep(log, Flushed);
    if !flushOk {
      assert log + effects == log;
    } else {
      AckStep(log, Flushed);
      if |effects| == 2 {
        assert log + effects == log + [Flushed] + [effects[1]];
        CountsStep(log + [Flushed], effects[1]);
        AckStep(log + [Flushed], effects[1]);
      }
    }
  }

  lemma {:induction false} AckStep(log: seq<Effect>, e: Effect)
    ensures FurthestAck(log + [e]) == if e.Acked? && e.upTo > FurthestAck(log) then e.upTo else FurthestAck(log)
  {
    assert (log + [e])[..|log|] == log;
  }

  /** What the loop keeps: `n` deliveries made, the first `settled` of them dealt with. */
  ghost predicate Inv(cfg: Config, tape: seq<Turn>, log: seq<Effect>, settled: nat, n: nat, pending: nat, written: nat) {
    && LoopInv(log, settled, pending, written) && HeadsBounded(log, Limit(cfg))
    && Truthful(cfg, tape, log) && pending == Unflushed(log) && n == Delivered(log)
  }

  lemma HeadStep(cfg: Config, tape: seq<Turn>, log: seq<Effect>, n: nat, pending: nat, written: nat)
    requires Inv(cfg, tape, log, n, n, pending, written) && pending < Limit(cfg)
    ensures Inv(cfg, tape, log + [LoopHead(pending)], n, n + 1, pending, written)
  {
    AfterHead(log, n, pending, written);
    TruthfulStep(cfg, tape, log, LoopHead(pending));
    CountsStep(log, LoopHead(pending));
  }

  lemma SettleStep(cfg: Config, tape: seq<Turn>, log: seq<Effect>, n: nat, pending: nat, written: nat, e: Effect)
    requires Inv(cfg, tape, log, n, n + 1, pending, written) && AsOnTape(cfg, tape, e)
    requires e == Dropped(n) || e == DeadLettered(n) || e == Published(n)
    ensures var k := if e.Published? then 1 else 0;
            Inv(cfg, tape, log + [e], n + 1, n + 1, pending + k, written + k)
  {
    AfterSettling(log, n, pending, written, e);
    TruthfulStep(cfg, tape, log, e);
    CountsStep(log, e);
  }

  lemma FlushStep(cfg: Config, tape: seq<Turn>, log: seq<Effect>, n: nat, pending: nat, written: nat,
                  effects: seq<Effect>, flushOk: bool, commit: Commit)
    requires Inv(cfg, tape, log, n, n, pending, written) && (AllCommit(tape) ==> commit.Committed?)
    requires effects == FlushEffects(cfg, n, flushOk, commit)
    ensures Inv(cfg, tape, log + effects, n, n, if flushOk then 0 else pending, written)
  {
    FlushKeeps(log, n, pending, written, effects, cfg, flushOk, commit);
    CountsStep(log, Flushed);
    if !flushOk {
      assert log + effects == log;
    } else if |effects| == 1 {
      TruthfulLoneFlush(cfg, tape, log);
    } else {
      TruthfulPair(cfg, tape, log, AckedBy(commit, n));
      CountsStep(log + [Flushed], effects[1]);
      assert log + effects == log + [Flushed] + [effects[1]];
    }
  }

  /** The delivery in hand when a transform or a publish raised out of the loop. */
  predicate InHand(exit: Exit) {
    exit.TransformRaised? || exit.PublishRaised?
  }

  // ---------- the loop as a function of its tape ----------

  datatype Loop = Loop(log: seq<Effect>, n: nat, pending: nat, written: nat, exit: Exit, running: bool)

  const START := Loop([], 0, 0, 0, Finished, true)

  /** One delivery transformed and published, dead-lettered, dropped, or raising out of the loop. */
  function Dealt(cfg: Config, s: Loop, t: Turn): Loop {
    var head := s.log + [LoopHead(s.pending)];
    match t.transformed
    case Raised =>
      if cfg.dlq then Loop(head + [DeadLettered(s.n)], s.n + 1, s.pending, s.written, Finished, true)
      else Loop(head, s.n + 1, s.pending, s.written, TransformRaised, false)
    case Discarded => Loop(head + [Dropped(s.n)], s.n + 1, s.pending, s.written, Finished, true)
    case Kept =>
      if t.publishOk then Loop(head + [Published(s.n)], s.n + 1, s.pending + 1, s.written + 1, Finished, true)
      else Loop(head, s.n + 1, s.pending, s.written, PublishRaised, false)
  }

  predicate FlushDue(cfg: Config, pending: nat, t: Turn) {
    pending >= cfg.maxRecords || t.timer
  }

  /** The flush and stop checks behind a delivery that was dropped or published. */
  function Checked(cfg: Config, s: Loop, t: Turn): Loop {
    if FlushDue(cfg, s.pending, t) then
      var exit := FlushExit(cfg, t.flushOk, t.commit);
      Loop(s.log + FlushEffects(cfg, s.n, t.flushOk, t.commit), s.n, if t.flushOk then 0 else s.pending, s.written,
           exit, exit.Finished? && !t.stop)
    else s.(running := !t.stop)
  }

  function TakeTurn(cfg: Config, s: Loop, t: Turn): Loop {
    var d := Dealt(cfg, s, t);
    if d.running && !t.transformed.Raised? then Checked(cfg, d, t) else d
  }

  /** The loop after at most `k` deliveries. */
  function After(cfg: Config, tape: seq<Turn>, k: nat): Loop
    requires k <= |tape|
  {
    if k == 0 then START
    else
      var s := After(cfg, tape, k - 1);
      if s.running then TakeTurn(cfg, s, tape[k - 1]) else s
  }

  function LoopEnd(cfg: Config, tape: seq<Turn>): Loop {
    After(cfg, tape, |tape|)
  }

  /** A whole session: the loop, and the `finally` block when publishes are pending. */
  function SessionOf(cfg: Config, tape: seq<Turn>, sourceRaises: bool, finalFlush: bool, finalCommit: Commit): Session {
    var s := LoopEnd(cfg, tape);
    Session(s.log, if s.pending > 0 then FlushEffects(cfg, s.n, finalFlush, finalCommit) else [], s.n, s.written,
            if s.running && sourceRaises then SourceRaised else s.exit, s.pending)
  }

  function FullLog(s: Session): seq<Effect> {
    s.body + s.tail
  }

  /** Transforming and publishing one delivery. */
  method DealWith(cfg: Config, s: Loop, turn: Turn) returns (r: Loop)
    ensures r == Dealt(cfg, s, turn)
  {
    var log, pending, written, exit := s.log + [LoopHead(s.pending)], s.pending, s.written, Finished;
    match turn.transformed {
      case Raised =>
        if cfg.dlq {
          log := log + [DeadLettered(s.n)];
        } else {
          exit := TransformRaised;
        }
      case Discarded =>
        log := log + [Dropped(s.n)];
      case Kept =>
        if turn.publishOk {
          log := log + [Published(s.n)];
          written, pending := written + 1, pending + 1;
        } else {
          exit := PublishRaised;
        }
    }
    return Loop(log, s.n + 1, pending, written, exit, exit.Finished?);
  }

  /** `_arun_stream_task`: a loop over the deliveries and a `finally` block. */
  method ArunStreamTask(cfg: Config, tape: seq<Turn>, sourceRaises: bool, finalFlush: bool, finalCommit: Commit)
    returns (s: Session)
    ensures s == SessionOf(cfg, tape, sourceRaises, finalFlush, finalCommit)
  {
    var r := START;
    var k := 0;
    while r.running && k < |tape|
      invariant k <= |tape| && r == After(cfg, tape, k)
      decreases |tape| - k, r.running
    {
      var turn := tape[k];
      r := DealWith(cfg, r, turn);
      if r.running && !turn.transformed.Raised? {
        if r.pending >= cfg.maxRecords || turn.timer {
          var effects, exit := FlushAndCommit(cfg, r.n, turn.flushOk, turn.commit);
          var pending := if turn.flushOk then 0 else r.pending;
          r := r.(log := r.log + effects, pending := pending, exit := exit, running := exit.Finished?);
        }
        r := r.(running := r.running && !turn.stop);
      }
      k := k + 1;
    }
    StaysEnded(cfg, tape, k);
    var exit := if r.running && sourceRaises then SourceRaised else r.exit;
    var tail: seq<Effect> := [];
    if r.pending > 0 {
      var effects, _ := FlushAndCommit(cfg, r.n, finalFlush, finalCommit);
      tail := effects;
    }
    s := Session(r.log, tail, r.n, r.written, exit, r.pending);
  }

  lemma {:induction false} StaysEnded(cfg: Config, tape: seq<Turn>, k: nat)
    requires k <= |tape| && (k < |tape| ==> !After(cfg, tape, k).running)
    ensures LoopEnd(cfg, tape) == After(cfg, tape, k)
    decreases |tape| - k
  {
    if k < |tape| {
      StaysEnded(cfg, tape, k + 1);
    }
  }

  // ---------- what the loop keeps ----------

  /** Deliveries dealt with: all but one that raised out of the loop. */
  function Done(s: Loop): int {
    if InHand(s.exit) then s.n - 1 else s.n
  }

  ghost predicate LoopOk(cfg: Config, tape: seq<Turn>, s: Loop) {
    && 0 <= Done(s) && Inv(cfg, tape, s.log, Done(s), s.n, s.pending, s.written)
    && s.pending <= Limit(cfg) && (s.running || InHand(s.exit) ==> s.pending < Limit(cfg))
    && (s.running ==> s.exit.Finished?) && !s.exit.SourceRaised?
  }

  lemma DealtKeeps(cfg: Config, tape: seq<Turn>, s: Loop)
    requires LoopOk(cfg, tape, s) && s.running && s.n < |tape|
    ensures var d := Dealt(cfg, s, tape[s.n]);
            && 0 <= Done(d) && Inv(cfg, tape, d.log, Done(d), d.n, d.pending, d.written)
  {
    HeadStep(cfg, tape, s.log, s.n, s.pending, s.written);
    var head, t := s.log + [LoopHead(s.pending)], tape[s.n];
    match t.transformed {
      case Raised =>
        if cfg.dlq {
          SettleStep(cfg, tape, head, s.n, s.pending, s.written, DeadLettered(s.n));
        }
      case Discarded =>
        SettleStep(cfg, tape, head, s.n, s.pending, s.written, Dropped(s.n));
      case Kept =>
        if t.publishOk {
          SettleStep(cfg, tape, head, s.n, s.pending, s.written, Published(s.n));
        }
    }
  }

  lemma TurnKeeps(cfg: Config, tape: seq<Turn>, s: Loop)
    requires LoopOk(cfg, tape, s) && s.running && s.n < |tape|
    ensures LoopOk(cfg, tape, TakeTurn(cfg, s, tape[s.n])) && TakeTurn(cfg, s, tape[s.n]).n == s.n + 1
  {
    DealtKeeps(cfg, tape, s);
    var t, d := tape[s.n], Dealt(cfg, s, tape[s.n]);
    if d.running && !t.transformed.Raised? && FlushDue(cfg, d.pending, t) {
      FlushStep(cfg, tape, d.log, d.n, d.pending, d.written, FlushEffects(cfg, d.n, t.flushOk, t.commit), t.flushOk, t.commit);
    }
  }

  lemma {:induction false} LoopKeeps(cfg: Config, tape: seq<Turn>, k: nat)
    requires k <= |tape|
    ensures LoopOk(cfg, tape, After(cfg, tape, k)) && After(cfg, tape, k).n <= k
    ensures After(cfg, tape, k).running ==> After(cfg, tape, k).n == k
    decreases k
  {
    if k > 0 {
      LoopKeeps(cfg, tape, k - 1);
      if After(cfg, tape, k - 1).running {
        TurnKeeps(cfg, tape, After(cfg, tape, k - 1));
      }
    }
  }

  /**
   Every point of the loop is safe, pending publishes stay below the limit at every loop head, the
   log tells the truth about the deliveries, all of them but one in hand are dealt with, and the
   counters agree with the log.
   */
  lemma LoopSafe(cfg: Config, tape: seq<Turn>, sourceRaises: bool, finalFlush: bool, finalCommit: Commit)
    ensures var s := SessionOf(cfg, tape, sourceRaises, finalFlush, finalCommit);
            && Safe(s.body) && HeadsBounded(s.body, Limit(cfg)) && Truthful(cfg, tape, s.body)
            && s.read == Delivered(s.body) <= |tape|
            && s.written == CountPublished(s.body) && s.pending == Unflushed(s.body)
            && forall d: nat :: d < (if InHand(s.exit) then s.read - 1 else s.read) ==> Settled(s.body, d)
  {
    LoopKeeps(cfg, tape, |tape|);
  }

  /** Flushing and committing after all deliveries are settled keeps the invariant. */
  lemma FlushKeeps(log: seq<Effect>, n: nat, pending: nat, written: nat, effects: seq<Effect>,
                   cfg: Config, flushOk: bool, commit: Commit)
    requires LoopInv(log, n, pending, written)
    requires effects == FlushEffects(cfg, n, flushOk, commit)
    ensures LoopInv(log + effects, n, if flushOk then 0 else pending, written)
    ensures forall e :: e in effects ==> !e.LoopHead?
  {
    if !flushOk {
      assert log + effects == log;
    } else {
      AfterFlush(log, n, pending, written);
      if |effects| == 2 {
        AfterAck(log + [Flushed], n, written, AckedBy(commit, n));
        assert log + effects == log + [Flushed] + [Acked(AckedBy(commit, n))];
      }
    }
  }

  lemma UnsettledUnhandled(log: seq<Effect>, n: nat, more: seq<Effect>)
    requires forall i :: 0 <= i < |log| ==> About(log[i], n)
    requires forall e :: e in more ==> e == Flushed
    ensures !Handled(log + more, n)
  {
    forall i | 0 <= i < |log + more| ensures (log + more)[i] != Published(n) && (log + more)[i] != Dropped(n)
                                             && (log + more)[i] != DeadLettered(n) {
      assert i < |log| ==> About(log[i], n);
      assert i >= |log| ==> (log + more)[i] in more;
    }
  }

  /** The `finally` block, after `settled` of the session's deliveries were dealt with. */
  lemma TailSafe(cfg: Config, body: seq<Effect>, settled: nat, read: nat, pending: nat, written: nat, finalFlush: bool, finalCommit: Commit)
    requires LoopInv(body, settled, pending, written) && settled <= read <= settled + 1
    ensures Safe(body + FlushEffects(cfg, read, finalFlush, finalCommit)) <==>
            !(cfg.afterFlush && finalFlush && AckedBy(finalCommit, read) > settled)
  {
    var tail := FlushEffects(cfg, read, finalFlush, finalCommit);
    if tail == [] {
      assert body + tail == body;
    } else {
      AfterFlush(body, settled, pending, written);
      if |tail| == 2 {
        var u := AckedBy(finalCommit, read);
        SafeStep(body + [Flushed], Acked(u));
        assert body + tail == body + [Flushed] + [Acked(u)];
        if u > settled {
          UnsettledUnhandled(body, settled, [Flushed]);
        }
      } else {
        assert body + tail == body + [Flushed];
      }
    }
  }

  // ---------- when a session commits too much ----------

  /** The turn raises out of the loop: a transform without a dead-letter queue, or a publish. */
  predicate RaisesOut(cfg: Config, t: Turn) {
    (t.transformed.Raised? && !cfg.dlq) || (t.transformed.Kept? && !t.publishOk)
  }

  /** Publishes not flushed before delivery `d`, on a tape whose earlier turns all go on. */
  function PendingAt(cfg: Config, tape: seq<Turn>, d: nat): nat
    requires d <= |tape|
  {
    if d == 0 then 0
    else
      var t := tape[d - 1];
      var p := PendingAt(cfg, tape, d - 1) + (if t.transformed.Kept? then 1 else 0);
      if !t.transformed.Raised? && FlushDue(cfg, p, t) then 0 else p
  }

  /** The turn neither raises nor stops the loop, and its flush and commit, if due, succeed. */
  predicate GoesOn(cfg: Config, tape: seq<Turn>, d: nat)
    requires d < |tape|
  {
    var t := tape[d];
    var p := PendingAt(cfg, tape, d) + (if t.transformed.Kept? then 1 else 0);
    && !RaisesOut(cfg, t)
    && (!t.transformed.Raised? ==> !t.stop && (FlushDue(cfg, p, t) ==> FlushExit(cfg, t.flushOk, t.commit).Finished?))
  }

  /** Delivery `d` raises out of the loop while publishes are pending. */
  predicate LosesAt(cfg: Config, tape: seq<Turn>, d: nat) {
    && d < |tape| && RaisesOut(cfg, tape[d]) && PendingAt(cfg, tape, d) > 0
    && forall h: nat :: h < d ==> GoesOn(cfg, tape, h)
  }

  /** The `finally` block acknowledges delivery `d` with everything before it. */
  predicate CommitsAll(cfg: Config, d: nat, finalFlush: bool, finalCommit: Commit) {
    cfg.afterFlush && finalFlush && AckedBy(finalCommit, d + 1) == d + 1
  }

  lemma TurnGoesOn(cfg: Config, tape: seq<Turn>, s: Loop, d: nat)
    requires d < |tape| && s.pending == PendingAt(cfg, tape, d)
    ensures var r := TakeTurn(cfg, s, tape[d]);
            (r.running <==> GoesOn(cfg, tape, d)) && (r.running ==> r.pending == PendingAt(cfg, tape, d + 1))
  {
  }

  lemma {:induction false} GoingOn(cfg: Config, tape: seq<Turn>, k: nat)
    requires k <= |tape|
    ensures After(cfg, tape, k).running <==> forall h: nat :: h < k ==> GoesOn(cfg, tape, h)
    ensures After(cfg, tape, k).running ==> After(cfg, tape, k).pending == PendingAt(cfg, tape, k)
    decreases k
  {
    if k > 0 {
      GoingOn(cfg, tape, k - 1);
      var s := After(cfg, tape, k - 1);
      if s.running {
        TurnGoesOn(cfg, tape, s, k - 1);
        assert After(cfg, tape, k).running <==> GoesOn(cfg, tape, k - 1);
      } else {
        var h: nat :| h < k - 1 && !GoesOn(cfg, tape, h);
      }
    }
  }

  lemma TurnInHand(cfg: Config, s: Loop, t: Turn)
    ensures InHand(TakeTurn(cfg, s, t).exit) <==> RaisesOut(cfg, t)
    ensures RaisesOut(cfg, t) ==> TakeTurn(cfg, s, t).pending == s.pending
    ensures TakeTurn(cfg, s, t).n == s.n + 1
  {
  }

  /** The loop ends with a record in hand and publishes pending exactly at a losing delivery. */
  lemma {:induction false} EndsInHand(cfg: Config, tape: seq<Turn>, k: nat, d: nat)
    requires k <= |tape|
    ensures var s := After(cfg, tape, k);
            InHand(s.exit) && s.pending > 0 && s.n == d + 1 <==> d < k && LosesAt(cfg, tape, d)
    decreases k
  {
    if k > 0 {
      EndsInHand(cfg, tape, k - 1, d);
      GoingOn(cfg, tape, k - 1);
      LoopKeeps(cfg, tape, k - 1);
      var s, s' := After(cfg, tape, k - 1), After(cfg, tape, k);
      if s.running {
        TurnInHand(cfg, s, tape[k - 1]);
        if d == k - 1 {
          assert LosesAt(cfg, tape, d) <==> RaisesOut(cfg, tape[d]) && PendingAt(cfg, tape, d) > 0;
          assert LosesAt(cfg, tape, d) <==> InHand(s'.exit) && s'.pending > 0;
        } else if d < k - 1 {
          assert GoesOn(cfg, tape, d);
          assert !LosesAt(cfg, tape, d);
        }
      } else {
        assert s' == s;
        if d == k - 1 {
          assert !LosesAt(cfg, tape, d);
        }
      }
    }
  }

  /** A session is safe exactly when no delivery raises out over pending publishes that the `finally` block then commits. */
  lemma SessionSafeIff(cfg: Config, tape: seq<Turn>, sourceRaises: bool, finalFlush: bool, finalCommit: Commit)
    ensures Safe(FullLog(SessionOf(cfg, tape, sourceRaises, finalFlush, finalCommit))) <==>
            !exists d :: LosesAt(cfg, tape, d) && CommitsAll(cfg, d, finalFlush, finalCommit)
  {
    var s := LoopEnd(cfg, tape);
    LoopKeeps(cfg, tape, |tape|);
    forall d: nat ensures InHand(s.exit) && s.pending > 0 && s.n == d + 1 <==> LosesAt(cfg, tape, d) {
      EndsInHand(cfg, tape, |tape|, d);
    }
    if s.pending > 0 {
      TailSafe(cfg, s.log, Done(s), s.n, s.pending, s.written, finalFlush, finalCommit);
      if InHand(s.exit) {
        assert LosesAt(cfg, tape, s.n - 1);
      }
    } else {
      assert s.log + [] == s.log;
    }
  }

  /** The shortest tape that loses: one record published and not flushed, the next publish raises. */
  function LosingTape(): seq<Turn> {
    [Turn(Kept, true, false, true, Committed, false), Turn(Kept, false, false, true, Committed, false)]
  }

  /**
   Every session of a configuration is safe, whatever is delivered and however it ends, exactly
   when nothing is committed after flushes or every publish is flushed at once.
   */
  lemma ConfigSafeIff(cfg: Config)
    ensures (forall tape, sourceRaises, finalFlush, finalCommit ::
               Safe(FullLog(SessionOf(cfg, tape, sourceRaises, finalFlush, finalCommit))))
            <==> !cfg.afterFlush || cfg.maxRecords <= 1
  {
    if !cfg.afterFlush || cfg.maxRecords <= 1 {
      forall tape, sourceRaises, finalFlush, finalCommit
        ensures Safe(FullLog(SessionOf(cfg, tape, sourceRaises, finalFlush, finalCommit)))
      {
        SessionSafeIff(cfg, tape, sourceRaises, finalFlush, finalCommit);
        forall d | LosesAt(cfg, tape, d) ensures !cfg.afterFlush {
          EndsInHand(cfg, tape, |tape|, d);
          LoopKeeps(cfg, tape, |tape|);
        }
      }
    } else {
      OvercommitLoses(cfg);
    }
  }

  /** With room for two pending publishes that tape loses its second record, with or without a dead-letter queue. */
  lemma OvercommitLoses(cfg: Config)
    requires cfg.afterFlush && cfg.maxRecords > 1
    ensures !Safe(FullLog(SessionOf(cfg, LosingTape(), false, true, Committed)))
  {
    var tape := LosingTape();
    assert PendingAt(cfg, tape, 0) == 0 && GoesOn(cfg, tape, 0);
    assert LosesAt(cfg, tape, 1) && CommitsAll(cfg, 1, true, Committed);
    SessionSafeIff(cfg, tape, false, true, Committed);
  }

  // ---------- restarts ----------

  /** The furthest acknowledgement of a session. */
  function FurthestAck(log: seq<Effect>): nat {
    if log == [] then 0
    else
      var before, e := FurthestAck(log[..|log| - 1]), log[|log| - 1];
      if e.Acked? && e.upTo > before then e.upTo else before
  }

  lemma {:induction false} FurthestIsHandled(log: seq<Effect>, d: nat)
    requires Safe(log) && d < FurthestAck(log)
    ensures Handled(log, d)
  {
    var n := |log| - 1;
    SafePrefix(log, n);
    assert log[..n] + [log[n]] == log;
    if d < FurthestAck(log[..n]) {
      FurthestIsHandled(log[..n], d);
    }
    HandledGrows(log[..n], [log[n]], d);
  }

  /** Where the source stands after the sessions: each one starts at the position committed before it. */
  function Position(sessions: seq<seq<Effect>>): nat {
    if sessions == [] then 0
    else Position(sessions[..|sessions| - 1]) + FurthestAck(sessions[|sessions| - 1])
  }

  /** Some session delivered position `p` and handled it. */
  ghost predicate HandledAt(sessions: seq<seq<Effect>>, p: nat) {
    exists i :: 0 <= i < |sessions| && Position(sessions[..i]) <= p && Handled(sessions[i], p - Position(sessions[..i]))
  }

  lemma {:induction false} SafeSessionsHandle(sessions: seq<seq<Effect>>, p: nat)
    requires forall i :: 0 <= i < |sessions| ==> Safe(sessions[i])
    requires p < Position(sessions)
    ensures HandledAt(sessions, p)
  {
    var n := |sessions| - 1;
    if p < Position(sessions[..n]) {
      SafeSessionsHandle(sessions[..n], p);
      var i :| 0 <= i < n && Position(sessions[..n][..i]) <= p && Handled(sessions[..n][i], p - Position(sessions[..n][..i]));
      assert sessions[..n][..i] == sessions[..i];
    } else {
      FurthestIsHandled(sessions[n], p - Position(sessions[..n]));
    }
  }

  /** One process: its configuration, what it was delivered, how it would have ended, and where it was cut. */
  datatype Process = Process(cfg: Config, tape: seq<Turn>, sourceRaises: bool, finalFlush: bool, finalCommit: Commit, cut: nat)

  function WholeLog(p: Process): seq<Effect> {
    FullLog(SessionOf(p.cfg, p.tape, p.sourceRaises, p.finalFlush, p.finalCommit))
  }

  /** What the process got to do before it crashed, or everything when it did not. */
  function CutLog(p: Process): seq<Effect> {
    if p.cut < |WholeLog(p)| then WholeLog(p)[..p.cut] else WholeLog(p)
  }

  /** The process ran to its end and its `finally` block committed past the record in hand. */
  ghost predicate Overcommits(p: Process) {
    && p.cut >= |WholeLog(p)|
    && exists d :: LosesAt(p.cfg, p.tape, d) && CommitsAll(p.cfg, d, p.finalFlush, p.finalCommit)
  }

  function Logs(ps: seq<Process>): (r: seq<seq<Effect>>)
    ensures |r| == |ps| && forall i :: 0 <= i < |ps| ==> r[i] == CutLog(ps[i])
  {
    seq(|ps|, i requires 0 <= i < |ps| => CutLog(ps[i]))
  }

  /** Only the very last effect of a session can be unsafe: a crash before it keeps the guarantee. */
  lemma CutSafeIff(p: Process)
    ensures Safe(CutLog(p)) <==> !Overcommits(p)
  {
    SessionSafeIff(p.cfg, p.tape, p.sourceRaises, p.finalFlush, p.finalCommit);
    if p.cut < |WholeLog(p)| {
      var s, whole := LoopEnd(p.cfg, p.tape), WholeLog(p);
      LoopKeeps(p.cfg, p.tape, |p.tape|);
      var n := |whole| - 1;
      assert Safe(whole[..n]) by {
        var tail := whole[|s.log|..];
        if |tail| == 0 {
          assert whole == s.log;
          SafePrefix(whole, n);
        } else if |tail| == 1 {
          assert whole[..n] == s.log;
        } else {
          AfterFlush(s.log, Done(s), s.pending, s.written);
          assert whole[..n] == s.log + [Flushed];
        }
      }
      SafePrefix(whole[..n], p.cut);
      assert whole[..n][..p.cut] == whole[..p.cut];
    }
  }

  /**
   At least once over any number of processes, each cut anywhere or run to its end: every position
   before the committed one was dropped, dead-lettered, or published and flushed, unless some
   process overcommitted.
   */
  lemma AtLeastOnce(ps: seq<Process>, p: nat)
    requires forall i :: 0 <= i < |ps| ==> !Overcommits(ps[i])
    requires p < Position(Logs(ps))
    ensures HandledAt(Logs(ps), p)
  {
    forall i | 0 <= i < |ps| ensures Safe(Logs(ps)[i]) {
      CutSafeIff(ps[i]);
    }
    SafeSessionsHandle(Logs(ps), p);
  }
}
