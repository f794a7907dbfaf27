/** When a remote flush succeeds, told from its world: the push is taken exactly if the sink has not forgotten
  * an earlier one, and the events exactly if the network's answers are good enough.
  */
module RemoteAnswers {
  import opened Schema
  import opened Audit
  import opened Recorder
  import opened Coordination
  import opened Moves
  import opened Chain
  import opened OverflowObligation
  import opened Windows
  import opened Marks
  import opened Sessions
  import opened History
  import opened Remote
  import Batching
  import Delivery
  import Git
  import Http

  // ---------------------------------------------------------------- checkpoints grow

  /** Every checkpoint requested so far is `tip` or behind it, and behind every later one. */
  ghost predicate CheckpointsGrow(trace: seq<Step>, tip: Commit) {
    && (forall k :: 0 <= k < |trace| && trace[k].Requested? ==>
          trace[k].request.checkpoint.Some? && IsAncestor(trace[k].request.checkpoint.value, tip))
    && (forall j, k :: 0 <= j < k < |trace| && trace[j].Requested? && trace[k].Requested? ==>
          IsAncestor(trace[j].request.checkpoint.value, trace[k].request.checkpoint.value))
  }

  ghost predicate CheckpointsInv(s: Sys) {
    s.rec.op.Operation? && CheckpointsGrow(s.trace, s.rec.op.commit)
  }

  lemma QuietCheckpoints(trace: seq<Step>, x: Step, tip: Commit)
    requires CheckpointsGrow(trace, tip) && !x.Requested?
    ensures CheckpointsGrow(trace + [x], tip)
  {
    hide IsAncestor;
    var t := trace + [x];
    assert forall i :: 0 <= i < |trace| ==> t[i] == trace[i];
  }

  lemma RequestCheckpoint(trace: seq<Step>, x: Step, tip: Commit)
    requires CheckpointsGrow(trace, tip) && x.Requested? && x.request.checkpoint == Some(tip)
    ensures CheckpointsGrow(trace + [x], tip)
  {
    hide IsAncestor;
    Git.Reflexive(tip);
    var t := trace + [x];
    assert forall i :: 0 <= i < |trace| ==> t[i] == trace[i];
  }

  lemma LaterTip(trace: seq<Step>, tip: Commit, later: Commit)
    requires CheckpointsGrow(trace, tip) && IsAncestor(tip, later)
    ensures CheckpointsGrow(trace, later)
  {
    hide IsAncestor;
    forall k | 0 <= k < |trace| && trace[k].Requested? ensures IsAncestor(trace[k].request.checkpoint.value, later) {
      AncestorTransitive(trace[k].request.checkpoint.value, tip, later);
    }
  }

  lemma RecorderStands(s: Sys)
    requires ChainInv(s)
    ensures s.rec.op.Operation? && s.rec.commit == Some(s.rec.op.commit) && Consistent(s.rec)
  {
  }

  lemma MoveCheckpoints(s: Sys, m: Move)
    requires ChainInv(s) && Enabled(s, m) && CheckpointsInv(s)
    ensures CheckpointsInv(Do(s, m))
  {
    hide ChainInv, CheckpointsGrow, SnapshotOf, Captured, Merged, Notified, IsAncestor;
    var t := Do(s, m);
    match m
    case ArriveMove(n) => QuietCheckpoints(s.trace, Arrived(n, s.env.clock), s.rec.op.commit);
    case DrainMove => QuietCheckpoints(s.trace, Drained, s.rec.op.commit);
    case OverflowMove =>
      var n := s.c.overflows[0];
      QuietCheckpoints(s.trace, Accepted(NewEvent(s, Overflow(n.source, n.rawEvents)), Some(n.origin)), s.rec.op.commit);
    case AuditMove =>
      var body := TouchedPaths(s.c.touched, s.c.rawEvents, s.c.startedAt.value);
      QuietCheckpoints(s.trace, Accepted(NewEvent(s, body), None), s.rec.op.commit);
    case CaptureMove(tree) =>
      RecorderStands(s);
      CaptureLinks(s.rec, tree, s.c.maxChanges);
      CapturedOperation(s.rec, tree, s.c.maxChanges);
      LaterTip(s.trace, s.rec.op.commit, t.rec.op.commit);
      QuietCheckpoints(s.trace, Recorded(SnapshotOf(s.rec, tree, s.c.maxChanges).op, s.c.forceFull, s.env.clock),
                       t.rec.op.commit);
    case RetryMove => QuietCheckpoints(s.trace, Accepted(s.c.held.value, None), s.rec.op.commit);
    case PreparedMove => QuietCheckpoints(s.trace, Accepted(s.c.held.value, None), s.rec.op.commit);
    case PostMove(body) => QuietCheckpoints(s.trace, Accepted(NewEvent(s, body), None), s.rec.op.commit);
    case RequestMove(done) =>
      RecorderStands(s);
      RequestCheckpoint(s.trace, Requested(FlushRequest(s.c.seqNo - 1, s.rec.op, s.rec.commit), done), s.rec.op.commit);
    case _ =>
  }

  lemma CapturedOperation(r: RecorderState, tree: Tree, maxChanges: nat)
    ensures Captured(r, tree, maxChanges).op.Operation?
  {
  }

  lemma {:induction false} LeadsCheckpoints(careful: bool, s: Sys, ms: seq<Move>, t: Sys)
    requires Inv(s) && CheckpointsInv(s) && Leads(careful, s, ms, t)
    ensures CheckpointsInv(t)
    decreases ms
  {
    hide Window, ChainInv, DebtInv, WindowsInv, MarksInv, Enabled, Do, CheckpointsGrow;
    if ms != [] {
      MoveInv(s, ms[0]);
      MoveCheckpoints(s, ms[0]);
      LeadsCheckpoints(careful, Do(s, ms[0]), ms[1..], t);
    }
  }

  lemma FirstCheckpoints(session: string, maxChanges: nat, env: Env)
    requires Initialize(session, maxChanges, env).ok
    ensures CheckpointsInv(Initialize(session, maxChanges, env).s)
  {
    hide Initialize;
    InitialShape(session, maxChanges, env);
  }

  lemma {:induction false} RunCheckpoints(session: string, maxChanges: nat, env: Env, commands: seq<Command>)
    requires Initialize(session, maxChanges, env).ok
    ensures CheckpointsInv(Run(session, maxChanges, env, commands))
  {
    hide Inv, Initialize, Exec, Leads, CheckpointsGrow;
    if commands == [] {
      FirstCheckpoints(session, maxChanges, env);
    } else {
      var init, command := commands[..|commands| - 1], commands[|commands| - 1];
      RunCheckpoints(session, maxChanges, env, init);
      RunInv(session, maxChanges, env, init);
      var s := Run(session, maxChanges, env, init);
      var ms := ExecMoves(false, s, command);
      LeadsCheckpoints(false, s, ms, Exec(s, command).s);
    }
  }

  // ---------------------------------------------------------------- the ref's history in a session

  /** What the flush requests of a trace have the checkpoint sink do: restart, and publish if the journal can
    * be synced. */
  function GitSteps(trace: seq<Step>, worlds: nat -> FlushWorld): seq<Git.GitStep> {
    if trace == [] then []
    else
      var n := |trace| - 1;
      var before := GitSteps(trace[..n], worlds);
      if trace[n].Requested? && trace[n].request.checkpoint.Some? then
        Restarts(before, worlds(n))
        + if worlds(n).journalOk then [Git.PublishStep(trace[n].request.checkpoint.value, worlds(n).publish)] else []
      else before
  }

  function Restarts(steps: seq<Git.GitStep>, w: FlushWorld): seq<Git.GitStep> {
    if w.restarted then steps + [Git.RestartStep] else steps
  }

  lemma StepAppend(g: Git.GitState, steps: seq<Git.GitStep>, x: Git.GitStep)
    ensures Git.AfterAll(g, steps + [x]) == Git.After(Git.AfterAll(g, steps), x)
  {
    assert (steps + [x])[..|steps|] == steps;
  }

  /** The ref after a flush of a covered journal. */
  lemma FlushGit(r: RemoteState, journal: seq<Event>, request: FlushRequest, w: FlushWorld, cfg: Http.Config)
    requires RequestCovers(journal, request) && Contiguous(journal)
    ensures Remote.Flush(r, journal, request, w, cfg).0.git
            == if w.journalOk then Git.Publish(r.git, request.checkpoint.value, w.publish).0 else r.git
  {
    hide Http.PublishEvents, Git.Publish, CommitsBelow;
  }

  /** What one request has the checkpoint sink do. */
  function StepsFor(steps: seq<Git.GitStep>, request: FlushRequest, w: FlushWorld): seq<Git.GitStep>
    requires request.checkpoint.Some?
  {
    if w.journalOk then Restarts(steps, w) + [Git.PublishStep(request.checkpoint.value, w.publish)] else Restarts(steps, w)
  }

  lemma StepsAppend(trace: seq<Step>, worlds: nat -> FlushWorld, m: nat)
    requires m < |trace|
    ensures GitSteps(trace[..m + 1], worlds)
            == if trace[m].Requested? && trace[m].request.checkpoint.Some?
               then StepsFor(GitSteps(trace[..m], worlds), trace[m].request, worlds(m))
               else GitSteps(trace[..m], worlds)
  {
    assert trace[..m + 1][..m] == trace[..m];
    assert Restarts(GitSteps(trace[..m], worlds), worlds(m)) + [] == Restarts(GitSteps(trace[..m], worlds), worlds(m));
  }

  lemma AnswerGit(r: RemoteState, steps: seq<Git.GitStep>, journal: seq<Event>, request: FlushRequest, w: FlushWorld,
                  cfg: Http.Config)
    requires RequestCovers(journal, request) && Contiguous(journal)
    requires r.git == Git.AfterAll(Git.NEW_REF, steps)
    ensures Answer(r, journal, request, w, cfg).0.git == Git.AfterAll(Git.NEW_REF, StepsFor(steps, request, w))
  {
    hide Remote.Flush, Git.AfterAll, Git.Publish, CommitsBelow, Contiguous;
    StepAppend(Git.NEW_REF, steps, Git.RestartStep);
    StepAppend(Git.NEW_REF, Restarts(steps, w), Git.PublishStep(request.checkpoint.value, w.publish));
    FlushGit(WhenAsked(r, w), journal, request, w, cfg);
  }

  lemma AfterStep(trace: seq<Step>, worlds: nat -> FlushWorld, cfg: Http.Config, m: nat)
    requires m < |trace|
    ensures After(trace[..m + 1], worlds, cfg)
            == if trace[m].Requested?
               then Answer(After(trace[..m], worlds, cfg), LogOf(trace[..m]), trace[m].request, worlds(m), cfg).0
               else After(trace[..m], worlds, cfg)
  {
    hide Answer, LogOf;
    assert trace[..m + 1][..m] == trace[..m];
  }

  lemma {:induction false} GitIs(trace: seq<Step>, worlds: nat -> FlushWorld, cfg: Http.Config, n: nat)
    requires n <= |trace| && Contiguous(LogOf(trace)) && RequestsCover(trace)
    ensures After(trace[..n], worlds, cfg).git == Git.AfterAll(Git.NEW_REF, GitSteps(trace[..n], worlds))
  {
    hide LogOf, RequestsCover, Contiguous, GitSteps, After, Answer, StepsFor, Git.AfterAll, CommitsBelow;
    if n == 0 {
      assert trace[..0] == [];
      NothingRemote(worlds, cfg);
    } else {
      GitIs(trace, worlds, cfg, n - 1);
      StepsAppend(trace, worlds, n - 1);
      AfterStep(trace, worlds, cfg, n - 1);
      if trace[n - 1].Requested? {
        CoveredAt(trace, n - 1);
        AnswerGit(After(trace[..n - 1], worlds, cfg), GitSteps(trace[..n - 1], worlds), LogOf(trace[..n - 1]),
                  trace[n - 1].request, worlds(n - 1), cfg);
      }
    }
  }

  lemma NothingRemote(worlds: nat -> FlushWorld, cfg: Http.Config)
    ensures After([], worlds, cfg).git == Git.AfterAll(Git.NEW_REF, GitSteps([], worlds))
  {
  }

  ghost predicate AllBelow(steps: seq<Git.GitStep>, c: Commit) {
    forall i :: 0 <= i < |steps| && steps[i].PublishStep? ==> IsAncestor(steps[i].commit, c)
  }

  lemma GrowingAppend(steps: seq<Git.GitStep>, x: Git.GitStep)
    requires Git.Growing(steps) && Git.AllAlone(steps) && Git.Alone(x)
    requires x.PublishStep? ==> AllBelow(steps, x.commit)
    ensures Git.Growing(steps + [x]) && Git.AllAlone(steps + [x])
  {
    hide IsAncestor;
    var more := steps + [x];
    assert more[|steps|] == x;
    assert forall i :: 0 <= i < |steps| ==> more[i] == steps[i];
  }

  /** A sole writer publishes ever later checkpoints. */
  lemma {:induction false} StepsGrow(trace: seq<Step>, worlds: nat -> FlushWorld, tip: Commit, n: nat, k: nat)
    requires n <= k <= |trace| && CheckpointsGrow(trace, tip) && OnlyThisSink(worlds)
    ensures var steps := GitSteps(trace[..n], worlds);
            && Git.Growing(steps) && Git.AllAlone(steps)
            && (k < |trace| && trace[k].Requested? ==> AllBelow(steps, trace[k].request.checkpoint.value))
    decreases n
  {
    hide IsAncestor;
    if n == 0 {
      assert trace[..0] == [];
    } else {
      var m := n - 1;
      assert trace[..n][..m] == trace[..m];
      StepsGrow(trace, worlds, tip, m, k);
      StepsGrow(trace, worlds, tip, m, m);
      var steps := GitSteps(trace[..m], worlds);
      if trace[m].Requested? {
        var x := Git.PublishStep(trace[m].request.checkpoint.value, worlds(m).publish);
        assert Git.Alone(x);
        GrowingAppend(steps, Git.RestartStep);
        GrowingAppend(Restarts(steps, worlds(m)), x);
        assert Restarts(steps, worlds(m)) + [] == Restarts(steps, worlds(m));
      }
    }
  }

  // ---------------------------------------------------------------- one flush

  /** The push is taken and remembered: the ref can be read, the cursor can be written, and the ref holds the
    * commit already, or the push lands and the ref is absent or holds what was pushed last. */
  ghost predicate GitTakes(g: Git.GitState, commit: Commit, w: Git.PublishWorld) {
    && w.readable && w.cursorWritable
    && (g.tip == Some(commit) || (w.push == Git.Landed && (g.tip.None? || g.tip == g.lastPushed)))
  }

  lemma PublishedExactly(g: Git.GitState, commit: Commit, w: Git.PublishWorld)
    requires w.foreign.None? && (g.tip.Some? ==> IsAncestor(g.tip.value, commit))
    ensures Git.Publish(g, commit, w).1 == Git.Published <==> GitTakes(g, commit, w)
  {
  }

  /** A flush of a covered journal in a reachable state succeeds if and only if the journal can be synced, the
    * push is taken, and the network takes the events. */
  lemma FlushExactly(r: RemoteState, journal: seq<Event>, before: Option<nat>, request: FlushRequest, w: FlushWorld,
                     cfg: Http.Config)
    requires RemoteInv(r, journal, before) && Contiguous(journal) && RequestCovers(journal, request)
    requires w.publish.foreign.None?
    requires r.git.tip.Some? ==> IsAncestor(r.git.tip.value, request.checkpoint.value)
    ensures Remote.Flush(r, journal, request, w, cfg).1
            <==> && w.journalOk
                 && GitTakes(r.git, request.checkpoint.value, w.publish)
                 && Delivery.NetTakes(r.http, journal, request.lastSeq, cfg, w.net)
  {
    hide Git.Publish, Http.PublishEvents, CommitsBelow, Http.HttpInv, GitTakes, Delivery.NetTakes, IsAncestor;
    PublishedExactly(r.git, request.checkpoint.value, w.publish);
    GrowInv(r, journal, journal, before, request.lastSeq);
    assert journal[..request.lastSeq + 1] == journal;
    Delivery.PublishExactly(r.http, journal, before, request.lastSeq, cfg, w.net);
  }

  // ---------------------------------------------------------------- sessions

  /** The world of a flush takes it: the journal can be synced, the ref can be read and the cursor written; the
    * ref holds the checkpoint already, or the push lands and no earlier push is forgotten; and the network
    * takes what the client does not know to be delivered. */
  ghost predicate Taken(steps: seq<Git.GitStep>, http: Http.HttpState, journal: seq<Event>, request: FlushRequest,
                        w: FlushWorld, cfg: Http.Config)
    requires request.checkpoint.Some? && request.lastSeq < |journal|
  {
    && w.journalOk && w.publish.readable && w.publish.cursorWritable
    && (Git.AfterAll(Git.NEW_REF, steps).tip == request.checkpoint
        || (w.publish.push == Git.Landed && !Git.Forgotten(steps)))
    && Delivery.NetTakes(http, journal, request.lastSeq, cfg, w.net)
  }

  function WhenAsked(r: RemoteState, w: FlushWorld): RemoteState {
    if w.restarted then Restarted(r) else r
  }

  lemma TipBelow(steps: seq<Git.GitStep>, c: Commit)
    requires Git.AllAlone(steps) && Git.Growing(steps) && AllBelow(steps, c)
    ensures var g := Git.AfterAll(Git.NEW_REF, steps);
            && (g.tip.Some? ==> IsAncestor(g.tip.value, c))
            && (g.tip.None? || g.tip == g.lastPushed <==> !Git.Forgotten(steps))
  {
    hide IsAncestor, Git.Known, Git.Saved, Git.AfterAll, Git.LastLanding, Git.Growing;
    Git.RunTracks(steps);
  }

  /** In every session of a sole writer, a flush request succeeds remotely if and only if its world takes it. */
  lemma AnswerExactly(session: string, maxChanges: nat, env: Env, commands: seq<Command>, worlds: nat -> FlushWorld,
                      cfg: Http.Config, k: nat)
    requires Initialize(session, maxChanges, env).ok && OnlyThisSink(worlds)
    requires var trace := Run(session, maxChanges, env, commands).trace; k < |trace| && trace[k].Requested?
    ensures var trace := Run(session, maxChanges, env, commands).trace;
            var r, journal := After(trace[..k], worlds, cfg), LogOf(trace[..k]);
            && RequestCovers(journal, trace[k].request)
            && (Answer(r, journal, trace[k].request, worlds(k), cfg).1
                <==> Taken(Restarts(GitSteps(trace[..k], worlds), worlds(k)), WhenAsked(r, worlds(k)).http, journal,
                           trace[k].request, worlds(k), cfg))
  {
    hide Run, Initialize, LogOf, RemoteInv, Remote.Flush, CommitsBelow, Contiguous, CheckpointsGrow, Git.AfterAll, Git.Forgotten,
      GitSteps, After, Delivery.NetTakes, IsAncestor, RequestsCover, AllBelow, Git.Growing, Git.AllAlone;
    var trace := Run(session, maxChanges, env, commands).trace;
    RunTrace(session, maxChanges, env, commands);
    RunCheckpoints(session, maxChanges, env, commands);
    AfterInv(trace, worlds, cfg, k);
    CoveredAt(trace, k);
    GitIs(trace, worlds, cfg, k);
    StepsGrow(trace, worlds, Run(session, maxChanges, env, commands).rec.op.commit, k, k);
    var r, journal, w := After(trace[..k], worlds, cfg), LogOf(trace[..k]), worlds(k);
    RestartedInv(r, journal, Target(trace[..k]));
    var before := GitSteps(trace[..k], worlds);
    var c := trace[k].request.checkpoint.value;
    StepAppend(Git.NEW_REF, before, Git.RestartStep);
    GrowingAppend(before, Git.RestartStep);
    BelowRestart(before, c);
    TipBelow(Restarts(before, w), c);
    FlushExactly(WhenAsked(r, w), journal, Target(trace[..k]), trace[k].request, w, cfg);
  }

  lemma BelowRestart(steps: seq<Git.GitStep>, c: Commit)
    requires AllBelow(steps, c)
    ensures AllBelow(steps + [Git.RestartStep], c)
  {
    hide IsAncestor;
  }

  // ---------------------------------------------------------------- nothing fails

  /** Nothing fails in this world, for events up to `target`. */
  ghost predicate Healthy(w: FlushWorld, target: nat) {
    && w.journalOk && w.publish == Git.PublishWorld(true, None, Git.Landed, true)
    && Delivery.HealthyNet(w.net, target)
  }

  ghost predicate AllHealthy(trace: seq<Step>, worlds: nat -> FlushWorld) {
    forall n :: 0 <= n < |trace| && trace[n].Requested? ==> Healthy(worlds(n), trace[n].request.lastSeq)
  }

  lemma {:induction false} HealthySteps(trace: seq<Step>, worlds: nat -> FlushWorld, n: nat)
    requires n <= |trace| && AllHealthy(trace, worlds)
    ensures forall i :: 0 <= i < |GitSteps(trace[..n], worlds)| && GitSteps(trace[..n], worlds)[i].PublishStep?
                        ==> GitSteps(trace[..n], worlds)[i].w == Git.PublishWorld(true, None, Git.Landed, true)
  {
    if n == 0 {
      assert trace[..0] == [];
    } else {
      assert trace[..n][..n - 1] == trace[..n - 1];
      HealthySteps(trace, worlds, n - 1);
    }
  }

  /** A push that lands with its answer and its cursor is not forgotten. */
  lemma NeverForgotten(steps: seq<Git.GitStep>)
    requires Git.AllAlone(steps) && Git.Growing(steps)
    requires forall i :: 0 <= i < |steps| && steps[i].PublishStep?
                         ==> steps[i].w == Git.PublishWorld(true, None, Git.Landed, true)
    ensures !Git.Forgotten(steps)
  {
    hide IsAncestor, Git.AfterAll, Git.RestartedAfter, Git.Growing, Git.LastLanding;
    Git.RunTracks(steps);
    if Git.LastLanding(steps).Some? {
      var k := Git.LastLanding(steps).value;
      assert Git.Remembers(steps, k, k);
    }
  }

  /** In every session whose flushes all met healthy worlds, with no event too large for a batch, every flush
    * request succeeds remotely, restarts or not. */
  lemma HealthyFlushesSucceed(session: string, maxChanges: nat, env: Env, commands: seq<Command>,
                              worlds: nat -> FlushWorld, cfg: Http.Config, k: nat)
    requires Initialize(session, maxChanges, env).ok && OnlyThisSink(worlds) && cfg.limits.maxEvents > 0
    requires var trace := Run(session, maxChanges, env, commands).trace;
             && k < |trace| && trace[k].Requested? && AllHealthy(trace, worlds)
             && !Batching.SomeOversize(Http.Lens(LogOf(trace[..k]), cfg.size), cfg.limits)
    ensures var trace := Run(session, maxChanges, env, commands).trace;
            Answer(After(trace[..k], worlds, cfg), LogOf(trace[..k]), trace[k].request, worlds(k), cfg).1
  {
    hide Run, Initialize, LogOf, Answer, CommitsBelow, Contiguous, CheckpointsGrow, Git.Forgotten, GitSteps, After,
      Delivery.NetTakes, IsAncestor, RequestsCover, AllBelow, Git.Growing, Git.AllAlone, Batching.SomeOversize,
      Delivery.HealthyNet, Git.AfterAll;
    var trace := Run(session, maxChanges, env, commands).trace;
    AnswerExactly(session, maxChanges, env, commands, worlds, cfg, k);
    RunTrace(session, maxChanges, env, commands);
    RunCheckpoints(session, maxChanges, env, commands);
    StepsGrow(trace, worlds, Run(session, maxChanges, env, commands).rec.op.commit, k, k);
    HealthySteps(trace, worlds, k);
    var steps := GitSteps(trace[..k], worlds);
    GrowingAppend(steps, Git.RestartStep);
    NeverForgotten(Restarts(steps, worlds(k)));
    AfterInv(trace, worlds, cfg, k);
    var r := After(trace[..k], worlds, cfg);
    RestartedInv(r, LogOf(trace[..k]), Target(trace[..k]));
    UnsentWithin(WhenAsked(r, worlds(k)), LogOf(trace[..k]), Target(trace[..k]));
    assert Healthy(worlds(k), trace[k].request.lastSeq);
    Delivery.HealthyTakes(WhenAsked(r, worlds(k)).http, LogOf(trace[..k]), trace[k].request.lastSeq, cfg, worlds(k).net);
  }

  lemma UnsentWithin(r: RemoteState, journal: seq<Event>, target: Option<nat>)
    requires RemoteInv(r, journal, target)
    ensures Delivery.Unsent(r.http) <= |journal|
  {
    hide ContentFirst;
  }

  /** Such a session: one flush in healthy worlds, with no failure and no change of the watched tree. */
  lemma RemoteFlushHappens(session: string, maxChanges: nat, worlds: nat -> FlushWorld, cfg: Http.Config)
    requires OnlyThisSink(worlds) && cfg.limits.maxEvents > 0
    requires forall e :: cfg.size(e) + 2 <= cfg.limits.maxBytes
    requires forall n, target :: target <= 1 ==> Healthy(worlds(n), target)
    ensures CarefulFlush(session, maxChanges, AGREEABLE, [])
    ensures var t := FlushNow(Run(session, maxChanges, AGREEABLE, [])).s;
            var k := |t.trace| - 1;
            && k >= 0 && t.trace[k].Requested?
            && Answer(After(t.trace[..k], worlds, cfg), LogOf(t.trace[..k]), t.trace[k].request, worlds(k), cfg).1
  {
    hide Run, Initialize, FlushNow, LogOf, Answer, After, LatestOp, Healthy, NamesInv, Strands, Inv, CarefulFlush,
      Batching.SomeOversize;
    CarefulFlushHappens(session, maxChanges);
    Initialized(session, maxChanges);
    CarefulFlushState(session, maxChanges, AGREEABLE, []);
    OneRequest(session, maxChanges);
    var t := FlushNow(Run(session, maxChanges, AGREEABLE, [])).s;
    var k := |t.trace| - 1;
    assert [] + [FlushSession] == [FlushSession];
    SmallEnough(LogOf(t.trace[..k]), cfg);
    OnlyLast(t.trace, worlds);
    HealthyFlushesSucceed(session, maxChanges, AGREEABLE, [FlushSession], worlds, cfg, k);
  }

  lemma OnlyLast(trace: seq<Step>, worlds: nat -> FlushWorld)
    requires trace != [] && trace[|trace| - 1].Requested? && trace[|trace| - 1].request.lastSeq <= 1
    requires forall n :: 0 <= n < |trace| - 1 ==> !trace[n].Requested?
    requires forall n, target :: target <= 1 ==> Healthy(worlds(n), target)
    ensures AllHealthy(trace, worlds)
  {
    hide Healthy;
  }

  lemma Initialized(session: string, maxChanges: nat)
    requires CarefulFlush(session, maxChanges, AGREEABLE, [])
    ensures Initialize(session, maxChanges, AGREEABLE).ok
  {
  }

  lemma SmallEnough(log: seq<Event>, cfg: Http.Config)
    requires forall e :: cfg.size(e) + 2 <= cfg.limits.maxBytes
    ensures !Batching.SomeOversize(Http.Lens(log, cfg.size), cfg.limits)
  {
  }

  /** That session's only flush request is for its second event. */
  lemma OneRequest(session: string, maxChanges: nat)
    requires CarefulFlush(session, maxChanges, AGREEABLE, [])
    ensures var t := FlushNow(Run(session, maxChanges, AGREEABLE, [])).s;
            |t.log| == 2 && forall n :: 0 <= n < |t.trace| - 1 ==> !t.trace[n].Requested?
  {
    hide SnapshotOf, Captured, DrainAudit, Rep, NamesInv, Strands;
    var s := Initialize(session, maxChanges, AGREEABLE).s;
    InitialShape(session, maxChanges, AGREEABLE);
    assert Run(session, maxChanges, AGREEABLE, []) == s;
    DrainFacts(s);
    var d := DrainAudit(s);
    assert DrainAndSettle(s) == Outcome(d, true);
    DrainedTrace(s);
  }

  lemma DrainedTrace(s: Sys)
    requires s.env.script == []
    ensures DrainAudit(s).trace == s.trace + [Drained] && DrainAudit(s).log == s.log
  {
    hide Merged;
    assert s.env.(script := []) == s.env;
  }
}
