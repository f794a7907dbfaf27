/** Remote publication of a session (`DurableSessionSink`): the checkpoint first, then the events.
  *
  * Every request of the coordinator is answered by a flush in an arbitrary world.  A process that dies in
  * the middle of a flush is a world in which the rest of that flush goes unsent and unanswered, followed
  * by a restart, so the states between two network requests are covered as well.
  */
module Remote {
  import opened Schema
  import opened Coordination
  import opened Moves
  import opened Chain
  import opened Marks
  import opened Sessions
  import opened History
  import Git
  import Http

  datatype RemoteState = RemoteState(git: Git.GitState, http: Http.HttpState)

  /** Whether the sink's process was restarted before the flush, whether the journal can be synced, and the
    * worlds of the two publications. */
  datatype FlushWorld = FlushWorld(restarted: bool, journalOk: bool, publish: Git.PublishWorld, net: Http.NetWorld)

  const NOTHING_REMOTE: RemoteState :=
    RemoteState(Git.GitState(None, None, None), Http.HttpState(Http.Receiver([], None), None, None, 0, []))

  /** The commit of the newest snapshot event. */
  function LatestSnapshotCommit(log: seq<Event>): Option<Commit> {
    if log == [] then None
    else if log[|log| - 1].body.SnapshotTaken? then Some(log[|log| - 1].body.snapshot.commit)
    else LatestSnapshotCommit(log[..|log| - 1])
  }

  function Restarted(r: RemoteState): RemoteState {
    RemoteState(Git.Restart(r.git), r.http.(delivered := r.http.cursor))
  }

  function CommitFor(journal: seq<Event>, request: FlushRequest): Option<Commit> {
    if request.checkpoint.Some? then request.checkpoint else LatestSnapshotCommit(journal)
  }

  /** `flush_session` on a running sink. */
  ghost function Flush(r: RemoteState, journal: seq<Event>, request: FlushRequest, w: FlushWorld, cfg: Http.Config)
    : (RemoteState, bool)
  {
    var commit := CommitFor(journal, request);
    if !w.journalOk || journal == [] || journal[|journal| - 1].seqNo != request.lastSeq || commit.None? then (r, false)
    else
      var (git, outcome) := Git.Publish(r.git, commit.value, w.publish);
      if outcome != Git.Published then (r.(git := git), false)
      else
        var (http, result) := Http.PublishEvents(r.http, journal, Some(request.lastSeq), cfg, w.net);
        (RemoteState(git, http), Reaches(result, request.lastSeq))
  }

  /** The final checks on the acknowledgement. */
  predicate Reaches(result: Http.HttpResult, lastSeq: nat) {
    && result.Delivered?
    && result.ack.acceptedThrough >= lastSeq
    && (result.ack.durableThrough.Some? ==> result.ack.durableThrough.value >= lastSeq)
  }

  ghost function Answer(r: RemoteState, journal: seq<Event>, request: FlushRequest, w: FlushWorld, cfg: Http.Config)
    : (RemoteState, bool)
  {
    Flush(if w.restarted then Restarted(r) else r, journal, request, w, cfg)
  }

  /** The remote side after a session's trace: each request is answered in its own world. */
  ghost function After(trace: seq<Step>, worlds: nat -> FlushWorld, cfg: Http.Config): RemoteState {
    if trace == [] then NOTHING_REMOTE
    else
      var n := |trace| - 1;
      var r := After(trace[..n], worlds, cfg);
      match trace[n]
      case Requested(request, _) => Answer(r, LogOf(trace[..n]), request, worlds(n), cfg).0
      case _ => r
  }

  // ---------------------------------------------------------------- the invariant

  /** Content before events: every snapshot commit the receiver knows of is the tip or behind it. */
  ghost predicate ContentFirst(r: RemoteState) {
    r.http.receiver.log != [] ==> r.git.tip.Some? && CommitsBelow(r.http.receiver.log, r.git.tip.value)
  }

  ghost predicate RemoteInv(r: RemoteState, journal: seq<Event>, target: Option<nat>) {
    && Http.HttpInv(r.http, journal, target)
    && ContentFirst(r)
    && (target.Some? ==> target.value < |journal|)
  }

  lemma CommitsBelowPrefix(log: seq<Event>, n: nat, c: Commit)
    requires n <= |log| && CommitsBelow(log, c)
    ensures CommitsBelow(log[..n], c)
  {
  }

  lemma RestartedInv(r: RemoteState, journal: seq<Event>, target: Option<nat>)
    requires RemoteInv(r, journal, target)
    ensures RemoteInv(Restarted(r), journal, target)
  {
    hide CommitsBelow;
    Http.RestartKeepsInv(r.http, journal, target);
  }

  /** A longer journal, and possibly a later target, with the same remote state. */
  lemma GrowInv(r: RemoteState, journal: seq<Event>, longer: seq<Event>, target: Option<nat>, next: nat)
    requires RemoteInv(r, journal, target) && Http.PrefixOf(journal, longer)
    requires (target.Some? ==> target.value <= next) && next < |longer|
    ensures RemoteInv(r, longer, Some(next))
  {
    hide CommitsBelow;
    Http.TargetAdvances(r.http, journal, longer, target, next);
  }

  lemma PublishKeepsContent(r: RemoteState, journal: seq<Event>, commit: Commit, w: Git.PublishWorld)
    requires ContentFirst(r) && w.foreign.None?
    ensures var (git, outcome) := Git.Publish(r.git, commit, w);
            && ContentFirst(r.(git := git))
            && (outcome == Git.Published ==> git.tip == Some(commit))
  {
    hide CommitsBelow, IsAncestor;
    var (git, outcome) := Git.Publish(r.git, commit, w);
    Git.PublishForward(r.git, commit, w);
    if r.http.receiver.log != [] {
      CommitsBelowMore(r.http.receiver.log, r.git.tip.value, git.tip.value);
    }
  }

  /** One flush of a journal that ends with the request's target. */
  lemma FlushKeeps(r: RemoteState, journal: seq<Event>, target: Option<nat>, request: FlushRequest, w: FlushWorld,
                   cfg: Http.Config)
    requires RemoteInv(r, journal, target) && Contiguous(journal) && RequestCovers(journal, request)
    requires w.publish.foreign.None?
    ensures var (t, ok) := Flush(r, journal, request, w, cfg);
            && RemoteInv(t, journal, Some(request.lastSeq))
            && (ok ==> Complete(t, journal, request))
  {
    hide Git.Publish, Http.PublishEvents, CommitsBelow, Http.HttpInv;
    GrowInv(r, journal, journal, target, request.lastSeq);
    var commit := request.checkpoint.value;
    PublishKeepsContent(r, journal, commit, w.publish);
    var (git, outcome) := Git.Publish(r.git, commit, w.publish);
    if w.journalOk && outcome == Git.Published {
      assert journal[..request.lastSeq + 1] == journal;
      Http.PublishDelivers(r.http, journal, target, request.lastSeq, cfg, w.net);
      var (http, result) := Http.PublishEvents(r.http, journal, Some(request.lastSeq), cfg, w.net);
      HoldsPrefix(http, journal, request.lastSeq);
      CommitsBelowPrefix(journal, |http.receiver.log|, commit);
    }
  }

  lemma HoldsPrefix(http: Http.HttpState, journal: seq<Event>, target: nat)
    requires Http.HttpInv(http, journal, Some(target))
    ensures |http.receiver.log| <= |journal| && http.receiver.log == journal[..|http.receiver.log|]
  {
  }

  /** The remote side holds everything the request asked for. */
  ghost predicate Complete(r: RemoteState, journal: seq<Event>, request: FlushRequest) {
    && r.git.tip == request.checkpoint
    && r.http.receiver.log == journal
    && r.http.receiver.durable == Some(request.lastSeq)
  }

  // ---------------------------------------------------------------- whole sessions

  /** The newest flush target of a trace. */
  function Target(trace: seq<Step>): Option<nat> {
    if trace == [] then None
    else if trace[|trace| - 1].Requested? then Some(trace[|trace| - 1].request.lastSeq)
    else Target(trace[..|trace| - 1])
  }

  ghost predicate OnlyThisSink(worlds: nat -> FlushWorld) {
    forall n :: worlds(n).publish.foreign.None?
  }

  lemma GrowOnly(r: RemoteState, journal: seq<Event>, longer: seq<Event>, target: Option<nat>)
    requires RemoteInv(r, journal, target) && Http.PrefixOf(journal, longer)
    ensures RemoteInv(r, longer, target)
  {
    hide CommitsBelow;
    if target.Some? {
      GrowInv(r, journal, longer, target, target.value);
    } else {
      assert r.http.receiver.log == [];
    }
  }

  /** The state of the remote side in every prefix of a covered trace. */
  lemma {:induction false} AfterInv(trace: seq<Step>, worlds: nat -> FlushWorld, cfg: Http.Config, n: nat)
    requires n <= |trace| && Contiguous(LogOf(trace)) && RequestsCover(trace) && OnlyThisSink(worlds)
    ensures RemoteInv(After(trace[..n], worlds, cfg), LogOf(trace[..n]), Target(trace[..n]))
  {
    hide LogOf, RemoteInv, Flush, RequestCovers, RequestsCover, Contiguous;
    if n == 0 {
      InitialInv(worlds, cfg);
      assert trace[..0] == [];
    } else {
      var m := n - 1;
      AfterInv(trace, worlds, cfg, m);
      assert trace[..n][..m] == trace[..m];
      var r, journal := After(trace[..m], worlds, cfg), LogOf(trace[..m]);
      LogStep(trace, m);
      if trace[m].Requested? {
        CoveredAt(trace, m);
        RestartedInv(r, journal, Target(trace[..m]));
        FlushKeeps(if worlds(m).restarted then Restarted(r) else r, journal, Target(trace[..m]), trace[m].request,
                   worlds(m), cfg);
        assert journal + [] == journal;
      } else {
        GrowOnly(r, journal, LogOf(trace[..n]), Target(trace[..m]));
      }
    }
  }

  lemma InitialInv(worlds: nat -> FlushWorld, cfg: Http.Config)
    ensures RemoteInv(After([], worlds, cfg), LogOf([]), Target([]))
  {
  }

  lemma CoveredAt(trace: seq<Step>, m: nat)
    requires m < |trace| && trace[m].Requested? && RequestsCover(trace) && Contiguous(LogOf(trace))
    ensures RequestCovers(LogOf(trace[..m]), trace[m].request) && Contiguous(LogOf(trace[..m]))
  {
    hide RequestCovers, LogOf;
    LogGrows(trace, m);
  }

  // ---------------------------------------------------------------- the main results

  /** Content before events.  At every moment of every session (whatever the commands, the watched tree and
    * its notifications, and whatever fails locally, at the Git remote, or on the way to and from the
    * receiver), the receiver holds a prefix of the accepted events, and every snapshot event it holds names
    * a commit that equals or is an ancestor of the tip of the recorder's ref, if only this sink moves the
    * ref. */
  lemma ContentBeforeEvents(session: string, maxChanges: nat, env: Env, commands: seq<Command>,
                            worlds: nat -> FlushWorld, cfg: Http.Config, n: nat)
    requires Initialize(session, maxChanges, env).ok && OnlyThisSink(worlds)
    requires n <= |Run(session, maxChanges, env, commands).trace|
    ensures var trace := Run(session, maxChanges, env, commands).trace[..n];
            var r := After(trace, worlds, cfg);
            && Http.PrefixOf(r.http.receiver.log, LogOf(trace))
            && (r.http.delivered.Some? ==> r.http.delivered.value < |r.http.receiver.log|)
            && (forall i :: 0 <= i < |r.http.receiver.log| && r.http.receiver.log[i].body.SnapshotTaken?
                            ==> r.git.tip.Some?
                                && IsAncestor(r.http.receiver.log[i].body.snapshot.commit, r.git.tip.value))
  {
    hide Run, Initialize, After, LogOf, Window, HeldInv, IsAncestor;
    RunTrace(session, maxChanges, env, commands);
    AfterInv(Run(session, maxChanges, env, commands).trace, worlds, cfg, n);
  }

  lemma RunTrace(session: string, maxChanges: nat, env: Env, commands: seq<Command>)
    requires Initialize(session, maxChanges, env).ok
    ensures var s := Run(session, maxChanges, env, commands);
            LogOf(s.trace) == s.log && Contiguous(s.log) && RequestsCover(s.trace)
  {
    hide Run, Initialize;
    RunInv(session, maxChanges, env, commands);
  }

  /** A flush request that succeeds leaves the ref at the requested checkpoint and the receiver with every
    * event accepted so far, durable through the request's target. */
  lemma SuccessfulFlushDelivers(session: string, maxChanges: nat, env: Env, commands: seq<Command>,
                                worlds: nat -> FlushWorld, cfg: Http.Config, k: nat)
    requires Initialize(session, maxChanges, env).ok && OnlyThisSink(worlds)
    requires var trace := Run(session, maxChanges, env, commands).trace;
             && k < |trace| && trace[k].Requested?
             && Answer(After(trace[..k], worlds, cfg), LogOf(trace[..k]), trace[k].request, worlds(k), cfg).1
    ensures var trace := Run(session, maxChanges, env, commands).trace;
            && RequestCovers(LogOf(trace[..k]), trace[k].request)
            && Complete(After(trace[..k + 1], worlds, cfg), LogOf(trace[..k]), trace[k].request)
  {
    hide Run, Initialize, LogOf, RemoteInv, Flush, RequestCovers, Contiguous, Complete;
    RunTrace(session, maxChanges, env, commands);
    var trace := Run(session, maxChanges, env, commands).trace;
    AfterInv(trace, worlds, cfg, k);
    CoveredAt(trace, k);
    var r, journal := After(trace[..k], worlds, cfg), LogOf(trace[..k]);
    RestartedInv(r, journal, Target(trace[..k]));
    FlushKeeps(if worlds(k).restarted then Restarted(r) else r, journal, Target(trace[..k]), trace[k].request,
               worlds(k), cfg);
    assert trace[..k + 1][..k] == trace[..k];
  }

  /** If no command so far stranded a snapshot and the flush strands none, and both the coordinator's flush
    * and the remote side's answer succeed, then the ref is at the commit of the newest snapshot (or of the
    * baseline) and the receiver holds the whole log, durably. */
  lemma CarefulFlushPublishesNewest(session: string, maxChanges: nat, env: Env, commands: seq<Command>,
                                    worlds: nat -> FlushWorld, cfg: Http.Config)
    requires CarefulFlush(session, maxChanges, env, commands) && OnlyThisSink(worlds)
    requires var trace := FlushNow(Run(session, maxChanges, env, commands)).s.trace;
             var k := |trace| - 1;
             && k >= 0 && trace[k].Requested?
             && Answer(After(trace[..k], worlds, cfg), LogOf(trace[..k]), trace[k].request, worlds(k), cfg).1
    ensures var t := FlushNow(Run(session, maxChanges, env, commands)).s;
            var r := After(t.trace, worlds, cfg);
            && LatestOp(t.log).Operation?
            && r.git.tip == Some(LatestOp(t.log).commit)
            && r.http.receiver.log == t.log && r.http.receiver.durable == Some(|t.log| - 1)
  {
    hide Run, Initialize, LogOf, Flush, FlushNow, LatestOp, NamesInv, Inv, Strands, After, RequestCovers;
    CarefulFlushState(session, maxChanges, env, commands);
    var t := FlushNow(Run(session, maxChanges, env, commands)).s;
    var longer := commands + [FlushSession];
    RunTrace(session, maxChanges, env, longer);
    var k := |t.trace| - 1;
    SuccessfulFlushDelivers(session, maxChanges, env, longer, worlds, cfg, k);
    LogStep(t.trace, k);
    assert t.trace[..k + 1] == t.trace;
    assert LogOf(t.trace[..k]) + [] == LogOf(t.trace[..k]);
  }
}
