/** Publishing checkpoints: the compare-and-swap of the recorder's Git ref (`GitCheckpointSink`). */
module Git {
  import opened Schema

  /** The remote ref, the sink's memory of its last push, and its cursor file. */
  datatype GitState = GitState(tip: Option<Commit>, lastPushed: Option<Commit>, cursor: Option<Commit>)

  /** What happens to a push that the remote would take. */
  datatype PushFate = Landed | AnswerLost | NotSent

  /** The world around one publish: whether the tip can be read, what foreign writers leave in the ref
    * between that read and the push, the push's fate, and whether the cursor file can be written. */
  datatype PublishWorld = PublishWorld(readable: bool, foreign: Option<Option<Commit>>, push: PushFate,
                                       cursorWritable: bool)

  datatype PublishOutcome = Published | CheckpointConflict | PublishFailed

  /** The remote takes a push only if it creates the ref or fast-forwards it. */
  predicate FastForward(tip: Option<Commit>, commit: Commit) {
    tip.None? || IsAncestor(tip.value, commit)
  }

  datatype Decision = AlreadyThere | Push | Refuse

  /** The match on the tip that was read and the commit pushed last. */
  function Decide(tip: Option<Commit>, expected: Option<Commit>, commit: Commit): Decision {
    match (tip, expected)
    case (None, _) => Push
    case (Some(t), Some(e)) => if t == commit then AlreadyThere else if t == e then Push else Refuse
    case (Some(t), None) => if t == commit then AlreadyThere else Refuse
  }

  function TipAtPush(g: GitState, w: PublishWorld): Option<Commit> {
    match w.foreign
    case Some(tip) => tip
    case None => g.tip
  }

  /** Remembers a successful push, then writes the cursor file. */
  function Remember(g: GitState, commit: Commit, w: PublishWorld): (GitState, PublishOutcome) {
    var m := g.(lastPushed := Some(commit));
    if w.cursorWritable then (m.(cursor := Some(commit)), Published) else (m, PublishFailed)
  }

  /** `publish_checkpoint`. */
  function Publish(g: GitState, commit: Commit, w: PublishWorld): (GitState, PublishOutcome) {
    if !w.readable then (g, PublishFailed)
    else
      match Decide(g.tip, g.lastPushed, commit)
      case AlreadyThere => Remember(g, commit, w)
      case Refuse => (g, CheckpointConflict)
      case Push =>
        var at := TipAtPush(g, w);
        var f := g.(tip := at);
        if w.push == NotSent then (f, PublishFailed)
        else if !FastForward(at, commit) then (f, CheckpointConflict)
        else if w.push == AnswerLost then (f.(tip := Some(commit)), PublishFailed)
        else Remember(f.(tip := Some(commit)), commit, w)
  }

  /** A restarted sink knows only its cursor file. */
  function Restart(g: GitState): GitState {
    g.(lastPushed := g.cursor)
  }

  // ---------------------------------------------------------------- one publish

  /** A successful publish leaves the ref at the requested commit; whatever the outcome, the sink itself
    * moves the ref at most once, to the requested commit, and only by creating it or fast-forwarding what
    * it finds there at that moment. */
  lemma PublishIsCompareAndSwap(g: GitState, commit: Commit, w: PublishWorld)
    ensures var (h, outcome) := Publish(g, commit, w);
            && (outcome == Published ==> h.tip == Some(commit) && h.lastPushed == Some(commit) == h.cursor)
            && (h.tip == g.tip || h.tip == TipAtPush(g, w)
                || (h.tip == Some(commit) && FastForward(TipAtPush(g, w), commit)))
            && (outcome == CheckpointConflict ==> h.lastPushed == g.lastPushed)
  {
  }

  /** Publishing again what was published succeeds (if the cursor file can be written) and moves nothing. */
  lemma RepublishIsIdempotent(g: GitState, commit: Commit, w: PublishWorld, again: PublishWorld)
    requires Publish(g, commit, w).1 == Published
    requires again.readable
    ensures var h := Publish(g, commit, w).0;
            && Publish(h, commit, again).0 == h
            && (Publish(h, commit, again).1 == Published <==> again.cursorWritable)
  {
  }

  /** Without foreign writers: the ref moves exactly when a request that differs from the tip reaches the
    * remote and the ref is absent or holds what was pushed last, of which the request must be a descendant;
    * it then holds the request.  And the publication is a conflict, without effect, exactly when the ref holds
    * another commit that was not pushed last or is not an ancestor of the request it would be sent. */
  lemma PublishExactly(g: GitState, commit: Commit, w: PublishWorld)
    requires w.foreign.None?
    ensures var (h, outcome) := Publish(g, commit, w);
            && (h.tip != g.tip <==>
                  && w.readable && w.push != NotSent && g.tip != Some(commit)
                  && (g.tip.None? || (g.tip == g.lastPushed && IsAncestor(g.tip.value, commit))))
            && (h.tip != g.tip ==> h.tip == Some(commit))
            && (outcome == CheckpointConflict <==>
                  && w.readable && g.tip.Some? && g.tip != Some(commit)
                  && (g.tip != g.lastPushed || (w.push != NotSent && !IsAncestor(g.tip.value, commit))))
            && (outcome == CheckpointConflict ==> h == g)
  {
  }

  /** One lost answer, from any state: publishing the same commit converges.  Publishing a newer one
    * is refused, without effect and however often it is tried, if and only if the sink's memory does not
    * already hold the landed commit. */
  lemma LostAnswer(g: GitState, commit: Commit, newer: Commit, w: PublishWorld, next: PublishWorld)
    requires w.readable && w.foreign.None? && w.push == AnswerLost
    requires Decide(g.tip, g.lastPushed, commit) == Push && FastForward(g.tip, commit)
    requires newer != commit && IsAncestor(commit, newer)
    requires next.readable
    ensures var h := Publish(g, commit, w).0;
            && h.tip == Some(commit)
            && (next.cursorWritable
                ==> Publish(h, commit, next) == (GitState(Some(commit), Some(commit), Some(commit)), Published))
            && (Decide(h.tip, h.lastPushed, newer) == Refuse <==> g.lastPushed != Some(commit))
            && (g.lastPushed != Some(commit) ==> Publish(h, newer, next) == (h, CheckpointConflict))
  {
  }

  // ---------------------------------------------------------------- runs

  datatype GitStep =
    | PublishStep(commit: Commit, w: PublishWorld)
    | ForeignStep(tip: Option<Commit>)
    | RestartStep

  function After(g: GitState, step: GitStep): GitState {
    match step
    case PublishStep(commit, w) => Publish(g, commit, w).0
    case ForeignStep(tip) => g.(tip := tip)
    case RestartStep => Restart(g)
  }

  function AfterAll(g: GitState, steps: seq<GitStep>): GitState {
    if steps == [] then g else After(AfterAll(g, steps[..|steps| - 1]), steps[|steps| - 1])
  }

  /** Only this sink moves the ref. */
  predicate Alone(step: GitStep) {
    match step
    case PublishStep(_, w) => w.foreign.None?
    case ForeignStep(_) => false
    case RestartStep => true
  }

  predicate Forward(a: Option<Commit>, b: Option<Commit>) {
    a.Some? ==> b.Some? && IsAncestor(a.value, b.value)
  }

  lemma PublishForward(g: GitState, commit: Commit, w: PublishWorld)
    requires w.foreign.None?
    ensures Forward(g.tip, Publish(g, commit, w).0.tip)
  {
    hide IsAncestor;
    if g.tip.Some? {
      Reflexive(g.tip.value);
    }
  }

  lemma Reflexive(c: Commit)
    ensures IsAncestor(c, c)
  {
  }

  /** While only this sink moves the ref, the ref is never deleted and never leaves a commit behind:
    * whatever it once held stays an ancestor of what it holds, through lost answers, failures and
    * restarts. */
  lemma {:induction false} RefOnlyForward(g: GitState, steps: seq<GitStep>)
    requires forall i :: 0 <= i < |steps| ==> Alone(steps[i])
    ensures Forward(g.tip, AfterAll(g, steps).tip)
  {
    hide IsAncestor, Publish;
    if steps == [] {
      if g.tip.Some? {
        Reflexive(g.tip.value);
      }
    } else {
      var n := |steps| - 1;
      RefOnlyForward(g, steps[..n]);
      var h := AfterAll(g, steps[..n]);
      var k := After(h, steps[n]);
      assert Alone(steps[n]);
      if steps[n].PublishStep? {
        PublishForward(h, steps[n].commit, steps[n].w);
      } else if h.tip.Some? {
        Reflexive(h.tip.value);
      }
      if g.tip.Some? {
        AncestorTransitive(g.tip.value, h.tip.value, k.tip.value);
      }
    }
  }

  /** Only this sink moves the ref, always towards the same commit. */
  predicate Retry(step: GitStep, commit: Commit) {
    step.PublishStep? && step.commit == commit && step.w.foreign.None?
  }

  lemma {:induction false} RetriesKeep(g: GitState, commit: Commit, steps: seq<GitStep>)
    requires forall i :: 0 <= i < |steps| ==> Retry(steps[i], commit)
    requires Decide(g.tip, g.lastPushed, commit) != Refuse && FastForward(g.tip, commit)
    ensures var h := AfterAll(g, steps);
            h.tip == Some(commit) || (h.tip == g.tip && h.lastPushed == g.lastPushed)
  {
    hide IsAncestor;
    if steps != [] {
      var n := |steps| - 1;
      RetriesKeep(g, commit, steps[..n]);
      assert Retry(steps[n], commit);
    }
  }

  /** A publication that is not refused at first never becomes a conflict by being retried, however often
    * and however the attempts before it failed; and it succeeds as soon as nothing fails. */
  lemma RetriesConverge(g: GitState, commit: Commit, steps: seq<GitStep>, w: PublishWorld)
    requires forall i :: 0 <= i < |steps| ==> Retry(steps[i], commit)
    requires Decide(g.tip, g.lastPushed, commit) != Refuse && FastForward(g.tip, commit)
    requires w.foreign.None?
    ensures var (h, outcome) := Publish(AfterAll(g, steps), commit, w);
            && outcome != CheckpointConflict
            && (w.readable && w.push == Landed && w.cursorWritable ==> outcome == Published)
            && (outcome == Published ==> h == GitState(Some(commit), Some(commit), Some(commit)))
  {
    hide AfterAll, IsAncestor;
    RetriesKeep(g, commit, steps);
  }

  // ---------------------------------------------------------------- a forgotten push

  const NEW_REF := GitState(None, None, None)

  /** Each commit to publish equals or descends from those before it. */
  ghost predicate Growing(steps: seq<GitStep>) {
    forall i, j :: 0 <= i < j < |steps| && steps[i].PublishStep? && steps[j].PublishStep?
                   ==> IsAncestor(steps[i].commit, steps[j].commit)
  }

  ghost predicate AllAlone(steps: seq<GitStep>) {
    forall i :: 0 <= i < |steps| ==> Alone(steps[i])
  }

  /** The last step whose push moved the ref. */
  function LastLanding(steps: seq<GitStep>): (k: Option<nat>)
    ensures k.Some? ==> k.value < |steps|
  {
    if steps == [] then None
    else
      var n := |steps| - 1;
      if AfterAll(NEW_REF, steps).tip != AfterAll(NEW_REF, steps[..n]).tip then Some(n) else LastLanding(steps[..n])
  }

  /** Step `i` told the sink that the commit of the landing `k` is in the ref: the landing itself, if its
    * answer arrived, or a later publication of the same commit. */
  predicate Remembers(steps: seq<GitStep>, k: nat, i: nat)
    requires k < |steps| && i < |steps|
  {
    && k <= i && steps[k].PublishStep? && steps[i].PublishStep? && steps[i].commit == steps[k].commit
    && steps[i].w.readable && (i == k ==> steps[i].w.push == Landed)
  }

  predicate RestartedAfter(steps: seq<GitStep>, i: nat) {
    exists j :: i < j < |steps| && steps[j].RestartStep?
  }

  /** The sink was told of the landing at `k`, and either wrote its cursor then or was not restarted since. */
  predicate Known(steps: seq<GitStep>, k: nat)
    requires k < |steps|
  {
    exists i :: k <= i < |steps| && Remembers(steps, k, i) && (steps[i].w.cursorWritable || !RestartedAfter(steps, i))
  }

  predicate Saved(steps: seq<GitStep>, k: nat)
    requires k < |steps|
  {
    exists i :: k <= i < |steps| && Remembers(steps, k, i) && steps[i].w.cursorWritable
  }

  /** The newest landed push is forgotten: its answer was lost, or its cursor was not written and the sink
    * was restarted; and nothing since has told the sink about it to stay. */
  predicate Forgotten(steps: seq<GitStep>) {
    LastLanding(steps).Some? && !Known(steps, LastLanding(steps).value)
  }

  /** What the state is, told from the steps. */
  ghost predicate Tracks(steps: seq<GitStep>) {
    var h := AfterAll(NEW_REF, steps);
    match LastLanding(steps)
    case None => h == NEW_REF
    case Some(k) =>
      && steps[k].PublishStep? && h.tip == Some(steps[k].commit)
      && (h.lastPushed == h.tip <==> Known(steps, k))
      && (h.cursor == h.tip <==> Saved(steps, k))
      && Behind(h.lastPushed, steps[k].commit) && Behind(h.cursor, steps[k].commit)
  }

  predicate Behind(c: Option<Commit>, tip: Commit) {
    c.Some? ==> IsAncestor(c.value, tip)
  }

  lemma RestartedAppend(steps: seq<GitStep>, x: GitStep, i: nat)
    requires i < |steps|
    ensures RestartedAfter(steps + [x], i) <==> RestartedAfter(steps, i) || x.RestartStep?
  {
    var more := steps + [x];
    assert more[|steps|] == x;
    if j :| i < j < |steps| && steps[j].RestartStep? {
      assert more[j] == steps[j];
    }
    if j :| i < j < |more| && more[j].RestartStep? {
      assert j < |steps| ==> more[j] == steps[j];
    }
  }

  /** The same landing, one step later. */
  lemma KnownAppend(steps: seq<GitStep>, x: GitStep, k: nat)
    requires k < |steps| && steps[k].PublishStep?
    ensures var told := x.PublishStep? && x.commit == steps[k].commit && x.w.readable;
            && (Saved(steps + [x], k) <==> Saved(steps, k) || (told && x.w.cursorWritable))
            && (Known(steps + [x], k) <==> told || (if x.RestartStep? then Saved(steps, k) else Known(steps, k)))
  {
    hide RestartedAfter;
    var more := steps + [x];
    var n := |steps|;
    assert more[n] == x && more[k] == steps[k];
    forall i | k <= i < n
      ensures Remembers(more, k, i) <==> Remembers(steps, k, i)
      ensures more[i] == steps[i]
      ensures RestartedAfter(more, i) <==> RestartedAfter(steps, i) || x.RestartStep?
    {
      RestartedAppend(steps, x, i);
    }
    NotRestartedYet(more, n);
  }

  lemma NotRestartedYet(steps: seq<GitStep>, i: nat)
    requires i + 1 == |steps|
    ensures !RestartedAfter(steps, i)
  {
  }

  /** A landing, just now. */
  lemma KnownNow(steps: seq<GitStep>, x: GitStep)
    requires x.PublishStep?
    ensures var more, n := steps + [x], |steps|;
            && (Known(more, n) <==> x.w.readable && x.w.push == Landed)
            && (Saved(more, n) <==> x.w.readable && x.w.push == Landed && x.w.cursorWritable)
  {
    var more, n := steps + [x], |steps|;
    assert more[n] == x;
    NotRestartedYet(more, n);
    assert Remembers(more, n, n) <==> x.w.readable && x.w.push == Landed;
  }

  lemma LandingAppend(steps: seq<GitStep>, x: GitStep)
    ensures var h := AfterAll(NEW_REF, steps);
            && AfterAll(NEW_REF, steps + [x]) == After(h, x)
            && LastLanding(steps + [x]) == (if After(h, x).tip != h.tip then Some(|steps|) else LastLanding(steps))
  {
    assert (steps + [x])[..|steps|] == steps;
  }

  /** A publication that moves the ref. */
  lemma LandingStep(steps: seq<GitStep>, x: GitStep)
    requires Tracks(steps) && x.PublishStep? && Alone(x) && Growing(steps + [x])
    requires After(AfterAll(NEW_REF, steps), x).tip != AfterAll(NEW_REF, steps).tip
    ensures Tracks(steps + [x])
  {
    hide Known, Saved, Growing, AfterAll, LastLanding;
    var h := AfterAll(NEW_REF, steps);
    var c := x.commit;
    LandingAppend(steps, x);
    KnownNow(steps, x);
    assert (steps + [x])[|steps|] == x;
    Reflexive(c);
    match LastLanding(steps)
    case None =>
    case Some(k) =>
      GrowingLast(steps, x, k);
      OlderStays(h.lastPushed, steps[k].commit, c);
      OlderStays(h.cursor, steps[k].commit, c);
  }

  lemma GrowingLast(steps: seq<GitStep>, x: GitStep, k: nat)
    requires Growing(steps + [x]) && k < |steps| && steps[k].PublishStep? && x.PublishStep?
    ensures IsAncestor(steps[k].commit, x.commit)
  {
    var more := steps + [x];
    assert more[k] == steps[k] && more[|steps|] == x;
  }

  /** What was behind the old tip is behind a new one, and is not the new one. */
  lemma OlderStays(c: Option<Commit>, tip: Commit, newer: Commit)
    requires Behind(c, tip) && IsAncestor(tip, newer)
    ensures Behind(c, newer) && (tip != newer ==> c != Some(newer))
  {
    if c.Some? {
      AncestorTransitive(c.value, tip, newer);
      if c == Some(newer) {
        AncestorAntisymmetric(tip, newer);
      }
    }
  }

  /** A step that leaves the ref alone. */
  lemma QuietStep(steps: seq<GitStep>, x: GitStep)
    requires Tracks(steps) && Alone(x) && Growing(steps + [x])
    requires After(AfterAll(NEW_REF, steps), x).tip == AfterAll(NEW_REF, steps).tip
    ensures Tracks(steps + [x])
  {
    hide Known, Saved, Growing, AfterAll, LastLanding, IsAncestor;
    LandingAppend(steps, x);
    match LastLanding(steps)
    case None =>
    case Some(k) =>
      assert (steps + [x])[k] == steps[k];
      KnownAppend(steps, x, k);
      Reflexive(steps[k].commit);
      SavedIsKnown(steps, k);
      if x.PublishStep? {
        GrowingLast(steps, x, k);
      }
  }

  lemma SavedIsKnown(steps: seq<GitStep>, k: nat)
    requires k < |steps|
    ensures Saved(steps, k) ==> Known(steps, k)
  {
    hide RestartedAfter;
  }

  lemma {:induction false} RunTracks(steps: seq<GitStep>)
    requires AllAlone(steps) && Growing(steps)
    ensures Tracks(steps)
  {
    hide Tracks, After, IsAncestor;
    if steps == [] {
      assert Tracks([]) by {
        NothingTracked();
      }
    } else {
      var init, x := steps[..|steps| - 1], steps[|steps| - 1];
      assert steps == init + [x];
      assert Alone(x);
      RunTracks(init);
      if After(AfterAll(NEW_REF, init), x).tip != AfterAll(NEW_REF, init).tip {
        OnlyPublishMoves(AfterAll(NEW_REF, init), x);
        LandingStep(init, x);
      } else {
        QuietStep(init, x);
      }
    }
  }

  lemma NothingTracked()
    ensures Tracks([])
  {
  }

  lemma OnlyPublishMoves(g: GitState, x: GitStep)
    requires Alone(x) && After(g, x).tip != g.tip
    ensures x.PublishStep?
  {
  }

  /** Over every run of a sole writer whose commits descend from each other: publishing a next commit, when
    * the ref can be read, is refused if and only if the ref exists and holds another commit than the sink
    * remembers and than is asked for; and the ref and the memory differ if and only if the newest landed push
    * is forgotten. */
  lemma RefusedExactly(steps: seq<GitStep>, commit: Commit, w: PublishWorld)
    requires AllAlone(steps) && Growing(steps + [PublishStep(commit, w)])
    requires w.readable && w.foreign.None?
    ensures var h := AfterAll(NEW_REF, steps);
            && (Publish(h, commit, w).1 == CheckpointConflict
                <==> h.tip.Some? && h.tip != h.lastPushed && h.tip != Some(commit))
            && (h.tip.Some? && h.tip != h.lastPushed <==> Forgotten(steps))
            && (Publish(h, commit, w).1 == CheckpointConflict ==> Publish(h, commit, w).0 == h)
  {
    hide Known, Saved, AfterAll, LastLanding, Growing;
    var x := PublishStep(commit, w);
    GrowingInit(steps, x);
    RunTracks(steps);
    var h := AfterAll(NEW_REF, steps);
    if LastLanding(steps).Some? {
      GrowingLast(steps, x, LastLanding(steps).value);
    }
    PublishExactly(h, commit, w);
  }

  lemma GrowingInit(steps: seq<GitStep>, x: GitStep)
    requires Growing(steps + [x])
    ensures Growing(steps)
  {
    hide IsAncestor;
    var more := steps + [x];
    forall i, j | 0 <= i < j < |steps| && steps[i].PublishStep? && steps[j].PublishStep?
      ensures IsAncestor(steps[i].commit, steps[j].commit)
    {
      assert more[i] == steps[i] && more[j] == steps[j];
    }
  }

  /** Refused for good: once the newest landed push is forgotten, no later steps move the ref or restore the
    * memory, restarts included, unless the landed commit itself is published again. */
  lemma {:induction false} ForgottenForGood(steps: seq<GitStep>, more: seq<GitStep>)
    requires AllAlone(steps) && Growing(steps) && Forgotten(steps) && AllAlone(more)
    requires var landed := AfterAll(NEW_REF, steps).tip;
             forall i :: 0 <= i < |more| && more[i].PublishStep? && more[i].w.readable ==> Some(more[i].commit) != landed
    ensures var h, t := AfterAll(NEW_REF, steps), AfterAll(AfterAll(NEW_REF, steps), more);
            t.tip == h.tip && t.tip.Some? && t.tip != t.lastPushed && t.tip != t.cursor
  {
    hide Known, Saved, LastLanding, Growing, IsAncestor;
    if more == [] {
      RunTracks(steps);
      SavedIsKnown(steps, LastLanding(steps).value);
    } else {
      var n := |more| - 1;
      ForgottenForGood(steps, more[..n]);
      assert Alone(more[n]);
    }
  }

  /** Two runs that end with the newest push forgotten, after which a child of the landed commit is refused in
    * every readable world: the answer to the push is lost, or it arrives but the cursor cannot be written
    * before a restart. */
  lemma ForgottenPushes(commit: Commit, tree: Tree, w: PublishWorld)
    requires w.readable && w.foreign.None?
    ensures var lost := [PublishStep(commit, PublishWorld(true, None, AnswerLost, true))];
            var unsaved := [PublishStep(commit, PublishWorld(true, None, Landed, false)), RestartStep];
            && Publish(AfterAll(NEW_REF, lost), Commit(commit, tree), w) == (AfterAll(NEW_REF, lost), CheckpointConflict)
            && Publish(AfterAll(NEW_REF, unsaved), Commit(commit, tree), w)
               == (AfterAll(NEW_REF, unsaved), CheckpointConflict)
            && Forgotten(lost) && Forgotten(unsaved)
  {
    var lost := [PublishStep(commit, PublishWorld(true, None, AnswerLost, true))];
    var first := PublishStep(commit, PublishWorld(true, None, Landed, false));
    var unsaved := [first, RestartStep];
    assert lost[..0] == [] && unsaved[..1] == [first] && [first][..0] == [];
    assert AfterAll(NEW_REF, []) == NEW_REF;
    assert AfterAll(NEW_REF, lost) == GitState(Some(commit), None, None);
    assert AfterAll(NEW_REF, [first]) == GitState(Some(commit), Some(commit), None);
    assert AfterAll(NEW_REF, unsaved) == GitState(Some(commit), None, None);
    NotItsChild(commit, tree);
    assert LastLanding(lost) == Some(0);
    assert LastLanding([first]) == Some(0);
    assert LastLanding(unsaved) == Some(0);
    assert unsaved[1].RestartStep?;
    assert RestartedAfter(unsaved, 0);
  }

  lemma NotItsChild(commit: Commit, tree: Tree)
    ensures Commit(commit, tree) != commit
  {
    assert CommitDepth(Commit(commit, tree)) == CommitDepth(commit) + 1;
  }

  // ---------------------------------------------------------------- the sink object

  class RemoteRef {
    var tip: Option<Commit>

    constructor ()
      ensures tip == None
    {
      tip := None;
    }
  }

  class GitCheckpointSink {
    const remote: RemoteRef
    var lastPushed: Option<Commit>
    var cursor: Option<Commit>

    constructor (remote: RemoteRef, cursor: Option<Commit>)
      ensures this.remote == remote && this.cursor == cursor && lastPushed == cursor
    {
      this.remote, this.cursor, this.lastPushed := remote, cursor, cursor;
    }

    ghost function State(): GitState
      reads this, remote
    {
      GitState(remote.tip, lastPushed, cursor)
    }

    method PublishCheckpoint(commit: Commit, w: PublishWorld) returns (outcome: PublishOutcome)
      modifies this, remote
      ensures (State(), outcome) == Publish(old(State()), commit, w)
    {
      outcome := PushCheckpoint(commit, lastPushed, w);
      if outcome == Published {
        lastPushed := Some(commit);
        if w.cursorWritable {
          cursor := Some(commit);
        } else {
          outcome := PublishFailed;
        }
      }
    }

    /** Reads the tip, decides, and pushes if it must. */
    method PushCheckpoint(commit: Commit, expected: Option<Commit>, w: PublishWorld) returns (outcome: PublishOutcome)
      requires expected == lastPushed
      modifies remote
      ensures var (g, r) := Publish(old(State()), commit, w.(cursorWritable := true));
              && outcome == r && remote.tip == g.tip
              && (outcome == Published ==> g.lastPushed == g.cursor == Some(commit))
              && (outcome != Published ==> g.lastPushed == old(State()).lastPushed && g.cursor == old(State()).cursor)
    {
      if !w.readable {
        return PublishFailed;
      }
      var tip := remote.tip;
      match (tip, expected) {
        case (None, _) =>
        case (Some(t), Some(e)) =>
          if t == commit {
            return Published;
          }
          if t != e {
            return CheckpointConflict;
          }
        case (Some(t), None) =>
          return if t == commit then Published else CheckpointConflict;
      }
      if w.foreign.Some? {
        remote.tip := w.foreign.value;
      }
      if w.push == NotSent {
        return PublishFailed;
      }
      if !FastForward(remote.tip, commit) {
        return CheckpointConflict;
      }
      remote.tip := Some(commit);
      outcome := if w.push == AnswerLost then PublishFailed else Published;
    }
  }
}
