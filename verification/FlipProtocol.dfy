/** Atomic page flipping of the games' primary and overlay planes: the application's main
    loop interleaved with the display controller. The state machine ranges over any number
    of buffers per plane; the games use three. */
module FlipProtocol {
  import opened Basics

  const NUM_BUFFERS: nat := 3

  /** Where the main loop is. */
  datatype Phase = RenderPrimary | RenderOverlay | Waiting | Committing

  /** One buffer index per plane. */
  datatype Images = Images(primary: nat, overlay: nat)

  /** The display controller: what it scans out, the accepted flip it will scan out from the
      next vertical blank on, and the completion events nobody has read yet. */
  datatype Kernel = Kernel(shown: Images, queued: Option<Images>, events: nat)

  /** primary[b] and overlay[b] are the number of the frame last drawn into buffer b. */
  datatype State = State(front: Images, flipPending: bool, phase: Phase, kernel: Kernel,
                         primary: seq<nat>, overlay: seq<nat>, frame: nat)

  datatype Step =
    | DrawPrimary
    | DrawOverlay
    | WaitDone                 // nothing pending, the wait returns
    | Deliver(count: nat)      // poll is readable, count completion events are handled
    | GiveUp                   // poll timed out or failed
    | Interrupted              // poll was interrupted by a signal
    | Commit(granted: bool)    // the atomic commit, accepted or refused (busy or any other error)
    | VerticalBlank            // the queued flip reaches the screen

  /** The buffer after the front one, cyclically. */
  function Back(front: nat, n: nat): (back: nat)
    requires front < n
    ensures back == if front + 1 == n then 0 else front + 1
  {
    (front + 1) % n
  }

  function Init(n: nat): State {
    State(Images(0, 0), false, RenderPrimary, Kernel(Images(0, 0), None, 0),
          seq(n, _ => 0), seq(n, _ => 0), 1)
  }

  ghost predicate WellFormed(s: State) {
    && s.front.primary < |s.primary| && s.front.overlay < |s.overlay|
  }

  function BackImages(s: State): Images
    requires WellFormed(s)
  {
    Images(Back(s.front.primary, |s.primary|), Back(s.front.overlay, |s.overlay|))
  }

  /** When a step can happen. The controller accepts no second flip while one is queued. */
  predicate Enabled(s: State, step: Step) {
    match step
    case DrawPrimary => s.phase == RenderPrimary
    case DrawOverlay => s.phase == RenderOverlay
    case WaitDone => s.phase == Waiting && !s.flipPending
    case Deliver(count) => s.phase == Waiting && s.flipPending && 1 <= count <= s.kernel.events
    case GiveUp => s.phase == Waiting && s.flipPending
    case Interrupted => s.phase == Waiting && s.flipPending
    case Commit(granted) => s.phase == Committing && (granted ==> s.kernel.queued.None?)
    case VerticalBlank => s.kernel.queued.Some?
  }

  function Next(s: State, step: Step): (s': State)
    requires WellFormed(s) && Enabled(s, step)
    ensures WellFormed(s') && |s'.primary| == |s.primary| && |s'.overlay| == |s.overlay|
  {
    var back := BackImages(s);
    match step
    case DrawPrimary => s.(primary := s.primary[back.primary := s.frame], phase := RenderOverlay)
    case DrawOverlay => s.(overlay := s.overlay[back.overlay := s.frame], phase := Waiting)
    case WaitDone => s.(phase := Committing)
    case Deliver(count) => s.(flipPending := false, kernel := s.kernel.(events := s.kernel.events - count))
    case GiveUp => s.(phase := Committing)
    case Interrupted => s
    case Commit(granted) =>
      var s1 := s.(phase := RenderPrimary, frame := s.frame + 1);
      if granted then s1.(kernel := s.kernel.(queued := Some(back)), flipPending := true, front := back)
      else s1
    case VerticalBlank =>
      s.(kernel := Kernel(s.kernel.queued.value, None, s.kernel.events + 1))
  }

  ghost predicate Legal(s: State, steps: seq<Step>)
    requires WellFormed(s)
    decreases |steps|
  {
    |steps| == 0 || (Enabled(s, steps[0]) && Legal(Next(s, steps[0]), steps[1..]))
  }

  ghost function Run(s: State, steps: seq<Step>): (s': State)
    requires WellFormed(s) && Legal(s, steps)
    ensures WellFormed(s')
    decreases |steps|
  {
    if |steps| == 0 then s else Run(Next(s, steps[0]), steps[1..])
  }

  lemma {:induction false} Extend(s: State, steps: seq<Step>, step: Step)
    requires WellFormed(s) && Legal(s, steps) && Enabled(Run(s, steps), step)
    ensures Legal(s, steps + [step]) && Run(s, steps + [step]) == Next(Run(s, steps), step)
    decreases |steps|
  {
    if |steps| == 0 {
      assert steps + [step] == [step] && [step][1..] == [];
    } else {
      Extend(Next(s, steps[0]), steps[1..], step);
      assert (steps + [step])[1..] == steps[1..] + [step];
    }
  }

  // ----- safety

  /** Neither buffer the application draws into is on screen or queued for it. */
  ghost predicate BackBuffersFree(s: State)
    requires WellFormed(s)
  {
    var back := BackImages(s);
    && back.primary != s.kernel.shown.primary && back.overlay != s.kernel.shown.overlay
    && (s.kernel.queued.Some? ==>
          back.primary != s.kernel.queued.value.primary && back.overlay != s.kernel.queued.value.overlay)
  }

  /** Both planes show, and will show, complete images of one and the same frame. */
  ghost predicate PlanesAgree(s: State) {
    && s.front.primary == s.front.overlay
    && SameFrame(s, s.kernel.shown)
    && (s.kernel.queued.Some? ==> SameFrame(s, s.kernel.queued.value))
  }

  ghost predicate SameFrame(s: State, i: Images) {
    i.primary < |s.primary| && i.overlay < |s.overlay| && s.primary[i.primary] == s.overlay[i.overlay]
  }

  /** The inductive invariant; flipPending does not occur in it. */
  ghost predicate Inv(s: State) {
    var n, shown := |s.primary|, s.kernel.shown;
    && 0 < n == |s.overlay|
    && s.front.primary == s.front.overlay < n
    && shown.primary == shown.overlay < n
    && s.primary[shown.primary] == s.overlay[shown.primary]
    && s.primary[s.front.primary] == s.overlay[s.front.primary] < s.frame
    && (match s.kernel.queued
        case None => shown == s.front
        case Some(q) =>
          && q == s.front && Back(shown.primary, n) == s.front.primary
          && s.primary[shown.primary] < s.primary[s.front.primary])
    && (s.phase != RenderPrimary ==> s.primary[Back(s.front.primary, n)] == s.frame)
    && (s.phase == Waiting || s.phase == Committing ==> s.overlay[Back(s.front.primary, n)] == s.frame)
  }

  lemma InvStep(s: State, step: Step)
    requires Inv(s) && |s.primary| >= 3 && Enabled(s, step)
    ensures Inv(Next(s, step))
  {
  }

  lemma {:induction false} InvRun(s: State, steps: seq<Step>)
    requires Inv(s) && |s.primary| >= 3 && Legal(s, steps)
    ensures Inv(Run(s, steps)) && |Run(s, steps).primary| == |s.primary|
    decreases |steps|
  {
    if |steps| > 0 {
      InvStep(s, steps[0]);
      InvRun(Next(s, steps[0]), steps[1..]);
    }
  }

  /** In every interleaving the buffers being drawn are neither on screen nor queued, and the
      screen never mixes two frames; no use is made of the application's pending flag. */
  lemma DrawingIsSafe(n: nat, steps: seq<Step>)
    requires n >= 3 && Legal(Init(n), steps)
    ensures var s := Run(Init(n), steps); BackBuffersFree(s) && PlanesAgree(s)
  {
    InvRun(Init(n), steps);
  }

  /** Three buffers per plane are not only enough but needed: the images are drawn before the
      wait, so with fewer the loop draws into the buffer on screen. */
  lemma SafeIffThreeBuffers(n: nat)
    requires n > 0
    ensures (forall steps :: Legal(Init(n), steps) ==> BackBuffersFree(Run(Init(n), steps))) <==> n >= 3
  {
    if n >= 3 {
      forall steps | Legal(Init(n), steps)
        ensures BackBuffersFree(Run(Init(n), steps))
      {
        DrawingIsSafe(n, steps);
      }
    } else {
      var steps := if n == 1 then [] else [DrawPrimary, DrawOverlay, WaitDone, Commit(true)];
      FirstFlip(n);
      assert Legal(Init(n), []) && !BackBuffersFree(Run(Init(n), steps));
    }
  }

  lemma FirstFlip(n: nat)
    requires n > 0
    ensures var steps := [DrawPrimary, DrawOverlay, WaitDone, Commit(true)];
            && Legal(Init(n), steps)
            && Run(Init(n), steps).kernel == Kernel(Images(0, 0), Some(Images(Back(0, n), Back(0, n))), 0)
            && Run(Init(n), steps).front == Images(Back(0, n), Back(0, n))
            && |Run(Init(n), steps).primary| == |Run(Init(n), steps).overlay| == n
            && Run(Init(n), steps).flipPending && Run(Init(n), steps).phase == RenderPrimary
  {
  }

  // ----- what the viewer sees

  ghost function ShownFrame(s: State): nat
    requires Inv(s)
  {
    s.primary[s.kernel.shown.primary]
  }

  /** The screen never goes back to an older frame, and every vertical blank that completes a
      flip shows a newer one. */
  lemma {:induction false} ShownFramesAdvance(s: State, steps: seq<Step>)
    requires Inv(s) && |s.primary| >= 3 && Legal(s, steps)
    ensures Inv(Run(s, steps))
    ensures ShownFrame(s) + Blanks(steps) <= ShownFrame(Run(s, steps))
    decreases |steps|
  {
    if |steps| > 0 {
      InvStep(s, steps[0]);
      ShownFramesAdvance(Next(s, steps[0]), steps[1..]);
    }
  }

  function Blanks(steps: seq<Step>): nat {
    if |steps| == 0 then 0 else (if steps[0].VerticalBlank? then 1 else 0) + Blanks(steps[1..])
  }

  // ----- how far the pending flag can be trusted

  /** The flag is never raised without a completion still to come, so the wait cannot block for good. */
  ghost predicate FlagHasCause(s: State) {
    s.flipPending ==> s.kernel.queued.Some? || s.kernel.events > 0
  }

  /** What holds as long as no wait was given up. */
  ghost predicate FlagIsAccurate(s: State) {
    && (s.flipPending <==> s.kernel.queued.Some? || s.kernel.events > 0)
    && s.kernel.events == (if s.flipPending && s.kernel.queued.None? then 1 else 0)
    && (s.phase == Committing ==> !s.flipPending)
  }

  lemma {:induction false} FlagHasCauseRun(s: State, steps: seq<Step>)
    requires WellFormed(s) && Legal(s, steps) && FlagHasCause(s)
    ensures FlagHasCause(Run(s, steps))
    decreases |steps|
  {
    if |steps| > 0 {
      FlagHasCauseRun(Next(s, steps[0]), steps[1..]);
    }
  }

  ghost predicate AlwaysAccurate(s: State, steps: seq<Step>)
    requires WellFormed(s) && Legal(s, steps)
    decreases |steps|
  {
    FlagIsAccurate(s) && (|steps| > 0 ==> AlwaysAccurate(Next(s, steps[0]), steps[1..]))
  }

  /** The flag is exact at every moment, commits included, if and only if no wait is given up;
      then the controller is idle whenever the loop commits, so a busy refusal can only follow a
      wait that was given up. */
  lemma {:induction false} FlagIsAccurateRun(s: State, steps: seq<Step>)
    requires WellFormed(s) && Legal(s, steps) && FlagIsAccurate(s)
    ensures AlwaysAccurate(s, steps) <==> GiveUp !in steps
    ensures var t := Run(s, steps);
            GiveUp !in steps ==> FlagIsAccurate(t) && (t.phase == Committing ==> t.kernel.queued.None?)
    decreases |steps|
  {
    hide Next, Enabled, FlagIsAccurate;
    if s.phase == Committing {
      AccurateIdle(s);
    }
    if |steps| > 0 {
      AccurateStep(s, steps[0]);
      if FlagIsAccurate(Next(s, steps[0])) {
        FlagIsAccurateRun(Next(s, steps[0]), steps[1..]);
      }
    }
  }

  lemma AccurateStep(s: State, step: Step)
    requires WellFormed(s) && Enabled(s, step) && FlagIsAccurate(s)
    ensures FlagIsAccurate(Next(s, step)) <==> step != GiveUp
  {
  }

  lemma AccurateIdle(s: State)
    requires FlagIsAccurate(s) && s.phase == Committing
    ensures s.kernel.queued.None?
  {
  }

  /** Flips granted whose completion has not been handled yet. */
  function Outstanding(s: State): nat {
    s.kernel.events + if s.kernel.queued.Some? then 1 else 0
  }

  ghost predicate FlagTellsTruth(s: State) {
    s.flipPending <==> Outstanding(s) > 0
  }

  ghost predicate AlwaysTruthful(s: State, steps: seq<Step>)
    requires WellFormed(s) && Legal(s, steps)
    decreases |steps|
  {
    FlagTellsTruth(s) && (|steps| > 0 ==> AlwaysTruthful(Next(s, steps[0]), steps[1..]))
  }

  /** Every delivery finds all outstanding completions arrived, and handles all of them. */
  ghost predicate DeliveriesComplete(s: State, steps: seq<Step>)
    requires WellFormed(s) && Legal(s, steps)
    decreases |steps|
  {
    |steps| > 0 ==>
      && (steps[0].Deliver? ==> steps[0].count == Outstanding(s))
      && DeliveriesComplete(Next(s, steps[0]), steps[1..])
  }

  lemma TruthStep(s: State, step: Step)
    requires WellFormed(s) && Enabled(s, step) && FlagTellsTruth(s)
    ensures FlagTellsTruth(Next(s, step)) <==> (step.Deliver? ==> step.count == Outstanding(s))
  {
  }

  lemma {:induction false} TruthfulIffComplete(s: State, steps: seq<Step>)
    requires WellFormed(s) && Legal(s, steps) && FlagTellsTruth(s)
    ensures AlwaysTruthful(s, steps) <==> DeliveriesComplete(s, steps)
    decreases |steps|
  {
    hide Next, Enabled, FlagTellsTruth;
    if |steps| > 0 {
      TruthStep(s, steps[0]);
      if FlagTellsTruth(Next(s, steps[0])) {
        TruthfulIffComplete(Next(s, steps[0]), steps[1..]);
      }
    }
  }

  /** No commit is granted while a completion waits to be read. */
  ghost predicate NoEarlyCommit(s: State, steps: seq<Step>)
    requires WellFormed(s) && Legal(s, steps)
    decreases |steps|
  {
    |steps| > 0 ==>
      && (steps[0] == Commit(true) ==> s.kernel.events == 0)
      && NoEarlyCommit(Next(s, steps[0]), steps[1..])
  }

  /** Then at most one flip is ever outstanding, and every delivery is complete. */
  lemma {:induction false} NoEarlyCommitSuffices(s: State, steps: seq<Step>)
    requires WellFormed(s) && Legal(s, steps) && Outstanding(s) <= 1 && NoEarlyCommit(s, steps)
    ensures DeliveriesComplete(s, steps) && Outstanding(Run(s, steps)) <= 1
    decreases |steps|
  {
    if |steps| > 0 {
      NoEarlyCommitSuffices(Next(s, steps[0]), steps[1..]);
    }
  }

  /** Only a wait that was given up leads to such a commit. */
  lemma {:induction false} WaitsPreventEarlyCommit(s: State, steps: seq<Step>)
    requires WellFormed(s) && Legal(s, steps) && FlagIsAccurate(s) && GiveUp !in steps
    ensures NoEarlyCommit(s, steps)
    decreases |steps|
  {
    if |steps| > 0 {
      WaitsPreventEarlyCommit(Next(s, steps[0]), steps[1..]);
    }
  }

  /** The flag, in every run from initialisation. It is never up without cause. It is right at
      every moment if and only if every delivery handles all that is outstanding; that is so when
      no commit is granted over an unread completion, and this in turn when no wait is given up.
      In the last case the controller is also idle whenever the loop commits. */
  lemma FlagFromStart(n: nat, steps: seq<Step>)
    requires n > 0 && Legal(Init(n), steps)
    ensures var s := Run(Init(n), steps);
            && FlagHasCause(s)
            && (AlwaysTruthful(Init(n), steps) <==> DeliveriesComplete(Init(n), steps))
            && (NoEarlyCommit(Init(n), steps) ==> DeliveriesComplete(Init(n), steps))
            && (GiveUp !in steps ==>
                  && NoEarlyCommit(Init(n), steps)
                  && FlagIsAccurate(s) && (s.phase == Committing ==> s.kernel.queued.None?))
  {
    FlagHasCauseRun(Init(n), steps);
    TruthfulIffComplete(Init(n), steps);
    if NoEarlyCommit(Init(n), steps) {
      NoEarlyCommitSuffices(Init(n), steps);
    }
    if GiveUp !in steps {
      FlagIsAccurateRun(Init(n), steps);
      WaitsPreventEarlyCommit(Init(n), steps);
    }
  }

  /** After a timeout the flag can be down while a flip is still queued: the late completion of
      an earlier flip is taken for the newer one. */
  lemma FlagCanBeWrong() returns (steps: seq<Step>)
    ensures Legal(Init(NUM_BUFFERS), steps)
    ensures var s := Run(Init(NUM_BUFFERS), steps);
            !s.flipPending && s.kernel.queued.Some?
  {
    var s := Init(NUM_BUFFERS);
    steps := [DrawPrimary, DrawOverlay, WaitDone, Commit(true)];
    FirstFlip(NUM_BUFFERS);
    steps := Then(s, steps, DrawPrimary);
    steps := Then(s, steps, DrawOverlay);
    steps := Then(s, steps, GiveUp);
    steps := Then(s, steps, VerticalBlank);
    steps := Then(s, steps, Commit(true));
    steps := Then(s, steps, DrawPrimary);
    steps := Then(s, steps, DrawOverlay);
    steps := Then(s, steps, Deliver(1));
  }

  lemma Then(s: State, steps: seq<Step>, step: Step) returns (longer: seq<Step>)
    requires WellFormed(s) && Legal(s, steps) && Enabled(Run(s, steps), step)
    ensures longer == steps + [step] && Legal(s, longer) && Run(s, longer) == Next(Run(s, steps), step)
  {
    Extend(s, steps, step);
    longer := steps + [step];
  }

  // ----- the code

  /** What one call of poll saw: whether a vertical blank fell into it, and how it returned. */
  datatype Outcome = TimedOut | Failed | Signal | Readable(count: nat)
  datatype Poll = Poll(blank: bool, outcome: Outcome)

  ghost predicate BlankIn(polls: seq<Poll>, n: nat) {
    exists j :: 0 <= j < n && j < |polls| && polls[j].blank
  }

  /** Poll k finds that many completions to read: those there before, and that of a queued flip
      if a vertical blank has come by then. */
  ghost predicate Delivers(kernel: Kernel, polls: seq<Poll>, k: nat)
    requires k < |polls|
  {
    && polls[k].outcome.Readable?
    && 1 <= polls[k].outcome.count <= kernel.events + if kernel.queued.Some? && BlankIn(polls, k + 1) then 1 else 0
  }

  /** A poll delivers before the first one that times out or fails. */
  ghost predicate WaitSucceeds(kernel: Kernel, polls: seq<Poll>) {
    exists k: nat :: k < |polls| && Delivers(kernel, polls, k)
      && forall j :: 0 <= j < k ==> !polls[j].outcome.TimedOut? && !polls[j].outcome.Failed?
  }

  /** The controller after a moment in which a vertical blank may fall. */
  function Blanked(kernel: Kernel, blank: bool): Kernel {
    if blank && kernel.queued.Some? then Kernel(kernel.queued.value, None, kernel.events + 1) else kernel
  }

  /** What happens around one pass of the main loop: where vertical blanks fall, the results of
      its polls, and what becomes of the commit. */
  datatype Environment = Environment(duringPrimary: bool, duringOverlay: bool, polls: seq<Poll>,
                                     beforeCommit: bool, reply: Reply)

  type Failure = x: int | x < 0 witness -1

  /** The controller takes a commit if it is idle, or turns it down; or no request is allocated. */
  datatype Reply = Accept | Busy | Refuse(code: Failure) | NoRequest

  /** The last step is a commit, granted exactly when the controller accepts it and is idle. */
  ghost predicate EndsWithCommit(s: State, steps: seq<Step>, reply: Reply)
    requires WellFormed(s)
  {
    && |steps| > 0 && Legal(s, steps[..|steps| - 1])
    && steps[|steps| - 1] == Commit(reply.Accept? && Run(s, steps[..|steps| - 1]).kernel.queued.None?)
  }

  /** While the flag is up: no poll has delivered, and the queued flip, if any, is completed as
      soon as one of them saw a vertical blank. */
  ghost predicate Waited(start: Kernel, now: Kernel, polls: seq<Poll>, n: nat) {
    && (forall k: nat :: k < n && k < |polls| ==> !Delivers(start, polls, k))
    && now.events == start.events + (if start.queued.Some? && BlankIn(polls, n) then 1 else 0)
    && now.queued == if BlankIn(polls, n) then None else start.queued
  }

  lemma WaitStarts(start: Kernel, polls: seq<Poll>)
    ensures Waited(start, start, polls, 0)
  {
  }

  /** The poll made n-th; past the end of the list it times out. */
  function PollAt(polls: seq<Poll>, n: nat): Poll {
    if n < |polls| then polls[n] else Poll(false, TimedOut)
  }

  ghost predicate NoneEnded(polls: seq<Poll>, n: nat) {
    forall k :: 0 <= k < n && k < |polls| ==> !polls[k].outcome.TimedOut? && !polls[k].outcome.Failed?
  }

  /** One more poll, and whether the flag is still up after it. */
  lemma WaitedOn(start: Kernel, before: Kernel, now: Kernel, pending: bool, polls: seq<Poll>, n: nat)
    requires Waited(start, before, polls, n) && NoneEnded(polls, n)
    requires var poll := PollAt(polls, n);
             var available := before.events + if poll.blank && before.queued.Some? then 1 else 0;
             && now.queued == (if poll.blank then None else before.queued)
             && if poll.outcome.Readable? && 1 <= poll.outcome.count <= available then !pending
                else pending && now.events == available
    ensures pending ==> Waited(start, now, polls, n + 1)
    ensures !pending ==> WaitSucceeds(start, polls)
    ensures PollAt(polls, n).outcome.TimedOut? || PollAt(polls, n).outcome.Failed? ==> !WaitSucceeds(start, polls)
  {
    if n < |polls| && polls[n].blank {
      assert BlankIn(polls, n + 1);
    }
    assert BlankIn(polls, n + 1) <==> BlankIn(polls, n) || (n < |polls| && polls[n].blank);
    if !pending {
      assert Delivers(start, polls, n);
    }
  }

  class DrmDevice {
    var primaryFront: nat
    var overlayFront: nat
    var pflipPending: bool
    const primaryBuf: array<nat>  // the frame number each buffer holds
    const overlayBuf: array<nat>
    var frame: nat
    ghost var phase: Phase
    var kernel: Kernel            // the controller's side of the protocol

    ghost predicate Valid()
      reads this, primaryBuf, overlayBuf
    {
      primaryBuf != overlayBuf && WellFormed(Abs())
    }

    ghost function Abs(): State
      reads this, primaryBuf, overlayBuf
    {
      State(Images(primaryFront, overlayFront), pflipPending, phase, kernel, primaryBuf[..], overlayBuf[..], frame)
    }

    constructor (n: nat)
      requires n > 0
      ensures Valid() && Abs() == Init(n) && fresh(primaryBuf) && fresh(overlayBuf)
    {
      primaryBuf := new nat[n](_ => 0);
      overlayBuf := new nat[n](_ => 0);
      primaryFront, overlayFront, pflipPending, frame := 0, 0, false, 1;
      phase := RenderPrimary;
      kernel := Kernel(Images(0, 0), None, 0);
    }

    method DrawPrimaryPlane()
      requires Valid() && Enabled(Abs(), DrawPrimary)
      modifies this`phase, primaryBuf
      ensures Valid() && Abs() == Next(old(Abs()), DrawPrimary)
    {
      var back := (primaryFront + 1) % primaryBuf.Length;
      primaryBuf[back] := frame;
      phase := RenderOverlay;
    }

    method DrawOverlayPlane()
      requires Valid() && Enabled(Abs(), DrawOverlay)
      modifies this`phase, overlayBuf
      ensures Valid() && Abs() == Next(old(Abs()), DrawOverlay)
    {
      var back := (overlayFront + 1) % overlayBuf.Length;
      overlayBuf[back] := frame;
      phase := Waiting;
    }

    /** The controller's own step. */
    method Blank()
      requires Valid() && Enabled(Abs(), VerticalBlank)
      modifies this`kernel
      ensures Valid() && Abs() == Next(old(Abs()), VerticalBlank)
    {
      kernel := Kernel(kernel.queued.value, None, kernel.events + 1);
    }

    method PageFlipHandler()
      modifies this`pflipPending
      ensures !pflipPending
    {
      pflipPending := false;
    }

    method HandleEvent(count: nat)
      requires Valid() && Enabled(Abs(), Deliver(count))
      modifies this`pflipPending, this`kernel
      ensures Valid() && Abs() == Next(old(Abs()), Deliver(count))
    {
      for i := 0 to count
        invariant i > 0 ==> !pflipPending
        modifies this`pflipPending
      {
        PageFlipHandler();
      }
      kernel := kernel.(events := kernel.events - count);
    }

    method MaybeBlank(blank: bool, ghost s0: State, ghost steps: seq<Step>) returns (ghost longer: seq<Step>)
      requires Valid() && WellFormed(s0) && Legal(s0, steps) && Run(s0, steps) == Abs()
      modifies this`kernel
      ensures Valid() && Legal(s0, longer) && Run(s0, longer) == Abs()
      ensures phase == old(phase) && kernel == Blanked(old(kernel), blank)
    {
      longer := steps;
      if blank && kernel.queued.Some? {
        Blank();
        longer := Then(s0, steps, VerticalBlank);
      }
    }

    /** The body of the wait loop: one poll and what it brings. */
    method PollOnce(poll: Poll, ghost s0: State, ghost before: seq<Step>)
      returns (leave: bool, ghost steps: seq<Step>)
      requires Valid() && phase == Waiting && pflipPending
      requires WellFormed(s0) && Legal(s0, before) && Run(s0, before) == Abs()
      modifies this`pflipPending, this`kernel, this`phase
      ensures Valid() && Legal(s0, steps) && Run(s0, steps) == Abs()
      ensures leave <==> poll.outcome.TimedOut? || poll.outcome.Failed?
      ensures kernel.queued == (if poll.blank then None else old(kernel).queued)
      ensures var available := old(kernel).events + if poll.blank && old(kernel).queued.Some? then 1 else 0;
              if poll.outcome.Readable? && 1 <= poll.outcome.count <= available
              then !pflipPending && kernel.events == available - poll.outcome.count
              else pflipPending && kernel.events == available
      ensures if leave then phase == Committing && pflipPending && |steps| > 0 && steps[|steps| - 1] == GiveUp
              else phase == Waiting
    {
      steps := MaybeBlank(poll.blank, s0, before);
      leave := false;
      match poll.outcome {
        case Signal =>
          steps := Then(s0, steps, Interrupted);
        case TimedOut | Failed =>
          phase := Committing;
          steps := Then(s0, steps, GiveUp);
          leave := true;
        case Readable(count) =>
          if 1 <= count <= kernel.events {
            HandleEvent(count);
            steps := Then(s0, steps, Deliver(count));
          }
      }
    }

    /** Waits until the flag drops, giving up exactly when no poll delivers a completion before
        one times out or fails; used counts the polls made, and a poll past the end of the list
        times out. */
    method WaitFlip(polls: seq<Poll>) returns (ghost steps: seq<Step>, ghost used: nat)
      requires Valid() && phase == Waiting
      modifies this`pflipPending, this`kernel, this`phase
      ensures Valid() && Legal(old(Abs()), steps) && Abs() == Run(old(Abs()), steps)
      ensures phase == Committing
      ensures !old(pflipPending) ==> steps == [WaitDone] && used == 0
      ensures |steps| > 0 && steps[|steps| - 1] == if pflipPending then GiveUp else WaitDone
      ensures pflipPending <==> old(pflipPending) && !WaitSucceeds(old(kernel), polls)
      ensures pflipPending ==>
                && 0 < used
                && (used <= |polls| ==> polls[used - 1].outcome.TimedOut? || polls[used - 1].outcome.Failed?)
      ensures forall k :: 0 <= k < used && k < |polls| && (polls[k].outcome.TimedOut? || polls[k].outcome.Failed?)
                ==> k == used - 1 && pflipPending
    {
      hide Waited, WaitSucceeds;
      ghost var s0 := Abs();
      WaitStarts(kernel, polls);
      steps, used := [], 0;
      var i := 0;
      while pflipPending
        invariant Valid() && phase == Waiting
        invariant Legal(s0, steps) && Run(s0, steps) == Abs()
        invariant !old(pflipPending) ==> steps == [] && i == 0
        invariant i == used
        invariant NoneEnded(polls, i)
        invariant pflipPending ==> Waited(old(kernel), kernel, polls, i)
        invariant !pflipPending && old(pflipPending) ==> WaitSucceeds(old(kernel), polls)
        decreases |polls| - i
      {
        var poll := PollAt(polls, i);
        i, used := i + 1, used + 1;
        var leave;
        ghost var before := kernel;
        leave, steps := PollOnce(poll, s0, steps);
        WaitedOn(old(kernel), before, kernel, pflipPending, polls, i - 1);
        if leave {
          return;
        }
      }
      phase := Committing;
      steps := Then(s0, steps, WaitDone);
    }

    /** A commit over a queued flip comes back busy, and a busy one counts as a skipped frame. */
    method AtomicFlip(reply: Reply) returns (ret: int, ghost step: Step)
      requires Valid() && phase == Committing
      modifies this`kernel, this`pflipPending, this`primaryFront, this`overlayFront, this`phase, this`frame
      ensures Valid() && step == Commit(reply.Accept? && old(kernel).queued.None?)
      ensures Abs() == Next(old(Abs()), step)
      ensures phase == RenderPrimary && frame == old(frame) + 1
      ensures if step == Commit(true)
              then && primaryFront == Back(old(primaryFront), primaryBuf.Length)
                   && overlayFront == Back(old(overlayFront), overlayBuf.Length)
                   && pflipPending && kernel == old(kernel).(queued := Some(Images(primaryFront, overlayFront)))
              else && primaryFront == old(primaryFront) && overlayFront == old(overlayFront)
                   && pflipPending == old(pflipPending) && kernel == old(kernel)
      ensures ret == if reply.NoRequest? then -1 else if reply.Refuse? then reply.code else 0
    {
      step := Commit(false);
      phase := RenderPrimary;
      frame := frame + 1;
      if reply == NoRequest {
        return -1, step;
      }
      var primaryBack := (primaryFront + 1) % primaryBuf.Length;
      var overlayBack := (overlayFront + 1) % overlayBuf.Length;
      var granted := Submit(Images(primaryBack, overlayBack), reply);
      if granted {
        step := Commit(true);
        pflipPending := true;
        primaryFront := primaryBack;
        overlayFront := overlayBack;
        return 0, step;
      }
      ret := if reply.Refuse? then reply.code else 0;
    }

    /** The controller's side of a commit. */
    method Submit(images: Images, reply: Reply) returns (granted: bool)
      modifies this`kernel
      ensures granted <==> reply == Accept && old(kernel).queued.None?
      ensures kernel == if granted then old(kernel).(queued := Some(images)) else old(kernel)
    {
      granted := reply == Accept && kernel.queued.None?;
      if granted {
        kernel := kernel.(queued := Some(images));
      }
    }

    /** Both planes of a frame. */
    method Render(env: Environment, ghost s0: State, ghost before: seq<Step>) returns (ghost steps: seq<Step>)
      requires Valid() && phase == RenderPrimary
      requires WellFormed(s0) && Legal(s0, before) && Run(s0, before) == Abs()
      modifies this`phase, this`kernel, primaryBuf, overlayBuf
      ensures Valid() && phase == Waiting
      ensures Legal(s0, steps) && Run(s0, steps) == Abs()
      ensures primaryBuf[..] == old(primaryBuf[..])[Back(primaryFront, primaryBuf.Length) := frame]
      ensures overlayBuf[..] == old(overlayBuf[..])[Back(overlayFront, overlayBuf.Length) := frame]
      ensures kernel == Blanked(Blanked(old(kernel), env.duringPrimary), env.duringOverlay)
    {
      hide Run, Legal;
      steps := MaybeBlank(env.duringPrimary, s0, before);
      DrawPrimaryPlane();
      steps := Then(s0, steps, DrawPrimary);
      steps := MaybeBlank(env.duringOverlay, s0, steps);
      DrawOverlayPlane();
      steps := Then(s0, steps, DrawOverlay);
    }

    /** The wait and the commit of a frame. */
    method Present(env: Environment, ghost s0: State, ghost before: seq<Step>) returns (ghost steps: seq<Step>)
      requires Valid() && phase == Waiting
      requires WellFormed(s0) && Legal(s0, before) && Run(s0, before) == Abs()
      modifies this`pflipPending, this`kernel, this`phase, this`primaryFront, this`overlayFront, this`frame
      ensures Valid() && phase == RenderPrimary && frame == old(frame) + 1
      ensures Legal(s0, steps) && Run(s0, steps) == Abs()
      ensures EndsWithCommit(s0, steps, env.reply)
      ensures if steps[|steps| - 1] == Commit(true)
              then && primaryFront == Back(old(primaryFront), primaryBuf.Length)
                   && overlayFront == Back(old(overlayFront), overlayBuf.Length)
                   && pflipPending && kernel.queued == Some(Images(primaryFront, overlayFront))
              else && primaryFront == old(primaryFront) && overlayFront == old(overlayFront)
                   && (pflipPending <==> (old(pflipPending) && !WaitSucceeds(old(kernel), env.polls)))
    {
      hide WaitSucceeds, Blanked, Back;
      ghost var waited, used := WaitFlip(env.polls);
      steps := ThenAll(s0, before, waited);
      steps := MaybeBlank(env.beforeCommit, s0, steps);
      var ret;
      ghost var commit;
      ret, commit := AtomicFlip(env.reply);
      ghost var longer := Then(s0, steps, commit);
      assert longer[..|steps|] == steps;
      steps := longer;
    }

    /** One pass of the main loop: the frame goes into the buffers behind the front ones, which
        become the front ones exactly if the commit is granted; without a commit the flag drops
        exactly if the wait succeeds. */
    method Pass(env: Environment, ghost s0: State, ghost before: seq<Step>) returns (ghost steps: seq<Step>)
      requires Valid() && phase == RenderPrimary
      requires WellFormed(s0) && Legal(s0, before) && Run(s0, before) == Abs()
      modifies this, primaryBuf, overlayBuf
      ensures Valid() && phase == RenderPrimary && frame == old(frame) + 1
      ensures Legal(s0, steps) && Run(s0, steps) == Abs()
      ensures EndsWithCommit(s0, steps, env.reply)
      ensures primaryBuf[..] == old(primaryBuf[..])[Back(old(primaryFront), primaryBuf.Length) := old(frame)]
      ensures overlayBuf[..] == old(overlayBuf[..])[Back(old(overlayFront), overlayBuf.Length) := old(frame)]
      ensures if steps[|steps| - 1] == Commit(true)
              then && primaryFront == Back(old(primaryFront), primaryBuf.Length)
                   && overlayFront == Back(old(overlayFront), overlayBuf.Length)
                   && pflipPending && kernel.queued == Some(Images(primaryFront, overlayFront))
              else && primaryFront == old(primaryFront) && overlayFront == old(overlayFront)
                   && (pflipPending <==>
                       (old(pflipPending)
                        && !WaitSucceeds(Blanked(Blanked(old(kernel), env.duringPrimary), env.duringOverlay), env.polls)))
    {
      hide Next, Enabled, Legal, Run, Blanked, WaitSucceeds, EndsWithCommit, Back;
      steps := Render(env, s0, before);
      steps := Present(env, s0, steps);
    }

    /** The main loop, one pass per environment: whatever the controller, the polls and the
        commits do, it is a run of the protocol, and so never draws into a buffer in use. */
    method MainLoop(envs: seq<Environment>) returns (ghost steps: seq<Step>)
      requires Valid() && primaryBuf.Length >= 3 && Abs() == Init(primaryBuf.Length)
      modifies this, primaryBuf, overlayBuf
      ensures Valid() && Legal(Init(primaryBuf.Length), steps) && Abs() == Run(Init(primaryBuf.Length), steps)
      ensures BackBuffersFree(Abs()) && PlanesAgree(Abs())
      ensures frame == 1 + |envs|
    {
      ghost var s0 := Abs();
      steps := [];
      for i := 0 to |envs|
        invariant Valid() && phase == RenderPrimary && frame == 1 + i
        invariant Legal(s0, steps) && Run(s0, steps) == Abs()
      {
        steps := Pass(envs[i], s0, steps);
      }
      DrawingIsSafe(primaryBuf.Length, steps);
    }
  }

  lemma {:induction false} ThenAll(s: State, steps: seq<Step>, more: seq<Step>) returns (longer: seq<Step>)
    requires WellFormed(s) && Legal(s, steps) && Legal(Run(s, steps), more)
    ensures longer == steps + more && Legal(s, longer) && Run(s, longer) == Run(Run(s, steps), more)
    decreases |more|
  {
    if |more| == 0 {
      longer := steps;
    } else {
      longer := Then(s, steps, more[0]);
      longer := ThenAll(s, longer, more[1..]);
    }
  }
}
