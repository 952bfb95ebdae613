/** Zero-copy camera to display: n buffers travel between the capture driver, the slot of the
    next frame and the display. The application keeps two indices; the driver fills its
    buffers in the order it was given them. */
module CameraPipeline {
  import opened Basics

  /** stamp[b] is the number of the capture that buffer b holds, 0 before its first; last is the
      stamp of the frame dequeued most recently. */
  datatype State = State(cur: nat, next: Option<nat>, queued: seq<nat>, filled: seq<nat>,
                         shown: nat, submitted: Option<nat>,
                         stamp: seq<nat>, captures: nat, last: nat)

  datatype Step =
    | Capture    // the driver completes the buffer at the head of its queue
    | Blank      // the submitted buffer reaches the screen
    | Dequeue    // the application takes a filled buffer
    | FlipEvent  // the application handles the completion of its flip

  function Init(n: nat): (s: State)
    requires n >= 2
    ensures InRange(s)
  {
    State(0, None, seq(n - 1, i requires 0 <= i => i + 1), [], 0, Some(0), seq(n, _ => 0), 0, 0)
  }

  ghost predicate InRange(s: State) {
    && s.cur < |s.stamp|
    && (s.next.Some? ==> s.next.value < |s.stamp|)
    && (forall i :: 0 <= i < |s.queued| ==> s.queued[i] < |s.stamp|)
    && (forall i :: 0 <= i < |s.filled| ==> s.filled[i] < |s.stamp|)
  }

  predicate Enabled(s: State, step: Step) {
    match step
    case Capture => |s.queued| > 0
    case Blank => s.submitted.Some?
    case Dequeue => |s.filled| > 0
    case FlipEvent => s.submitted.None?
  }

  function Next(s: State, step: Step): (s': State)
    requires InRange(s) && Enabled(s, step)
    ensures InRange(s') && |s'.stamp| == |s.stamp|
  {
    match step
    case Capture =>
      var b := s.queued[0];
      s.(queued := s.queued[1..], filled := s.filled + [b],
         stamp := s.stamp[b := s.captures + 1], captures := s.captures + 1)
    case Blank =>
      s.(shown := s.submitted.value, submitted := None)
    case Dequeue =>
      var b := s.filled[0];
      s.(filled := s.filled[1..], next := Some(b), last := s.stamp[b],
         queued := if s.next.Some? then s.queued + [s.next.value] else s.queued)
    case FlipEvent =>
      if s.next.Some? then
        s.(queued := s.queued + [s.cur], cur := s.next.value, next := None, submitted := s.next)
      else
        s.(submitted := Some(s.cur))
  }

  ghost predicate Legal(s: State, steps: seq<Step>)
    requires InRange(s)
    decreases |steps|
  {
    |steps| == 0 || (Enabled(s, steps[0]) && Legal(Next(s, steps[0]), steps[1..]))
  }

  ghost function Run(s: State, steps: seq<Step>): (s': State)
    requires InRange(s) && Legal(s, steps)
    ensures InRange(s') && |s'.stamp| == |s.stamp|
    decreases |steps|
  {
    if |steps| == 0 then s else Run(Next(s, steps[0]), steps[1..])
  }

  // ----- ownership

  /** Every buffer with the number of places that hold it. */
  ghost function Holders(s: State): multiset<nat> {
    multiset{s.cur} + (if s.next.Some? then multiset{s.next.value} else multiset{})
    + multiset(s.queued) + multiset(s.filled)
  }

  /** Each of the n buffers is in exactly one place: current, pending, queued to the driver or
      filled by it. */
  ghost predicate Partition(s: State) {
    forall b: nat :: Holders(s)[b] == if b < |s.stamp| then 1 else 0
  }

  lemma InitPartition(n: nat)
    requires n >= 2
    ensures Partition(Init(n))
  {
    forall b: nat
      ensures Holders(Init(n))[b] == if b < n then 1 else 0
    {
      CountUp(n - 1, b);
    }
  }

  lemma {:induction false} CountUp(k: nat, b: nat)
    ensures multiset(seq(k, i requires 0 <= i => i + 1))[b] == if 1 <= b <= k then 1 else 0
  {
    if k > 0 {
      CountUp(k - 1, b);
      assert seq(k, i requires 0 <= i => i + 1) == seq(k - 1, i requires 0 <= i => i + 1) + [k];
    }
  }

  lemma PartitionStep(s: State, step: Step)
    requires InRange(s) && Enabled(s, step)
    ensures Holders(Next(s, step)) == Holders(s)
  {
    var t := Next(s, step);
    match step
    case Capture =>
      Split(s.queued);
      assert multiset(t.filled) == multiset(s.filled) + multiset{s.queued[0]};
    case Dequeue =>
      Split(s.filled);
      assert s.next.Some? ==> multiset(t.queued) == multiset(s.queued) + multiset{s.next.value};
    case Blank =>
    case FlipEvent =>
      assert s.next.Some? ==> multiset(t.queued) == multiset(s.queued) + multiset{s.cur};
  }

  lemma Split(q: seq<nat>)
    requires |q| > 0
    ensures multiset(q) == multiset{q[0]} + multiset(q[1..])
  {
    assert q == [q[0]] + q[1..];
  }

  lemma {:induction false} PartitionRun(s: State, steps: seq<Step>)
    requires InRange(s) && Legal(s, steps) && Partition(s)
    ensures Partition(Run(s, steps))
    decreases |steps|
  {
    if |steps| > 0 {
      PartitionStep(s, steps[0]);
      PartitionRun(Next(s, steps[0]), steps[1..]);
    }
  }

  lemma QueueLength(s: State)
    requires InRange(s) && Partition(s)
    ensures |s.queued| + |s.filled| == |s.stamp| - (if s.next.Some? then 2 else 1)
  {
    FullCount(Holders(s), |s.stamp|);
  }

  lemma {:induction false} FullCount(m: multiset<nat>, n: nat)
    requires forall b: nat :: m[b] == if b < n then 1 else 0
    ensures |m| == n
  {
    if n > 0 {
      FullCount(m - multiset{n - 1}, n - 1);
    } else {
      assert m == multiset{};
    }
  }

  /** The buffers are never lost nor shared, and the driver owns all but one or two of them. */
  lemma OwnershipInvariant(n: nat, steps: seq<Step>)
    requires n >= 2 && Legal(Init(n), steps)
    ensures var s := Run(Init(n), steps);
            && Partition(s)
            && |s.queued| + |s.filled| == n - (if s.next.Some? then 2 else 1)
  {
    InitPartition(n);
    PartitionRun(Init(n), steps);
    QueueLength(Run(Init(n), steps));
  }

  /** A buffer queued to the driver is in no other place, and in only one place of the queue. */
  lemma QueuedOnce(s: State, i: nat)
    requires InRange(s) && Partition(s) && i < |s.queued|
    ensures s.queued[i] != s.cur && s.next != Some(s.queued[i]) && s.queued[i] !in s.filled
    ensures forall j :: 0 <= j < |s.queued| && j != i ==> s.queued[j] != s.queued[i]
  {
    var b := s.queued[i];
    assert Holders(s)[b] == 1;
    assert multiset(s.queued)[b] >= 1;
    forall j | 0 <= j < |s.queued| && j != i
      ensures s.queued[j] != b
    {
      if s.queued[j] == b {
        TwiceInSeq(s.queued, if i < j then i else j, if i < j then j else i);
      }
    }
  }

  lemma TwiceInSeq(q: seq<nat>, i: nat, j: nat)
    requires i < j < |q| && q[i] == q[j]
    ensures multiset(q)[q[i]] >= 2
  {
    assert q == q[..i] + [q[i]] + q[i + 1..j] + [q[j]] + q[j + 1..];
  }

  // ----- order of the frames

  /** The stamp of the frame the display was last told to show. */
  ghost function CurrentStamp(s: State): nat
    requires InRange(s)
  {
    s.stamp[s.cur]
  }

  /** Frames wait in capture order, the pending one is the latest dequeued and newer than the
      current one. */
  ghost predicate Ordered(s: State)
    requires InRange(s)
  {
    && (forall b :: 0 <= b < |s.stamp| ==> s.stamp[b] <= s.captures)
    && (forall i, j :: 0 <= i < j < |s.filled| ==> s.stamp[s.filled[i]] < s.stamp[s.filled[j]])
    && (forall i :: 0 <= i < |s.filled| ==> s.last < s.stamp[s.filled[i]])
    && s.last == s.stamp[if s.next.Some? then s.next.value else s.cur]
    && (s.next.Some? ==> s.stamp[s.cur] < s.last)
  }

  lemma OrderedStep(s: State, step: Step)
    requires InRange(s) && Partition(s) && Ordered(s) && Enabled(s, step)
    ensures Ordered(Next(s, step))
    ensures CurrentStamp(s) <= CurrentStamp(Next(s, step))
  {
    if step == Capture {
      QueuedOnce(s, 0);
      OrderedCapture(s);
    }
  }

  /** Only the head of the queue gets a new stamp, larger than all others. */
  lemma OrderedCapture(s: State)
    requires InRange(s) && Ordered(s) && Enabled(s, Capture)
    requires var b := s.queued[0]; b != s.cur && s.next != Some(b) && b !in s.filled
    ensures Ordered(Next(s, Capture)) && CurrentStamp(s) <= CurrentStamp(Next(s, Capture))
  {
  }

  /** What the display is told to show never goes back in capture order. */
  lemma {:induction false} FramesStayInOrder(s: State, steps: seq<Step>)
    requires InRange(s) && Partition(s) && Ordered(s) && Legal(s, steps)
    ensures Ordered(Run(s, steps)) && CurrentStamp(s) <= CurrentStamp(Run(s, steps))
    decreases |steps|
  {
    if |steps| > 0 {
      OrderedStep(s, steps[0]);
      PartitionStep(s, steps[0]);
      FramesStayInOrder(Next(s, steps[0]), steps[1..]);
    }
  }

  /** In every run, every flip submits the frame dequeued most recently; it is newer than the
      one before unless nothing was dequeued in between. */
  lemma FlipSubmitsNewest(n: nat, steps: seq<Step>)
    requires n >= 2 && Legal(Init(n), steps) && Enabled(Run(Init(n), steps), FlipEvent)
    ensures var s := Run(Init(n), steps);
            var t := Next(s, FlipEvent);
            && t.submitted == Some(t.cur) && CurrentStamp(t) == s.last
            && (if s.next.Some? then CurrentStamp(t) > CurrentStamp(s) else t.cur == s.cur)
  {
    InitPartition(n);
    PartitionRun(Init(n), steps);
    FramesStayInOrder(Init(n), steps);
    OrderedStep(Run(Init(n), steps), FlipEvent);
  }

  // ----- when the camera reaches the image on screen

  /** The driver is not writing the buffer on screen: it writes the head of its queue. */
  ghost predicate CameraOff(s: State) {
    |s.queued| > 0 ==> s.queued[0] != s.shown
  }

  ghost predicate AlwaysOff(s: State, steps: seq<Step>)
    requires InRange(s) && Legal(s, steps)
    decreases |steps|
  {
    CameraOff(s) && (|steps| > 0 ==> AlwaysOff(Next(s, steps[0]), steps[1..]))
  }

  /** Captures that may still complete before the released buffer comes to the head of the
      queue: set when a flip event releases the buffer on screen, dropped at the next blank. */
  function Window(s: State, left: Option<nat>, step: Step): Option<nat> {
    match step
    case Capture => if left.Some? && left.value > 0 then Some(left.value - 1) else left
    case Blank => None
    case Dequeue => left
    case FlipEvent =>
      if s.next.Some? && |s.filled| + 2 <= |s.stamp| then Some(|s.stamp| - 2 - |s.filled|) else left
  }

  /** No window ever closes before the next blank. */
  ghost predicate OnTime(s: State, left: Option<nat>, steps: seq<Step>)
    requires InRange(s) && Legal(s, steps)
    decreases |steps|
  {
    && (left.Some? ==> left.value > 0)
    && (|steps| > 0 ==> OnTime(Next(s, steps[0]), Window(s, left, steps[0]), steps[1..]))
  }

  /** What a window says about the queue. */
  ghost predicate WindowFits(s: State, left: Option<nat>) {
    && (s.submitted.Some? ==> s.submitted.value == s.cur)
    && match left
       case None => s.shown == s.cur
       case Some(k) => s.submitted.Some? && k < |s.queued| && s.queued[k] == s.shown
  }

  lemma WindowIsExact(s: State, left: Option<nat>)
    requires InRange(s) && Partition(s) && WindowFits(s, left)
    ensures CameraOff(s) <==> (left.Some? ==> left.value > 0)
  {
    if |s.queued| > 0 {
      QueuedOnce(s, 0);
    }
  }

  lemma WindowStep(s: State, left: Option<nat>, step: Step)
    requires InRange(s) && Partition(s) && WindowFits(s, left) && Enabled(s, step)
    requires left.Some? ==> left.value > 0
    ensures WindowFits(Next(s, step), Window(s, left, step))
  {
    QueueLength(s);
  }

  lemma {:induction false} OnTimeIffOff(s: State, left: Option<nat>, steps: seq<Step>)
    requires InRange(s) && Partition(s) && WindowFits(s, left) && Legal(s, steps)
    ensures AlwaysOff(s, steps) <==> OnTime(s, left, steps)
    decreases |steps|
  {
    WindowIsExact(s, left);
    if |steps| > 0 && CameraOff(s) {
      WindowStep(s, left, steps[0]);
      PartitionStep(s, steps[0]);
      OnTimeIffOff(Next(s, steps[0]), Window(s, left, steps[0]), steps[1..]);
    }
  }

  /** Over any whole run the camera never writes the image on screen if and only if every
      release leaves enough unfilled buffers ahead for the captures up to the next blank. */
  lemma CameraMeetsDisplayIffLate(n: nat, steps: seq<Step>)
    requires n >= 2 && Legal(Init(n), steps)
    ensures AlwaysOff(Init(n), steps) <==> OnTime(Init(n), None, steps)
  {
    InitPartition(n);
    OnTimeIffOff(Init(n), None, steps);
  }

  function Captures(steps: seq<Step>): nat {
    if |steps| == 0 then 0 else (if steps[0] == Capture then 1 else 0) + Captures(steps[1..])
  }

  lemma {:induction false} WindowCounts(s: State, k: nat, steps: seq<Step>)
    requires InRange(s) && Partition(s) && WindowFits(s, Some(k)) && Legal(s, steps)
    requires Blank !in steps
    ensures AlwaysOff(s, steps) <==> Captures(steps) < k
    decreases |steps|
  {
    WindowIsExact(s, Some(k));
    if |steps| > 0 && k > 0 {
      WindowStep(s, Some(k), steps[0]);
      PartitionStep(s, steps[0]);
      WindowCounts(Next(s, steps[0]), if steps[0] == Capture then k - 1 else k, steps[1..]);
    }
  }

  /** One release: with f buffers already filled, the buffer on screen sits behind the other
      n - 2 - f, and is reached exactly when that many captures complete before the blank. */
  lemma ReleaseWindow(s: State, steps: seq<Step>)
    requires InRange(s) && Partition(s) && WindowFits(s, None)
    requires s.submitted.None? && s.next.Some? && Legal(Next(s, FlipEvent), steps)
    requires Blank !in steps
    ensures var t := Next(s, FlipEvent);
            && t.shown == s.cur && t.shown in t.queued
            && (AlwaysOff(t, steps) <==> Captures(steps) < |s.stamp| - 2 - |s.filled|)
  {
    QueueLength(s);
    WindowStep(s, None, FlipEvent);
    PartitionStep(s, FlipEvent);
    WindowCounts(Next(s, FlipEvent), |s.stamp| - 2 - |s.filled|, steps);
  }

  lemma {:induction false} Then(s: State, steps: seq<Step>, step: Step) returns (longer: seq<Step>)
    requires InRange(s) && Legal(s, steps) && Enabled(Run(s, steps), step)
    ensures longer == steps + [step]
    ensures Legal(s, longer) && Run(s, longer) == Next(Run(s, steps), step)
    decreases |steps|
  {
    longer := steps + [step];
    if |steps| == 0 {
      assert longer[1..] == [];
    } else {
      var rest := Then(Next(s, steps[0]), steps[1..], step);
      assert longer[1..] == rest;
    }
  }

  // ----- the code

  /** What happens before one return of poll, and what it reports. */
  datatype Turn = Turn(hardware: seq<Step>, result: PollResult)
  datatype PollResult =
    | Interrupted
    | Failed
    | TimedOut
    | Ready(quit: bool, video: bool, drm: bool, dequeueFails: bool)

  predicate Leaves(result: PollResult) {
    match result
    case Interrupted => false
    case Failed => true
    case TimedOut => true
    case Ready(quit, video, drm, dequeueFails) => quit || (video && dequeueFails)
  }

  /** What the application does in one pass: a ready video buffer first, then a flip event. */
  function AfterPass(s: State, result: PollResult): (t: State)
    requires InRange(s)
    ensures InRange(t) && |t.stamp| == |s.stamp|
  {
    if Leaves(result) || result.Interrupted? then s
    else
      var t := if result.video && |s.filled| > 0 then Next(s, Dequeue) else s;
      if result.drm && t.submitted.None? then Next(t, FlipEvent) else t
  }

  /** One pass in the order of the source. A signal goes on and leaves everything as it is; an
      error, a timeout, a wish to quit and a failed dequeue end the loop and do the same. Otherwise
      the oldest filled buffer is taken first, sending an unshown one back to the camera, and a
      flip submits the pending buffer, the one just taken included, or else the current one again. */
  lemma PassEffect(s: State, result: PollResult)
    requires InRange(s)
    ensures var t := AfterPass(s, result);
            match result
            case Interrupted => t == s && !Leaves(result)
            case Failed => t == s && Leaves(result)
            case TimedOut => t == s && Leaves(result)
            case Ready(quit, video, drm, dequeueFails) =>
              if quit || (video && dequeueFails) then t == s && Leaves(result)
              else
                var taken, flipped := video && |s.filled| > 0, drm && s.submitted.None?;
                var unshown := if s.next.Some? then [s.next.value] else [];
                && !Leaves(result)
                && t.filled == (if taken then s.filled[1..] else s.filled)
                && t.shown == s.shown && t.stamp == s.stamp && t.captures == s.captures
                && t.last == (if taken then s.stamp[s.filled[0]] else s.last)
                && (taken && flipped ==>
                      && t.submitted == Some(s.filled[0]) && t.cur == s.filled[0] && t.next == None
                      && t.queued == s.queued + unshown + [s.cur])
                && (taken && !flipped ==>
                      && t.submitted == s.submitted && t.cur == s.cur && t.next == Some(s.filled[0])
                      && t.queued == s.queued + unshown)
                && (!taken && flipped && s.next.Some? ==>
                      && t.submitted == s.next && t.cur == s.next.value && t.next == None
                      && t.queued == s.queued + [s.cur])
                && (!taken && flipped && s.next.None? ==>
                      && t.submitted == Some(s.cur) && t.cur == s.cur && t.next == None && t.queued == s.queued)
                && (!taken && !flipped ==> t == s)
  {
  }

  predicate HardwareMoves(s: State, step: Step) {
    (step == Capture || step == Blank) && Enabled(s, step)
  }

  /** The hardware's steps, those left out that cannot happen. */
  function AfterHardware(s: State, hardware: seq<Step>): (t: State)
    requires InRange(s)
    ensures InRange(t) && |t.stamp| == |s.stamp|
    decreases |hardware|
  {
    if |hardware| == 0 then s
    else AfterHardware(if HardwareMoves(s, hardware[0]) then Next(s, hardware[0]) else s, hardware[1..])
  }

  /** The whole main loop: one pass per turn until a poll result ends it. */
  function AfterLoop(s: State, turns: seq<Turn>): (t: State)
    requires InRange(s)
    ensures InRange(t) && |t.stamp| == |s.stamp|
    decreases |turns|
  {
    if |turns| == 0 then s
    else
      var t := AfterPass(AfterHardware(s, turns[0].hardware), turns[0].result);
      if Leaves(turns[0].result) then t else AfterLoop(t, turns[1..])
  }

  /** A capture fills the head of a nonempty queue, a vertical blank shows the submitted buffer;
      anything else does nothing. */
  ghost predicate HardwareEffect(s: State, step: Step, t: State) {
    if step == Capture && |s.queued| > 0 then
      var b, n := s.queued[0], s.captures + 1;
      b < |s.stamp| && t == s.(queued := s.queued[1..], filled := s.filled + [b],
                               stamp := s.stamp[b := n], captures := n)
    else if step == Blank && s.submitted.Some? then
      t == s.(shown := s.submitted.value, submitted := None)
    else t == s
  }

  /** The hardware, step by step. */
  lemma {:induction false} HardwareTrace(s: State, hardware: seq<Step>) returns (t: seq<State>)
    requires InRange(s)
    ensures |t| == |hardware| + 1 && t[0] == s && t[|hardware|] == AfterHardware(s, hardware)
    ensures forall i :: 0 <= i < |hardware| ==> HardwareEffect(t[i], hardware[i], t[i + 1])
    decreases |hardware|
  {
    if |hardware| == 0 {
      t := [s];
    } else {
      var next := if HardwareMoves(s, hardware[0]) then Next(s, hardware[0]) else s;
      var rest := HardwareTrace(next, hardware[1..]);
      t := [s] + rest;
      forall i | 0 <= i < |hardware|
        ensures HardwareEffect(t[i], hardware[i], t[i + 1])
      {
        if i > 0 {
          assert HardwareEffect(rest[i - 1], hardware[1..][i - 1], rest[i]);
        }
      }
    }
  }

  /** The main loop, turn by turn: the hardware moves, then the application makes its pass; the
      loop ends with the first turn that calls for it, and with no other. */
  lemma {:induction false} LoopTrace(s: State, turns: seq<Turn>) returns (t: seq<State>)
    requires InRange(s)
    ensures 1 <= |t| <= |turns| + 1 && t[0] == s && t[|t| - 1] == AfterLoop(s, turns)
    ensures forall i :: 0 <= i < |t| ==> InRange(t[i])
    ensures forall i :: 0 <= i < |t| - 1 ==>
              t[i + 1] == AfterPass(AfterHardware(t[i], turns[i].hardware), turns[i].result)
    ensures forall i :: 0 <= i < |t| - 2 ==> !Leaves(turns[i].result)
    ensures |t| <= |turns| ==> |t| >= 2 && Leaves(turns[|t| - 2].result)
    decreases |turns|
  {
    if |turns| == 0 {
      t := [s];
    } else {
      var next := AfterPass(AfterHardware(s, turns[0].hardware), turns[0].result);
      if Leaves(turns[0].result) {
        t := [s, next];
      } else {
        var rest := LoopTrace(next, turns[1..]);
        t := [s] + rest;
      }
    }
  }

  lemma {:induction false} HardwareIsRun(s: State, hardware: seq<Step>) returns (steps: seq<Step>)
    requires InRange(s)
    ensures Legal(s, steps) && Run(s, steps) == AfterHardware(s, hardware)
    decreases |hardware|
  {
    if |hardware| == 0 {
      steps := [];
    } else if HardwareMoves(s, hardware[0]) {
      var rest := HardwareIsRun(Next(s, hardware[0]), hardware[1..]);
      steps := [hardware[0]] + rest;
      assert steps[1..] == rest;
    } else {
      steps := HardwareIsRun(s, hardware[1..]);
    }
  }

  lemma PassIsRun(s: State, result: PollResult) returns (steps: seq<Step>)
    requires InRange(s)
    ensures Legal(s, steps) && Run(s, steps) == AfterPass(s, result)
  {
    steps := [];
    if !Leaves(result) && !result.Interrupted? {
      if result.video && |s.filled| > 0 {
        steps := Then(s, steps, Dequeue);
      }
      if result.drm && s.submitted.None? {
        steps := Then(s, steps, FlipEvent);
      }
    }
  }

  /** Whatever the hardware and poll do, the main loop is a run of the protocol. */
  lemma {:induction false} LoopIsRun(s: State, turns: seq<Turn>) returns (steps: seq<Step>)
    requires InRange(s)
    ensures Legal(s, steps) && Run(s, steps) == AfterLoop(s, turns)
    decreases |turns|
  {
    if |turns| == 0 {
      steps := [];
    } else {
      var t := AfterHardware(s, turns[0].hardware);
      var hardware := HardwareIsRun(s, turns[0].hardware);
      var app := PassIsRun(t, turns[0].result);
      steps := ThenAll(s, hardware, app);
      if !Leaves(turns[0].result) {
        var rest := LoopIsRun(AfterPass(t, turns[0].result), turns[1..]);
        steps := ThenAll(s, steps, rest);
      }
    }
  }

  /** The capture driver: buffers queued to it, and buffers it has filled. */
  class CaptureDevice {
    var queued: seq<nat>
    var filled: seq<nat>
    var stamp: seq<nat>
    var captures: nat

    constructor (n: nat)
      ensures queued == [] && filled == [] && stamp == seq(n, _ => 0) && captures == 0
    {
      queued, filled, stamp, captures := [], [], seq(n, _ => 0), 0;
    }

    method QueueBuffer(index: nat)
      modifies this`queued
      ensures queued == old(queued) + [index]
    {
      queued := queued + [index];
    }

    /** One buffer stays with the display, the rest is queued in order. */
    method StartCapturing(n: nat)
      requires n >= 1 && queued == []
      modifies this`queued
      ensures queued == seq(n - 1, i requires 0 <= i => i + 1)
    {
      for i := 1 to n
        invariant queued == seq(i - 1, k requires 0 <= k => k + 1)
      {
        QueueBuffer(i);
      }
    }

    /** Returns 1 with a filled buffer, 0 when there is none yet, -1 on a driver error or when the
        driver hands out a buffer it was never given; that buffer is gone. */
    method DequeueBuffer(fails: bool) returns (ret: int, index: nat)
      modifies this`filled
      ensures fails ==> ret == -1 && filled == old(filled)
      ensures !fails && |old(filled)| == 0 ==> ret == 0 && filled == old(filled)
      ensures !fails && |old(filled)| > 0 ==>
                && index == old(filled)[0] && filled == old(filled)[1..]
                && ret == if index < |stamp| then 1 else -1
    {
      index := 0;
      if fails {
        return -1, index;
      }
      if |filled| == 0 {
        return 0, index;
      }
      index := filled[0];
      filled := filled[1..];
      if index >= |stamp| {
        return -1, index;
      }
      ret := 1;
    }

    method CompleteCapture()
      requires |queued| > 0 && queued[0] < |stamp|
      modifies this
      ensures queued == old(queued)[1..] && filled == old(filled) + [old(queued)[0]]
      ensures stamp == old(stamp)[old(queued)[0] := old(captures) + 1] && captures == old(captures) + 1
    {
      stamp := stamp[queued[0] := captures + 1];
      captures := captures + 1;
      filled := filled + [queued[0]];
      queued := queued[1..];
    }
  }

  class Pipeline {
    var nextBufferIndex: int
    var currBufferIndex: nat
    var shown: nat
    var submitted: Option<nat>
    ghost var last: nat
    const camera: CaptureDevice

    ghost function Abs(): State
      reads this, camera
    {
      State(currBufferIndex, if nextBufferIndex >= 0 then Some(nextBufferIndex) else None,
            camera.queued, camera.filled, shown, submitted, camera.stamp, camera.captures, last)
    }

    ghost predicate Valid()
      reads this, camera
    {
      InRange(Abs()) && -1 <= nextBufferIndex
    }

    /** Buffer 0 is on screen and submitted for its first flip, the others go to the camera. */
    constructor (n: nat)
      requires n >= 2
      ensures Valid() && Abs() == Init(n) && fresh(camera)
    {
      var device := new CaptureDevice(n);
      device.StartCapturing(n);
      camera := device;
      nextBufferIndex, currBufferIndex, shown, submitted, last := -1, 0, 0, Some(0), 0;
    }

    method PageFlipHandler()
      requires Valid() && Enabled(Abs(), FlipEvent)
      modifies this, camera`queued
      ensures Valid() && Abs() == Next(old(Abs()), FlipEvent)
    {
      if nextBufferIndex >= 0 {
        camera.QueueBuffer(currBufferIndex);
        currBufferIndex := nextBufferIndex;
        nextBufferIndex := -1;
      }
      submitted := Some(currBufferIndex);
    }

    /** The video branch of the main loop: -1 ends the loop. */
    method VideoReady(dequeueFails: bool) returns (ret: int)
      requires Valid()
      modifies this, camera`queued, camera`filled
      ensures Valid() && (ret < 0 <==> dequeueFails)
      ensures Abs() == if !dequeueFails && |old(camera.filled)| > 0 then Next(old(Abs()), Dequeue) else old(Abs())
    {
      var index;
      ret, index := camera.DequeueBuffer(dequeueFails);
      if ret > 0 {
        if nextBufferIndex >= 0 {
          camera.QueueBuffer(nextBufferIndex);
        }
        nextBufferIndex := index;
        last := camera.stamp[index];
      }
    }

    method Hardware(step: Step)
      requires Valid() && (step == Capture || step == Blank) && Enabled(Abs(), step)
      modifies this, camera
      ensures Valid() && Abs() == Next(old(Abs()), step)
    {
      if step == Capture {
        camera.CompleteCapture();
      } else {
        shown := submitted.value;
        submitted := None;
      }
    }

    method HardwareAll(hardware: seq<Step>)
      requires Valid()
      modifies this, camera
      ensures Valid() && Abs() == AfterHardware(old(Abs()), hardware)
    {
      for i := 0 to |hardware|
        invariant Valid() && AfterHardware(Abs(), hardware[i..]) == AfterHardware(old(Abs()), hardware)
      {
        var step := hardware[i];
        assert hardware[i..][1..] == hardware[i + 1..];
        if (step == Capture && |camera.queued| > 0) || (step == Blank && submitted.Some?) {
          Hardware(step);
        }
      }
    }

    /** One pass of the main loop after its poll. */
    method Pass(result: PollResult) returns (leave: bool)
      requires Valid()
      modifies this, camera
      ensures Valid() && leave == Leaves(result) && Abs() == AfterPass(old(Abs()), result)
      ensures leave <==>
              || result.Failed? || result.TimedOut?
              || (result.Ready? && (result.quit || (result.video && result.dequeueFails)))
      ensures leave || result.Interrupted? ==> Abs() == old(Abs())
      ensures !leave && result.Ready? ==>
                var taken := result.video && |old(camera.filled)| > 0;
                var unshown := if old(nextBufferIndex) >= 0 then [old(nextBufferIndex)] else [];
                && camera.filled == (if taken then old(camera.filled)[1..] else old(camera.filled))
                && if result.drm && old(submitted).None? then
                     && submitted == Some(currBufferIndex) && nextBufferIndex == -1
                     && currBufferIndex == (if taken then old(camera.filled)[0]
                                            else if old(nextBufferIndex) >= 0 then old(nextBufferIndex)
                                            else old(currBufferIndex))
                     && camera.queued == old(camera.queued)
                                         + (if taken then unshown else [])
                                         + (if taken || old(nextBufferIndex) >= 0 then [old(currBufferIndex)] else [])
                   else
                     && submitted == old(submitted) && currBufferIndex == old(currBufferIndex)
                     && nextBufferIndex == (if taken then old(camera.filled)[0] else old(nextBufferIndex))
                     && camera.queued == old(camera.queued) + if taken then unshown else []
    {
      match result
      case Interrupted => return false;
      case Failed => return true;
      case TimedOut => return true;
      case Ready(quit, video, drm, dequeueFails) =>
        if quit {
          return true;
        }
        if video {
          var ret := VideoReady(dequeueFails);
          if ret < 0 {
            return true;
          }
        }
        if drm && submitted.None? {
          PageFlipHandler();
        }
        leave := false;
    }

    /** Every buffer keeps exactly one owner and frames are shown in capture order, whatever the
        hardware and poll do. */
    method MainLoop(turns: seq<Turn>)
      requires Valid() && |camera.stamp| >= 2 && Abs() == Init(|camera.stamp|)
      modifies this, camera
      ensures Valid() && Abs() == AfterLoop(old(Abs()), turns)
      ensures Partition(Abs()) && Ordered(Abs())
    {
      ghost var n := |camera.stamp|;
      var i := 0;
      var leave := false;
      while i < |turns| && !leave
        invariant 0 <= i <= |turns| && Valid()
        invariant AfterLoop(Init(n), turns) == if leave then Abs() else AfterLoop(Abs(), turns[i..])
      {
        assert turns[i..][1..] == turns[i + 1..];
        HardwareAll(turns[i].hardware);
        leave := Pass(turns[i].result);
        i := i + 1;
      }
      ghost var steps := LoopIsRun(Init(n), turns);
      InitPartition(n);
      PartitionRun(Init(n), steps);
      FramesStayInOrder(Init(n), steps);
    }
  }

  lemma {:induction false} ThenAll(s: State, steps: seq<Step>, more: seq<Step>) returns (longer: seq<Step>)
    requires InRange(s) && Legal(s, steps) && Legal(Run(s, steps), more)
    ensures longer == steps + more && Legal(s, longer) && Run(s, longer) == Run(Run(s, steps), more)
    decreases |more|
  {
    hide Next, Enabled;
    if |more| == 0 {
      longer := steps;
    } else {
      var one := Then(s, steps, more[0]);
      longer := ThenAll(s, one, more[1..]);
      assert more == [more[0]] + more[1..];
      assert steps + more == one + more[1..];
    }
  }
}
