/** The double-buffered simulation loop as a state machine on values.
    One tick polls for quit, runs the update pass (clear the target slot,
    then cover it with the full-screen quad while sampling the other slot),
    flips the buffer index, runs the render pass onto the screen, records a
    diagnostic readback every DiagnosticPeriod frames and advances the
    frame counter. The class in module Simulation performs the same steps
    in place and is proved to follow Step. */
module Loop {
  import opened Pixels

  /** Frames between two diagnostic readbacks. */
  const DiagnosticPeriod: nat := 1200
  /** The pixel the diagnostic reads back. */
  const DiagX: nat := 300
  const DiagY: nat := 300
  /** The time step bound to the update program every tick. */
  const Dt: real := 0.00001

  /** The update fragment program: the sampled state texture, the uniforms
      dt and if_frame0, and the fragment's pixel (x, y) give that pixel's
      new state. Its text is not part of this model. */
  type UpdateProgram = (Image, real, nat, int, int) -> Pixel
  /** The render fragment program: the sampled state texture and the
      fragment's pixel (x, y) give the colour drawn on the screen. */
  type RenderProgram = (Image, int, int) -> Pixel

  /** Which texture slots a draw call sampled and wrote. */
  datatype Pass =
    | UpdatePass(sampled: int, target: int, frame: nat)
    | RenderPass(sampled: int)

  /** One diagnostic readback: the frame number and the state read at (x, y). */
  datatype Diagnostic = Diagnostic(frame: nat, x: nat, y: nat, state: Pixel)

  /** The loop's state: the two state textures, current_buffer, frame,
      running, the visible surface, and the trace of passes and
      diagnostics so far. */
  datatype State = State(
    textures: seq<Image>,
    current: int,
    frame: nat,
    running: bool,
    screen: Image,
    passes: seq<Pass>,
    log: seq<Diagnostic>)

  /** Two textures, and current_buffer names one of them. */
  predicate Valid(s: State)
  {
    |s.textures| == 2 && (s.current == 0 || s.current == 1)
  }

  /** No update pass in the trace sampled the slot it wrote. */
  predicate NeverSamplesTarget(passes: seq<Pass>)
  {
    forall i :: 0 <= i < |passes| && passes[i].UpdatePass? ==>
      passes[i].sampled != passes[i].target
  }

  /** Both textures have the window's size. */
  predicate FullSize(s: State)
    requires |s.textures| == 2
  {
    Shaped(s.textures[0], Width, Height) && Shaped(s.textures[1], Width, Height)
  }

  /** The other buffer index. */
  function Flip(c: int): (r: int)
    requires c == 0 || c == 1
    ensures r == 0 || r == 1
    ensures r != c
  {
    1 - c
  }

  /** Flipping twice restores the index. */
  lemma FlipInvolution(c: int)
    requires c == 0 || c == 1
    ensures Flip(Flip(c)) == c
  {
  }

  /** What the update pass writes: every pixel of the target is the update
      program's value at that pixel, given the sampled image, dt and the
      raw frame counter as if_frame0. */
  function UpdateOutput(update: UpdateProgram, sampled: Image, frame: nat): (img: Image)
    ensures Shaped(img, Width, Height)
    ensures forall y, x :: 0 <= y < Height && 0 <= x < Width ==>
      img[y][x] == update(sampled, Dt, frame, x, y)
  {
    Rasterize((x: int, y: int) => update(sampled, Dt, frame, x, y), Width, Height)
  }

  /** What the render pass puts on the screen. */
  function RenderOutput(render: RenderProgram, sampled: Image): (img: Image)
    ensures Shaped(img, Width, Height)
    ensures forall y, x :: 0 <= y < Height && 0 <= x < Width ==>
      img[y][x] == render(sampled, x, y)
  {
    Rasterize((x: int, y: int) => render(sampled, x, y), Width, Height)
  }

  /** The state before the first tick: slot 0 holds the host-written
      initial grid, slot 1 whatever the freshly allocated texture holds. */
  function Initial(slot1: Image, screen: Image): (s: State)
    ensures Valid(s) && s.running && s.frame == 0 && s.current == 0
    ensures s.passes == [] && s.log == []
    ensures NeverSamplesTarget(s.passes)
    ensures s.textures[0] == InitialImage(Width, Height) && s.textures[1] == slot1
    ensures Shaped(slot1, Width, Height) ==> FullSize(s)
  {
    State([InitialImage(Width, Height), slot1], 0, 0, true, screen, [], [])
  }

  /** Event polling: a quit event clears running; the tick goes on. */
  function PollEvents(s: State, quit: bool): (r: State)
    ensures r.running == (s.running && !quit)
    ensures r.textures == s.textures && r.current == s.current && r.frame == s.frame
    ensures r.screen == s.screen && r.passes == s.passes && r.log == s.log
  {
    if quit then s.(running := false) else s
  }

  /** The update pass as written: bind framebuffer `current`, clear it,
      bind texture `1 - current` to unit 0 and draw. */
  function UpdatePassStep(s: State, update: UpdateProgram): (r: State)
    requires Valid(s)
    ensures Valid(r)
    ensures r.textures[s.current] == UpdateOutput(update, s.textures[1 - s.current], s.frame)
    ensures r.textures[1 - s.current] == s.textures[1 - s.current]
    ensures r.passes == s.passes + [UpdatePass(1 - s.current, s.current, s.frame)]
    ensures r.current == s.current && r.frame == s.frame && r.running == s.running
    ensures r.screen == s.screen && r.log == s.log
  {
    var target := s.current;
    var sampled := Flip(s.current);
    var cleared := s.textures[target := Cleared(Width, Height)];
    s.(textures := cleared[target := UpdateOutput(update, cleared[sampled], s.frame)],
       passes := s.passes + [UpdatePass(sampled, target, s.frame)])
  }

  /** The render pass: draw to the screen sampling texture `current`. */
  function RenderPassStep(s: State, render: RenderProgram): (r: State)
    requires Valid(s)
    ensures r.screen == RenderOutput(render, s.textures[s.current])
    ensures r.passes == s.passes + [RenderPass(s.current)]
    ensures r.textures == s.textures && r.current == s.current && r.frame == s.frame
    ensures r.running == s.running && r.log == s.log
  {
    s.(screen := RenderOutput(render, s.textures[s.current]),
       passes := s.passes + [RenderPass(s.current)])
  }

  /** The periodic readback of pixel (DiagX, DiagY) of texture `current`. */
  function DiagnosticStep(s: State): (r: State)
    requires Valid(s)
    ensures s.frame % DiagnosticPeriod == 0 ==>
      |r.log| == |s.log| + 1 && r.log[..|s.log|] == s.log &&
      r.log[|s.log|] == Diagnostic(s.frame, DiagX, DiagY, Sample(s.textures[s.current], DiagX, DiagY))
    ensures s.frame % DiagnosticPeriod != 0 ==> r.log == s.log
    ensures FullSize(s) && s.frame % DiagnosticPeriod == 0 ==>
      r.log[|s.log|].state == s.textures[s.current][DiagY][DiagX]
    ensures r.textures == s.textures && r.current == s.current && r.frame == s.frame
    ensures r.running == s.running && r.screen == s.screen && r.passes == s.passes
  {
    if s.frame % DiagnosticPeriod == 0 then
      s.(log := s.log + [Diagnostic(s.frame, DiagX, DiagY, Sample(s.textures[s.current], DiagX, DiagY))])
    else s
  }

  /** current_buffer = 1 - current_buffer. */
  function FlipBuffers(s: State): (r: State)
    requires Valid(s)
    ensures Valid(r) && r.current != s.current
    ensures r.textures == s.textures && r.frame == s.frame && r.running == s.running
    ensures r.screen == s.screen && r.passes == s.passes && r.log == s.log
  {
    s.(current := Flip(s.current))
  }

  /** frame += 1. */
  function AdvanceFrame(s: State): (r: State)
    ensures r.frame == s.frame + 1
    ensures r.textures == s.textures && r.current == s.current && r.running == s.running
    ensures r.screen == s.screen && r.passes == s.passes && r.log == s.log
  {
    s.(frame := s.frame + 1)
  }

  /** One iteration of the `while running` loop, in the source's order. */
  function Step(s: State, quit: bool, update: UpdateProgram, render: RenderProgram): (r: State)
    requires Valid(s)
    ensures Valid(r)
  {
    AdvanceFrame(DiagnosticStep(RenderPassStep(FlipBuffers(UpdatePassStep(PollEvents(s, quit), update)), render)))
  }

  /** A tick keeps both textures at the window's size. */
  lemma StepKeepsFullSize(s: State, quit: bool, update: UpdateProgram, render: RenderProgram)
    requires Valid(s) && FullSize(s)
    ensures FullSize(Step(s, quit, update, render))
  {
    UpdateWritesCurrentSamplesOther(s, quit, update, render);
  }

  /** A tick keeps every update pass from sampling the slot it writes. */
  lemma StepNeverSamplesTarget(s: State, quit: bool, update: UpdateProgram, render: RenderProgram)
    requires Valid(s) && NeverSamplesTarget(s.passes)
    ensures NeverSamplesTarget(Step(s, quit, update, render).passes)
  {
    RenderSamplesUpdateInput(s, quit, update, render);
  }

  /** The update pass writes slot `current` with the program applied to
      slot `1 - current`, records that it sampled a different slot than it
      wrote, and leaves the sampled slot as it was. */
  lemma UpdateWritesCurrentSamplesOther(s: State, quit: bool, update: UpdateProgram, render: RenderProgram)
    requires Valid(s)
    ensures var r := Step(s, quit, update, render);
      && r.textures[s.current] == UpdateOutput(update, s.textures[1 - s.current], s.frame)
      && r.textures[1 - s.current] == s.textures[1 - s.current]
      && r.passes[|s.passes|] == UpdatePass(1 - s.current, s.current, s.frame)
  {
  }

  /** The update pass never reads the slot it writes: the tick's whole
      outcome is the same whatever that slot held before, since it is
      cleared and then covered in full. */
  lemma UpdateIgnoresTargetContents(s: State, old_target: Image, quit: bool, update: UpdateProgram, render: RenderProgram)
    requires Valid(s)
    ensures Valid(s.(textures := s.textures[s.current := old_target]))
    ensures Step(s.(textures := s.textures[s.current := old_target]), quit, update, render)
         == Step(s, quit, update, render)
  {
    var t := s.(textures := s.textures[s.current := old_target]);
    assert t.textures[1 - s.current] == s.textures[1 - s.current];
    var ps, pt := PollEvents(s, quit), PollEvents(t, quit);
    assert pt == ps.(textures := ps.textures[s.current := old_target]);
    assert ps.textures[s.current := Cleared(Width, Height)]
        == pt.textures[s.current := Cleared(Width, Height)];
    assert UpdatePassStep(pt, update) == UpdatePassStep(ps, update);
  }

  /** After the flip, current_buffer names the slot the update SAMPLED, so
      the render pass shows the state the update started from, not the one
      it produced, and writes neither slot. */
  lemma RenderSamplesUpdateInput(s: State, quit: bool, update: UpdateProgram, render: RenderProgram)
    requires Valid(s)
    ensures var r := Step(s, quit, update, render);
      && r.current == Flip(s.current)
      && r.screen == RenderOutput(render, s.textures[1 - s.current])
      && r.passes == s.passes + [UpdatePass(1 - s.current, s.current, s.frame), RenderPass(1 - s.current)]
      && r.textures == UpdatePassStep(PollEvents(s, quit), update).textures
  {
  }

  /** Across two ticks, the render pass of the second shows exactly what
      the update pass of the first produced: the display lags one tick. */
  lemma RenderShowsPreviousTick(s: State, q1: bool, q2: bool, update: UpdateProgram, render: RenderProgram)
    requires Valid(s)
    ensures var r1 := Step(s, q1, update, render);
      Step(r1, q2, update, render).screen
        == RenderOutput(render, UpdateOutput(update, s.textures[1 - s.current], s.frame))
  {
    var r1 := Step(s, q1, update, render);
    UpdateWritesCurrentSamplesOther(s, q1, update, render);
    StepControl(s, q1, update, render);
    RenderSamplesUpdateInput(r1, q2, update, render);
  }

  /** The diagnostic fires exactly when frame % 1200 == 0, before the
      counter is incremented, reading pixel (300, 300) of the slot the
      render pass sampled, a pixel that lies inside a full-size texture. */
  lemma DiagnosticReadsFrontSlot(s: State, quit: bool, update: UpdateProgram, render: RenderProgram)
    requires Valid(s)
    ensures var r := Step(s, quit, update, render);
      r.log == s.log + (if s.frame % DiagnosticPeriod == 0
                        then [Diagnostic(s.frame, DiagX, DiagY, Sample(s.textures[1 - s.current], DiagX, DiagY))]
                        else [])
    ensures FullSize(s) ==>
      Sample(s.textures[1 - s.current], DiagX, DiagY) == s.textures[1 - s.current][DiagY][DiagX]
  {
  }

  /** A quit clears running but the tick still completes: apart from
      running its outcome is the same as without quit. */
  lemma QuitCompletesTick(s: State, update: UpdateProgram, render: RenderProgram)
    requires Valid(s)
    ensures Step(s, true, update, render) == Step(s, false, update, render).(running := false)
  {
  }

  /** Each tick advances frame by one and flips current_buffer, and it
      leaves the loop running exactly when it was running and saw no quit. */
  lemma StepControl(s: State, quit: bool, update: UpdateProgram, render: RenderProgram)
    requires Valid(s)
    ensures var r := Step(s, quit, update, render);
      && r.frame == s.frame + 1
      && r.current == 1 - s.current
      && r.running == (s.running && !quit)
  {
  }

  /** The first tick writes slot 0, overwriting the initial grid before
      the loop reads it (only the start-up readback sees it), samples
      slot 1 (which the host never wrote), and shows and reads back
      slot 1. */
  lemma FirstTickIgnoresInitialGrid(slot1: Image, screen: Image, quit: bool, update: UpdateProgram, render: RenderProgram)
    ensures var r := Step(Initial(slot1, screen), quit, update, render);
      && r.textures == [UpdateOutput(update, slot1, 0), slot1]
      && r.screen == RenderOutput(render, slot1)
      && r.log == [Diagnostic(0, DiagX, DiagY, Sample(slot1, DiagX, DiagY))]
  {
    var s := Initial(slot1, screen);
    var r := Step(s, quit, update, render);
    assert r.textures[0] == UpdateOutput(update, slot1, 0);
    assert r.textures[1] == slot1;
  }

  /** The number of ticks the loop runs, from a running state, when tick i
      sees a quit event iff quits[i]: up to and including the first quit. */
  function TicksRun(quits: seq<bool>): (n: nat)
    ensures n <= |quits|
  {
    if |quits| == 0 then 0
    else if quits[0] then 1
    else 1 + TicksRun(quits[1..])
  }

  /** The loop runs every tick when no quit comes, and otherwise stops
      right after the tick of the first quit. */
  lemma {:induction false} TicksRunFirstQuit(quits: seq<bool>)
    ensures var n := TicksRun(quits);
      && (true !in quits ==> n == |quits|)
      && (true in quits ==> 0 < n && quits[n - 1] && true !in quits[..n - 1])
  {
    if |quits| > 0 && !quits[0] {
      assert quits == [quits[0]] + quits[1..];
      TicksRunFirstQuit(quits[1..]);
      var n := TicksRun(quits);
      if true in quits {
        assert quits[..n - 1] == [quits[0]] + quits[1..][..n - 2];
      }
    }
  }

  /** The loop driven by one quit flag per tick: it stops after a tick that
      saw quit, or when the flags run out. */
  function Steps(s: State, quits: seq<bool>, update: UpdateProgram, render: RenderProgram): (r: State)
    requires Valid(s)
    ensures Valid(r)
    decreases |quits|
  {
    if |quits| == 0 || !s.running then s
    else Steps(Step(s, quits[0], update, render), quits[1..], update, render)
  }

  /** A whole run keeps both textures at the window's size. */
  lemma {:induction false} StepsKeepFullSize(s: State, quits: seq<bool>, update: UpdateProgram, render: RenderProgram)
    requires Valid(s) && FullSize(s)
    ensures FullSize(Steps(s, quits, update, render))
    decreases |quits|
  {
    if |quits| > 0 && s.running {
      StepKeepsFullSize(s, quits[0], update, render);
      StepsKeepFullSize(Step(s, quits[0], update, render), quits[1..], update, render);
    }
  }

  /** A whole run keeps every update pass from sampling the slot it
      writes. */
  lemma {:induction false} StepsNeverSampleTarget(s: State, quits: seq<bool>, update: UpdateProgram, render: RenderProgram)
    requires Valid(s) && NeverSamplesTarget(s.passes)
    ensures NeverSamplesTarget(Steps(s, quits, update, render).passes)
    decreases |quits|
  {
    if |quits| > 0 && s.running {
      StepNeverSamplesTarget(s, quits[0], update, render);
      StepsNeverSampleTarget(Step(s, quits[0], update, render), quits[1..], update, render);
    }
  }

  /** The frames in [lo, hi) at which the diagnostic fires, in order. */
  function DiagnosticFrames(lo: nat, hi: nat): seq<nat>
    decreases hi
  {
    if hi <= lo then []
    else DiagnosticFrames(lo, hi - 1) + (if (hi - 1) % DiagnosticPeriod == 0 then [hi - 1] else [])
  }

  /** The diagnostic fires at exactly the multiples of 1200 in [lo, hi). */
  lemma {:induction false} DiagnosticFramesExactly(lo: nat, hi: nat, f: nat)
    ensures f in DiagnosticFrames(lo, hi) <==> lo <= f < hi && f % DiagnosticPeriod == 0
    decreases hi
  {
    if hi > lo {
      DiagnosticFramesExactly(lo, hi - 1, f);
    }
  }

  /** The diagnostic frames come in strictly increasing order. */
  lemma {:induction false} DiagnosticFramesIncreasing(lo: nat, hi: nat)
    ensures forall i, j :: 0 <= i < j < |DiagnosticFrames(lo, hi)| ==>
      DiagnosticFrames(lo, hi)[i] < DiagnosticFrames(lo, hi)[j]
    decreases hi
  {
    if hi > lo {
      DiagnosticFramesIncreasing(lo, hi - 1);
      var prev := DiagnosticFrames(lo, hi - 1);
      forall i | 0 <= i < |prev| ensures prev[i] < hi - 1 {
        DiagnosticFramesExactly(lo, hi - 1, prev[i]);
      }
    }
  }

  /** DiagnosticFrames over [lo, hi) splits at its first frame. */
  lemma {:induction false} DiagnosticFramesSplit(lo: nat, hi: nat)
    requires lo < hi
    ensures DiagnosticFrames(lo, hi)
         == DiagnosticFrames(lo, lo + 1) + DiagnosticFrames(lo + 1, hi)
    decreases hi
  {
    if hi > lo + 1 {
      DiagnosticFramesSplit(lo, hi - 1);
    }
  }

  /** The frame numbers of a diagnostic log, in order. */
  function Frames(log: seq<Diagnostic>): seq<nat>
  {
    if log == [] then [] else Frames(log[..|log| - 1]) + [log[|log| - 1].frame]
  }

  /** The part of the loop state that the multi-tick properties are
      about: current_buffer, frame, running and the frames at which a
      diagnostic was recorded. */
  datatype Counters = Counters(current: int, frame: nat, running: bool, diagnosed: seq<nat>)

  function CountersOf(s: State): Counters
  {
    Counters(s.current, s.frame, s.running, Frames(s.log))
  }

  /** One tick seen through Counters. */
  function CountersStep(c: Counters, quit: bool): Counters
    requires c.current == 0 || c.current == 1
  {
    Counters(Flip(c.current), c.frame + 1, c.running && !quit,
             c.diagnosed + DiagnosticFrames(c.frame, c.frame + 1))
  }

  /** Ticks seen through Counters, stopping as the loop does. */
  function CountersSteps(c: Counters, quits: seq<bool>): Counters
    requires c.current == 0 || c.current == 1
    decreases |quits|
  {
    if |quits| == 0 || !c.running then c
    else CountersSteps(CountersStep(c, quits[0]), quits[1..])
  }

  /** Step moves the counters as CountersStep says. */
  lemma StepCounters(s: State, quit: bool, update: UpdateProgram, render: RenderProgram)
    requires Valid(s)
    ensures CountersOf(Step(s, quit, update, render)) == CountersStep(CountersOf(s), quit)
  {
    DiagnosticReadsFrontSlot(s, quit, update, render);
    StepControl(s, quit, update, render);
    TickCounters(s, Step(s, quit, update, render), quit);
  }

  /** Any state reached from s as a tick moves frame, current_buffer,
      running and the log has the counters CountersStep gives. */
  lemma TickCounters(s: State, r: State, quit: bool)
    requires Valid(s)
    requires r.frame == s.frame + 1 && r.current == 1 - s.current
    requires r.running == (s.running && !quit)
    requires r.log == s.log + (if s.frame % DiagnosticPeriod == 0
                               then [Diagnostic(s.frame, DiagX, DiagY, Sample(s.textures[1 - s.current], DiagX, DiagY))]
                               else [])
    ensures CountersOf(r) == CountersStep(CountersOf(s), quit)
  {
    LoggedFrames(s.log, r.log, s.frame, Sample(s.textures[1 - s.current], DiagX, DiagY));
  }

  /** A log extended as the diagnostic step extends it records the frames
      DiagnosticFrames gives for that one frame. */
  lemma LoggedFrames(log: seq<Diagnostic>, log': seq<Diagnostic>, frame: nat, p: Pixel)
    requires log' == log + (if frame % DiagnosticPeriod == 0
                            then [Diagnostic(frame, DiagX, DiagY, p)] else [])
    ensures Frames(log') == Frames(log) + DiagnosticFrames(frame, frame + 1)
  {
    assert DiagnosticFrames(frame, frame + 1)
        == (if frame % DiagnosticPeriod == 0 then [frame] else []);
    if frame % DiagnosticPeriod == 0 {
      assert log'[..|log|] == log;
    } else {
      assert log' == log;
    }
  }

  /** Steps moves the counters as CountersSteps says. */
  lemma {:induction false} StepsCounters(s: State, quits: seq<bool>, update: UpdateProgram, render: RenderProgram)
    requires Valid(s)
    ensures CountersOf(Steps(s, quits, update, render)) == CountersSteps(CountersOf(s), quits)
    decreases |quits|
  {
    if |quits| > 0 && s.running {
      StepCounters(s, quits[0], update, render);
      StepsCounters(Step(s, quits[0], update, render), quits[1..], update, render);
    }
  }

  /** Over a whole run from a running state, the frame counter advances by
      one per tick that ran, and the loop has stopped exactly when some
      tick saw quit. */
  lemma {:induction false} CountFrames(c: Counters, quits: seq<bool>)
    requires (c.current == 0 || c.current == 1) && c.running
    ensures CountersSteps(c, quits).frame == c.frame + TicksRun(quits)
    ensures CountersSteps(c, quits).running == (true !in quits)
    decreases |quits|
  {
    if |quits| > 0 {
      assert quits == [quits[0]] + quits[1..];
      if !quits[0] {
        CountFrames(CountersStep(c, quits[0]), quits[1..]);
      }
    }
  }

  /** Flipping an index and then adding m has the parity of adding m + 1. */
  lemma ParityAfterFlip(c: int, m: nat)
    requires c == 0 || c == 1
    ensures (Flip(c) + m) % 2 == (c + 1 + m) % 2
  {
    assert c + 1 + m == (Flip(c) + m) + 2 * c;
  }

  /** current_buffer alternates: after n ticks it is the starting index
      when n is even and the other one when n is odd. */
  lemma {:induction false} Alternate(c: Counters, quits: seq<bool>)
    requires (c.current == 0 || c.current == 1) && c.running
    ensures CountersSteps(c, quits).current == (c.current + TicksRun(quits)) % 2
    decreases |quits|
  {
    if |quits| > 0 {
      assert quits == [quits[0]] + quits[1..];
      if !quits[0] {
        Alternate(CountersStep(c, quits[0]), quits[1..]);
        ParityAfterFlip(c.current, TicksRun(quits[1..]));
      }
    }
  }

  /** The frames diagnosed in a tick that ran, followed by those of the
      next n - 1 ticks, are those of n ticks. */
  lemma DiagnosedAfterOneTick(c: Counters, n: nat)
    requires (c.current == 0 || c.current == 1) && 0 < n
    ensures CountersStep(c, false).diagnosed + DiagnosticFrames(c.frame + 1, c.frame + n)
         == c.diagnosed + DiagnosticFrames(c.frame, c.frame + n)
  {
    DiagnosticFramesSplit(c.frame, c.frame + n);
    assert c.diagnosed + DiagnosticFrames(c.frame, c.frame + 1) + DiagnosticFrames(c.frame + 1, c.frame + n)
        == c.diagnosed + (DiagnosticFrames(c.frame, c.frame + 1) + DiagnosticFrames(c.frame + 1, c.frame + n));
  }

  /** Over a whole run the diagnostic log gains one entry for each frame
      that ran and is a multiple of 1200, in frame order. */
  lemma {:induction false} DiagnosedFrames(c: Counters, quits: seq<bool>)
    requires (c.current == 0 || c.current == 1) && c.running
    ensures CountersSteps(c, quits).diagnosed
         == c.diagnosed + DiagnosticFrames(c.frame, c.frame + TicksRun(quits))
    decreases |quits|
  {
    if |quits| == 0 {
      assert DiagnosticFrames(c.frame, c.frame) == [];
    } else if !quits[0] {
      var c1 := CountersStep(c, false);
      var rest := quits[1..];
      var n := TicksRun(quits);
      assert n == 1 + TicksRun(rest);
      assert CountersSteps(c, quits) == CountersSteps(c1, rest);
      DiagnosedFrames(c1, rest);
      DiagnosedAfterOneTick(c, n);
    } else {
      assert TicksRun(quits) == 1;
      assert CountersSteps(c, quits) == CountersStep(c, true);
    }
  }

  /** Over a whole run from a running state: frame grows by the number of
      ticks that ran, current_buffer has flipped once per tick, and the
      loop is still running exactly when no tick saw quit. */
  lemma RunCounters(s: State, quits: seq<bool>, update: UpdateProgram, render: RenderProgram)
    requires Valid(s) && s.running
    ensures var r := Steps(s, quits, update, render);
      && r.frame == s.frame + TicksRun(quits)
      && r.current == (s.current + TicksRun(quits)) % 2
      && r.running == (true !in quits)
  {
    StepsCounters(s, quits, update, render);
    RunFields(s, Steps(s, quits, update, render), quits);
  }

  /** Any state whose counters are those of a run from s has the frame,
      current_buffer and running that RunCounters states. */
  lemma RunFields(s: State, r: State, quits: seq<bool>)
    requires Valid(s) && s.running
    requires CountersOf(r) == CountersSteps(CountersOf(s), quits)
    ensures r.frame == s.frame + TicksRun(quits)
    ensures r.current == (s.current + TicksRun(quits)) % 2
    ensures r.running == (true !in quits)
  {
    CountFrames(CountersOf(s), quits);
    Alternate(CountersOf(s), quits);
  }

  /** From the initial counters (buffer 0, frame 0, running, nothing
      logged) the diagnostic fires at frames 0, 1200, 2400, ... among the
      frames that ran, and at no other frame. */
  lemma DiagnosticCadence(quits: seq<bool>, f: nat)
    ensures f in CountersSteps(Counters(0, 0, true, []), quits).diagnosed
        <==> f < TicksRun(quits) && f % DiagnosticPeriod == 0
  {
    DiagnosedFrames(Counters(0, 0, true, []), quits);
    DiagnosticFramesExactly(0, TicksRun(quits), f);
  }

  /** The initial state's counters are those DiagnosticCadence starts from. */
  lemma InitialCounters(slot1: Image, screen: Image)
    ensures CountersOf(Initial(slot1, screen)) == Counters(0, 0, true, [])
  {
  }

  /** The cadence on the loop itself: a run from the start-up state logs
      a readback at exactly the multiples of 1200 among the frames run,
      in increasing frame order. */
  lemma RunDiagnosticCadence(slot1: Image, screen: Image, quits: seq<bool>, update: UpdateProgram, render: RenderProgram, f: nat)
    ensures var log := Steps(Initial(slot1, screen), quits, update, render).log;
      && Frames(log) == DiagnosticFrames(0, TicksRun(quits))
      && (f in Frames(log) <==> f < TicksRun(quits) && f % DiagnosticPeriod == 0)
  {
    var s := Initial(slot1, screen);
    InitialCounters(slot1, screen);
    StepsCounters(s, quits, update, render);
    CadenceFields(Steps(s, quits, update, render), quits, f);
  }

  /** Any state whose counters are those of a run from the start-up
      counters has logged exactly the cadence's frames. */
  lemma CadenceFields(r: State, quits: seq<bool>, f: nat)
    requires CountersOf(r) == CountersSteps(Counters(0, 0, true, []), quits)
    ensures Frames(r.log) == DiagnosticFrames(0, TicksRun(quits))
    ensures f in Frames(r.log) <==> f < TicksRun(quits) && f % DiagnosticPeriod == 0
  {
    DiagnosedFrames(Counters(0, 0, true, []), quits);
    DiagnosticCadence(quits, f);
  }

  // ----- The loop as evidently intended -----

  /** The update pass as intended: sample the current (front) slot and
      write the other one, so that after the flip current_buffer names the
      freshly written slot. */
  function IntendedUpdatePassStep(s: State, update: UpdateProgram): (r: State)
    requires Valid(s)
    ensures Valid(r)
    ensures r.textures[1 - s.current] == UpdateOutput(update, s.textures[s.current], s.frame)
    ensures r.textures[s.current] == s.textures[s.current]
    ensures r.passes == s.passes + [UpdatePass(s.current, 1 - s.current, s.frame)]
    ensures r.current == s.current && r.frame == s.frame && r.running == s.running
    ensures r.screen == s.screen && r.log == s.log
  {
    var target := Flip(s.current);
    var sampled := s.current;
    var cleared := s.textures[target := Cleared(Width, Height)];
    s.(textures := cleared[target := UpdateOutput(update, cleared[sampled], s.frame)],
       passes := s.passes + [UpdatePass(sampled, target, s.frame)])
  }

  /** One tick with the intended update pass; every other step as written. */
  function IntendedStep(s: State, quit: bool, update: UpdateProgram, render: RenderProgram): (r: State)
    requires Valid(s)
    ensures Valid(r)
  {
    AdvanceFrame(DiagnosticStep(RenderPassStep(FlipBuffers(IntendedUpdatePassStep(PollEvents(s, quit), update)), render)))
  }

  /** With the intended update pass, the render pass and the diagnostic
      observe exactly this tick's update output, and the update consumes
      the state shown by the previous tick. */
  lemma IntendedRenderSeesThisTick(s: State, quit: bool, update: UpdateProgram, render: RenderProgram)
    requires Valid(s)
    ensures var r := IntendedStep(s, quit, update, render);
      var out := UpdateOutput(update, s.textures[s.current], s.frame);
      && r.textures[r.current] == out
      && r.textures[s.current] == s.textures[s.current]
      && r.screen == RenderOutput(render, out)
      && r.log == s.log + (if s.frame % DiagnosticPeriod == 0
                           then [Diagnostic(s.frame, DiagX, DiagY, out[DiagY][DiagX])]
                           else [])
  {
  }

  /** The update program that copies the sampled pixel unchanged. */
  function CopyUpdate(sampled: Image, dt: real, frame: nat, x: int, y: int): Pixel
  {
    Sample(sampled, x, y)
  }

  /** Its render counterpart: show the sampled pixel as it is. */
  function CopyRender(sampled: Image, x: int, y: int): Pixel
  {
    Sample(sampled, x, y)
  }

  /** The copying update program reproduces any full-size image. */
  lemma IdentityOutput(img: Image, frame: nat)
    requires Shaped(img, Width, Height)
    ensures UpdateOutput(CopyUpdate, img, frame) == img
  {
    var out := UpdateOutput(CopyUpdate, img, frame);
    forall y | 0 <= y < Height ensures out[y] == img[y] {
      assert forall x :: 0 <= x < Width ==> out[y][x] == img[y][x];
    }
  }

  /** With the intended update pass, the copying update program keeps a
      full-size image in the front slot for one more tick. */
  lemma IntendedIdentityKeepsFront(s: State, quit: bool, render: RenderProgram)
    requires Valid(s) && Shaped(s.textures[s.current], Width, Height)
    ensures var r := IntendedStep(s, quit, CopyUpdate, render);
      r.textures[r.current] == s.textures[s.current]
  {
    IdentityOutput(s.textures[s.current], s.frame);
    IntendedRenderSeesThisTick(s, quit, CopyUpdate, render);
  }

  /** With the intended update pass and the copying update program, the front
      slot holds the initial grid after one tick and still after two. */
  lemma IntendedIdentityKeepsInitialGrid(slot1: Image, screen: Image, q1: bool, q2: bool)
    ensures var render := (img: Image, x: int, y: int) => Blank;
      var r1 := IntendedStep(Initial(slot1, screen), q1, CopyUpdate, render);
      var r2 := IntendedStep(r1, q2, CopyUpdate, render);
      && r1.textures[r1.current] == InitialImage(Width, Height)
      && r2.textures[r2.current] == InitialImage(Width, Height)
  {
    var render := (img: Image, x: int, y: int) => Blank;
    var s := Initial(slot1, screen);
    IntendedIdentityKeepsFront(s, q1, render);
    var r1 := IntendedStep(s, q1, CopyUpdate, render);
    IntendedIdentityKeepsFront(r1, q2, render);
  }

  /** As written, the copying update program loses the initial grid in the first
      tick: with slot 1 holding zeros, pixel (2, 1) of either slot is Blank
      afterwards, while its initial state has vy == 1. */
  lemma AsWrittenIdentityLosesInitialGrid(screen: Image, quit: bool)
    ensures var render := (img: Image, x: int, y: int) => Blank;
      var r := Step(Initial(Cleared(Width, Height), screen), quit, CopyUpdate, render);
      && r.textures[r.current][1][2] == Blank
      && r.textures[1 - r.current][1][2] == Blank
      && InitialImage(Width, Height)[1][2].vy == 1.0
  {
    var render := (img: Image, x: int, y: int) => Blank;
    var zeros := Cleared(Width, Height);
    FirstTickIgnoresInitialGrid(zeros, screen, quit, CopyUpdate, render);
    IdentityOutput(zeros, 0);
    InitialImageAt(Width, Height, 2, 1);
  }

  /** As written, on the first tick an update program that yields the
      pixel p everywhere is not what the screen shows: with slot 1 holding
      zeros and a render program that shows the sampled pixel, the screen
      is Blank at (0, 0). */
  lemma AsWrittenRenderShowsStaleSlot(p: Pixel, screen: Image, quit: bool)
    requires p != Blank
    ensures var update := (img: Image, dt: real, frame: nat, x: int, y: int) => p;
      var render := CopyRender;
      var r := Step(Initial(Cleared(Width, Height), screen), quit, update, render);
      && UpdateOutput(update, Cleared(Width, Height), 0)[0][0] == p
      && r.screen[0][0] == Blank
      && r.screen[0][0] != RenderOutput(render, UpdateOutput(update, Cleared(Width, Height), 0))[0][0]
  {
    var update := (img: Image, dt: real, frame: nat, x: int, y: int) => p;
    var zeros := Cleared(Width, Height);
    FirstTickIgnoresInitialGrid(zeros, screen, quit, update, CopyRender);
  }
}
