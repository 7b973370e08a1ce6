/** The program's mutable state as an object: the two state textures
    (each permanently attached to its own framebuffer), the visible screen,
    current_buffer, frame and running. Tick performs one iteration of the
    `while running` loop in place and Run performs the loop; both are proved
    to follow Loop.Step. */
module Simulation {
  import opened Pixels
  import opened Loop

  class Simulation {
    /** The two state textures; textures[i] is drawn into through
        framebuffer i. */
    var textures: seq<Image>
    /** The visible surface the render pass draws to. */
    var screen: Image
    var currentBuffer: int
    var frame: nat
    var running: bool
    /** The draw calls so far: which slot each sampled and wrote. */
    ghost var passes: seq<Pass>
    /** The diagnostic readbacks so far, in place of the printed lines. */
    ghost var log: seq<Diagnostic>
    /** The compiled update and render programs. */
    const update: UpdateProgram
    const render: RenderProgram

    /** The object's state as a value of the loop's state machine. */
    ghost function Model(): State
      reads this
    {
      State(textures, currentBuffer, frame, running, screen, passes, log)
    }

    /** Two textures, and current_buffer names one of them. */
    ghost predicate Valid()
      reads this
    {
      Loop.Valid(Model())
    }

    /** Allocates both textures, fills the initial grid on the host and
        writes it into texture 0, and reads pixel (0, 0) back once. Texture
        1 keeps whatever its allocation holds, given here as slot1. */
    constructor (update: UpdateProgram, render: RenderProgram, slot1: Image, screen: Image)
      requires Shaped(slot1, Width, Height)
      ensures Valid()
      ensures Model() == Initial(slot1, screen) && FullSize(Model())
      ensures this.update == update && this.render == render
    {
      this.update := update;
      this.render := render;
      textures := [slot1, slot1];
      this.screen := screen;
      currentBuffer, running, frame := 0, true, 0;
      passes, log := [], [];
      new;
      var initialData := BuildInitialData(Width, Height);
      textures := textures[0 := Grid(initialData)];
      var startState := Readback(0, 0, 0);
    }

    /** A synchronous readback of pixel (x, y) of texture `slot`; it
        changes nothing. */
    method Readback(slot: int, x: nat, y: nat) returns (p: Pixel)
      requires Valid()
      requires slot == 0 || slot == 1
      ensures p == Sample(Model().textures[slot], x, y)
    {
      p := Sample(textures[slot], x, y);
    }

    /** The update pass: bind framebuffer current_buffer and clear it,
        bind texture 1 - current_buffer to unit 0, set dt and if_frame0 and
        draw the full-screen quad. */
    method DrawUpdate()
      requires Valid()
      modifies this
      ensures Valid()
      ensures Model() == UpdatePassStep(old(Model()), update)
    {
      var target := currentBuffer;
      textures := textures[target := Cleared(Width, Height)];
      var sampled := 1 - currentBuffer;
      textures := textures[target := UpdateOutput(update, textures[sampled], frame)];
      passes := passes + [UpdatePass(sampled, target, frame)];
    }

    /** The render pass: draw the full-screen quad to the screen sampling
        texture current_buffer. */
    method DrawScreen()
      requires Valid()
      modifies this
      ensures Valid()
      ensures Model() == RenderPassStep(old(Model()), render)
    {
      screen := RenderOutput(render, textures[currentBuffer]);
      passes := passes + [RenderPass(currentBuffer)];
    }

    /** Every DiagnosticPeriod frames, read back pixel (DiagX, DiagY) of
        texture current_buffer and record it. */
    method Diagnose()
      requires Valid()
      modifies this
      ensures Valid()
      ensures Model() == DiagnosticStep(old(Model()))
    {
      if frame % DiagnosticPeriod == 0 {
        var state := Readback(currentBuffer, DiagX, DiagY);
        log := log + [Diagnostic(frame, DiagX, DiagY, state)];
      }
    }

    /** One iteration of the loop body, entered while running. */
    method Tick(quit: bool)
      requires Valid() && running
      modifies this
      ensures Valid()
      ensures Model() == Step(old(Model()), quit, update, render)
    {
      ghost var s := Model();
      // Event polling: a quit event only clears running.
      if quit {
        running := false;
      }
      assert Model() == PollEvents(s, quit);
      DrawUpdate();
      ghost var updated := Model();
      currentBuffer := 1 - currentBuffer;
      assert Model() == FlipBuffers(updated);
      DrawScreen();
      Diagnose();
      ghost var diagnosed := Model();
      frame := frame + 1;
      assert Model() == AdvanceFrame(diagnosed);
    }

    /** The `while running` loop, where the i-th flag of quits says
        whether tick i saw a quit event; it ends early if the flags run
        out. */
    method Run(quits: seq<bool>)
      requires Valid()
      modifies this
      ensures Valid()
      ensures Model() == Steps(old(Model()), quits, update, render)
    {
      var rest := quits;
      while running && rest != []
        invariant Valid()
        invariant Steps(old(Model()), quits, update, render) == Steps(Model(), rest, update, render)
        decreases |rest|
      {
        Tick(rest[0]);
        rest := rest[1..];
      }
    }
  }
}
