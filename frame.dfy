/**
 * The per-frame state of the page and the resize / skip / stop decision at
 * the top of `render`. Class Orchestrator gathers three kinds of state into
 * one object: `init()`'s closure variables (the enable flag and its stored
 * preference, the clamped radius target, the reveal progress), the canvas's
 * drawing-buffer size, and the module-level globals `framebuffer` and
 * `pixelBuffer` that `initFramebuffer` writes.
 */
module Frame {
  import opened DitherSpec

  datatype Option<T> = None | Some(value: T)

  /** What a call of `render` leaves behind: only Stopped does not schedule another frame. */
  datatype FrameOutcome = Skipped | Stopped | Rendered {
    predicate Reschedules() { !Stopped? }
  }

  const MinRadius: real := 0.25
  const MaxRadius: real := 1.2
  const ProgressStep: real := 0.0025
  const RenderScale: real := 0.2

  /** The smaller of two reals. */
  function RMin(a: real, b: real): (m: real)
  {
    if a <= b then a else b
  }

  /** The larger of two reals. */
  function RMax(a: real, b: real): (m: real)
  {
    if a >= b then a else b
  }

  // ---------------------------------------------------------------------
  // Preferences
  // ---------------------------------------------------------------------

  /** The enable flag read from storage: absent means enabled, and only "0" disables. */
  function StoredEnabled(stored: Option<string>): (enabled: bool)
    ensures !enabled <==> stored == Some("0")
  {
    if stored.None? then true else stored.value != "0"
  }

  /** The value written back on every toggle. */
  function Persisted(enabled: bool): (s: string)
    ensures s == "1" || s == "0"
  {
    if enabled then "1" else "0"
  }

  /** What the toggle writes is read back as the same flag. */
  lemma PersistRoundTrip(enabled: bool)
    ensures StoredEnabled(Some(Persisted(enabled))) == enabled
  {
  }

  // ---------------------------------------------------------------------
  // Animation scalars
  // ---------------------------------------------------------------------

  /** `Math.max(minRadius, Math.min(maxRadius, v))`. */
  function ClampRadius(v: real): (r: real)
    ensures MinRadius <= r <= MaxRadius
    ensures MinRadius <= v <= MaxRadius ==> r == v
    ensures v < MinRadius ==> r == MinRadius
    ensures v > MaxRadius ==> r == MaxRadius
  {
    RMax(MinRadius, RMin(MaxRadius, v))
  }

  /** Clamping twice is clamping once. */
  lemma ClampRadiusIdempotent(v: real)
    ensures ClampRadius(ClampRadius(v)) == ClampRadius(v)
  {
  }

  /** `Math.min(1, progress + 0.0025)`. */
  function NextProgress(p: real): (r: real)
    ensures r <= 1.0
    ensures p <= 1.0 ==> p <= r
    ensures p < 1.0 ==> p < r
  {
    RMin(1.0, p + ProgressStep)
  }

  /** The progress after k frames, starting from 0. */
  function ProgressAfter(k: nat): (p: real)
  {
    if k == 0 then 0.0 else NextProgress(ProgressAfter(k - 1))
  }

  /** Progress grows by one step per frame until it saturates at 1 (after 400 frames). */
  lemma {:induction false} ProgressClosedForm(k: nat)
    ensures ProgressAfter(k) == RMin(1.0, k as real * ProgressStep)
  {
    if k > 0 {
      ProgressClosedForm(k - 1);
    }
  }

  /** Across frames progress never decreases and never exceeds 1. */
  lemma ProgressMonotone(j: nat, k: nat)
    requires j <= k
    ensures 0.0 <= ProgressAfter(j) <= ProgressAfter(k) <= 1.0
  {
    ProgressClosedForm(j);
    ProgressClosedForm(k);
  }

  // ---------------------------------------------------------------------
  // Render size and the frame decision
  // ---------------------------------------------------------------------

  /** `Math.max(1, (display * RENDER_SCALE) | 0)`: a fifth of the display size, at least 1. */
  function RenderSize(display: nat): (r: int)
    ensures r >= 1
    ensures display < 5 * 0x8000_0000 ==> r == Max(1, display / 5)
    ensures 5 <= display < 5 * 0x8000_0000 ==> 5 * r <= display < 5 * r + 5
  {
    Max(1, ToInt32(display as real * RenderScale))
  }

  /**
   * The tail of `render` after the resize bookkeeping: skip (and reschedule)
   * while targets are missing or the canvas has zero area; otherwise stop
   * when disabled, else render.
   */
  function FrameDecision(hasTargets: bool, canvasWidth: nat, canvasHeight: nat, enabled: bool): (o: FrameOutcome)
    ensures o == Skipped <==> !hasTargets || canvasWidth == 0 || canvasHeight == 0
    ensures o == Rendered <==> hasTargets && canvasWidth > 0 && canvasHeight > 0 && enabled
    ensures o == Stopped ==> canvasWidth > 0 && canvasHeight > 0 && !enabled
  {
    if !hasTargets || canvasWidth == 0 || canvasHeight == 0 then Skipped
    else if !enabled then Stopped
    else Rendered
  }

  /** The decision with the enable test moved ahead of the skip test: a disabled loop always stops. */
  function FrameDecisionChecked(hasTargets: bool, canvasWidth: nat, canvasHeight: nat, enabled: bool): (o: FrameOutcome)
    ensures !enabled ==> o == Stopped
    ensures enabled ==> o == FrameDecision(hasTargets, canvasWidth, canvasHeight, enabled)
  {
    if !enabled then Stopped
    else if !hasTargets || canvasWidth == 0 || canvasHeight == 0 then Skipped
    else Rendered
  }

  /**
   * A hidden canvas (display: none, set whenever the effect is disabled)
   * reports a client size of 0, so a disabled loop never stops: it skips and
   * reschedules every frame.
   */
  lemma HiddenCanvasNeverStops(hasTargets: bool, enabled: bool)
    requires !enabled
    ensures FrameDecision(hasTargets, 0, 0, enabled) == Skipped
    ensures FrameDecision(hasTargets, 0, 0, enabled).Reschedules()
    ensures !FrameDecisionChecked(hasTargets, 0, 0, enabled).Reschedules()
  {
  }

  // ---------------------------------------------------------------------
  // The closure state of init(), the canvas size and the render-target globals
  // ---------------------------------------------------------------------

  class Orchestrator {
    /** The reduced-motion media query, read once. */
    const reducedMotion: bool
    /** `webglEnabled` and its stored preference under the key "webgl". */
    var webglEnabled: bool
    var stored: Option<string>
    var progress: real
    var targetRadius: real
    /** `canvas.width` / `canvas.height`, the drawing-buffer size. */
    var canvasWidth: nat
    var canvasHeight: nat
    /** Whether `framebuffer` (and the textures created with it) exists. */
    var framebuffer: bool
    /** The size the render targets were created at, and the readback buffer. */
    var targetWidth: nat
    var targetHeight: nat
    var pixelBuffer: array?<byte>
    /** How many times the render targets have been (re)created. */
    ghost var recreations: nat
    /** How many `render` callbacks are queued with `requestAnimationFrame`: each one is a running loop. */
    ghost var queued: nat
    /**
     * Kept only by the corrected scheduling (ToggleChecked, RenderChecked):
     * whether a `render` callback is already queued.
     */
    var framePending: bool

    ghost predicate Valid()
      reads this
    {
      && MinRadius <= targetRadius <= MaxRadius
      && 0.0 <= progress <= 1.0
      && StoredEnabled(stored) == webglEnabled
      && (framebuffer <==> pixelBuffer != null)
      && (framebuffer ==>
            && targetWidth == RenderSize(canvasWidth)
            && targetHeight == RenderSize(canvasHeight)
            && pixelBuffer.Length == 4 * (targetWidth * targetHeight))
    }

    /**
     * The corrected scheduling discipline: the pending flag tells the truth,
     * so at most one `render` is queued, and one is queued whenever the
     * effect is enabled.
     */
    ghost predicate OneLoop()
      reads this
    {
      && queued == (if framePending then 1 else 0)
      && (webglEnabled ==> framePending)
    }

    /** `init()`: read the preference, no render targets yet, progress 0, and one `render` queued. */
    constructor (reducedMotion: bool, stored: Option<string>, mobile: bool, canvasWidth: nat, canvasHeight: nat)
      ensures Valid()
      ensures this.reducedMotion == reducedMotion && this.stored == stored
      ensures webglEnabled == StoredEnabled(stored)
      ensures progress == 0.0 && targetRadius == (if mobile then 0.6 else 0.4)
      ensures this.canvasWidth == canvasWidth && this.canvasHeight == canvasHeight
      ensures !framebuffer && recreations == 0
      ensures queued == 1 && OneLoop()
    {
      this.reducedMotion := reducedMotion;
      this.stored := stored;
      webglEnabled := StoredEnabled(stored);
      progress := 0.0;
      targetRadius := if mobile then 0.6 else 0.4;
      this.canvasWidth := canvasWidth;
      this.canvasHeight := canvasHeight;
      framebuffer := false;
      targetWidth, targetHeight := 0, 0;
      pixelBuffer := null;
      recreations := 0;
      queued := 1;
      framePending := true;
    }

    /** `toggleWebGL`: a no-op under reduced motion; otherwise flip, persist, and re-arm the loop when turned on. */
    method Toggle() returns (scheduled: bool)
      requires Valid()
      modifies this`webglEnabled, this`stored, this`queued
      ensures Valid()
      ensures reducedMotion ==> webglEnabled == old(webglEnabled) && stored == old(stored) && !scheduled
      ensures !reducedMotion ==> webglEnabled == !old(webglEnabled) && stored == Some(Persisted(webglEnabled))
      ensures !reducedMotion ==> scheduled == webglEnabled
      ensures queued == old(queued) + (if scheduled then 1 else 0)
    {
      if reducedMotion {
        return false;
      }
      webglEnabled := !webglEnabled;
      stored := Some(Persisted(webglEnabled));
      PersistRoundTrip(webglEnabled);
      scheduled := webglEnabled;
      if scheduled {
        queued := queued + 1;
      }
    }

    /**
     * `toggleWebGL` with a pending-frame check: turning the effect on queues
     * `render` only when no callback is queued already.
     */
    method ToggleChecked() returns (scheduled: bool)
      requires Valid() && OneLoop()
      modifies this`webglEnabled, this`stored, this`framePending, this`queued
      ensures Valid() && OneLoop()
      ensures reducedMotion ==> webglEnabled == old(webglEnabled) && stored == old(stored)
      ensures !reducedMotion ==> webglEnabled == !old(webglEnabled) && stored == Some(Persisted(webglEnabled))
      ensures scheduled <==> !reducedMotion && webglEnabled && !old(framePending)
      ensures queued == old(queued) + (if scheduled then 1 else 0)
      ensures queued <= 1
      ensures webglEnabled ==> queued == 1
    {
      if reducedMotion {
        return false;
      }
      webglEnabled := !webglEnabled;
      stored := Some(Persisted(webglEnabled));
      PersistRoundTrip(webglEnabled);
      scheduled := webglEnabled && !framePending;
      if scheduled {
        framePending := true;
        queued := queued + 1;
      }
    }

    /** `adjustRadius`: the target is clamped on every adjustment. */
    method AdjustRadius(delta: real)
      requires Valid()
      modifies this`targetRadius
      ensures Valid()
      ensures targetRadius == ClampRadius(old(targetRadius) + delta)
    {
      targetRadius := ClampRadius(targetRadius + delta);
    }

    /** `initFramebuffer`, reduced to the event it is: fresh targets and readback buffer of the given size. */
    method InitFramebuffer(width: nat, height: nat)
      modifies this`framebuffer, this`targetWidth, this`targetHeight, this`pixelBuffer, this`recreations
      ensures framebuffer && targetWidth == width && targetHeight == height
      ensures pixelBuffer != null && fresh(pixelBuffer) && pixelBuffer.Length == 4 * (width * height)
      ensures recreations == old(recreations) + 1
    {
      framebuffer := true;
      targetWidth, targetHeight := width, height;
      pixelBuffer := new byte[width * height * 4](_ => 0);
      recreations := recreations + 1;
    }

    /** The bookkeeping at the top of `render`: progress, render size, resize and first creation of targets. */
    method Prepare(displayWidth: nat, displayHeight: nat) returns (renderWidth: nat, renderHeight: nat)
      requires Valid()
      modifies this
      ensures Valid()
      ensures progress == NextProgress(old(progress))
      ensures renderWidth == RenderSize(displayWidth) && renderHeight == RenderSize(displayHeight)
      ensures canvasWidth == displayWidth && canvasHeight == displayHeight
      ensures webglEnabled == old(webglEnabled) && stored == old(stored) && targetRadius == old(targetRadius)
      ensures queued == old(queued) && framePending == old(framePending)
      ensures var created := old(canvasWidth) != displayWidth || old(canvasHeight) != displayHeight
                             || (!old(framebuffer) && displayWidth > 0 && displayHeight > 0);
        && recreations == old(recreations) + (if created then 1 else 0)
        && framebuffer == (old(framebuffer) || created)
        && (created ==> fresh(pixelBuffer))
        && (!created ==> pixelBuffer == old(pixelBuffer))
    {
      progress := NextProgress(progress);
      renderWidth := RenderSize(displayWidth);
      renderHeight := RenderSize(displayHeight);
      if canvasWidth != displayWidth || canvasHeight != displayHeight {
        canvasWidth := displayWidth;
        canvasHeight := displayHeight;
        InitFramebuffer(renderWidth, renderHeight);
      }
      if !framebuffer && canvasWidth > 0 && canvasHeight > 0 {
        InitFramebuffer(renderWidth, renderHeight);
      }
    }

    /**
     * One call of `render` with the canvas's client size: a queued callback
     * fires, the bookkeeping runs, then skip, stop or render. Skipping and
     * rendering queue `render` again. A rendered frame reads back exactly
     * renderWidth*renderHeight pixels into the readback buffer.
     */
    method Render(displayWidth: nat, displayHeight: nat) returns (outcome: FrameOutcome, renderWidth: nat, renderHeight: nat)
      requires Valid() && queued >= 1
      modifies this
      ensures Valid()
      ensures progress == NextProgress(old(progress))
      ensures renderWidth == RenderSize(displayWidth) && renderHeight == RenderSize(displayHeight)
      ensures canvasWidth == displayWidth && canvasHeight == displayHeight
      ensures webglEnabled == old(webglEnabled) && stored == old(stored) && targetRadius == old(targetRadius)
      ensures var created := old(canvasWidth) != displayWidth || old(canvasHeight) != displayHeight
                             || (!old(framebuffer) && displayWidth > 0 && displayHeight > 0);
        && recreations == old(recreations) + (if created then 1 else 0)
        && framebuffer == (old(framebuffer) || created)
        && (created ==> fresh(pixelBuffer))
        && (!created ==> pixelBuffer == old(pixelBuffer))
      ensures outcome == FrameDecision(framebuffer, canvasWidth, canvasHeight, webglEnabled)
      ensures outcome == Rendered ==> pixelBuffer != null && pixelBuffer.Length == 4 * (renderWidth * renderHeight)
      ensures queued == old(queued) - 1 + (if outcome.Reschedules() then 1 else 0)
      ensures framePending == old(framePending)
    {
      queued := queued - 1;
      renderWidth, renderHeight := Prepare(displayWidth, displayHeight);
      if !framebuffer || canvasWidth == 0 || canvasHeight == 0 {
        queued := queued + 1;
        return Skipped, renderWidth, renderHeight;
      }
      if !webglEnabled {
        return Stopped, renderWidth, renderHeight;
      }
      outcome := Rendered;
      queued := queued + 1;
    }

    /**
     * `render` corrected: the callback clears the pending flag, the enable
     * test comes before the skip test so that disabling always ends the
     * loop, and every reschedule sets the flag again.
     */
    method RenderChecked(displayWidth: nat, displayHeight: nat) returns (outcome: FrameOutcome, renderWidth: nat, renderHeight: nat)
      requires Valid() && OneLoop() && queued >= 1
      modifies this
      ensures Valid() && OneLoop()
      ensures progress == NextProgress(old(progress))
      ensures renderWidth == RenderSize(displayWidth) && renderHeight == RenderSize(displayHeight)
      ensures canvasWidth == displayWidth && canvasHeight == displayHeight
      ensures webglEnabled == old(webglEnabled) && stored == old(stored) && targetRadius == old(targetRadius)
      ensures var created := old(canvasWidth) != displayWidth || old(canvasHeight) != displayHeight
                             || (!old(framebuffer) && displayWidth > 0 && displayHeight > 0);
        && recreations == old(recreations) + (if created then 1 else 0)
        && framebuffer == (old(framebuffer) || created)
        && (created ==> fresh(pixelBuffer))
        && (!created ==> pixelBuffer == old(pixelBuffer))
      ensures outcome == FrameDecisionChecked(framebuffer, canvasWidth, canvasHeight, webglEnabled)
      ensures outcome == Rendered ==> pixelBuffer != null && pixelBuffer.Length == 4 * (renderWidth * renderHeight)
      ensures queued == old(queued) - 1 + (if outcome.Reschedules() then 1 else 0)
      ensures queued == (if webglEnabled then 1 else 0)
    {
      framePending := false;
      queued := queued - 1;
      renderWidth, renderHeight := Prepare(displayWidth, displayHeight);
      if !webglEnabled {
        return Stopped, renderWidth, renderHeight;
      }
      framePending := true;
      queued := queued + 1;
      if !framebuffer || canvasWidth == 0 || canvasHeight == 0 {
        return Skipped, renderWidth, renderHeight;
      }
      outcome := Rendered;
    }
  }

  // ---------------------------------------------------------------------
  // Scenarios
  // ---------------------------------------------------------------------

  /** Resizing from 800x600 to 400x300 mid-session recreates the targets exactly once, at 80x60. */
  method ResizeScenario() returns (ghost events: nat, renderWidth: nat, renderHeight: nat)
    ensures events == 1 && renderWidth == 80 && renderHeight == 60
  {
    var o := new Orchestrator(false, None, false, 300, 150);
    var r, w0, h0 := o.Render(800, 600);
    r, w0, h0 := o.Render(800, 600);
    ghost var before := o.recreations;
    r, renderWidth, renderHeight := o.Render(400, 300);
    events := o.recreations - before;
  }

  /**
   * Off, one frame with the hidden canvas, then on: the old loop is still
   * queued when the toggle queues a new one, so two loops run.
   */
  method ToggleOffOnLoops() returns (loops: nat, ghost queued: nat)
    ensures loops == 2 && queued == 2
  {
    var o := new Orchestrator(false, None, false, 1600, 900);
    var r, w, h := o.Render(1600, 900);
    var s := o.Toggle();
    r, w, h := o.Render(0, 0);
    s := o.Toggle();
    loops := (if r.Reschedules() then 1 else 0) + (if s then 1 else 0);
    queued := o.queued;
  }

  /** Off and on again before the next frame: the frame queued earlier and the toggle's make two loops. */
  method QuickToggleLoops() returns (loops: nat, ghost queued: nat)
    ensures loops == 2 && queued == 2
  {
    var o := new Orchestrator(false, None, false, 1600, 900);
    var r, w, h := o.Render(1600, 900);
    var off := o.Toggle();
    var on := o.Toggle();
    loops := (if r.Reschedules() then 1 else 0) + (if off then 1 else 0) + (if on then 1 else 0);
    queued := o.queued;
  }

  /** The hidden-canvas sequence with the corrected scheduling: the disabled frame stops, the toggle restarts one loop. */
  method ToggleOffOnLoopsChecked() returns (loops: nat, ghost queued: nat)
    ensures loops == 1 && queued == 1
  {
    var o := new Orchestrator(false, None, false, 1600, 900);
    var r, w, h := o.RenderChecked(1600, 900);
    var s := o.ToggleChecked();
    r, w, h := o.RenderChecked(0, 0);
    s := o.ToggleChecked();
    loops := (if r.Reschedules() then 1 else 0) + (if s then 1 else 0);
    queued := o.queued;
  }

  /** The quick off/on with the corrected scheduling: the pending frame is reused, so one loop runs. */
  method QuickToggleChecked() returns (loops: nat, ghost queued: nat)
    ensures loops == 1 && queued == 1
  {
    var o := new Orchestrator(false, None, false, 1600, 900);
    var r, w, h := o.RenderChecked(1600, 900);
    var off := o.ToggleChecked();
    var on := o.ToggleChecked();
    loops := (if r.Reschedules() then 1 else 0) + (if off then 1 else 0) + (if on then 1 else 0);
    queued := o.queued;
  }
}
