/** The screensaver's control state (`Screensaver` in week2/screensaver/refactored.py):
    the figure list, the working/pause/help flags and the hue counter, with the
    event handler and the per-frame step of the main loop as pure transitions.
    Rendering, the window and the colour conversion are not modelled; the random
    speed drawn for a new anchor is an input. */
module Screensaver {
  import opened Vec2d
  import P = Polyline
  import K = Knot

  datatype Key = Escape | KeyR | KeyP | F1 | KeyN | KeypadPlus | KeypadMinus | OtherKey

  datatype Event = Quit | KeyDown(key: Key) | MouseButtonDown(button: int, pos: Vec) | OtherEvent

  /** The hue counter runs modulo this many degrees. */
  const HueCycle: int := 360

  datatype Screensaver = Screensaver(
    width: int, height: int,
    working: bool, paused: bool, showHelp: bool,
    hue: int,
    figures: seq<K.Knot>)

  predicate FigureValid(k: K.Knot) {
    P.Valid(k.line) && k.step >= 1
  }

  /** The figure list is never empty, every figure can be stepped, and the hue
      is a degree in `[0, 360)`. */
  predicate Valid(s: Screensaver) {
    && |s.figures| >= 1
    && 0 <= s.hue < HueCycle
    && forall i :: 0 <= i < |s.figures| ==> FigureValid(s.figures[i])
  }

  /** `Screensaver.__init__`: stopped, paused, no help, hue 0, one empty knot. */
  function Init(width: int, height: int): (s: Screensaver)
    ensures Valid(s)
    ensures !s.working && s.paused && !s.showHelp && s.hue == 0
    ensures s.figures == [K.NewKnot()]
    ensures s.figures[0].line.anchors == [] && s.figures[0].line.speeds == [] && s.figures[0].curve == []
    ensures s.figures[0].step == K.DefaultStep
  {
    Screensaver(width, height, false, true, false, 0, [K.NewKnot()])
  }

  /** The prologue of `start`, also what the R key does: unpause, mark working,
      and empty every figure's anchor list. Speeds, derived curves, steps and
      the hue stay as they were. */
  function Start(s: Screensaver): (r: Screensaver)
    ensures r.working && !r.paused && r.showHelp == s.showHelp && r.hue == s.hue
    ensures r.width == s.width && r.height == s.height
    ensures |r.figures| == |s.figures|
    ensures forall i :: 0 <= i < |s.figures| ==>
      && r.figures[i].line.anchors == []
      && r.figures[i].line.speeds == s.figures[i].line.speeds
      && r.figures[i].curve == s.figures[i].curve
      && r.figures[i].step == s.figures[i].step
    ensures Valid(s) ==> Valid(r)
  {
    var figs := s.figures;
    s.(working := true, paused := false,
       figures := seq(|figs|, i requires 0 <= i < |figs| => figs[i].(line := figs[i].line.(anchors := []))))
  }

  /** Keypad plus: every figure's step grows by one; nothing else changes. */
  function StepUpAll(figs: seq<K.Knot>): (r: seq<K.Knot>)
    ensures |r| == |figs|
    ensures forall i :: 0 <= i < |figs| ==> r[i] == figs[i].(step := figs[i].step + 1)
    ensures forall i :: 0 <= i < |figs| ==> FigureValid(figs[i]) ==> FigureValid(r[i])
  {
    seq(|figs|, i requires 0 <= i < |figs| => figs[i].(step := figs[i].step + 1))
  }

  /** Keypad minus: every figure's step drops by one, except that a step of 1
      stays 1; nothing else changes. */
  function StepDownAll(figs: seq<K.Knot>): (r: seq<K.Knot>)
    ensures |r| == |figs|
    ensures forall i :: 0 <= i < |figs| ==>
      && r[i] == figs[i].(step := r[i].step)
      && (figs[i].step > 1 ==> r[i].step == figs[i].step - 1)
      && (figs[i].step <= 1 ==> r[i].step == figs[i].step)
    ensures forall i :: 0 <= i < |figs| ==> FigureValid(figs[i]) ==> FigureValid(r[i]) && r[i].step >= 1
  {
    seq(|figs|, i requires 0 <= i < |figs| =>
      figs[i].(step := figs[i].step - if figs[i].step > 1 then 1 else 0))
  }

  /** Left click: one anchor is added to the most recent figure only. */
  function AddToLast(figs: seq<K.Knot>, pos: Vec, draw: P.Speed): (r: seq<K.Knot>)
    requires |figs| >= 1 && P.FreshSpeed(draw)
    ensures |r| == |figs|
    ensures r[..|figs| - 1] == figs[..|figs| - 1]
    ensures r[|figs| - 1] == figs[|figs| - 1].(line := P.AddAnchorPoint(figs[|figs| - 1].line, pos, draw))
    ensures forall i :: 0 <= i < |figs| ==> |r[i].line.speeds| >= |figs[i].line.speeds|
    ensures forall i :: 0 <= i < |figs| ==> FigureValid(figs[i]) ==> FigureValid(r[i])
  {
    var last := |figs| - 1;
    figs[last := figs[last].(line := P.AddAnchorPoint(figs[last].line, pos, draw))]
  }

  /** Any other click: every figure deletes at the clicked position. */
  function DeleteFromAll(figs: seq<K.Knot>, pos: Vec): (r: seq<K.Knot>)
    ensures |r| == |figs|
    ensures forall i :: 0 <= i < |figs| ==>
      r[i] == figs[i].(line := P.DeleteAnchorPoint(figs[i].line, pos))
    ensures forall i :: 0 <= i < |figs| ==> r[i].line.speeds == figs[i].line.speeds
    ensures forall i :: 0 <= i < |figs| ==> FigureValid(figs[i]) ==> FigureValid(r[i])
  {
    seq(|figs|, i requires 0 <= i < |figs| => figs[i].(line := P.DeleteAnchorPoint(figs[i].line, pos)))
  }

  /** The invariants every event keeps: the window size and hue stay, no
      figure disappears, no speed list shrinks, and validity is kept. */
  predicate Keeps(s: Screensaver, r: Screensaver) {
    && r.width == s.width && r.height == s.height && r.hue == s.hue
    && |r.figures| >= |s.figures|
    && (forall i :: 0 <= i < |s.figures| ==> |r.figures[i].line.speeds| >= |s.figures[i].line.speeds|)
    && (Valid(s) ==> Valid(r))
  }

  /** The key branch of `handle_event`. */
  function HandleKey(s: Screensaver, key: Key): (r: Screensaver)
    requires |s.figures| >= 1
    ensures Keeps(s, r)
  {
    match key
    case Escape => s.(working := false)
    case KeyR => Start(s)
    case KeyP => s.(paused := !s.paused)
    case F1 => s.(showHelp := !s.showHelp)
    case KeyN => s.(figures := s.figures + [K.NewKnot()])
    case KeypadPlus => s.(figures := StepUpAll(s.figures))
    case KeypadMinus => s.(figures := StepDownAll(s.figures))
    case OtherKey => s
  }

  /** The mouse branch of `handle_event`. The draw is the random speed a new
      anchor would get. */
  function HandleClick(s: Screensaver, button: int, pos: Vec, draw: P.Speed): (r: Screensaver)
    requires |s.figures| >= 1 && P.FreshSpeed(draw)
    ensures Keeps(s, r)
  {
    if button == 1 then s.(figures := AddToLast(s.figures, pos, draw))
    else s.(figures := DeleteFromAll(s.figures, pos))
  }

  /** `handle_event`. */
  function HandleEvent(s: Screensaver, e: Event, draw: P.Speed): (r: Screensaver)
    requires |s.figures| >= 1 && P.FreshSpeed(draw)
    ensures r.width == s.width && r.height == s.height && r.hue == s.hue
    ensures |r.figures| >= |s.figures|
    ensures forall i :: 0 <= i < |s.figures| ==> |r.figures[i].line.speeds| >= |s.figures[i].line.speeds|
    ensures Valid(s) ==> Valid(r)
  {
    match e
    case Quit => s.(working := false)
    case KeyDown(key) => HandleKey(s, key)
    case MouseButtonDown(button, pos) => HandleClick(s, button, pos, draw)
    case OtherEvent => s
  }

  /** Which event does what: quit and escape stop, R restarts, P and F1
      toggle their flags, N adds an empty figure, the keypad keys change every
      step, button 1 adds to the last figure, other buttons delete everywhere,
      and anything else is ignored. */
  lemma EventDispatch(s: Screensaver, e: Event, draw: P.Speed)
    requires |s.figures| >= 1 && P.FreshSpeed(draw)
    ensures e == Quit || e == KeyDown(Escape) ==> HandleEvent(s, e, draw) == s.(working := false)
    ensures e == KeyDown(KeyR) ==> HandleEvent(s, e, draw) == Start(s)
    ensures e == KeyDown(KeyP) ==> HandleEvent(s, e, draw) == s.(paused := !s.paused)
    ensures e == KeyDown(F1) ==> HandleEvent(s, e, draw) == s.(showHelp := !s.showHelp)
    ensures e == KeyDown(KeyN) ==> HandleEvent(s, e, draw) == s.(figures := s.figures + [K.NewKnot()])
    ensures e == KeyDown(KeypadPlus) ==> HandleEvent(s, e, draw) == s.(figures := StepUpAll(s.figures))
    ensures e == KeyDown(KeypadMinus) ==> HandleEvent(s, e, draw) == s.(figures := StepDownAll(s.figures))
    ensures e.MouseButtonDown? && e.button == 1 ==>
      HandleEvent(s, e, draw) == s.(figures := AddToLast(s.figures, e.pos, draw))
    ensures e.MouseButtonDown? && e.button != 1 ==>
      HandleEvent(s, e, draw) == s.(figures := DeleteFromAll(s.figures, e.pos))
    ensures e == OtherEvent || e == KeyDown(OtherKey) ==> HandleEvent(s, e, draw) == s
  {
  }

  predicate FreshDraws(draws: seq<P.Speed>) {
    forall i :: 0 <= i < |draws| ==> P.FreshSpeed(draws[i])
  }

  /** The event-draining loop of one frame. Events are handled in arrival
      order; an R key re-enters `start`, which never returns, so the events
      after it in the same batch are never handled. The flag says whether that
      happened. */
  function HandleEvents(s: Screensaver, events: seq<Event>, draws: seq<P.Speed>): (r: (Screensaver, bool))
    requires |s.figures| >= 1 && |draws| == |events| && FreshDraws(draws)
    ensures r.0.width == s.width && r.0.height == s.height && r.0.hue == s.hue
    ensures |r.0.figures| >= |s.figures|
    ensures r.1 <==> KeyDown(KeyR) in events
    ensures r.1 ==> r.0.working && !r.0.paused
    ensures Valid(s) ==> Valid(r.0)
    decreases |events|
  {
    if |events| == 0 then (s, false)
    else
      var next := HandleEvent(s, events[0], draws[0]);
      if events[0] == KeyDown(KeyR) then (next, true)
      else
        assert events == [events[0]] + events[1..];
        HandleEvents(next, events[1..], draws[1..])
  }

  /** One pass of the main loop of `start`: drain the events, advance the hue,
      and, unless paused, step every figure. When an R key restarted the loop
      the rest of this pass belongs to the abandoned loop and never runs. */
  function Frame(s: Screensaver, events: seq<Event>, draws: seq<P.Speed>): (r: Screensaver)
    requires Valid(s) && |draws| == |events| && FreshDraws(draws)
    ensures Valid(r)
    ensures r.width == s.width && r.height == s.height
    ensures KeyDown(KeyR) !in events ==> r.hue == (s.hue + 1) % HueCycle
    ensures KeyDown(KeyR) in events ==> r.hue == s.hue
    ensures KeyDown(KeyR) in events ==> r == HandleEvents(s, events, draws).0
    ensures var h := HandleEvents(s, events, draws).0;
      KeyDown(KeyR) !in events ==>
        && r.working == h.working && r.paused == h.paused && r.showHelp == h.showHelp
        && |r.figures| == |h.figures|
        && (h.paused ==> r.figures == h.figures)
        && (!h.paused ==> forall i :: 0 <= i < |h.figures| ==>
              r.figures[i] == K.SetPoints(h.figures[i], s.width, s.height))
  {
    var (handled, restarted) := HandleEvents(s, events, draws);
    if restarted then handled
    else
      var figs := handled.figures;
      var moved := if handled.paused then figs
                   else seq(|figs|, i requires 0 <= i < |figs| => K.SetPoints(figs[i], s.width, s.height));
      handled.(hue := (handled.hue + 1) % HueCycle, figures := moved)
  }

  lemma FreshDrawsConcat(a: seq<P.Speed>, b: seq<P.Speed>)
    requires FreshDraws(a) && FreshDraws(b)
    ensures FreshDraws(a + b)
  {
    forall i | 0 <= i < |a + b|
      ensures P.FreshSpeed((a + b)[i])
    {
      if i < |a| {
        assert (a + b)[i] == a[i];
      } else {
        assert (a + b)[i] == b[i - |a|];
      }
    }
  }

  /** A batch without an R key can be handled in two parts: the second part
      starts from where the first left off. */
  lemma {:induction false} HandleEventsSplit(s: Screensaver, pre: seq<Event>, post: seq<Event>,
                                             dp: seq<P.Speed>, dq: seq<P.Speed>)
    requires |s.figures| >= 1
    requires |dp| == |pre| && |dq| == |post| && FreshDraws(dp) && FreshDraws(dq)
    requires KeyDown(KeyR) !in pre
    ensures FreshDraws(dp + dq)
    ensures HandleEvents(s, pre + post, dp + dq) == HandleEvents(HandleEvents(s, pre, dp).0, post, dq)
    decreases |pre|
  {
    FreshDrawsConcat(dp, dq);
    if pre == [] {
      assert pre + post == post && dp + dq == dq;
    } else {
      var next := HandleEvent(s, pre[0], dp[0]);
      assert pre == [pre[0]] + pre[1..];
      assert KeyDown(KeyR) !in pre[1..];
      assert (pre + post)[0] == pre[0] && (pre + post)[1..] == pre[1..] + post;
      assert (dp + dq)[0] == dp[0] && (dp + dq)[1..] == dp[1..] + dq;
      HandleEventsSplit(next, pre[1..], post, dp[1..], dq);
    }
  }

  /** A batch that starts with an R key is a restart, whatever follows. */
  lemma RestartFirst(s: Screensaver, post: seq<Event>, d: P.Speed, dq: seq<P.Speed>)
    requires |s.figures| >= 1 && |dq| == |post| && FreshDraws(dq) && P.FreshSpeed(d)
    ensures FreshDraws([d] + dq)
    ensures HandleEvents(s, [KeyDown(KeyR)] + post, [d] + dq) == (Start(s), true)
  {
    FreshDrawsConcat([d], dq);
    assert ([KeyDown(KeyR)] + post)[0] == KeyDown(KeyR);
    assert ([d] + dq)[0] == d;
  }

  /** Events after the first R key of a batch are never handled: the outcome
      is the restart of the state the earlier events produced. */
  lemma HandleEventsStopsAtRestart(s: Screensaver, pre: seq<Event>, post: seq<Event>,
                                   dp: seq<P.Speed>, d: P.Speed, dq: seq<P.Speed>)
    requires |s.figures| >= 1
    requires |dp| == |pre| && |dq| == |post| && FreshDraws(dp) && FreshDraws(dq) && P.FreshSpeed(d)
    requires KeyDown(KeyR) !in pre
    ensures FreshDraws(dp + [d] + dq)
    ensures HandleEvents(s, pre + [KeyDown(KeyR)] + post, dp + [d] + dq) == (Start(HandleEvents(s, pre, dp).0), true)
  {
    RestartFirst(HandleEvents(s, pre, dp).0, post, d, dq);
    HandleEventsSplit(s, pre, [KeyDown(KeyR)] + post, dp, [d] + dq);
    assert pre + [KeyDown(KeyR)] + post == pre + ([KeyDown(KeyR)] + post);
    assert dp + [d] + dq == dp + ([d] + dq);
  }

  /** A P key pauses a running screensaver before the frame's movement step:
      nothing moves in that same frame. */
  lemma PauseKeyStopsFrame(s: Screensaver, d: P.Speed)
    requires Valid(s) && !s.paused && P.FreshSpeed(d)
    ensures Frame(s, [KeyDown(KeyP)], [d]).paused
    ensures Frame(s, [KeyDown(KeyP)], [d]).figures == s.figures
  {
    assert HandleEvents(s, [KeyDown(KeyP)], [d]).0 == s.(paused := true);
  }

  /** The `while self.__is_working` loop over successive event batches, one
      batch and one draw list per frame; it stops once the working flag is
      cleared or the batches run out. */
  function Run(s: Screensaver, batches: seq<seq<Event>>, draws: seq<seq<P.Speed>>): (r: Screensaver)
    requires Valid(s) && |draws| == |batches|
    requires forall f :: 0 <= f < |batches| ==> |draws[f]| == |batches[f]| && FreshDraws(draws[f])
    ensures Valid(r)
    ensures r.width == s.width && r.height == s.height
    ensures !s.working ==> r == s
    decreases |batches|
  {
    if |batches| == 0 || !s.working then s
    else Run(Frame(s, batches[0], draws[0]), batches[1..], draws[1..])
  }

  /** A frame with no input steps every figure when running and leaves every
      figure alone when paused; either way the hue moves on by one. */
  lemma QuietFrame(s: Screensaver)
    requires Valid(s)
    ensures Frame(s, [], []).hue == (s.hue + 1) % HueCycle
    ensures s.paused ==> Frame(s, [], []).figures == s.figures
    ensures !s.paused ==>
      && |Frame(s, [], []).figures| == |s.figures|
      && forall i :: 0 <= i < |s.figures| ==>
           Frame(s, [], []).figures[i] == K.SetPoints(s.figures[i], s.width, s.height)
  {
  }

  /** While paused and without input, any number of frames leaves every
      anchor, speed and curve where it was. */
  lemma {:induction false} PausedRunIsStill(s: Screensaver, batches: seq<seq<Event>>, draws: seq<seq<P.Speed>>)
    requires Valid(s) && s.paused && |draws| == |batches|
    requires forall f :: 0 <= f < |batches| ==> batches[f] == [] && draws[f] == []
    ensures Run(s, batches, draws).figures == s.figures
    ensures Run(s, batches, draws).paused
    decreases |batches|
  {
    if |batches| > 0 && s.working {
      var next := Frame(s, batches[0], draws[0]);
      QuietFrame(s);
      PausedRunIsStill(next, batches[1..], draws[1..]);
    }
  }

  /** A quit event ends the loop: the frame it arrives in completes, and no
      later batch is looked at. */
  lemma QuitEndsRun(s: Screensaver, batches: seq<seq<Event>>, draws: seq<seq<P.Speed>>)
    requires Valid(s) && s.working && |draws| == |batches| && |batches| >= 1
    requires forall f :: 0 <= f < |batches| ==> |draws[f]| == |batches[f]| && FreshDraws(draws[f])
    requires batches[0] == [Quit]
    ensures Run(s, batches, draws) == Frame(s, [Quit], draws[0])
    ensures !Run(s, batches, draws).working
  {
    var next := Frame(s, [Quit], draws[0]);
    EventDispatch(s, Quit, draws[0][0]);
    assert HandleEvents(s, [Quit], draws[0]).0 == s.(working := false);
    assert !next.working;
  }

  /** An R key anywhere in a batch leaves every figure empty and the loop
      running and unpaused, whatever came before it in the batch, and the frame
      it arrives in ends there without moving the hue. */
  lemma RestartInBatch(s: Screensaver, events: seq<Event>, draws: seq<P.Speed>)
    requires Valid(s) && |draws| == |events| && FreshDraws(draws)
    requires KeyDown(KeyR) in events
    ensures Frame(s, events, draws).working && !Frame(s, events, draws).paused
    ensures Frame(s, events, draws).hue == s.hue
    ensures forall i :: 0 <= i < |Frame(s, events, draws).figures| ==>
      Frame(s, events, draws).figures[i].line.anchors == []
  {
    RestartEmptiesFigures(s, events, draws);
  }

  lemma {:induction false} RestartEmptiesFigures(s: Screensaver, events: seq<Event>, draws: seq<P.Speed>)
    requires |s.figures| >= 1 && |draws| == |events| && FreshDraws(draws)
    requires KeyDown(KeyR) in events
    ensures HandleEvents(s, events, draws).1
    ensures forall i :: 0 <= i < |HandleEvents(s, events, draws).0.figures| ==>
      HandleEvents(s, events, draws).0.figures[i].line.anchors == []
    decreases |events|
  {
    var next := HandleEvent(s, events[0], draws[0]);
    if events[0] != KeyDown(KeyR) {
      assert events == [events[0]] + events[1..];
      assert KeyDown(KeyR) in events[1..];
      RestartEmptiesFigures(next, events[1..], draws[1..]);
    }
  }
}
