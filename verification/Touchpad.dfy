// Pointer motion, scrolling and clicks from the raw reports of a touchpad.
module Touchpads {
  import opened Wrappers
  import opened Sequences

  const PAD_TRAVERSAL := 1.3
  const ACCEL_BASE := 0.45
  const ACCEL_GAIN := 42.0
  const ACCEL_MIN := 0.45
  const ACCEL_MAX := 2.6
  const JUMP_REJECT := 0.35
  const PIXELS_PER_NOTCH := 50.0
  const TAP_MS := 180
  const TAP_SLOP := 0.03
  const FUZZ := 0.000000000001
  const MAX_SLOTS := 16

  /** An empty slot has a negative tracking id. */
  datatype Contact = Contact(trackingId: int, x: int, y: int)

  datatype Button = LeftButton | RightButton | MiddleButton

  /** What the device and the screen are like; fixed once the pad is open. `length` is
      the length of a vector, of which only the clamped result is relied on. */
  datatype Pad = Pad(minX: int, maxX: int, minY: int, maxY: int, multitouch: bool, slots: nat,
                     left: int, top: int, width: nat, height: nat, length: (real, real) -> real)
  {
    predicate Valid() {
      minX < maxX && minY < maxY && 1 <= slots <= MAX_SLOTS && width > 0 && height > 0
    }

    function Right(): int {
      left + width - 1
    }

    function Bottom(): int {
      top + height - 1
    }
  }

  /** The device announces its highest slot index; the table is capped. */
  function SlotCount(multitouch: bool, highest: Option<int>): (n: nat)
    ensures 1 <= n <= MAX_SLOTS
  {
    if multitouch && highest.Some? && highest.value >= 0 then
      if highest.value + 1 > MAX_SLOTS then MAX_SLOTS else highest.value + 1
    else 1
  }

  datatype Event =
    | Slot(value: int)
    | TrackingId(value: int)
    | PositionX(value: int)
    | PositionY(value: int)
    | AbsX(value: int)
    | AbsY(value: int)
    | Touch(down: bool)
    | ToolFinger(down: bool)
    | ToolDouble(down: bool)
    | ToolTriple(down: bool)
    | BtnLeft(down: bool)
    | BtnRight(down: bool)
    | BtnMiddle(down: bool)
    | Report(now: int, cursor: Point)   // end of a frame, with the clock and the cursor
    | Other

  datatype Output =
    | Press(button: Button)
    | Release(button: Button)
    | Move(at: PointF)
    | Scroll(pixelX: int, pixelY: int, angleX: int, angleY: int)

  /** The contacts of the frame being received. */
  datatype Frame = Frame(contacts: seq<Contact>, slot: nat, singleX: int, singleY: int,
                         touch: bool, finger: bool, double: bool, triple: bool)

  datatype Point = Point(x: int, y: int)

  datatype PointF = PointF(x: real, y: real)

  datatype Tap = Tap(candidate: bool, x: int, y: int, since: Option<int>)

  datatype State = State(frame: Frame, prevFingers: nat, prevX: int, prevY: int, havePrev: bool, tap: Tap,
                         heldLeft: bool, pos: PointF, sent: Point, buttons: set<Button>, log: seq<Output>)

  // --- the frame ---------------------------------------------------------------------

  function Received(p: Pad, f: Frame, e: Event): Frame
    requires f.slot < |f.contacts|
  {
    var c := f.contacts[f.slot];
    match e
    case Slot(v) => f.(slot := if 0 <= v < |f.contacts| then v else 0)
    case TrackingId(v) => f.(contacts := f.contacts[f.slot := c.(trackingId := v)])
    case PositionX(v) => f.(contacts := f.contacts[f.slot := c.(x := v)])
    case PositionY(v) => f.(contacts := f.contacts[f.slot := c.(y := v)])
    case AbsX(v) => f.(singleX := v)
    case AbsY(v) => f.(singleY := v)
    case Touch(d) => f.(touch := d)
    case ToolFinger(d) => f.(finger := d)
    case ToolDouble(d) => f.(double := d)
    case ToolTriple(d) => f.(triple := d)
    case _ => f
  }

  function CountActive(contacts: seq<Contact>): nat {
    if contacts == [] then 0
    else CountActive(contacts[..|contacts| - 1]) + if contacts[|contacts| - 1].trackingId >= 0 then 1 else 0
  }

  function Fingers(p: Pad, f: Frame): nat {
    if p.multitouch then CountActive(f.contacts)
    else if f.triple then 3
    else if f.double then 2
    else if f.finger || f.touch then 1
    else 0
  }

  function FirstActive(contacts: seq<Contact>): (c: Option<Contact>) {
    if contacts == [] then None
    else if contacts[0].trackingId >= 0 then Some(contacts[0])
    else FirstActive(contacts[1..])
  }

  /** Where the first finger is. */
  function Primary(p: Pad, f: Frame): Option<(int, int)> {
    if p.multitouch then
      match FirstActive(f.contacts)
      case None => None
      case Some(c) => Some((c.x, c.y))
    else if f.finger || f.double || f.triple || f.touch then Some((f.singleX, f.singleY))
    else None
  }

  // --- buttons -------------------------------------------------------------------------

  function ButtonSet(s: State, b: Button, pressed: bool): (t: State)
    ensures t == s.(buttons := t.buttons, log := t.log)
  {
    if pressed == (b in s.buttons) then s
    else if pressed then s.(buttons := s.buttons + {b}, log := s.log + [Press(b)])
    else s.(buttons := s.buttons - {b}, log := s.log + [Release(b)])
  }

  /** A physical click cancels the tap of the finger that made it. */
  function LeftChanged(s: State, down: bool): State {
    ButtonSet(s.(heldLeft := down, tap := if down then s.tap.(candidate := false) else s.tap), LeftButton, down)
  }

  // --- taps ----------------------------------------------------------------------------

  predicate TapCompleted(s: State, now: int) {
    s.tap.candidate && s.prevFingers == 1 && !s.heldLeft && s.tap.since.Some? && now - s.tap.since.value <= TAP_MS
  }

  function TapTracked(s: State, fingers: nat, at: Option<(int, int)>, now: int): (t: State)
    ensures t == s.(havePrev := t.havePrev, tap := t.tap, buttons := t.buttons, log := t.log)
    ensures t.havePrev ==> s.havePrev && fingers == s.prevFingers
  {
    if fingers == s.prevFingers then s
    else
      var t := s.(havePrev := false);
      if s.prevFingers == 0 && fingers == 1 && at.Some? then
        t.(tap := Tap(!s.heldLeft, at.value.0, at.value.1, Some(now)))
      else if fingers == 0 && TapCompleted(s, now) then
        ButtonSet(ButtonSet(t, LeftButton, true), LeftButton, false).(tap := s.tap.(candidate := false))
      else t.(tap := s.tap.(candidate := false))
  }

  // --- motion --------------------------------------------------------------------------

  function Abs(r: real): real {
    if r < 0.0 then -r else r
  }

  function SpanX(p: Pad): real {
    (p.maxX - p.minX) as real
  }

  function SpanY(p: Pad): real {
    (p.maxY - p.minY) as real
  }

  function GainX(p: Pad): real
    requires p.Valid()
  {
    p.width as real / (SpanX(p) * PAD_TRAVERSAL)
  }

  function GainY(p: Pad): real
    requires p.Valid()
  {
    p.height as real / (SpanY(p) * PAD_TRAVERSAL)
  }

  function Accel(travelled: real): (a: real)
    ensures ACCEL_MIN <= a <= ACCEL_MAX
  {
    var a := ACCEL_BASE + ACCEL_GAIN * travelled;
    if a < ACCEL_MIN then ACCEL_MIN else if a > ACCEL_MAX then ACCEL_MAX else a
  }

  function Clamp(r: real, low: int, high: int): real {
    if r < low as real then low as real else if r > high as real then high as real else r
  }

  function Round(r: real): int {
    (r + 0.5).Floor
  }

  /** Towards zero. */
  function Truncated(r: real): int {
    if r >= 0.0 then r.Floor else -((-r).Floor)
  }

  /** The angle of a wheel that turns as far as `pixels`, 120 to a notch. */
  function Notches(pixels: real): int {
    Truncated(-pixels / PIXELS_PER_NOTCH * 120.0)
  }

  /** Where a motion starts: at the cursor, if something else moved it. */
  function Origin(pos: PointF, sent: Point, cursor: Point): PointF {
    if Abs((cursor.x - sent.x) as real) + Abs((cursor.y - sent.y) as real) > 1.0 then
      PointF(cursor.x as real, cursor.y as real)
    else pos
  }

  /** The fraction of the pad that was crossed. */
  function Fraction(d: int, span: real): real
    requires span > 0.0
  {
    d as real / span
  }

  function Target(origin: real, d: int, gain: real, accel: real): real {
    origin + d as real * gain * accel
  }

  function Pixels(d: int, gain: real): real {
    d as real * gain
  }

  predicate IsFuzzyNull(r: real) {
    Abs(r) <= FUZZ
  }

  /** Where the pointer goes from `o`, kept on the screen. */
  function Destination(p: Pad, o: PointF, dx: int, dy: int): PointF
    requires p.Valid()
  {
    var a := Accel(p.length(Fraction(dx, SpanX(p)), Fraction(dy, SpanY(p))));
    PointF(Clamp(Target(o.x, dx, GainX(p), a), p.left, p.Right()),
           Clamp(Target(o.y, dy, GainY(p), a), p.top, p.Bottom()))
  }

  function Rounded(q: PointF): Point {
    Point(Round(q.x), Round(q.y))
  }

  function Moved(p: Pad, s: State, dx: int, dy: int, cursor: Point): (t: State)
    requires p.Valid()
    ensures t == s.(pos := t.pos, sent := t.sent, log := t.log)
  {
    if dx == 0 && dy == 0 then s
    else
      var q := Destination(p, Origin(s.pos, s.sent, cursor), dx, dy);
      s.(pos := q, sent := Rounded(q), log := s.log + [Move(q)])
  }

  function Scrolled(p: Pad, s: State, dx: int, dy: int): (t: State)
    requires p.Valid()
    ensures t == s.(log := t.log)
  {
    var px, py := Pixels(dx, GainX(p)), Pixels(dy, GainY(p));
    if IsFuzzyNull(px) && IsFuzzyNull(py) then s
    else
      var out := Scroll(Truncated(-px), Truncated(-py), Notches(px), Notches(py));
      if out == Scroll(0, 0, 0, 0) then s else s.(log := s.log + [out])
  }

  predicate IsJump(p: Pad, dx: int, dy: int)
    requires p.Valid()
  {
    Abs(Fraction(dx, SpanX(p))) > JUMP_REJECT || Abs(Fraction(dy, SpanY(p))) > JUMP_REJECT
  }

  /** sqrt(tx * tx + ty * ty) > TAP_SLOP */
  predicate PastSlop(p: Pad, t: Tap, x: int, y: int)
    requires p.Valid()
  {
    var tx, ty := (x - t.x) as real / SpanX(p), (y - t.y) as real / SpanY(p);
    tx * tx + ty * ty > TAP_SLOP * TAP_SLOP
  }

  function Gesture(p: Pad, s: State, fingers: nat, x: int, y: int, cursor: Point): (t: State)
    requires p.Valid()
    ensures t == s.(pos := t.pos, sent := t.sent, log := t.log, tap := t.tap)
    ensures t.tap == s.tap.(candidate := t.tap.candidate) && (t.tap.candidate ==> s.tap.candidate)
  {
    var dx, dy := x - s.prevX, y - s.prevY;
    var t := if fingers == 1 || (fingers == 2 && s.buttons != {}) then Moved(p, s, dx, dy, cursor)
             else if fingers == 2 then Scrolled(p, s, dx, dy)
             else s;
    if t.tap.candidate && PastSlop(p, t.tap, x, y) then t.(tap := t.tap.(candidate := false)) else t
  }

  function FrameCompleted(p: Pad, s: State, now: int, cursor: Point): State
    requires p.Valid()
  {
    var fingers, at := Fingers(p, s.frame), Primary(p, s.frame);
    var t := TapTracked(s, fingers, at, now).(prevFingers := fingers);
    match at
    case None => t.(havePrev := false)
    case Some((x, y)) =>
      if t.havePrev && IsJump(p, x - t.prevX, y - t.prevY) then t.(prevX := x, prevY := y)
      else
        var u := if t.havePrev then Gesture(p, t, fingers, x, y, cursor) else t;
        u.(prevX := x, prevY := y, havePrev := true)
  }

  // --- the machine -----------------------------------------------------------------------

  function Start(p: Pad): State
    requires p.Valid()
  {
    var x, y := p.left + (p.width - 1) / 2, p.top + (p.height - 1) / 2;
    State(Frame(seq(p.slots, _ => Contact(-1, 0, 0)), 0, 0, 0, false, false, false, false),
          0, 0, 0, false, Tap(false, 0, 0, None), false, PointF(x as real, y as real), Point(x, y), {}, [])
  }

  predicate InRange(p: Pad, s: State) {
    |s.frame.contacts| == p.slots && s.frame.slot < p.slots
  }

  function Step(p: Pad, s: State, e: Event): State
    requires p.Valid() && InRange(p, s)
  {
    match e
    case BtnLeft(d) => LeftChanged(s, d)
    case BtnRight(d) => ButtonSet(s, RightButton, d)
    case BtnMiddle(d) => ButtonSet(s, MiddleButton, d)
    case Report(now, cursor) => FrameCompleted(p, s, now, cursor)
    case _ => s.(frame := Received(p, s.frame, e))
  }

  /** Slots are never indexed out of range, whatever the device sends. */
  lemma StepInRange(p: Pad, s: State, e: Event)
    requires p.Valid() && InRange(p, s)
    ensures InRange(p, Step(p, s, e))
  {
    hide Gesture, TapTracked, IsJump, Fingers, Primary, ButtonSet;
  }

  function Run(p: Pad, events: seq<Event>): (s: State)
    requires p.Valid()
    ensures InRange(p, s)
    decreases |events|
  {
    if events == [] then Start(p)
    else
      var s, e := Run(p, events[..|events| - 1]), events[|events| - 1];
      StepInRange(p, s, e);
      Step(p, s, e)
  }

  lemma RunSnoc(p: Pad, events: seq<Event>, e: Event)
    requires p.Valid()
    ensures Run(p, events + [e]) == Step(p, Run(p, events), e)
  {
    hide Step;
    assert (events + [e])[..|events|] == events;
  }

  // --- presses and releases alternate ---------------------------------------------------

  /** The button is down after these outputs. */
  predicate Down(log: seq<Output>, b: Button) {
    if log == [] then false
    else if log[|log| - 1] == Press(b) then true
    else if log[|log| - 1] == Release(b) then false
    else Down(log[..|log| - 1], b)
  }

  /** Presses come while it is up, releases while it is down. */
  predicate Alternates(log: seq<Output>, b: Button) {
    log == []
    || (&& Alternates(log[..|log| - 1], b)
        && (log[|log| - 1] == Press(b) ==> !Down(log[..|log| - 1], b))
        && (log[|log| - 1] == Release(b) ==> Down(log[..|log| - 1], b)))
  }

  lemma LogSnoc(log: seq<Output>, out: Output, b: Button)
    ensures Down(log + [out], b) == (out == Press(b) || (out != Release(b) && Down(log, b)))
    ensures Alternates(log + [out], b) <==>
      Alternates(log, b) && (out == Press(b) ==> !Down(log, b)) && (out == Release(b) ==> Down(log, b))
  {
    assert (log + [out])[..|log|] == log;
  }

  /** The buttons are those the outputs left down, and the left one follows the pad's. */
  predicate ButtonsAgree(s: State) {
    && (forall b :: Alternates(s.log, b) && (Down(s.log, b) <==> b in s.buttons))
    && (LeftButton in s.buttons <==> s.heldLeft)
  }

  predicate LogAgrees(s: State) {
    forall b :: Alternates(s.log, b) && (Down(s.log, b) <==> b in s.buttons)
  }

  lemma ButtonSetAgrees(s: State, b: Button, pressed: bool)
    requires LogAgrees(s)
    ensures LogAgrees(ButtonSet(s, b, pressed))
    ensures ButtonSet(s, b, pressed).buttons == if pressed then s.buttons + {b} else s.buttons - {b}
  {
    hide Down, Alternates;
    forall c ensures var t := ButtonSet(s, b, pressed); Alternates(t.log, c) && (Down(t.log, c) <==> c in t.buttons) {
      LogSnoc(s.log, Press(b), c);
      LogSnoc(s.log, Release(b), c);
    }
  }

  lemma OtherOutput(s: State, out: Output)
    requires LogAgrees(s) && (out.Move? || out.Scroll?)
    ensures LogAgrees(s.(log := s.log + [out]))
  {
    hide Down, Alternates;
    forall b ensures var l := s.log + [out]; Alternates(l, b) && (Down(l, b) <==> b in s.buttons) {
      LogSnoc(s.log, out, b);
    }
  }

  lemma SameLog(s: State, t: State)
    requires LogAgrees(s) && t.log == s.log && t.buttons == s.buttons
    ensures LogAgrees(t)
  {
  }

  lemma TapTrackedAgrees(s: State, fingers: nat, at: Option<(int, int)>, now: int)
    requires LogAgrees(s) && (LeftButton in s.buttons <==> s.heldLeft)
    ensures var t := TapTracked(s, fingers, at, now); LogAgrees(t) && t.buttons == s.buttons
  {
    hide LogAgrees, ButtonSet;
    var t := s.(havePrev := false);
    SameLog(s, t);
    ButtonSetAgrees(t, LeftButton, true);
    ButtonSetAgrees(ButtonSet(t, LeftButton, true), LeftButton, false);
    var u := TapTracked(s, fingers, at, now);
    if u.log == s.log {
      SameLog(s, u);
    } else {
      SameLog(ButtonSet(ButtonSet(t, LeftButton, true), LeftButton, false), u);
    }
  }

  lemma MovedAgrees(p: Pad, s: State, dx: int, dy: int, cursor: Point)
    requires p.Valid() && LogAgrees(s)
    ensures LogAgrees(Moved(p, s, dx, dy, cursor))
  {
    var t := Moved(p, s, dx, dy, cursor);
    if t != s {
      OtherOutput(s, Move(t.pos));
      assert t.log == s.log + [Move(t.pos)];
    }
  }

  lemma ScrolledAgrees(p: Pad, s: State, dx: int, dy: int)
    requires p.Valid() && LogAgrees(s)
    ensures LogAgrees(Scrolled(p, s, dx, dy))
  {
    var t := Scrolled(p, s, dx, dy);
    if t != s {
      OtherOutput(s, t.log[|s.log|]);
      assert t.log == s.log + [t.log[|s.log|]];
    }
  }

  lemma GestureAgrees(p: Pad, s: State, fingers: nat, x: int, y: int, cursor: Point)
    requires p.Valid() && LogAgrees(s)
    ensures LogAgrees(Gesture(p, s, fingers, x, y, cursor))
  {
    var dx, dy := x - s.prevX, y - s.prevY;
    MovedAgrees(p, s, dx, dy, cursor);
    ScrolledAgrees(p, s, dx, dy);
    hide LogAgrees, Moved, Scrolled, PastSlop;
    var t := if fingers == 1 || (fingers == 2 && s.buttons != {}) then Moved(p, s, dx, dy, cursor)
             else if fingers == 2 then Scrolled(p, s, dx, dy)
             else s;
    SameLog(t, Gesture(p, s, fingers, x, y, cursor));
  }

  lemma FrameAgrees(p: Pad, s: State, now: int, cursor: Point)
    requires p.Valid() && ButtonsAgree(s)
    ensures ButtonsAgree(FrameCompleted(p, s, now, cursor))
  {
    Halves(s);
    hide Gesture, TapTracked, IsJump, Fingers, Primary, LogAgrees, ButtonsAgree;
    var fingers, at := Fingers(p, s.frame), Primary(p, s.frame);
    TapTrackedAgrees(s, fingers, at, now);
    var t := TapTracked(s, fingers, at, now).(prevFingers := fingers);
    SameLog(TapTracked(s, fingers, at, now), t);
    var u := FrameCompleted(p, s, now, cursor);
    if at.Some? {
      var g := Gesture(p, t, fingers, at.value.0, at.value.1, cursor);
      GestureAgrees(p, t, fingers, at.value.0, at.value.1, cursor);
      assert (u.log == t.log && u.buttons == t.buttons) || (u.log == g.log && u.buttons == g.buttons);
      SameLog(if u.log == t.log then t else g, u);
    } else {
      SameLog(t, u);
    }
    Halves(u);
  }

  lemma Halves(s: State)
    ensures ButtonsAgree(s) <==> LogAgrees(s) && (LeftButton in s.buttons <==> s.heldLeft)
  {
    hide Alternates, Down;
  }

  lemma StepAgrees(p: Pad, s: State, e: Event)
    requires p.Valid() && InRange(p, s) && ButtonsAgree(s)
    ensures ButtonsAgree(Step(p, s, e))
  {
    hide FrameCompleted, ButtonSet, Received;
    match e
    case BtnLeft(d) =>
      var t := s.(heldLeft := d, tap := if d then s.tap.(candidate := false) else s.tap);
      ButtonSetAgrees(t, LeftButton, d);
    case BtnRight(d) => ButtonSetAgrees(s, RightButton, d);
    case BtnMiddle(d) => ButtonSetAgrees(s, MiddleButton, d);
    case Report(now, cursor) => FrameAgrees(p, s, now, cursor);
    case _ =>
  }

  /** On every stream of events the presses and releases of each button alternate,
      beginning with a press, taps included. */
  lemma {:induction false} ButtonsAlternate(p: Pad, events: seq<Event>)
    requires p.Valid()
    ensures ButtonsAgree(Run(p, events))
    ensures forall b :: Alternates(Run(p, events).log, b)
    decreases |events|
  {
    if events != [] {
      var init, e := SplitLast(events);
      ButtonsAlternate(p, init);
      StepAgrees(p, Run(p, init), e);
      RunSnoc(p, init, e);
    }
  }

  // --- the pointer ---------------------------------------------------------------------------

  predicate OnScreen(p: Pad, q: PointF) {
    p.left as real <= q.x <= p.Right() as real && p.top as real <= q.y <= p.Bottom() as real
  }

  predicate PointerOnScreen(p: Pad, s: State) {
    && OnScreen(p, s.pos)
    && p.left <= s.sent.x <= p.Right() && p.top <= s.sent.y <= p.Bottom()
    && forall k | 0 <= k < |s.log| && s.log[k].Move? :: OnScreen(p, s.log[k].at)
  }

  lemma RoundStays(r: real, low: int, high: int)
    requires low as real <= r <= high as real
    ensures low <= Round(r) <= high
  {
  }

  lemma MovedOnScreen(p: Pad, s: State, dx: int, dy: int, cursor: Point)
    requires p.Valid() && PointerOnScreen(p, s)
    ensures PointerOnScreen(p, Moved(p, s, dx, dy, cursor))
  {
    var t := Moved(p, s, dx, dy, cursor);
    if t != s {
      hide Accel, GainX, GainY, Origin, Round, Target, Fraction;
      assert OnScreen(p, t.pos);
      RoundStays(t.pos.x, p.left, p.Right());
      RoundStays(t.pos.y, p.top, p.Bottom());
    }
  }

  lemma ButtonSetOnScreen(p: Pad, s: State, b: Button, pressed: bool)
    requires PointerOnScreen(p, s)
    ensures PointerOnScreen(p, ButtonSet(s, b, pressed))
  {
  }

  lemma TapTrackedOnScreen(p: Pad, s: State, fingers: nat, at: Option<(int, int)>, now: int)
    requires PointerOnScreen(p, s)
    ensures PointerOnScreen(p, TapTracked(s, fingers, at, now))
  {
    hide PointerOnScreen, TapCompleted;
    SamePointer(p, s, s.(havePrev := false));
    ButtonSetOnScreen(p, s.(havePrev := false), LeftButton, true);
    var u := ButtonSet(s.(havePrev := false), LeftButton, true);
    ButtonSetOnScreen(p, u, LeftButton, false);
    var v := ButtonSet(u, LeftButton, false);
    var t := TapTracked(s, fingers, at, now);
    hide ButtonSet;
    if t.log == s.log {
      SamePointer(p, s, t);
    } else {
      SamePointer(p, v, t);
    }
  }

  lemma SamePointer(p: Pad, s: State, t: State)
    requires PointerOnScreen(p, s)
    requires t.log == s.log && t.pos == s.pos && t.sent == s.sent
    ensures PointerOnScreen(p, t)
  {
  }

  lemma ScrolledOnScreen(p: Pad, s: State, dx: int, dy: int)
    requires p.Valid() && PointerOnScreen(p, s)
    ensures PointerOnScreen(p, Scrolled(p, s, dx, dy))
  {
    hide Truncated, GainX, GainY;
  }

  lemma FrameOnScreen(p: Pad, s: State, now: int, cursor: Point)
    requires p.Valid() && PointerOnScreen(p, s)
    ensures PointerOnScreen(p, FrameCompleted(p, s, now, cursor))
  {
    hide Moved, Scrolled, TapTracked, IsJump, PastSlop, Fingers, Primary, PointerOnScreen;
    var fingers, at := Fingers(p, s.frame), Primary(p, s.frame);
    var r := FrameCompleted(p, s, now, cursor);
    TapTrackedOnScreen(p, s, fingers, at, now);
    var t := TapTracked(s, fingers, at, now).(prevFingers := fingers);
    SamePointer(p, TapTracked(s, fingers, at, now), t);
    if at.None? || !t.havePrev || IsJump(p, at.value.0 - t.prevX, at.value.1 - t.prevY) {
      SamePointer(p, t, r);
    } else {
      var dx, dy := at.value.0 - t.prevX, at.value.1 - t.prevY;
      MovedOnScreen(p, t, dx, dy, cursor);
      ScrolledOnScreen(p, t, dx, dy);
      if fingers == 1 || (fingers == 2 && t.buttons != {}) {
        SamePointer(p, Moved(p, t, dx, dy, cursor), r);
      } else if fingers == 2 {
        SamePointer(p, Scrolled(p, t, dx, dy), r);
      } else {
        SamePointer(p, t, r);
      }
    }
  }

  lemma StepOnScreen(p: Pad, s: State, e: Event)
    requires p.Valid() && InRange(p, s) && PointerOnScreen(p, s)
    ensures PointerOnScreen(p, Step(p, s, e))
  {
    hide FrameCompleted, ButtonSet, Received, PointerOnScreen;
    match e
    case BtnLeft(d) =>
      var t := s.(heldLeft := d, tap := if d then s.tap.(candidate := false) else s.tap);
      SamePointer(p, s, t);
      ButtonSetOnScreen(p, t, LeftButton, d);
    case BtnRight(d) => ButtonSetOnScreen(p, s, RightButton, d);
    case BtnMiddle(d) => ButtonSetOnScreen(p, s, MiddleButton, d);
    case Report(now, cursor) => FrameOnScreen(p, s, now, cursor);
    case _ => SamePointer(p, s, Step(p, s, e));
  }

  /** The pointer never leaves the screen. */
  lemma {:induction false} PointerStays(p: Pad, events: seq<Event>)
    requires p.Valid()
    ensures PointerOnScreen(p, Run(p, events))
    decreases |events|
  {
    if events != [] {
      var init, e := SplitLast(events);
      PointerStays(p, init);
      hide PointerOnScreen;
      StepOnScreen(p, Run(p, init), e);
      RunSnoc(p, init, e);
    }
  }

  // --- what one report can do ----------------------------------------------------------------

  /** Outputs were added, if any, and all of them are presses and releases. */
  predicate OnlyButtons(s: State, t: State) {
    s.log <= t.log && forall k | |s.log| <= k < |t.log| :: t.log[k].Press? || t.log[k].Release?
  }

  lemma TapOnlyButtons(s: State, fingers: nat, at: Option<(int, int)>, now: int)
    ensures OnlyButtons(s, TapTracked(s, fingers, at, now))
  {
    hide TapCompleted;
  }

  /** Pointer motion and scrolling happen only at the end of a frame with as many
      fingers as the frame before: one finger moves, two scroll, and two move while a
      button is held. */
  lemma MotionNeedsSameFingers(p: Pad, s: State, e: Event)
    requires p.Valid() && InRange(p, s)
    ensures var t, n := Step(p, s, e), Fingers(p, s.frame);
            forall k | |s.log| <= k < |t.log| ::
              && (t.log[k].Move? || t.log[k].Scroll? ==> e.Report? && s.havePrev && n == s.prevFingers)
              && (t.log[k].Move? ==> n == 1 || (n == 2 && s.buttons != {}))
              && (t.log[k].Scroll? ==> n == 2 && s.buttons == {})
  {
    hide Moved, Scrolled, TapTracked, IsJump, PastSlop, Fingers, Primary;
    if e.Report? {
      var n, at := Fingers(p, s.frame), Primary(p, s.frame);
      TapOnlyButtons(s, n, at, e.now);
      SameFingersNoTap(s, n, at, e.now);
      var t := TapTracked(s, n, at, e.now).(prevFingers := n);
      if at.Some? && t.havePrev {
        MovedAdds(p, t, at.value.0 - t.prevX, at.value.1 - t.prevY, e.cursor);
      }
    }
  }

  lemma SameFingersNoTap(s: State, fingers: nat, at: Option<(int, int)>, now: int)
    ensures fingers == s.prevFingers ==> TapTracked(s, fingers, at, now) == s
  {
  }

  lemma MovedAdds(p: Pad, s: State, dx: int, dy: int, cursor: Point)
    requires p.Valid()
    ensures var t := Moved(p, s, dx, dy, cursor); t.log == s.log || t.log == s.log + [Move(t.pos)]
    ensures var t := Scrolled(p, s, dx, dy);
            t.log == s.log || (|t.log| == |s.log| + 1 && s.log < t.log && t.log[|s.log|].Scroll?)
  {
    hide GainX, GainY, Destination, Origin, Truncated, Rounded;
  }

  /** A coordinate moved by a fraction `f` of the pad, with the gain of the screen. */
  lemma Displacement(d: real, span: real, size: real, accel: real)
    requires span > 0.0 && size > 0.0 && 0.0 <= accel <= ACCEL_MAX && Abs(d / span) <= JUMP_REJECT
    ensures Abs(d * (size / (span * PAD_TRAVERSAL)) * accel) <= 0.7 * size
  {
    var f := d / span;
    var g := size / (span * PAD_TRAVERSAL);
    var k := size / PAD_TRAVERSAL;
    assert d == f * span;
    assert g * span == k by {
      assert g * (span * PAD_TRAVERSAL) == size;
      assert g * span * PAD_TRAVERSAL == size;
    }
    assert d * g == f * k by {
      assert f * span * g == f * (g * span);
    }
    Scaled(f, k, accel);
    assert 0.7 * size == JUMP_REJECT * k * ACCEL_MAX;
  }

  lemma Scaled(f: real, k: real, a: real)
    requires k >= 0.0 && 0.0 <= a <= ACCEL_MAX && Abs(f) <= JUMP_REJECT
    ensures Abs(f * k * a) <= JUMP_REJECT * k * ACCEL_MAX
  {
    var fk := Abs(f) * k;
    assert Abs(f * k * a) == fk * a;
    assert fk <= JUMP_REJECT * k;
    assert fk * a <= JUMP_REJECT * k * a;
    assert (JUMP_REJECT * k) * a <= (JUMP_REJECT * k) * ACCEL_MAX;
  }

  lemma ClampCloser(r: real, o: real, low: int, high: int)
    requires low <= high
    ensures Abs(Clamp(r, low, high) - Clamp(o, low, high)) <= Abs(r - o)
  {
  }

  lemma AxisShort(d: int, span: real, size: nat, gain: real, accel: real, o: real, low: int, high: int)
    requires span > 0.0 && size > 0 && gain == size as real / (span * PAD_TRAVERSAL)
    requires 0.0 <= accel <= ACCEL_MAX && Abs(Fraction(d, span)) <= JUMP_REJECT
    requires low <= high
    ensures Abs(Clamp(Target(o, d, gain, accel), low, high) - Clamp(o, low, high)) <= 0.7 * size as real
  {
    Displacement(d as real, span, size as real, accel);
    var m := d as real * gain * accel;
    assert Target(o, d, gain, accel) == o + m;
    hide *;
    ClampCloser(o + m, o, low, high);
    assert o + m - o == m;
  }

  lemma DestinationIs(p: Pad, o: PointF, dx: int, dy: int) returns (a: real)
    requires p.Valid()
    ensures ACCEL_MIN <= a <= ACCEL_MAX
    ensures var q := Destination(p, o, dx, dy);
            && q.x == Clamp(Target(o.x, dx, GainX(p), a), p.left, p.Right())
            && q.y == Clamp(Target(o.y, dy, GainY(p), a), p.top, p.Bottom())
  {
    a := Accel(p.length(Fraction(dx, SpanX(p)), Fraction(dy, SpanY(p))));
  }

  lemma Gains(p: Pad)
    requires p.Valid()
    ensures SpanX(p) > 0.0 && p.width > 0 && GainX(p) == p.width as real / (SpanX(p) * PAD_TRAVERSAL)
    ensures SpanY(p) > 0.0 && p.height > 0 && GainY(p) == p.height as real / (SpanY(p) * PAD_TRAVERSAL)
  {
  }

  /** The point of the screen nearest to a point. */
  function Nearest(p: Pad, q: PointF): PointF {
    PointF(Clamp(q.x, p.left, p.Right()), Clamp(q.y, p.top, p.Bottom()))
  }

  lemma NearestIsNear(p: Pad, q: PointF)
    requires p.Valid()
    ensures OnScreen(p, Nearest(p, q)) && (OnScreen(p, q) ==> Nearest(p, q) == q)
    ensures p.left <= p.Right() && p.top <= p.Bottom()
  {
  }

  lemma DestinationIsNear(p: Pad, o: PointF, dx: int, dy: int)
    requires p.Valid() && !IsJump(p, dx, dy)
    ensures var q, n := Destination(p, o, dx, dy), Nearest(p, o);
            Abs(q.x - n.x) <= 0.7 * p.width as real && Abs(q.y - n.y) <= 0.7 * p.height as real
  {
    Gains(p);
    assert Abs(Fraction(dx, SpanX(p))) <= JUMP_REJECT && Abs(Fraction(dy, SpanY(p))) <= JUMP_REJECT;
    NearestIsNear(p, o);
    assert Nearest(p, o) == PointF(Clamp(o.x, p.left, p.Right()), Clamp(o.y, p.top, p.Bottom()));
    hide *;
    var a := DestinationIs(p, o, dx, dy);
    AxisShort(dx, SpanX(p), p.width, GainX(p), a, o.x, p.left, p.Right());
    AxisShort(dy, SpanY(p), p.height, GainY(p), a, o.y, p.top, p.Bottom());
  }

  /** One report moves the pointer by at most seven tenths of the screen on each axis, from
      where it is taken to stand: its own place, or the cursor's when that was moved, and
      the nearest point of the screen when that lies outside. */
  lemma MoveIsShort(p: Pad, s: State, e: Event, k: nat)
    requires p.Valid() && InRange(p, s) && e.Report?
    requires |s.log| <= k < |Step(p, s, e).log| && Step(p, s, e).log[k].Move?
    ensures var o, n, t := Origin(s.pos, s.sent, e.cursor), Nearest(p, Origin(s.pos, s.sent, e.cursor)), Step(p, s, e);
            && OnScreen(p, n) && (OnScreen(p, o) ==> n == o) && t.log[k].at == t.pos
            && Abs(t.pos.x - n.x) <= 0.7 * p.width as real && Abs(t.pos.y - n.y) <= 0.7 * p.height as real
  {
    hide Moved, Scrolled, TapTracked, IsJump, PastSlop, Fingers, Primary;
    var n, at := Fingers(p, s.frame), Primary(p, s.frame);
    TapOnlyButtons(s, n, at, e.now);
    SameFingersNoTap(s, n, at, e.now);
    var t := TapTracked(s, n, at, e.now).(prevFingers := n);
    var o := Origin(s.pos, s.sent, e.cursor);
    NearestIsNear(p, o);
    if at.Some? && t.havePrev {
      var dx, dy := at.value.0 - t.prevX, at.value.1 - t.prevY;
      MovedAdds(p, t, dx, dy, e.cursor);
      MovedFrom(p, t, dx, dy, e.cursor);
      hide OnScreen, Origin, Abs, Nearest;
      if !IsJump(p, dx, dy) {
        DestinationIsNear(p, o, dx, dy);
      }
    }
    hide OnScreen, Origin, Abs, Nearest;
  }

  lemma MovedFrom(p: Pad, s: State, dx: int, dy: int, cursor: Point)
    requires p.Valid()
    ensures var t := Moved(p, s, dx, dy, cursor);
            t.log != s.log ==> t.pos == Destination(p, Origin(s.pos, s.sent, cursor), dx, dy)
  {
    hide Destination, Origin, Rounded;
  }

  // --- frames and taps over a whole stream ------------------------------------------------------

  /** The number of fingers in the last complete frame. */
  function LastFrame(p: Pad, events: seq<Event>): nat
    requires p.Valid()
  {
    if events == [] then 0
    else
      var init, e := events[..|events| - 1], events[|events| - 1];
      if e.Report? then Fingers(p, Run(p, init).frame) else LastFrame(p, init)
  }

  lemma PrevFingersStep(p: Pad, s: State, e: Event)
    requires p.Valid() && InRange(p, s)
    ensures Step(p, s, e).prevFingers == if e.Report? then Fingers(p, s.frame) else s.prevFingers
  {
    hide Gesture, TapTracked, IsJump, Fingers, Primary, ButtonSet;
  }

  /** So "as many fingers as before" speaks of consecutive frames. */
  lemma {:induction false} PrevFingersAreLastFrame(p: Pad, events: seq<Event>)
    requires p.Valid()
    ensures Run(p, events).prevFingers == LastFrame(p, events)
    decreases |events|
  {
    if events != [] {
      var init, e := SplitLast(events);
      PrevFingersAreLastFrame(p, init);
      PrevFingersStep(p, Run(p, init), e);
      RunSnoc(p, init, e);
    }
  }

  /** A touch that may still become a tap: one finger came down on an untouched pad
      with the physical button up, and since then the button was not pressed and every
      frame had that one finger. */
  ghost predicate TouchedDown(p: Pad, events: seq<Event>, i: nat)
    requires p.Valid()
  {
    && i < |events| && events[i].Report?
    && LastFrame(p, events[..i]) == 0 && Fingers(p, Run(p, events[..i]).frame) == 1
    && !Run(p, events[..i]).heldLeft
    && (forall k | i < k < |events| :: events[k] != BtnLeft(true))
    && forall k | i < k < |events| && events[k].Report? :: Fingers(p, Run(p, events[..k]).frame) == 1
  }

  lemma CandidateStep(p: Pad, s: State, e: Event)
    requires p.Valid() && InRange(p, s) && Step(p, s, e).tap.candidate
    ensures e != BtnLeft(true)
    ensures if e.Report? && Fingers(p, s.frame) != s.prevFingers
            then s.prevFingers == 0 && Fingers(p, s.frame) == 1 && !s.heldLeft
                 && Step(p, s, e).tap.since == Some(e.now)
            else s.tap.candidate && Step(p, s, e).tap.since == s.tap.since
  {
    hide Moved, Scrolled, IsJump, PastSlop, Fingers, Primary;
    if e.Report? {
      var n, at := Fingers(p, s.frame), Primary(p, s.frame);
      CandidateTracked(s, n, at, e.now);
      hide TapTracked;
    }
  }

  lemma CandidateTracked(s: State, fingers: nat, at: Option<(int, int)>, now: int)
    ensures var t := TapTracked(s, fingers, at, now);
            t.tap.candidate ==>
              if fingers == s.prevFingers then t == s
              else s.prevFingers == 0 && fingers == 1 && !s.heldLeft && t.tap.since == Some(now)
  {
    hide ButtonSet;
  }

  lemma TouchedDownExtends(p: Pad, init: seq<Event>, e: Event, i: nat)
    requires p.Valid() && TouchedDown(p, init, i) && e != BtnLeft(true)
    requires e.Report? ==> Fingers(p, Run(p, init).frame) == 1
    ensures TouchedDown(p, init + [e], i)
  {
    hide Run, LastFrame, Fingers;
    var events := init + [e];
    assert events[..i] == init[..i];
    assert events[..|init|] == init;
    forall k | i < k < |events| && events[k].Report? ensures Fingers(p, Run(p, events[..k]).frame) == 1 {
      if k < |init| {
        assert events[..k] == init[..k] && init[k].Report?;
      }
    }
  }

  /** Every tap candidate has a clean touch behind it. */
  lemma {:induction false} CandidateHasTouch(p: Pad, events: seq<Event>) returns (i: nat)
    requires p.Valid() && Run(p, events).tap.candidate
    ensures TouchedDown(p, events, i) && Run(p, events).tap.since == Some(events[i].now)
    ensures Run(p, events).prevFingers == 1
    decreases |events|
  {
    NoEventsNoTap(p);
    assert events != [];
    var init, e := SplitLast(events);
    var s := Run(p, init);
    RunSnoc(p, init, e);
    CandidateStep(p, s, e);
    PrevFingersStep(p, s, e);
    hide Run, Step;
    if e.Report? && Fingers(p, s.frame) != s.prevFingers {
      i := |init|;
      PrevFingersAreLastFrame(p, init);
      assert events[..i] == init;
    } else {
      i := CandidateHasTouch(p, init);
      TouchedDownExtends(p, init, e, i);
      assert (init + [e])[i] == init[i];
    }
  }

  lemma NoEventsNoTap(p: Pad)
    requires p.Valid()
    ensures !Run(p, []).tap.candidate
  {
  }

  lemma ClickIsTap(p: Pad, s: State, e: Event)
    requires p.Valid() && InRange(p, s) && e.Report?
    requires exists k :: |s.log| <= k < |Step(p, s, e).log| && Step(p, s, e).log[k] == Press(LeftButton)
    ensures TapCompleted(s, e.now) && Fingers(p, s.frame) == 0
  {
    hide Moved, Scrolled, IsJump, PastSlop, Fingers, Primary, TapCompleted;
    var n, at := Fingers(p, s.frame), Primary(p, s.frame);
    TapAdds(s, n, at, e.now);
    hide TapTracked;
    var t := TapTracked(s, n, at, e.now).(prevFingers := n);
    if at.Some? {
      MovedAdds(p, t, at.value.0 - t.prevX, at.value.1 - t.prevY, e.cursor);
    }
  }

  lemma TapAdds(s: State, fingers: nat, at: Option<(int, int)>, now: int)
    ensures TapTracked(s, fingers, at, now).log != s.log ==> TapCompleted(s, now) && fingers == 0
  {
    hide TapCompleted, ButtonSet;
  }

  /** A click made by tapping comes from one finger that touched the pad while the
      physical button was up and left it within 180 ms, the button not having been
      pressed in between and not being down now. */
  lemma TapIsClean(p: Pad, events: seq<Event>, e: Event) returns (i: nat)
    requires p.Valid() && e.Report?
    requires var s, t := Run(p, events), Run(p, events + [e]);
             exists k :: |s.log| <= k < |t.log| && t.log[k] == Press(LeftButton)
    ensures TouchedDown(p, events, i) && e.now - events[i].now <= TAP_MS
    ensures !Run(p, events).heldLeft && Fingers(p, Run(p, events).frame) == 0
  {
    RunSnoc(p, events, e);
    hide Run, Step;
    ClickIsTap(p, Run(p, events), e);
    i := CandidateHasTouch(p, events);
  }
}
