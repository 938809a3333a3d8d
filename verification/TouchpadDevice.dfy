// The touchpad as the object it is: event handlers that update a table of contacts
// and the pointer in place, each one a step of the machine.
module TouchpadDevices {
  import opened Wrappers
  import opened Touchpads

  class Touchpad {
    const pad: Pad
    const contacts: array<Contact>
    var currentSlot: nat
    var singleX: int
    var singleY: int
    var singleTouch: bool
    var toolFinger: bool
    var toolDouble: bool
    var toolTriple: bool
    var prevFingers: nat
    var prevX: int
    var prevY: int
    var havePrev: bool
    var tap: Tap
    var physicalButtonDown: bool
    var pos: PointF
    var lastSent: Point
    var buttons: set<Button>
    ghost var log: seq<Output>

    ghost predicate Valid()
      reads this
    {
      pad.Valid() && contacts.Length == pad.slots && currentSlot < contacts.Length
    }

    ghost function CurrentFrame(): Frame
      reads this, contacts
    {
      Frame(contacts[..], currentSlot, singleX, singleY, singleTouch, toolFinger, toolDouble, toolTriple)
    }

    ghost function Now(): (s: State)
      requires Valid()
      reads this, contacts
      ensures InRange(pad, s)
    {
      State(CurrentFrame(), prevFingers, prevX, prevY, havePrev, tap, physicalButtonDown,
            pos, lastSent, buttons, log)
    }

    constructor (pad: Pad)
      requires pad.Valid()
      ensures this.pad == pad && fresh(contacts) && Valid() && Now() == Start(pad)
    {
      this.pad := pad;
      contacts := new Contact[pad.slots](_ => Contact(-1, 0, 0));
      currentSlot, singleX, singleY := 0, 0, 0;
      singleTouch, toolFinger, toolDouble, toolTriple := false, false, false, false;
      prevFingers, prevX, prevY, havePrev := 0, 0, 0, false;
      tap, physicalButtonDown := Tap(false, 0, 0, None), false;
      var x, y := pad.left + (pad.width - 1) / 2, pad.top + (pad.height - 1) / 2;
      lastSent, pos := Point(x, y), PointF(x as real, y as real);
      buttons, log := {}, [];
      new;
      assert contacts[..] == Start(pad).frame.contacts;
    }

    method ActiveContacts() returns (n: nat)
      requires Valid()
      ensures n == Fingers(pad, CurrentFrame())
    {
      if pad.multitouch {
        n := 0;
        assert contacts[..0] == [];
        for i := 0 to contacts.Length
          invariant n == CountActive(contacts[..i])
        {
          assert contacts[..i + 1][..i] == contacts[..i];
          if contacts[i].trackingId >= 0 {
            n := n + 1;
          }
        }
        assert contacts[..contacts.Length] == contacts[..];
        return;
      }
      if toolTriple {
        return 3;
      }
      if toolDouble {
        return 2;
      }
      if toolFinger || singleTouch {
        return 1;
      }
      return 0;
    }

    method PrimaryPosition() returns (at: Option<(int, int)>)
      requires Valid()
      ensures at == Primary(pad, CurrentFrame())
    {
      if pad.multitouch {
        for i := 0 to contacts.Length
          invariant FirstActive(contacts[..]) == FirstActive(contacts[i..])
        {
          assert contacts[i..][1..] == contacts[i + 1..];
          if contacts[i].trackingId >= 0 {
            return Some((contacts[i].x, contacts[i].y));
          }
        }
        return None;
      }
      if toolFinger || toolDouble || toolTriple || singleTouch {
        return Some((singleX, singleY));
      }
      return None;
    }

    method SetButton(b: Button, pressed: bool)
      requires Valid()
      modifies this`buttons, this`log
      ensures Valid() && Now() == ButtonSet(old(Now()), b, pressed)
    {
      if pressed == (b in buttons) {
        return;
      }
      if pressed {
        buttons := buttons + {b};
        log := log + [Press(b)];
      } else {
        buttons := buttons - {b};
        log := log + [Release(b)];
      }
    }

    method MovePointer(dx: int, dy: int, cursor: Point)
      requires Valid()
      modifies this`pos, this`lastSent, this`log
      ensures Valid() && Now() == Moved(pad, old(Now()), dx, dy, cursor)
    {
      hide Destination, Rounded;
      if dx == 0 && dy == 0 {
        return;
      }
      var p := pos;
      if Abs((cursor.x - lastSent.x) as real) + Abs((cursor.y - lastSent.y) as real) > 1.0 {
        p := PointF(cursor.x as real, cursor.y as real);
      }
      pos := Destination(pad, p, dx, dy);
      lastSent := Rounded(pos);
      log := log + [Move(pos)];
    }

    method Wheel(dx: int, dy: int)
      requires Valid()
      modifies this`log
      ensures Valid() && Now() == Scrolled(pad, old(Now()), dx, dy)
    {
      hide Truncated, Notches, Pixels, GainX, GainY, IsFuzzyNull;
      var px, py := Pixels(dx, GainX(pad)), Pixels(dy, GainY(pad));
      if IsFuzzyNull(px) && IsFuzzyNull(py) {
        return;
      }
      var pixelX, pixelY := Truncated(-px), Truncated(-py);
      var angleX, angleY := Notches(px), Notches(py);
      if pixelX == 0 && pixelY == 0 && angleX == 0 && angleY == 0 {
        return;
      }
      log := log + [Scroll(pixelX, pixelY, angleX, angleY)];
    }

    method TrackTap(fingers: nat, at: Option<(int, int)>, now: int)
      requires Valid()
      modifies this`havePrev, this`tap, this`buttons, this`log
      ensures Valid() && Now() == TapTracked(old(Now()), fingers, at, now)
    {
      hide ButtonSet;
      if fingers == prevFingers {
        return;
      }
      havePrev := false;
      if prevFingers == 0 && fingers == 1 && at.Some? {
        tap := Tap(!physicalButtonDown, at.value.0, at.value.1, Some(now));
      } else if fingers == 0 {
        if tap.candidate && prevFingers == 1 && !physicalButtonDown
           && tap.since.Some? && now - tap.since.value <= TAP_MS {
          SetButton(LeftButton, true);
          SetButton(LeftButton, false);
        }
        tap := tap.(candidate := false);
      } else {
        tap := tap.(candidate := false);
      }
    }

    method ApplyGesture(fingers: nat, x: int, y: int, cursor: Point)
      requires Valid()
      modifies this`pos, this`lastSent, this`log, this`tap
      ensures Valid() && Now() == Gesture(pad, old(Now()), fingers, x, y, cursor)
    {
      hide Moved, Scrolled, PastSlop;
      var dx, dy := x - prevX, y - prevY;
      if fingers == 1 || (fingers == 2 && buttons != {}) {
        MovePointer(dx, dy, cursor);
      } else if fingers == 2 {
        Wheel(dx, dy);
      }
      if tap.candidate {
        if PastSlop(pad, tap, x, y) {
          tap := tap.(candidate := false);
        }
      }
    }

    method FrameComplete(now: int, cursor: Point)
      requires Valid()
      modifies this
      ensures Valid() && Now() == FrameCompleted(pad, old(Now()), now, cursor)
    {
      hide Gesture, TapTracked, IsJump, Fingers, Primary;
      var fingers := ActiveContacts();
      var at := PrimaryPosition();
      TrackTap(fingers, at, now);
      prevFingers := fingers;
      if at == None {
        havePrev := false;
        return;
      }
      var (x, y) := at.value;
      if havePrev {
        if IsJump(pad, x - prevX, y - prevY) {
          prevX, prevY := x, y;
          return;
        }
        ApplyGesture(fingers, x, y, cursor);
      }
      prevX, prevY, havePrev := x, y, true;
    }

    method SetContact(c: Contact)
      requires Valid()
      modifies contacts
      ensures Valid() && contacts[..] == old(contacts[..])[currentSlot := c]
    {
      contacts[currentSlot] := c;
    }

    method SlotEvent(e: Event)
      requires Valid() && (e.Slot? || e.TrackingId? || e.PositionX? || e.PositionY?)
      modifies this`currentSlot, contacts
      ensures Valid() && Now() == old(Now()).(frame := Received(pad, old(CurrentFrame()), e))
    {
      assert contacts[..][currentSlot] == contacts[currentSlot];
      if e.Slot? {
        currentSlot := if 0 <= e.value < contacts.Length then e.value else 0;
      } else if e.TrackingId? {
        SetContact(contacts[currentSlot].(trackingId := e.value));
      } else if e.PositionX? {
        SetContact(contacts[currentSlot].(x := e.value));
      } else {
        SetContact(contacts[currentSlot].(y := e.value));
      }
    }

    method SingleEvent(e: Event)
      requires Valid() && !e.Slot? && !e.TrackingId? && !e.PositionX? && !e.PositionY?
      modifies this`singleX, this`singleY, this`singleTouch, this`toolFinger, this`toolDouble, this`toolTriple
      ensures Valid() && Now() == old(Now()).(frame := Received(pad, old(CurrentFrame()), e))
    {
      if e.AbsX? {
        singleX := e.value;
      } else if e.AbsY? {
        singleY := e.value;
      } else if e.Touch? {
        singleTouch := e.down;
      } else if e.ToolFinger? {
        toolFinger := e.down;
      } else if e.ToolDouble? {
        toolDouble := e.down;
      } else if e.ToolTriple? {
        toolTriple := e.down;
      }
    }

    method HandleEvent(e: Event)
      requires Valid()
      modifies this, contacts
      ensures Valid() && Now() == Step(pad, old(Now()), e)
    {
      hide FrameCompleted, ButtonSet, Received;
      if e.BtnLeft? {
        physicalButtonDown := e.down;
        if e.down {
          tap := tap.(candidate := false);
        }
        SetButton(LeftButton, e.down);
      } else if e.BtnRight? {
        SetButton(RightButton, e.down);
      } else if e.BtnMiddle? {
        SetButton(MiddleButton, e.down);
      } else if e.Report? {
        FrameComplete(e.now, e.cursor);
      } else if e.Slot? || e.TrackingId? || e.PositionX? || e.PositionY? {
        SlotEvent(e);
      } else {
        SingleEvent(e);
      }
    }

    /** The events of one read, in order. */
    method ReadEvents(events: seq<Event>, ghost before: seq<Event>)
      requires Valid() && Now() == Run(pad, before)
      modifies this, contacts
      ensures Valid() && Now() == Run(pad, before + events)
    {
      hide Step, Run, Touchpad.Now;
      assert before + events[..0] == before;
      for i := 0 to |events|
        invariant Valid() && Now() == Run(pad, before + events[..i])
      {
        RunSnoc(pad, before + events[..i], events[i]);
        assert before + events[..i + 1] == before + events[..i] + [events[i]];
        HandleEvent(events[i]);
      }
      assert events[..|events|] == events;
    }
  }
}
