/** A client's drawing session: the page's module-level state (user name, tool,
    drag state, eraser budget and cooldown, the announce-once flag) as the
    fields of one object, the pointer, tool, timer and stream handlers as its
    methods, and the client's own appends to the room's `strokes` and
    `events` streams as sequences. */
module Board {
  import opened Wrappers
  import opened Records
  import opened Replay
  import Room
  import G = EraserGovernor

  class Session {
    var username: string
    var tool: Tool
    var drawing: bool
    var last: Option<Point>
    var eraseBudget: real
    var cooldown: int
    /** Whether the one-second interval `cdTimer` is registered. */
    var timerActive: bool
    /** `toolUsedAnnounced`: this drag has already sent its erase notice. */
    var announced: bool
    /** The stroke records this client appended, in order. */
    var strokes: seq<StrokeRecord>
    /** The event records this client appended, in order. */
    var events: seq<EventRecord>
    /** The lines drawn on the local canvas since it was last cleared. */
    var canvas: seq<Line>
    /** How many events had been appended when the last drag ended. */
    ghost var dragMark: nat

    /** The budget, cooldown and timer as a governor value. */
    function EraserState(): G.Governor
      reads this
    {
      G.Governor(eraseBudget, cooldown, timerActive)
    }

    /** The session's invariant: the governor is consistent, the eraser is
        never selected during a cooldown, only a named user draws, and the
        current drag has sent at most one erase notice, exactly when its flag
        is set. */
    ghost predicate Valid()
      reads this
    {
      && G.Valid(EraserState())
      && (tool == Eraser ==> cooldown == 0)
      && (drawing ==> username != "")
      && (announced ==> drawing)
      && dragMark <= |events| <= dragMark + 1
      && (announced <==> |events| == dragMark + 1)
      && (forall i :: 0 <= i < |strokes| ==> strokes[i].author != "")
      && (forall i :: 0 <= i < |events| ==>
            events[i].kind == ERASE_NOTIFY && events[i].author != "")
    }

    /** The state when the page has loaded: no name yet, the pen, a full
        budget, nothing appended or drawn. */
    constructor ()
      ensures Valid()
      ensures username == "" && tool == Pen && !drawing && last == None && !announced
      ensures EraserState() == G.Full
      ensures strokes == [] && events == [] && canvas == []
    {
      username := "";
      tool := Pen;
      drawing := false;
      last := None;
      eraseBudget := G.BUDGET_MAX;
      cooldown := 0;
      timerActive := false;
      announced := false;
      strokes := [];
      events := [];
      canvas := [];
      dragMark := 0;
    }

    /** The join button: the decision is taken on the two form fields, and
        entering the room sets the user name. */
    method Join(nameField: string, roomField: string) returns (d: Room.JoinDecision)
      requires Valid()
      modifies this`username
      ensures Valid()
      ensures d == Room.Join(nameField, roomField)
      ensures username == if d.Enter? then d.name else old(username)
    {
      d := Room.Join(nameField, roomField);
      if d.Enter? {
        SetUsername(d.name);
      }
    }

    /** The guest button: the random four-digit number is passed in. */
    method JoinAsGuest(n: int)
      requires Valid()
      requires 1000 <= n <= 9999
      modifies this`username
      ensures Valid()
      ensures username == Room.GuestName(n) && username != ""
    {
      SetUsername(Room.GuestName(n));
    }

    /** `username = ...`: both join paths only ever set a non-empty name. */
    method SetUsername(name: string)
      requires Valid()
      requires name != ""
      modifies this`username
      ensures Valid()
      ensures username == name
    {
      username := name;
    }

    /** `startDraw`: without a name nothing happens but a warning; otherwise a
        drag starts at `p`. */
    method StartDraw(p: Point) returns (notice: Option<Notice>)
      requires Valid()
      modifies this`drawing, this`last
      ensures Valid()
      ensures username == "" ==> unchanged(this) && notice == Some(NameRequired)
      ensures username != "" ==> drawing && last == Some(p) && notice == None
    {
      if username == "" {
        notice := Some(NameRequired);
        return;
      }
      drawing := true;
      last := Some(p);
      notice := None;
    }

    /** `moveDraw` to `p`, with `dist` the length of the segment from the last
        point and `penColor`, `penSize` the values of the style inputs. A move
        while not drawing does nothing. Otherwise exactly one segment, from
        the last point to `p`, is drawn and appended; an eraser move also
        spends `dist` of the budget, sends the drag's erase notice if none was
        sent yet, and, when the budget runs out, clamps it to zero, starts the
        cooldown and returns to the pen. */
    method MoveDraw(p: Point, dist: real, penColor: string, penSize: int) returns (notice: Option<Notice>)
      requires Valid()
      requires dist >= 0.0
      modifies this`last, this`eraseBudget, this`cooldown, this`timerActive, this`tool
      modifies this`announced, this`strokes, this`events, this`canvas
      ensures Valid()
      ensures !old(drawing) ==> unchanged(this) && notice == None
      ensures old(drawing) ==>
        var from := if old(last).Some? then old(last).value else p;
        var seg := if old(tool) == Pen then PenSeg(penColor, penSize) else ERASER_SEG;
        && strokes == old(strokes) + [Record(from, p, seg, username)]
        && canvas == old(canvas) + [LineOf(from, p, seg)]
        && last == Some(p)
      ensures old(drawing) && old(tool) == Pen ==>
        && EraserState() == old(EraserState())
        && tool == Pen && announced == old(announced) && events == old(events)
        && notice == None
      ensures old(drawing) && old(tool) == Eraser ==>
        && EraserState() == G.Consume(old(EraserState()), dist)
        && announced
        && events == old(events) + (if old(announced) then [] else [EventRecord(ERASE_NOTIFY, username)])
        && (tool == Pen <==> old(eraseBudget) - dist <= 0.0)
        && notice == (if tool == Pen then Some(EraserExhausted) else None)
      ensures old(drawing) && old(tool) == Eraser && old(eraseBudget) - dist <= 0.0 ==>
        eraseBudget == 0.0 && cooldown == G.COOLDOWN && timerActive && tool == Pen
    {
      notice := None;
      if !drawing {
        return;
      }
      if last == None {
        last := Some(p);
      }
      var from := last.value;
      if tool == Pen {
        var seg := PenSeg(penColor, penSize);
        DrawLine(from, p, seg);
        PushStroke(from, p, seg);
      } else {
        notice := EraseSegment(from, p, dist);
      }
      last := Some(p);
    }

    /** The eraser branch of `moveDraw`: the budget is spent before the
        segment is drawn and appended, so the move that exhausts the budget
        still erases its whole segment; the cooldown starts after it. */
    method EraseSegment(from: Point, p: Point, dist: real) returns (notice: Option<Notice>)
      requires Valid() && drawing && tool == Eraser
      requires dist >= 0.0
      modifies this`eraseBudget, this`cooldown, this`timerActive, this`tool
      modifies this`announced, this`strokes, this`events, this`canvas
      ensures Valid()
      ensures strokes == old(strokes) + [Record(from, p, ERASER_SEG, username)]
      ensures canvas == old(canvas) + [LineOf(from, p, ERASER_SEG)]
      ensures EraserState() == G.Consume(old(EraserState()), dist)
      ensures announced
      ensures events == old(events) + (if old(announced) then [] else [EventRecord(ERASE_NOTIFY, username)])
      ensures tool == Pen <==> old(eraseBudget) - dist <= 0.0
      ensures notice == (if tool == Pen then Some(EraserExhausted) else None)
    {
      notice := None;
      eraseBudget := eraseBudget - dist;
      var seg := ERASER_SEG;
      DrawLine(from, p, seg);
      PushStroke(from, p, seg);
      if !announced {
        AnnounceEraser();
        announced := true;
      }
      if eraseBudget <= 0.0 {
        eraseBudget := 0.0;
        StartCooldown();
        SetTool(Pen);
        notice := Some(EraserExhausted);
      }
    }

    /** `endDraw` (pointer-up or cancel): the drag ends and a later drag may
        announce the eraser again. */
    method EndDraw()
      requires Valid()
      modifies this`drawing, this`last, this`announced, this`dragMark
      ensures Valid()
      ensures !drawing && last == None && !announced
    {
      drawing := false;
      last := None;
      announced := false;
      dragMark := |events|;
    }

    /** `setTool`. Selecting the pen keeps the invariant; the eraser is only
        selected through TryUseEraser. */
    method SetTool(t: Tool)
      modifies this`tool
      ensures tool == t
      ensures old(Valid()) && t == Pen ==> Valid()
    {
      tool := t;
    }

    /** `tryUseEraser`: refused with the remaining seconds during a cooldown,
        otherwise the eraser becomes the tool. Budget and cooldown are left as
        they are. */
    method TryUseEraser() returns (notice: Option<Notice>)
      requires Valid()
      modifies this`tool
      ensures Valid()
      ensures old(cooldown) > 0 ==> tool == old(tool) && notice == Some(StillCoolingDown(cooldown))
      ensures old(cooldown) == 0 ==> tool == Eraser && notice == None
    {
      if cooldown > 0 {
        notice := Some(StillCoolingDown(cooldown));
        return;
      }
      if eraseBudget <= 0.0 {
        // An empty budget outside a cooldown, for which the handler would
        // start the cooldown here, contradicts Valid().
        assert false;
      }
      SetTool(Eraser);
      notice := None;
    }

    /** `startCooldown`: full cooldown, no budget, and a fresh interval in
        place of any running one. */
    method StartCooldown()
      modifies this`eraseBudget, this`cooldown, this`timerActive
      ensures EraserState() == G.CoolingStart
    {
      cooldown := G.COOLDOWN;
      eraseBudget := 0.0;
      timerActive := true;
    }

    /** The interval callback, one second after the last: it only runs while
        the interval is registered. */
    method Tick() returns (notice: Option<Notice>)
      requires Valid()
      requires timerActive
      modifies this`eraseBudget, this`cooldown, this`timerActive
      ensures Valid()
      ensures EraserState() == G.Tick(old(EraserState()))
      ensures cooldown == old(cooldown) - 1
      ensures cooldown == 0 ==> EraserState() == G.Full
      ensures notice == if cooldown == 0 then Some(EraserRecharged) else None
    {
      cooldown := cooldown - 1;
      notice := None;
      if cooldown <= 0 {
        cooldown := 0;
        eraseBudget := G.BUDGET_MAX;
        timerActive := false;
        notice := Some(EraserRecharged);
      }
    }

    /** `pushStroke`: append the segment's record, signed with the user name. */
    method PushStroke(a: Point, b: Point, opt: Seg)
      modifies this`strokes
      ensures strokes == old(strokes) + [Record(a, b, opt, username)]
    {
      strokes := strokes + [Record(a, b, opt, username)];
    }

    /** `announceEraser`: append an erase notice naming the user. */
    method AnnounceEraser()
      modifies this`events
      ensures events == old(events) + [EventRecord(ERASE_NOTIFY, username)]
    {
      events := events + [EventRecord(ERASE_NOTIFY, username)];
    }

    /** `line`: draw one segment on the local canvas. */
    method DrawLine(a: Point, b: Point, opt: Seg)
      modifies this`canvas
      ensures canvas == old(canvas) + [LineOf(a, b, opt)]
    {
      canvas := canvas + [LineOf(a, b, opt)];
    }

    /** The strokes-stream handler: a null record is skipped, any other is
        drawn with `drawSegment`'s defaults. */
    method OnStroke(s: Option<StrokeRecord>)
      modifies this`canvas
      ensures canvas == old(canvas) + (if s.Some? then [DrawSegment(s.value)] else [])
    {
      if s.None? {
        return;
      }
      canvas := canvas + [DrawSegment(s.value)];
    }

    /** The events-stream handler: shows the notice Dispatch names and wipes
        the local canvas on 'clear-board'; the stroke log is not touched. */
    method OnEvent(e: Option<EventRecord>) returns (notice: Option<Notice>)
      modifies this`canvas
      ensures notice == Dispatch(e).notice
      ensures canvas == if Dispatch(e).clearCanvas then [] else old(canvas)
      ensures strokes == old(strokes) && events == old(events)
    {
      notice := None;
      if e.None? {
        return;
      }
      var ev := e.value;
      if ev.kind == ERASE_NOTIFY {
        notice := Some(ErasedBy(ev.author));
      }
      if ev.kind == CLEAR_BOARD {
        canvas := [];
        notice := Some(BoardCleared);
      }
    }
  }

  /** A client of the session: a user erases 1200 pixels in one drag of two
      moves. The second move empties the budget and still appends its
      segment; the drag sent one erase notice; the tool is back to the pen and
      the eraser is refused until the cooldown has ticked away. */
  method OneDragSpendsWholeBudget()
  {
    var s := new Session();
    s.SetUsername("Ana");
    var n := s.StartDraw(Point(0.0, 0.0));
    assert n == None;
    n := s.TryUseEraser();
    assert s.tool == Eraser;
    n := s.MoveDraw(Point(600.0, 0.0), 600.0, "#ff0000", 6);
    assert n == None && s.eraseBudget == 600.0;
    n := s.MoveDraw(Point(1200.0, 0.0), 600.0, "#ff0000", 6);
    assert n == Some(EraserExhausted);
    assert s.tool == Pen && s.eraseBudget == 0.0 && s.cooldown == G.COOLDOWN;
    assert |s.strokes| == 2 && s.strokes[1].eraser == Some(true);
    assert |s.events| == 1;
    n := s.TryUseEraser();
    assert n == Some(StillCoolingDown(G.COOLDOWN)) && s.tool == Pen;
    s.EndDraw();
  }
}
