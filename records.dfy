/** JavaScript values that may be null, undefined or missing. */
module Wrappers {
  datatype Option<+T> = None | Some(value: T)
}

/** The values a drawing session produces and consumes: canvas points, the style
    object handed to the line primitive, the records appended to a room's
    `strokes` and `events` streams, the lines drawn on the local canvas and the
    notices (toasts) shown to the user. */
module Records {
  import opened Wrappers

  /** Line width of the eraser, in pixels (ERASE_RADIUS). */
  const ERASE_RADIUS: int := 18

  /** The `type` tags of the events stream. */
  const ERASE_NOTIFY: string := "erase-notify"
  const CLEAR_BOARD: string := "clear-board"

  /** A canvas-space coordinate. */
  datatype Point = Point(x: real, y: real)

  /** The active drawing tool, 'pen' or 'eraser'. */
  datatype Tool = Pen | Eraser

  /** The `{color, size, eraser}` object a move hands to `line` and `pushStroke`. */
  datatype Seg = Seg(color: Option<string>, size: int, eraser: bool)

  /** A pen move's style: the colour picker's value and the parsed size field. */
  function PenSeg(color: string, size: int): Seg {
    Seg(Some(color), size, false)
  }

  /** An eraser move's style: no colour, the eraser radius as width. */
  const ERASER_SEG: Seg := Seg(None, ERASE_RADIUS, true)

  /** A record of the strokes stream. Fields a writer may leave out (or write as
      null) are optional; the server timestamp `t` is not modelled. */
  datatype StrokeRecord = StrokeRecord(
    a: Point, b: Point,
    color: Option<string>, size: Option<int>, eraser: Option<bool>,
    author: string)

  /** The record `pushStroke` appends for a segment drawn by `author`. */
  function Record(a: Point, b: Point, opt: Seg, author: string): (r: StrokeRecord)
    ensures r.a == a && r.b == b && r.author == author
    ensures r.color == opt.color
    ensures r.size == Some(opt.size) && r.eraser == Some(opt.eraser)
  {
    StrokeRecord(a, b, opt.color, Some(opt.size), Some(opt.eraser), author)
  }

  /** A record of the events stream: its `type` tag and the name it carries. */
  datatype EventRecord = EventRecord(kind: string, author: string)

  /** How `line` paints: with a stroke colour, or by cutting pixels away. */
  datatype Ink = Paint(color: Option<string>) | Erase

  /** One call of the line primitive, as far as the canvas is concerned. */
  datatype Line = Line(a: Point, b: Point, ink: Ink, width: int)

  /** What `line(a, b, opt)` draws: an eraser style ignores the colour. */
  function LineOf(a: Point, b: Point, opt: Seg): (l: Line)
    ensures l.a == a && l.b == b && l.width == opt.size
    ensures l.ink == Erase <==> opt.eraser
    ensures !opt.eraser ==> l.ink == Paint(opt.color)
  {
    Line(a, b, if opt.eraser then Erase else Paint(opt.color), opt.size)
  }

  /** The toasts the session shows. */
  datatype Notice =
    | NameRequired                 // pointer-down before a name was entered
    | EraserExhausted              // the budget ran out, cooldown begins
    | StillCoolingDown(seconds: int)
    | EraserRecharged              // the cooldown ended, the budget is full
    | ErasedBy(author: string)     // someone announced an erase
    | BoardCleared                 // a clear-board event wiped the canvas
}
