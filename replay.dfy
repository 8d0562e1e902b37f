/** Rendering records received from the room's streams: `drawSegment`'s
    defaulting of a stroke record, and the reaction to an events record. */
module Replay {
  import opened Wrappers
  import opened Records

  const DEFAULT_COLOR: string := "#000"
  const DEFAULT_SIZE: int := 6

  /** `s.color || '#000'`: a missing or empty colour falls back to black. */
  function ColorOr(color: Option<string>): (c: string)
    ensures c != ""
    ensures color.Some? && color.value != "" ==> c == color.value
    ensures !(color.Some? && color.value != "") ==> c == DEFAULT_COLOR
  {
    if color.Some? && color.value != "" then color.value else DEFAULT_COLOR
  }

  /** `s.size || 6`: a missing (or NaN) or zero size falls back to 6. */
  function SizeOr(size: Option<int>): (w: int)
    ensures w != 0
    ensures size.Some? && size.value != 0 ==> w == size.value
    ensures !(size.Some? && size.value != 0) ==> w == DEFAULT_SIZE
  {
    if size.Some? && size.value != 0 then size.value else DEFAULT_SIZE
  }

  /** The line `drawSegment(s)` draws for a received stroke record: the
      record's size, or 6 in its place, as width; the record's colour, or
      '#000' in its place, when it paints; it erases exactly when the
      record's flag is true. Whatever the writer left out, the width is
      non-zero and a painted line has a non-empty colour. */
  function DrawSegment(s: StrokeRecord): (l: Line)
    ensures l.a == s.a && l.b == s.b
    ensures l.width == SizeOr(s.size) && l.width != 0
    ensures l.ink == Erase <==> s.eraser == Some(true)
    ensures l.ink.Paint? ==> l.ink.color == Some(ColorOr(s.color))
    ensures l.ink.Paint? ==> l.ink.color.Some? && l.ink.color.value != ""
  {
    LineOf(s.a, s.b, Seg(Some(ColorOr(s.color)), SizeOr(s.size), s.eraser == Some(true)))
  }

  /** A client that appended a segment drew it locally with `line(a, b, opt)`;
      every client that receives the record draws `drawSegment` of it. The two
      lines agree exactly when the width is non-zero and the segment is an
      eraser segment or carries a non-empty colour. */
  lemma EchoMatchesLocal(a: Point, b: Point, opt: Seg, author: string)
    ensures DrawSegment(Record(a, b, opt, author)) == LineOf(a, b, opt)
        <==> opt.size != 0 && (opt.eraser || (opt.color.Some? && opt.color.value != ""))
  {
  }

  /** What an events record makes the client do: show a notice, and possibly
      wipe the local canvas. */
  datatype Reaction = Reaction(notice: Option<Notice>, clearCanvas: bool)

  /** The events-stream handler: a null record is ignored, 'erase-notify'
      names who erased, 'clear-board' wipes the canvas, anything else does
      nothing. */
  function Dispatch(e: Option<EventRecord>): (r: Reaction)
    ensures r.clearCanvas <==> e.Some? && e.value.kind == CLEAR_BOARD
    ensures r.notice.Some? <==> e.Some? && (e.value.kind == ERASE_NOTIFY || e.value.kind == CLEAR_BOARD)
    ensures e.Some? && e.value.kind == ERASE_NOTIFY ==> r.notice == Some(ErasedBy(e.value.author))
    ensures r.clearCanvas ==> r.notice == Some(BoardCleared)
  {
    match e
    case None => Reaction(None, false)
    case Some(ev) =>
      if ev.kind == ERASE_NOTIFY then Reaction(Some(ErasedBy(ev.author)), false)
      else if ev.kind == CLEAR_BOARD then Reaction(Some(BoardCleared), true)
      else Reaction(None, false)
  }
}
