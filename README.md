# Shared whiteboard client: drawing session, eraser governor and room helpers

This project models the client side of a multi-user whiteboard. Clients in a
named room draw on one canvas. Each client appends its line segments to the
room's `strokes` stream and its erase notices to the `events` stream. It
replays whatever the other clients append. The eraser is rate-limited per
client: it has a budget of 1200 pixels of erase distance, and a 45-second
cooldown starts when the budget runs out.

The model has six modules, beside a small `Wrappers` module holding `Option`:

- `Records` (records.dfy) holds the values that cross the streams and the canvas:
  - points;
  - the `{color, size, eraser}` style object;
  - stroke and event records;
  - the lines handed to the line primitive;
  - the user-visible notices.
- `Replay` (replay.dfy) is the receiving side:
  - `drawSegment`'s defaulting of a stroke record;
  - the dispatch of an events record.
- `EraserGovernor` (eraser.dfy) is the budget/cooldown/timer triple as a value. It has:
  - the functions that specify a move, a tick and the passing of time;
  - the lemmas about them: the countdown, the refill after 45 ticks, and the outcome of a whole eraser drag.
- `Room` (room.dfy) covers the room and the join form:
  - the room name taken from the URL fragment;
  - the share link and the round trip back to the room;
  - `String.prototype.trim`;
  - the join-button decision;
  - the guest name.
- `Roster` (roster.dfy) is `renderPlayers`' projection of the `players` snapshot to a count and a list of names.
- `Board` (session.dfy) is the class `Session`. Its fields are the page's module-level `let` state:
  - `username`, `tool`, `drawing`, `last`;
  - `eraseBudget`, `cooldown`;
  - `timerActive`, standing for `cdTimer`;
  - `announced`, standing for `toolUsedAnnounced`;
  - `strokes` and `events`, this client's appends to the two streams;
  - `canvas`, the lines drawn since the last clear.

  Each handler is a method. `Tick` is the one-second interval callback.
  `Valid()` is the invariant every handler keeps:
  - `0 <= cooldown <= 45`;
  - a running cooldown means an empty budget;
  - no cooldown means a budget in `(0, 1200]`;
  - the timer runs exactly during a cooldown;
  - the eraser is never the tool during a cooldown;
  - only a named user draws;
  - the current drag has sent at most one erase notice, and it has sent one exactly when `announced` is set.

  The methods' postconditions tie the eraser fields to `EraserGovernor`'s
  functions, so the lemmas proved there apply to the session.

`drawSegment` replaces only a missing or zero size with 6, so a negative size
is drawn as written; the model does the same.

## Model

| member | source | states |
|---|---|---|
| Records.Record | script.js:154-158 | the record pushStroke appends carries both points, the style's colour, its size and eraser flag, and the user's name |
| Records.LineOf | script.js:134-148 | the line primitive joins the two points with the style's size as width, and erases exactly when the style's eraser flag is set, otherwise paints with its colour |
| Replay.ColorOr | script.js:151 | a missing or empty colour becomes '#000'; a non-empty colour is kept; the result is never empty |
| Replay.SizeOr | script.js:151 | a missing or zero size becomes 6; any other size is kept; the result is never zero |
| Replay.DrawSegment | script.js:150-152 | the line drawn for a received record joins its two points; its width is the record's size, or 6 when that is missing or zero; when it paints, its colour is the record's, or '#000' when that is missing or empty; it erases exactly when the record's eraser flag is true |
| Replay.EchoMatchesLocal | script.js:150-158 | the line a receiving client draws from an appended record equals the line the author drew locally if and only if the size is non-zero and the segment is an eraser segment or has a non-empty colour |
| Replay.Dispatch | script.js:110-117 | a null event does nothing; 'erase-notify' shows who erased; 'clear-board' wipes the canvas and shows a notice; any other type does nothing |
| EraserGovernor.Consume | script.js:192-205 | an eraser move never leaves a negative budget; a move that takes the budget to zero or below gives budget 0, cooldown 45 and a running timer; otherwise the budget drops by the distance; the governor invariant is kept |
| EraserGovernor.Tick | script.js:262-271 | each tick lowers the cooldown by exactly one and keeps the invariant; the tick that reaches zero refills the budget to 1200 and stops the timer |
| EraserGovernor.Elapse | script.js:262-271 | n seconds pass: without a registered interval nothing changes; otherwise the callback runs once a second, the invariant is kept and the cooldown is down by n, and at zero once n reaches it |
| EraserGovernor.Countdown | script.js:258-271 | n seconds into a cooldown of c seconds, the cooldown is c - n with an empty budget and a running timer; from c seconds on, the governor is full and stays full |
| EraserGovernor.FullAfterCooldown | script.js:258-271 | 45 ticks after startCooldown the budget is 1200 and the cooldown 0; before that the cooldown counts down from 45 |
| EraserGovernor.EraseDrag | script.js:188-205 | a drag of eraser moves spends the budget move by move and stops changing it once the cooldown has started (the tool is then the pen); a drag that starts during a cooldown changes nothing; the invariant is kept and the budget never grows |
| EraserGovernor.DragOutcome | script.js:192-205 | a drag whose eraser moves total at least the remaining budget ends in a fresh 45-second cooldown; a shorter drag leaves the budget reduced by its total; no tick of the cooldown timer is taken to fall inside the drag |
| EraserGovernor.FullBudgetDragCoolsDown | script.js:192-205 | starting from a full budget, erasing 1200 pixels or more in one drag starts the cooldown |
| Room.RoomFromHash | script.js:17 | the room is the fragment without its '#', or 'lop46' when that is empty; it is never empty |
| Room.HashOf | script.js:17 | `location.hash` is the rest of the address after `split('#')[0]`, except that a bare trailing '#' reads as ""; it is empty or a '#' followed by at least one character |
| Room.BeforeHash | script.js:285 | `split('#')[0]` is a prefix of the address with no '#', followed in the address by '#' if anything follows |
| Room.ShareLink | script.js:285 | the share link is the address up to its first '#', then '#', then the room |
| Room.ShareLinkOpensRoom | script.js:285 | the share link keeps the page address, and the room derived from its fragment is the room it was made for |
| Room.Trim | script.js:76-77 | trim gives the empty string exactly for an all-white-space field, and otherwise neither starts nor ends with white space |
| Room.TrimIsInnerPiece | script.js:76-77 | the trimmed field is a contiguous piece of the field, with only white space before and after it |
| Room.Join | script.js:75-82 | a non-blank room field reloads into the trimmed room; otherwise a blank name is refused; otherwise the user enters with the trimmed, non-empty name |
| Room.ReloadEntersTypedRoom | script.js:78 | after the reload, the room derived from the new fragment is the one typed into the room field |
| Room.DecimalRoundTrip | script.js:85 | the decimal digits of a number read back as the number |
| Room.GuestName | script.js:85 | a guest name is 'anon-' followed by the four digits, without a leading zero, of the random number from 1000 to 9999, which read back as that number |
| Roster.Players | script.js:99 | a null snapshot is an empty set of players; otherwise the snapshot itself |
| Roster.RenderPlayers | script.js:120-124 | the count is the number of client ids in the snapshot (none when the snapshot is null), and there is one name per id, in the enumeration order |
| Roster.HeartbeatKeepsCount | script.js:96 | a heartbeat rewrite of the client's own record leaves the count the others see unchanged |
| Board.Session.constructor | script.js:55-67 | the page starts with no name, the pen, no drag, a full budget, no cooldown or timer, and nothing appended |
| Board.Session.Join | script.js:75-82 | the join button takes Room.Join's decision and sets the user name only when the user enters; the invariant is kept |
| Board.Session.JoinAsGuest | script.js:84-87 | the guest button sets the generated, non-empty guest name |
| Board.Session.SetUsername | script.js:80 | setting a non-empty user name keeps the invariant |
| Board.Session.StartDraw | script.js:177-183 | without a user name nothing changes and a warning is shown; otherwise a drag starts at the point |
| Board.Session.MoveDraw | script.js:184-210 | a move while not drawing changes nothing; otherwise it appends exactly one record, from the last point to the new one, and draws the same segment; pen moves carry the chosen colour and size and leave the budget alone; eraser moves carry no colour, width 18 and the eraser flag, spend the distance, and send the drag's only erase notice; the move that exhausts the budget sets budget 0, cooldown 45, timer on, tool pen; the invariant is kept |
| Board.Session.EraseSegment | script.js:192-206 | the exhausting eraser move still draws and appends its whole segment before the cooldown starts and the tool returns to the pen |
| Board.Session.EndDraw | script.js:211-215 | the drag ends, the last point is cleared and the announce flag reset, so the next drag can announce again |
| Board.Session.SetTool | script.js:232-239 | the tool becomes the one chosen; choosing the pen keeps the invariant |
| Board.Session.TryUseEraser | script.js:241-252 | during a cooldown the tool stays as it was and the remaining seconds are shown; otherwise the eraser becomes the tool; the handler's empty-budget branch cannot be reached under the invariant |
| Board.Session.StartCooldown | script.js:258-261 | the cooldown is set to 45, the budget to 0, and a fresh interval replaces any running one |
| Board.Session.Tick | script.js:262-271 | the interval callback is exactly EraserGovernor.Tick on the session's fields; the tick that reaches zero refills the budget and shows a notice; the invariant is kept |
| Board.Session.PushStroke | script.js:154-158 | one stroke record, signed with the user name, is appended to the strokes stream |
| Board.Session.AnnounceEraser | script.js:254-256 | one 'erase-notify' record naming the user is appended to the events stream |
| Board.Session.DrawLine | script.js:134-148 | the line primitive adds exactly the one segment with its ink and width to the local canvas |
| Board.Session.OnStroke | script.js:105-108 | a received null record is skipped; any other record is drawn with drawSegment's defaults |
| Board.Session.OnEvent | script.js:110-117 | a received event shows Dispatch's notice and wipes the local canvas only on 'clear-board'; neither stream is touched |

## Left out

- Firebase itself is not modelled: the app setup, the refs and queries, `push`, `onChildAdded`, `onValue`, `limitToLast(2000)` and `serverTimestamp` are foreign calls. The streams are modelled only as this client's appended sequences, and the server timestamp `t` of each record is left out.
- The presence writes are left out: `set` of the own record, `onDisconnect().remove()`, the 20-second heartbeat interval and the `beforeunload` removal. They are network and timer plumbing with no local state. The roster sees only their result, as a snapshot; Roster.HeartbeatKeepsCount states what a rewrite under the same id does to the count.
- Pixel rendering is left out: the compositing mode, line caps and `ctx` save/restore of `line`. The canvas is the list of lines drawn since the last clear, so render idempotence and convergence, which are statements about pixels, are not stated.
- `fitCanvas` and the device-pixel-ratio sizing are floating-point DOM sizing and are left out.
- `getPos` is left out: points arrive as parameters of StartDraw and MoveDraw.
- `Math.sqrt` is left out: the segment length arrives as the non-negative `dist` parameter of MoveDraw.
- Points, distances and the budget are exact reals. The double-precision rounding of `Math.sqrt` and of `eraseBudget -= dist` is not modelled, so the boundary `Sum(ds) >= budget` of EraserGovernor.DragOutcome is exact, whereas the page subtracts one rounded move at a time.
- EraserGovernor.EraseDrag: takes no tick of the cooldown timer to fall inside the drag. A drag that goes on for more than a second after the budget ran out ends with less than 45 seconds of cooldown left; EraserGovernor.Elapse covers the time passing after the drag.
- The colour and size inputs are left out: their values arrive as parameters. A `parseInt` result of NaN is not modelled.
- The event-listener wiring is left out. `touchstart` and `pointerdown` both reach StartDraw; the model allows StartDraw during a drag, which keeps the announce flag, as the code does.
- `showToast` is left out: each handler returns the notice it would show, as an `Option<Notice>`, not the toast text.
- `updateCooldownUI` with its `Math.floor` display is left out.
- The local "clear canvas" button with its `confirm` dialog is left out.
- `localStorage` and `crypto.randomUUID` for the client id are left out.
- `Math.random` for the guest name is left out: the random number is the parameter of GuestName.
- The clipboard write, `location.reload` and the assignment to `location.hash` are left out. Only the decision and the resulting link or room are modelled.
- The browser's percent-encoding of the fragment is not modelled.
- The missing-configuration startup check is left out: it halts the page before any state exists.
- Board.Session.Tick: requires that the interval is registered, because the browser only calls the callback while it is; time passing without a timer is EraserGovernor.Elapse.
- Board.Session.SetTool: promises the invariant only when the pen is chosen, because the code selects the eraser only through tryUseEraser.
- Replay.DrawSegment: models JavaScript truthiness only for missing, null, empty-string and zero values. Non-boolean eraser flags, and non-string or non-number colour and size values, are not modelled.
- Room.ReloadEntersTypedRoom: is stated only for a room that does not start with '#', because the browser drops such a leading '#' when the fragment is assigned. The browser's percent-encoding of the assigned fragment is not modelled either, so a room with a space or a non-ASCII letter ("my room" comes back as "my%20room") does not survive the reload as typed in the page, although it does in the model.
- Roster.RenderPlayers: takes the order of `Object.entries` as a parameter that lists every key once, because that order is fixed by the JavaScript engine.
- The stroke and event records' `by` field is named `author`, because `by` is a reserved word in Dafny.
