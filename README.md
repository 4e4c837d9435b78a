# kobo-minesweeper in Dafny

A model of the logic of kobo-minesweeper, a Minesweeper game for Kobo e-readers written in
Python, together with proofs of what that logic guarantees. The model covers four parts.

- **The touch pipeline of `koboInput.py`** (modules `Gesture`, `Framing`, `TouchInput`).
  `_task` frames raw evdev events into packets, and `_readPacket` decodes each packet
  against the persistent touch state of the `KoboInput` object:
  - touch start and end;
  - the 90° rotation from device to screen coordinates;
  - Tap versus HoldEnd, Swipe direction and TouchMove.

  The listener registry (`addKoboInputListener`, `removeKoboInputListener`,
  `closeKoboInput`) is modelled as well. `KoboInput` is a class whose fields the methods
  update. Listener invocation is recorded as a sequence of `Call` values, in the order the
  source makes the calls.
- **The older reader of `KIP.py`** (modules `Kip`, `Ioctl`, `Events`).
  - `getEvtPacket` assembles a packet and resynchronises after SYN_DROPPED.
  - `getInput` decodes a packet into rotated coordinates and press/release flags.
  - The Linux `_IOC` request-number encoder and `EVIOCGRAB`, which `grabInput.py` repeats
    word for word, are defined once in `Ioctl`. Its contracts prove that every field
    decodes back by shift-and-mask.
- **The game rules of `minesweeper.py`** (modules `Grid`, `Numbers`, `Common`,
  `Minesweeper`, `Controls`):
  - board construction and `getCellNeighbours`;
  - the partial Fisher–Yates drawer `nonRepeatingNumbers`;
  - mine placement and neighbour counts;
  - moving the mine away from a first click;
  - the stack-based flood fill of `openMultiple` and `openCell`;
  - the hit tests `getCellTouched` and `isSmileTouched`;
  - the time debouncer.

  `Game` is a class. A board is `seq<seq<Cell>>` indexed `cells[y][x]`.
- **The presentation decisions of `draw.py`** (module `Draw`):
  - which image each cell shows;
  - what the three-slot counters show;
  - the geometry that `drawCell` and `drawSmile` record, which the hit tests read back.

  Each `displayImage` call becomes a `Placement` value.

The central results:
- The first click never opens a mine (`Minesweeper.FirstClickIsSafe`).
- Every count is right after `createGame` (`Minesweeper.CreateGame`) and stays right after
  every click (`Minesweeper.ClickKeepsConsistent`).
- The flood fill clears every zero it opens, and on a consistent board it opens no mine
  (`Minesweeper.FloodFillSpec`).
- The counter reads back as the clamped number (`Draw.DisplayReadsBack`).
- Packets are framed correctly (`Framing.FramedPackets`), and listeners are dispatched in
  the source's order with exactly one of Tap or HoldEnd (`Gesture.DispatchOrder`,
  `Gesture.TapOrHold`).

Three quirks of the code are kept as written:
- `removeKoboInputListener` always filters `onTouchStart`, whatever list was named.
- A rotated coordinate is written only when it is non-zero.
- `hitMine` is read by `drawSmile` but set nowhere, so the dead face is never shown by the
  game itself.

Three behaviours of the code worth knowing:
- `_task` has no separate discarding state. SYN_DROPPED only empties the buffer, and the
  packet it closes is that event alone.
- `_readPacket` treats a coordinate of exactly 0 as absent (`Gesture.ZeroCoordinateIgnored`).
- `_readPacket` reads only the multi-touch position codes. Single-touch `ABS_X`/`ABS_Y`
  events leave the coordinates unchanged (`Gesture.ScanPositions`).

## Model

| member | source | states |
|---|---|---|
| Ioctl.Pack | KIP.py:61-66 | once the fields fit their masks, each of dir, type, nr and size is recovered from the 32-bit result by shift-and-mask |
| Ioctl.Ioc | grabInput.py:37-42 | fails exactly when a field exceeds its mask, reporting the first failing assert's value in the order dir, type, nr, size (each of the four error cases stated); otherwise every field decodes back |
| Ioctl.IocTypecheck | grabInput.py:31-34 | succeeds with the size exactly when it fits 14 bits, else fails with that size |
| Ioctl.Iow | KIP.py:51-52 | succeeds exactly when type, nr and size fit, else fails with the first of size, type, nr that does not; on success the direction field decodes as IOC_WRITE, the type and nr fields as given and the size field as the type's size |
| Ioctl.EvIocGrab | grabInput.py:45 | ignores its argument and equals IOW('E', 0x90, 4-byte int) = 0x40044590 |
| Kip.GetEvtPacket | KIP.py:98-125 | reads up to the first SYN_REPORT or the end of input; returns exactly the events read iff that report was reached with no SYN_DROPPED among them, else None |
| Kip.GetInput | KIP.py:127-180 | NoInput exactly when getEvtPacket fails; otherwise rx = viewWidth - last Y + 1 and ry = last X (single- or multi-touch code, -1 when absent), and each flag is set iff some event sets it |
| Kip.RotationExample | KIP.py:156-180 | raw (100, 200) on a 1080-wide view decodes to screen (881, 100) |
| Kip.PressedAndReleased | KIP.py:149-177 | one packet can set both the pressed and the released flag |
| Gesture.SwipeDirection | koboInput.py:93-110 | no direction iff the dominant delta is below the dead zone; horizontal iff abs dx > abs dy strictly; Right iff start X < current X, Down iff start Y < current Y |
| Gesture.SwipeBoundary | koboInput.py:97-106 | a delta one below the dead zone is no swipe; a delta equal to it is one |
| Gesture.InvokeKinds | koboInput.py:170-171 | looping over a listener list makes calls of that list's kind only, and makes some iff the list is not empty |
| Gesture.ScanPositions | koboInput.py:147-153 | the scan keeps the last multi-touch X and Y; moveUpdated iff the packet has a position event |
| Gesture.ScanTransitions | koboInput.py:139-146 | start/end flagged only by BTN_TOUCH 1/0; every change of isTouching is flagged; the start time moves to now iff a start was flagged |
| Gesture.TouchButtonStep | koboInput.py:139-146 | BTN_TOUCH 1 starts a touch iff idle, 0 ends one iff touching, and isTouching follows |
| Gesture.RotationWrites | koboInput.py:155-165 | currentY becomes the last raw X and currentX becomes viewWidth - rawY + 1, each only when non-zero |
| Gesture.StartPointOnlyOnStart | koboInput.py:167-169 | after a flagged touch start the start point is the rotated current point; without one it is unchanged; so it moves only on a packet with a touch-down |
| Gesture.EndCallsOrdered | koboInput.py:173-189 | touch-end calls run TouchEnd, then Tap or HoldEnd, then Swipe |
| Gesture.DispatchOrder | koboInput.py:167-193 | within a packet: TouchStart, TouchEnd, Tap/HoldEnd, Swipe, TouchMove last |
| Gesture.EndCallKinds | koboInput.py:173-183 | on touch-end, Tap is dispatched iff held < holdDelayMs and HoldEnd iff held >= holdDelayMs, each given a listener of that kind |
| Gesture.TapOrHold | koboInput.py:173-183 | Tap or HoldEnd appears only on a touch-end, chosen by the hold time since the touch started (given a listener), and never both |
| Gesture.EndSwipe | koboInput.py:185-189 | on touch-end, Swipe listeners run iff `_getSwipeDirection` finds a direction and there is a Swipe listener, each given that direction, the start point and the current point |
| Gesture.SwipeOnRelease | koboInput.py:130-193 | a packet dispatches Swipe iff it ends a touch, the updated state has a swipe direction and there is a Swipe listener; each Swipe call carries that direction and the updated start and current points |
| Gesture.MoveWhenPositioned | koboInput.py:191-193 | TouchMove runs iff the packet holds a position event, whether touching or not |
| Gesture.ZeroCoordinateIgnored | koboInput.py:156-162 | a raw X of 0 leaves currentY unchanged while TouchMove still runs |
| Gesture.PressAndQuickRelease | koboInput.py:130-193 | press at raw (100, 200) then release after 50 ms gives TouchStart, TouchMove, TouchEnd and Tap at (881, 100), with no HoldEnd and no Swipe |
| Gesture.TapAndSwipeTogether | koboInput.py:173-189 | a quick release 60 to the right dispatches TouchEnd, Tap and a Right swipe together |
| Framing.FramedPackets | koboInput.py:224-230 | every packet is non-EV_SYN events closed by one EV_SYN event; a packet holding SYN_DROPPED is that event alone; the buffer holds no EV_SYN event and is empty after a stream ending in EV_SYN; one packet per EV_SYN event |
| Framing.FrameEventKeeps | koboInput.py:224-230 | one loop pass on an event other than SYN_DROPPED appends that event to the packets followed by the buffer |
| Framing.NoLossWithoutDrops | koboInput.py:224-230 | without SYN_DROPPED the packets followed by the buffer are exactly the stream |
| TouchInput.KoboInput.constructor | koboInput.py:56-77 | init set, holdDelayMs 200, swipeDeadZone 40, touch fields zero, the given viewWidth and grabInput, six empty lists |
| TouchInput.KoboInput.ListenerList | koboInput.py:237-247 | a list is found iff the name is one of the six listener names |
| TouchInput.KoboInput.SetListenerList | koboInput.py:269 | the named list becomes the given one and nothing else changes |
| TouchInput.KoboInput.ScanEvents | koboInput.py:138-153 | the event loop leaves the locals and isTouching/touchStartTime as ScanPacket does |
| TouchInput.KoboInput.ApplyRotation | koboInput.py:155-165 | the coordinates become Rotate of the old ones |
| TouchInput.KoboInput.Dispatch | koboInput.py:167-193 | the calls are PacketCalls of the updated state and the three flags |
| TouchInput.KoboInput.UpdateTouch | koboInput.py:130-169 | the touch fields become ReadPacketSpec's new state and the flags are the scan's |
| TouchInput.KoboInput.ReadPacket | koboInput.py:130-193 | new touch fields and calls are ReadPacketSpec's; settings, lists and init unchanged |
| TouchInput.RunTaskFrames | koboInput.py:218-230 | the packets _task decodes are the framing of the stream |
| TouchInput.HandleEvent | koboInput.py:224-230 | one loop pass is TaskStep: buffer (SYN_DROPPED clearing first), decode on EV_SYN |
| TouchInput.Task | koboInput.py:214-230 | the packets, calls and touch state are those of RunTask, and the packets are Frame(events) |
| TouchInput.Without | koboInput.py:267-268 | keeps exactly the elements not equal to func |
| TouchInput.WithoutAppend | koboInput.py:267-268 | filtering distributes over concatenation, so order is kept |
| TouchInput.WithoutAbsent | koboInput.py:267-268 | filtering out an absent element changes nothing |
| TouchInput.AddListener | koboInput.py:233-249 | appends func to the named list and returns it iff the input object exists and the name is a listener list; else None and no list changes |
| TouchInput.RemoveListener | koboInput.py:252-270 | true iff the input object exists and the name is a listener list; then the named list becomes onTouchStart without func and no other list changes; else nothing changes |
| TouchInput.RemoveFromWrongList | koboInput.py:252-270 | removing a listener from onTap leaves onTap holding onTouchStart's listener, a repeated removal still reports success, and adding under the name `init` fails |
| TouchInput.CloseKoboInput | koboInput.py:196-211 | when the input object exists, all six lists are emptied and init is cleared; touch state and settings are kept |
| Grid.GenerateGrid | minesweeper.py:40-41 | y rows of x fresh cells, cells[j][i] at (x=i, y=j) |
| Grid.SquareNeighboursFrom | minesweeper.py:29-38 | from candidate k on, the neighbours are the adjacent cells with offset index >= k, distinct |
| Grid.SquareNeighbours | minesweeper.py:29-38 | on a square board: never raises; exactly the in-bounds cells at Chebyshev distance 1, each once, never (x, y), at most 8 |
| Grid.NonSquareNeighboursRaise | minesweeper.py:35-36 | on 3 rows of 2 cells the swapped bounds test reads past a row, raising IndexError |
| Grid.Neighbours | minesweeper.py:29-38 | every neighbour is in bounds |
| Grid.NeighboursSpec | minesweeper.py:29-38 | membership is exactly adjacency, without repeats |
| Grid.NeighbourSymmetric | minesweeper.py:29-38 | q neighbours p iff p neighbours q |
| Grid.CountAroundIsCard | minesweeper.py:61-65 | adding one per listed neighbouring mine gives the number of mines around the cell |
| Grid.NoMinesOnNewBoard | minesweeper.py:40-41 | a new n by n board is square and has no mines |
| Grid.SetMine | minesweeper.py:54 | setting or clearing one mine flag adds or removes exactly that mine |
| Grid.SetOpen | minesweeper.py:100 | opening one cell adds exactly that cell to the open ones |
| Grid.FirstFreeFromIsFirst | minesweeper.py:69-78 | the search from (x, y) returns the first mine-free cell row by row |
| Grid.FirstFreeIsFirst | minesweeper.py:69-78 | the found cell is the first mine-free cell row by row; none iff every cell holds a mine |
| Grid.OpeningKeepsMines | minesweeper.py:89-104 | opening cells changes neither the mines nor the correctness of the counts |
| Grid.MovingKeepsOpen | minesweeper.py:67-85 | moving mines and counts changes neither open cells nor flags |
| Common.Game.constructor | common.py:17-27 | the given board, sizes and mine count, all other fields at their defaults |
| Numbers.NumberDrawer.constructor | minesweeper.py:13-14 | the array is 0 .. n-1 and nothing is drawn |
| Numbers.NumberDrawer.GetNumber | minesweeper.py:16-25 | with maxNumber > 0: returns array[r], swaps it into slot maxNumber-1 and decrements, which is one DrawStep; None when maxNumber < 0; ValueError when 0; the result is new and below n |
| Numbers.NumberDrawer.DrawnDistinct | minesweeper.py:13-27 | all numbers drawn are distinct and in 0 .. n-1 |
| Controls.TouchedFromIsFirst | minesweeper.py:143-151 | the search from (x, y) returns the first covering cell row by row |
| Controls.TouchedIsFirst | minesweeper.py:143-151 | the touched cell is the first, row by row, whose inclusive square holds the point; none iff no square holds it |
| Controls.CellTouched | minesweeper.py:143-151 | the nested loop returns Touched(cells, x, y) |
| Controls.IsSmileTouched | minesweeper.py:153-157 | true iff the point is in the inclusive smile rectangle |
| Controls.LastIsLastAccepted | minesweeper.py:159-169 | the kept time is the creation time or the last accepted touch |
| Controls.AcceptedAreSpaced | minesweeper.py:162-168 | each accepted touch comes at least timeMs after the previous one (or after creation) |
| Controls.AcceptedApart | minesweeper.py:159-169 | with timeMs >= 0, any two accepted touches are at least timeMs apart |
| Controls.Debouncer.constructor | minesweeper.py:159-160 | lastTouchTime starts at the creation time |
| Controls.Debouncer.Check | minesweeper.py:162-168 | bounces iff last + timeMs > now; otherwise now becomes the last accepted time |
| Minesweeper.MinePosInBounds | minesweeper.py:51-54 | a draw below n*n names an in-bounds cell |
| Minesweeper.MinePosInjective | minesweeper.py:51-54 | distinct draws name distinct cells |
| Minesweeper.NewMine | minesweeper.py:44-56 | a number not drawn before names a cell not marked before |
| Minesweeper.SetMineFlag | minesweeper.py:54 | sets one mine flag; only mines differ and the mine set changes by that cell |
| Minesweeper.PlaceNext | minesweeper.py:47-56 | one round marks a new in-bounds cell and adds exactly that mine, or raises ValueError once the drawer is empty |
| Minesweeper.PlaceRound | minesweeper.py:47-56 | one loop round extends the placed cells by the cell of draw `randoms[k]`, keeping the board and drawer in step with Draws; it fails with ValueError iff every cell is already mined |
| Minesweeper.DrawnNext | minesweeper.py:47-56 | drawing `randoms[k]` after the first k draws gives the first k + 1 draws, and the new cell is the one the new number names |
| Minesweeper.PlaceMines | minesweeper.py:43-58 | fails iff the board is empty (IndexError) or mines exceed cells (ValueError); else returns that many distinct in-bounds cells, the i-th being the cell named by the i-th number drawn with the indices `randoms`, and the mines gained are exactly them |
| Minesweeper.PlacedAreDrawn | minesweeper.py:43-58 | the placed cells are exactly the cells the drawn numbers name |
| Minesweeper.AddAllEffect | minesweeper.py:64-65 | adding delta to a list of distinct cells changes exactly their counts, by delta |
| Minesweeper.AddToCell | minesweeper.py:65 | one cell's number grows by delta |
| Minesweeper.AddToEach | minesweeper.py:64-65 | the board is AddAll of the neighbours |
| Minesweeper.PlaceNumbers | minesweeper.py:61-65 | every cell's number grows by how many listed cells it neighbours; nothing else changes |
| Minesweeper.CountsAreConsistent | minesweeper.py:131-135 | counting the placed mines into zero counts makes every count right |
| Minesweeper.LayMines | minesweeper.py:133-134 | on success every count is right, there are exactly `mines` mines, and they are the cells the indices `randoms` draw |
| Minesweeper.CreateGame | minesweeper.py:131-135 | fails iff the board is empty or too small for the mines; else a fresh game whose counts are right, with exactly `mines` mines, at the cells the indices `randoms` draw, nothing open or flagged, and zero counters |
| Minesweeper.FindFree | minesweeper.py:69-80 | the row-by-row search returns FirstFree |
| Minesweeper.MoveKeepsConsistent | minesweeper.py:67-85 | moving a mine to a free cell and fixing both neighbourhoods keeps every count right |
| Minesweeper.FlipEffect | minesweeper.py:73-85 | flipping a mine changes only that mine and the counts of its neighbours, by one |
| Minesweeper.FlipMine | minesweeper.py:73-85 | the board becomes Flip of the old one |
| Minesweeper.MovedFlips | minesweeper.py:67-85 | moveMine adds the first free cell's mine, removes c's, and shifts the counts around both by one |
| Minesweeper.MovedMine | minesweeper.py:67-85 | as MovedFlips; when c held a mine, right counts stay right, and the mine count is kept if a free cell exists |
| Minesweeper.MoveMine | minesweeper.py:67-85 | the board becomes Moved of the old one |
| Minesweeper.OpenAt | minesweeper.py:100 | opens one cell |
| Minesweeper.OpenListKeeps | minesweeper.py:98-104 | the inner loop changes nothing but isOpen |
| Minesweeper.OpenListOpens | minesweeper.py:98-104 | afterwards the open cells are exactly those open before plus every unflagged neighbour |
| Minesweeper.OpenListCount | minesweeper.py:98-104 | the inner loop counts each newly opened cell exactly once |
| Minesweeper.PushedAreOpenedZeros | minesweeper.py:98-103 | pushed iff newly opened with number zero |
| Minesweeper.OpenNeighbour | minesweeper.py:99-103 | opens, counts and pushes q exactly when it is neither flagged nor open (push only for zero) |
| Minesweeper.OpenEach | minesweeper.py:98-104 | the inner loop's board, pushes and count are OpenList, Pushed and OpenCount |
| Minesweeper.PoppedCleared | minesweeper.py:95-104 | after its neighbours are processed, a popped cell has every neighbour open or flagged |
| Minesweeper.ZeroHasNoMinesAround | minesweeper.py:102-103 | on a consistent board no neighbour of a zero is a mine |
| Minesweeper.RoundProgress | minesweeper.py:94-104 | each round opens a cell or pushes nothing, so the loop terminates |
| Minesweeper.FloodStep | minesweeper.py:94-104 | one round keeps the flood invariant and counts what it opens |
| Minesweeper.FloodStart | minesweeper.py:90-92 | opening and pushing c establishes the flood invariant |
| Minesweeper.FloodFromInv | minesweeper.py:94-104 | running the loop to the end keeps the invariant and counts every cell opened |
| Minesweeper.FloodFillSpec | minesweeper.py:89-104 | c and every opened zero end with all neighbours open or flagged; no flagged cell but c opened; only isOpen changes, nothing closes; on a consistent board from a safe zero no mine opens |
| Minesweeper.FloodFillCount | minesweeper.py:89-104 | the counter grows by the number of cells opened besides c |
| Minesweeper.FloodRound | minesweeper.py:95-104 | one round preserves the final board and total count and decreases (closed cells, stack size) |
| Minesweeper.FloodLoop | minesweeper.py:94-104 | the loop ends on FloodFrom's board, counting FloodCount |
| Minesweeper.OpenMultiple | minesweeper.py:89-104 | the board is FloodFill's and the counter grows by the cells opened besides c |
| Minesweeper.FirstMovedClears | minesweeper.py:107-111 | after the first-click move c holds no mine, open cells and flags are unchanged, and counts stay right |
| Minesweeper.ClickOnlyOpens | minesweeper.py:106-127 | after the move a click only opens cells, and opens c if it is closed and unflagged |
| Minesweeper.ClickKeepsConsistent | minesweeper.py:106-127 | a click keeps counts right, and keeps the mine count unless a first click on a mine finds no free cell |
| Minesweeper.FirstClickIsSafe | minesweeper.py:107-111 | the first click never hits a mine, and opens c unless it is flagged |
| Minesweeper.SafeOpenOpensNoMine | minesweeper.py:114-124 | opening a closed, unflagged, mine-free cell on a consistent board opens no mine |
| Minesweeper.SafeClickOpensNoMine | minesweeper.py:106-127 | a click that does not hit a mine opens no mine at all |
| Minesweeper.FirstClickOnMoved | minesweeper.py:107-111 | the recursive call after the move acts as the original click |
| Minesweeper.NoMoveNeeded | minesweeper.py:107-114 | without a mine under c, or after the first click, nothing is moved |
| Minesweeper.ChosenClick | minesweeper.py:114-124 | flagged/open: no change; mine: opened and game over, not counted; number: opened, counted once; zero: flood, counted 1 + cells flooded |
| Minesweeper.OpenChosen | minesweeper.py:114-124 | the board, gameOver and counter are Clicked, HitsMine and ClickCount |
| Minesweeper.FirstClickOnMine | minesweeper.py:107-111 | move then click again: one click counted, gameOver unchanged |
| Minesweeper.OpenCell | minesweeper.py:106-127 | board is Clicked; clicks grows by exactly 1; gameOver set iff a mine is hit; counter grows by ClickCount |
| Draw.CellImageCases | draw.py:27-43 | each image stands for exactly one cell state: flag, hidden, mine, count 1-8, empty open |
| Draw.Str | draw.py:70 | Python's str: digits with an optional leading minus |
| Draw.Slot | draw.py:77-90 | a slot shows a digit or a minus |
| Draw.SlotImage | draw.py:78-90 | one pass of the loop picks the blank for '-', number_d for digit d, number_0 for padding |
| Draw.DrawDotDisplay | draw.py:60-91 | exactly three placements, slot i at x = start + i*digitWidth, y 120, showing the clamped number right-aligned |
| Draw.DigitsRoundTrip | draw.py:70 | the decimal digits read back as the number |
| Draw.StrReadsBack | draw.py:68-71 | str of a number in -99..999 has at most 3 characters and reads back as it |
| Draw.ShownIsPadded | draw.py:71-90 | the three slots are zero padding followed by str of the clamped number |
| Draw.DisplayReadsBack | draw.py:68-91 | the counter always fills three slots and reads back as the number clamped to -99..999 |
| Draw.GlyphImagesDistinct | draw.py:78-90 | distinct characters get distinct images |
| Draw.DrawSmile | draw.py:94-111 | records as smileRect exactly the square the face is drawn in, which isSmileTouched tests; the face is dead iff over and hitMine, win iff over otherwise, play when not over |
| Draw.ScreenLayout | draw.py:60-111 | the smiley is centred within a pixel and its rectangle holds its centre; on screens at least 200 wide the counters and smiley do not overlap |
| Draw.DrawCell | draw.py:114-136 | records on the cell the square it is drawn in (n equal squares per row starting 50 from the left; the board is centred vertically, then shifted down 60) and draws the image for the cell's state in exactly that square; no other cell changes |
| Draw.DrawBoard | minesweeper.py:137-141 | every cell gets its drawn square and the smile rectangle is recorded; nothing else changes |
| Draw.TouchInsideCell | minesweeper.py:143-151 | on a drawn board, a touch strictly inside a cell's square selects that cell |

## Left out

- Device I/O is not modelled: opening and reading the event device, `struct.unpack` of the
  `llHHI` record, closing the file, and the `ioctl` grab/ungrab calls. Events arrive as a
  finite sequence of records, and running off its end stands for a failed read.
- Event fields are unbounded integers. The source unpacks `value` as an unsigned 32-bit
  integer, so negative values, which the model admits, cannot occur there.
- Listeners are taken to return normally and to leave the `KoboInput` object alone; each
  call is recorded, not run. In the source a listener that raises skips the listeners after
  it and ends `_readPacket` and the `_task` thread (koboInput.py:170-193, 229). A listener
  that calls `addKoboInputListener` on the list being looped over gets the new listener run
  in the same loop. One that calls `closeKoboInput` empties the lists still to be looped
  over (koboInput.py:205-210).
- Threads are not modelled. `initKoboInput` starts `_task` on a thread, and
  `TouchInput.Task` runs the loop over a finite stream. The `while init` condition and
  `getKoboInputObject` are not modelled.
- Clocks become integer milliseconds passed in. `time.time() * 1000` is a float in the
  source; the model does not capture sub-millisecond fractions. `_readPacket` reads the
  clock once at the touch start (koboInput.py:143) and again at the touch end
  (koboInput.py:174); the model passes one reading per packet, which both use.
- Controls.Debouncer.Check: compares integer millisecond readings, not the source's float
  readings. The source reads the clock twice, once for the comparison (minesweeper.py:164)
  and again for the stored time (minesweeper.py:167); the model uses one reading for both.
- `randrange` becomes a parameter. The drawn index is given to
  `Numbers.NumberDrawer.GetNumber`, and `Minesweeper.PlaceMines` receives the whole
  sequence of indices.
- Rendering is not modelled: `displayImage`, FBInk/PIL, refresh control, `drawCellsBatch`,
  `initDraw`/`closeDraw` and `getScreenSize`. The screen size is a parameter. Each
  `displayImage` call is a `Placement` without the `{path}/assets/` prefix.
- `drawCell` calls are dropped where they only redraw: inside `openMultiple` and `openCell`,
  and the placements of `drawBoard`. `Draw.DrawBoard` records the geometry but returns no
  placements.
- `math.floor(a / b)` on Python floats is modelled as Dafny integer division. The two agree
  because every divisor is positive; float rounding is not modelled.
- `main` and its argument parsing are not modelled.
- Every `print` is left out.
- `stack.py` is not part of this model. Its `Stack` is a sequence whose end is the top.
- A `Cell` is a value stored in the board, and the cell objects of the source are
  identified with their board positions. This holds because each board holds distinct cell
  objects that are reached only through the board.
- Minesweeper.CreateGame: requires a square board (`x == y`). On other boards
  `getCellNeighbours` and `placeMines` swap row and column. `Grid.NonSquareNeighboursRaise`
  shows the resulting IndexError, but the rest of the non-square behaviour is not modelled.
- Minesweeper.PlaceMines: the `randomNumber == None` branch cannot be reached, because the
  drawer's count never goes below zero. The model shows it is dead rather than modelling it.
- Kip.GetInput: the `getEvAttempts > 4` branch is not modelled, because the counter is a
  local that is always 0 there.
- Ioctl.Ioc: fields are natural numbers. A negative field passes the source's asserts and
  gives a negative Python integer; that case is not modelled.
- `ctypes.sizeof(ctypes.c_int)` is the constant 4.
