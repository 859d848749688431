# chess_fracture: the move-to-timeline compiler, modelled in Dafny

`blender/chess_fracture.py` turns a chess game into a Blender animation:
every piece is an object on a 3D board, every move becomes location
keyframes, and a captured piece is replaced by the fragment cells of a
fracture, which fall apart under rigid-body physics. This project models
the part of the script that decides *what is recorded where*:

- `chess_to_coordinates`: a square's centre in scene units (module `Chess`,
  `chess.dfy`).
- The board map (square to piece object) and what each move does to it.
  This covers castling with its rook table, a capture, and a simple move,
  with the lookups that fail (module `Board`, `board.dfy`). `Replay` plays a
  whole list of moves. `Horizon` says how many moves the loop processes
  before a promotion or the test cutoff stops it.
- The keyframe store: a map from (object, property, frame) to the value
  recorded there (module `Timeline`, `timeline.dfy`). A later write to the
  same entry overwrites an earlier one. `CaptureKeys` writes a capture's
  keyframes in the order the script writes them. For a capture at frame c
  those frames are c (capturer), c and c + 1 (victim), c (cells), 0 and
  c - 1 (victim), then c - 1, c, 0 and c - 1 (cells), and finally
  c + frames_per_move (capturer).
- The scene (class `Scenes.Scene`, `scene.dfy`). Its fields are the board
  map, the current frame, the keyframe store, each object's current location
  and flag properties, the kind and owner of each piece object, and the next
  unused object identity. Its methods make the script's state changes in
  the script's order:
  - `InitialSetup` builds the starting position (`initial_setup`).
  - `InstantiatePiece` creates and keyframes one piece.
  - `Castle`, `Capture` and `SimpleMove` are the three branches of the move
    loop.
  - `Promote` is the promotion step.
  - `Play` is the loop itself.

Each branch method is proved against the pure definitions: its new board is
`MoveBoard` of the old one, and its keyframes are the listed writes, or
`CaptureKeys`. The lemmas then say what those definitions mean:
- which squares are occupied, and by whom;
- how many pieces remain;
- that no piece stands on two squares;
- which value every slot of the victim and of each fragment cell holds after
  a capture, and that nothing else of theirs changes;
- that a game reports exactly the replay of the moves it processed.

The chess library's classification of a move (capture, castling, promotion)
is an input: the fields of `Board.Move`. So is the number of cells the
fracture operator produces. The environment switch for the test cutoff
becomes the parameter `test` of `Play`.

Behaviour worth noting in the code:
- The captured piece is switched to non-kinematic at c + 1 (lines 269-272).
  No later keyframe switches it back to kinematic.
- An en-passant capture is not handled like other captures. The code looks
  up the victim on the target square (line 267), which is empty in en
  passant, so the lookup fails. The model reports this as
  `MissingOccupant(to)` after the capturer's location keyframe at line 266.
- A castling target outside the rook table does not raise a dedicated error.
  The name `rook_from` is simply left unbound (lines 228-240). The model
  reports `UnboundRook(to)`.
- The early stop is not a configurable move limit. It happens only when a
  test run has passed move index 10 (line 393).

## Model

| member | source | states |
|---|---|---|
| Chess.ChessToCoordinates | blender/chess_fracture.py:36-40 | x is (file index + 0.5) * 3.0 and y is (rank index + 0.5) * 3.0, z passes through, and the point lies strictly inside the 24 x 24 board |
| Chess.Height | blender/chess_fracture.py:26-33 | each kind's centre-of-gravity height above the board, the six `Z_MAP` constants |
| Chess.PlaceInjective | blender/chess_fracture.py:36-40 | two squares have the same (x, y) centre if and only if they are the same square, whatever the heights |
| Board.CastlingRook | blender/chess_fracture.py:228-239 | a rook entry exists exactly for g1, c1, g8 and c8; the rook starts in the corner on the king's side, on the king's rank, and lands on the square next to the king's target, towards the e-file |
| Board.MoveBoard | blender/chess_fracture.py:225-370 | the board map after one move: castling, capture or simple move, chosen in that order, with the lookups that raise as errors; `SimpleMoveBoard`, `CastlingBoard` and `CaptureBoard` state what each branch yields |
| Board.SimpleMoveBoard | blender/chess_fracture.py:356-370 | a simple move fails exactly when its origin is empty; otherwise the target maps to the mover, the origin is gone, every other square is unchanged, and the count is kept when the target was empty |
| Board.CastlingBoard | blender/chess_fracture.py:225-261 | castling fails at the king lookup, at an unknown target, at the rook lookup, or at the second pop; otherwise king and rook land on their destinations, both origins are gone, nothing else changes, and a legal castling keeps the count |
| Board.CaptureBoard | blender/chess_fracture.py:264-354 | a capture fails when its origin is empty, or when its target is empty (en passant); otherwise the capturer replaces the victim, the origin is gone, nothing else changes, and the count drops by exactly one |
| Board.MoveKeepsInjective | blender/chess_fracture.py:256-261 | a move that succeeds never puts one piece object on two squares |
| Board.Replay | blender/chess_fracture.py:211-370 | the board after applying a list of moves one by one, or the first move that fails with its index, which is always inside the list |
| Board.ReplayNext | blender/chess_fracture.py:211-213 | replaying one more move applies that move to the board reached so far, and fails at that move's index when it fails |
| Board.ReplayCrashStays | blender/chess_fracture.py:211-213 | once a prefix of the moves fails, the whole list fails at the same move with the same error |
| Board.ReplayCount | blender/chess_fracture.py:211-370 | a list of moves each of which fits its board never fails, and ends with the starting count less one per capture |
| Board.ReplayKeepsInjective | blender/chess_fracture.py:211-370 | replaying any list that succeeds keeps every piece object on at most one square |
| Board.HorizonFrom | blender/chess_fracture.py:372-395 | the moves processed from index i run up to and including the first promoting move, or the first move past index 10 of a test run; if there is none, they run to the end of the list |
| Board.Horizon | blender/chess_fracture.py:372-395 | the number of moves a game processes: `HorizonFrom` from move 0 |
| Board.HaltAfter | blender/chess_fracture.py:372-395 | why processing stopped after n moves: the last processed move promoted, or it was past index 10 in a test run, or else the list ran out |
| Board.TestHorizon | blender/chess_fracture.py:393-395 | a test run processes at most twelve moves |
| Timeline.CellWritesAt | blender/chess_fracture.py:286-288 | one pass over the cells records exactly one entry per cell, on the given property and frame, all with the same value |
| Timeline.VictimStaged | blender/chess_fracture.py:266-308 | the capture's writes up to the victim's retirement, in script order: capturer's location at c, victim's kinematic value as it stands at c and false at c + 1, cells kinematic at c, victim shown at 0 and hidden at c - 1; `VictimStagedAt` states the result entry by entry |
| Timeline.CellsStaged | blender/chess_fracture.py:313-338 | the four cell passes in script order, at c - 1, c, 0 and c - 1; `CellsStagedAt` states the result entry by entry |
| Timeline.CaptureKeys | blender/chess_fracture.py:266-347 | the whole capture's writes in script order, ending with the capturer's new location at c + frames_per_move; `CaptureVictimTimeline`, `CaptureCellTimeline`, `CaptureMoverTimeline` and `CaptureTouchesOnlyItsObjects` state what it leaves |
| Timeline.VictimStagedAt | blender/chess_fracture.py:266-308 | the writes up to the victim's retirement: the capturer's location at c, each victim slot at its value, the cells kinematic at c, nothing else touched |
| Timeline.CellsStagedAt | blender/chess_fracture.py:313-338 | the four cell passes leave each cell's eight slots at their final values, and leave every other entry as it was |
| Timeline.CaptureVictimTimeline | blender/chess_fracture.py:267-308 | after a capture at frame c >= 2 the victim is shown and colliding at frame 0, hidden in viewport and render without collision at c - 1, kinematic as before at c and free at c + 1; no other entry of the victim changes |
| Timeline.CaptureAtFirstFrame | blender/chess_fracture.py:294-308 | a capture at frame 1 writes the victim's frame-0 hide, hide_render and collision keyframes as hidden, and each cell's frame-0 hide keyframes as shown: the c - 1 writes land on frame 0 and overwrite the frame-0 ones |
| Timeline.CaptureVictimAt | blender/chess_fracture.py:267-308 | the same, for one entry of the victim |
| Timeline.CaptureCellTimeline | blender/chess_fracture.py:286-338 | each cell is hidden at frame 0 and shown at c - 1, kinematic without collision at c - 1, and free with collision at c; the free value at c overwrites the kinematic one written there first; no other entry of the cell changes |
| Timeline.CaptureCellAt | blender/chess_fracture.py:286-338 | one of a cell's eight slots ends on its final value |
| Timeline.CaptureCellElsewhere | blender/chess_fracture.py:286-338 | every other entry of a cell is left as it was |
| Timeline.CaptureMoverTimeline | blender/chess_fracture.py:343-347 | the capturer is keyframed at its old location at c and at its new one at c + frames_per_move, and nothing else of it changes |
| Timeline.CaptureMoverInPlace | blender/chess_fracture.py:343-347 | with frames_per_move 0 the capturer's new location overwrites its old one at c, and nothing else of it changes |
| Timeline.CaptureMoverAt | blender/chess_fracture.py:266-338 | the writes before the capturer lands touch only the capturer's location at c |
| Timeline.CaptureTouchesOnlyItsObjects | blender/chess_fracture.py:264-354 | a capture writes nothing for objects other than the capturer, the victim and the cells |
| Scenes.VictimFlags | blender/chess_fracture.py:270-308 | the victim's flags after its retirement, with the cells made kinematic between, in script order |
| Scenes.CellsFlags | blender/chess_fracture.py:313-338 | the cells' flags after the four passes, in script order |
| Scenes.CaptureFlags | blender/chess_fracture.py:270-338 | all flag writes of a capture; `CaptureFlagsSettled` states the settled values |
| Scenes.SideToMove | blender/chess_fracture.py:373-374 | the side to move before move i, alternating from the first side, used as the promoted piece's owner |
| Scenes.CellFlagsAt | blender/chess_fracture.py:286-288 | one pass sets the property on exactly the cells, all to the same value |
| Scenes.CaptureFlagsSettled | blender/chess_fracture.py:270-338 | after a capture the victim is hidden, without collision and not kinematic; each cell is visible, colliding and free; every other object's flags are unchanged |
| Scenes.FreshIds | blender/chess_fracture.py:276 | the fracture's n cells are exactly the n identities from the next unused one on |
| Scenes.OnlyNewStep | blender/chess_fracture.py:52-73 | seating the piece with the next identity changes only that identity's piece, location and location keyframe at the set-up frame |
| Scenes.AllKinematicStep | blender/chess_fracture.py:185-186 | switching one more piece to kinematic adds exactly its Kinematic flag to the flags of the pieces switched so far |
| Scenes.SeatStep | blender/chess_fracture.py:106-107 | seating a new piece on an empty starting square keeps the partial set-up consistent |
| Scenes.PawnGroup | blender/chess_fracture.py:97-107 | the pawn group puts a pawn on ranks 2 and 7 of every file, white below rank 4 |
| Scenes.BackGroup | blender/chess_fracture.py:109-163 | each back-rank group puts its kind on ranks 1 and 8 of its files |
| Scenes.GroupReady | blender/chess_fracture.py:97-163 | each of the six groups places the right pieces, names each file and rank once, and overlaps no earlier group |
| Scenes.EarlierGroups | blender/chess_fracture.py:109-163 | no earlier group covers a square of a back-rank group |
| Scenes.GroupsTotal | blender/chess_fracture.py:96-163 | the six groups cover 32 squares |
| Scenes.SetupLayout | blender/chess_fracture.py:96-163 | the six groups cover exactly the squares of the starting position |
| Scenes.SetupDone | blender/chess_fracture.py:96-186 | after placement and the kinematic loop, exactly the starting squares are occupied, each seated with its starting piece, and the scene is consistent |
| Scenes.MoveConsistent | blender/chess_fracture.py:225-370 | a successful move keeps every occupant on a real square, known, located, kinematic and on one square |
| Scenes.CaptureConsistent | blender/chess_fracture.py:264-354 | a capture whose lookups succeed moves the capturer's entry onto the target and keeps the scene consistent, because the cells are new objects |
| Scenes.CrashWithin | blender/chess_fracture.py:211-396 | a move that fails inside the processed range makes the replay of that range fail at the same move |
| Scenes.HaltWithin | blender/chess_fracture.py:372-395 | a promoting move, or a move past index 10 of a test run, is the last one processed and names why |
| Scenes.RunOut | blender/chess_fracture.py:211-396 | with no halting move every move is processed and the game ends because the list is exhausted |
| Scenes.Scene.InstantiatePiece | blender/chess_fracture.py:52-73 | a new object of the given kind and owner at the square's centre, at the kind's height, with a location keyframe at the current frame |
| Scenes.Scene.KeyframeLocation | blender/chess_fracture.py:68 | records the object's current location at the current frame |
| Scenes.Scene.KeyframeFlag | blender/chess_fracture.py:288 | records the object's current flag value at the current frame |
| Scenes.Scene.SetFlag | blender/chess_fracture.py:287 | sets one flag property of one object |
| Scenes.Scene.Seat | blender/chess_fracture.py:101-107 | one piece placed on an empty starting square, white below rank 4, keeping the set-up consistent; it takes the next identity, and nothing but that identity's piece, location and location keyframe changes |
| Scenes.Scene.PlaceFile | blender/chess_fracture.py:100-107 | one piece on every square of one file in the group's ranks, one new identity each, and nothing else changes |
| Scenes.Scene.PlaceGroup | blender/chess_fracture.py:99-107 | one piece on every square of files x ranks, adding exactly those squares, one new identity each, and nothing else changes |
| Scenes.Scene.PlaceNth | blender/chess_fracture.py:97-163 | places group g on top of the earlier groups |
| Scenes.Scene.PlaceGroups | blender/chess_fracture.py:96-163 | the six groups in turn, covering exactly the squares of the first g groups after g of them; only the new identities' pieces, locations and location keyframes change |
| Scenes.Scene.MakeKinematic | blender/chess_fracture.py:185-186 | the flags are the old ones with Kinematic switched on for exactly the pieces on the board; nothing else changes |
| Scenes.Scene.Populate | blender/chess_fracture.py:89-182 | the starting squares are occupied by 32 new identities, the only keyframes added are their locations at frame 1, and the cursor ends at frame 1 after the nudges to 2 and 3 |
| Scenes.Scene.InitialSetup | blender/chess_fracture.py:89-189 | at frame 1, the 32 starting squares and no others are occupied, each by its starting piece at its centre and height with a location keyframe at frame 1; exactly 32 identities are used, the only keyframes added are those 32 locations, and exactly the pieces on the board become kinematic |
| Scenes.Scene.CellPass | blender/chess_fracture.py:286-288 | each cell's property set and keyframed at the current frame |
| Scenes.Scene.CellPass2 | blender/chess_fracture.py:314-325 | each cell's two properties set and keyframed at the current frame |
| Scenes.Scene.Pass2At | blender/chess_fracture.py:314-318 | one more cell of the two-property pass |
| Scenes.Scene.SetTwo | blender/chess_fracture.py:315-318 | two properties of one object set and keyframed, the first first |
| Scenes.Scene.Fracture | blender/chess_fracture.py:276-279 | n new cell objects with fresh identities, after the victim's kinematic keyframes |
| Scenes.Scene.FreeVictim | blender/chess_fracture.py:267-272 | the victim keyframed kinematic at c and non-kinematic at c + 1; the cursor returns to c |
| Scenes.Scene.ShowOrHide | blender/chess_fracture.py:294-308 | at the given frame, collision, hide and hide_render set and keyframed, as shown or as hidden |
| Scenes.Scene.RetireVictim | blender/chess_fracture.py:267-308 | in the script's order, the victim keyframed kinematic at c and free at c + 1, the fracture, the cells kinematic at c, then the victim shown at 0 and hidden at c - 1: the store is `VictimStaged` of the old one, the flags `VictimFlags`, the cells fresh, and the cursor ends at c - 1 |
| Scenes.Scene.StageCells | blender/chess_fracture.py:313-338 | the store is `CellsStaged` of the old one, and the cursor ends at c - 1 |
| Scenes.Scene.Shatter | blender/chess_fracture.py:267-338 | victim retirement (with the fracture) and cell staging together, with fresh cells |
| Scenes.Scene.Seize | blender/chess_fracture.py:267-347 | the store is `CaptureKeys`, the flags `CaptureFlags`, the capturer moves to the target, and the cursor ends at c + frames_per_move |
| Scenes.Scene.Arrive | blender/chess_fracture.py:343-347 | at the given frame, the piece moved to the target's centre at its old height, and keyframed |
| Scenes.Scene.MovePair | blender/chess_fracture.py:243-254 | king and rook keyframed where they stand, the cursor advanced one move, and both keyframed at their destinations at their old heights |
| Scenes.Scene.SimpleMove | blender/chess_fracture.py:356-370 | fails exactly as `MoveBoard` does, changing nothing; otherwise the board is `MoveBoard`, the cursor advances one move, and the mover is keyframed at its old location at c and at the target at c + frames_per_move |
| Scenes.Scene.Castle | blender/chess_fracture.py:225-261 | fails exactly as `MoveBoard` does; once the lookups succeed, four location keyframes at c and c + frames_per_move, and the board is `MoveBoard`, or the king's square removed when the second pop fails |
| Scenes.Scene.Capture | blender/chess_fracture.py:264-354 | fails exactly as `MoveBoard` does (an empty target, as in en passant, after the capturer's keyframe); otherwise the board is `MoveBoard`, the store `CaptureKeys`, the flags `CaptureFlags`, fresh cells, and the cursor at c + frames_per_move |
| Scenes.Scene.Take | blender/chess_fracture.py:267-354 | the capture once both lookups succeed, with the same new state as Capture |
| Scenes.Scene.Promote | blender/chess_fracture.py:372-381 | a new piece of the promoted kind, owned by the side that moved, on the target square, keyframed at the current frame, shadowing the pawn |
| Scenes.Scene.Step | blender/chess_fracture.py:225-370 | the branch chosen in the order castling, capture, simple move; fails exactly as `MoveBoard` does, otherwise the board is `MoveBoard` and the cursor advances one move |
| Scenes.Scene.Turn | blender/chess_fracture.py:211-395 | one iteration: a failed move reports its error and index; a promoting move, or one past index 10 of a test run, ends the game; any other move continues with the replayed board |
| Scenes.Scene.Play | blender/chess_fracture.py:207-396 | the game processes exactly the horizon of moves; it fails exactly when replaying them fails, with that error and index; otherwise it ends on the replayed board, plus the promoted piece after a promotion, with the cursor advanced one move per processed move |

## Left out

- Scene plumbing has no keyframe effect and is not modelled: clean-up of unused data, deletion of old objects, layers, `frame_end`, the ground plane and its material, and linking objects into the rigid-body world (lines 43-50, 77-88, 90, 165-178, 184, 71, 279).
- The physics-baseline nudges inside a capture (`frame_set(1)`, `frame_set(2)`, then back, lines 282-284) are left out: they only move the cursor and restore it. The set-up nudges at lines 180-182 are modelled as plain cursor writes.
- The fracture operator's geometry and the `_cell` name-prefix lookup (lines 276-279, 286 and following) are not modelled. `Fracture` returns fresh identities, as many as the move's `cells` field says, because `source_limit` only caps the count.
- Object names (lines 60-63, 380) and the templates copied by `instantiate_piece` are not modelled. A piece object is its identity, its kind and its owner.
- The chess library is not modelled: parsing, move classification, legality and `board.push` (lines 210-220, 391). The classification arrives as fields of `Board.Move`, and the side to move alternates from a given first side.
- En passant has no flag of its own. An en-passant move is a capture whose target is empty, and it fails at the victim lookup, as the code does.
- Printing, timing statistics, material assignment, PGN loading, environment parsing, the variant check and saving the file are I/O and are left out (lines 193-204, 222, 377, 387, 398-476).
- Rigid-body simulation is not modelled; only the recorded keyframes are.
- Collision groups are modelled as the single layer 0. `keyframe_insert('rigid_body.collision_groups')` (lines 296, 304, 318, 325) keys all 20 layers, but the script only ever sets layer 0. The other 19 are keyed at values the script never changes.
- The capture lemmas of `Timeline` that describe frames 0, c - 1 and c separately assume c >= 2. The first move is played at frame 1, and a capture can come at the earliest on the second move, at frame 1 + frames_per_move, which is at least 2 whenever frames_per_move >= 1. frames_per_move is read with `int()` from the environment (line 420), so 0 is possible. `Timeline.CaptureMoverTimeline` requires it to be non-zero because at 0 the capturer's two location keyframes are the same entry. `Timeline.CaptureMoverInPlace` states that case: the new location overwrites the old one. A capture at frame 1 makes c - 1 and 0 the same frame; `Timeline.CaptureAtFirstFrame` states what that frame then holds.
- Real numbers are exact here. The square size and the heights are the script's literals, so no rounding is involved.
- Scenes.Scene.Castle: an unknown castling target is modelled as the unbound-name error every time. In the code, a `rook_from` left over from an earlier castling in the same game would be reused instead. This cannot happen in standard chess, where every castling lands on g1, c1, g8 or c8.
- Scenes.Scene.Step: states the board, the cursor and consistency, but not the keyframes. The keyframes of each branch are stated by `Castle`, `Capture` and `SimpleMove`.
- Scenes.Scene.Turn: states the outcome, the board, the cursor and consistency, but not the keyframes, locations or flags of the iteration. These are stated by `Castle`, `Capture`, `SimpleMove` and `Promote`.
- Scenes.Scene.Play: states the outcome, the final board, the promoted piece and the cursor, but not the accumulated keyframe store of the whole game. Each move's keyframes are stated by the branch methods and the `Timeline` lemmas. After a promotion it does not promise consistency, because the code does not make the promoted piece kinematic.
- Scenes.Scene.Promote: does not make the new piece kinematic or physical, matching the code, which leaves this as a to-do (lines 383-387).
