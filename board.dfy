/** The board map (square to piece) and what one move, or a whole game,
    does to it. The scene methods in module Scenes are proved against
    these definitions. */
module Board {
  import opened Chess

  /** One move of the game, as the chess library classifies it.
      `cells` is the number of cell objects the fracture operator
      produces when this move captures. */
  datatype Move = Move(from: Square, to: Square, capture: bool, castling: bool,
                       promotion: Option<Kind>, cells: nat)

  predicate ValidMove(m: Move) { IsSquare(m.from) && IsSquare(m.to) }

  /** A lookup of an empty square in the board map, and the castling
      target that leaves the rook squares unbound. */
  datatype Error = MissingOccupant(square: Square) | UnboundRook(target: Square)

  datatype Result<T> = Ok(value: T) | Err(error: Error)

  ghost predicate Injective(b: map<Square, Id>)
  {
    forall s, t :: s in b && t in b && s != t ==> b[s] != b[t]
  }

  /** The rook's origin and destination for a castling king landing on `to`. */
  function CastlingRook(to: Square): (r: Option<(Square, Square)>)
    ensures r.Some? <==> to in {Square('g', '1'), Square('c', '1'), Square('g', '8'), Square('c', '8')}
    ensures r.Some? ==> IsSquare(r.value.0) && IsSquare(r.value.1)
    ensures r.Some? ==> r.value.0.rank == to.rank && r.value.1.rank == to.rank
    // the rook starts in the corner on the king's side of the e-file ...
    ensures r.Some? ==> r.value.0.file == (if to.file > 'e' then 'h' else 'a')
    // ... and lands next to the king, on the e-file's side of it
    ensures r.Some? ==> FileIndex(r.value.1.file) == FileIndex(to.file) + (if to.file > 'e' then -1 else 1)
  {
    if to == Square('g', '1') then Some((Square('h', '1'), Square('f', '1')))
    else if to == Square('c', '1') then Some((Square('a', '1'), Square('d', '1')))
    else if to == Square('g', '8') then Some((Square('h', '8'), Square('f', '8')))
    else if to == Square('c', '8') then Some((Square('a', '8'), Square('d', '8')))
    else None
  }

  /** The board map after move m, or the lookup that fails. The branches are
      tried in the order castling, capture, simple move. */
  function MoveBoard(b: map<Square, Id>, m: Move): Result<map<Square, Id>>
  {
    if m.castling then
      if m.from !in b then Err(MissingOccupant(m.from))
      else match CastlingRook(m.to)
        case None => Err(UnboundRook(m.to))
        case Some((rookFrom, rookDest)) =>
          if rookFrom !in b then Err(MissingOccupant(rookFrom))
          // the second pop finds rook_from already removed
          else if rookFrom == m.from then Err(MissingOccupant(rookFrom))
          else Ok((b - {m.from} - {rookFrom})[m.to := b[m.from]][rookDest := b[rookFrom]])
    else if m.capture then
      if m.from !in b then Err(MissingOccupant(m.from))
      else if m.to !in b then Err(MissingOccupant(m.to))
      else Ok(b[m.to := b[m.from]] - {m.from})
    else
      if m.from !in b then Err(MissingOccupant(m.from))
      else Ok(b[m.to := b[m.from]] - {m.from})
  }

  predicate IsCapture(m: Move) { !m.castling && m.capture }

  /** Move m is one a legal game would play on b: its origin is occupied,
      a capture's target is occupied, any other target is empty, and a
      castling's rook stands on its corner with its destination empty. */
  predicate Fits(b: map<Square, Id>, m: Move)
  {
    && m.from in b
    && (if m.castling then
          && CastlingRook(m.to).Some?
          && var (rookFrom, rookDest) := CastlingRook(m.to).value;
          && rookFrom in b && rookFrom != m.from && m.to !in b && rookDest !in b
        else if m.capture then m.to in b && m.to != m.from
        else m.to !in b)
  }

  /** A simple move succeeds exactly when its origin is occupied; the mover
      lands on the target, the origin empties and no other square changes. */
  lemma SimpleMoveBoard(b: map<Square, Id>, m: Move)
    requires !m.castling && !m.capture
    ensures MoveBoard(b, m).Ok? <==> m.from in b
    ensures m.from !in b ==> MoveBoard(b, m) == Err(MissingOccupant(m.from))
    ensures MoveBoard(b, m).Ok? && m.from != m.to ==>
      var r := MoveBoard(b, m).value;
      && r.Keys == b.Keys - {m.from} + {m.to}
      && r[m.to] == b[m.from]
      && (forall s :: s in r && s != m.to ==> r[s] == b[s])
    ensures Fits(b, m) ==> |MoveBoard(b, m).value| == |b|
  {
    if Fits(b, m) {
      var r := MoveBoard(b, m).value;
      assert r.Keys == b.Keys - {m.from} + {m.to};
    }
  }

  /** A castling fails at the king lookup, at an unrecognised target, at the
      rook lookup, or at the second pop; otherwise king and rook both move
      and their origins empty. */
  lemma CastlingBoard(b: map<Square, Id>, m: Move)
    requires m.castling
    ensures m.from !in b ==> MoveBoard(b, m) == Err(MissingOccupant(m.from))
    ensures m.from in b && CastlingRook(m.to).None? ==> MoveBoard(b, m) == Err(UnboundRook(m.to))
    ensures MoveBoard(b, m).Ok? <==>
      m.from in b && CastlingRook(m.to).Some? &&
      CastlingRook(m.to).value.0 in b && CastlingRook(m.to).value.0 != m.from
    ensures MoveBoard(b, m).Ok? ==>
      var (rookFrom, rookDest) := CastlingRook(m.to).value;
      var r := MoveBoard(b, m).value;
      && r.Keys == b.Keys - {m.from, rookFrom} + {m.to, rookDest}
      && r[m.to] == b[m.from] && r[rookDest] == b[rookFrom]
      && (forall s :: s in r && s != m.to && s != rookDest ==> r[s] == b[s])
    ensures Fits(b, m) ==>
      var (rookFrom, rookDest) := CastlingRook(m.to).value;
      var r := MoveBoard(b, m).value;
      m.from !in r && rookFrom !in r && |r| == |b|
  {
    if Fits(b, m) {
      var (rookFrom, rookDest) := CastlingRook(m.to).value;
      var r := MoveBoard(b, m).value;
      var b1 := b - {m.from} - {rookFrom};
      assert |b - {m.from}| == |b| - 1;
      assert |b1| == |b| - 2;
      assert |b1[m.to := b[m.from]]| == |b| - 1;
    }
  }

  /** A capture fails when its origin is empty, or when its target is empty
      (an en-passant capture, whose victim is not on the target square);
      otherwise the capturer replaces the victim and the count drops by one. */
  lemma CaptureBoard(b: map<Square, Id>, m: Move)
    requires IsCapture(m)
    ensures m.from !in b ==> MoveBoard(b, m) == Err(MissingOccupant(m.from))
    ensures m.from in b && m.to !in b ==> MoveBoard(b, m) == Err(MissingOccupant(m.to))
    ensures MoveBoard(b, m).Ok? <==> m.from in b && m.to in b
    ensures MoveBoard(b, m).Ok? && m.from != m.to ==>
      var r := MoveBoard(b, m).value;
      && r.Keys == b.Keys - {m.from}
      && r[m.to] == b[m.from]
      && (forall s :: s in r && s != m.to ==> r[s] == b[s])
      && |r| == |b| - 1
  {
    if MoveBoard(b, m).Ok? && m.from != m.to {
      var r := MoveBoard(b, m).value;
      assert r.Keys == b.Keys - {m.from};
    }
  }

  /** No piece ever stands on two squares. */
  lemma MoveKeepsInjective(b: map<Square, Id>, m: Move)
    requires Injective(b) && MoveBoard(b, m).Ok?
    ensures Injective(MoveBoard(b, m).value)
  {
  }

  /** The board map after playing a whole list of moves, or the first
      failing lookup and the index of its move. */
  datatype Run = Reached(board: map<Square, Id>) | Crashed(error: Error, at: nat)

  function Replay(b: map<Square, Id>, moves: seq<Move>): (r: Run)
    ensures r.Crashed? ==> r.at < |moves|
    decreases |moves|
  {
    if moves == [] then Reached(b)
    else
      var n := |moves| - 1;
      match Replay(b, moves[..n])
      case Crashed(e, i) => Crashed(e, i)
      case Reached(prev) =>
        match MoveBoard(prev, moves[n])
        case Err(e) => Crashed(e, n)
        case Ok(next) => Reached(next)
  }

  /** Replaying one more move runs that move on the board reached so far. */
  lemma ReplayNext(b: map<Square, Id>, moves: seq<Move>, i: nat)
    requires i < |moves| && Replay(b, moves[..i]).Reached?
    ensures var next := MoveBoard(Replay(b, moves[..i]).board, moves[i]);
      && (next.Ok? ==> Replay(b, moves[..i + 1]) == Reached(next.value))
      && (next.Err? ==> Replay(b, moves[..i + 1]) == Crashed(next.error, i))
  {
    assert moves[..i + 1][..i] == moves[..i];
  }

  /** Once a prefix fails, every longer list fails at the same move. */
  lemma {:induction false} ReplayCrashStays(b: map<Square, Id>, moves: seq<Move>, k: nat)
    requires k <= |moves| && Replay(b, moves[..k]).Crashed?
    ensures Replay(b, moves) == Replay(b, moves[..k])
    decreases |moves|
  {
    if k < |moves| {
      var n := |moves| - 1;
      assert moves[..n][..k] == moves[..k];
      ReplayCrashStays(b, moves[..n], k);
    } else {
      assert moves[..k] == moves;
    }
  }

  /** Every move of the list fits the board it is played on. */
  predicate Legal(b: map<Square, Id>, moves: seq<Move>)
    decreases |moves|
  {
    moves == [] ||
    var n := |moves| - 1;
    && Legal(b, moves[..n])
    && Replay(b, moves[..n]).Reached?
    && Fits(Replay(b, moves[..n]).board, moves[n])
  }

  function Captures(moves: seq<Move>): nat
    decreases |moves|
  {
    if moves == [] then 0
    else Captures(moves[..|moves| - 1]) + (if IsCapture(moves[|moves| - 1]) then 1 else 0)
  }

  /** A legal list of moves never fails, and each capture removes exactly
      one occupant: the board ends with as many occupants as it started
      with, less the captures. */
  lemma {:induction false} ReplayCount(b: map<Square, Id>, moves: seq<Move>)
    requires Legal(b, moves)
    ensures Replay(b, moves).Reached?
    ensures |Replay(b, moves).board| == |b| - Captures(moves)
    decreases |moves|
  {
    if moves != [] {
      var n := |moves| - 1;
      ReplayCount(b, moves[..n]);
      var prev := Replay(b, moves[..n]).board;
      var m := moves[n];
      if m.castling {
        CastlingBoard(prev, m);
      } else if m.capture {
        CaptureBoard(prev, m);
      } else {
        SimpleMoveBoard(prev, m);
      }
    }
  }

  /** Replaying moves never puts one piece on two squares. */
  lemma {:induction false} ReplayKeepsInjective(b: map<Square, Id>, moves: seq<Move>)
    requires Injective(b) && Replay(b, moves).Reached?
    ensures Injective(Replay(b, moves).board)
    decreases |moves|
  {
    if moves != [] {
      var n := |moves| - 1;
      ReplayKeepsInjective(b, moves[..n]);
      MoveKeepsInjective(Replay(b, moves[..n]).board, moves[n]);
    }
  }

  /** Move j ends the game's processing: it promotes, or it is past index 10
      in a test run. */
  predicate Halts(moves: seq<Move>, test: bool, j: nat)
    requires j < |moves|
  {
    moves[j].promotion.Some? || (test && j > 10)
  }

  /** How many moves, from index i on, are processed: up to and including
      the first halting move, or all of them. */
  function HorizonFrom(moves: seq<Move>, test: bool, i: nat): (n: nat)
    requires i <= |moves|
    ensures i <= n <= |moves|
    ensures forall j :: i <= j < n - 1 ==> !Halts(moves, test, j)
    ensures n < |moves| ==> i < n && Halts(moves, test, n - 1)
    ensures n == i ==> i == |moves|
    decreases |moves| - i
  {
    if i == |moves| then i
    else if Halts(moves, test, i) then i + 1
    else HorizonFrom(moves, test, i + 1)
  }

  function Horizon(moves: seq<Move>, test: bool): nat
  {
    HorizonFrom(moves, test, 0)
  }

  /** A test run processes at most twelve moves (indices 0 to 11). */
  lemma TestHorizon(moves: seq<Move>)
    ensures Horizon(moves, true) <= 12
  {
    if |moves| > 11 {
      assert Halts(moves, true, 11);
    }
  }

  /** Why processing stopped after n moves. */
  datatype Halt = Exhausted | Promoted | Cutoff

  function HaltAfter(moves: seq<Move>, test: bool, n: nat): Halt
    requires n <= |moves|
  {
    if n == 0 then Exhausted
    else if moves[n - 1].promotion.Some? then Promoted
    else if test && n - 1 > 10 then Cutoff
    else Exhausted
  }
}
