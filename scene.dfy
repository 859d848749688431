/** The scene the move compiler drives: the board map, the frame cursor,
    the keyframe store and the current property values of every object. */
module Scenes {
  import opened Chess
  import opened Board
  import opened Timeline

  /** Current values of the flag properties (kinematic, collision,
      hide, hide_render) that the script has set, per object. */
  type Flags = map<(Id, Channel), bool>

  predicate IsKinematic(flags: Flags, id: Id)
  {
    (id, Kinematic) in flags && flags[(id, Kinematic)]
  }

  /** One pass over the cells setting `channel` to `on`, cell by cell. */
  function CellFlags(cells: seq<Id>, channel: Channel, on: bool): Flags
    decreases |cells|
  {
    if cells == [] then map[]
    else CellFlags(cells[..|cells| - 1], channel, on)[(cells[|cells| - 1], channel) := on]
  }

  lemma {:induction false} CellFlagsAt(cells: seq<Id>, channel: Channel, on: bool, x: (Id, Channel))
    ensures x in CellFlags(cells, channel, on) <==> x.0 in cells && x.1 == channel
    ensures x in CellFlags(cells, channel, on) ==> CellFlags(cells, channel, on)[x] == on
    decreases |cells|
  {
    if cells != [] {
      var n := |cells| - 1;
      CellFlagsAt(cells[..n], channel, on, x);
      assert x.0 in cells <==> x.0 in cells[..n] || x.0 == cells[n] by {
        assert cells == cells[..n] + [cells[n]];
      }
    }
  }

  /** The victim's property values through a capture, in the order they are
      set: kinematic off; the cells kinematic; collision, hide and
      hide_render first as at frame 0, then as at c - 1. */
  function VictimFlags(flags: Flags, victim: Id, cells: seq<Id>): Flags
  {
    var f1 := flags[(victim, Kinematic) := false] + CellFlags(cells, Kinematic, true);
    var f2 := f1[(victim, Collision) := true][(victim, Hide) := false][(victim, HideRender) := false];
    f2[(victim, Collision) := false][(victim, Hide) := true][(victim, HideRender) := true]
  }

  /** The cells' property values through their four passes, at c - 1, c,
      0 and c - 1 again. */
  function CellsFlags(flags: Flags, cells: seq<Id>): Flags
  {
    var f4 := flags + CellFlags(cells, Kinematic, true) + CellFlags(cells, Collision, false);
    var f5 := f4 + CellFlags(cells, Kinematic, false) + CellFlags(cells, Collision, true);
    var f6 := f5 + CellFlags(cells, Hide, true) + CellFlags(cells, HideRender, true);
    f6 + CellFlags(cells, Hide, false) + CellFlags(cells, HideRender, false)
  }

  function CaptureFlags(flags: Flags, victim: Id, cells: seq<Id>): Flags
  {
    CellsFlags(VictimFlags(flags, victim, cells), cells)
  }

  /** After a capture the victim is left hidden, without collision and no
      longer kinematic; each cell is left visible, colliding and free; the
      flags of every other object are as they were. */
  lemma CaptureFlagsSettled(flags: Flags, victim: Id, cells: seq<Id>, x: (Id, Channel))
    requires victim !in cells
    ensures var f := CaptureFlags(flags, victim, cells);
      && (x.0 == victim && x.1 != Location ==> x in f && f[x] == (x.1 == Hide || x.1 == HideRender))
      && (x.0 in cells && x.1 != Location ==> x in f && f[x] == (x.1 == Collision))
      && (x.0 != victim && x.0 !in cells ==> (x in f <==> x in flags) && (x in flags ==> f[x] == flags[x]))
  {
    CellFlagsAt(cells, Kinematic, true, x);
    CellFlagsAt(cells, Collision, false, x);
    CellFlagsAt(cells, Kinematic, false, x);
    CellFlagsAt(cells, Collision, true, x);
    CellFlagsAt(cells, Hide, true, x);
    CellFlagsAt(cells, HideRender, true, x);
    CellFlagsAt(cells, Hide, false, x);
    CellFlagsAt(cells, HideRender, false, x);
  }

  /** The kinematic flag switched on for every object of ids. */
  function AllKinematic(ids: set<Id>): Flags
  {
    map id | id in ids :: (id, Kinematic) := true
  }

  /** Switching one more object on extends the set by that object. */
  lemma AllKinematicStep(flags: Flags, ids: set<Id>, id: Id)
    ensures flags + AllKinematic(ids + {id}) == (flags + AllKinematic(ids))[(id, Kinematic) := true]
  {
  }

  /** Identities start, start + 1, ..., start + n - 1. */
  function Fresh(start: Id, n: nat): seq<Id>
  {
    seq(n, i => start + i)
  }

  /** The fresh identities are the n numbers from start on. */
  lemma FreshIds(start: Id, n: nat)
    ensures |Fresh(start, n)| == n
    ensures forall x :: x in Fresh(start, n) <==> start <= x < start + n
  {
    forall x | start <= x < start + n
      ensures x in Fresh(start, n)
    {
      assert Fresh(start, n)[x - start] == x;
    }
  }

  /** Side to move before move i, when `first` moves first. */
  function SideToMove(first: Side, i: nat): Side
  {
    if i % 2 == 0 then first else if first == White then Black else White
  }

  lemma CellWritesStep(cells: seq<Id>, i: nat, channel: Channel, frame: int, on: bool)
    requires i < |cells|
    ensures CellWrites(cells[..i + 1], channel, frame, on)
         == CellWrites(cells[..i], channel, frame, on)[Key(cells[i], channel, frame) := Flag(on)]
    ensures CellFlags(cells[..i + 1], channel, on) == CellFlags(cells[..i], channel, on)[(cells[i], channel) := on]
  {
    assert cells[..i + 1][..i] == cells[..i];
  }

  lemma UnionUpdate<K, V>(m: map<K, V>, a: map<K, V>, x: K, v: V)
    ensures m + a[x := v] == (m + a)[x := v]
  {
  }

  lemma UnionUpdates<K, V>(m: map<K, V>, a: map<K, V>, b: map<K, V>, x: K, v: V, y: K, w: V)
    requires x !in b
    ensures m + a[x := v] + b[y := w] == (m + a + b)[x := v][y := w]
  {
  }

  /** One more cell in a one-property pass. */
  lemma PassStep(keys: Store, flags: Flags, cells: seq<Id>, i: nat, channel: Channel, frame: int, on: bool)
    requires i < |cells|
    ensures keys + CellWrites(cells[..i + 1], channel, frame, on)
         == (keys + CellWrites(cells[..i], channel, frame, on))[Key(cells[i], channel, frame) := Flag(on)]
    ensures flags + CellFlags(cells[..i + 1], channel, on)
         == (flags + CellFlags(cells[..i], channel, on))[(cells[i], channel) := on]
  {
    CellWritesStep(cells, i, channel, frame, on);
    UnionUpdate(keys, CellWrites(cells[..i], channel, frame, on), Key(cells[i], channel, frame), Flag(on));
    UnionUpdate(flags, CellFlags(cells[..i], channel, on), (cells[i], channel), on);
  }

  /** One more cell in a two-property pass. */
  lemma Pass2Step(keys: Store, flags: Flags, cells: seq<Id>, i: nat, frame: int,
                  a: Channel, onA: bool, b: Channel, onB: bool)
    requires i < |cells| && a != b
    ensures keys + CellWrites(cells[..i + 1], a, frame, onA) + CellWrites(cells[..i + 1], b, frame, onB)
         == (keys + CellWrites(cells[..i], a, frame, onA) + CellWrites(cells[..i], b, frame, onB))
              [Key(cells[i], a, frame) := Flag(onA)][Key(cells[i], b, frame) := Flag(onB)]
    ensures flags + CellFlags(cells[..i + 1], a, onA) + CellFlags(cells[..i + 1], b, onB)
         == (flags + CellFlags(cells[..i], a, onA) + CellFlags(cells[..i], b, onB))
              [(cells[i], a) := onA][(cells[i], b) := onB]
  {
    CellWritesStep(cells, i, a, frame, onA);
    CellWritesStep(cells, i, b, frame, onB);
    CellWritesAt(cells[..i], b, frame, onB, Key(cells[i], a, frame));
    CellFlagsAt(cells[..i], b, onB, (cells[i], a));
    UnionUpdates(keys, CellWrites(cells[..i], a, frame, onA), CellWrites(cells[..i], b, frame, onB),
                 Key(cells[i], a, frame), Flag(onA), Key(cells[i], b, frame), Flag(onB));
    UnionUpdates(flags, CellFlags(cells[..i], a, onA), CellFlags(cells[..i], b, onB),
                 (cells[i], a), onA, (cells[i], b), onB);
  }

  /** Square s holds piece p as set-up leaves it: at the centre of s, at
      p's height, with a location keyframe at `frame`. */
  ghost predicate Seated(board: map<Square, Id>, pieces: map<Id, Piece>, loc: map<Id, Point>,
                         keys: Store, frame: int, s: Square, p: Piece)
  {
    && IsSquare(s) && s in board
    && board[s] in pieces && pieces[board[s]] == p
    && board[s] in loc && loc[board[s]] == Place(s, Height(p.kind))
    && Records(keys, Key(board[s], Location, frame), At(loc[board[s]]))
  }

  /** Every occupied square holds its starting piece, seated, under an
      identity below nextId, and no piece stands on two squares. */
  ghost predicate PartialSetup(board: map<Square, Id>, pieces: map<Id, Piece>, loc: map<Id, Point>,
                               keys: Store, frame: int, nextId: Id)
  {
    && (forall s {:trigger StartPiece(s)} :: s in board ==>
          StartPiece(s).Some? && board[s] < nextId && Seated(board, pieces, loc, keys, frame, s, StartPiece(s).value))
    && Injective(board)
  }

  /** Seating a fresh piece on an empty starting square keeps the set-up
      consistent. */
  lemma SeatStep(board: map<Square, Id>, pieces: map<Id, Piece>, loc: map<Id, Point>,
                 keys: Store, frame: int, id: Id, s: Square, p: Piece)
    requires PartialSetup(board, pieces, loc, keys, frame, id)
    requires s !in board && StartPiece(s) == Some(p)
    ensures var at := Place(s, Height(p.kind));
      PartialSetup(board[s := id], pieces[id := p], loc[id := at],
                   keys[Key(id, Location, frame) := At(at)], frame, id + 1)
  {
    var at := Place(s, Height(p.kind));
    var board', pieces', loc', keys' := board[s := id], pieces[id := p], loc[id := at],
                                         keys[Key(id, Location, frame) := At(at)];
    forall t | t in board'
      ensures StartPiece(t).Some? && board'[t] < id + 1
      ensures Seated(board', pieces', loc', keys', frame, t, StartPiece(t).value)
    {
      if t != s {
        assert Seated(board, pieces, loc, keys, frame, t, StartPiece(t).value);
        assert board[t] < id;
      }
    }
  }

  /** From one stage of the set-up to a later one, only the objects n0 to
      n - 1 are new: every other object keeps its keyframes, location and
      piece, and the new ones gain location keyframes at `frame` only. */
  ghost predicate OnlyNew(k0: Store, l0: map<Id, Point>, p0: map<Id, Piece>,
                          keys: Store, loc: map<Id, Point>, pieces: map<Id, Piece>,
                          n0: Id, n: Id, frame: int)
  {
    && keys - LocationKeys(n0, n, frame) == k0 - LocationKeys(n0, n, frame)
    && loc - Span(n0, n) == l0 - Span(n0, n)
    && pieces - Span(n0, n) == p0 - Span(n0, n)
  }

  /** The identities n0 up to, not including, n. */
  function Span(n0: Id, n: Id): set<Id>
    decreases n - n0
  {
    if n <= n0 then {} else Span(n0, n - 1) + {n - 1}
  }

  /** The location keys of those identities at one frame. */
  function LocationKeys(n0: Id, n: Id, frame: int): set<Key>
  {
    set id: Id | n0 <= id < n :: Key(id, Location, frame)
  }

  /** Seating the piece with identity n extends the stage by one. */
  lemma OnlyNewStep(k0: Store, l0: map<Id, Point>, p0: map<Id, Piece>,
                    keys: Store, loc: map<Id, Point>, pieces: map<Id, Piece>,
                    n0: Id, n: Id, frame: int, at: Value, place: Point, piece: Piece)
    requires n0 <= n && OnlyNew(k0, l0, p0, keys, loc, pieces, n0, n, frame)
    ensures OnlyNew(k0, l0, p0, keys[Key(n, Location, frame) := at], loc[n := place],
                    pieces[n := piece], n0, n + 1, frame)
  {
    var k, ks := Key(n, Location, frame), LocationKeys(n0, n, frame);
    assert LocationKeys(n0, n + 1, frame) == ks + {k};
    assert keys[k := at] - (ks + {k}) == (keys - ks) - {k};
    assert k0 - (ks + {k}) == (k0 - ks) - {k};
    var ids := Span(n0, n);
    assert Span(n0, n + 1) == ids + {n};
    assert loc[n := place] - (ids + {n}) == (loc - ids) - {n};
    assert l0 - (ids + {n}) == (l0 - ids) - {n};
    assert pieces[n := piece] - (ids + {n}) == (pieces - ids) - {n};
    assert p0 - (ids + {n}) == (p0 - ids) - {n};
  }

  predicate InGroup(t: Square, files: string, ranks: string)
  {
    t.file in files && t.rank in ranks
  }

  predicate Distinct(s: string)
  {
    forall i, j :: 0 <= i < j < |s| ==> s[i] != s[j]
  }

  /** Every square of files x ranks starts with a `kind`, owned by white
      below rank 4 and by black above. */
  ghost predicate StartsAs(kind: Kind, files: string, ranks: string)
  {
    forall t: Square :: InGroup(t, files, ranks) ==> StartPiece(t) == Some(Piece(kind, SideOf(t.rank)))
  }

  /** The six placement groups of the set-up, in the order they are placed:
      the piece kind, its files and its ranks. */
  function Group(g: nat): (Kind, string, string)
    requires g < 6
  {
    if g == 0 then (Pawn, "abcdefgh", "27")
    else if g == 1 then (Rook, "ah", "18")
    else if g == 2 then (Knight, "bg", "18")
    else if g == 3 then (Bishop, "cf", "18")
    else if g == 4 then (Queen, "d", "18")
    else (King, "e", "18")
  }

  /** Square t belongs to one of the first g groups. */
  ghost predicate PlacedBy(t: Square, g: nat)
    requires g <= 6
  {
    g > 0 && (PlacedBy(t, g - 1) || InGroup(t, Group(g - 1).1, Group(g - 1).2))
  }

  /** How many squares the first g groups cover. */
  function GroupsSize(g: nat): nat
    requires g <= 6
  {
    if g == 0 then 0 else GroupsSize(g - 1) + |Group(g - 1).1| * |Group(g - 1).2|
  }

  /** The six groups cover 16 pawn squares and 16 back-rank squares. */
  lemma GroupsTotal()
    ensures GroupsSize(6) == 32
  {
    assert GroupsSize(1) == 16;
    assert GroupsSize(3) == 24;
  }

  /** Pawns fill ranks 2 and 7 of every file. */
  lemma PawnGroup(files: string)
    requires forall f :: f in files ==> IsFile(f)
    ensures StartsAs(Pawn, files, "27")
  {
  }

  /** On ranks 1 and 8, each back-rank file holds its piece. */
  lemma BackGroup(kind: Kind, files: string)
    requires forall f :: f in files ==> IsFile(f) && BackRank(f) == kind
    ensures StartsAs(kind, files, "18")
  {
  }

  /** Group g puts the right pieces down, names each file and rank once,
      and covers no square an earlier group covers. */
  lemma GroupReady(g: nat)
    requires g < 6
    ensures var (kind, files, ranks) := Group(g);
      && StartsAs(kind, files, ranks) && Distinct(files) && Distinct(ranks)
      && forall t: Square :: InGroup(t, files, ranks) ==> !PlacedBy(t, g)
  {
    var (kind, files, ranks) := Group(g);
    if g == 0 {
      PawnGroup(files);
    } else {
      BackGroup(kind, files);
      forall t: Square | InGroup(t, files, ranks) ensures !PlacedBy(t, g) {
        EarlierGroups(t, g, g);
      }
    }
  }

  /** No group before h holds a square of the back-rank group g. */
  lemma {:induction false} EarlierGroups(t: Square, g: nat, h: nat)
    requires 0 < h <= g < 6 && InGroup(t, Group(g).1, Group(g).2)
    ensures !PlacedBy(t, h)
    decreases h
  {
    assert !InGroup(t, Group(h - 1).1, Group(h - 1).2);
    if h > 1 {
      EarlierGroups(t, g, h - 1);
    }
  }

  /** The six groups cover exactly the squares of the starting position. */
  lemma SetupLayout(t: Square)
    ensures PlacedBy(t, 6) <==> StartPiece(t).Some?
  {
    assert PlacedBy(t, 1) == InGroup(t, "abcdefgh", "27");
    assert PlacedBy(t, 2) == (PlacedBy(t, 1) || InGroup(t, "ah", "18"));
    assert PlacedBy(t, 3) == (PlacedBy(t, 2) || InGroup(t, "bg", "18"));
    assert PlacedBy(t, 4) == (PlacedBy(t, 3) || InGroup(t, "cf", "18"));
    assert PlacedBy(t, 5) == (PlacedBy(t, 4) || InGroup(t, "d", "18"));
    assert PlacedBy(t, 6) == (PlacedBy(t, 5) || InGroup(t, "e", "18"));
    if IsSquare(t) {
      FileCases(t.file);
    }
  }

  lemma PrefixStep(s: string, j: nat)
    requires j < |s|
    ensures forall c :: c in s[..j + 1] <==> c in s[..j] || c == s[j]
  {
    assert s[..j + 1] == s[..j] + [s[j]];
  }

  lemma DistinctPrefix(s: string, j: nat)
    requires j < |s| && Distinct(s)
    ensures s[j] !in s[..j]
  {
  }

  /** The six groups placed over a scene whose every piece is kinematic:
      exactly the starting squares are occupied, each by its starting piece,
      and the scene is consistent. */
  lemma SetupDone(board: map<Square, Id>, pieces: map<Id, Piece>, loc: map<Id, Point>,
                  keys: Store, flags: Flags, nextId: Id)
    requires PartialSetup(board, pieces, loc, keys, 1, nextId)
    requires forall t: Square :: t in board <==> PlacedBy(t, 6)
    requires forall s :: s in board ==> IsKinematic(flags, board[s])
    ensures Consistent(board, loc, pieces, flags, nextId)
    ensures forall s :: s in board <==> StartPiece(s).Some?
    ensures forall s :: s in board ==> Seated(board, pieces, loc, keys, 1, s, StartPiece(s).value)
  {
    forall s ensures s in board <==> StartPiece(s).Some? {
      SetupLayout(s);
    }
  }

  /** Between moves: every occupant stands on a real square, is a known
      piece with a location, is kinematic, and stands on one square only. */
  ghost predicate Consistent(board: map<Square, Id>, loc: map<Id, Point>, pieces: map<Id, Piece>,
                             flags: Flags, nextId: Id)
  {
    && (forall s :: s in board ==>
          IsSquare(s) && board[s] < nextId && board[s] in loc && board[s] in pieces && IsKinematic(flags, board[s]))
    && Injective(board)
  }

  /** A move keeps the scene consistent as long as every piece still on the
      board (all but a captured one) stays kinematic. */
  lemma MoveConsistent(b: map<Square, Id>, m: Move, loc: map<Id, Point>, pieces: map<Id, Piece>,
                       flags: Flags, nextId: Id, loc': map<Id, Point>, flags': Flags, nextId': Id)
    requires Consistent(b, loc, pieces, flags, nextId) && ValidMove(m) && MoveBoard(b, m).Ok?
    requires loc.Keys <= loc'.Keys && nextId <= nextId'
    requires forall s :: s in b && !(IsCapture(m) && s == m.to) ==> IsKinematic(flags', b[s])
    ensures Consistent(MoveBoard(b, m).value, loc', pieces, flags', nextId')
  {
    MoveKeepsInjective(b, m);
    var r := MoveBoard(b, m).value;
    forall s | s in r
      ensures IsSquare(s) && r[s] < nextId' && r[s] in loc' && r[s] in pieces && IsKinematic(flags', r[s])
    {
      if m.castling {
        var (rookFrom, rookDest) := CastlingRook(m.to).value;
        if s == rookDest {
          assert r[s] == b[rookFrom];
        } else if s == m.to {
          assert r[s] == b[m.from];
        } else {
          assert r[s] == b[s];
        }
      } else if s == m.to {
        assert r[s] == b[m.from] && m.from != m.to;
      } else {
        assert r[s] == b[s];
      }
    }
  }

  /** The castling's three lookups succeed: the king's square is occupied,
      the target is a castling target, and its rook square is occupied. */
  predicate Lookups(b: map<Square, Id>, m: Move)
  {
    m.from in b && CastlingRook(m.to).Some? && CastlingRook(m.to).value.0 in b
  }

  /** A capture keeps the scene consistent: the fracture's cells are new
      objects, so every piece left on the board is still kinematic. */
  lemma CaptureConsistent(b: map<Square, Id>, m: Move, loc: map<Id, Point>, pieces: map<Id, Piece>,
                          flags: Flags, nextId: Id, after: Point, n: nat)
    requires Consistent(b, loc, pieces, flags, nextId) && ValidMove(m) && IsCapture(m)
    requires m.from in b && m.to in b
    ensures MoveBoard(b, m) == Ok(b[m.to := b[m.from]] - {m.from})
    ensures Consistent(MoveBoard(b, m).value, loc[b[m.from] := after], pieces,
                       CaptureFlags(flags, b[m.to], Fresh(nextId, n)), nextId + n)
  {
    var loc' := loc[b[m.from] := after];
    var cells := Fresh(nextId, n);
    FreshIds(nextId, n);
    var f := CaptureFlags(flags, b[m.to], cells);
    forall s | s in b && s != m.to
      ensures IsKinematic(f, b[s])
    {
      CaptureFlagsSettled(flags, b[m.to], cells, (b[s], Kinematic));
    }
    MoveConsistent(b, m, loc, pieces, flags, nextId, loc', f, nextId + n);
  }

  /** How a whole game ended: processed `played` moves and stopped for
      `halt`, or failed at move `at`. */
  datatype Outcome = Finished(played: nat, halt: Halt) | Failed(error: Error, at: nat)

  class Scene {
    /** The board map: square to the piece object standing there. */
    var board: map<Square, Id>
    /** The scene's current frame. */
    var cursor: int
    /** Every keyframe recorded so far. */
    var keys: Store
    /** Current location of every piece object. */
    var loc: map<Id, Point>
    /** Current flag property values the script has set. */
    var flags: Flags
    /** Kind and owner of every piece object created. */
    var pieces: map<Id, Piece>
    /** The next unused object identity. */
    var nextId: Id

    ghost predicate Valid()
      reads this
    {
      Consistent(board, loc, pieces, flags, nextId)
    }

    /** Square s holds the piece p placed there during set-up. */
    ghost predicate Holds(s: Square, p: Piece)
      reads this
    {
      Seated(board, pieces, loc, keys, cursor, s, p)
    }

    /** Part of the starting position is set up, and nothing else. */
    ghost predicate SetupSoFar()
      reads this
    {
      PartialSetup(board, pieces, loc, keys, cursor, nextId)
    }

    /** A scene holding only the piece templates. */
    constructor ()
      ensures board == map[] && keys == map[] && loc == map[] && flags == map[]
      ensures pieces == map[] && nextId == 0 && cursor == 1
    {
      board, keys, loc, flags, pieces := map[], map[], map[], map[], map[];
      nextId, cursor := 0, 1;
    }

    /** A new piece object of the given kind at the centre of s, with a
        location keyframe at the current frame. */
    method InstantiatePiece(kind: Kind, side: Side, s: Square) returns (id: Id)
      requires IsSquare(s)
      modifies this`nextId, this`pieces, this`loc, this`keys
      ensures id == old(nextId) && nextId == id + 1
      ensures pieces == old(pieces)[id := Piece(kind, side)]
      ensures loc == old(loc)[id := Place(s, Height(kind))]
      ensures keys == old(keys)[Key(id, Location, cursor) := At(Place(s, Height(kind)))]
    {
      id := nextId;
      nextId := nextId + 1;
      pieces := pieces[id := Piece(kind, side)];
      loc := loc[id := Place(s, Height(kind))];
      KeyframeLocation(id);
    }

    /** Records the object's current location at the current frame. */
    method KeyframeLocation(id: Id)
      requires id in loc
      modifies this`keys
      ensures keys == old(keys)[Key(id, Location, cursor) := At(loc[id])]
    {
      keys := keys[Key(id, Location, cursor) := At(loc[id])];
    }

    /** Records the object's current flag value at the current frame. */
    method KeyframeFlag(id: Id, channel: Channel)
      requires (id, channel) in flags
      modifies this`keys
      ensures keys == old(keys)[Key(id, channel, cursor) := Flag(flags[(id, channel)])]
    {
      keys := keys[Key(id, channel, cursor) := Flag(flags[(id, channel)])];
    }

    method SetFlag(id: Id, channel: Channel, on: bool)
      modifies this`flags
      ensures flags == old(flags)[(id, channel) := on]
    {
      flags := flags[(id, channel) := on];
    }

    /** Places a new piece of `kind` on the empty square s, owned by white
        below rank 4 and by black above. */
    method Seat(kind: Kind, s: Square, ghost k0: Store, ghost l0: map<Id, Point>, ghost p0: map<Id, Piece>, ghost n0: Id)
      requires SetupSoFar() && s !in board
      requires StartPiece(s) == Some(Piece(kind, SideOf(s.rank)))
      requires n0 <= nextId && OnlyNew(k0, l0, p0, keys, loc, pieces, n0, nextId, cursor)
      modifies this`board, this`nextId, this`pieces, this`loc, this`keys
      ensures SetupSoFar()
      ensures s in board && board == old(board)[s := board[s]]
      ensures |board| == |old(board)| + 1 && nextId == old(nextId) + 1
      ensures OnlyNew(k0, l0, p0, keys, loc, pieces, n0, nextId, cursor)
    {
      var side := SideOf(s.rank);
      var id := InstantiatePiece(kind, side, s);
      board := board[s := id];
      SeatStep(old(board), old(pieces), old(loc), old(keys), cursor, id, s, Piece(kind, side));
      OnlyNewStep(k0, l0, p0, old(keys), old(loc), old(pieces), n0, id, cursor,
                  At(Place(s, Height(kind))), Place(s, Height(kind)), Piece(kind, side));
    }

    /** Places one piece of `kind` on every square of file f in ranks. */
    method PlaceFile(kind: Kind, files: string, f: char, ranks: string, ghost k0: Store, ghost l0: map<Id, Point>, ghost p0: map<Id, Piece>, ghost n0: Id)
      requires SetupSoFar() && Distinct(ranks) && StartsAs(kind, files, ranks) && f in files
      requires forall r :: r in ranks ==> Square(f, r) !in board
      requires n0 <= nextId && OnlyNew(k0, l0, p0, keys, loc, pieces, n0, nextId, cursor)
      modifies this`board, this`nextId, this`pieces, this`loc, this`keys
      ensures SetupSoFar()
      ensures forall t: Square :: t in board <==> t in old(board) || (t.file == f && t.rank in ranks)
      ensures |board| == |old(board)| + |ranks| && nextId == old(nextId) + |ranks|
      ensures OnlyNew(k0, l0, p0, keys, loc, pieces, n0, nextId, cursor)
    {
      for j := 0 to |ranks|
        invariant SetupSoFar()
        invariant forall t: Square :: t in board <==> t in old(board) || (t.file == f && t.rank in ranks[..j])
        invariant |board| == |old(board)| + j && nextId == old(nextId) + j
        invariant OnlyNew(k0, l0, p0, keys, loc, pieces, n0, nextId, cursor)
      {
        DistinctPrefix(ranks, j);
        assert InGroup(Square(f, ranks[j]), files, ranks);
        Seat(kind, Square(f, ranks[j]), k0, l0, p0, n0);
        PrefixStep(ranks, j);
      }
      assert ranks[..|ranks|] == ranks;
    }

    /** Places one piece of `kind` on every square of files x ranks, file
        by file. */
    method PlaceGroup(kind: Kind, files: string, ranks: string, ghost k0: Store, ghost l0: map<Id, Point>, ghost p0: map<Id, Piece>, ghost n0: Id)
      requires SetupSoFar() && Distinct(files) && Distinct(ranks) && StartsAs(kind, files, ranks)
      requires forall t: Square :: InGroup(t, files, ranks) ==> t !in board
      requires n0 <= nextId && OnlyNew(k0, l0, p0, keys, loc, pieces, n0, nextId, cursor)
      modifies this`board, this`nextId, this`pieces, this`loc, this`keys
      ensures SetupSoFar()
      ensures forall t: Square :: t in board <==> t in old(board) || InGroup(t, files, ranks)
      ensures |board| == |old(board)| + |files| * |ranks|
      ensures nextId == old(nextId) + |board| - |old(board)|
      ensures OnlyNew(k0, l0, p0, keys, loc, pieces, n0, nextId, cursor)
    {
      for i := 0 to |files|
        invariant SetupSoFar()
        invariant forall t: Square :: t in board <==> t in old(board) || (t.file in files[..i] && t.rank in ranks)
        invariant |board| == |old(board)| + i * |ranks|
        invariant nextId == old(nextId) + |board| - |old(board)|
        invariant OnlyNew(k0, l0, p0, keys, loc, pieces, n0, nextId, cursor)
      {
        DistinctPrefix(files, i);
        PlaceFile(kind, files, files[i], ranks, k0, l0, p0, n0);
        PrefixStep(files, i);
        assert (i + 1) * |ranks| == i * |ranks| + |ranks|;
      }
      assert files[..|files|] == files;
    }

    /** Places the six groups in turn: pawns, rooks, knights, bishops,
        queens, kings. */
    method PlaceGroups()
      requires SetupSoFar() && board == map[]
      modifies this`board, this`nextId, this`pieces, this`loc, this`keys
      ensures SetupSoFar()
      ensures forall t: Square :: t in board <==> PlacedBy(t, 6)
      ensures |board| == GroupsSize(6) && nextId == old(nextId) + |board|
      ensures OnlyNew(old(keys), old(loc), old(pieces), keys, loc, pieces, old(nextId), nextId, cursor)
    {
      for g := 0 to 6
        invariant SetupSoFar()
        invariant forall t: Square :: t in board <==> PlacedBy(t, g)
        invariant |board| == GroupsSize(g) && nextId == old(nextId) + |board|
        invariant OnlyNew(old(keys), old(loc), old(pieces), keys, loc, pieces, old(nextId), nextId, cursor)
      {
        PlaceNth(g, old(keys), old(loc), old(pieces), old(nextId));
      }
    }

    /** Places group g on top of the groups before it. */
    method PlaceNth(g: nat, ghost k0: Store, ghost l0: map<Id, Point>, ghost p0: map<Id, Piece>, ghost n0: Id)
      requires g < 6 && SetupSoFar()
      requires n0 <= nextId && OnlyNew(k0, l0, p0, keys, loc, pieces, n0, nextId, cursor)
      requires forall t: Square :: t in board <==> PlacedBy(t, g)
      requires |board| == GroupsSize(g)
      modifies this`board, this`nextId, this`pieces, this`loc, this`keys
      ensures SetupSoFar()
      ensures forall t: Square :: t in board <==> PlacedBy(t, g + 1)
      ensures |board| == GroupsSize(g + 1) && nextId == old(nextId) + |board| - |old(board)|
      ensures OnlyNew(k0, l0, p0, keys, loc, pieces, n0, nextId, cursor)
    {
      var (kind, files, ranks) := Group(g);
      GroupReady(g);
      PlaceGroup(kind, files, ranks, k0, l0, p0, n0);
    }

    /** Clears the board and seats the 32 pieces at frame 1, then steps
        the frame to 2, 3 and back to 1. */
    method Populate()
      modifies this`board, this`nextId, this`pieces, this`loc, this`keys, this`cursor
      ensures SetupSoFar() && cursor == 1
      ensures forall t: Square :: t in board <==> PlacedBy(t, 6)
      ensures |board| == GroupsSize(6) && nextId == old(nextId) + |board|
      ensures OnlyNew(old(keys), old(loc), old(pieces), keys, loc, pieces, old(nextId), nextId, 1)
    {
      cursor := 1;
      board := map[];
      PlaceGroups();
      cursor := 2;
      cursor := 3;
      cursor := 1;
    }

    /** Makes every piece on the board kinematic. */
    method MakeKinematic()
      modifies this`flags
      ensures flags == old(flags) + AllKinematic(board.Values)
      ensures forall s :: s in board ==> IsKinematic(flags, board[s])
    {
      var todo := board.Values;
      ghost var done: set<Id> := {};
      while todo != {}
        invariant todo + done == board.Values && todo !! done
        invariant flags == old(flags) + AllKinematic(done)
        decreases |todo|
      {
        var id :| id in todo;
        SetFlag(id, Kinematic, true);
        AllKinematicStep(old(flags), done, id);
        todo, done := todo - {id}, done + {id};
      }
      forall s | s in board
        ensures IsKinematic(flags, board[s])
      {
        AllKinematicStep(old(flags), done - {board[s]}, board[s]);
      }
    }

    /** Sets up the standard starting position at frame 1: 32 pieces, one
        per square of ranks 1, 2, 7 and 8, each with a location keyframe at
        frame 1 and made kinematic. */
    method InitialSetup()
      modifies this
      ensures Valid() && cursor == 1
      ensures forall s :: s in board <==> StartPiece(s).Some?
      ensures forall s :: s in board ==> Holds(s, StartPiece(s).value)
      ensures |board| == 32 && nextId == old(nextId) + 32
      ensures OnlyNew(old(keys), old(loc), old(pieces), keys, loc, pieces, old(nextId), nextId, 1)
      ensures flags == old(flags) + AllKinematic(board.Values)
    {
      Populate();
      MakeKinematic();
      SetupDone(board, pieces, loc, keys, flags, nextId);
      GroupsTotal();
    }

    /** One pass over the cells at the current frame: each cell's `channel`
        set to `on` and keyframed. */
    method CellPass(cells: seq<Id>, channel: Channel, on: bool)
      modifies this`keys, this`flags
      ensures keys == old(keys) + CellWrites(cells, channel, cursor, on)
      ensures flags == old(flags) + CellFlags(cells, channel, on)
    {
      for i := 0 to |cells|
        invariant keys == old(keys) + CellWrites(cells[..i], channel, cursor, on)
        invariant flags == old(flags) + CellFlags(cells[..i], channel, on)
      {
        SetFlag(cells[i], channel, on);
        KeyframeFlag(cells[i], channel);
        PassStep(old(keys), old(flags), cells, i, channel, cursor, on);
      }
      assert cells[..|cells|] == cells;
    }

    /** One pass over the cells at the current frame setting and keyframing
        two properties of each cell in turn. */
    method CellPass2(cells: seq<Id>, a: Channel, onA: bool, b: Channel, onB: bool)
      requires a != b
      modifies this`keys, this`flags
      ensures keys == old(keys) + CellWrites(cells, a, cursor, onA) + CellWrites(cells, b, cursor, onB)
      ensures flags == old(flags) + CellFlags(cells, a, onA) + CellFlags(cells, b, onB)
    {
      for i := 0 to |cells|
        invariant keys == old(keys) + CellWrites(cells[..i], a, cursor, onA) + CellWrites(cells[..i], b, cursor, onB)
        invariant flags == old(flags) + CellFlags(cells[..i], a, onA) + CellFlags(cells[..i], b, onB)
      {
        Pass2At(old(keys), old(flags), cells, i, a, onA, b, onB);
      }
      assert cells[..|cells|] == cells;
    }

    /** The i-th round of the two-property cell pass. */
    method Pass2At(ghost k0: Store, ghost f0: Flags, cells: seq<Id>, i: nat,
                   a: Channel, onA: bool, b: Channel, onB: bool)
      requires i < |cells| && a != b
      requires keys == k0 + CellWrites(cells[..i], a, cursor, onA) + CellWrites(cells[..i], b, cursor, onB)
      requires flags == f0 + CellFlags(cells[..i], a, onA) + CellFlags(cells[..i], b, onB)
      modifies this`keys, this`flags
      ensures keys == k0 + CellWrites(cells[..i + 1], a, cursor, onA) + CellWrites(cells[..i + 1], b, cursor, onB)
      ensures flags == f0 + CellFlags(cells[..i + 1], a, onA) + CellFlags(cells[..i + 1], b, onB)
    {
      SetTwo(cells[i], a, onA, b, onB);
      Pass2Step(k0, f0, cells, i, cursor, a, onA, b, onB);
    }

    /** Two properties of one object set and keyframed at the current
        frame, `a` first. */
    method SetTwo(id: Id, a: Channel, onA: bool, b: Channel, onB: bool)
      modifies this`keys, this`flags
      ensures keys == old(keys)[Key(id, a, cursor) := Flag(onA)][Key(id, b, cursor) := Flag(onB)]
      ensures flags == old(flags)[(id, a) := onA][(id, b) := onB]
    {
      SetFlag(id, a, onA);
      KeyframeFlag(id, a);
      SetFlag(id, b, onB);
      KeyframeFlag(id, b);
    }

    /** The fracture operator: n new cell objects. */
    method Fracture(n: nat) returns (cells: seq<Id>)
      modifies this`nextId
      ensures cells == Fresh(old(nextId), n) && nextId == old(nextId) + n
    {
      cells := Fresh(nextId, n);
      nextId := nextId + n;
    }

    /** The victim's part of a capture at the current frame c, once the
        capturer's location there is recorded: the victim keyframed as it
        is at c and free at c + 1, then fractured into n new cells, the
        cells kinematic at c, the victim shown and colliding at frame 0 and
        hidden without collision at c - 1. */
    method RetireVictim(ghost k0: Store, mover: Id, before: Point, victim: Id, n: nat) returns (cells: seq<Id>)
      requires keys == k0[Key(mover, Location, cursor) := At(before)]
      requires IsKinematic(flags, victim)
      modifies this`keys, this`flags, this`cursor, this`nextId
      ensures cells == Fresh(old(nextId), n) && nextId == old(nextId) + n
      ensures keys == VictimStaged(k0, mover, before, victim, true, cells, old(cursor))
      ensures flags == VictimFlags(old(flags), victim, cells)
      ensures cursor == old(cursor) - 1
    {
      var c := cursor;
      FreeVictim(victim);
      cells := Fracture(n);
      CellPass(cells, Kinematic, true);
      ShowOrHide(victim, 0, true);
      ShowOrHide(victim, c - 1, false);
    }

    /** The victim keyframed kinematic at the current frame and free one
        frame later; the cursor ends where it started. */
    method FreeVictim(victim: Id)
      requires IsKinematic(flags, victim)
      modifies this`keys, this`flags, this`cursor
      ensures keys == old(keys)[Key(victim, Kinematic, cursor) := Flag(true)]
                               [Key(victim, Kinematic, cursor + 1) := Flag(false)]
      ensures flags == old(flags)[(victim, Kinematic) := false]
      ensures cursor == old(cursor)
    {
      KeyframeFlag(victim, Kinematic);
      cursor := cursor + 1;
      SetFlag(victim, Kinematic, false);
      KeyframeFlag(victim, Kinematic);
      cursor := cursor - 1;
    }

    /** At `frame`, the object shown and colliding, or hidden in the
        viewport and the render without collision, each property keyframed
        as it is set. */
    method ShowOrHide(id: Id, frame: int, shown: bool)
      modifies this`keys, this`flags, this`cursor
      ensures keys == old(keys)[Key(id, Collision, frame) := Flag(shown)]
                               [Key(id, Hide, frame) := Flag(!shown)]
                               [Key(id, HideRender, frame) := Flag(!shown)]
      ensures flags == old(flags)[(id, Collision) := shown][(id, Hide) := !shown][(id, HideRender) := !shown]
      ensures cursor == frame
    {
      cursor := frame;
      SetFlag(id, Collision, shown);
      KeyframeFlag(id, Collision);
      SetFlag(id, Hide, !shown);
      KeyframeFlag(id, Hide);
      SetFlag(id, HideRender, !shown);
      KeyframeFlag(id, HideRender);
    }

    /** Everything a capture at the current frame c does after the
        capturer's location at c is recorded: the victim's fracture, then
        the capturer moved onto `to` at c + framesPerMove. */
    method Seize(ghost k0: Store, mover: Id, victim: Id, to: Square, n: nat, framesPerMove: int)
      requires mover in loc && IsKinematic(flags, victim) && IsSquare(to)
      requires keys == k0[Key(mover, Location, cursor) := At(loc[mover])]
      modifies this`keys, this`flags, this`cursor, this`nextId, this`loc
      ensures
        var cells := Fresh(old(nextId), n);
        var after := Place(to, old(loc)[mover].z);
        && keys == CaptureKeys(k0, mover, old(loc)[mover], after, victim, true, cells, old(cursor), framesPerMove)
        && flags == CaptureFlags(old(flags), victim, cells)
        && loc == old(loc)[mover := after]
        && cursor == old(cursor) + framesPerMove && nextId == old(nextId) + n
    {
      var c := cursor;
      var cells := Shatter(k0, mover, loc[mover], victim, n);
      Arrive(mover, to, c + framesPerMove);
    }

    /** The victim's fracture: n new cells, the victim retired and the cells
        staged around the current frame c; the cursor ends at c - 1. */
    method Shatter(ghost k0: Store, mover: Id, before: Point, victim: Id, n: nat) returns (cells: seq<Id>)
      requires keys == k0[Key(mover, Location, cursor) := At(before)]
      requires IsKinematic(flags, victim)
      modifies this`keys, this`flags, this`cursor, this`nextId
      ensures cells == Fresh(old(nextId), n) && nextId == old(nextId) + n
      ensures keys == CellsStaged(VictimStaged(k0, mover, before, victim, true, cells, old(cursor)), cells, old(cursor))
      ensures flags == CaptureFlags(old(flags), victim, cells)
      ensures cursor == old(cursor) - 1
    {
      var c := cursor;
      cells := RetireVictim(k0, mover, before, victim, n);
      StageCells(cells, c);
    }

    /** The cells' part of a capture at frame c: held without collision at
        c - 1, free and colliding at c, hidden at frame 0, shown at c - 1. */
    method StageCells(cells: seq<Id>, c: int)
      modifies this`keys, this`flags, this`cursor
      ensures keys == CellsStaged(old(keys), cells, c)
      ensures flags == CellsFlags(old(flags), cells)
      ensures cursor == c - 1
    {
      cursor := c - 1;
      CellPass2(cells, Kinematic, true, Collision, false);
      cursor := c;
      CellPass2(cells, Kinematic, false, Collision, true);
      cursor := 0;
      CellPass2(cells, Hide, true, HideRender, true);
      cursor := c - 1;
      CellPass2(cells, Hide, false, HideRender, false);
    }

    /** A move that neither castles nor captures: the mover is keyframed where
        it stands, the cursor advances one move, and the mover is keyframed
        at the centre of the target square, keeping its height. */
    method SimpleMove(m: Move, framesPerMove: int) returns (err: Option<Error>)
      requires Valid() && ValidMove(m) && !m.castling && !m.capture
      modifies this`board, this`keys, this`loc, this`cursor
      ensures err.None? <==> MoveBoard(old(board), m).Ok?
      ensures err.Some? ==> MoveBoard(old(board), m) == Err(err.value) && unchanged(this)
      ensures err.None? ==>
        var mover := old(board)[m.from];
        var after := Place(m.to, old(loc)[mover].z);
        && board == MoveBoard(old(board), m).value
        && cursor == old(cursor) + framesPerMove
        && loc == old(loc)[mover := after]
        && keys == old(keys)[Key(mover, Location, old(cursor)) := At(old(loc)[mover])]
                            [Key(mover, Location, old(cursor) + framesPerMove) := At(after)]
        && Valid()
    {
      if m.from !in board {
        return Some(MissingOccupant(m.from));
      }
      var mover := board[m.from];
      KeyframeLocation(mover);
      Arrive(mover, m.to, cursor + framesPerMove);
      board := board[m.to := board[m.from]];
      board := board - {m.from};
      MoveConsistent(old(board), m, old(loc), pieces, flags, nextId, loc, flags, nextId);
      return None;
    }

    /** At `frame`, the piece moved to the centre of square `to`, keeping
        its height, and keyframed there. */
    method Arrive(id: Id, to: Square, frame: int)
      requires id in loc && IsSquare(to)
      modifies this`keys, this`loc, this`cursor
      ensures cursor == frame
      ensures loc == old(loc)[id := Place(to, old(loc)[id].z)]
      ensures keys == old(keys)[Key(id, Location, frame) := At(Place(to, old(loc)[id].z))]
    {
      cursor := frame;
      loc := loc[id := Place(to, loc[id].z)];
      KeyframeLocation(id);
    }

    /** King and rook keyframed where they stand, the cursor advanced one
        move, and both keyframed at the centres of their destinations,
        keeping their heights. */
    method MovePair(king: Id, kingTo: Square, rook: Id, rookTo: Square, framesPerMove: int)
      requires king in loc && rook in loc && IsSquare(kingTo) && IsSquare(rookTo)
      modifies this`keys, this`loc, this`cursor
      ensures
        var c := old(cursor);
        var kingAfter := Place(kingTo, old(loc)[king].z);
        var rookAfter := Place(rookTo, old(loc)[rook].z);
        && cursor == c + framesPerMove
        && loc == old(loc)[king := kingAfter][rook := rookAfter]
        && keys == old(keys)[Key(king, Location, c) := At(old(loc)[king])]
                            [Key(rook, Location, c) := At(old(loc)[rook])]
                            [Key(king, Location, c + framesPerMove) := At(kingAfter)]
                            [Key(rook, Location, c + framesPerMove) := At(rookAfter)]
    {
      KeyframeLocation(king);
      KeyframeLocation(rook);
      Arrive(king, kingTo, cursor + framesPerMove);
      Arrive(rook, rookTo, cursor);
    }

    /** Castling: king and rook are keyframed where they stand, the cursor
        advances one move, and both are keyframed at their destinations,
        keeping their heights; both origins empty. */
    method Castle(m: Move, framesPerMove: int) returns (err: Option<Error>)
      requires Valid() && ValidMove(m) && m.castling
      modifies this`board, this`keys, this`loc, this`cursor
      ensures err.None? <==> MoveBoard(old(board), m).Ok?
      ensures err.Some? ==> MoveBoard(old(board), m) == Err(err.value)
      ensures !Lookups(old(board), m) ==> unchanged(this)
      ensures Lookups(old(board), m) ==>
        var (rookFrom, rookDest) := CastlingRook(m.to).value;
        var king := old(board)[m.from];
        var rook := old(board)[rookFrom];
        var kingAfter := Place(m.to, old(loc)[king].z);
        var rookAfter := Place(rookDest, old(loc)[rook].z);
        var c := old(cursor);
        && cursor == c + framesPerMove
        && loc == old(loc)[king := kingAfter][rook := rookAfter]
        && keys == old(keys)[Key(king, Location, c) := At(old(loc)[king])]
                            [Key(rook, Location, c) := At(old(loc)[rook])]
                            [Key(king, Location, c + framesPerMove) := At(kingAfter)]
                            [Key(rook, Location, c + framesPerMove) := At(rookAfter)]
        // a rook looked up on the king's own square is popped with the king
        && board == if err.None? then MoveBoard(old(board), m).value else old(board) - {m.from}
      ensures err.None? ==> Valid()
    {
      if m.from !in board {
        return Some(MissingOccupant(m.from));
      }
      var king := board[m.from];
      var rooks := CastlingRook(m.to);
      if rooks.None? {
        return Some(UnboundRook(m.to));
      }
      var (rookFrom, rookDest) := rooks.value;
      if rookFrom !in board {
        return Some(MissingOccupant(rookFrom));
      }
      var rook := board[rookFrom];
      MovePair(king, m.to, rook, rookDest, framesPerMove);
      board := board - {m.from};
      if rookFrom !in board {
        return Some(MissingOccupant(rookFrom));
      }
      board := board - {rookFrom};
      board := board[m.to := king];
      board := board[rookDest := rook];
      MoveConsistent(old(board), m, old(loc), pieces, flags, nextId, loc, flags, nextId);
      return None;
    }

    /** A capture: the victim on the target square is retired and replaced
        by the cells of its fracture, then the capturer moves in as in a
        simple move. */
    method Capture(m: Move, framesPerMove: int) returns (err: Option<Error>)
      requires Valid() && ValidMove(m) && IsCapture(m)
      modifies this`board, this`keys, this`loc, this`cursor, this`flags, this`nextId
      ensures err.None? <==> MoveBoard(old(board), m).Ok?
      ensures err.Some? ==> MoveBoard(old(board), m) == Err(err.value)
      ensures m.from !in old(board) ==> unchanged(this)
      ensures m.from in old(board) && m.to !in old(board) ==>
        var mover := old(board)[m.from];
        && keys == old(keys)[Key(mover, Location, old(cursor)) := At(old(loc)[mover])]
        && board == old(board) && cursor == old(cursor) && loc == old(loc)
        && flags == old(flags) && nextId == old(nextId)
      ensures err.None? ==>
        var mover := old(board)[m.from];
        var victim := old(board)[m.to];
        var cells := Fresh(old(nextId), m.cells);
        var after := Place(m.to, old(loc)[mover].z);
        && board == MoveBoard(old(board), m).value
        && cursor == old(cursor) + framesPerMove
        && nextId == old(nextId) + m.cells
        && loc == old(loc)[mover := after]
        && keys == CaptureKeys(old(keys), mover, old(loc)[mover], after, victim, true,
                               cells, old(cursor), framesPerMove)
        && flags == CaptureFlags(old(flags), victim, cells)
        && Valid()
    {
      if m.from !in board {
        return Some(MissingOccupant(m.from));
      }
      var mover := board[m.from];
      KeyframeLocation(mover);
      if m.to !in board {
        return Some(MissingOccupant(m.to));
      }
      Take(old(keys), m, framesPerMove);
      return None;
    }

    /** A capture once both lookups have succeeded and the capturer's
        location at the current frame is recorded over k0: the victim
        shatters, the capturer lands on the target, and the board moves the
        capturer's entry onto the target square. */
    method Take(ghost k0: Store, m: Move, framesPerMove: int)
      requires Valid() && ValidMove(m) && IsCapture(m) && m.from in board && m.to in board
      requires keys == k0[Key(board[m.from], Location, cursor) := At(loc[board[m.from]])]
      modifies this`board, this`keys, this`loc, this`cursor, this`flags, this`nextId
      ensures
        var mover := old(board)[m.from];
        var victim := old(board)[m.to];
        var cells := Fresh(old(nextId), m.cells);
        var after := Place(m.to, old(loc)[mover].z);
        && MoveBoard(old(board), m).Ok?
        && board == MoveBoard(old(board), m).value
        && cursor == old(cursor) + framesPerMove
        && nextId == old(nextId) + m.cells
        && loc == old(loc)[mover := after]
        && keys == CaptureKeys(k0, mover, old(loc)[mover], after, victim, true,
                               cells, old(cursor), framesPerMove)
        && flags == CaptureFlags(old(flags), victim, cells)
        && Valid()
    {
      var mover := board[m.from];
      var victim := board[m.to];
      Seize(k0, mover, victim, m.to, m.cells, framesPerMove);
      board := board[m.to := board[m.from]];
      board := board - {m.from};
      CaptureConsistent(old(board), m, old(loc), pieces, old(flags), old(nextId), loc[mover], m.cells);
    }

    /** A promotion: a new piece of the promoted kind, owned by `side`, on
        the target square, keyframed at the current frame. */
    method Promote(m: Move, side: Side) returns (id: Id)
      requires IsSquare(m.to) && m.promotion.Some?
      modifies this
      ensures id == old(nextId) && nextId == id + 1
      ensures board == old(board)[m.to := id]
      ensures pieces == old(pieces)[id := Piece(m.promotion.value, side)]
      ensures loc == old(loc)[id := Place(m.to, Height(m.promotion.value))]
      ensures keys == old(keys)[Key(id, Location, cursor) := At(Place(m.to, Height(m.promotion.value)))]
      ensures cursor == old(cursor) && flags == old(flags)
    {
      id := InstantiatePiece(m.promotion.value, side, m.to);
      board := board[m.to := id];
    }

    /** One move by its branch, tried in the order castling, capture,
        simple move. */
    method Step(m: Move, framesPerMove: int) returns (err: Option<Error>)
      requires Valid() && ValidMove(m)
      modifies this
      ensures err.None? <==> MoveBoard(old(board), m).Ok?
      ensures err.Some? ==> MoveBoard(old(board), m) == Err(err.value)
      ensures old(nextId) <= nextId
      ensures err.None? ==>
        && board == MoveBoard(old(board), m).value
        && cursor == old(cursor) + framesPerMove
        && Valid()
    {
      if m.castling {
        err := Castle(m, framesPerMove);
      } else if m.capture {
        err := Capture(m, framesPerMove);
      } else {
        err := SimpleMove(m, framesPerMove);
      }
    }

    /** Plays the moves in order, `first` moving first, until the list ends,
        a move promotes, or a test run passes move index 10. */
    method Play(moves: seq<Move>, framesPerMove: int, first: Side, test: bool) returns (r: Outcome)
      requires Valid()
      requires forall i :: 0 <= i < |moves| ==> ValidMove(moves[i])
      modifies this
      ensures Reports(old(board), old(nextId), moves, first, test, r, board, pieces)
      ensures r.Finished? ==> cursor == old(cursor) + r.played * framesPerMove
      ensures r.Finished? && r.halt != Promoted ==> Valid()
    {
      ghost var b0 := board;
      var i := 0;
      while i < |moves|
        invariant 0 <= i <= |moves|
        invariant Valid() && old(nextId) <= nextId
        invariant Horizon(moves, test) == HorizonFrom(moves, test, i)
        invariant 0 < i ==> !Halts(moves, test, i - 1)
        invariant Replay(b0, moves[..i]) == Reached(board)
        invariant cursor == old(cursor) + i * framesPerMove
        decreases |moves| - i
      {
        ghost var c := cursor;
        var stop := Turn(b0, old(nextId), moves, i, framesPerMove, first, test);
        assert c + framesPerMove == old(cursor) + (i + 1) * framesPerMove;
        if stop.Some? {
          return stop.value;
        }
        i := i + 1;
      }
      RunOut(moves, test);
      return Finished(|moves|, Exhausted);
    }

    /** Move i of the game: played by its branch, then the game stops when
        the move failed, promoted, or is past index 10 in a test run. */
    method Turn(ghost b0: map<Square, Id>, ghost n0: Id, moves: seq<Move>, i: nat,
                framesPerMove: int, first: Side, test: bool) returns (stop: Option<Outcome>)
      requires i < |moves| && ValidMove(moves[i]) && Valid() && n0 <= nextId
      requires Replay(b0, moves[..i]) == Reached(board)
      requires Horizon(moves, test) == HorizonFrom(moves, test, i)
      modifies this
      ensures n0 <= nextId
      ensures stop.None? ==>
        && Valid() && Replay(b0, moves[..i + 1]) == Reached(board)
        && !Halts(moves, test, i) && Horizon(moves, test) == HorizonFrom(moves, test, i + 1)
      ensures stop.Some? ==> Reports(b0, n0, moves, first, test, stop.value, board, pieces)
      ensures stop.None? || stop.value.Finished? ==> cursor == old(cursor) + framesPerMove
      ensures stop.Some? && stop.value.Finished? ==>
        stop.value.played == i + 1 && (stop.value.halt != Promoted ==> Valid())
    {
      var m := moves[i];
      ReplayNext(b0, moves, i);
      var err := Step(m, framesPerMove);
      if err.Some? {
        CrashWithin(b0, moves, test, i);
        return Some(Failed(err.value, i));
      }
      if m.promotion.Some? {
        HaltWithin(moves, test, i);
        var id := Promote(m, SideToMove(first, i));
        return Some(Finished(i + 1, Promoted));
      }
      if test && i > 10 {
        HaltWithin(moves, test, i);
        return Some(Finished(i + 1, Cutoff));
      }
      return None;
    }
  }

  /** What a game over the moves from board b0 reports: the horizon is the
      number of moves processed; the game fails exactly when replaying the
      horizon fails, at the same move and with the same lookup; otherwise it
      names why it stopped and ends on the replayed board, where a promotion
      adds, on the promoting move's target, a new piece of the promoted kind
      owned by the side that moved. */
  ghost predicate Reports(b0: map<Square, Id>, n0: Id, moves: seq<Move>, first: Side, test: bool,
                          r: Outcome, board: map<Square, Id>, pieces: map<Id, Piece>)
  {
    var h := Horizon(moves, test);
    var run := Replay(b0, moves[..h]);
    && (r.Failed? <==> run.Crashed?)
    && (r.Failed? ==> r.error == run.error && r.at == run.at)
    && (r.Finished? ==>
          && r.played == h && r.halt == HaltAfter(moves, test, h)
          && (r.halt != Promoted ==> board == run.board)
          && (r.halt == Promoted ==>
                var to := moves[h - 1].to;
                && to in board && board == run.board[to := board[to]]
                && board[to] >= n0
                && board[to] in pieces
                && pieces[board[to]] == Piece(moves[h - 1].promotion.value, SideToMove(first, h - 1))))
  }

  /** A move that fails inside the horizon fails the replay of the whole
      horizon at the same index. */
  lemma CrashWithin(b: map<Square, Id>, moves: seq<Move>, test: bool, i: nat)
    requires i < |moves| && Horizon(moves, test) == HorizonFrom(moves, test, i)
    requires Replay(b, moves[..i + 1]).Crashed?
    ensures i < Horizon(moves, test)
    ensures Replay(b, moves[..Horizon(moves, test)]) == Replay(b, moves[..i + 1])
  {
    var h := Horizon(moves, test);
    assert moves[..h][..i + 1] == moves[..i + 1];
    ReplayCrashStays(b, moves[..h], i + 1);
  }

  /** A halting move is the last one processed, and names why. */
  lemma HaltWithin(moves: seq<Move>, test: bool, i: nat)
    requires i < |moves| && Horizon(moves, test) == HorizonFrom(moves, test, i)
    requires Halts(moves, test, i)
    ensures Horizon(moves, test) == i + 1
    ensures HaltAfter(moves, test, i + 1) == if moves[i].promotion.Some? then Promoted else Cutoff
  {
  }

  /** Without a halting move every move is processed. */
  lemma RunOut(moves: seq<Move>, test: bool)
    requires Horizon(moves, test) == HorizonFrom(moves, test, |moves|)
    requires 0 < |moves| ==> !Halts(moves, test, |moves| - 1)
    ensures Horizon(moves, test) == |moves| && moves[..|moves|] == moves
    ensures HaltAfter(moves, test, |moves|) == Exhausted
  {
  }
}
