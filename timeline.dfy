/** The keyframe store: a sparse map from (object, property, frame) to the
    value recorded there. A later write to the same frame overwrites an
    earlier one, so the store is written in any frame order. */
module Timeline {
  import opened Chess

  /** The animated properties: location, rigid_body.kinematic,
      rigid_body.collision_groups[0], hide and hide_render. */
  datatype Channel = Location | Kinematic | Collision | Hide | HideRender

  datatype Key = Key(obj: Id, channel: Channel, frame: int)

  datatype Value = At(point: Point) | Flag(on: bool)

  type Store = map<Key, Value>

  /** Entry k is the same, or equally absent, in both stores. */
  predicate Agrees(r: Store, keys: Store, k: Key)
  {
    (k in r <==> k in keys) && (k in keys ==> r[k] == keys[k])
  }

  /** Store r holds value v at entry k. */
  predicate Records(r: Store, k: Key, v: Value)
  {
    k in r && r[k] == v
  }

  /** The entries one pass over the fracture cells records, cell by cell:
      `channel` set to `on` at `frame`. */
  function CellWrites(cells: seq<Id>, channel: Channel, frame: int, on: bool): Store
    decreases |cells|
  {
    if cells == [] then map[]
    else CellWrites(cells[..|cells| - 1], channel, frame, on)[Key(cells[|cells| - 1], channel, frame) := Flag(on)]
  }

  /** A pass records exactly one entry per cell, all with the same value. */
  lemma {:induction false} CellWritesAt(cells: seq<Id>, channel: Channel, frame: int, on: bool, k: Key)
    ensures k in CellWrites(cells, channel, frame, on) <==> k.obj in cells && k.channel == channel && k.frame == frame
    ensures k in CellWrites(cells, channel, frame, on) ==> CellWrites(cells, channel, frame, on)[k] == Flag(on)
    decreases |cells|
  {
    if cells != [] {
      var n := |cells| - 1;
      CellWritesAt(cells[..n], channel, frame, on, k);
      assert k.obj in cells <==> k.obj in cells[..n] || k.obj == cells[n] by {
        assert cells == cells[..n] + [cells[n]];
      }
    }
  }

  /** One pass over the cells, applied on top of store m, seen at entry k. */
  lemma Pass(m: Store, cells: seq<Id>, channel: Channel, frame: int, on: bool, k: Key)
    ensures k.obj in cells && k.channel == channel && k.frame == frame ==>
      k in m + CellWrites(cells, channel, frame, on) && (m + CellWrites(cells, channel, frame, on))[k] == Flag(on)
    ensures !(k.obj in cells && k.channel == channel && k.frame == frame) ==>
      Agrees(m + CellWrites(cells, channel, frame, on), m, k)
  {
    CellWritesAt(cells, channel, frame, on, k);
  }

  /** The store after a capture at frame c, written in the order the capture
      records its keyframes: the capturer's location at c; the victim's
      kinematic flag at c and false at c + 1; the cells kinematic at c; the
      victim visible with collision at frame 0 and hidden without collision
      at c - 1 (VictimStaged); then the cells kinematic without collision at
      c - 1, free with collision at c, hidden at frame 0 and shown at c - 1
      (CellsStaged); last the capturer's new location at c + framesPerMove. */
  function CaptureKeys(keys: Store, mover: Id, before: Point, after: Point,
                       victim: Id, kinematic: bool, cells: seq<Id>,
                       c: int, framesPerMove: int): Store
  {
    var staged := VictimStaged(keys, mover, before, victim, kinematic, cells, c);
    CellsStaged(staged, cells, c)[Key(mover, Location, c + framesPerMove) := At(after)]
  }

  function VictimStaged(keys: Store, mover: Id, before: Point,
                        victim: Id, kinematic: bool, cells: seq<Id>, c: int): Store
  {
    var k1 := keys[Key(mover, Location, c) := At(before)];
    var k2 := k1[Key(victim, Kinematic, c) := Flag(kinematic)]
                [Key(victim, Kinematic, c + 1) := Flag(false)];
    var k3 := k2 + CellWrites(cells, Kinematic, c, true);
    var k4 := k3[Key(victim, Collision, 0) := Flag(true)]
                [Key(victim, Hide, 0) := Flag(false)]
                [Key(victim, HideRender, 0) := Flag(false)];
    k4[Key(victim, Collision, c - 1) := Flag(false)]
      [Key(victim, Hide, c - 1) := Flag(true)]
      [Key(victim, HideRender, c - 1) := Flag(true)]
  }

  function CellsStaged(keys: Store, cells: seq<Id>, c: int): Store
  {
    var k6 := keys + CellWrites(cells, Kinematic, c - 1, true) + CellWrites(cells, Collision, c - 1, false);
    var k7 := k6 + CellWrites(cells, Kinematic, c, false) + CellWrites(cells, Collision, c, true);
    var k8 := k7 + CellWrites(cells, Hide, 0, true) + CellWrites(cells, HideRender, 0, true);
    k8 + CellWrites(cells, Hide, c - 1, false) + CellWrites(cells, HideRender, c - 1, false)
  }

  /** What the cell passes leave at entry k: entries of other objects are
      untouched; for a cell and c >= 2, its eight slots hold their final
      values and its other entries are untouched. */
  lemma CellsStagedAt(keys: Store, cells: seq<Id>, c: int, k: Key)
    ensures k.obj !in cells ==> Agrees(CellsStaged(keys, cells, c), keys, k)
    ensures k.obj in cells && c >= 2 ==>
      var r := CellsStaged(keys, cells, c);
      && (k in CellSlots(k.obj, c) ==> Records(r, k, Flag(CellSettled(k, c))))
      && (k !in CellSlots(k.obj, c) ==> Agrees(r, keys, k))
  {
    if k.obj in cells && c >= 2 && k in CellSlots(k.obj, c) {
      CellsStagedSlot(keys, cells, c, k);
    } else {
      CellsStagedPasses(keys, cells, c, k);
    }
  }

  /** A cell's slot ends on its settled value. */
  lemma CellsStagedSlot(keys: Store, cells: seq<Id>, c: int, k: Key)
    requires k.obj in cells && c >= 2 && k in CellSlots(k.obj, c)
    ensures Records(CellsStaged(keys, cells, c), k, Flag(CellSettled(k, c)))
  {
    CellsStagedPasses(keys, cells, c, k);
  }

  /** The eight cell passes one at a time, as seen from entry k. */
  lemma CellsStagedPasses(keys: Store, cells: seq<Id>, c: int, k: Key)
    ensures k.obj !in cells ==> Agrees(CellsStaged(keys, cells, c), keys, k)
    ensures k.obj in cells && c >= 2 && k !in CellSlots(k.obj, c) ==>
      Agrees(CellsStaged(keys, cells, c), keys, k)
    ensures var r := CellsStaged(keys, cells, c);
      && (k.obj in cells && k.channel == Kinematic && k.frame == c - 1 ==> Records(r, k, Flag(true)))
      && (k.obj in cells && k.channel == Kinematic && k.frame == c ==> Records(r, k, Flag(false)))
      && (k.obj in cells && k.channel == Collision && k.frame == c - 1 ==> Records(r, k, Flag(false)))
      && (k.obj in cells && k.channel == Collision && k.frame == c ==> Records(r, k, Flag(true)))
      && (k.obj in cells && (k.channel == Hide || k.channel == HideRender) && k.frame == c - 1 ==> Records(r, k, Flag(false)))
      && (k.obj in cells && (k.channel == Hide || k.channel == HideRender) && k.frame == 0 && c != 1 ==> Records(r, k, Flag(true)))
  {
    var k6a := keys + CellWrites(cells, Kinematic, c - 1, true);
    var k6 := k6a + CellWrites(cells, Collision, c - 1, false);
    var k7a := k6 + CellWrites(cells, Kinematic, c, false);
    var k7 := k7a + CellWrites(cells, Collision, c, true);
    var k8a := k7 + CellWrites(cells, Hide, 0, true);
    var k8 := k8a + CellWrites(cells, HideRender, 0, true);
    var k9a := k8 + CellWrites(cells, Hide, c - 1, false);
    var r := k9a + CellWrites(cells, HideRender, c - 1, false);
    assert r == CellsStaged(keys, cells, c);
    Pass(keys, cells, Kinematic, c - 1, true, k);
    Pass(k6a, cells, Collision, c - 1, false, k);
    Pass(k6, cells, Kinematic, c, false, k);
    Pass(k7a, cells, Collision, c, true, k);
    Pass(k7, cells, Hide, 0, true, k);
    Pass(k8a, cells, HideRender, 0, true, k);
    Pass(k8, cells, Hide, c - 1, false, k);
    Pass(k9a, cells, HideRender, c - 1, false, k);
  }

  /** The value a cell's slot settles on: kinematic only before the capture
      frame, colliding only from it on, hidden only at frame 0. */
  function CellSettled(k: Key, c: int): bool
  {
    match k.channel
    case Kinematic => k.frame == c - 1
    case Collision => k.frame == c
    case Hide => k.frame == 0
    case HideRender => k.frame == 0
    case Location => false
  }

  /** What the moves up to the victim's retirement leave at entry k. */
  lemma VictimStagedAt(keys: Store, mover: Id, before: Point,
                       victim: Id, kinematic: bool, cells: seq<Id>, c: int, k: Key)
    requires c >= 2 && mover != victim && victim !in cells && mover !in cells
    ensures var r := VictimStaged(keys, mover, before, victim, kinematic, cells, c);
      && (k == Key(mover, Location, c) ==> Records(r, k, At(before)))
      && (k in VictimSlots(victim, c) ==> Records(r, k, Flag(VictimSettled(k, c, kinematic))))
      && (k.obj in cells && k.channel == Kinematic && k.frame == c ==> Records(r, k, Flag(true)))
      && (!(k == Key(mover, Location, c) || k in VictimSlots(victim, c) || (k.obj in cells && k.channel == Kinematic && k.frame == c))
          ==> Agrees(r, keys, k))
  {
    var k1 := keys[Key(mover, Location, c) := At(before)];
    var k2 := k1[Key(victim, Kinematic, c) := Flag(kinematic)]
                [Key(victim, Kinematic, c + 1) := Flag(false)];
    Pass(k2, cells, Kinematic, c, true, k);
  }

  /** The value a victim's slot settles on: shown and colliding at frame 0,
      hidden and not colliding at c - 1, kinematic as before at c and free
      at c + 1. */
  function VictimSettled(k: Key, c: int, kinematic: bool): bool
  {
    match k.channel
    case Kinematic => k.frame == c && kinematic
    case Collision => k.frame == 0
    case Hide => k.frame != 0
    case HideRender => k.frame != 0
    case Location => false
  }

  /** The eight entries a capture at frame c records for the victim. */
  function VictimSlots(victim: Id, c: int): set<Key>
  {
    {Key(victim, Kinematic, c), Key(victim, Kinematic, c + 1),
     Key(victim, Collision, 0), Key(victim, Hide, 0), Key(victim, HideRender, 0),
     Key(victim, Collision, c - 1), Key(victim, Hide, c - 1), Key(victim, HideRender, c - 1)}
  }

  /** The eight entries a capture at frame c records for one cell. */
  function CellSlots(cell: Id, c: int): set<Key>
  {
    {Key(cell, Kinematic, c - 1), Key(cell, Collision, c - 1),
     Key(cell, Kinematic, c), Key(cell, Collision, c),
     Key(cell, Hide, 0), Key(cell, HideRender, 0),
     Key(cell, Hide, c - 1), Key(cell, HideRender, c - 1)}
  }

  /** What a capture at frame c >= 2 leaves in the store for the victim:
      shown and colliding at frame 0, hidden and not colliding from c - 1,
      kinematic as it was at c and free at c + 1; no other entry of the
      victim changes, so it is never shown again after c - 1. */
  lemma CaptureVictimTimeline(keys: Store, mover: Id, before: Point, after: Point,
                              victim: Id, kinematic: bool, cells: seq<Id>,
                              c: int, framesPerMove: int)
    requires c >= 2 && mover != victim && victim !in cells && mover !in cells
    ensures var r := CaptureKeys(keys, mover, before, after, victim, kinematic, cells, c, framesPerMove);
      && Records(r, Key(victim, Hide, 0), Flag(false)) && Records(r, Key(victim, HideRender, 0), Flag(false))
      && Records(r, Key(victim, Collision, 0), Flag(true))
      && Records(r, Key(victim, Hide, c - 1), Flag(true)) && Records(r, Key(victim, HideRender, c - 1), Flag(true))
      && Records(r, Key(victim, Collision, c - 1), Flag(false))
      && Records(r, Key(victim, Kinematic, c), Flag(kinematic))
      && Records(r, Key(victim, Kinematic, c + 1), Flag(false))
      && (forall k: Key :: k.obj == victim && k !in VictimSlots(victim, c) ==> Agrees(r, keys, k))
  {
    CaptureVictimAt(keys, mover, before, after, victim, kinematic, cells, c, framesPerMove, Key(victim, Hide, 0));
    CaptureVictimAt(keys, mover, before, after, victim, kinematic, cells, c, framesPerMove, Key(victim, HideRender, 0));
    CaptureVictimAt(keys, mover, before, after, victim, kinematic, cells, c, framesPerMove, Key(victim, Collision, 0));
    CaptureVictimAt(keys, mover, before, after, victim, kinematic, cells, c, framesPerMove, Key(victim, Hide, c - 1));
    CaptureVictimAt(keys, mover, before, after, victim, kinematic, cells, c, framesPerMove, Key(victim, HideRender, c - 1));
    CaptureVictimAt(keys, mover, before, after, victim, kinematic, cells, c, framesPerMove, Key(victim, Collision, c - 1));
    CaptureVictimAt(keys, mover, before, after, victim, kinematic, cells, c, framesPerMove, Key(victim, Kinematic, c));
    CaptureVictimAt(keys, mover, before, after, victim, kinematic, cells, c, framesPerMove, Key(victim, Kinematic, c + 1));
    forall k: Key | k.obj == victim && k !in VictimSlots(victim, c)
      ensures Agrees(CaptureKeys(keys, mover, before, after, victim, kinematic, cells, c, framesPerMove), keys, k)
    {
      CaptureVictimAt(keys, mover, before, after, victim, kinematic, cells, c, framesPerMove, k);
    }
  }

  /** A capture at frame 1, where frames 0 and c - 1 coincide: the writes
      for c - 1 come later and win, so the victim is hidden without
      collision from frame 0 on and never shown, and each cell is shown
      from frame 0 on. */
  lemma CaptureAtFirstFrame(keys: Store, mover: Id, before: Point, after: Point,
                            victim: Id, kinematic: bool, cells: seq<Id>,
                            framesPerMove: int, cell: Id)
    requires mover != victim && victim !in cells && cell in cells
    ensures var r := CaptureKeys(keys, mover, before, after, victim, kinematic, cells, 1, framesPerMove);
      && Records(r, Key(victim, Hide, 0), Flag(true)) && Records(r, Key(victim, HideRender, 0), Flag(true))
      && Records(r, Key(victim, Collision, 0), Flag(false))
      && Records(r, Key(cell, Hide, 0), Flag(false)) && Records(r, Key(cell, HideRender, 0), Flag(false))
  {
    var k2 := keys[Key(mover, Location, 1) := At(before)]
                  [Key(victim, Kinematic, 1) := Flag(kinematic)]
                  [Key(victim, Kinematic, 2) := Flag(false)];
    var staged := VictimStaged(keys, mover, before, victim, kinematic, cells, 1);
    Pass(k2, cells, Kinematic, 1, true, Key(victim, Hide, 0));
    Pass(k2, cells, Kinematic, 1, true, Key(victim, HideRender, 0));
    Pass(k2, cells, Kinematic, 1, true, Key(victim, Collision, 0));
    CellsStagedPasses(staged, cells, 1, Key(victim, Hide, 0));
    CellsStagedPasses(staged, cells, 1, Key(victim, HideRender, 0));
    CellsStagedPasses(staged, cells, 1, Key(victim, Collision, 0));
    CellsStagedPasses(staged, cells, 1, Key(cell, Hide, 0));
    CellsStagedPasses(staged, cells, 1, Key(cell, HideRender, 0));
  }

  /** A capture seen at one entry of its victim. */
  lemma CaptureVictimAt(keys: Store, mover: Id, before: Point, after: Point,
                        victim: Id, kinematic: bool, cells: seq<Id>,
                        c: int, framesPerMove: int, k: Key)
    requires c >= 2 && mover != victim && victim !in cells && mover !in cells && k.obj == victim
    ensures var r := CaptureKeys(keys, mover, before, after, victim, kinematic, cells, c, framesPerMove);
      && (k in VictimSlots(victim, c) ==> Records(r, k, Flag(VictimSettled(k, c, kinematic))))
      && (k !in VictimSlots(victim, c) ==> Agrees(r, keys, k))
  {
    VictimStagedAt(keys, mover, before, victim, kinematic, cells, c, k);
    CellsStagedAt(VictimStaged(keys, mover, before, victim, kinematic, cells, c), cells, c, k);
  }

  /** What a capture at frame c >= 2 leaves in the store for each cell:
      hidden at frame 0 and shown from c - 1, where it is still kinematic
      and not colliding; from c it is free and colliding. The free value at c
      overwrites the kinematic one the capture recorded there first. */
  lemma CaptureCellTimeline(keys: Store, mover: Id, before: Point, after: Point,
                            victim: Id, kinematic: bool, cells: seq<Id>,
                            c: int, framesPerMove: int, cell: Id)
    requires c >= 2 && cell in cells && mover != victim && victim !in cells && mover !in cells
    ensures var r := CaptureKeys(keys, mover, before, after, victim, kinematic, cells, c, framesPerMove);
      && Records(r, Key(cell, Hide, 0), Flag(true)) && Records(r, Key(cell, HideRender, 0), Flag(true))
      && Records(r, Key(cell, Hide, c - 1), Flag(false)) && Records(r, Key(cell, HideRender, c - 1), Flag(false))
      && Records(r, Key(cell, Kinematic, c - 1), Flag(true)) && Records(r, Key(cell, Collision, c - 1), Flag(false))
      && Records(r, Key(cell, Kinematic, c), Flag(false)) && Records(r, Key(cell, Collision, c), Flag(true))
      && (forall k: Key :: k.obj == cell && k !in CellSlots(cell, c) ==> Agrees(r, keys, k))
  {
    CaptureCellAt(keys, mover, before, after, victim, kinematic, cells, c, framesPerMove, Key(cell, Hide, 0));
    CaptureCellAt(keys, mover, before, after, victim, kinematic, cells, c, framesPerMove, Key(cell, HideRender, 0));
    CaptureCellAt(keys, mover, before, after, victim, kinematic, cells, c, framesPerMove, Key(cell, Hide, c - 1));
    CaptureCellAt(keys, mover, before, after, victim, kinematic, cells, c, framesPerMove, Key(cell, HideRender, c - 1));
    CaptureCellAt(keys, mover, before, after, victim, kinematic, cells, c, framesPerMove, Key(cell, Kinematic, c - 1));
    CaptureCellAt(keys, mover, before, after, victim, kinematic, cells, c, framesPerMove, Key(cell, Collision, c - 1));
    CaptureCellAt(keys, mover, before, after, victim, kinematic, cells, c, framesPerMove, Key(cell, Kinematic, c));
    CaptureCellAt(keys, mover, before, after, victim, kinematic, cells, c, framesPerMove, Key(cell, Collision, c));
    forall k: Key | k.obj == cell && k !in CellSlots(cell, c)
      ensures Agrees(CaptureKeys(keys, mover, before, after, victim, kinematic, cells, c, framesPerMove), keys, k)
    {
      CaptureCellElsewhere(keys, mover, before, after, victim, kinematic, cells, c, framesPerMove, k);
    }
  }

  /** A capture seen at one of the eight slots of one of its cells. */
  lemma CaptureCellAt(keys: Store, mover: Id, before: Point, after: Point,
                      victim: Id, kinematic: bool, cells: seq<Id>,
                      c: int, framesPerMove: int, k: Key)
    requires c >= 2 && k.obj in cells && mover != victim && victim !in cells && mover !in cells
    requires k in CellSlots(k.obj, c)
    ensures Records(CaptureKeys(keys, mover, before, after, victim, kinematic, cells, c, framesPerMove),
                    k, Flag(CellSettled(k, c)))
  {
    VictimStagedAt(keys, mover, before, victim, kinematic, cells, c, k);
    CellsStagedAt(VictimStaged(keys, mover, before, victim, kinematic, cells, c), cells, c, k);
  }

  /** A capture seen at any other entry of one of its cells. */
  lemma CaptureCellElsewhere(keys: Store, mover: Id, before: Point, after: Point,
                             victim: Id, kinematic: bool, cells: seq<Id>,
                             c: int, framesPerMove: int, k: Key)
    requires c >= 2 && k.obj in cells && mover != victim && victim !in cells && mover !in cells
    requires k !in CellSlots(k.obj, c)
    ensures Agrees(CaptureKeys(keys, mover, before, after, victim, kinematic, cells, c, framesPerMove), keys, k)
  {
    VictimStagedAt(keys, mover, before, victim, kinematic, cells, c, k);
    CellsStagedAt(VictimStaged(keys, mover, before, victim, kinematic, cells, c), cells, c, k);
  }

  /** The capturer gets its old location at the capture frame and its new
      one a move later; nothing else of it changes. */
  lemma CaptureMoverTimeline(keys: Store, mover: Id, before: Point, after: Point,
                             victim: Id, kinematic: bool, cells: seq<Id>,
                             c: int, framesPerMove: int)
    requires c >= 2 && framesPerMove != 0 && mover != victim && victim !in cells && mover !in cells
    ensures var r := CaptureKeys(keys, mover, before, after, victim, kinematic, cells, c, framesPerMove);
      && Records(r, Key(mover, Location, c), At(before))
      && Records(r, Key(mover, Location, c + framesPerMove), At(after))
      && (forall k: Key :: k.obj == mover && k != Key(mover, Location, c) && k != Key(mover, Location, c + framesPerMove) ==> Agrees(r, keys, k))
  {
    CaptureMoverAt(keys, mover, before, after, victim, kinematic, cells, c, framesPerMove, Key(mover, Location, c));
    forall k: Key | k.obj == mover && k != Key(mover, Location, c) && k != Key(mover, Location, c + framesPerMove)
      ensures Agrees(CaptureKeys(keys, mover, before, after, victim, kinematic, cells, c, framesPerMove), keys, k)
    {
      CaptureMoverAt(keys, mover, before, after, victim, kinematic, cells, c, framesPerMove, k);
    }
  }

  /** With no frames between moves, the capturer's new location overwrites
      its old one at the capture frame; nothing else of it changes. */
  lemma CaptureMoverInPlace(keys: Store, mover: Id, before: Point, after: Point,
                            victim: Id, kinematic: bool, cells: seq<Id>, c: int)
    requires c >= 2 && mover != victim && victim !in cells && mover !in cells
    ensures var r := CaptureKeys(keys, mover, before, after, victim, kinematic, cells, c, 0);
      && Records(r, Key(mover, Location, c), At(after))
      && (forall k: Key :: k.obj == mover && k != Key(mover, Location, c) ==> Agrees(r, keys, k))
  {
    forall k: Key | k.obj == mover && k != Key(mover, Location, c)
      ensures Agrees(CaptureKeys(keys, mover, before, after, victim, kinematic, cells, c, 0), keys, k)
    {
      CaptureMoverAt(keys, mover, before, after, victim, kinematic, cells, c, 0, k);
    }
  }

  /** The stores the capture has written by the time the capturer lands,
      seen at one entry of the capturer. */
  lemma CaptureMoverAt(keys: Store, mover: Id, before: Point, after: Point,
                       victim: Id, kinematic: bool, cells: seq<Id>,
                       c: int, framesPerMove: int, k: Key)
    requires c >= 2 && mover != victim && victim !in cells && mover !in cells && k.obj == mover
    ensures var r := CellsStaged(VictimStaged(keys, mover, before, victim, kinematic, cells, c), cells, c);
      && (k == Key(mover, Location, c) ==> Records(r, k, At(before)))
      && (k != Key(mover, Location, c) ==> Agrees(r, keys, k))
  {
    VictimStagedAt(keys, mover, before, victim, kinematic, cells, c, k);
    CellsStagedAt(VictimStaged(keys, mover, before, victim, kinematic, cells, c), cells, c, k);
  }

  /** A capture records nothing for objects other than the capturer, the
      victim and the cells. */
  lemma CaptureTouchesOnlyItsObjects(keys: Store, mover: Id, before: Point, after: Point,
                                     victim: Id, kinematic: bool, cells: seq<Id>,
                                     c: int, framesPerMove: int, k: Key)
    requires c >= 2 && mover != victim && victim !in cells && mover !in cells
    requires k.obj != mover && k.obj != victim && k.obj !in cells
    ensures var r := CaptureKeys(keys, mover, before, after, victim, kinematic, cells, c, framesPerMove);
      Agrees(r, keys, k)
  {
    VictimStagedAt(keys, mover, before, victim, kinematic, cells, c, k);
    CellsStagedAt(VictimStaged(keys, mover, before, victim, kinematic, cells, c), cells, c, k);
  }
}
