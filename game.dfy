/**
 * One tick of `Game.loop`: the abstract input the event queue delivered,
 * the soft-drop and auto-repeat bookkeeping, and the phase machine
 * GENERATION -> FALLING -> LOCK -> PATTERN -> ELIMINATE -> COMPLETION.
 * The pygame timer service is reduced to one field per timer event holding
 * the interval last handed to it (0 disarms); drawing is not modelled.
 */
module Games {
  import opened Constants
  import opened PieceTypes
  import opened Blocks
  import opened Pieces
  import opened PieceGenerators
  import opened LineClear

  datatype Phase = Generation | Falling | Lock | Pattern | Eliminate | Completion

  /** The keys the loop reacts to. */
  datatype Key = LeftKey | RightKey | UpKey | DownKey | SpaceKey | EscapeKey

  /**
   * What the event queue delivered since the previous tick: the keys pressed
   * and released, whether the gravity timer fired, whether either auto-repeat
   * timer fired, and whether the window was closed.
   */
  datatype Input = Input(keysDown: set<Key>, keysUp: set<Key>, falling: bool,
                         autoRepeatLeft: bool, autoRepeatRight: bool, quit: bool)

  /** The gravity interval while the down key is held. */
  const SoftDropSpeedMs: int := FallSpeedMs / 20

  /** The cells a type spawns with at the start anchor. */
  function SpawnCells(t: PieceType): seq<Block>
  {
    PieceCells(t, North, StartX, StartY, Fill)
  }

  /** Every spawn cell of `t` can drop one row onto the settled cells. */
  predicate SpawnCanFall(t: PieceType, settled: seq<Block>)
  {
    forall b :: b in SpawnCells(t) ==> b.CanFall(settled)
  }

  /** Every cell of the piece anchored at (px, py) can drop one row onto the settled cells. */
  predicate CellsCanFall(t: PieceType, o: Orientation, px: int, py: int, style: Style, settled: seq<Block>)
  {
    forall b :: b in PieceCells(t, o, px, py, style) ==> b.CanFall(settled)
  }

  /** From every anchor row in (bottom, top] the piece can drop one more row. */
  predicate ClearDropPath(t: PieceType, o: Orientation, px: int, bottom: int, top: int,
                          style: Style, settled: seq<Block>)
  {
    forall y' :: bottom < y' <= top ==> CellsCanFall(t, o, px, y', style, settled)
  }

  /** A piece that can fall from row `y` extends a clear drop path down to `y - 1`. */
  lemma PathExtends(t: PieceType, o: Orientation, px: int, y: int, top: int, style: Style, settled: seq<Block>)
    requires ClearDropPath(t, o, px, y, top, style, settled) && CellsCanFall(t, o, px, y, style, settled)
    ensures ClearDropPath(t, o, px, y - 1, top, style, settled)
  {
  }

  /**
   * A hard drop from row `top` has one landing row: the highest row at or
   * below `top` from which the piece cannot fall.
   */
  lemma LandingRowIsUnique(t: PieceType, o: Orientation, px: int, y1: int, y2: int, top: int,
                           style: Style, settled: seq<Block>)
    requires y1 <= top && ClearDropPath(t, o, px, y1, top, style, settled) && !CellsCanFall(t, o, px, y1, style, settled)
    requires y2 <= top && ClearDropPath(t, o, px, y2, top, style, settled) && !CellsCanFall(t, o, px, y2, style, settled)
    ensures y1 == y2
  {
    assert y1 < y2 ==> CellsCanFall(t, o, px, y2, style, settled);
    assert y2 < y1 ==> CellsCanFall(t, o, px, y1, style, settled);
  }

  class Game {
    var phase: Phase
    const generator: PieceGenerator
    var piece: Piece?
    /** The settled cells. */
    var blocks: seq<Block>
    var running: bool
    var autoRepeatLeft: bool
    var autoRepeatRight: bool
    var fallSpeed: int
    /** The settled cells the PATTERN phase marked for elimination. */
    var hitList: seq<Block>
    /** Interval armed for the gravity event; 0 = disarmed. */
    var fallTimer: int
    /** Interval armed for the left auto-repeat event; 0 = disarmed. */
    var leftRepeatTimer: int
    /** Interval armed for the right auto-repeat event; 0 = disarmed. */
    var rightRepeatTimer: int

    /**
     * A piece exists after the first generation; it is well formed while it
     * falls or rests, and its cells have been handed to the settled set from
     * PATTERN to COMPLETION. The hit list is non-empty only in ELIMINATE,
     * where it holds the cells of the full rows.
     */
    ghost predicate Valid()
      reads this, generator, piece
    {
      generator.Valid() &&
      (phase != Generation ==> piece != null) &&
      ((phase == Falling || phase == Lock) ==> piece != null && piece.Valid()) &&
      ((phase == Pattern || phase == Eliminate || phase == Completion) ==> piece != null && piece.blocks == []) &&
      (phase == Eliminate ==> hitList == FullRowCells(blocks, 1, BoardHeight + 1)) &&
      (phase != Eliminate ==> hitList == []) &&
      (fallSpeed == FallSpeedMs || fallSpeed == SoftDropSpeedMs)
    }

    /**
     * No two settled cells share a position, and the falling or resting piece
     * does not overlap the settled cells.
     */
    ghost predicate Sound()
      reads this, piece
    {
      NoOverlap(blocks) &&
      ((phase == Falling || phase == Lock) && piece != null ==> Disjoint(piece.blocks, blocks))
    }

    constructor ()
      ensures Valid() && Sound()
      ensures phase == Generation && piece == null && blocks == [] && hitList == []
      ensures running && !autoRepeatLeft && !autoRepeatRight && fallSpeed == FallSpeedMs
      ensures fallTimer == 0 && leftRepeatTimer == 0 && rightRepeatTimer == 0
      ensures fresh(generator) && IsFullBag(generator.bag) && generator.history == []
    {
      phase := Generation;
      generator := new PieceGenerator();
      piece := null;
      blocks := [];
      running := true;
      autoRepeatLeft := false;
      autoRepeatRight := false;
      fallSpeed := FallSpeedMs;
      hitList := [];
      fallTimer := 0;
      leftRepeatTimer := 0;
      rightRepeatTimer := 0;
    }

    /**
     * One frame: record the delivered events, apply the soft-drop speed and
     * the key releases, then advance the phase machine by one step.
     */
    method Loop(input: Input)
      requires Valid()
      modifies this, generator, piece
      ensures Valid()
      ensures old(phase) == Generation ==> phase == Falling
      ensures old(phase) == Falling ==> phase == Falling || phase == Lock
      ensures old(phase) == Lock ==> phase == Pattern
      ensures old(phase) == Pattern ==> phase == Eliminate
      ensures old(phase) == Eliminate ==> phase == Completion
      ensures old(phase) == Completion ==> phase == Generation
      ensures running == (old(running) && !input.quit && EscapeKey !in input.keysDown)
      ensures fallSpeed == if DownKey in input.keysUp then FallSpeedMs
                           else if DownKey in input.keysDown then SoftDropSpeedMs
                           else old(fallSpeed)
      ensures autoRepeatLeft == ((old(autoRepeatLeft) || input.autoRepeatLeft) && LeftKey !in input.keysUp &&
                                 !(old(phase) == Falling && RightKey in input.keysDown))
      ensures autoRepeatRight == ((old(autoRepeatRight) || input.autoRepeatRight) && RightKey !in input.keysUp &&
                                  !(old(phase) == Falling && LeftKey in input.keysDown))
      ensures old(phase) != Generation && old(Sound()) ==> Sound()
      ensures old(phase) == Generation && old(NoOverlap(blocks)) && piece.y == StartY - 1 ==> Sound()
    {
      ReceiveInput(input);
      Advance(input);
    }

    /** The phase step of a tick, dispatched on the current phase. */
    method Advance(input: Input)
      requires Valid()
      modifies this`phase, this`piece, this`blocks, this`hitList, this`fallTimer,
               this`leftRepeatTimer, this`rightRepeatTimer, this`autoRepeatLeft, this`autoRepeatRight,
               generator, piece
      ensures Valid()
      ensures old(phase) == Generation ==> phase == Falling
      ensures old(phase) == Falling ==> phase == Falling || phase == Lock
      ensures old(phase) == Lock ==> phase == Pattern
      ensures old(phase) == Pattern ==> phase == Eliminate
      ensures old(phase) == Eliminate ==> phase == Completion
      ensures old(phase) == Completion ==> phase == Generation
      ensures autoRepeatLeft == (old(autoRepeatLeft) && !(old(phase) == Falling && RightKey in input.keysDown))
      ensures autoRepeatRight == (old(autoRepeatRight) && !(old(phase) == Falling && LeftKey in input.keysDown))
      ensures old(phase) != Generation && old(Sound()) ==> Sound()
      ensures old(phase) == Generation && old(NoOverlap(blocks)) && piece.y == StartY - 1 ==> Sound()
    {
      if phase == Generation {
        GenerationStep();
      } else if phase == Falling {
        ghost var couldFall, movedY := FallingStep(input);
      } else {
        Settle();
      }
    }

    /**
     * The phases after the piece comes to rest: LOCK, PATTERN, ELIMINATE and
     * COMPLETION, each advancing to the next; COMPLETION returns to GENERATION.
     */
    method Settle()
      requires Valid() && phase in {Lock, Pattern, Eliminate, Completion}
      modifies this`blocks, this`hitList, this`phase, piece
      ensures Valid()
      ensures old(phase) == Lock ==> phase == Pattern
      ensures old(phase) == Pattern ==> phase == Eliminate
      ensures old(phase) == Eliminate ==> phase == Completion
      ensures old(phase) == Completion ==> phase == Generation
      ensures old(Sound()) ==> Sound()
    {
      match phase
      case Lock => LockStep();
      case Pattern => PatternStep();
      case Eliminate => EliminateStep();
      case Completion => phase := Generation;
    }

    /**
     * The events of the tick before the phase step: a quit request or the
     * escape key stops the game, fired auto-repeat timers raise their flags,
     * the down key switches the soft-drop speed, and releasing left or right
     * cancels that direction's auto-repeat.
     */
    method ReceiveInput(input: Input)
      modifies this`running, this`autoRepeatLeft, this`autoRepeatRight, this`fallSpeed,
               this`leftRepeatTimer, this`rightRepeatTimer
      ensures running == (old(running) && !input.quit && EscapeKey !in input.keysDown)
      ensures fallSpeed == if DownKey in input.keysUp then FallSpeedMs
                           else if DownKey in input.keysDown then SoftDropSpeedMs
                           else old(fallSpeed)
      ensures autoRepeatLeft == ((old(autoRepeatLeft) || input.autoRepeatLeft) && LeftKey !in input.keysUp)
      ensures autoRepeatRight == ((old(autoRepeatRight) || input.autoRepeatRight) && RightKey !in input.keysUp)
      ensures leftRepeatTimer == if LeftKey in input.keysUp then 0 else old(leftRepeatTimer)
      ensures rightRepeatTimer == if RightKey in input.keysUp then 0 else old(rightRepeatTimer)
    {
      if input.quit || EscapeKey in input.keysDown {
        running := false;
      }
      if input.autoRepeatLeft {
        autoRepeatLeft := true;
      }
      if input.autoRepeatRight {
        autoRepeatRight := true;
      }

      if DownKey in input.keysDown {
        fallSpeed := SoftDropSpeedMs;
      }
      if DownKey in input.keysUp {
        fallSpeed := FallSpeedMs;
      }
      if RightKey in input.keysUp {
        rightRepeatTimer := 0;
        autoRepeatRight := false;
      }
      if LeftKey in input.keysUp {
        leftRepeatTimer := 0;
        autoRepeatLeft := false;
      }
    }

    /**
     * GENERATION: draw the next piece, let it drop one row if it can, arm
     * gravity at the current speed and start FALLING.
     */
    method GenerationStep()
      requires Valid() && phase == Generation
      modifies this`piece, this`phase, this`fallTimer, generator
      ensures Valid() && phase == Falling && fresh(piece)
      ensures generator.history == old(generator.history) + [piece.pieceType] && Fair(generator.history)
      ensures piece.x == StartX && piece.orientation == North && piece.style == Fill
      ensures piece.y == if SpawnCanFall(piece.pieceType, blocks) then StartY - 1 else StartY
      ensures piece.y == StartY - 1 ==> Disjoint(piece.blocks, blocks)
      ensures fallTimer == fallSpeed
    {
      var p := Spawn();
      piece := p;
      var fell := p.Fall(blocks);
      phase := Falling;
      fallTimer := fallSpeed;
    }

    /** The next piece from the generator, at the spawn anchor with its spawn cells. */
    method Spawn() returns (p: Piece)
      requires generator.Valid()
      modifies generator
      ensures generator.Valid() && fresh(p) && p.Valid()
      ensures p.x == StartX && p.y == StartY && p.orientation == North && p.style == Fill
      ensures p.blocks == SpawnCells(p.pieceType)
      ensures generator.history == old(generator.history) + [p.pieceType] && Fair(generator.history)
    {
      p := generator.Next();
    }

    /**
     * FALLING: the horizontal moves, the rotation, re-arming gravity on a
     * soft-drop change, then hard drop and gravity, either of which can
     * move on to LOCK.
     */
    method FallingStep(input: Input) returns (ghost couldFall: bool, ghost movedY: int)
      requires Valid() && phase == Falling
      modifies this`leftRepeatTimer, this`rightRepeatTimer, this`autoRepeatLeft, this`autoRepeatRight,
               this`fallTimer, this`phase, piece
      ensures Valid() && (phase == Falling || phase == Lock)
      ensures phase == Lock ==> !piece.CanFall(blocks) && fallTimer == 0
      ensures SpaceKey in input.keysDown ==> phase == Lock
      ensures SpaceKey in input.keysDown ==>
        ClearDropPath(piece.pieceType, piece.orientation, piece.x, piece.y, movedY, piece.style, blocks)
      ensures SpaceKey !in input.keysDown && input.falling ==>
        (phase == Lock <==> !couldFall) && piece.y == movedY - (if couldFall then 1 else 0)
      ensures SpaceKey !in input.keysDown && !input.falling ==> phase == Falling
      ensures SpaceKey !in input.keysDown && !input.falling ==>
        fallTimer == if DownKey in input.keysDown || DownKey in input.keysUp then fallSpeed else old(fallTimer)
      ensures autoRepeatLeft == (old(autoRepeatLeft) && RightKey !in input.keysDown)
      ensures autoRepeatRight == (old(autoRepeatRight) && LeftKey !in input.keysDown)
      ensures old(Disjoint(piece.blocks, blocks)) ==> Disjoint(piece.blocks, blocks)
    {
      MoveInput(input);
      couldFall, movedY := piece.CanFall(blocks), piece.y;
      SoftDropInput(input);
      DropStep(input);
    }

    /**
     * The moves of a FALLING tick, in the order the loop applies them: left,
     * right, then rotation. A press of one direction cancels the other
     * direction's auto-repeat.
     */
    method MoveInput(input: Input)
      requires Valid() && phase == Falling
      modifies this`leftRepeatTimer, this`rightRepeatTimer, this`autoRepeatLeft, this`autoRepeatRight, piece
      ensures Valid()
      ensures autoRepeatLeft == (old(autoRepeatLeft) && RightKey !in input.keysDown)
      ensures autoRepeatRight == (old(autoRepeatRight) && LeftKey !in input.keysDown)
      ensures old(Disjoint(piece.blocks, blocks)) ==> Disjoint(piece.blocks, blocks)
    {
      LeftInput(input);
      RightInput(input);
      RotateInput(input);
    }

    /** Pressing or releasing the down key re-arms gravity at the current speed. */
    method SoftDropInput(input: Input)
      modifies this`fallTimer
      ensures fallTimer == if DownKey in input.keysDown || DownKey in input.keysUp then fallSpeed else old(fallTimer)
    {
      if DownKey in input.keysDown || DownKey in input.keysUp {
        fallTimer := fallSpeed;
      }
    }

    /**
     * The left key: a press moves the piece, arms the left auto-repeat and
     * cancels any right auto-repeat; otherwise a pending left auto-repeat
     * moves the piece.
     */
    method LeftInput(input: Input)
      requires Valid() && phase == Falling
      modifies this`leftRepeatTimer, this`rightRepeatTimer, this`autoRepeatRight, piece
      ensures Valid() && piece == old(piece)
      ensures var moves := (LeftKey in input.keysDown || autoRepeatLeft) && old(piece.CanMoveLeft(blocks));
        piece.x == old(piece.x) - (if moves then 1 else 0) &&
        piece.blocks == (if moves then Translated(old(piece.blocks), -1, 0) else old(piece.blocks))
      ensures piece.y == old(piece.y) && piece.orientation == old(piece.orientation)
      ensures leftRepeatTimer == if LeftKey in input.keysDown then AutoRepeatDelayMs else old(leftRepeatTimer)
      ensures rightRepeatTimer == if LeftKey in input.keysDown then 0 else old(rightRepeatTimer)
      ensures autoRepeatRight == (old(autoRepeatRight) && LeftKey !in input.keysDown)
      ensures old(Disjoint(piece.blocks, blocks)) ==> Disjoint(piece.blocks, blocks)
    {
      if LeftKey in input.keysDown {
        piece.MoveLeft(blocks);
        leftRepeatTimer := AutoRepeatDelayMs;
        rightRepeatTimer := 0;
        autoRepeatRight := false;
      } else if autoRepeatLeft {
        piece.MoveLeft(blocks);
      }
    }

    /**
     * The right key: a press moves the piece, arms the right auto-repeat and
     * cancels any left auto-repeat; otherwise a pending right auto-repeat
     * moves the piece.
     */
    method RightInput(input: Input)
      requires Valid() && phase == Falling
      modifies this`leftRepeatTimer, this`rightRepeatTimer, this`autoRepeatLeft, piece
      ensures Valid() && piece == old(piece)
      ensures var moves := (RightKey in input.keysDown || autoRepeatRight) && old(piece.CanMoveRight(blocks));
        piece.x == old(piece.x) + (if moves then 1 else 0) &&
        piece.blocks == (if moves then Translated(old(piece.blocks), 1, 0) else old(piece.blocks))
      ensures piece.y == old(piece.y) && piece.orientation == old(piece.orientation)
      ensures rightRepeatTimer == if RightKey in input.keysDown then AutoRepeatDelayMs else old(rightRepeatTimer)
      ensures leftRepeatTimer == if RightKey in input.keysDown then 0 else old(leftRepeatTimer)
      ensures autoRepeatLeft == (old(autoRepeatLeft) && RightKey !in input.keysDown)
      ensures old(Disjoint(piece.blocks, blocks)) ==> Disjoint(piece.blocks, blocks)
    {
      if RightKey in input.keysDown {
        piece.MoveRight(blocks);
        rightRepeatTimer := AutoRepeatDelayMs;
        leftRepeatTimer := 0;
        autoRepeatLeft := false;
      } else if autoRepeatRight {
        piece.MoveRight(blocks);
      }
    }

    /**
     * The up key rotates the piece clockwise, trying the kick offsets of
     * `Piece.RotateCw`; the piece stays well formed and clear of the
     * settled cells.
     */
    method RotateInput(input: Input)
      requires Valid() && phase == Falling
      modifies piece
      ensures Valid()
      ensures UpKey !in input.keysDown ==>
        piece.blocks == old(piece.blocks) && piece.x == old(piece.x) && piece.y == old(piece.y) &&
        piece.orientation == old(piece.orientation)
      ensures old(Disjoint(piece.blocks, blocks)) ==> Disjoint(piece.blocks, blocks)
    {
      if UpKey in input.keysDown {
        piece.RotateCw(blocks);
      }
    }

    /**
     * Hard drop and gravity: the space key drops the piece as far as it goes
     * and locks; a gravity event drops it one row, or locks it when it
     * cannot fall.
     */
    method DropStep(input: Input)
      requires Valid() && phase == Falling
      modifies this`fallTimer, this`phase, piece
      ensures Valid() && piece == old(piece) && (phase == Falling || phase == Lock)
      ensures phase == Lock ==> !piece.CanFall(blocks) && fallTimer == 0
      ensures SpaceKey in input.keysDown ==> phase == Lock
      ensures SpaceKey in input.keysDown ==>
        ClearDropPath(piece.pieceType, piece.orientation, piece.x, piece.y, old(piece.y), piece.style, blocks)
      ensures SpaceKey !in input.keysDown && input.falling ==>
        (phase == Lock <==> !old(piece.CanFall(blocks))) &&
        piece.y == old(piece.y) - (if old(piece.CanFall(blocks)) then 1 else 0)
      ensures SpaceKey !in input.keysDown && !input.falling ==>
        phase == Falling && piece.y == old(piece.y) && fallTimer == old(fallTimer)
      ensures piece.x == old(piece.x) && piece.orientation == old(piece.orientation) && piece.y <= old(piece.y)
      ensures old(Disjoint(piece.blocks, blocks)) ==> Disjoint(piece.blocks, blocks)
    {
      if SpaceKey in input.keysDown {
        HardDrop();
        fallTimer := 0;
        phase := Lock;
      }
      if input.falling {
        var fell := piece.Fall(blocks);
        if !fell {
          fallTimer := 0;
          phase := Lock;
        }
      }
    }

    /** Lets the piece fall until it rests on the floor or on settled cells. */
    method HardDrop()
      requires piece != null && piece.Valid()
      modifies piece
      ensures piece.Valid() && !piece.CanFall(blocks)
      ensures piece.x == old(piece.x) && piece.orientation == old(piece.orientation) && piece.y <= old(piece.y)
      ensures ClearDropPath(piece.pieceType, piece.orientation, piece.x, piece.y, old(piece.y), piece.style, blocks)
      ensures old(Disjoint(piece.blocks, blocks)) ==> Disjoint(piece.blocks, blocks)
    {
      PieceCellsCount(piece.pieceType, piece.orientation, piece.x, piece.y, piece.style);
      ghost var top := piece.y;
      var fell := piece.Fall(blocks);
      if fell {
        PathExtends(piece.pieceType, piece.orientation, piece.x, top, top, piece.style, blocks);
      }
      while fell
        invariant piece.Valid() && |piece.blocks| == 4
        invariant fell ==> forall b :: b in piece.blocks ==> b.y >= 1
        invariant !fell ==> !piece.CanFall(blocks)
        invariant piece.x == old(piece.x) && piece.orientation == old(piece.orientation) && piece.y <= old(piece.y)
        invariant ClearDropPath(piece.pieceType, piece.orientation, piece.x, piece.y, old(piece.y), piece.style, blocks)
        invariant old(Disjoint(piece.blocks, blocks)) ==> Disjoint(piece.blocks, blocks)
        decreases if fell then piece.blocks[0].y else 0
      {
        assert piece.blocks[0] in piece.blocks;
        ghost var y0 := piece.y;
        fell := piece.Fall(blocks);
        if fell {
          PathExtends(piece.pieceType, piece.orientation, piece.x, y0, old(piece.y), piece.style, blocks);
        }
      }
    }

    /** LOCK: the piece's cells join the settled set and the piece keeps none. */
    method LockStep()
      requires Valid() && phase == Lock
      modifies this`blocks, this`phase, piece
      ensures Valid() && phase == Pattern && piece == old(piece)
      ensures blocks == old(blocks) + old(piece.blocks) && piece.blocks == []
      ensures old(NoOverlap(blocks) && Disjoint(piece.blocks, blocks)) ==> NoOverlap(blocks)
    {
      PieceCellsDistinct(piece.pieceType, piece.orientation, piece.x, piece.y, piece.style);
      if NoOverlap(blocks) && Disjoint(piece.blocks, blocks) {
        NoOverlapConcat(blocks, piece.blocks);
      }
      blocks := blocks + piece.blocks;
      piece.blocks := [];
      phase := Pattern;
    }

    /**
     * PATTERN: every row from 1 to BoardHeight holding exactly BoardWidth
     * cells has its cells appended to the hit list, rows ascending.
     */
    method PatternStep()
      requires Valid() && phase == Pattern
      modifies this`hitList, this`phase
      ensures Valid() && phase == Eliminate
      ensures hitList == FullRowCells(blocks, 1, BoardHeight + 1)
      ensures forall b :: b in hitList <==> b in blocks && 1 <= b.y <= BoardHeight && IsFullRow(blocks, b.y)
    {
      var row := 1;
      while row < BoardHeight + 1
        invariant 1 <= row <= BoardHeight + 1
        invariant hitList == FullRowCells(blocks, 1, row)
      {
        var blockRow := RowOf(blocks, row);
        if |blockRow| == BoardWidth {
          hitList := hitList + blockRow;
        }
        row := row + 1;
      }
      FullRowCellsMembers(blocks, 1, BoardHeight + 1);
      phase := Eliminate;
    }

    /**
     * ELIMINATE: remove every hit cell, empty the hit list, then for each
     * cleared row, highest first, drop every cell above it by one row. The
     * result is that every survivor keeps its column and drops once per
     * cleared row below it.
     */
    method EliminateStep()
      requires Valid() && phase == Eliminate
      modifies this`blocks, this`hitList, this`phase
      ensures Valid() && phase == Completion && hitList == []
      ensures blocks == Compacted(Without(old(blocks), old(hitList)), RowsOf(old(hitList)))
      ensures old(NoOverlap(blocks)) ==> NoOverlap(blocks)
    {
      blocks := ClearRows(blocks, hitList);
      hitList := [];
      phase := Completion;
    }
  }

  /**
   * The ELIMINATE computation on the settled cells: remove the hit cells,
   * then drop the survivors row by row, the cleared rows taken highest first.
   */
  method ClearRows(blocks: seq<Block>, hitList: seq<Block>) returns (r: seq<Block>)
    ensures r == Compacted(Without(blocks, hitList), RowsOf(hitList))
    ensures NoOverlap(blocks) && hitList == FullRowCells(blocks, 1, BoardHeight + 1) ==> NoOverlap(r)
  {
    var eliminatedRows := RowsOf(hitList);
    var survivors := KillHits(blocks, hitList);
    var rows := SortedDescending(eliminatedRows);
    r := DropAbove(survivors, rows);
    assert (set x | x in rows) == eliminatedRows;
    if NoOverlap(blocks) && hitList == FullRowCells(blocks, 1, BoardHeight + 1) {
      EliminateKeepsNoOverlap(blocks, 1, BoardHeight + 1);
    }
  }

  /** The settled cells once every cell of the hit list has been removed. */
  method KillHits(blocks: seq<Block>, hitList: seq<Block>) returns (r: seq<Block>)
    ensures r == Without(blocks, hitList)
  {
    r := blocks;
    var i := 0;
    WithoutNothing(blocks);
    while i < |hitList|
      invariant 0 <= i <= |hitList|
      invariant r == Without(blocks, hitList[..i])
    {
      WithoutStep(blocks, hitList[..i], hitList[i]);
      assert hitList[..i + 1] == hitList[..i] + [hitList[i]];
      r := Without(r, [hitList[i]]);
      i := i + 1;
    }
    assert hitList[..|hitList|] == hitList;
  }

  /**
   * For each row of `rows`, highest first, every cell above that row drops
   * by one; the result is every cell lowered once per row of `rows` below it.
   */
  method DropAbove(blocks: seq<Block>, rows: seq<int>) returns (r: seq<Block>)
    requires StrictlyDecreasing(rows)
    ensures r == Compacted(blocks, set x | x in rows)
  {
    r := blocks;
    var k := 0;
    while k < |rows|
      invariant 0 <= k <= |rows| && |r| == |blocks|
      invariant forall j :: 0 <= j < |r| ==> r[j] == Lowered(blocks[j], Processed(rows, k))
    {
      var row := rows[k];
      ProcessedStep(rows, k);
      ghost var before := r;
      var n := 0;
      while n < |r|
        invariant 0 <= n <= |r| == |before|
        invariant forall j :: 0 <= j < n ==> r[j] == Lowered(blocks[j], Processed(rows, k + 1))
        invariant forall j :: n <= j < |r| ==> r[j] == before[j]
      {
        LoweredStep(blocks[n], Processed(rows, k), row);
        if r[n].y > row {
          r := r[n := r[n].Fell()];
        }
        n := n + 1;
      }
      k := k + 1;
    }
    assert rows[..|rows|] == rows;
  }

  /** The rows among the first k of a descending row list: those already processed. */
  function Processed(rows: seq<int>, k: nat): set<int>
    requires k <= |rows|
  {
    set r | r in rows[..k]
  }

  /** Processing one more row of a descending list adds a row below all processed ones. */
  lemma ProcessedStep(rows: seq<int>, k: nat)
    requires StrictlyDecreasing(rows) && k < |rows|
    ensures Processed(rows, k + 1) == Processed(rows, k) + {rows[k]}
    ensures forall r :: r in Processed(rows, k) ==> r > rows[k]
  {
    assert rows[..k + 1] == rows[..k] + [rows[k]];
  }
}
