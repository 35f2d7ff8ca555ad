/**
 * What a QLink tick promises, proved about the functions of LinkTick: how a
 * player steps and links, how the effects age and act on the players, where
 * effects go when picked up, what Shuffle does to the board and the players,
 * and when the game is over.
 */
module LinkTickFacts {
  import opened StdTypes
  import opened LinkGrid
  import opened LinkEffect
  import opened LinkTick

  // ---------------------------------------------------------------------------
  // Moving and linking

  /**
   * A player moves exactly when one of the steps its move asks for stays in
   * the ring, and then it steps to a neighbouring cell of the ring.
   */
  lemma NewPosStep(p: Player, w: U32, h: U32)
    requires p.position.x <= w + 1 && p.position.y <= h + 1 && w + 2 < UINT32_MOD && h + 2 < UINT32_MOD
    ensures var c, n := p.position, NewPos(p, w, h);
      n.x != NO_MOVE <==> (p.dx > 0 && c.x <= w) || (p.dy > 0 && c.y <= h) || (p.dx < 0 && c.x > 0) || (p.dy < 0 && c.y > 0)
    ensures var c, n := p.position, NewPos(p, w, h);
      n.x != NO_MOVE ==> n.x <= w + 1 && n.y <= h + 1 && Abs(n.x - c.x) + Abs(n.y - c.y) == 1
  {
  }

  /** A step that makes a link: the activated block and the block stepped on match by a path of at most three segments. */
  ghost predicate Links(s: GameState, i: nat)
    requires i < |s.players|
  {
    var p := s.players[i];
    var np := NewPos(p, s.board.width, s.board.height);
    np.x != NO_MOVE && Cell(s.board, np) != 0 && p.activation.Some? && Linkable(s.board, p.activation.value, np)
  }

  /**
   * A link happens exactly when the player steps onto a block that matches
   * its activated block; then both blocks are emptied and nothing else on
   * the board, the player scores one, loses its activation and shows a path
   * that joins the two.
   */
  lemma MoveLinks(s: GameState, i: nat)
    requires Sized(s.board) && i < |s.players|
    ensures AfterMove(s, i).1 <==> Links(s, i)
    ensures Links(s, i) ==>
      var r, p, q := AfterMove(s, i).0, s.players[i], AfterMove(s, i).0.players[i];
      var a, np := p.activation.value, NewPos(p, s.board.width, s.board.height);
      q == p.(activation := None, joints := q.joints, score := Inc(p.score))
      && LinkPath(s.board, a, np, q.joints)
      && forall c :: Cell(r.board, c) == if c == a || c == np then 0 else Cell(s.board, c)
  {
    var p := s.players[i];
    var b := s.board;
    var np := NewPos(p, b.width, b.height);
    if np.x != NO_MOVE && Cell(b, np) != 0 && p.activation.Some? {
      var a := p.activation.value;
      LinkJointsMeaning(b, a, np);
      if LinkJoints(b, a, np).Some? {
        var r := AfterMove(s, i).0;
        assert r.board == SetCell(SetCell(b, a, 0), np, 0);
        forall c ensures Cell(r.board, c) == if c == a || c == np then 0 else Cell(b, c) {
          SetGet(b, a, 0, c);
          SetGet(SetCell(b, a, 0), np, 0, c);
          assert InBoard(b, a) by {
            assert Cell(b, a) != 0;
          }
          assert InBoard(b, np);
        }
      }
    }
  }

  /**
   * A step that does not link leaves the board and the score: a step onto a
   * block activates it, a step onto an empty cell goes there, and no step
   * leaves the player as it was.
   */
  lemma MoveWithoutLink(s: GameState, i: nat)
    requires Sized(s.board) && i < |s.players| && !AfterMove(s, i).1
    ensures var r, p, q := AfterMove(s, i).0, s.players[i], AfterMove(s, i).0.players[i];
      var np := NewPos(p, s.board.width, s.board.height);
      r.board == s.board
      && q == if np.x == NO_MOVE then p
              else if Cell(s.board, np) != 0 then p.(activation := Some(np), joints := [])
              else p.(position := np, joints := [])
  {
  }

  /** A step changes only the board, the stepping player and nothing else of the game. */
  lemma MoveFrame(s: GameState, i: nat)
    requires Sized(s.board) && i < |s.players|
    ensures var r := AfterMove(s, i).0;
      r == s.(board := r.board, players := s.players[i := r.players[i]])
      && r.players[i] == s.players[i].(position := r.players[i].position, activation := r.players[i].activation,
                                        joints := r.players[i].joints, score := r.players[i].score)
  {
    var r := AfterMove(s, i).0;
    var p := s.players[i];
    var np := NewPos(p, s.board.width, s.board.height);
    if np.x == NO_MOVE {
      assert r == s;
    } else if Cell(s.board, np) != 0 && p.activation.Some? && LinkJoints(s.board, p.activation.value, np).Some? {
      var a := p.activation.value;
      var q := p.(joints := LinkJoints(s.board, a, np).value, activation := None, score := Inc(p.score));
      assert r == s.(board := SetCell(SetCell(s.board, a, 0), np, 0), players := s.players[i := q]);
    } else if Cell(s.board, np) != 0 {
      assert r == s.(players := s.players[i := p.(activation := Some(np), joints := [])]);
    } else {
      assert r == s.(players := s.players[i := p.(joints := [], position := np)]);
    }
  }

  // ---------------------------------------------------------------------------
  // The end of a tick

  /** After the second player loop no activation lies on an empty cell; it only drops activations. */
  lemma ResetsDropEmpty(s: GameState)
    ensures var r := AfterResets(s);
      r == s.(players := r.players) && |r.players| == |s.players|
      && forall j :: 0 <= j < |s.players| ==>
        var p, q := s.players[j], r.players[j];
        (q.activation.Some? ==> Cell(s.board, q.activation.value) != 0)
        && q == p.(activation := q.activation) && (q.activation.Some? ==> q.activation == p.activation)
  {
  }

  /**
   * A new effect block is of an available type and, when there are free
   * cells, lies on an empty cell of the ring no player stands on. Nothing else changes.
   */
  lemma PlaceFree(s: GameState, created: bool, ch: Chance)
    requires Sized(s.board) && |s.available| > 0 && Fair(ch)
    ensures var r := AfterPlace(s, created, ch);
      r == s.(effectBlock := r.effectBlock) && (!created ==> r == s)
    ensures var r, free := AfterPlace(s, created, ch), FreeCells(s.board, Positions(s.players));
      created ==> (r.effectBlock.kind in s.available
        && (0 < |free| < UINT32_MOD ==>
          var c := r.effectBlock.coord;
          InRing(s.board, c) && Cell(s.board, c) == 0 && forall j :: 0 <= j < |s.players| ==> s.players[j].position != c))
  {
    var ps := Positions(s.players);
    RandomSpaceFree(s.board, ps, Draw(ch, |s.players|));
    forall j | 0 <= j < |s.players| ensures s.players[j].position in ps {
    }
  }

  /**
   * The clock and the end of the game: a passed second takes one off the
   * clock unless it is at zero; the game is over at zero, or when a link was
   * made and no matching pair is left; otherwise after a link the hint pair
   * is a matching pair. The board and the players do not change.
   */
  lemma ClockRules(s: GameState, check: bool)
    ensures var r := AfterClock(s, check);
      r == s.(time := r.time, over := r.over, nextSolution := r.nextSolution)
      && r.time == (if s.nextSecond && s.time != 0 then s.time - 1 else s.time)
      && (r.over <==> s.over || r.time == 0 || (check && forall c1, c2 :: !Linkable(s.board, c1, c2)))
      && (check && !r.over ==> r.nextSolution.Some? && Linkable(s.board, r.nextSolution.value.0, r.nextSolution.value.1))
      && (!check ==> r.nextSolution == s.nextSolution)
  {
    FirstSolutionMeaning(s.board);
  }
  // ---------------------------------------------------------------------------
  // Effect<>::Update

  /** The counters EffectSet::Update leaves, types k and on: each running type one second less when a second passed. */
  function TickedFrom(e: EffectSet, ns: bool, k: nat): EffectSet
    decreases EFFECT_NUM - k
  {
    if k >= EFFECT_NUM then e else TickedFrom(Ticked(e, TypeAt(k), ns), ns, k + 1)
  }

  lemma {:induction false} TickedFromRemaining(e: EffectSet, ns: bool, k: nat, t: EffectType)
    ensures Remaining(TickedFrom(e, ns, k), t) ==
      if k <= Ordinal(t) && Running(e, t) && ns then Remaining(e, t) - 1 else Remaining(e, t)
    decreases EFFECT_NUM - k
  {
    if k < EFFECT_NUM {
      var e' := Ticked(e, TypeAt(k), ns);
      TickedFromRemaining(e', ns, k + 1, t);
      TickedRemaining(e, TypeAt(k), ns, t);
      TypeAtOrdinal(t);
    }
  }

  /** A timed effect that has time left after this tick's second. */
  predicate Holds(e: EffectSet, t: EffectType, ns: bool) {
    Running(e, t) && Remaining(Ticked(e, t, ns), t) != 0
  }

  /** A timed effect that runs out with this tick's second. */
  predicate Ends(e: EffectSet, t: EffectType, ns: bool) {
    Running(e, t) && Remaining(Ticked(e, t, ns), t) == 0
  }

  /**
   * A player after the update of its own set: its counters aged, its move
   * stopped while Freeze holds, and otherwise reversed while Dizzy holds.
   */
  function Held(p: Player, ns: bool): Player {
    var e := p.effects;
    var dx, dy := if Holds(e, Freeze, ns) then 0 else p.dx, if Holds(e, Freeze, ns) then 0 else p.dy;
    p.(effects := TickedFrom(e, ns, 0),
       dx := if Holds(e, Dizzy, ns) then -dx else dx,
       dy := if Holds(e, Dizzy, ns) then -dy else dy)
  }

  /** Effect<t>::OnHold on a player. */
  function HoldPlayer(p: Player, t: EffectType): Player {
    match t
    case Freeze => p.(dx := 0, dy := 0)
    case Dizzy => p.(dx := -p.dx, dy := -p.dy)
    case _ => p
  }

  /** One type of the update, on a player's own set. */
  function StepPlayer(p: Player, t: EffectType, ns: bool): Player {
    if Running(p.effects, t) then
      var q := p.(effects := Ticked(p.effects, t, ns));
      if Remaining(q.effects, t) != 0 then HoldPlayer(q, t) else q
    else p
  }

  function PlayerSteps(p: Player, ns: bool, k: nat): Player
    decreases EFFECT_NUM - k
  {
    if k >= EFFECT_NUM then p else PlayerSteps(StepPlayer(p, TypeAt(k), ns), ns, k + 1)
  }

  /** The update runs Freeze before Dizzy, so a frozen player stays still whatever Dizzy does. */
  lemma PlayerStepsHeld(p: Player, ns: bool)
    ensures PlayerSteps(p, ns, 0) == Held(p, ns)
  {
    var e := p.effects;
    var p1 := StepPlayer(p, Plus1S, ns);
    var p2 := StepPlayer(p1, Shuffle, ns);
    var p3 := StepPlayer(p2, Hint, ns);
    var p4 := StepPlayer(p3, Freeze, ns);
    var p5 := StepPlayer(p4, Dizzy, ns);
    assert PlayerSteps(p, ns, 0) == p5;
    assert p2 == p;
    assert p3 == p.(effects := Ticked(e, Hint, ns));
    var e3 := p3.effects;
    TickedRemaining(e, Hint, ns, Freeze);
    TickedRemaining(e, Hint, ns, Dizzy);
    assert Holds(e3, Freeze, ns) == Holds(e, Freeze, ns);
    var e4 := p4.effects;
    assert e4 == Ticked(e3, Freeze, ns);
    TickedRemaining(e3, Freeze, ns, Dizzy);
    assert Holds(e4, Dizzy, ns) == Holds(e, Dizzy, ns);
    assert p5.effects == Ticked(e4, Dizzy, ns);
    assert TickedFrom(e, ns, 0) == Ticked(Ticked(Ticked(Ticked(Ticked(e, Plus1S, ns), Shuffle, ns), Hint, ns), Freeze, ns), Dizzy, ns);
  }

  /** The fields of a game no effect update touches. */
  predicate SameGame(s: GameState, r: GameState) {
    r.time == s.time && r.board == s.board && r.nextSolution == s.nextSolution && r.over == s.over
    && r.paused == s.paused && r.available == s.available && r.effectBlock == s.effectBlock
    && r.nextSecond == s.nextSecond && r.togglePause == s.togglePause
  }

  /** The three outcomes of one type of the update on player i's set: idle, holding, or ending. */
  lemma UpdateTypeCases(s: GameState, i: nat, t: EffectType, ns: bool)
    requires i < |s.players|
    ensures var p := s.players[i]; var q := p.(effects := Ticked(p.effects, t, ns));
      AfterUpdateType(s, PlayerSet(i), t, ns) ==
        if !Running(p.effects, t) then s
        else if Remaining(q.effects, t) != 0 then s.(players := s.players[i := HoldPlayer(q, t)])
        else AfterEnded(s.(players := s.players[i := q]), t)
  {
    var p := s.players[i];
    if Running(p.effects, t) {
      var q := p.(effects := Ticked(p.effects, t, ns));
      if Remaining(q.effects, t) != 0 {
        UpdateTypeHolds(s, i, t, ns);
      } else {
        UpdateTypeEnds(s, i, t, ns);
      }
    }
  }

  lemma UpdateTypeHolds(s: GameState, i: nat, t: EffectType, ns: bool)
    requires i < |s.players|
    requires var p := s.players[i]; Running(p.effects, t) && Remaining(Ticked(p.effects, t, ns), t) != 0
    ensures var p := s.players[i]; var q := p.(effects := Ticked(p.effects, t, ns));
      AfterUpdateType(s, PlayerSet(i), t, ns) == s.(players := s.players[i := HoldPlayer(q, t)])
  {
    var p := s.players[i];
    var q := p.(effects := Ticked(p.effects, t, ns));
    var s1 := WithSet(s, PlayerSet(i), q.effects);
    assert s1 == s.(players := s.players[i := q]);
    HoldIs(s1, i, t);
    assert s1.players[i := HoldPlayer(q, t)] == s.players[i := HoldPlayer(q, t)];
  }

  lemma UpdateTypeEnds(s: GameState, i: nat, t: EffectType, ns: bool)
    requires i < |s.players|
    requires var p := s.players[i]; Running(p.effects, t) && Remaining(Ticked(p.effects, t, ns), t) == 0
    ensures var p := s.players[i]; var q := p.(effects := Ticked(p.effects, t, ns));
      AfterUpdateType(s, PlayerSet(i), t, ns) == AfterEnded(s.(players := s.players[i := q]), t)
  {
    var p := s.players[i];
    var q := p.(effects := Ticked(p.effects, t, ns));
    assert WithSet(s, PlayerSet(i), q.effects) == s.(players := s.players[i := q]);
  }

  /** Updating a player's set leaves the rest of the game. */
  lemma UpdateTypeFrame(s: GameState, i: nat, t: EffectType, ns: bool)
    requires i < |s.players|
    ensures var r := AfterUpdateType(s, PlayerSet(i), t, ns);
      SameGame(s, r) && r.effects == s.effects
  {
    UpdateTypeCases(s, i, t, ns);
  }

  /** Updating a player's set only changes that player, and the hint flag when a Hint runs out. */
  lemma UpdateTypePlayer(s: GameState, i: nat, t: EffectType, ns: bool)
    requires i < |s.players|
    ensures var r := AfterUpdateType(s, PlayerSet(i), t, ns);
      r.players == s.players[i := StepPlayer(s.players[i], t, ns)]
      && r.showHint == (s.showHint && !(t == Hint && Ends(s.players[i].effects, t, ns)))
  {
    UpdateTypeCases(s, i, t, ns);
    if !Running(s.players[i].effects, t) {
      assert s.players[i := s.players[i]] == s.players;
    }
  }

  /** OnHold on player i changes that player as HoldPlayer says. */
  lemma HoldIs(s: GameState, i: nat, t: EffectType)
    requires i < |s.players|
    ensures AfterHold(s, t, PlayerSet(i)) == s.(players := s.players[i := HoldPlayer(s.players[i], t)])
  {
    if t !in {Freeze, Dizzy} {
      assert s.players[i := s.players[i]] == s.players;
    }
  }

  /** One type of the update on the game's own set. */
  lemma UpdateTypeGame(s: GameState, t: EffectType, ns: bool)
    ensures var r := AfterUpdateType(s, GameSet, t, ns);
      SameGame(s, r) && r.effects == Ticked(s.effects, t, ns) && r.players == s.players
      && r.showHint == (s.showHint && !(t == Hint && Ends(s.effects, t, ns)))
  {
    if Running(s.effects, t) {
      var s1 := WithSet(s, GameSet, Ticked(s.effects, t, ns));
      assert s1 == s.(effects := Ticked(s.effects, t, ns));
    }
  }

  lemma {:induction false} UpdateFromPlayer(s: GameState, i: nat, ns: bool, k: nat)
    requires i < |s.players|
    ensures var r := AfterUpdateFrom(s, PlayerSet(i), ns, k);
      SameGame(s, r) && r.effects == s.effects
      && r.players == s.players[i := PlayerSteps(s.players[i], ns, k)]
      && (r.showHint ==> s.showHint)
    decreases EFFECT_NUM - k
  {
    if k < EFFECT_NUM {
      var s1 := AfterUpdateType(s, PlayerSet(i), TypeAt(k), ns);
      UpdateTypeFrame(s, i, TypeAt(k), ns);
      UpdateTypePlayer(s, i, TypeAt(k), ns);
      UpdateFromPlayer(s1, i, ns, k + 1);
      assert s1.players[i] == StepPlayer(s.players[i], TypeAt(k), ns);
    }
  }

  /** Updating the game's own set: no player is touched, and the hint goes away when its Hint runs out. */
  lemma {:induction false} UpdateFromGame(s: GameState, ns: bool, k: nat)
    ensures var r := AfterUpdateFrom(s, GameSet, ns, k);
      SameGame(s, r) && r.effects == TickedFrom(s.effects, ns, k) && r.players == s.players
      && r.showHint == (s.showHint && !(k <= Ordinal(Hint) && Ends(s.effects, Hint, ns)))
    decreases EFFECT_NUM - k
  {
    if k < EFFECT_NUM {
      var t := TypeAt(k);
      var s1 := AfterUpdateType(s, GameSet, t, ns);
      UpdateTypeGame(s, t, ns);
      UpdateFromGame(s1, ns, k + 1);
      TickedRemaining(s.effects, t, ns, Hint);
      if k < Ordinal(Hint) {
        assert t != Hint;
        assert Ends(s1.effects, Hint, ns) == Ends(s.effects, Hint, ns);
      }
    }
  }

  /** Effect<>::Update leaves the rest of the game: the game's counters age and the hint can only go away. */
  lemma {:induction false} EffectsFrame(s: GameState, ns: bool, i: nat)
    ensures var r := AfterEffectsFrom(s, ns, i);
      SameGame(s, r) && r.effects == TickedFrom(s.effects, ns, 0) && (r.showHint ==> s.showHint)
      && |r.players| == |s.players|
    decreases |s.players| - i
  {
    if i >= |s.players| {
      UpdateFromGame(s, ns, 0);
    } else {
      UpdateFromPlayer(s, i, ns, 0);
      EffectsFrame(AfterUpdateFrom(s, PlayerSet(i), ns, 0), ns, i + 1);
    }
  }

  /** Effect<>::Update makes every player from i on Held: its counters aged and its move frozen or reversed. */
  lemma {:induction false} EffectsPlayers(s: GameState, ns: bool, i: nat)
    ensures var r := AfterEffectsFrom(s, ns, i);
      forall j :: 0 <= j < |s.players| ==> r.players[j] == if j < i then s.players[j] else Held(s.players[j], ns)
    decreases |s.players| - i
  {
    if i >= |s.players| {
      UpdateFromGame(s, ns, 0);
    } else {
      var s1 := AfterUpdateFrom(s, PlayerSet(i), ns, 0);
      UpdateFromPlayer(s, i, ns, 0);
      PlayerStepsHeld(s.players[i], ns);
      EffectsPlayers(s1, ns, i + 1);
      HeldStep(s.players, s1.players, AfterEffectsFrom(s1, ns, i + 1).players, ns, i);
    }
  }

  /** Holding player i, then the players after it, holds the players from i on. */
  lemma HeldStep(ps: seq<Player>, ps1: seq<Player>, rs: seq<Player>, ns: bool, i: nat)
    requires i < |ps| && ps1 == ps[i := Held(ps[i], ns)] && |rs| == |ps|
    requires forall j :: 0 <= j < |ps1| ==> rs[j] == if j < i + 1 then ps1[j] else Held(ps1[j], ns)
    ensures forall j :: 0 <= j < |ps| ==> rs[j] == if j < i then ps[j] else Held(ps[j], ns)
  {
  }

  /** What a counter holds after an update: one second less when it was running and a second passed. */
  function Aged(e: EffectSet, t: EffectType, ns: bool): int {
    if Running(e, t) && ns then Remaining(e, t) - 1 else Remaining(e, t)
  }

  /** Over a whole update, every timed counter with time left loses one second when a second passed, and only then. */
  lemma EffectsAge(s: GameState, ns: bool, t: EffectType)
    ensures var r := AfterEffectsFrom(s, ns, 0);
      Remaining(r.effects, t) == Aged(s.effects, t, ns)
      && forall j :: 0 <= j < |s.players| ==> Remaining(r.players[j].effects, t) == Aged(s.players[j].effects, t, ns)
  {
    EffectsFrame(s, ns, 0);
    EffectsPlayers(s, ns, 0);
    TickedFromRemaining(s.effects, ns, 0, t);
    forall j | 0 <= j < |s.players| ensures Remaining(Held(s.players[j], ns).effects, t) == Aged(s.players[j].effects, t, ns) {
      TickedFromRemaining(s.players[j].effects, ns, 0, t);
    }
  }
  // ---------------------------------------------------------------------------
  // Shuffle's OnActive

  /** The player loop of Shuffle's OnActive only takes activations and joints away and moves players who stand on a block. */
  lemma {:induction false} RelocatedFrame(b: Board, ps: seq<Player>, used: set<Coord>, i: nat, ch: Chance)
    requires Sized(b)
    ensures var r := Relocated(b, ps, used, i, ch);
      (forall j :: 0 <= j < |ps| && j < i ==> r[j] == ps[j])
      && (forall j :: i <= j < |ps| ==> r[j] == ps[j].(activation := None, joints := [], position := r[j].position))
      && (forall j :: i <= j < |ps| && Cell(b, ps[j].position) == 0 ==> r[j].position == ps[j].position)
    decreases |ps| - i
  {
    if i < |ps| {
      var p := ps[i].(activation := None, joints := []);
      if Cell(b, p.position) != 0 {
        var pos := RandomSpace(b, used, Draw(ch, i));
        RelocatedFrame(b, ps[i := p.(position := pos)], used + {pos}, i + 1, ch);
      } else {
        RelocatedFrame(b, ps[i := p], used, i + 1, ch);
      }
    }
  }

  /** Every set of at most n excluded cells leaves a free cell of the ring (and fewer than 2^32 of them). */
  ghost predicate Roomy(b: Board, n: nat)
    requires b.width + 2 <= UINT32_MOD && b.height + 2 <= UINT32_MOD
  {
    forall x: set<Coord> :: |x| <= n ==> 0 < |FreeCells(b, x)| < UINT32_MOD
  }

  /**
   * When the ring has room, every player moved off a block lands on an empty
   * cell of the ring that no player moved before it took.
   */
  lemma {:induction false} RelocatedSpaces(b: Board, ps: seq<Player>, used: set<Coord>, i: nat, ch: Chance)
    requires Sized(b) && Fair(ch) && Roomy(b, |ps|) && |used| <= i
    ensures var r := Relocated(b, ps, used, i, ch);
      (forall j :: i <= j < |ps| && Cell(b, ps[j].position) != 0 ==>
         InRing(b, r[j].position) && Cell(b, r[j].position) == 0 && r[j].position !in used)
      && (forall j, k :: i <= j < k < |ps| && Cell(b, ps[j].position) != 0 && Cell(b, ps[k].position) != 0 ==>
         r[j].position != r[k].position)
    decreases |ps| - i
  {
    if i < |ps| {
      var p := ps[i].(activation := None, joints := []);
      if Cell(b, p.position) != 0 {
        var pos := RandomSpace(b, used, Draw(ch, i));
        assert |used + {pos}| <= |used| + 1;
        RelocatedSpaces(b, ps[i := p.(position := pos)], used + {pos}, i + 1, ch);
        RelocatedMoved(b, ps, used, i, ch);
      } else {
        RelocatedSpaces(b, ps[i := p], used, i + 1, ch);
        RelocatedStayed(b, ps, used, i, ch);
      }
    }
  }

  /** The step of RelocatedSpaces for a player standing on an empty cell. */
  lemma RelocatedStayed(b: Board, ps: seq<Player>, used: set<Coord>, i: nat, ch: Chance)
    requires Sized(b) && i < |ps| && Cell(b, ps[i].position) == 0
    requires var ps' := ps[i := ps[i].(activation := None, joints := [])];
      var r := Relocated(b, ps', used, i + 1, ch);
      (forall j :: i + 1 <= j < |ps'| && Cell(b, ps'[j].position) != 0 ==>
         InRing(b, r[j].position) && Cell(b, r[j].position) == 0 && r[j].position !in used)
      && (forall j, k :: i + 1 <= j < k < |ps'| && Cell(b, ps'[j].position) != 0 && Cell(b, ps'[k].position) != 0 ==>
         r[j].position != r[k].position)
    ensures var r := Relocated(b, ps, used, i, ch);
      (forall j :: i <= j < |ps| && Cell(b, ps[j].position) != 0 ==>
         InRing(b, r[j].position) && Cell(b, r[j].position) == 0 && r[j].position !in used)
      && (forall j, k :: i <= j < k < |ps| && Cell(b, ps[j].position) != 0 && Cell(b, ps[k].position) != 0 ==>
         r[j].position != r[k].position)
  {
    var ps' := ps[i := ps[i].(activation := None, joints := [])];
    assert Relocated(b, ps, used, i, ch) == Relocated(b, ps', used, i + 1, ch);
    forall j | i + 1 <= j < |ps| ensures ps'[j] == ps[j] {
    }
  }

  /** The step of RelocatedSpaces for a player standing on a block. */
  lemma RelocatedMoved(b: Board, ps: seq<Player>, used: set<Coord>, i: nat, ch: Chance)
    requires Sized(b) && Fair(ch) && Roomy(b, |ps|) && |used| <= i < |ps| && Cell(b, ps[i].position) != 0
    requires var pos := RandomSpace(b, used, Draw(ch, i));
      var ps' := ps[i := ps[i].(activation := None, joints := []).(position := pos)];
      var r := Relocated(b, ps', used + {pos}, i + 1, ch);
      (forall j :: i + 1 <= j < |ps'| && Cell(b, ps'[j].position) != 0 ==>
         InRing(b, r[j].position) && Cell(b, r[j].position) == 0 && r[j].position !in used + {pos})
      && (forall j, k :: i + 1 <= j < k < |ps'| && Cell(b, ps'[j].position) != 0 && Cell(b, ps'[k].position) != 0 ==>
         r[j].position != r[k].position)
    ensures var r := Relocated(b, ps, used, i, ch);
      (forall j :: i <= j < |ps| && Cell(b, ps[j].position) != 0 ==>
         InRing(b, r[j].position) && Cell(b, r[j].position) == 0 && r[j].position !in used)
      && (forall j, k :: i <= j < k < |ps| && Cell(b, ps[j].position) != 0 && Cell(b, ps[k].position) != 0 ==>
         r[j].position != r[k].position)
  {
    var pos := RandomSpace(b, used, Draw(ch, i));
    var ps' := ps[i := ps[i].(activation := None, joints := []).(position := pos)];
    var r := Relocated(b, ps, used, i, ch);
    assert r == Relocated(b, ps', used + {pos}, i + 1, ch);
    assert 0 < |FreeCells(b, used)| < UINT32_MOD;
    RandomSpaceFree(b, used, Draw(ch, i));
    RelocatedFrame(b, ps', used + {pos}, i + 1, ch);
    assert r[i].position == pos;
    forall j | i + 1 <= j < |ps| ensures ps'[j] == ps[j] {
    }
  }

  /** The board Shuffle's OnActive leaves. */
  function ShuffledBoard(s: GameState, ch: Chance): Board {
    Reshuffled(s.board, ch.shuffle, 0, ch.rounds)
  }

  /**
   * Shuffle's OnActive rearranges the blocks, sets the hint pair to a
   * matching pair when the rounds found one, takes every activation and
   * link path away, and moves exactly the players left on a block, to
   * distinct empty cells when the ring has room. Nothing else changes.
   */
  lemma ShuffleEffect(s: GameState, ch: Chance)
    requires Sized(s.board) && Fair(ch)
    ensures var r, b := AfterShuffle(s, ch), ShuffledBoard(s, ch);
      r == s.(board := b, nextSolution := r.nextSolution, players := r.players)
      && multiset(b.blocks) == multiset(s.board.blocks) && Sized(b)
      && (FirstSolution(b).Some? ==>
            r.nextSolution == FirstSolution(b) && Linkable(b, r.nextSolution.value.0, r.nextSolution.value.1))
      && |r.players| == |s.players|
      && forall j :: 0 <= j < |s.players| ==>
        var p, q := s.players[j], r.players[j];
        q == p.(activation := None, joints := [], position := q.position)
        && (Cell(b, p.position) == 0 ==> q.position == p.position)
    ensures var r, b := AfterShuffle(s, ch), ShuffledBoard(s, ch);
      Roomy(b, |s.players|) ==>
        forall j, k :: 0 <= j < k < |s.players| && Cell(b, s.players[j].position) != 0 ==>
          InRing(b, r.players[j].position) && Cell(b, r.players[j].position) == 0
          && (Cell(b, s.players[k].position) != 0 ==> r.players[j].position != r.players[k].position)
  {
    var b := ShuffledBoard(s, ch);
    ReshuffledBlocks(s.board, ch.shuffle, 0, ch.rounds);
    assert |b.blocks| == |multiset(b.blocks)| == |multiset(s.board.blocks)| == |s.board.blocks|;
    FirstSolutionMeaning(b);
    RelocatedFrame(b, s.players, {}, 0, ch);
    if Roomy(b, |s.players|) {
      RelocatedSpaces(b, s.players, {}, 0, ch);
    }
  }
  // ---------------------------------------------------------------------------
  // EffectSet::Insert and Effect<>::AddEffect

  /** The scores of r are those of s. */
  predicate ScoresKept(s: GameState, r: GameState) {
    |r.players| == |s.players| && forall j :: 0 <= j < |s.players| ==> r.players[j].score == s.players[j].score
  }

  /** The effects that act once, Plus1S and Shuffle, have no time in e. */
  predicate Idle(e: EffectSet) {
    Remaining(e, Plus1S) == 0 && Remaining(e, Shuffle) == 0
  }

  /** So in every set of the game, and picking up Plus1S or Shuffle always makes it act. */
  predicate AllIdle(s: GameState) {
    Idle(s.effects) && forall j :: 0 <= j < |s.players| ==> Idle(s.players[j].effects)
  }

  /** EffectSet::Clear leaves the once-acting effects idle, and Insert and Update keep them so. */
  lemma IdleKept(e: EffectSet, t: EffectType, ns: bool)
    ensures Idle(Cleared())
    ensures Idle(e) ==> Idle(Inserted(e, t)) && Idle(Ticked(e, t, ns)) && Idle(TickedFrom(e, ns, 0))
  {
    TickedFromRemaining(e, ns, 0, Plus1S);
    TickedFromRemaining(e, ns, 0, Shuffle);
  }

  /**
   * OnActive changes no effect set, no score and no player's move: Shuffle
   * moves players, the others touch no player.
   */
  lemma ActiveKeeps(s: GameState, t: EffectType, ch: Chance)
    requires Sized(s.board) && Fair(ch)
    ensures var r := AfterActive(s, t, ch);
      ScoresKept(s, r) && r.effects == s.effects
      && (forall j :: 0 <= j < |s.players| ==>
            r.players[j].effects == s.players[j].effects && r.players[j].dx == s.players[j].dx && r.players[j].dy == s.players[j].dy)
      && (t != Shuffle ==> r.players == s.players && r.board == s.board)
  {
    if t == Shuffle {
      ShuffleEffect(s, ch);
    }
  }

  /** Insert into one set keeps the scores and the idle once-acting effects. */
  lemma InsertKeeps(s: GameState, target: Target, t: EffectType, ch: Chance)
    requires Sized(s.board) && Fair(ch) && Targets(s, target)
    ensures var r := AfterInsert(s, target, t, ch);
      ScoresKept(s, r) && (AllIdle(s) ==> AllIdle(r))
  {
    var s1 := if Remaining(SetOf(s, target), t) == 0 then AfterActive(s, t, ch) else s;
    if Remaining(SetOf(s, target), t) == 0 {
      ActiveKeeps(s, t, ch);
      ActiveIdle(s, t, ch);
    }
    var e := SetOf(s1, target);
    IdleKept(e, t, false);
    WithSetKeeps(s1, target, Inserted(e, t));
  }

  lemma ActiveIdle(s: GameState, t: EffectType, ch: Chance)
    requires Sized(s.board) && Fair(ch)
    ensures AllIdle(s) ==> AllIdle(AfterActive(s, t, ch))
  {
    ActiveKeeps(s, t, ch);
  }

  /** Replacing one set keeps the scores, and keeps the once-acting effects idle when the new set has them idle. */
  lemma WithSetKeeps(s: GameState, target: Target, e: EffectSet)
    requires Targets(s, target)
    ensures var r := WithSet(s, target, e);
      ScoresKept(s, r) && (AllIdle(s) && Idle(e) ==> AllIdle(r))
  {
  }


  /** Picking up an effect changes no score, and the once-acting effects stay idle. */
  lemma AddEffectKeeps(s: GameState, t: EffectType, picker: nat, ch: Chance)
    requires Sized(s.board) && Fair(ch) && picker < |s.players|
    ensures var r := AfterAddEffect(s, t, picker, ch);
      ScoresKept(s, r) && (AllIdle(s) ==> AllIdle(r))
  {
    match Field(t)
    case Global => InsertKeeps(s, GameSet, t, ch);
    case Local => assert false;
    case Exclude => OthersKeep(s, t, picker, ch);
  }

  /** Insert of Freeze or Dizzy into player j's set: OnActive does nothing, so only the counter moves. */
  lemma InsertHinder(s: GameState, j: nat, t: EffectType, ch: Chance)
    requires Sized(s.board) && Fair(ch) && j < |s.players| && Field(t) == Exclude
    ensures AfterInsert(s, PlayerSet(j), t, ch) == Hindered(s, j, t)
  {
  }

  /** Player j with t's duration added to its set and the rest of the game as it was. */
  function Hindered(s: GameState, j: nat, t: EffectType): (r: GameState)
    requires j < |s.players|
    ensures SameGame(s, r) && r.effects == s.effects && r.showHint == s.showHint && |r.players| == |s.players|
    ensures Sized(s.board) ==> Sized(r.board)
  {
    s.(players := s.players[j := s.players[j].(effects := Inserted(s.players[j].effects, t))])
  }

  /** One turn of the Exclude loop on a player other than the picker. */
  lemma OthersStep(s: GameState, t: EffectType, picker: nat, j: nat, ch: Chance)
    requires Sized(s.board) && Fair(ch) && Field(t) == Exclude && j < |s.players| && j != picker
    ensures AfterInsertOthers(s, t, picker, j, ch) == AfterInsertOthers(Hindered(s, j, t), t, picker, j + 1, ch)
  {
    InsertHinder(s, j, t, ch);
  }

  /** The Exclude loop passes over the picker. */
  lemma OthersSkip(s: GameState, t: EffectType, picker: nat, j: nat, ch: Chance)
    requires Sized(s.board) && Fair(ch) && Field(t) == Exclude && j < |s.players| && j == picker
    ensures AfterInsertOthers(s, t, picker, j, ch) == AfterInsertOthers(s, t, picker, j + 1, ch)
  {
  }

  /** Insert into every other player's set from j on touches nothing but the players' sets. */
  lemma {:induction false} InsertOthersFrame(s: GameState, t: EffectType, picker: nat, j: nat, ch: Chance)
    requires Sized(s.board) && Fair(ch) && Field(t) == Exclude
    ensures var r := AfterInsertOthers(s, t, picker, j, ch);
      SameGame(s, r) && r.effects == s.effects && r.showHint == s.showHint && |r.players| == |s.players|
    decreases |s.players| - j
  {
    if j < |s.players| {
      if j == picker {
        OthersSkip(s, t, picker, j, ch);
        InsertOthersFrame(s, t, picker, j + 1, ch);
      } else {
        var h := Hindered(s, j, t);
        OthersStep(s, t, picker, j, ch);
        InsertOthersFrame(h, t, picker, j + 1, ch);
      }
    }
  }

  /** The players after the Exclude loop from j on: each one from j on but the picker gains the duration. */
  predicate OthersHindered(s: GameState, r: GameState, t: EffectType, picker: nat, j: nat) {
    |r.players| == |s.players|
    && forall k :: 0 <= k < |s.players| ==>
      r.players[k] == if k < j || k == picker then s.players[k] else s.players[k].(effects := Inserted(s.players[k].effects, t))
  }

  /** Hindering player j, then the players after it, hinders the players from j on. */
  lemma OthersHinderedStep(s: GameState, r: GameState, t: EffectType, picker: nat, j: nat)
    requires j < |s.players| && j != picker
    requires OthersHindered(Hindered(s, j, t), r, t, picker, j + 1)
    ensures OthersHindered(s, r, t, picker, j)
  {
  }

  /** Passing over the picker keeps the players hindered. */
  lemma OthersHinderedSkip(s: GameState, r: GameState, t: EffectType, picker: nat, j: nat)
    requires j == picker
    requires OthersHindered(s, r, t, picker, j + 1)
    ensures OthersHindered(s, r, t, picker, j)
  {
  }

  /** The induction step of InsertOthers, for the picker. */
  lemma PickerTurn(s: GameState, t: EffectType, picker: nat, j: nat, ch: Chance)
    requires Sized(s.board) && Fair(ch) && Field(t) == Exclude && j < |s.players| && j == picker
    requires OthersHindered(s, AfterInsertOthers(s, t, picker, j + 1, ch), t, picker, j + 1)
    ensures OthersHindered(s, AfterInsertOthers(s, t, picker, j, ch), t, picker, j)
  {
    OthersSkip(s, t, picker, j, ch);
    OthersHinderedSkip(s, AfterInsertOthers(s, t, picker, j, ch), t, picker, j);
  }

  /** The induction step of InsertOthers, for a player other than the picker. */
  lemma OthersTurn(s: GameState, t: EffectType, picker: nat, j: nat, ch: Chance)
    requires Sized(s.board) && Fair(ch) && Field(t) == Exclude && j < |s.players| && j != picker
    requires OthersHindered(Hindered(s, j, t), AfterInsertOthers(Hindered(s, j, t), t, picker, j + 1, ch), t, picker, j + 1)
    ensures OthersHindered(s, AfterInsertOthers(s, t, picker, j, ch), t, picker, j)
  {
    OthersStep(s, t, picker, j, ch);
    OthersHinderedStep(s, AfterInsertOthers(s, t, picker, j, ch), t, picker, j);
  }

  /** Insert into every other player's set from j on: each of them gains the duration. */
  lemma {:induction false} InsertOthers(s: GameState, t: EffectType, picker: nat, j: nat, ch: Chance)
    requires Sized(s.board) && Fair(ch) && Field(t) == Exclude
    ensures OthersHindered(s, AfterInsertOthers(s, t, picker, j, ch), t, picker, j)
    decreases |s.players| - j
  {
    if j < |s.players| {
      if j == picker {
        InsertOthers(s, t, picker, j + 1, ch);
        PickerTurn(s, t, picker, j, ch);
      } else {
        InsertOthers(Hindered(s, j, t), t, picker, j + 1, ch);
        OthersTurn(s, t, picker, j, ch);
      }
    }
  }

  /** So the Exclude loop changes no score and keeps the once-acting effects idle. */
  lemma OthersKeep(s: GameState, t: EffectType, picker: nat, ch: Chance)
    requires Sized(s.board) && Fair(ch) && Field(t) == Exclude
    ensures var r := AfterInsertOthers(s, t, picker, 0, ch);
      ScoresKept(s, r) && (AllIdle(s) ==> AllIdle(r))
  {
    InsertOthers(s, t, picker, 0, ch);
    InsertOthersFrame(s, t, picker, 0, ch);
    forall j | 0 <= j < |s.players| ensures Idle(s.players[j].effects) ==> Idle(Inserted(s.players[j].effects, t)) {
      IdleKept(s.players[j].effects, t, false);
    }
  }

  lemma ExcludeRouting(s: GameState, t: EffectType, picker: nat, ch: Chance)
    requires Sized(s.board) && Fair(ch) && picker < |s.players| && Field(t) == Exclude
    ensures var r := AfterAddEffect(s, t, picker, ch);
      SameGame(s, r) && r.effects == s.effects && r.showHint == s.showHint && |r.players| == |s.players|
      && r.players[picker] == s.players[picker]
      && forall k :: 0 <= k < |s.players| && k != picker ==>
        r.players[k] == s.players[k].(effects := Inserted(s.players[k].effects, t))
  {
    InsertOthersFrame(s, t, picker, 0, ch);
    InsertOthers(s, t, picker, 0, ch);
  }

  /** A global effect runs OnActive on the game when its counter was 0, then adds its duration to the game's set. */
  lemma GlobalInsert(s: GameState, t: EffectType, picker: nat, ch: Chance)
    requires Sized(s.board) && Fair(ch) && picker < |s.players| && Field(t) == Global
    ensures AfterAddEffect(s, t, picker, ch) ==
      (if Remaining(s.effects, t) == 0 then AfterActive(s, t, ch) else s).(effects := Inserted(s.effects, t))
  {
    ActiveKeeps(s, t, ch);
  }

  /**
   * Plus1S, Shuffle and Hint go to the game's own set: its counter gains the
   * duration, no player's set, direction or score changes, and only Shuffle
   * moves blocks or players.
   */
  lemma GlobalRouting(s: GameState, t: EffectType, picker: nat, ch: Chance)
    requires Sized(s.board) && Fair(ch) && picker < |s.players| && Field(t) == Global
    ensures var r := AfterAddEffect(s, t, picker, ch);
      r.effects == Inserted(s.effects, t) && ScoresKept(s, r)
      && (forall j :: 0 <= j < |s.players| ==>
            r.players[j].effects == s.players[j].effects && r.players[j].dx == s.players[j].dx && r.players[j].dy == s.players[j].dy)
      && (t != Shuffle ==> r.players == s.players && r.board == s.board)
  {
    GlobalInsert(s, t, picker, ch);
    ActiveKeeps(s, t, ch);
  }

  /**
   * What picking a global effect does besides its counter: when none was
   * running, Plus1S gives 30 more seconds and restarts the second, Hint shows
   * the hint and Shuffle reshuffles the board; when one was running, nothing.
   */
  lemma GlobalActions(s: GameState, t: EffectType, picker: nat, ch: Chance)
    requires Sized(s.board) && Fair(ch) && picker < |s.players| && Field(t) == Global
    ensures var r := AfterAddEffect(s, t, picker, ch);
      (Remaining(s.effects, t) == 0 ==>
         (t == Plus1S ==> r.time == (s.time + 30) % UINT32_MOD && !r.nextSecond)
         && (t == Hint ==> r.showHint)
         && (t == Shuffle ==> r.board == ShuffledBoard(s, ch)))
      && (Remaining(s.effects, t) != 0 ==> r == s.(effects := r.effects))
  {
    GlobalInsert(s, t, picker, ch);
    if t == Shuffle && Remaining(s.effects, t) == 0 {
      ShuffleEffect(s, ch);
    }
  }
}
