/**
 * The class Game of QLink (QLink/game/Game.hpp, Game.cpp, Effect.cpp and
 * the EffectSet members of Effect.hpp that run hooks): its fields, the
 * inputs a front-end sets between ticks, and the tick itself, each run step
 * by step on the fields and proved to leave the state the matching function
 * of LinkTick gives.
 *
 * The random engine m_random is not a field: each method that draws takes
 * the tick's draws as a Chance.
 */
module LinkGame {
  import opened StdTypes
  import opened LinkGrid
  import opened LinkEffect
  import opened LinkTick

  /** The game a default-constructed Game holds: no grid, no players, nothing pending. */
  function Blank(): (s: GameState)
    ensures !s.over && !s.paused && |s.players| == 0 && Active(s.effects) == []
  {
    ClearedInactive();
    GameState(0, Board(0, 0, []), [], None, false, false, false, [], Cleared(),
              EffectBlock(Coord(0, 0), Plus1S), false, false)
  }

  /** Player::Move on a player value: the asked move adds up over a tick. */
  function Asked(p: Player, dx: int, dy: int): (q: Player)
    ensures q.dx - p.dx == dx && q.dy - p.dy == dy
    ensures q == p.(dx := q.dx, dy := q.dy)
  {
    p.(dx := p.dx + dx, dy := p.dy + dy)
  }

  /**
   * A single key press after clear_update decides the step: one to the
   * right or down when the player is not at the far edge, one to the left
   * or up when not at the near edge, and no step otherwise.
   */
  lemma OneKeyStep(p: Player, w: U32, h: U32, dx: int, dy: int)
    requires p.position.x <= w + 1 && p.position.y <= h + 1 && w + 2 < UINT32_MOD && h + 2 < UINT32_MOD
    requires p.dx == 0 && p.dy == 0 && (dx == 0 || dy == 0)
    ensures var c, n := p.position, NewPos(Asked(p, dx, dy), w, h);
      n == if dx > 0 && c.x <= w then Coord(c.x + 1, c.y)
           else if dy > 0 && c.y <= h then Coord(c.x, c.y + 1)
           else if dx < 0 && c.x > 0 then Coord(c.x - 1, c.y)
           else if dy < 0 && c.y > 0 then Coord(c.x, c.y - 1)
           else Coord(NO_MOVE, NO_MOVE)
  {
  }

  /** EffectSet::Insert<t> is OnActive when the counter is 0, then the counter change. */
  lemma InsertSteps(s: GameState, s1: GameState, target: Target, t: EffectType, ch: Chance)
    requires Sized(s.board) && Fair(ch) && Targets(s, target)
    requires s1 == if Remaining(SetOf(s, target), t) == 0 then AfterActive(s, t, ch) else s
    ensures Targets(s1, target)
    ensures AfterInsert(s, target, t, ch) == WithSet(s1, target, Inserted(SetOf(s1, target), t))
  {
  }

  /** Game::do_update past the pause check: the effects, the player loop, then the rest on its tally. */
  lemma RunSteps(s: GameState, t: Tally, ch: Chance)
    requires Sized(s.board) && Fair(ch) && |s.available| > 0 && !s.over && s.paused == s.togglePause
    requires t == AfterPlayersFrom(Tally(AfterEffectsFrom(s.(paused := false), s.nextSecond, 0), false, false), 0, ch)
    ensures Sized(t.state.board) && |t.state.available| > 0
    ensures Tick(s, ch) == AfterClock(AfterPlace(AfterResets(t.state), t.created, ch), t.check)
  {
  }

  class Game {
    var time: U32
    const grid: Grid
    var players: seq<Player>
    var nextSolution: Option<(Coord, Coord)>
    var over: bool
    var showHint: bool
    var paused: bool
    var available: seq<EffectType>
    var effects: EffectSet
    var effectBlock: EffectBlock
    /** m_update: the inputs gathered since the last tick. */
    var nextSecond: bool
    var togglePause: bool

    function Value(): GameState
      reads this, grid
    {
      GameState(time, grid.Value(), players, nextSolution, over, showHint, paused, available,
                effects, effectBlock, nextSecond, togglePause)
    }

    /** Game(): every field value-initialised; the grid has no cells. */
    constructor ()
      ensures Value() == Blank() && fresh(grid)
    {
      grid := new Grid();
      time, players, nextSolution := 0, [], None;
      over, showHint, paused := false, false, false;
      available, effects, effectBlock := [], Cleared(), EffectBlock(Coord(0, 0), Plus1S);
      nextSecond, togglePause := false, false;
    }

    /** Game::IsValid: some player and a grid with cells. */
    predicate IsValid()
      reads this, grid
    {
      |players| > 0 && grid.width > 0 && grid.height > 0
    }

    /** Game::NextSecond: a second has passed since the last tick. */
    method NextSecond()
      modifies this
      ensures Value() == old(Value()).(nextSecond := true)
    {
      nextSecond := true;
    }

    /** Game::TogglePause: the next tick flips the pause. */
    method TogglePause()
      modifies this
      ensures Value() == old(Value()).(togglePause := true)
    {
      togglePause := true;
    }

    /** Player::Move on player i of the game. */
    method Move(i: nat, dx: int, dy: int)
      requires i < |players|
      modifies this
      ensures Value() == old(Value()).(players := old(players)[i := Asked(old(players[i]), dx, dy)])
    {
      players := players[i := players[i].(dx := players[i].dx + dx, dy := players[i].dy + dy)];
    }

    /** Game::clear_update: no second, no toggle and no move pending. */
    method ClearUpdate()
      modifies this
      ensures Value() == ClearedInputs(old(Value()))
    {
      nextSecond, togglePause := false, false;
      ghost var ps := players;
      for j := 0 to |players|
        invariant |players| == |ps| && Value() == old(Value()).(nextSecond := false, togglePause := false, players := players)
        invariant forall k :: 0 <= k < |ps| ==> players[k] == if k < j then ps[k].(dx := 0, dy := 0) else ps[k]
      {
        players := players[j := players[j].(dx := 0, dy := 0)];
      }
      assert players == ClearedInputs(old(Value())).players;
    }

    /** OnHold of effect t, over the set of target. */
    method OnHold(t: EffectType, target: Target)
      requires Targets(Value(), target)
      modifies this
      ensures Value() == AfterHold(old(Value()), t, target)
    {
      if target.PlayerSet? {
        var i := target.index;
        if t == Freeze {
          players := players[i := players[i].(dx := 0, dy := 0)];
        } else if t == Dizzy {
          players := players[i := players[i].(dx := -players[i].dx, dy := -players[i].dy)];
        }
      }
    }

    /** OnEnded of effect t: the end of Hint hides the hint. */
    method OnEnded(t: EffectType)
      modifies this
      ensures Value() == AfterEnded(old(Value()), t)
    {
      if t == Hint {
        showHint := false;
      }
    }

    /**
     * Effect<Shuffle>::OnActive: reshuffle the grid, keep its first matching
     * pair as the hint, then move the players off the blocks.
     */
    method Reshuffle(ch: Chance)
      requires Sized(grid.Value()) && Fair(ch)
      modifies this, grid
      ensures Value() == AfterShuffle(old(Value()), ch)
    {
      var sol := grid.Shuffle(ch.shuffle, ch.rounds);
      nextSolution := Some(if sol.Some? then sol.value else (Coord(0, 0), Coord(0, 0)));
      Relocate(ch);
    }

    /**
     * The player loop of Effect<Shuffle>::OnActive: each player loses its
     * activation and joints, and one that stands on a block goes to a drawn
     * free cell that no player moved before it took.
     */
    method Relocate(ch: Chance)
      requires Sized(grid.Value()) && Fair(ch)
      modifies this
      ensures Value() == old(Value()).(players := Relocated(grid.Value(), old(players), {}, 0, ch))
    {
      ghost var ps, b := players, grid.Value();
      var used: set<Coord> := {};
      var i := 0;
      while i < |players|
        invariant i <= |players| == |ps|
        invariant Value() == old(Value()).(players := players)
        invariant Relocated(b, players, used, i, ch) == Relocated(b, ps, {}, 0, ch)
        decreases |players| - i
      {
        var p := players[i].(activation := None, joints := []);
        if Cell(grid.Value(), p.position) != 0 {
          DrawInRange(ch, i);
          var pos := grid.GetRandomSpace(used, Draw(ch, i));
          p := p.(position := pos);
          used := used + {pos};
        }
        players := players[i := p];
        i := i + 1;
      }
      assert Relocated(b, players, used, i, ch) == players;
    }

    /** OnActive of effect t. */
    method OnActive(t: EffectType, ch: Chance)
      requires Sized(grid.Value()) && Fair(ch)
      modifies this, grid
      ensures Value() == AfterActive(old(Value()), t, ch)
    {
      match t
      case Plus1S =>
        nextSecond := false;
        time := (time + 30) % UINT32_MOD;
      case Shuffle =>
        Reshuffle(ch);
      case Hint =>
        showHint := true;
      case Freeze =>
      case Dizzy =>
    }

    /** Write counter k of the set of target. */
    method SetCounter(target: Target, k: nat, v: U32)
      requires Targets(Value(), target) && k < EFFECT_NUM
      modifies this
      ensures Value() == WithSet(old(Value()), target, EffectSet(SetOf(old(Value()), target).counts[k := v]))
    {
      match target
      case GameSet =>
        effects := EffectSet(effects.counts[k := v]);
      case PlayerSet(i) =>
        players := players[i := players[i].(effects := EffectSet(players[i].effects.counts[k := v]))];
    }

    /**
     * EffectSet::Insert<t> on the set of target: OnActive when t had no time
     * left, then Duration(t) more seconds, in uint32_t arithmetic.
     */
    method Insert(target: Target, t: EffectType, ch: Chance)
      requires Sized(grid.Value()) && Fair(ch) && Targets(Value(), target)
      modifies this, grid
      ensures Value() == AfterInsert(old(Value()), target, t, ch)
    {
      ghost var s0 := Value();
      ActivateIdle(target, t, ch);
      ghost var s1 := Value();
      var k := Ordinal(t);
      var v := (SetOf(Value(), target).counts[k] + Duration(t)) % UINT32_MOD;
      assert EffectSet(SetOf(s1, target).counts[k := v]) == Inserted(SetOf(s1, target), t);
      SetCounter(target, k, v);
      InsertSteps(s0, s1, target, t, ch);
    }

    /** The first half of EffectSet::Insert<t>: OnActive when t has no time left in the set of target. */
    method ActivateIdle(target: Target, t: EffectType, ch: Chance)
      requires Sized(grid.Value()) && Fair(ch) && Targets(Value(), target)
      modifies this, grid
      ensures Value() == if Remaining(SetOf(old(Value()), target), t) == 0 then AfterActive(old(Value()), t, ch) else old(Value())
      ensures Targets(Value(), target)
    {
      if SetOf(Value(), target).counts[Ordinal(t)] == 0 {
        OnActive(t, ch);
      }
    }

    /**
     * Effect<>::AddEffect(t) for an effect picked by player `picker`: into
     * the game's set, or into the set of every player but the picker.
     */
    method AddEffect(t: EffectType, picker: nat, ch: Chance)
      requires Sized(grid.Value()) && Fair(ch) && picker < |players|
      modifies this, grid
      ensures Value() == AfterAddEffect(old(Value()), t, picker, ch)
    {
      match Field(t)
      case Global =>
        Insert(GameSet, t, ch);
      case Local =>
        assert false;
      case Exclude =>
        for j := 0 to |players|
          invariant Sized(grid.Value()) && |players| == |old(players)|
          invariant AfterInsertOthers(Value(), t, picker, j, ch) == AfterInsertOthers(old(Value()), t, picker, 0, ch)
        {
          InsertOther(j, t, picker, ch);
        }
    }

    /** One pass of the player loop of AddEffect: Insert into player j's set unless j picked the effect. */
    method InsertOther(j: nat, t: EffectType, picker: nat, ch: Chance)
      requires Sized(grid.Value()) && Fair(ch) && Field(t) == Exclude && j < |players|
      modifies this, grid
      ensures Sized(grid.Value()) && |players| == |old(players)|
      ensures AfterInsertOthers(Value(), t, picker, j + 1, ch) == AfterInsertOthers(old(Value()), t, picker, j, ch)
    {
      if j != picker {
        Insert(PlayerSet(j), t, ch);
      }
    }

    /**
     * EffectSet::Update on the set of target: each timed type with time left
     * loses a second when one has passed, then holds, or ends at zero.
     */
    method UpdateSet(target: Target, nextSecond: bool)
      requires Targets(Value(), target)
      modifies this
      ensures Value() == AfterUpdateFrom(old(Value()), target, nextSecond, 0)
    {
      for k := 0 to EFFECT_NUM
        invariant Targets(Value(), target)
        invariant AfterUpdateFrom(Value(), target, nextSecond, k) == AfterUpdateFrom(old(Value()), target, nextSecond, 0)
      {
        ghost var s := Value();
        UpdateType(target, TypeAt(k), nextSecond);
        assert AfterUpdateFrom(s, target, nextSecond, k) == AfterUpdateFrom(Value(), target, nextSecond, k + 1);
      }
    }

    /** The part of EffectSet::Update for type t. */
    method UpdateType(target: Target, t: EffectType, nextSecond: bool)
      requires Targets(Value(), target)
      modifies this
      ensures Value() == AfterUpdateType(old(Value()), target, t, nextSecond)
    {
      if Duration(t) > 0 {
        var c := SetOf(Value(), target).counts[Ordinal(t)];
        if c != 0 {
          if nextSecond {
            c := c - 1;
          }
          ghost var e := SetOf(Value(), target);
          assert EffectSet(e.counts[Ordinal(t) := c]) == Ticked(e, t, nextSecond);
          SetCounter(target, Ordinal(t), c);
          if c != 0 {
            OnHold(t, target);
          } else {
            OnEnded(t);
          }
        }
      }
    }

    /** Effect<>::Update: each player's set with that player, then the game's own set. */
    method UpdateEffects(nextSecond: bool)
      modifies this
      ensures Value() == AfterEffectsFrom(old(Value()), nextSecond, 0)
    {
      for i := 0 to |players|
        invariant |players| == |old(players)|
        invariant AfterEffectsFrom(Value(), nextSecond, i) == AfterEffectsFrom(old(Value()), nextSecond, 0)
      {
        UpdateSet(PlayerSet(i), nextSecond);
      }
      UpdateSet(GameSet, nextSecond);
    }

    /** Reset Empty Activation for player i. */
    method ResetPlayer(i: nat)
      requires i < |players|
      modifies this
      ensures Value() == old(Value()).(players := old(players)[i := ResetActivation(old(players[i]), grid.Value())])
    {
      var p := players[i];
      if p.activation.Some? && Cell(grid.Value(), p.activation.value) == 0 {
        players := players[i := p.(activation := None)];
      }
    }

    /** The "Move, Activation & Link" block of do_update for player i; linked is whether it made a link. */
    method MovePlayer(i: nat) returns (linked: bool)
      requires Sized(grid.Value()) && i < |players|
      modifies this, grid
      ensures (Value(), linked) == AfterMove(old(Value()), i)
    {
      var p := players[i];
      var c := p.position;
      var np := Coord(NO_MOVE, NO_MOVE);
      if p.dx > 0 && c.x <= grid.width {
        np := Coord(Inc(c.x), c.y);
      } else if p.dy > 0 && c.y <= grid.height {
        np := Coord(c.x, Inc(c.y));
      } else if p.dx < 0 && c.x > 0 {
        np := Coord(Dec(c.x), c.y);
      } else if p.dy < 0 && c.y > 0 {
        np := Coord(c.x, Dec(c.y));
      }
      linked := false;
      if np.x != NO_MOVE {
        p := p.(joints := []);
        if Cell(grid.Value(), np) != 0 {
          var joints := None;
          if p.activation.Some? {
            joints := grid.IsLinked(p.activation.value, np);
          }
          if joints.Some? {
            grid.Set(p.activation.value, 0);
            grid.Set(np, 0);
            p := p.(joints := joints.value, activation := None, score := Inc(p.score));
            linked := true;
          } else {
            p := p.(activation := Some(np), joints := []);
          }
        } else {
          p := p.(position := np);
        }
        players := players[i := p];
      }
    }

    /** One pass of the player loop of do_update, with check_next_solution and create_next_effect. */
    method PlayerStep(i: nat, check: bool, created: bool, ch: Chance) returns (check': bool, created': bool)
      requires Sized(grid.Value()) && Fair(ch) && i < |players|
      modifies this, grid
      ensures Tally(Value(), check', created') == AfterPlayer(Tally(old(Value()), check, created), i, ch)
    {
      ResetPlayer(i);
      var linked := MovePlayer(i);
      check', created' := check || linked, created;
      if !created && players[i].position == effectBlock.coord {
        created' := true;
        AddEffect(effectBlock.kind, i, ch);
      }
    }

    /** The second player loop of do_update: Reset Empty Activation for every player. */
    method ResetActivations()
      modifies this
      ensures Value() == AfterResets(old(Value()))
    {
      ghost var ps, b := players, grid.Value();
      for j := 0 to |players|
        invariant |players| == |ps| && Value() == old(Value()).(players := players)
        invariant forall k :: 0 <= k < |ps| ==> players[k] == if k < j then ResetActivation(ps[k], b) else ps[k]
      {
        ResetPlayer(j);
      }
      assert players == AfterResets(old(Value())).players;
    }

    /**
     * "Create Another Effect": when the block was picked, a new one on a
     * drawn free cell that no player stands on, of a drawn available type.
     */
    method PlaceEffect(created: bool, ch: Chance)
      requires Sized(grid.Value()) && Fair(ch) && |available| > 0
      modifies this
      ensures Value() == AfterPlace(old(Value()), created, ch)
    {
      if created {
        var used: set<Coord> := {};
        for j := 0 to |players|
          invariant used == Positions(players[..j])
        {
          assert players[..j + 1] == players[..j] + [players[j]];
          used := used + {players[j].position};
        }
        assert players[..|players|] == players;
        DrawInRange(ch, |players|);
        var c := grid.GetRandomSpace(used, Draw(ch, |players|));
        effectBlock := EffectBlock(c, available[ch.roll % |available|]);
      }
    }

    /** "Update Time" and "Check Game Over" of do_update. */
    method UpdateClock(check: bool)
      requires Sized(grid.Value())
      modifies this
      ensures Value() == AfterClock(old(Value()), check)
    {
      if nextSecond && time != 0 {
        time := time - 1;
      }
      if time == 0 {
        over := true;
      } else if check {
        var sol := grid.HasSolution();
        nextSolution := sol;
        if sol.None? {
          over := true;
        }
      }
    }

    /** The player loop of do_update. */
    method PlayerLoop(ch: Chance) returns (check: bool, created: bool)
      requires Sized(grid.Value()) && Fair(ch)
      modifies this, grid
      ensures Tally(Value(), check, created) == AfterPlayersFrom(Tally(old(Value()), false, false), 0, ch)
    {
      check, created := false, false;
      var i := 0;
      while i < |players|
        invariant Sized(grid.Value())
        invariant AfterPlayersFrom(Tally(Value(), check, created), i, ch) == AfterPlayersFrom(Tally(old(Value()), false, false), 0, ch)
        decreases |players| - i
      {
        ghost var t := Tally(Value(), check, created);
        check, created := PlayerStep(i, check, created, ch);
        assert AfterPlayersFrom(t, i, ch) == AfterPlayersFrom(Tally(Value(), check, created), i + 1, ch);
        i := i + 1;
      }
    }

    /** Game::do_update. */
    method DoUpdate(ch: Chance)
      requires Sized(grid.Value()) && Fair(ch) && |available| > 0
      modifies this, grid
      ensures Value() == Tick(old(Value()), ch)
    {
      if over {
        return;
      }
      if togglePause {
        paused := !paused;
      }
      if paused {
        return;
      }
      ghost var s0 := old(Value());
      UpdateEffects(nextSecond);
      var check, created := PlayerLoop(ch);
      RunSteps(s0, Tally(Value(), check, created), ch);
      ResetActivations();
      PlaceEffect(created, ch);
      UpdateClock(check);
    }

    /** Game::Update: a tick, then the inputs are cleared. */
    method Update(ch: Chance)
      requires Sized(grid.Value()) && Fair(ch) && |available| > 0
      modifies this, grid
      ensures Value() == ClearedInputs(Tick(old(Value()), ch))
    {
      DoUpdate(ch);
      ClearUpdate();
    }
  }
}
