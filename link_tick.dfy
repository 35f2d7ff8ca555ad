/**
 * What one QLink tick does (QLink/game/Game.cpp and Effect.cpp), stated as
 * functions on a value that holds every field of a Game. The class
 * LinkGame.Game runs the source's steps on its own fields, and each of its
 * methods is proved to leave the state the matching function here gives.
 * The lemmas at the end state what a tick promises.
 *
 * The random numbers a tick draws are passed in as a Chance.
 */
module LinkTick {
  import opened StdTypes
  import opened LinkGrid
  import opened LinkEffect

  /** Player (QLink/game/Player.hpp); dx and dy are m_update, the move asked for this tick. */
  datatype Player = Player(position: Coord, activation: Option<Coord>, joints: seq<Coord>,
                           effects: EffectSet, score: U32, dx: int, dy: int)

  /**
   * The random numbers of one tick. shuffle(k, s) is the arrangement of s
   * that std::shuffle gives in round k of Grid::Shuffle, which stops after
   * `rounds` rounds at the latest; space(k, n) is the value drawn on [0, n]
   * for the k-th call of GetRandomSpace in the tick (k = the player's index
   * when the Shuffle effect moves a player, k = the number of players for
   * the new effect block); roll is the m_random() value that picks the new
   * effect block's type.
   */
  datatype Chance = Chance(shuffle: (nat, seq<Block>) -> seq<Block>, rounds: nat,
                           space: (nat, U32) -> U32, roll: nat)

  /** A shuffle only rearranges the blocks, and each draw on [0, n] lies in it. */
  ghost predicate Fair(ch: Chance) {
    (forall k, s: seq<Block> :: multiset(ch.shuffle(k, s)) == multiset(s))
    && (forall k, n: U32 :: ch.space(k, n) <= n)
  }

  /** The k-th uniform draw of the tick, n => draw on [0, n]. */
  function Draw(ch: Chance, k: nat): U32 -> U32 {
    n => ch.space(k, n)
  }

  lemma DrawInRange(ch: Chance, k: nat)
    requires Fair(ch)
    ensures forall n: U32 :: Draw(ch, k)(n) <= n
  {
  }

  /** Every field of a Game (QLink/game/Game.hpp) but the random engine. */
  datatype GameState = GameState(
    time: U32, board: Board, players: seq<Player>, nextSolution: Option<(Coord, Coord)>,
    over: bool, showHint: bool, paused: bool, available: seq<EffectType>,
    effects: EffectSet, effectBlock: EffectBlock, nextSecond: bool, togglePause: bool)

  /** Whose EffectSet an Insert or Update works on: the game's own, or a player's. */
  datatype Target = GameSet | PlayerSet(index: nat)

  predicate Targets(s: GameState, target: Target) {
    target.PlayerSet? ==> target.index < |s.players|
  }

  function SetOf(s: GameState, target: Target): EffectSet
    requires Targets(s, target)
  {
    match target
    case GameSet => s.effects
    case PlayerSet(i) => s.players[i].effects
  }

  function WithSet(s: GameState, target: Target, e: EffectSet): (r: GameState)
    requires Targets(s, target)
    ensures Keeps(s, r)
  {
    match target
    case GameSet => s.(effects := e)
    case PlayerSet(i) => s.(players := s.players[i := s.players[i].(effects := e)])
  }

  /**
   * What every step of a tick before its clock keeps: the sides of the
   * board, the number of players, the available effects, the effect block,
   * and the over and paused flags.
   */
  predicate Keeps(s: GameState, r: GameState) {
    (Sized(s.board) ==> Sized(r.board))
    && r.board.width == s.board.width && r.board.height == s.board.height
    && |r.players| == |s.players| && r.available == s.available
    && r.effectBlock == s.effectBlock && r.over == s.over && r.paused == s.paused
  }

  /** r differs from s at most in the effect sets, the hint flag and the players' moves. */
  predicate EffectsOnly(s: GameState, r: GameState) {
    r.time == s.time && r.board == s.board && r.nextSolution == s.nextSolution && r.over == s.over
    && r.paused == s.paused && r.available == s.available && r.effectBlock == s.effectBlock
    && r.nextSecond == s.nextSecond && r.togglePause == s.togglePause
    && |r.players| == |s.players|
    && forall i :: 0 <= i < |s.players| ==>
      var p, q := s.players[i], r.players[i];
      q.position == p.position && q.activation == p.activation && q.joints == p.joints && q.score == p.score
  }

  /**
   * r differs from s at most in the board's blocks, the hint pair and the
   * players' positions, activations, joints and scores.
   */
  predicate MovesOnly(s: GameState, r: GameState) {
    r.time == s.time && r.over == s.over && r.showHint == s.showHint
    && r.paused == s.paused && r.available == s.available && r.effects == s.effects && r.effectBlock == s.effectBlock
    && r.nextSecond == s.nextSecond && r.togglePause == s.togglePause
    && r.board.width == s.board.width && r.board.height == s.board.height
    && |r.players| == |s.players|
    && forall i :: 0 <= i < |s.players| ==>
      var p, q := s.players[i], r.players[i];
      q.effects == p.effects && q.dx == p.dx && q.dy == p.dy
  }

  // ---------------------------------------------------------------------------
  // The effect hooks (Effect.cpp)

  /**
   * Shuffle's OnActive: reset the hint pair, shuffle the board, then take
   * every player's activation and joints away and move each player who now
   * stands on a block to a free cell no moved player took before.
   */
  function AfterShuffle(s: GameState, ch: Chance): (r: GameState)
    requires Sized(s.board) && Fair(ch)
    ensures Keeps(s, r)
  {
    ReshuffledBlocks(s.board, ch.shuffle, 0, ch.rounds);
    var b := Reshuffled(s.board, ch.shuffle, 0, ch.rounds);
    assert |b.blocks| == |multiset(b.blocks)| == |multiset(s.board.blocks)| == |s.board.blocks|;
    var sol := FirstSolution(b);
    s.(board := b,
       nextSolution := Some(if sol.Some? then sol.value else (Coord(0, 0), Coord(0, 0))),
       players := Relocated(b, s.players, {}, 0, ch))
  }

  /** The player loop of Shuffle's OnActive, from player i on; `used` holds the cells moved players took. */
  function Relocated(b: Board, ps: seq<Player>, used: set<Coord>, i: nat, ch: Chance): (r: seq<Player>)
    requires Sized(b)
    ensures |r| == |ps|
    decreases |ps| - i
  {
    if i >= |ps| then ps
    else
      var p := ps[i].(activation := None, joints := []);
      if Cell(b, p.position) != 0 then
        var pos := RandomSpace(b, used, Draw(ch, i));
        Relocated(b, ps[i := p.(position := pos)], used + {pos}, i + 1, ch)
      else Relocated(b, ps[i := p], used, i + 1, ch)
  }

  /** Effect<t>::OnActive; none of them looks at the player. */
  function AfterActive(s: GameState, t: EffectType, ch: Chance): (r: GameState)
    requires Sized(s.board) && Fair(ch)
    ensures Keeps(s, r)
  {
    match t
    case Plus1S => s.(nextSecond := false, time := (s.time + 30) % UINT32_MOD)
    case Shuffle => AfterShuffle(s, ch)
    case Hint => s.(showHint := true)
    case Freeze => s
    case Dizzy => s
  }

  /** Effect<t>::OnHold. Freeze and Dizzy change the player's move; without a player (the game's set) nothing happens. */
  function AfterHold(s: GameState, t: EffectType, target: Target): (r: GameState)
    requires Targets(s, target)
    ensures Keeps(s, r)
  {
    match target
    case GameSet => s
    case PlayerSet(i) =>
      var p := s.players[i];
      match t
      case Freeze => s.(players := s.players[i := p.(dx := 0, dy := 0)])
      case Dizzy => s.(players := s.players[i := p.(dx := -p.dx, dy := -p.dy)])
      case _ => s
  }

  /** Effect<t>::OnEnded: the hint goes away when the Hint effect runs out. */
  function AfterEnded(s: GameState, t: EffectType): GameState {
    if t == Hint then s.(showHint := false) else s
  }

  // ---------------------------------------------------------------------------
  // EffectSet::Insert and Effect<>::AddEffect

  /** EffectSet::Insert<t>: OnActive when no time of t is left, then Duration(t) more seconds. */
  function AfterInsert(s: GameState, target: Target, t: EffectType, ch: Chance): (r: GameState)
    requires Sized(s.board) && Fair(ch) && Targets(s, target)
    ensures Keeps(s, r)
  {
    var s1 := if Remaining(SetOf(s, target), t) == 0 then AfterActive(s, t, ch) else s;
    WithSet(s1, target, Inserted(SetOf(s1, target), t))
  }

  /** The player loop of an Exclude effect: Insert into the set of every player from j on but the picker. */
  function AfterInsertOthers(s: GameState, t: EffectType, picker: nat, j: nat, ch: Chance): (r: GameState)
    requires Sized(s.board) && Fair(ch) && Field(t) == Exclude
    ensures Keeps(s, r)
    decreases |s.players| - j
  {
    if j >= |s.players| then s
    else if j == picker then AfterInsertOthers(s, t, picker, j + 1, ch)
    else AfterInsertOthers(AfterInsert(s, PlayerSet(j), t, ch), t, picker, j + 1, ch)
  }

  /**
   * Effect<>::AddEffect(t) for an effect picked by player `picker`: by the
   * field of t, into the game's set or into every other player's set. The
   * third field, the picker's own set, belongs to no effect type.
   */
  function AfterAddEffect(s: GameState, t: EffectType, picker: nat, ch: Chance): (r: GameState)
    requires Sized(s.board) && Fair(ch) && picker < |s.players|
    ensures Keeps(s, r)
  {
    match Field(t)
    case Global => AfterInsert(s, GameSet, t, ch)
    case Local => assert false; s
    case Exclude => AfterInsertOthers(s, t, picker, 0, ch)
  }

  // ---------------------------------------------------------------------------
  // EffectSet::Update and Effect<>::Update

  /** One type of EffectSet::Update: a running type loses a second if one passed, then holds or ends. */
  function AfterUpdateType(s: GameState, target: Target, t: EffectType, nextSecond: bool): (r: GameState)
    requires Targets(s, target)
    ensures Keeps(s, r)
  {
    var e := SetOf(s, target);
    if Running(e, t) then
      var e1 := Ticked(e, t, nextSecond);
      var s1 := WithSet(s, target, e1);
      if Remaining(e1, t) != 0 then AfterHold(s1, t, target) else AfterEnded(s1, t)
    else s
  }

  /** EffectSet::Update from type index k on. */
  function AfterUpdateFrom(s: GameState, target: Target, nextSecond: bool, k: nat): (r: GameState)
    requires Targets(s, target)
    ensures Keeps(s, r)
    decreases EFFECT_NUM - k
  {
    if k >= EFFECT_NUM then s
    else AfterUpdateFrom(AfterUpdateType(s, target, TypeAt(k), nextSecond), target, nextSecond, k + 1)
  }

  /** Effect<>::Update from player i on: each player's set with that player, then the game's set with none. */
  function AfterEffectsFrom(s: GameState, nextSecond: bool, i: nat): (r: GameState)
    ensures Keeps(s, r)
    decreases |s.players| - i
  {
    if i >= |s.players| then AfterUpdateFrom(s, GameSet, nextSecond, 0)
    else AfterEffectsFrom(AfterUpdateFrom(s, PlayerSet(i), nextSecond, 0), nextSecond, i + 1)
  }

  // ---------------------------------------------------------------------------
  // The player loop of Game::do_update

  /** ~0u: the new position of a player who does not move. */
  const NO_MOVE: U32 := 0xFFFF_FFFF

  /** The cell a player steps to: right, down, left, up, the first its move asks for that stays in the ring. */
  function NewPos(p: Player, w: U32, h: U32): Coord {
    var c := p.position;
    if p.dx > 0 && c.x <= w then Coord(Inc(c.x), c.y)
    else if p.dy > 0 && c.y <= h then Coord(c.x, Inc(c.y))
    else if p.dx < 0 && c.x > 0 then Coord(Dec(c.x), c.y)
    else if p.dy < 0 && c.y > 0 then Coord(c.x, Dec(c.y))
    else Coord(NO_MOVE, NO_MOVE)
  }

  /** An activation on a cell that has been emptied is dropped. */
  function ResetActivation(p: Player, b: Board): Player {
    if p.activation.Some? && Cell(b, p.activation.value) == 0 then p.(activation := None) else p
  }

  /**
   * The "Move, Activation & Link" block for player i (after its activation
   * reset): a step onto an empty cell moves the player; a step onto a block
   * links it with the activated block when they match, emptying both and
   * scoring one, and otherwise activates it. Also whether a link was made.
   */
  function AfterMove(s: GameState, i: nat): (r: (GameState, bool))
    requires Sized(s.board) && i < |s.players|
    ensures Keeps(s, r.0)
  {
    var b := s.board;
    var p := s.players[i];
    var np := NewPos(p, b.width, b.height);
    if np.x == NO_MOVE then (s, false)
    else
      var p1 := p.(joints := []);
      if Cell(b, np) != 0 then
        if p1.activation.Some? && LinkJoints(b, p1.activation.value, np).Some? then
          var a := p1.activation.value;
          var p2 := p1.(joints := LinkJoints(b, a, np).value, activation := None, score := Inc(p1.score));
          (s.(board := SetCell(SetCell(b, a, 0), np, 0), players := s.players[i := p2]), true)
        else (s.(players := s.players[i := p1.(activation := Some(np), joints := [])]), false)
      else (s.(players := s.players[i := p1.(position := np)]), false)
  }

  /** What the player loop carries: the state, check_next_solution and create_next_effect. */
  datatype Tally = Tally(state: GameState, check: bool, created: bool)

  /** One pass of the player loop: reset, move, and pick up the effect block if no one has this tick. */
  function AfterPlayer(t: Tally, i: nat, ch: Chance): (r: Tally)
    requires Sized(t.state.board) && Fair(ch) && i < |t.state.players|
    ensures Keeps(t.state, r.state)
  {
    var s := t.state;
    var s0 := s.(players := s.players[i := ResetActivation(s.players[i], s.board)]);
    var m := AfterMove(s0, i);
    var s1 := m.0;
    if !t.created && s1.players[i].position == s1.effectBlock.coord then
      var kind := s1.effectBlock.kind;
      Tally(AfterAddEffect(s1, kind, i, ch), t.check || m.1, true)
    else Tally(s1, t.check || m.1, t.created)
  }

  /** The player loop from player i on. */
  function AfterPlayersFrom(t: Tally, i: nat, ch: Chance): (r: Tally)
    requires Sized(t.state.board) && Fair(ch)
    ensures Keeps(t.state, r.state)
    decreases |t.state.players| - i
  {
    if i >= |t.state.players| then t
    else AfterPlayersFrom(AfterPlayer(t, i, ch), i + 1, ch)
  }

  /** The second player loop: every activation on an emptied cell is dropped. */
  function AfterResets(s: GameState): (r: GameState)
    ensures |r.players| == |s.players|
  {
    s.(players := seq(|s.players|, j requires 0 <= j < |s.players| => ResetActivation(s.players[j], s.board)))
  }

  /** The cells the players stand on. */
  function Positions(ps: seq<Player>): set<Coord> {
    set j | 0 <= j < |ps| :: ps[j].position
  }

  /** A picked effect block is replaced by one on a free cell no player stands on, of a drawn available type. */
  function AfterPlace(s: GameState, created: bool, ch: Chance): GameState
    requires Sized(s.board) && |s.available| > 0
  {
    if created then
      s.(effectBlock := EffectBlock(RandomSpace(s.board, Positions(s.players), Draw(ch, |s.players|)),
                                    s.available[ch.roll % |s.available|]))
    else s
  }

  /** A passed second takes one off the clock; the game is over at zero, or when a link left no matching pair. */
  function AfterClock(s: GameState, check: bool): GameState {
    var time := if s.nextSecond && s.time != 0 then s.time - 1 else s.time;
    if time == 0 then s.(time := time, over := true)
    else if check then
      var sol := FirstSolution(s.board);
      if sol.None? then s.(time := time, over := true, nextSolution := None)
      else s.(time := time, nextSolution := sol)
    else s.(time := time)
  }

  /** Game::do_update. */
  function Tick(s: GameState, ch: Chance): GameState
    requires Sized(s.board) && Fair(ch) && |s.available| > 0
  {
    if s.over then s
    else
      var s1 := s.(paused := s.paused != s.togglePause);
      if s1.paused then s1
      else
        var s2 := AfterEffectsFrom(s1, s1.nextSecond, 0);
        var t := AfterPlayersFrom(Tally(s2, false, false), 0, ch);
        var s3 := AfterResets(t.state);
        AfterClock(AfterPlace(s3, t.created, ch), t.check)
  }

  /** Game::clear_update: no second, no pause toggle and no move pending. */
  function ClearedInputs(s: GameState): GameState {
    s.(nextSecond := false, togglePause := false,
       players := seq(|s.players|, j requires 0 <= j < |s.players| => s.players[j].(dx := 0, dy := 0)))
  }
}
