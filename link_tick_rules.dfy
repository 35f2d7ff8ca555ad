/**
 * What a whole QLink tick (Game::do_update, QLink/game/Game.cpp) promises:
 * a game that is over stays as it is, a paused game only toggles its pause,
 * a score grows by at most one link per tick and only with a link, the
 * clock ends the game at zero, no activation is left on an empty cell, and
 * the once-acting effects never keep time in any set.
 */
module LinkTickRules {
  import opened StdTypes
  import opened LinkGrid
  import opened LinkEffect
  import opened LinkTick
  import opened LinkTickFacts

  /** Player j's score is the same in r as in s, or one more. */
  predicate ScoreStep(s: GameState, r: GameState, j: nat)
    requires j < |s.players| && j < |r.players|
  {
    r.players[j].score == s.players[j].score || r.players[j].score == Inc(s.players[j].score)
  }

  /** A link raises a score by one, in uint32_t arithmetic, so it always changes it. */
  lemma IncChanges(x: U32)
    ensures Inc(x) != x
  {
  }

  /** The move of player i changes no score but player i's, and that one by a link. */
  lemma MoveScores(s: GameState, i: nat)
    requires Sized(s.board) && i < |s.players|
    ensures var m := AfterMove(s, i); var r := m.0;
      ScoresKept(s, r.(players := r.players[i := s.players[i]]))
      && r.players[i].score == (if m.1 then Inc(s.players[i].score) else s.players[i].score)
      && r.effectBlock == s.effectBlock && r.players[i].effects == s.players[i].effects
  {
    MoveFrame(s, i);
    MoveLinks(s, i);
  }

  /** The reset of player i's activation, before the move, changes neither scores nor effects. */
  lemma ResetScores(s: GameState, i: nat)
    requires Sized(s.board) && i < |s.players|
    ensures var r := s.(players := s.players[i := ResetActivation(s.players[i], s.board)]);
      ScoresKept(s, r) && Sized(r.board) && r.effectBlock == s.effectBlock
      && (AllIdle(s) ==> AllIdle(r))
  {
  }

  /**
   * What one pass of the player loop, on player i, keeps from tally t to
   * tally m: only player i's score can change, by one, and exactly when the
   * pass found a link; the loop's flags only turn on; the once-acting
   * effects stay idle.
   */
  predicate PassScores(t: Tally, m: Tally, i: nat) {
    var s, q := t.state, m.state;
    i < |s.players| && |q.players| == |s.players|
    && (forall j :: 0 <= j < |s.players| && j != i ==> q.players[j].score == s.players[j].score)
    && ScoreStep(s, q, i)
    && (m.check <==> t.check || q.players[i].score != s.players[i].score)
    && (t.created ==> m.created)
    && (AllIdle(s) ==> AllIdle(q))
  }

  /** One pass of the player loop, AfterPlayer. */
  lemma PlayerScores(t: Tally, i: nat, ch: Chance)
    requires Sized(t.state.board) && Fair(ch) && i < |t.state.players|
    ensures PassScores(t, AfterPlayer(t, i, ch), i)
  {
    var s := t.state;
    var s0 := s.(players := s.players[i := ResetActivation(s.players[i], s.board)]);
    ResetScores(s, i);
    var m := AfterMove(s0, i);
    MoveScores(s0, i);
    IncChanges(s.players[i].score);
    var s1 := m.0;
    assert AllIdle(s) ==> AllIdle(s1) by {
      MoveFrame(s0, i);
    }
    if !t.created && s1.players[i].position == s1.effectBlock.coord {
      var kind := s1.effectBlock.kind;
      AddEffectKeeps(s1, kind, i, ch);
    }
  }

  /**
   * What the player loop from player i on keeps, from tally t to tally r:
   * each score moves by at most one, the players before i keep theirs,
   * check_next_solution ends up set exactly when it was or a score from i on
   * changed, create_next_effect only turns on, and the once-acting effects
   * stay idle.
   */
  predicate LoopScores(t: Tally, r: Tally, i: nat) {
    var s, q := t.state, r.state;
    |q.players| == |s.players|
    && (forall j :: 0 <= j < |s.players| ==> ScoreStep(s, q, j))
    && (forall j :: 0 <= j < i && j < |s.players| ==> q.players[j].score == s.players[j].score)
    && (r.check <==> t.check || exists j :: i <= j < |s.players| && q.players[j].score != s.players[j].score)
    && (t.created ==> r.created)
    && (AllIdle(s) ==> AllIdle(q))
  }

  /** Pass i, then the loop from i + 1 on, is the loop from i on. */
  lemma ChainScores(t: Tally, m: Tally, r: Tally, i: nat)
    requires PassScores(t, m, i)
    requires LoopScores(m, r, i + 1)
    ensures LoopScores(t, r, i)
  {
    var s, q := t.state, r.state;
    assert forall j :: 0 <= j < |s.players| ==> ScoreStep(s, q, j) by {
      forall j | 0 <= j < |s.players| ensures ScoreStep(s, q, j) {
        assert ScoreStep(m.state, q, j);
      }
    }
    if r.check && !t.check {
      if m.check {
        assert q.players[i].score != s.players[i].score;
      } else {
        var j :| i + 1 <= j < |s.players| && q.players[j].score != m.state.players[j].score;
        assert q.players[j].score != s.players[j].score;
      }
    }
  }

  /** Past the last player the loop changes nothing. */
  lemma NoScores(t: Tally, i: nat)
    requires i >= |t.state.players|
    ensures LoopScores(t, t, i)
  {
  }

  /** The player loop of Game::do_update, from player i on. */
  lemma {:induction false} PlayersFromScores(t: Tally, i: nat, ch: Chance)
    requires Sized(t.state.board) && Fair(ch)
    ensures LoopScores(t, AfterPlayersFrom(t, i, ch), i)
    decreases |t.state.players| - i
  {
    if i < |t.state.players| {
      var m := AfterPlayer(t, i, ch);
      PlayerScores(t, i, ch);
      PlayersFromScores(m, i + 1, ch);
      ChainScores(t, m, AfterPlayersFrom(m, i + 1, ch), i);
    } else {
      NoScores(t, i);
    }
  }

  /** The effect update changes no score, keeps the once-acting effects idle, and leaves the board and the clock. */
  lemma EffectsKeep(s: GameState, ns: bool)
    ensures var r := AfterEffectsFrom(s, ns, 0);
      ScoresKept(s, r) && (AllIdle(s) ==> AllIdle(r)) && SameGame(s, r)
  {
    var r := AfterEffectsFrom(s, ns, 0);
    EffectsFrame(s, ns, 0);
    EffectsPlayers(s, ns, 0);
    IdleKept(s.effects, Plus1S, ns);
    forall j | 0 <= j < |s.players| ensures Idle(s.players[j].effects) ==> Idle(r.players[j].effects) {
      IdleKept(s.players[j].effects, Plus1S, ns);
    }
  }

  /**
   * The end of a tick, after the player loop: the second loop of resets,
   * the new effect block, the clock. No score or effect set changes; no
   * activation is left on an empty cell; the game is over at zero; and after
   * a link, a game that goes on holds a matching pair of the board as its hint.
   */
  lemma EndOfTick(u: GameState, created: bool, check: bool, ch: Chance)
    requires Sized(u.board) && |u.available| > 0 && Fair(ch)
    ensures var r := AfterClock(AfterPlace(AfterResets(u), created, ch), check);
      ScoresKept(u, r) && (AllIdle(u) ==> AllIdle(r))
      && r.board == u.board && r.available == u.available && r.paused == u.paused
      && (forall j :: 0 <= j < |r.players| && r.players[j].activation.Some? ==> Cell(r.board, r.players[j].activation.value) != 0)
      && (r.time == 0 ==> r.over)
      && (check && !r.over ==> r.nextSolution.Some? && Linkable(r.board, r.nextSolution.value.0, r.nextSolution.value.1))
      && (created ==> r.effectBlock.kind in u.available) && (!created ==> r.effectBlock == u.effectBlock)
  {
    var s3 := AfterResets(u);
    ResetsDropEmpty(u);
    var s4 := AfterPlace(s3, created, ch);
    PlaceFree(s3, created, ch);
    ClockRules(s4, check);
  }

  /** The player loop's result when the tick runs: the game neither over nor paused. */
  function Looped(s: GameState, ch: Chance): (t: Tally)
    requires Sized(s.board) && Fair(ch)
    ensures Sized(t.state.board) && t.state.available == s.available && t.state.effectBlock == s.effectBlock
    ensures t.state.over == s.over && t.state.paused == (s.paused != s.togglePause)
    ensures t.state.board.width == s.board.width && t.state.board.height == s.board.height
  {
    var s1 := s.(paused := s.paused != s.togglePause);
    AfterPlayersFrom(Tally(AfterEffectsFrom(s1, s1.nextSecond, 0), false, false), 0, ch)
  }

  /** A tick that runs is the player loop followed by the end of the tick. */
  lemma TickRunning(s: GameState, ch: Chance)
    requires Sized(s.board) && Fair(ch) && |s.available| > 0
    requires !s.over && s.paused == s.togglePause
    ensures var t := Looped(s, ch);
      Tick(s, ch) == AfterClock(AfterPlace(AfterResets(t.state), t.created, ch), t.check)
  {
  }

  /**
   * Over the player loop of a running tick, each score moves by at most
   * one, the tally's check is set exactly when a score moved, and the
   * once-acting effects stay idle.
   */
  lemma LoopedScores(s: GameState, ch: Chance)
    requires Sized(s.board) && Fair(ch)
    ensures var q := Looped(s, ch).state;
      |q.players| == |s.players|
      && (forall j :: 0 <= j < |s.players| ==> ScoreStep(s, q, j))
      && (Looped(s, ch).check <==> exists j :: 0 <= j < |s.players| && q.players[j].score != s.players[j].score)
      && (AllIdle(s) ==> AllIdle(q))
  {
    var s1 := s.(paused := s.paused != s.togglePause);
    var s2 := AfterEffectsFrom(s1, s1.nextSecond, 0);
    EffectsKeep(s1, s1.nextSecond);
    LoopedFrom(s, s2, ch);
  }

  /** The player loop from a state whose scores and idle effects are those of s. */
  lemma LoopedFrom(s: GameState, s2: GameState, ch: Chance)
    requires Sized(s2.board) && Fair(ch) && ScoresKept(s, s2) && (AllIdle(s) ==> AllIdle(s2))
    ensures var t := AfterPlayersFrom(Tally(s2, false, false), 0, ch); var q := t.state;
      |q.players| == |s.players|
      && (forall j :: 0 <= j < |s.players| ==> ScoreStep(s, q, j))
      && (t.check <==> exists j :: 0 <= j < |s.players| && q.players[j].score != s.players[j].score)
      && (AllIdle(s) ==> AllIdle(q))
  {
    var t0 := Tally(s2, false, false);
    PlayersFromScores(t0, 0, ch);
    var q := AfterPlayersFrom(t0, 0, ch).state;
    assert forall j :: 0 <= j < |s.players| ==> ScoreStep(s, q, j) by {
      forall j | 0 <= j < |s.players| ensures ScoreStep(s, q, j) {
        assert ScoreStep(s2, q, j);
      }
    }
  }

  /** A game that is over does not change; otherwise the pause toggles as asked, and a paused game changes in nothing else. */
  lemma TickStopped(s: GameState, ch: Chance)
    requires Sized(s.board) && Fair(ch) && |s.available| > 0
    ensures s.over ==> Tick(s, ch) == s
    ensures !s.over ==> Tick(s, ch).paused == (s.paused != s.togglePause)
    ensures !s.over && Tick(s, ch).paused ==> Tick(s, ch) == s.(paused := true)
  {
    if !s.over && s.paused == s.togglePause {
      TickRunning(s, ch);
      var t := Looped(s, ch);
      EndOfTick(t.state, t.created, t.check, ch);
    }
  }

  /**
   * What a tick of a running game keeps from s to r: each score grows by at
   * most one; once no Plus1S or Shuffle keeps time, none does after; the game
   * is over when the clock reads zero; no activation is left on an empty
   * cell; after a link a game that goes on holds a matching pair of the new
   * board as its hint; and the effect block is the old one or one of an
   * available type.
   */
  ghost predicate RunRules(s: GameState, r: GameState) {
    |r.players| == |s.players| && (forall j :: 0 <= j < |s.players| ==> ScoreStep(s, r, j))
    && (AllIdle(s) ==> AllIdle(r))
    && !r.paused && (r.time == 0 ==> r.over)
    && (forall j :: 0 <= j < |r.players| && r.players[j].activation.Some? ==> Cell(r.board, r.players[j].activation.value) != 0)
    && ((exists j :: 0 <= j < |s.players| && r.players[j].score != s.players[j].score) && !r.over ==>
          r.nextSolution.Some? && Linkable(r.board, r.nextSolution.value.0, r.nextSolution.value.1))
    && r.available == s.available && (r.effectBlock == s.effectBlock || r.effectBlock.kind in s.available)
    && r.board.width == s.board.width && r.board.height == s.board.height
  }

  /** The rules of a running tick follow from those of its player loop and those of its end. */
  lemma RunRulesCompose(s: GameState, t: Tally, r: GameState)
    requires |t.state.players| == |s.players| && (forall j :: 0 <= j < |s.players| ==> ScoreStep(s, t.state, j))
    requires t.check <==> exists j :: 0 <= j < |s.players| && t.state.players[j].score != s.players[j].score
    requires (AllIdle(s) ==> AllIdle(t.state)) && !t.state.paused
    requires t.state.available == s.available && t.state.effectBlock == s.effectBlock
    requires t.state.board.width == s.board.width && t.state.board.height == s.board.height
    requires ScoresKept(t.state, r) && (AllIdle(t.state) ==> AllIdle(r))
    requires r.board == t.state.board && r.available == t.state.available && r.paused == t.state.paused
    requires forall j :: 0 <= j < |r.players| && r.players[j].activation.Some? ==> Cell(r.board, r.players[j].activation.value) != 0
    requires r.time == 0 ==> r.over
    requires t.check && !r.over ==> r.nextSolution.Some? && Linkable(r.board, r.nextSolution.value.0, r.nextSolution.value.1)
    requires (t.created ==> r.effectBlock.kind in t.state.available) && (!t.created ==> r.effectBlock == t.state.effectBlock)
    ensures RunRules(s, r)
  {
    var q := t.state;
    assert forall j :: 0 <= j < |s.players| ==> ScoreStep(s, r, j) by {
      forall j | 0 <= j < |s.players| ensures ScoreStep(s, r, j) {
        assert ScoreStep(s, q, j);
      }
    }
    if exists j :: 0 <= j < |s.players| && r.players[j].score != s.players[j].score {
      var j :| 0 <= j < |s.players| && r.players[j].score != s.players[j].score;
      assert q.players[j].score != s.players[j].score;
    }
  }

  /** A tick of a game that is neither over nor paused keeps the rules of a running tick. */
  lemma TickRuns(s: GameState, ch: Chance)
    requires Sized(s.board) && Fair(ch) && |s.available| > 0
    requires !s.over && s.paused == s.togglePause
    ensures RunRules(s, Tick(s, ch))
  {
    TickRunning(s, ch);
    var t := Looped(s, ch);
    LoopedScores(s, ch);
    EndOfTick(t.state, t.created, t.check, ch);
    RunRulesCompose(s, t, Tick(s, ch));
  }
}
