/**
 * The game phase machine: the key presses of one frame (lines 189-197)
 * and the end-of-frame game-over check (lines 326-327).
 */
module Phases {
  import opened Geometry
  import opened GameState
  import opened Scoring

  /** The key presses the frame loop reacts to; every other key is ignored. */
  datatype Key = Space | PauseKey | OtherKey

  /** One key press. */
  function HandleKey(g: World, k: Key): (r: World)
    // SPACE on the title or game-over screen starts a fresh run
    ensures k == Space && g.phase != Play ==> r == ResetRun(g).(phase := Play)
    // P toggles the pause flag, but only in play
    ensures k == PauseKey && g.phase == Play ==> r == g.(paused := !g.paused)
    // anything else is ignored
    ensures !(k == Space && g.phase != Play) && !(k == PauseKey && g.phase == Play) ==> r == g
  {
    match k
    case Space => if g.phase == Title || g.phase == GameOver then ResetRun(g).(phase := Play) else g
    case PauseKey => if g.phase == Play then g.(paused := !g.paused) else g
    case OtherKey => g
  }

  /** The key presses of one frame, in order. */
  function HandleKeys(g: World, keys: seq<Key>): (r: World)
    // keys never touch the best score or the spawn counters
    ensures r.best == g.best
    ensures r.starTimer == g.starTimer && r.spawnTimer == g.spawnTimer && r.collectTimer == g.collectTimer
    decreases |keys|
  {
    if keys == [] then g else HandleKeys(HandleKey(g, keys[0]), keys[1..])
  }

  /** Lines 326-327: a run in play with no life left ends. */
  function Backstop(g: World): (r: World)
    ensures g.phase == Play && g.lives <= 0 ==> r == g.(phase := GameOver)
    ensures !(g.phase == Play && g.lives <= 0) ==> r == g
  {
    if g.phase == Play && g.lives <= 0 then g.(phase := GameOver) else g
  }

  // ---------------------------------------------------------------------
  // Properties
  // ---------------------------------------------------------------------

  /** A key press keeps the state invariant; starting a run also satisfies it afresh. */
  lemma HandleKeyKeepsInv(g: World, k: Key)
    requires Inv(g)
    ensures Inv(HandleKey(g, k))
    ensures HandleKey(g, k).best == g.best
  {
  }

  lemma {:induction false} HandleKeysKeepsInv(g: World, keys: seq<Key>)
    requires Inv(g)
    ensures Inv(HandleKeys(g, keys)) && HandleKeys(g, keys).best == g.best
    decreases |keys|
  {
    if keys != [] {
      HandleKeyKeepsInv(g, keys[0]);
      HandleKeysKeepsInv(HandleKey(g, keys[0]), keys[1..]);
    }
  }

  /** Pressing P twice in play leaves the game as it was. */
  lemma PauseTwice(g: World)
    requires g.phase == Play
    ensures HandleKeys(g, [PauseKey, PauseKey]) == g
  {
    assert [PauseKey, PauseKey][1..] == [PauseKey];
  }

  /**
   * Keys cannot end a run: in play, only the pause flag can change, and only
   * P can change it.
   */
  lemma {:induction false} KeysInPlay(g: World, keys: seq<Key>)
    requires g.phase == Play
    ensures HandleKeys(g, keys) == g.(paused := HandleKeys(g, keys).paused)
    ensures PauseKey !in keys ==> HandleKeys(g, keys) == g
    decreases |keys|
  {
    if keys != [] {
      KeysInPlay(HandleKey(g, keys[0]), keys[1..]);
      assert PauseKey !in keys ==> keys[0] != PauseKey && PauseKey !in keys[1..];
    }
  }

  /**
   * A new run started from a paused game starts paused, since `reset_run`
   * leaves the pause flag alone.
   */
  lemma RestartKeepsPause(g: World)
    requires g.phase == GameOver
    ensures HandleKey(g, Space).paused == g.paused && HandleKey(g, Space).phase == Play
  {
  }

  /** Under the state invariant a run in play always has a life, so the backstop never fires. */
  lemma BackstopIdle(g: World)
    requires RunInv(g)
    ensures Backstop(g) == g
  {
  }
}
