/**
 * One pass of the frame loop (lines 183-329) as a function of the state
 * before it and of what the frame reads from outside: the key presses,
 * the arrow keys held, and the random draws of the spawner.
 */
module Frames {
  import opened Geometry
  import opened GameState
  import opened Scoring
  import opened Spawner
  import opened Motion
  import opened Timers
  import opened Phases

  /** Everything one frame reads from outside the game state. */
  datatype Input = Input(keys: seq<Key>, up: bool, down: bool, draws: Draws)

  predicate ValidInput(i: Input) {
    ValidDraws(i.draws)
  }

  /** The gameplay part of a frame in play (lines 214-287), step by step. */
  function Gameplay(g: World, up: bool, down: bool, d: Draws): (r: World)
    requires ValidDraws(d)
  {
    var g1 := MovePlayer(g, up, down);
    var g2 := StarSpawn(g1, d.starY, d.starSpeed);
    var g3 := g2.(stars := StarPass(g2.stars, 0));
    var g4 := EntitySpawn(g3, d);
    var g5 := HazardPass(g4, 0);
    var g6 := CollectPass(g5, 0);
    TickTimers(g6)
  }

  /**
   * One frame: the key presses, then, on the title and game-over screens,
   * nothing more; in play, the gameplay and the game-over backstop.
   */
  function Frame(g: World, i: Input): (r: World)
    requires ValidInput(i)
  {
    var k := HandleKeys(g, i.keys);
    if k.phase != Play then k else Backstop(Gameplay(k, i.up, i.down, i.draws))
  }

  /** A sequence of frames. */
  function Run(g: World, inputs: seq<Input>): (r: World)
    requires forall i :: i in inputs ==> ValidInput(i)
    decreases |inputs|
  {
    if inputs == [] then g else Run(Frame(g, inputs[0]), inputs[1..])
  }

  // ---------------------------------------------------------------------
  // Properties
  // ---------------------------------------------------------------------

  /** The star steps keep the star shape and touch nothing else that matters here. */
  lemma StarStepsKeepInv(g: World, d: Draws)
    requires ValidDraws(d) && Inv(g)
    ensures var g2 := StarSpawn(g, d.starY, d.starSpeed);
      Inv(g2.(stars := StarPass(g2.stars, 0)))
  {
    var g2 := StarSpawn(g, d.starY, d.starSpeed);
    SpawnKeepsEntityInv(g, d);
    StarPassMeaning(g2.stars, 0);
    assert g2.stars[..0] == [] && g2.stars[0..] == g2.stars;
    ScrollStarsKeepShape(g2.stars);
  }

  /** The hazard pass keeps the invariant of a state in play. */
  lemma HazardStepKeepsInv(g: World)
    requires Inv(g) && g.phase == Play
    ensures Inv(HazardPass(g, 0))
  {
    var r := HazardPass(g, 0);
    HazardPassOutcome(g);
    if r != g.(hazards := r.hazards) {
      HitKeepsRunInv(g);
    }
  }

  /** The collectible pass keeps the invariant. */
  lemma CollectStepKeepsInv(g: World)
    requires Inv(g)
    ensures Inv(CollectPass(g, 0))
  {
    CollectPassKeepsRunInv(g);
    CollectPassFrame(g);
    CollectPassOutcome(g);
  }

  /** A frame of gameplay keeps the invariant. */
  lemma GameplayKeepsInv(g: World, up: bool, down: bool, d: Draws)
    requires ValidDraws(d) && Inv(g) && g.phase == Play
    ensures Inv(Gameplay(g, up, down, d))
  {
    var g1 := MovePlayer(g, up, down);
    var g2 := StarSpawn(g1, d.starY, d.starSpeed);
    var g3 := g2.(stars := StarPass(g2.stars, 0));
    var g4 := EntitySpawn(g3, d);
    StarStepsKeepInv(g1, d);
    SpawnKeepsEntityInv(g3, d);
    HazardStepKeepsInv(g4);
    CollectStepKeepsInv(HazardPass(g4, 0));
  }

  /** Every frame keeps the invariant, whatever the input. */
  lemma FrameKeepsInv(g: World, i: Input)
    requires ValidInput(i) && Inv(g)
    ensures Inv(Frame(g, i))
  {
    var k := HandleKeys(g, i.keys);
    HandleKeysKeepsInv(g, i.keys);
    if k.phase == Play {
      GameplayKeepsInv(k, i.up, i.down, i.draws);
    }
  }

  lemma FrameKeepsInvIf(g: World, i: Input)
    requires ValidInput(i)
    ensures Inv(g) ==> Inv(Frame(g, i))
  {
    if Inv(g) {
      FrameKeepsInv(g, i);
    }
  }

  /** Every state the game reaches from its start satisfies the invariant. */
  lemma {:induction false} RunKeepsInv(g: World, inputs: seq<Input>)
    requires (forall i :: i in inputs ==> ValidInput(i)) && Inv(g)
    ensures Inv(Run(g, inputs))
    decreases |inputs|
  {
    if inputs != [] {
      assert inputs[0] in inputs;
      FrameKeepsInv(g, inputs[0]);
      assert forall i :: i in inputs[1..] ==> i in inputs;
      RunKeepsInv(Frame(g, inputs[0]), inputs[1..]);
    }
  }

  lemma ReachableInv(inputs: seq<Input>)
    requires forall i :: i in inputs ==> ValidInput(i)
    ensures Inv(Run(Initial(), inputs))
  {
    InitialInv();
    RunKeepsInv(Initial(), inputs);
  }

  lemma PassesKeepBest(g: World)
    ensures HazardPass(g, 0).best >= g.best
    ensures CollectPass(g, 0).best == g.best
  {
    HazardPassHits(g);
    CollectPassProgress(g);
  }

  lemma GameplayKeepsBest(g: World, up: bool, down: bool, d: Draws)
    requires ValidDraws(d)
    ensures Gameplay(g, up, down, d).best >= g.best
  {
    var g1 := MovePlayer(g, up, down);
    var g2 := StarSpawn(g1, d.starY, d.starSpeed);
    var g3 := g2.(stars := StarPass(g2.stars, 0));
    var g4 := EntitySpawn(g3, d);
    assert g4.best == g.best;
    var g5 := HazardPass(g4, 0);
    PassesKeepBest(g4);
    PassesKeepBest(g5);
  }

  /** The best score never drops from one frame to the next. */
  lemma BestNeverDrops(g: World, i: Input)
    requires ValidInput(i)
    ensures Frame(g, i).best >= g.best
  {
    GameplayKeepsBest(HandleKeys(g, i.keys), i.up, i.down, i.draws);
  }

  /** On the title and game-over screens, a frame without SPACE changes nothing. */
  lemma IdleScreens(g: World, i: Input)
    requires ValidInput(i) && g.phase != Play && Space !in i.keys
    ensures Frame(g, i) == g
  {
    IdleKeys(g, i.keys);
  }

  lemma {:induction false} IdleKeys(g: World, keys: seq<Key>)
    requires g.phase != Play && Space !in keys
    ensures HandleKeys(g, keys) == g
    decreases |keys|
  {
    if keys != [] {
      assert keys[0] != Space && Space !in keys[1..];
      IdleKeys(HandleKey(g, keys[0]), keys[1..]);
    }
  }

  /**
   * A paused frame in play: the player, the spawn counters and the
   * positions of hazards and trophies are frozen, but the stars scroll,
   * the effect countdowns run, and collisions are still resolved, so a
   * hazard the player overlaps hits as soon as invincibility runs out and
   * a trophy the player overlaps is collected.
   */
  lemma PausedGameplay(g: World, up: bool, down: bool, d: Draws)
    requires ValidDraws(d) && g.paused
    ensures var r := Gameplay(g, up, down, d);
      && r.player == g.player && r.paused
      && r.starTimer == g.starTimer && r.spawnTimer == g.spawnTimer && r.collectTimer == g.collectTimer
      && r.stars == ScrollStars(g.stars)
      && r.hazards == Survivors(g.player, g.invincible == 0, g.hazards)
      && r.collectibles == Missed(g.player, g.collectibles)
      && r.invincible == CountDown(if HitOccurs(g.player, g.invincible == 0, g.hazards) then INVINCIBLE_TICKS else g.invincible)
  {
    var g3 := g.(stars := StarPass(g.stars, 0));
    PausedGameplayIs(g, up, down, d);
    StarPassMeaning(g.stars, 0);
    assert g.stars[..0] == [] && g.stars[0..] == g.stars;
    PausedHazardPass(g3);
    var g5 := HazardPass(g3, 0);
    CollectPassFrame(g5);
    PausedCollectPass(g5);
  }

  lemma PausedCollectPass(g: World)
    requires g.paused
    ensures CollectPass(g, 0).collectibles == Missed(g.player, g.collectibles)
  {
    CollectPassOutcome(g);
  }

  /** While paused, the player and the spawner do nothing. */
  lemma PausedGameplayIs(g: World, up: bool, down: bool, d: Draws)
    requires ValidDraws(d) && g.paused
    ensures Gameplay(g, up, down, d) == TickTimers(CollectPass(HazardPass(g.(stars := StarPass(g.stars, 0)), 0), 0))
  {
    var g3 := g.(stars := StarPass(g.stars, 0));
    assert MovePlayer(g, up, down) == g;
    assert StarSpawn(g, d.starY, d.starSpeed) == g;
    assert EntitySpawn(g3, d) == g3;
  }

  lemma PausedFrame(g: World, i: Input)
    requires ValidInput(i) && g.phase == Play && g.paused && i.keys == []
    ensures var r := Frame(g, i);
      && r.player == g.player && r.paused
      && r.starTimer == g.starTimer && r.spawnTimer == g.spawnTimer && r.collectTimer == g.collectTimer
      && r.hazards == Survivors(g.player, g.invincible == 0, g.hazards)
      && r.collectibles == Missed(g.player, g.collectibles)
  {
    assert HandleKeys(g, i.keys) == g;
    PausedGameplay(g, i.up, i.down, i.draws);
  }

  /** A paused game in play on its last life, the player overlapping one hazard and one trophy. */
  function LastLifeScenario(): World {
    var at := Rect(PLAYER_X, PLAYER_Y, TROPHY_SIZE, TROPHY_SIZE);
    World(Play, 0, 0, 1, START_SPEED, 0, false, true, 0, 0, 0, NoBanner, 0, 0, 0,
          Rect(PLAYER_X, PLAYER_Y, PLAYER_SIZE, PLAYER_SIZE), [at], [at], [])
  }

  /**
   * A run can end with a score above the best score: `hit_player` records
   * the best score when the last life goes, but the collectible loop of the
   * same frame still runs and can add points afterwards.
   */
  lemma ScoreCanPassBestAtGameOver(d: Draws)
    requires ValidDraws(d)
    ensures var r := Frame(LastLifeScenario(), Input([], false, false, d));
      r.phase == GameOver && r.score == 1 && r.best == 0
  {
    var g := LastLifeScenario();
    assert HandleKeys(g, []) == g;
    PausedGameplayIs(g, false, false, d);
    assert g.(stars := StarPass(g.stars, 0)) == g;
    var g2 := LastLifeHit();
    var g3 := LastLifePickup(g2);
    assert Gameplay(g, false, false, d) == TickTimers(g3);
  }

  lemma LastLifeHit() returns (g2: World)
    ensures HazardPass(LastLifeScenario(), 0) == g2
    ensures g2.phase == GameOver && g2.best == 0 && g2.score == 0 && g2.streak == 0 && g2.paused
    ensures g2.player == LastLifeScenario().player && g2.collectibles == LastLifeScenario().collectibles
  {
    var g := LastLifeScenario();
    g2 := Hit(g.(hazards := []));
    assert HazardPass(g, 0) == HazardPass(g2, 0);
  }

  lemma LastLifePickup(g2: World) returns (g3: World)
    requires g2.phase == GameOver && g2.best == 0 && g2.score == 0 && g2.streak == 0 && g2.paused
    requires g2.player == LastLifeScenario().player && g2.collectibles == LastLifeScenario().collectibles
    ensures CollectPass(g2, 0) == g3
    ensures g3.phase == GameOver && g3.best == 0 && g3.score == 1
  {
    g3 := Pickup(g2.(collectibles := []));
    assert CollectPass(g2, 0) == CollectPass(g3, 0);
  }

  /** Score, speed and Toon Mode: never lower after `r` than before it, in `g`. */
  predicate ProgressKept(g: World, r: World) {
    r.score >= g.score && r.speed >= g.speed && (g.toon ==> r.toon)
  }

  /** The hazard pass keeps score, speed and Toon Mode; the trophy pass only raises them. */
  lemma PassesKeepProgress(g: World)
    ensures var r := HazardPass(g, 0); r.score == g.score && r.speed == g.speed && r.toon == g.toon
    ensures ProgressKept(g, CollectPass(g, 0))
  {
    HazardPassHits(g);
    CollectPassProgress(g);
  }

  /** The gameplay of one frame never lowers the score or the speed, nor switches Toon Mode off. */
  lemma GameplayKeepsProgress(g: World, up: bool, down: bool, d: Draws)
    requires ValidDraws(d)
    ensures ProgressKept(g, Gameplay(g, up, down, d))
  {
    var g1 := MovePlayer(g, up, down);
    var g2 := StarSpawn(g1, d.starY, d.starSpeed);
    var g3 := g2.(stars := StarPass(g2.stars, 0));
    var g4 := EntitySpawn(g3, d);
    assert g4.score == g.score && g4.speed == g.speed && g4.toon == g.toon;
    var g5 := HazardPass(g4, 0);
    PassesKeepProgress(g4);
    PassesKeepProgress(g5);
  }

  /**
   * Within a run, a frame never lowers the score or the speed, and never
   * switches Toon Mode off, so Toon Mode is switched on at most once per
   * run. Only SPACE on the title or game-over screen starts a new run.
   */
  lemma FrameKeepsProgress(g: World, i: Input)
    requires ValidInput(i) && (g.phase == Play || Space !in i.keys)
    ensures ProgressKept(g, Frame(g, i))
  {
    if g.phase == Play {
      KeysInPlay(g, i.keys);
      var k := HandleKeys(g, i.keys);
      GameplayKeepsProgress(k, i.up, i.down, i.draws);
    } else {
      IdleKeys(g, i.keys);
    }
  }

  /** Over any frames without SPACE, score and speed never drop and Toon Mode stays on once on. */
  lemma {:induction false} RunKeepsProgress(g: World, inputs: seq<Input>)
    requires forall i :: i in inputs ==> ValidInput(i) && Space !in i.keys
    ensures ProgressKept(g, Run(g, inputs))
    decreases |inputs|
  {
    if inputs != [] {
      assert inputs[0] in inputs;
      FrameKeepsProgress(g, inputs[0]);
      assert forall i :: i in inputs[1..] ==> i in inputs;
      RunKeepsProgress(Frame(g, inputs[0]), inputs[1..]);
    }
  }
}
