/**
 * The state of one Toon Dash process: every module-level global of the
 * script, gathered into one value so that each step of the frame loop can
 * be stated as a function from the state before to the state after.
 */
module GameState {
  import opened Geometry

  /** Starting values of a run. */
  const START_LIVES: int := 3
  const START_SPEED: int := 5
  const PLAYER_X: int := 80
  const PLAYER_Y: int := HEIGHT / 2 - 20
  const PLAYER_SIZE: int := 40

  /** Effect durations, in ticks. */
  const INVINCIBLE_TICKS: int := 90
  const SHAKE_TICKS: int := 12
  const BANNER_TICKS: int := 120

  /** Spawn thresholds: a counter fires once it exceeds its threshold. */
  const STAR_THRESHOLD: int := 15
  const HAZARD_THRESHOLD: int := 55
  const COLLECT_THRESHOLD: int := 120

  /** Score at which Toon Mode unlocks, and the trophy size. */
  const TOON_SCORE: int := 15
  const TROPHY_SIZE: int := 26

  /** Spawned hazards and trophies keep this far from the top and bottom. */
  const SPAWN_MARGIN: int := 40

  datatype Phase = Title | Play | GameOver

  /**
   * The banner texts the game shows. Each carries the number that its
   * format string interpolates; `NoBanner` is the empty text.
   */
  datatype Banner =
    | NoBanner
    | SpeedUpBanner(speed: int)
    | StreakBanner(streak: int)
    | MilestoneBanner(score: int)
    | ToonBanner

  /** A background star `[x, y, scroll speed]`. */
  datatype Star = Star(x: int, y: int, v: int)

  datatype World = World(
    phase: Phase,
    score: int,
    best: int,
    lives: int,
    speed: int,
    streak: int,
    toon: bool,
    paused: bool,
    invincible: int,
    shake: int,
    bannerTimer: int,
    banner: Banner,
    starTimer: int,
    spawnTimer: int,
    collectTimer: int,
    player: Rect,
    hazards: seq<Rect>,
    collectibles: seq<Rect>,
    stars: seq<Star>)

  /** The values the script's globals start with. */
  function Initial(): (g: World)
    ensures g.phase == Title && g.score == 0 && g.best == 0
  {
    World(Title, 0, 0, START_LIVES, START_SPEED, 0, false, false, 0, 0, 0, NoBanner,
          0, 0, 0, Rect(PLAYER_X, PLAYER_Y, PLAYER_SIZE, PLAYER_SIZE), [], [], [])
  }

  function Max(a: int, b: int): (m: int) {
    if a < b then b else a
  }

  // ---------------------------------------------------------------------
  // Invariants of every state the frame loop can reach
  // ---------------------------------------------------------------------

  /** Score, streak, lives, speed, Toon Mode and best score. */
  predicate RunInv(g: World) {
    && 0 <= g.streak <= g.score
    && g.best >= 0
    && g.lives >= 0
    && (g.phase == Play ==> g.lives >= 1)
    && g.speed >= START_SPEED
    && (g.toon ==> g.score >= TOON_SCORE)
  }

  /** The three effect countdowns never leave [0, their start value]. */
  predicate TimerInv(g: World) {
    && 0 <= g.invincible <= INVINCIBLE_TICKS
    && 0 <= g.shake <= SHAKE_TICKS
    && 0 <= g.bannerTimer <= BANNER_TICKS
  }

  /** The spawn counters never leave [0, threshold]. */
  predicate CounterInv(g: World) {
    && 0 <= g.starTimer <= STAR_THRESHOLD
    && 0 <= g.spawnTimer <= HAZARD_THRESHOLD
    && 0 <= g.collectTimer <= COLLECT_THRESHOLD
  }

  /** The player keeps its column and size and stays inside the window. */
  predicate PlayerInv(p: Rect) {
    p.x == PLAYER_X && p.w == PLAYER_SIZE && p.h == PLAYER_SIZE && 0 <= p.y <= HEIGHT - PLAYER_SIZE
  }

  /** The two hazard size classes of `spawn_hazard`. */
  predicate HazardSize(w: int, h: int) {
    (60 <= w <= 110 && 18 <= h <= 26) || (w == h && 25 <= w <= 40)
  }

  /** A hazard as spawned, possibly moved left since. */
  predicate HazardShape(r: Rect) {
    HazardSize(r.w, r.h) && SPAWN_MARGIN <= r.y <= HEIGHT - SPAWN_MARGIN && r.x <= WIDTH
  }

  /** A trophy as spawned, possibly moved left since. */
  predicate TrophyShape(r: Rect) {
    r.w == TROPHY_SIZE && r.h == TROPHY_SIZE && SPAWN_MARGIN <= r.y <= HEIGHT - SPAWN_MARGIN && r.x <= WIDTH
  }

  predicate StarShape(s: Star) {
    0 <= s.x <= WIDTH && 0 <= s.y <= HEIGHT && 2 <= s.v <= 5
  }

  /** Between frames, every entity on the lists is of its kind and not yet off the left edge. */
  predicate EntityInv(g: World) {
    && (forall h :: h in g.hazards ==> HazardShape(h) && h.Right() >= 0)
    && (forall c :: c in g.collectibles ==> TrophyShape(c) && c.Right() >= 0)
    && (forall s :: s in g.stars ==> StarShape(s))
  }

  predicate Inv(g: World) {
    RunInv(g) && TimerInv(g) && CounterInv(g) && PlayerInv(g.player) && EntityInv(g)
  }

  lemma InitialInv()
    ensures Inv(Initial())
  {
  }
}
