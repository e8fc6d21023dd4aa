/**
 * The spawner: three frame counters that, while the game is not paused,
 * add a star, a hazard (red card) or a collectible (trophy) at the right
 * edge of the window. Every `random` draw is a parameter, constrained to
 * the range `randint` draws it from.
 */
module Spawner {
  import opened Geometry
  import opened GameState

  /**
   * The two outcomes of `spawn_hazard`'s first draw: a wide card (drawn
   * with probability 0.25) or a square one.
   */
  datatype HazardDraw = Wide(w: int, h: int) | Square(side: int)

  predicate ValidHazardDraw(d: HazardDraw) {
    match d
    case Wide(w, h) => 60 <= w <= 110 && 18 <= h <= 26
    case Square(side) => 25 <= side <= 40
  }

  /** Every random number one frame of the spawner may consume. */
  datatype Draws = Draws(starY: int, starSpeed: int, hazard: HazardDraw, hazardY: int, trophyY: int)

  predicate ValidDraws(d: Draws) {
    && 0 <= d.starY <= HEIGHT && 2 <= d.starSpeed <= 5
    && ValidHazardDraw(d.hazard)
    && SPAWN_MARGIN <= d.hazardY <= HEIGHT - SPAWN_MARGIN
    && SPAWN_MARGIN <= d.trophyY <= HEIGHT - SPAWN_MARGIN
  }

  /**
   * One unpaused tick of a spawn counter: it is incremented, and once it
   * exceeds the threshold it fires and starts again from 0. Returns whether
   * it fired and the counter's new value.
   */
  function CounterStep(c: int, threshold: int): (r: (bool, int))
    ensures r.0 <==> c >= threshold
    ensures r.0 ==> r.1 == 0
    ensures !r.0 ==> r.1 == c + 1
    ensures 0 <= c <= threshold ==> 0 <= r.1 <= threshold
  {
    var next := c + 1;
    if next > threshold then (true, 0) else (false, next)
  }

  /** The counter after `n` unpaused ticks. */
  function CounterAfter(c: int, threshold: int, n: nat): (r: int)
    // a counter that starts in range stays in range
    ensures 0 <= c <= threshold ==> 0 <= r <= threshold
  {
    if n == 0 then c else CounterStep(CounterAfter(c, threshold, n - 1), threshold).1
  }

  lemma MulAtLeast(k: int, m: int)
    requires k >= 1 && m > 0
    ensures k * m >= m
  {
    assert k * m == (k - 1) * m + m;
    assert (k - 1) * m >= 0;
  }

  /** The remainder is determined by any quotient-remainder split. */
  lemma DivModUnique(a: int, m: int, q: int, r: int)
    requires m > 0 && 0 <= r < m && a == q * m + r
    ensures a % m == r
  {
    var q', r' := a / m, a % m;
    assert a == q' * m + r';
    assert q * m - q' * m == r' - r;
    assert (q - q') * m == q * m - q' * m;
    assert (q' - q) * m == q' * m - q * m;
    if q > q' {
      MulAtLeast(q - q', m);
    } else if q < q' {
      MulAtLeast(q' - q, m);
    }
  }

  /** The remainder of the next number: one more, or back to 0 after m - 1. */
  lemma ModNext(n: nat, m: nat)
    requires m > 0
    ensures (n + 1) % m == if n % m == m - 1 then 0 else n % m + 1
  {
    var q, r := n / m, n % m;
    assert n == q * m + r;
    if r == m - 1 {
      assert n + 1 == (q + 1) * m + 0;
      DivModUnique(n + 1, m, q + 1, 0);
    } else {
      assert n + 1 == q * m + (r + 1);
      DivModUnique(n + 1, m, q, r + 1);
    }
  }

  /** From 0, the counter runs through 0, 1, ..., threshold and round again. */
  lemma {:induction false} CounterCycle(threshold: nat, n: nat)
    ensures CounterAfter(0, threshold, n) == n % (threshold + 1)
  {
    if n > 0 {
      CounterCycle(threshold, n - 1);
      ModNext(n - 1, threshold + 1);
    }
  }

  /**
   * From 0, the counter fires on tick `n` exactly when `n` is a multiple of
   * threshold + 1: a star every 16 ticks, a hazard every 56, a trophy every 121.
   */
  lemma SpawnsEvery(threshold: nat, n: nat)
    requires n >= 1
    ensures CounterStep(CounterAfter(0, threshold, n - 1), threshold).0 <==> n % (threshold + 1) == 0
  {
    CounterCycle(threshold, n - 1);
    CounterCycle(threshold, n);
  }

  /** The rectangle `spawn_hazard` appends. */
  function HazardRect(d: HazardDraw, y: int): (h: Rect) {
    match d
    case Wide(w, h) => Rect(WIDTH, y, w, h)
    case Square(side) => Rect(WIDTH, y, side, side)
  }

  /** `spawn_hazard`. */
  function SpawnHazard(g: World, d: HazardDraw, y: int): (r: World)
    requires ValidHazardDraw(d) && SPAWN_MARGIN <= y <= HEIGHT - SPAWN_MARGIN
    ensures |r.hazards| == |g.hazards| + 1 && r.hazards[..|g.hazards|] == g.hazards
    ensures var h := r.hazards[|g.hazards|];
      h.x == WIDTH && h.y == y && HazardShape(h) && h.Right() >= 0
    // the drawn size: wide cards take both drawn sides, square ones the drawn side twice
    ensures var h := r.hazards[|g.hazards|];
      match d
      case Wide(w, hh) => h.w == w && h.h == hh
      case Square(side) => h.w == side && h.h == side
    ensures r == g.(hazards := r.hazards)
  {
    g.(hazards := g.hazards + [HazardRect(d, y)])
  }

  /** `spawn_collectible`. */
  function SpawnCollectible(g: World, y: int): (r: World)
    requires SPAWN_MARGIN <= y <= HEIGHT - SPAWN_MARGIN
    ensures |r.collectibles| == |g.collectibles| + 1 && r.collectibles[..|g.collectibles|] == g.collectibles
    ensures var c := r.collectibles[|g.collectibles|];
      c.x == WIDTH && c.y == y && TrophyShape(c) && c.Right() >= 0
    ensures r == g.(collectibles := r.collectibles)
  {
    g.(collectibles := g.collectibles + [Rect(WIDTH, y, TROPHY_SIZE, TROPHY_SIZE)])
  }

  /** `spawn_star`. */
  function SpawnStar(g: World, y: int, v: int): (r: World)
    requires 0 <= y <= HEIGHT && 2 <= v <= 5
    ensures |r.stars| == |g.stars| + 1 && r.stars[..|g.stars|] == g.stars
    ensures var s := r.stars[|g.stars|]; s.x == WIDTH && s.y == y && s.v == v && StarShape(s)
    ensures r == g.(stars := r.stars)
  {
    g.(stars := g.stars + [Star(WIDTH, y, v)])
  }

  /** The star counter of one frame. */
  function StarSpawn(g: World, y: int, v: int): (r: World)
    requires 0 <= y <= HEIGHT && 2 <= v <= 5
    ensures g.paused ==> r == g
    ensures !g.paused && g.starTimer >= STAR_THRESHOLD ==>
      r.starTimer == 0 && r.stars == g.stars + [Star(WIDTH, y, v)]
    ensures !g.paused && g.starTimer < STAR_THRESHOLD ==> r == g.(starTimer := g.starTimer + 1)
    ensures 0 <= g.starTimer <= STAR_THRESHOLD ==> 0 <= r.starTimer <= STAR_THRESHOLD
    ensures r == g.(starTimer := r.starTimer, stars := r.stars)
  {
    if g.paused then g
    else
      var step := CounterStep(g.starTimer, STAR_THRESHOLD);
      if step.0 then SpawnStar(g, y, v).(starTimer := 0) else g.(starTimer := step.1)
  }

  /** The hazard and trophy counters of one frame. */
  function EntitySpawn(g: World, d: Draws): (r: World)
    requires ValidDraws(d)
    ensures g.paused ==> r == g
    ensures !g.paused ==>
      && r.hazards == g.hazards + (if g.spawnTimer >= HAZARD_THRESHOLD then [HazardRect(d.hazard, d.hazardY)] else [])
      && r.spawnTimer == (if g.spawnTimer >= HAZARD_THRESHOLD then 0 else g.spawnTimer + 1)
      && r.collectibles == g.collectibles + (if g.collectTimer >= COLLECT_THRESHOLD then [Rect(WIDTH, d.trophyY, TROPHY_SIZE, TROPHY_SIZE)] else [])
      && r.collectTimer == (if g.collectTimer >= COLLECT_THRESHOLD then 0 else g.collectTimer + 1)
    ensures CounterInv(g) ==> CounterInv(r)
    ensures r == g.(spawnTimer := r.spawnTimer, collectTimer := r.collectTimer,
                    hazards := r.hazards, collectibles := r.collectibles)
  {
    if g.paused then g
    else
      var hazardStep := CounterStep(g.spawnTimer, HAZARD_THRESHOLD);
      var trophyStep := CounterStep(g.collectTimer, COLLECT_THRESHOLD);
      var g1 := g.(spawnTimer := hazardStep.1, collectTimer := trophyStep.1);
      var g2 := if hazardStep.0 then SpawnHazard(g1, d.hazard, d.hazardY).(spawnTimer := 0) else g1;
      if trophyStep.0 then SpawnCollectible(g2, d.trophyY).(collectTimer := 0) else g2
  }

  /** What the spawner appends is of its kind and on screen. */
  lemma SpawnKeepsEntityInv(g: World, d: Draws)
    requires ValidDraws(d) && EntityInv(g)
    ensures EntityInv(StarSpawn(g, d.starY, d.starSpeed))
    ensures EntityInv(EntitySpawn(g, d))
  {
  }
}
