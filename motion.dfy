/**
 * Motion and collision: the player's movement, and the three passes of
 * the frame loop over the star, hazard and collectible lists. Each pass is
 * modelled the way the script runs it: walking a snapshot of the list,
 * moving each entry in place and removing it from the live list when it
 * leaves the screen or is hit. `j` is the position in the live list of
 * the next snapshot entry; everything before it has been kept.
 */
module Motion {
  import opened Geometry
  import opened GameState
  import opened Scoring

  /** Pixels the player moves per tick while an arrow key is held. */
  const PLAYER_STEP: int := 6

  function Min(a: int, b: int): (m: int)
    ensures m <= a && m <= b && (m == a || m == b)
  {
    if a < b then a else b
  }

  /** Lines 214-220: arrow keys, then `clamp_ip` to the window; nothing while paused. */
  function MovePlayer(g: World, up: bool, down: bool): (r: World)
    ensures g.paused ==> r == g
    ensures !g.paused && PlayerInv(g.player) ==>
      var wanted := g.player.y - (if up then PLAYER_STEP else 0) + (if down then PLAYER_STEP else 0);
      r.player == g.player.(y := Max(0, Min(HEIGHT - PLAYER_SIZE, wanted)))
    ensures PlayerInv(g.player) ==> PlayerInv(r.player)
    ensures r == g.(player := r.player)
  {
    if g.paused then g
    else
      var p := g.player;
      var p1 := if up then p.(y := p.y - PLAYER_STEP) else p;
      var p2 := if down then p1.(y := p1.y + PLAYER_STEP) else p1;
      g.(player := ClampToScreen(p2))
  }

  /** `list.remove` of the entry at position `j`. */
  function Remove<T>(s: seq<T>, j: nat): (r: seq<T>)
    requires j < |s|
    ensures |r| == |s| - 1 && r[..j] == s[..j] && r[j..] == s[j + 1..]
  {
    s[..j] + s[j + 1..]
  }

  // ---------------------------------------------------------------------
  // Stars (lines 228-232): they scroll at their own speed, paused or not
  // ---------------------------------------------------------------------

  function Scroll(s: Star): (t: Star) {
    s.(x := s.x - s.v)
  }

  /** Reference meaning of the star pass: scroll each star, drop those left of x = 0. */
  function ScrollStars(ss: seq<Star>): (r: seq<Star>)
    ensures |r| <= |ss|
  {
    if ss == [] then []
    else
      var s := Scroll(ss[0]);
      (if s.x < 0 then [] else [s]) + ScrollStars(ss[1..])
  }

  /** The star loop as the script runs it, in place. */
  function StarPass(ss: seq<Star>, j: nat): (r: seq<Star>)
    requires j <= |ss|
    // no star is added, and the stars already passed stay in front
    ensures |r| <= |ss| && ss[..j] <= r
    decreases |ss| - j
  {
    if j == |ss| then ss
    else
      var s := Scroll(ss[j]);
      var live := ss[j := s];
      if s.x < 0 then StarPass(Remove(live, j), j) else StarPass(live, j + 1)
  }

  /** The in-place star loop keeps what it passed and scrolls the rest. */
  lemma {:induction false} StarPassMeaning(ss: seq<Star>, j: nat)
    requires j <= |ss|
    ensures StarPass(ss, j) == ss[..j] + ScrollStars(ss[j..])
    decreases |ss| - j
  {
    if j < |ss| {
      var s := Scroll(ss[j]);
      var live := ss[j := s];
      assert ss[j..] == [ss[j]] + ss[j + 1..];
      assert ScrollStars(ss[j..]) == (if s.x < 0 then [] else [s]) + ScrollStars(ss[j + 1..]);
      if s.x < 0 {
        StarPassMeaning(Remove(live, j), j);
      } else {
        StarPassMeaning(live, j + 1);
        assert live[..j + 1] == ss[..j] + [s];
        assert live[j + 1..] == ss[j + 1..];
      }
    } else {
      assert ss[j..] == [];
    }
  }

  /** Scrolled stars stay stars: inside the window, with their row and speed. */
  lemma {:induction false} ScrollStarsKeepShape(ss: seq<Star>)
    requires forall s :: s in ss ==> StarShape(s)
    ensures forall s :: s in ScrollStars(ss) ==> StarShape(s)
  {
    if ss != [] {
      var s := Scroll(ss[0]);
      assert ss[0] in ss;
      assert forall t :: t in ss[1..] ==> t in ss;
      ScrollStarsKeepShape(ss[1..]);
      assert ScrollStars(ss) == (if s.x < 0 then [] else [s]) + ScrollStars(ss[1..]);
    }
  }

  // ---------------------------------------------------------------------
  // Hazards and collectibles (lines 246-264)
  // ---------------------------------------------------------------------

  /** `x -= speed`, guarded by `if not paused`. */
  function MoveLeft(r: Rect, speed: int, paused: bool): (m: Rect)
    // only the left edge moves, and not at all while paused
    ensures m == r.(x := m.x) && (paused ==> m == r)
  {
    if paused then r else r.(x := r.x - speed)
  }

  function Moved(rs: seq<Rect>, speed: int, paused: bool): (m: seq<Rect>)
    ensures |m| == |rs|
    ensures forall i :: 0 <= i < |rs| ==> m[i] == MoveLeft(rs[i], speed, paused)
  {
    if rs == [] then [] else [MoveLeft(rs[0], speed, paused)] + Moved(rs[1..], speed, paused)
  }

  /** The entries whose right edge has not passed x = 0, in order. */
  function OnScreen(rs: seq<Rect>): (r: seq<Rect>)
    ensures |r| <= |rs|
  {
    if rs == [] then [] else (if rs[0].Right() < 0 then [] else [rs[0]]) + OnScreen(rs[1..])
  }

  /** An entry that is still on screen and overlaps the player. */
  predicate Collides(player: Rect, h: Rect) {
    h.Right() >= 0 && Overlaps(player, h)
  }

  /** Index of the first colliding entry, or `|rs|` when none collides. */
  function FirstCollision(player: Rect, rs: seq<Rect>): (k: nat)
    ensures k <= |rs|
    ensures forall i :: 0 <= i < k ==> !Collides(player, rs[i])
    ensures k < |rs| ==> Collides(player, rs[k])
  {
    if rs == [] then 0
    else if Collides(player, rs[0]) then 0
    else 1 + FirstCollision(player, rs[1..])
  }

  lemma OnScreenCons(h: Rect, rs: seq<Rect>)
    ensures OnScreen([h] + rs) == (if h.Right() < 0 then [] else [h]) + OnScreen(rs)
  {
    assert ([h] + rs)[1..] == rs;
  }

  lemma FirstCollisionCons(player: Rect, h: Rect, rs: seq<Rect>)
    ensures FirstCollision(player, [h] + rs) ==
      if Collides(player, h) then 0 else 1 + FirstCollision(player, rs)
  {
    assert ([h] + rs)[1..] == rs;
  }

  /** Every entry `OnScreen` keeps is on screen and was in the input. */
  lemma {:induction false} OnScreenMembers(rs: seq<Rect>)
    ensures forall h :: h in OnScreen(rs) ==> h in rs && h.Right() >= 0
  {
    if rs != [] {
      OnScreenMembers(rs[1..]);
    }
  }

  /**
   * Reference meaning of the hazard pass, on the hazards `m` after they
   * moved: those that left the screen are dropped and, when the player is
   * `vulnerable` (not invincible), so is the FIRST one that overlaps the
   * player. No other one can hit, since the hit makes the player invincible.
   */
  function Survivors(player: Rect, vulnerable: bool, m: seq<Rect>): (r: seq<Rect>) {
    var k := FirstCollision(player, m);
    if !vulnerable || k == |m| then OnScreen(m) else OnScreen(m[..k]) + OnScreen(m[k + 1..])
  }

  /** Whether the hazard pass over the moved hazards `m` calls `hit_player`. */
  predicate HitOccurs(player: Rect, vulnerable: bool, m: seq<Rect>) {
    vulnerable && FirstCollision(player, m) < |m|
  }

  /** The hazard pass over `rest`, after the already-kept hazards `kept`. */
  function HazardOutcome(g: World, kept: seq<Rect>, rest: seq<Rect>): (r: World) {
    var m := Moved(rest, g.speed, g.paused);
    var vulnerable := g.invincible == 0;
    (if HitOccurs(g.player, vulnerable, m) then Hit(g) else g)
      .(hazards := kept + Survivors(g.player, vulnerable, m))
  }

  /** How the reference meaning treats its first hazard: one that left the screen is dropped. */
  lemma SurvivorsConsGone(player: Rect, vulnerable: bool, h: Rect, m: seq<Rect>)
    requires h.Right() < 0
    ensures Survivors(player, vulnerable, [h] + m) == Survivors(player, vulnerable, m)
    ensures HitOccurs(player, vulnerable, [h] + m) <==> HitOccurs(player, vulnerable, m)
  {
    var hm := [h] + m;
    OnScreenCons(h, m);
    FirstCollisionCons(player, h, m);
    var k := FirstCollision(player, m);
    if vulnerable && k < |m| {
      assert hm[..1 + k] == [h] + m[..k];
      OnScreenCons(h, m[..k]);
      assert hm[1 + k + 1..] == m[k + 1..];
    }
  }

  /** A first hazard that hits is the one removed; no later one can hit. */
  lemma SurvivorsConsHit(player: Rect, vulnerable: bool, h: Rect, m: seq<Rect>)
    requires vulnerable && Collides(player, h)
    ensures Survivors(player, vulnerable, [h] + m) == Survivors(player, false, m)
    ensures HitOccurs(player, vulnerable, [h] + m)
  {
    var hm := [h] + m;
    OnScreenCons(h, m);
    FirstCollisionCons(player, h, m);
    assert hm[..0] == [] && hm[1..] == m;
  }

  /** A first hazard that is on screen and does not hit is kept. */
  lemma SurvivorsConsKept(player: Rect, vulnerable: bool, h: Rect, m: seq<Rect>)
    requires h.Right() >= 0 && !(vulnerable && Overlaps(player, h))
    ensures Survivors(player, vulnerable, [h] + m) == [h] + Survivors(player, vulnerable, m)
    ensures HitOccurs(player, vulnerable, [h] + m) <==> HitOccurs(player, vulnerable, m)
  {
    var hm := [h] + m;
    OnScreenCons(h, m);
    FirstCollisionCons(player, h, m);
    var k := FirstCollision(player, m);
    if vulnerable && k < |m| {
      assert hm[..1 + k] == [h] + m[..k];
      OnScreenCons(h, m[..k]);
      assert hm[1 + k + 1..] == m[k + 1..];
    }
  }

  /** The hazard loop as the script runs it, in place: `HazardStep` until the end of the list. */
  function HazardPass(g: World, j: nat): (r: World)
    requires j <= |g.hazards|
    // no hazard is added, and the hazards already passed stay in front
    ensures |r.hazards| <= |g.hazards| && g.hazards[..j] <= r.hazards
    decreases |g.hazards| - j
  {
    if j == |g.hazards| then g
    else
      var step := HazardStep(g, j);
      HazardPass(step.0, step.1)
  }

  /**
   * One iteration of the hazard loop from position `j`: the state after it
   * and the next position. The hazard moves; it is removed when its right
   * edge has passed x = 0, or when it overlaps a player who is not
   * invincible, which calls `hit_player`; otherwise the loop goes on past it.
   */
  function HazardStep(g: World, j: nat): (r: (World, nat))
    requires j < |g.hazards|
    ensures r.1 <= |r.0.hazards| && |r.0.hazards| - r.1 < |g.hazards| - j
    ensures j <= r.1 && |r.0.hazards| <= |g.hazards| && g.hazards[..j] <= r.0.hazards[..r.1]
  {
    var h := NextHazard(g, j);
    var live := g.hazards[j := h];
    if h.Right() < 0 then (g.(hazards := Remove(live, j)), j)
    else if Overlaps(g.player, h) && g.invincible == 0 then (Hit(g.(hazards := Remove(live, j))), j)
    else (g.(hazards := live), j + 1)
  }

  /** `hit_player` does not look at the hazard list. */
  lemma HitIgnoresHazards(g: World, A: seq<Rect>)
    ensures Hit(g.(hazards := A)) == Hit(g).(hazards := A)
  {
  }

  /** The reference meaning does not look at the hazard list either. */
  lemma HazardOutcomeIgnoresHazards(g: World, A: seq<Rect>, kept: seq<Rect>, rest: seq<Rect>)
    ensures HazardOutcome(g.(hazards := A), kept, rest) == HazardOutcome(g, kept, rest)
  {
    HitIgnoresHazards(g, A);
  }

  /** The next hazard in the loop, after its move. */
  function NextHazard(g: World, j: nat): (h: Rect)
    requires j < |g.hazards|
  {
    MoveLeft(g.hazards[j], g.speed, g.paused)
  }

  /** The reference meaning drops a hazard that left the screen. */
  lemma HazardOutcomeDrop(g: World, pre: seq<Rect>, x: Rect, rest: seq<Rect>)
    requires MoveLeft(x, g.speed, g.paused).Right() < 0
    ensures HazardOutcome(g, pre, [x] + rest) == HazardOutcome(g, pre, rest)
  {
    var h := MoveLeft(x, g.speed, g.paused);
    var m := Moved(rest, g.speed, g.paused);
    assert Moved([x] + rest, g.speed, g.paused) == [h] + m;
    SurvivorsConsGone(g.player, g.invincible == 0, h, m);
  }

  /** One step of the hazard loop: the reference meaning is kept across a dropped hazard. */
  lemma HazardDropStep(g: World, j: nat)
    requires j < |g.hazards| && NextHazard(g, j).Right() < 0
    requires var g' := g.(hazards := Remove(g.hazards[j := NextHazard(g, j)], j));
      HazardPass(g', j) == HazardOutcome(g', g'.hazards[..j], g'.hazards[j..])
    ensures HazardPass(g, j) == HazardOutcome(g, g.hazards[..j], g.hazards[j..])
  {
    var h, rest := NextHazard(g, j), g.hazards[j + 1..];
    var A := Remove(g.hazards[j := h], j);
    assert HazardPass(g, j) == HazardPass(g.(hazards := A), j);
    assert g.hazards[j..] == [g.hazards[j]] + rest;
    assert A[..j] == g.hazards[..j] && A[j..] == rest;
    HazardOutcomeIgnoresHazards(g, A, g.hazards[..j], rest);
    HazardOutcomeDrop(g, g.hazards[..j], g.hazards[j], rest);
  }

  /** One step of the hazard loop: across the hazard that hits. */
  lemma HazardHitStep(g: World, j: nat)
    requires j < |g.hazards| && NextHazard(g, j).Right() >= 0
    requires Overlaps(g.player, NextHazard(g, j)) && g.invincible == 0
    requires var g' := Hit(g.(hazards := Remove(g.hazards[j := NextHazard(g, j)], j)));
      HazardPass(g', j) == HazardOutcome(g', g'.hazards[..j], g'.hazards[j..])
    ensures HazardPass(g, j) == HazardOutcome(g, g.hazards[..j], g.hazards[j..])
  {
    var h, rest := NextHazard(g, j), g.hazards[j + 1..];
    var A := Remove(g.hazards[j := h], j);
    assert HazardPass(g, j) == HazardPass(Hit(g.(hazards := A)), j);
    assert g.hazards[j..] == [g.hazards[j]] + rest;
    SurvivorsConsHit(g.player, true, h, Moved(rest, g.speed, g.paused));
    HitIgnoresHazards(g, A);
    HazardOutcomeIgnoresHazards(Hit(g), A, g.hazards[..j], rest);
  }

  /** The reference meaning moves a kept hazard from the unprocessed part to the kept part. */
  lemma HazardOutcomeKeep(g: World, pre: seq<Rect>, x: Rect, rest: seq<Rect>)
    requires MoveLeft(x, g.speed, g.paused).Right() >= 0
    requires !(Overlaps(g.player, MoveLeft(x, g.speed, g.paused)) && g.invincible == 0)
    ensures HazardOutcome(g, pre, [x] + rest) == HazardOutcome(g, pre + [MoveLeft(x, g.speed, g.paused)], rest)
  {
    var h := MoveLeft(x, g.speed, g.paused);
    var m := Moved(rest, g.speed, g.paused);
    var vulnerable := g.invincible == 0;
    assert Moved([x] + rest, g.speed, g.paused) == [h] + m;
    SurvivorsConsKept(g.player, vulnerable, h, m);
    var S := Survivors(g.player, vulnerable, m);
    assert (pre + [h]) + S == pre + ([h] + S);
  }

  /** One step of the hazard loop: across a hazard that is kept. */
  lemma HazardKeepStep(g: World, j: nat)
    requires j < |g.hazards| && NextHazard(g, j).Right() >= 0
    requires !(Overlaps(g.player, NextHazard(g, j)) && g.invincible == 0)
    requires var g' := g.(hazards := g.hazards[j := NextHazard(g, j)]);
      HazardPass(g', j + 1) == HazardOutcome(g', g'.hazards[..j + 1], g'.hazards[j + 1..])
    ensures HazardPass(g, j) == HazardOutcome(g, g.hazards[..j], g.hazards[j..])
  {
    var h, rest := NextHazard(g, j), g.hazards[j + 1..];
    var live := g.hazards[j := h];
    assert HazardPass(g, j) == HazardPass(g.(hazards := live), j + 1);
    assert g.hazards[j..] == [g.hazards[j]] + rest;
    assert live[..j + 1] == g.hazards[..j] + [h] && live[j + 1..] == rest;
    HazardOutcomeIgnoresHazards(g, live, g.hazards[..j] + [h], rest);
    HazardOutcomeKeep(g, g.hazards[..j], g.hazards[j], rest);
  }

  /** One iteration of the hazard loop keeps its reference meaning, whichever branch it takes. */
  lemma HazardStepMeaning(g: World, j: nat)
    requires j < |g.hazards|
    requires var s := HazardStep(g, j);
      HazardPass(s.0, s.1) == HazardOutcome(s.0, s.0.hazards[..s.1], s.0.hazards[s.1..])
    ensures HazardPass(g, j) == HazardOutcome(g, g.hazards[..j], g.hazards[j..])
  {
    var h := NextHazard(g, j);
    if h.Right() < 0 {
      HazardDropStep(g, j);
    } else if Overlaps(g.player, h) && g.invincible == 0 {
      HazardHitStep(g, j);
    } else {
      HazardKeepStep(g, j);
    }
  }

  /** The in-place hazard loop does what its reference meaning says. */
  lemma {:induction false} HazardPassMeaning(g: World, j: nat)
    requires j <= |g.hazards|
    ensures HazardPass(g, j) == HazardOutcome(g, g.hazards[..j], g.hazards[j..])
    decreases |g.hazards| - j
  {
    if j == |g.hazards| {
      assert g.hazards[j..] == [] && g.hazards[..j] == g.hazards;
    } else {
      var s := HazardStep(g, j);
      HazardPassMeaning(s.0, s.1);
      HazardStepMeaning(g, j);
    }
  }

  // ---------------------------------------------------------------------
  // Collectibles (lines 256-264)
  // ---------------------------------------------------------------------

  /**
   * The collectible loop as the script runs it, in place: `CollectStep`
   * until the end of the list. Each move reads the current speed, which a
   * pickup earlier in the same loop may have raised.
   */
  function CollectPass(g: World, j: nat): (r: World)
    requires j <= |g.collectibles|
    // no trophy is added, and the trophies already passed stay in front
    ensures |r.collectibles| <= |g.collectibles| && g.collectibles[..j] <= r.collectibles
    decreases |g.collectibles| - j
  {
    if j == |g.collectibles| then g
    else
      var step := CollectStep(g, j);
      CollectPass(step.0, step.1)
  }

  /** How far the entities move this tick: `speed`, or nothing while paused. */
  function Shift(g: World): (d: int) {
    if g.paused then 0 else g.speed
  }

  /** `a` is `b` moved left by between `lo` and `hi`, on the same row and of the same size. */
  predicate Shifted(a: Rect, b: Rect, lo: int, hi: int) {
    a.y == b.y && a.w == b.w && a.h == b.h && lo <= b.x - a.x <= hi
  }

  /** `out` is a subsequence of `inp`, each entry moved left by between `lo` and `hi`. */
  predicate ShiftedSub(out: seq<Rect>, inp: seq<Rect>, lo: int, hi: int)
    decreases |inp|
  {
    if out == [] then true
    else if inp == [] then false
    else (Shifted(out[0], inp[0], lo, hi) && ShiftedSub(out[1..], inp[1..], lo, hi))
         || ShiftedSub(out, inp[1..], lo, hi)
  }

  /** The entries a pass leaves in place when nothing moves: on screen and clear of the player. */
  function Missed(player: Rect, rs: seq<Rect>): (r: seq<Rect>)
    ensures |r| <= |rs|
  {
    if rs == [] then []
    else (if Collides(player, rs[0]) || rs[0].Right() < 0 then [] else [rs[0]]) + Missed(player, rs[1..])
  }

  /** The number of entries that collide with the player. */
  function Caught(player: Rect, rs: seq<Rect>): (n: nat)
    ensures n + |Missed(player, rs)| <= |rs|
  {
    if rs == [] then 0 else (if Collides(player, rs[0]) then 1 else 0) + Caught(player, rs[1..])
  }

  /**
   * What the collectible pass from position `j` achieves, ending in `r`:
   * `CollectRun` for the run state, `CollectLeft` for the trophies left,
   * and `CollectAll` for the trophies that can be neither left nor collected.
   */
  predicate CollectSpec(g: World, j: nat, r: World)
    requires j <= |g.collectibles|
  {
    CollectRun(g, j, r) && CollectLeft(g, j, r) && CollectAll(g, j, r)
  }

  /**
   * The entries before `j` are untouched, and the run state is that of
   * exactly as many pickups in a row as the streak grew by, each of which
   * removed one trophy.
   */
  predicate CollectRun(g: World, j: nat, r: World)
    requires j <= |g.collectibles|
  {
    && j <= |r.collectibles| && r.collectibles[..j] == g.collectibles[..j]
    && r.streak >= g.streak
    && r == Pickups(g.(collectibles := r.collectibles), r.streak - g.streak)
    && (|r.collectibles| - j) + (r.streak - g.streak) <= |g.collectibles| - j
  }

  /**
   * Every trophy left after `j` is on screen and clear of the player, and
   * is one of the trophies that were there, in the same order, moved left
   * by the speed of the moment; while paused nothing moves and exactly the
   * overlapping trophies are collected.
   */
  predicate CollectLeft(g: World, j: nat, r: World)
    requires j <= |g.collectibles|
  {
    && j <= |r.collectibles|
    && (forall c :: c in r.collectibles[j..] ==> c.Right() >= 0 && !Overlaps(g.player, c))
    && ShiftedSub(r.collectibles[j..], g.collectibles[j..], Shift(g), Shift(r))
    && (g.paused ==>
          && r.collectibles[j..] == Missed(g.player, g.collectibles[j..])
          && r.streak - g.streak == Caught(g.player, g.collectibles[j..]))
  }

  /**
   * No trophy after `j` is lost without a pickup: every one that is still
   * on screen when moved by the frame's final shift was either left in the
   * list or collected. Since the speed never drops during the pass, such a
   * trophy was on screen when the loop moved it.
   */
  predicate CollectAll(g: World, j: nat, r: World)
    requires j <= |g.collectibles|
  {
    && j <= |r.collectibles|
    && (r.streak - g.streak) + (|r.collectibles| - j) >= |OnScreen(Moved(g.collectibles[j..], Shift(r), false))|
  }

  /** Counting the entries on screen after a move, one entry at a time. */
  lemma OnScreenMovedCons(x: Rect, rest: seq<Rect>, d: int)
    ensures |OnScreen(Moved([x] + rest, d, false))|
      == (if MoveLeft(x, d, false).Right() < 0 then 0 else 1) + |OnScreen(Moved(rest, d, false))|
  {
    assert Moved([x] + rest, d, false) == [MoveLeft(x, d, false)] + Moved(rest, d, false);
    OnScreenCons(MoveLeft(x, d, false), Moved(rest, d, false));
  }

  /** `CollectAll` across a trophy the loop drops: it is off screen at the final shift too. */
  lemma CollectDropAll(g: World, j: nat, r: World)
    requires j < |g.collectibles| && NextTrophy(g, j).Right() < 0
    requires r.paused == g.paused && r.speed >= g.speed
    requires CollectAll(g.(collectibles := Remove(g.collectibles[j := NextTrophy(g, j)], j)), j, r)
    ensures CollectAll(g, j, r)
  {
    var x, rest := g.collectibles[j], g.collectibles[j + 1..];
    assert g.collectibles[j..] == [x] + rest;
    OnScreenMovedCons(x, rest, Shift(r));
  }

  /** `CollectAll` across a trophy the loop collects: the pickup accounts for it. */
  lemma CollectPickupAll(g: World, j: nat, r: World)
    requires j < |g.collectibles|
    requires var g' := Pickup(g.(collectibles := Remove(g.collectibles[j := NextTrophy(g, j)], j)));
      CollectAll(g', j, r)
    ensures CollectAll(g, j, r)
  {
    var x, rest := g.collectibles[j], g.collectibles[j + 1..];
    var A := Remove(g.collectibles[j := NextTrophy(g, j)], j);
    assert Pickup(g.(collectibles := A)).streak == g.streak + 1;
    assert g.collectibles[j..] == [x] + rest;
    assert A[j..] == rest;
    OnScreenMovedCons(x, rest, Shift(r));
  }

  /** `CollectAll` across a trophy the loop keeps: it is one of those left. */
  lemma CollectKeepAll(g: World, j: nat, r: World)
    requires j < |g.collectibles|
    requires CollectAll(g.(collectibles := g.collectibles[j := NextTrophy(g, j)]), j + 1, r)
    ensures CollectAll(g, j, r)
  {
    var x, rest := g.collectibles[j], g.collectibles[j + 1..];
    assert g.collectibles[j..] == [x] + rest;
    assert g.collectibles[j := NextTrophy(g, j)][j + 1..] == rest;
    OnScreenMovedCons(x, rest, Shift(r));
  }

  /** Widening the allowed shift keeps a shifted subsequence one. */
  lemma {:induction false} ShiftedSubWiden(out: seq<Rect>, inp: seq<Rect>, lo: int, lo': int, hi: int)
    requires lo <= lo' && ShiftedSub(out, inp, lo', hi)
    ensures ShiftedSub(out, inp, lo, hi)
    decreases |inp|
  {
    if out != [] && inp != [] {
      if Shifted(out[0], inp[0], lo', hi) && ShiftedSub(out[1..], inp[1..], lo', hi) {
        ShiftedSubWiden(out[1..], inp[1..], lo, lo', hi);
      } else {
        ShiftedSubWiden(out, inp[1..], lo, lo', hi);
      }
    }
  }

  /** The next trophy in the loop, after its move. */
  function NextTrophy(g: World, j: nat): (c: Rect)
    requires j < |g.collectibles|
  {
    MoveLeft(g.collectibles[j], g.speed, g.paused)
  }

  /**
   * One iteration of the collectible loop from position `j`: the state
   * after it and the next position. The trophy moves; it is removed when
   * its right edge has passed x = 0, or when it overlaps the player, which
   * calls `collect_item` and then `maybe_unlock_toon_mode`; otherwise the
   * loop goes on past it.
   */
  function CollectStep(g: World, j: nat): (r: (World, nat))
    requires j < |g.collectibles|
    ensures r.1 <= |r.0.collectibles| && |r.0.collectibles| - r.1 < |g.collectibles| - j
    ensures j <= r.1 && |r.0.collectibles| <= |g.collectibles| && g.collectibles[..j] <= r.0.collectibles[..r.1]
  {
    var c := NextTrophy(g, j);
    var live := g.collectibles[j := c];
    if c.Right() < 0 then (g.(collectibles := Remove(live, j)), j)
    else if Overlaps(g.player, c) then (Pickup(g.(collectibles := Remove(live, j))), j)
    else (g.(collectibles := live), j + 1)
  }

  /** One step of the collectible loop: across a trophy that left the screen. */
  lemma CollectDropStep(g: World, j: nat, r: World)
    requires j < |g.collectibles| && NextTrophy(g, j).Right() < 0
    requires CollectSpec(g.(collectibles := Remove(g.collectibles[j := NextTrophy(g, j)], j)), j, r)
    ensures CollectSpec(g, j, r)
  {
    var g' := g.(collectibles := Remove(g.collectibles[j := NextTrophy(g, j)], j));
    CollectDropRunLeft(g, j, r);
    CollectRunFrame(g', j, r);
    CollectDropAll(g, j, r);
  }

  lemma CollectDropRunLeft(g: World, j: nat, r: World)
    requires j < |g.collectibles| && NextTrophy(g, j).Right() < 0
    requires var g' := g.(collectibles := Remove(g.collectibles[j := NextTrophy(g, j)], j));
      CollectRun(g', j, r) && CollectLeft(g', j, r)
    ensures CollectRun(g, j, r) && CollectLeft(g, j, r)
  {
    var x, rest := g.collectibles[j], g.collectibles[j + 1..];
    assert g.collectibles[j..] == [x] + rest;
    assert ([x] + rest)[1..] == rest;
    if g.paused {
      assert x == NextTrophy(g, j);
    }
  }

  /** Pickups leave the pause flag alone and never lower the speed. */
  lemma CollectRunFrame(g: World, j: nat, r: World)
    requires j <= |g.collectibles| && CollectRun(g, j, r)
    ensures r.paused == g.paused && r.speed >= g.speed
  {
    assert r == Pickups(g.(collectibles := r.collectibles), r.streak - g.streak);
  }

  /** One step of the collectible loop: across a trophy that is picked up. */
  lemma CollectPickupStep(g: World, j: nat, r: World)
    requires j < |g.collectibles| && NextTrophy(g, j).Right() >= 0 && Overlaps(g.player, NextTrophy(g, j))
    requires CollectSpec(Pickup(g.(collectibles := Remove(g.collectibles[j := NextTrophy(g, j)], j))), j, r)
    ensures CollectSpec(g, j, r)
  {
    CollectPickupRun(g, j, r);
    CollectPickupLeft(g, j, r);
    CollectPickupAll(g, j, r);
  }

  lemma CollectPickupRun(g: World, j: nat, r: World)
    requires j < |g.collectibles|
    requires CollectRun(Pickup(g.(collectibles := Remove(g.collectibles[j := NextTrophy(g, j)], j))), j, r)
    ensures CollectRun(g, j, r)
  {
    var A := Remove(g.collectibles[j := NextTrophy(g, j)], j);
    var g' := Pickup(g.(collectibles := A));
    PickupIgnoresCollectibles(g, A);
    PickupIgnoresCollectibles(g, r.collectibles);
    assert g'.(collectibles := r.collectibles) == Pickup(g.(collectibles := r.collectibles));
    assert g'.streak == g.streak + 1;
  }

  lemma CollectPickupLeft(g: World, j: nat, r: World)
    requires j < |g.collectibles| && NextTrophy(g, j).Right() >= 0 && Overlaps(g.player, NextTrophy(g, j))
    requires var g' := Pickup(g.(collectibles := Remove(g.collectibles[j := NextTrophy(g, j)], j)));
      CollectLeft(g', j, r)
    ensures CollectLeft(g, j, r)
  {
    var x, rest := g.collectibles[j], g.collectibles[j + 1..];
    var A := Remove(g.collectibles[j := NextTrophy(g, j)], j);
    var g' := Pickup(g.(collectibles := A));
    assert g'.player == g.player && g'.paused == g.paused && g'.speed >= g.speed;
    assert g'.streak == g.streak + 1;
    assert g.collectibles[j..] == [x] + rest;
    assert ([x] + rest)[1..] == rest;
    assert A[j..] == rest;
    ShiftedSubWiden(r.collectibles[j..], rest, Shift(g), Shift(g'), Shift(r));
    if g.paused {
      assert x == NextTrophy(g, j);
    }
  }

  /** One step of the collectible loop: across a trophy that stays. */
  lemma CollectKeepStep(g: World, j: nat, r: World)
    requires j < |g.collectibles| && NextTrophy(g, j).Right() >= 0 && !Overlaps(g.player, NextTrophy(g, j))
    requires CollectSpec(g.(collectibles := g.collectibles[j := NextTrophy(g, j)]), j + 1, r)
    ensures CollectSpec(g, j, r)
  {
    CollectKeepRun(g, j, r);
    CollectKeepLeft(g, j, r);
    CollectKeepAll(g, j, r);
  }

  lemma CollectKeepRun(g: World, j: nat, r: World)
    requires j < |g.collectibles|
    requires CollectRun(g.(collectibles := g.collectibles[j := NextTrophy(g, j)]), j + 1, r)
    ensures CollectRun(g, j, r)
    ensures r.collectibles[j] == NextTrophy(g, j)
    ensures r.paused == g.paused && r.speed >= g.speed
  {
    var c := NextTrophy(g, j);
    var live := g.collectibles[j := c];
    assert live[..j + 1] == g.collectibles[..j] + [c];
    assert r.collectibles[..j] == r.collectibles[..j + 1][..j];
    assert r.collectibles[j] == r.collectibles[..j + 1][j];
    assert g.(collectibles := live).(collectibles := r.collectibles) == g.(collectibles := r.collectibles);
  }

  lemma CollectKeepLeft(g: World, j: nat, r: World)
    requires j < |g.collectibles| && NextTrophy(g, j).Right() >= 0 && !Overlaps(g.player, NextTrophy(g, j))
    requires j + 1 <= |r.collectibles| && r.collectibles[j] == NextTrophy(g, j)
    requires r.paused == g.paused && r.speed >= g.speed
    requires CollectLeft(g.(collectibles := g.collectibles[j := NextTrophy(g, j)]), j + 1, r)
    ensures CollectLeft(g, j, r)
  {
    var x, rest, c := g.collectibles[j], g.collectibles[j + 1..], NextTrophy(g, j);
    var live := g.collectibles[j := c];
    assert g.collectibles[j..] == [x] + rest;
    assert ([x] + rest)[1..] == rest;
    assert live[j + 1..] == rest;
    var out := r.collectibles[j..];
    assert out == [c] + r.collectibles[j + 1..];
    assert out[1..] == r.collectibles[j + 1..];
    assert Shifted(c, x, Shift(g), Shift(r));
    if g.paused {
      assert c == x;
      assert Missed(g.player, [x] + rest) == [x] + Missed(g.player, rest);
    }
  }

  /** One iteration of the collectible loop keeps `CollectSpec`, whichever branch it takes. */
  lemma CollectStepMeaning(g: World, j: nat, r: World)
    requires j < |g.collectibles|
    requires var s := CollectStep(g, j); CollectSpec(s.0, s.1, r)
    ensures CollectSpec(g, j, r)
  {
    var c := NextTrophy(g, j);
    var live := g.collectibles[j := c];
    if c.Right() < 0 {
      assert CollectStep(g, j) == (g.(collectibles := Remove(live, j)), j);
      CollectDropStep(g, j, r);
    } else if Overlaps(g.player, c) {
      assert CollectStep(g, j) == (Pickup(g.(collectibles := Remove(live, j))), j);
      CollectPickupStep(g, j, r);
    } else {
      assert CollectStep(g, j) == (g.(collectibles := live), j + 1);
      CollectKeepStep(g, j, r);
    }
  }

  /** The in-place collectible loop achieves `CollectSpec`. */
  lemma {:induction false} CollectPassSpec(g: World, j: nat)
    requires j <= |g.collectibles|
    ensures CollectSpec(g, j, CollectPass(g, j))
    decreases |g.collectibles| - j
  {
    if j == |g.collectibles| {
      assert g.collectibles[j..] == [];
      assert g.(collectibles := g.collectibles) == g;
    } else {
      var s := CollectStep(g, j);
      var r := CollectPass(s.0, s.1);
      CollectPassSpec(s.0, s.1);
      assert CollectPass(g, j) == r;
      CollectStepMeaning(g, j, r);
    }
  }

  /**
   * Reference meaning of the collectible pass over `rest`, after the
   * already-kept trophies `kept`: each trophy in turn moves by the speed in
   * effect when the loop reaches it; one whose right edge has passed x = 0
   * is dropped, one that overlaps the player is picked up (which may raise
   * the speed for the trophies after it), and any other is kept, in order.
   */
  function CollectOutcome(g: World, kept: seq<Rect>, rest: seq<Rect>): (r: World)
    // at most one pickup per trophy, and no trophy both kept and picked up
    ensures r.streak >= g.streak && |r.collectibles| + (r.streak - g.streak) <= |kept| + |rest|
    // the trophies already kept stay at the front
    ensures kept <= r.collectibles
    decreases |rest|
  {
    if rest == [] then g.(collectibles := kept)
    else
      var c := MoveLeft(rest[0], g.speed, g.paused);
      if c.Right() < 0 then CollectOutcome(g, kept, rest[1..])
      else if Overlaps(g.player, c) then CollectOutcome(Pickup(g), kept, rest[1..])
      else
        CollectOutcome(g, kept + [c], rest[1..])
  }

  /** The reference meaning does not look at the collectible list. */
  lemma {:induction false} CollectOutcomeIgnoresCollectibles(g: World, A: seq<Rect>, kept: seq<Rect>, rest: seq<Rect>)
    ensures CollectOutcome(g.(collectibles := A), kept, rest) == CollectOutcome(g, kept, rest)
    decreases |rest|
  {
    if rest != [] {
      var c := MoveLeft(rest[0], g.speed, g.paused);
      if c.Right() < 0 {
        CollectOutcomeIgnoresCollectibles(g, A, kept, rest[1..]);
      } else if Overlaps(g.player, c) {
        PickupIgnoresCollectibles(g, A);
        CollectOutcomeIgnoresCollectibles(Pickup(g), A, kept, rest[1..]);
      } else {
        CollectOutcomeIgnoresCollectibles(g, A, kept + [c], rest[1..]);
      }
    }
  }

  /** How the reference meaning treats its first trophy. */
  lemma CollectOutcomeCons(g: World, pre: seq<Rect>, x: Rect, rest: seq<Rect>)
    ensures var c := MoveLeft(x, g.speed, g.paused);
      CollectOutcome(g, pre, [x] + rest)
      == if c.Right() < 0 then CollectOutcome(g, pre, rest)
         else if Overlaps(g.player, c) then CollectOutcome(Pickup(g), pre, rest)
         else CollectOutcome(g, pre + [c], rest)
  {
    assert ([x] + rest)[0] == x && ([x] + rest)[1..] == rest;
  }

  /** One step of the collectible loop, against the reference meaning: across a trophy that left the screen. */
  lemma CollectOutcomeDropStep(g: World, j: nat)
    requires j < |g.collectibles| && NextTrophy(g, j).Right() < 0
    requires var g' := g.(collectibles := Remove(g.collectibles[j := NextTrophy(g, j)], j));
      CollectPass(g', j) == CollectOutcome(g', g'.collectibles[..j], g'.collectibles[j..])
    ensures CollectPass(g, j) == CollectOutcome(g, g.collectibles[..j], g.collectibles[j..])
  {
    var pre, x, rest := g.collectibles[..j], g.collectibles[j], g.collectibles[j + 1..];
    var A := Remove(g.collectibles[j := NextTrophy(g, j)], j);
    assert CollectStep(g, j) == (g.(collectibles := A), j);
    assert g.collectibles[j..] == [x] + rest;
    assert A[..j] == pre && A[j..] == rest;
    CollectOutcomeIgnoresCollectibles(g, A, pre, rest);
    CollectOutcomeCons(g, pre, x, rest);
  }

  /** One step of the collectible loop, against the reference meaning: across a trophy that is picked up. */
  lemma CollectOutcomePickupStep(g: World, j: nat)
    requires j < |g.collectibles| && NextTrophy(g, j).Right() >= 0 && Overlaps(g.player, NextTrophy(g, j))
    requires var g' := Pickup(g.(collectibles := Remove(g.collectibles[j := NextTrophy(g, j)], j)));
      CollectPass(g', j) == CollectOutcome(g', g'.collectibles[..j], g'.collectibles[j..])
    ensures CollectPass(g, j) == CollectOutcome(g, g.collectibles[..j], g.collectibles[j..])
  {
    var pre, x, rest := g.collectibles[..j], g.collectibles[j], g.collectibles[j + 1..];
    var A := Remove(g.collectibles[j := NextTrophy(g, j)], j);
    assert CollectStep(g, j) == (Pickup(g.(collectibles := A)), j);
    assert g.collectibles[j..] == [x] + rest;
    PickupIgnoresCollectibles(g, A);
    assert A[..j] == pre && A[j..] == rest;
    CollectOutcomeIgnoresCollectibles(Pickup(g), A, pre, rest);
    CollectOutcomeCons(g, pre, x, rest);
  }

  /** One step of the collectible loop, against the reference meaning: across a trophy that stays. */
  lemma CollectOutcomeKeepStep(g: World, j: nat)
    requires j < |g.collectibles| && NextTrophy(g, j).Right() >= 0 && !Overlaps(g.player, NextTrophy(g, j))
    requires var g' := g.(collectibles := g.collectibles[j := NextTrophy(g, j)]);
      CollectPass(g', j + 1) == CollectOutcome(g', g'.collectibles[..j + 1], g'.collectibles[j + 1..])
    ensures CollectPass(g, j) == CollectOutcome(g, g.collectibles[..j], g.collectibles[j..])
  {
    var pre, x, rest, c := g.collectibles[..j], g.collectibles[j], g.collectibles[j + 1..], NextTrophy(g, j);
    var live := g.collectibles[j := c];
    assert CollectStep(g, j) == (g.(collectibles := live), j + 1);
    assert g.collectibles[j..] == [x] + rest;
    assert live[..j + 1] == pre + [c] && live[j + 1..] == rest;
    CollectOutcomeIgnoresCollectibles(g, live, pre + [c], rest);
    CollectOutcomeCons(g, pre, x, rest);
  }

  /** One iteration of the collectible loop keeps its reference meaning, whichever branch it takes. */
  lemma CollectOutcomeStep(g: World, j: nat)
    requires j < |g.collectibles|
    requires var s := CollectStep(g, j);
      CollectPass(s.0, s.1) == CollectOutcome(s.0, s.0.collectibles[..s.1], s.0.collectibles[s.1..])
    ensures CollectPass(g, j) == CollectOutcome(g, g.collectibles[..j], g.collectibles[j..])
  {
    var c := NextTrophy(g, j);
    if c.Right() < 0 {
      CollectOutcomeDropStep(g, j);
    } else if Overlaps(g.player, c) {
      CollectOutcomePickupStep(g, j);
    } else {
      CollectOutcomeKeepStep(g, j);
    }
  }

  /**
   * The in-place collectible loop does exactly what its reference meaning
   * says: trophy by trophy, at the speed of the moment, dropped, picked up
   * or kept.
   */
  lemma {:induction false} CollectPassMeaning(g: World, j: nat)
    requires j <= |g.collectibles|
    ensures CollectPass(g, j) == CollectOutcome(g, g.collectibles[..j], g.collectibles[j..])
    decreases |g.collectibles| - j
  {
    if j == |g.collectibles| {
      assert g.collectibles[j..] == [] && g.collectibles[..j] == g.collectibles;
    } else {
      var s := CollectStep(g, j);
      CollectPassMeaning(s.0, s.1);
      CollectOutcomeStep(g, j);
    }
  }

  /**
   * A pickup in the middle of the loop raises the speed for the trophies
   * after it: here the first pickup reaches a score of 5, and the last
   * trophy, which the starting speed would have left on screen, is dropped.
   */
  lemma SpeedUpMidPass(g: World)
    requires !g.paused && g.score == 4 && g.streak == 0 && g.speed == 5 && !g.toon
    requires g.player == Rect(80, 220, 40, 40)
    requires g.collectibles == [Rect(90, 220, 26, 26), Rect(100, 220, 26, 26), Rect(-21, 220, 26, 26)]
    ensures var r := CollectPass(g, 0); r.score == 6 && r.speed == 6 && r.collectibles == []
    ensures MoveLeft(g.collectibles[2], g.speed, false).Right() >= 0
  {
    var cs := g.collectibles;
    CollectPassMeaning(g, 0);
    assert cs[..0] == [] && cs[0..] == cs;
    var g1 := Pickup(g);
    var g2 := Pickup(g1);
    TwoPickupsFromFour(g);
    var r1, r2 := cs[1..], cs[2..];
    assert r1 == [cs[1], cs[2]] && r1[1..] == r2 && r2 == [cs[2]] && r2[1..] == [];
    assert MoveLeft(cs[0], 5, false) == Rect(85, 220, 26, 26);
    assert MoveLeft(cs[1], 6, false) == Rect(94, 220, 26, 26);
    assert MoveLeft(cs[2], 6, false).Right() == -1;
    assert CollectOutcome(g2, [], r2) == g2.(collectibles := []);
    assert CollectOutcome(g1, [], r1) == CollectOutcome(g2, [], r2);
    assert CollectOutcome(g, [], cs) == CollectOutcome(g1, [], r1);
  }

  /** Two pickups in a row from a score of 4 and no streak: the first one raises the speed. */
  lemma TwoPickupsFromFour(g: World)
    requires g.score == 4 && g.streak == 0 && g.speed == 5 && !g.toon
    ensures Pickup(g).score == 5 && Pickup(g).speed == 6
    ensures Pickup(Pickup(g)).score == 6 && Pickup(Pickup(g)).speed == 6
  {
    var c := Collect(g);
    assert c.score == 5 && c.streak == 1 && c.speed == 6 && !c.toon;
    var c2 := Collect(Unlock(c));
    assert c2.score == 6 && c2.streak == 2 && c2.speed == 6 && !c2.toon;
  }

  /** A shifted subsequence of trophies keeps the trophy shape when nothing moves right. */
  lemma {:induction false} ShiftedSubKeepsShape(out: seq<Rect>, inp: seq<Rect>, lo: int, hi: int)
    requires ShiftedSub(out, inp, lo, hi) && lo >= 0
    requires forall c :: c in inp ==> TrophyShape(c)
    ensures forall c :: c in out ==> TrophyShape(c)
    decreases |inp|
  {
    if out != [] {
      assert forall c :: c in inp[1..] ==> c in inp;
      if Shifted(out[0], inp[0], lo, hi) && ShiftedSub(out[1..], inp[1..], lo, hi) {
        assert inp[0] in inp;
        ShiftedSubKeepsShape(out[1..], inp[1..], lo, hi);
        assert out == [out[0]] + out[1..];
      } else {
        ShiftedSubKeepsShape(out, inp[1..], lo, hi);
      }
    }
  }

  /**
   * The collectible pass of one frame, from the start of the list: as many
   * pickups as trophies were collected, at most one per trophy; the
   * trophies left are on screen, clear of the player, and in order among
   * the ones there were; and while the player is moving on, every trophy
   * keeps its shape.
   */
  lemma CollectPassOutcome(g: World)
    ensures var r := CollectPass(g, 0);
      && r.streak >= g.streak
      && r == Pickups(g.(collectibles := r.collectibles), r.streak - g.streak)
      && |r.collectibles| + (r.streak - g.streak) <= |g.collectibles|
      && (forall c :: c in r.collectibles ==> c.Right() >= 0 && !Overlaps(g.player, c))
      // every trophy still on screen at the final shift is left or collected
      && (r.streak - g.streak) + |r.collectibles| >= |OnScreen(Moved(g.collectibles, Shift(r), false))|
      && (g.paused ==> r.collectibles == Missed(g.player, g.collectibles)
                       && r.streak - g.streak == Caught(g.player, g.collectibles))
    ensures g.speed >= 0 && (forall c :: c in g.collectibles ==> TrophyShape(c)) ==>
      forall c :: c in CollectPass(g, 0).collectibles ==> TrophyShape(c)
  {
    var r := CollectPass(g, 0);
    CollectPassSpec(g, 0);
    assert r.collectibles[0..] == r.collectibles && g.collectibles[0..] == g.collectibles;
    if g.speed >= 0 && (forall c :: c in g.collectibles ==> TrophyShape(c)) {
      ShiftedSubKeepsShape(r.collectibles, g.collectibles, Shift(g), Shift(r));
    }
  }

  /** Every entry on screen is kept by `OnScreen`. */
  lemma {:induction false} OnScreenComplete(rs: seq<Rect>)
    ensures forall h :: h in rs && h.Right() >= 0 ==> h in OnScreen(rs)
  {
    if rs != [] {
      OnScreenComplete(rs[1..]);
      assert forall h :: h in rs ==> h == rs[0] || h in rs[1..];
    }
  }

  /** Moving left by a non-negative speed keeps the hazard shape. */
  lemma MovedKeepsShape(rs: seq<Rect>, speed: int, paused: bool)
    requires speed >= 0 && forall h :: h in rs ==> HazardShape(h)
    ensures forall h :: h in Moved(rs, speed, paused) ==> HazardShape(h)
  {
    var m := Moved(rs, speed, paused);
    forall h | h in m
      ensures HazardShape(h)
    {
      var i :| 0 <= i < |m| && m[i] == h;
      assert rs[i] in rs;
    }
  }

  /** What the reference meaning keeps: on-screen hazards, all those clear of the player among them. */
  lemma SurvivorsMembers(player: Rect, vulnerable: bool, m: seq<Rect>)
    ensures !vulnerable ==> Survivors(player, vulnerable, m) == OnScreen(m)
    ensures forall h :: h in Survivors(player, vulnerable, m) ==> h in m && h.Right() >= 0
    ensures forall h :: h in m && h.Right() >= 0 && !Overlaps(player, h) ==> h in Survivors(player, vulnerable, m)
  {
    var k := FirstCollision(player, m);
    OnScreenMembers(m);
    OnScreenComplete(m);
    if vulnerable && k < |m| {
      var pre, post := m[..k], m[k + 1..];
      var S := OnScreen(pre) + OnScreen(post);
      assert Survivors(player, vulnerable, m) == S;
      OnScreenMembers(pre);
      OnScreenMembers(post);
      OnScreenComplete(pre);
      OnScreenComplete(post);
      forall h | h in S
        ensures h in m && h.Right() >= 0
      {
        if h in OnScreen(pre) {
          assert h in pre;
        } else {
          assert h in post;
        }
      }
      forall h | h in m && h.Right() >= 0 && !Overlaps(player, h)
        ensures h in S
      {
        var i :| 0 <= i < |m| && m[i] == h;
        assert i != k;
        if i < k {
          assert pre[i] == h;
        } else {
          assert post[i - k - 1] == h;
        }
      }
    }
  }

  /**
   * The hazard pass of one frame, from the start of the list: it costs at
   * most one life, through `hit_player`, and only when the player was not
   * invincible; while invincible, every hazard still on screen survives,
   * overlapping or not; every hazard left is on screen and was one of the
   * moved hazards; every moved hazard that is on screen and clear of the
   * player survives; and hazards keep their shape.
   */
  lemma HazardPassOutcome(g: World)
    ensures var r := HazardPass(g, 0);
      var m := Moved(g.hazards, g.speed, g.paused);
      && (r == g.(hazards := r.hazards) || (g.invincible == 0 && r == Hit(g).(hazards := r.hazards)))
      && (g.invincible != 0 ==> r.hazards == OnScreen(m))
      && (forall h :: h in r.hazards ==> h in m && h.Right() >= 0)
      && (forall h :: h in m && h.Right() >= 0 && !Overlaps(g.player, h) ==> h in r.hazards)
    ensures g.speed >= 0 && (forall h :: h in g.hazards ==> HazardShape(h)) ==>
      forall h :: h in HazardPass(g, 0).hazards ==> HazardShape(h)
  {
    var m := Moved(g.hazards, g.speed, g.paused);
    HazardPassMeaning(g, 0);
    assert g.hazards[..0] == [] && g.hazards[0..] == g.hazards;
    SurvivorsMembers(g.player, g.invincible == 0, m);
    if g.speed >= 0 && (forall h :: h in g.hazards ==> HazardShape(h)) {
      MovedKeepsShape(g.hazards, g.speed, g.paused);
    }
  }

  /**
   * While paused, the hazard pass moves nothing: it drops the hazards left
   * of the screen and, when the player is not invincible, the first one
   * the player overlaps, which hits.
   */
  lemma PausedHazardPass(g: World)
    requires g.paused
    ensures var r := HazardPass(g, 0);
      var vulnerable := g.invincible == 0;
      && r.hazards == Survivors(g.player, vulnerable, g.hazards)
      && r == (if HitOccurs(g.player, vulnerable, g.hazards) then Hit(g) else g).(hazards := r.hazards)
  {
    MovedPaused(g.hazards, g.speed);
    HazardPassMeaning(g, 0);
    assert g.hazards[..0] == [] && g.hazards[0..] == g.hazards;
  }

  /** Nothing moves when paused. */
  lemma {:induction false} MovedPaused(rs: seq<Rect>, speed: int)
    ensures Moved(rs, speed, true) == rs
  {
    if rs != [] {
      MovedPaused(rs[1..], speed);
    }
  }

  /** The collectible pass changes only the trophies and what pickups change. */
  lemma CollectPassFrame(g: World)
    ensures var r := CollectPass(g, 0);
      r == g.(collectibles := r.collectibles, score := r.score, streak := r.streak, speed := r.speed,
              toon := r.toon, lives := r.lives, banner := r.banner, bannerTimer := r.bannerTimer)
  {
    var r := CollectPass(g, 0);
    CollectPassSpec(g, 0);
    var h := g.(collectibles := r.collectibles);
    assert r == Pickups(h, r.streak - g.streak);
    assert r == h.(score := r.score, streak := r.streak, speed := r.speed, toon := r.toon,
                   lives := r.lives, banner := r.banner, bannerTimer := r.bannerTimer);
  }

  /** The hazard pass calls `hit_player` at most once, and only on a player who is not invincible. */
  lemma HazardPassHits(g: World)
    ensures var r := HazardPass(g, 0);
      r == g.(hazards := r.hazards) || (g.invincible == 0 && r == Hit(g).(hazards := r.hazards))
  {
    HazardPassMeaning(g, 0);
    assert g.hazards[..0] == [] && g.hazards[0..] == g.hazards;
  }

  /**
   * The collectible pass never lowers the score or the speed, never
   * switches Toon Mode off, and leaves the best score alone.
   */
  lemma CollectPassProgress(g: World)
    ensures var r := CollectPass(g, 0);
      r.score >= g.score && r.speed >= g.speed && (g.toon ==> r.toon) && r.best == g.best
  {
    var r := CollectPass(g, 0);
    CollectPassSpec(g, 0);
    var h := g.(collectibles := r.collectibles);
    assert r == Pickups(h, r.streak - g.streak);
  }

  /** The collectible pass keeps the run invariant and the timer bounds. */
  lemma CollectPassKeepsRunInv(g: World)
    requires RunInv(g) && TimerInv(g)
    ensures RunInv(CollectPass(g, 0)) && TimerInv(CollectPass(g, 0))
  {
    var r := CollectPass(g, 0);
    CollectPassSpec(g, 0);
    var h := g.(collectibles := r.collectibles);
    assert r == Pickups(h, r.streak - g.streak);
    PickupsKeepRunInv(h, r.streak - g.streak);
  }
}
