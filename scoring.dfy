/**
 * Scoring and progression: `reset_run`, `set_banner`, `hit_player`,
 * `collect_item` and `maybe_unlock_toon_mode`, each as a function from the
 * state before the call to the state after it.
 */
module Scoring {
  import opened Geometry
  import opened GameState

  /** `reset_run`: a fresh run; best score, pause flag, spawn counters and phase are kept. */
  function ResetRun(g: World): (r: World)
    ensures r.score == 0 && r.lives == START_LIVES && r.speed == START_SPEED
    ensures r.streak == 0 && !r.toon
    ensures r.hazards == [] && r.collectibles == [] && r.stars == []
    ensures r.invincible == 0 && r.shake == 0 && r.bannerTimer == 0 && r.banner == NoBanner
    ensures r.player == g.player.(x := PLAYER_X, y := PLAYER_Y)
    ensures r.best == g.best && r.paused == g.paused && r.phase == g.phase
    ensures r.starTimer == g.starTimer && r.spawnTimer == g.spawnTimer && r.collectTimer == g.collectTimer
  {
    g.(score := 0, lives := START_LIVES, speed := START_SPEED, toon := false, streak := 0,
       hazards := [], collectibles := [], stars := [],
       invincible := 0, shake := 0, bannerTimer := 0, banner := NoBanner,
       player := g.player.(x := PLAYER_X, y := PLAYER_Y))
  }

  /** `set_banner(text, frames)`: only the banner slot changes. */
  function SetBanner(g: World, text: Banner, frames: int): (r: World)
    ensures r.banner == text && r.bannerTimer == frames
    ensures r.(banner := g.banner, bannerTimer := g.bannerTimer) == g
  {
    g.(banner := text, bannerTimer := frames)
  }

  /** `hit_player`. */
  function Hit(g: World): (r: World)
    // invincible: nothing happens
    ensures g.invincible > 0 ==> r == g
    // otherwise one life, the streak and the effect timers
    ensures g.invincible <= 0 ==>
      && r.lives == g.lives - 1 && r.streak == 0
      && r.invincible == INVINCIBLE_TICKS && r.shake == SHAKE_TICKS
    // the run ends exactly when no life is left, recording the best score
    ensures g.invincible <= 0 && r.lives <= 0 ==> r.phase == GameOver && r.best == Max(g.best, g.score)
    ensures r.lives > 0 ==> r.phase == g.phase && r.best == g.best
    // nothing else changes
    ensures r == g.(lives := r.lives, streak := r.streak, invincible := r.invincible,
                    shake := r.shake, phase := r.phase, best := r.best)
  {
    if g.invincible > 0 then g
    else
      var g1 := g.(lives := g.lives - 1, streak := 0, invincible := INVINCIBLE_TICKS, shake := SHAKE_TICKS);
      if g1.lives <= 0 then
        var g2 := if g1.score > g1.best then g1.(best := g1.score) else g1;
        g2.(phase := GameOver)
      else g1
  }

  /** The streak bonus of `collect_item` fires on every fifth pickup in a row. */
  predicate StreakBonus(streak: int) {
    streak % 5 == 0 && streak > 0
  }

  predicate IsMilestone(score: int) {
    score % 10 == 0 && score > 0
  }

  /**
   * `collect_item`. Its three banners are written in turn, so the last one
   * that fires is the one left showing.
   */
  function Collect(g: World): (r: World)
    ensures r.streak == g.streak + 1
    // one point, or two when the new streak earns the bonus
    ensures r.score == g.score + (if StreakBonus(r.streak) then 2 else 1)
    // speed-up is decided on the score before the bonus point
    ensures r.speed == g.speed + (if (g.score + 1) % 5 == 0 then 1 else 0)
    ensures r == g.(score := r.score, streak := r.streak, speed := r.speed,
                    banner := r.banner, bannerTimer := r.bannerTimer)
  {
    var g1 := g.(score := g.score + 1, streak := g.streak + 1);
    var g2 := if g1.score % 5 == 0
              then SetBanner(g1.(speed := g1.speed + 1), SpeedUpBanner(g1.speed + 1), BANNER_TICKS)
              else g1;
    var g3 := if g2.streak % 5 == 0 && g2.streak > 0
              then SetBanner(g2.(score := g2.score + 1), StreakBanner(g2.streak), BANNER_TICKS)
              else g2;
    if g3.score % 10 == 0 && g3.score > 0
    then SetBanner(g3, MilestoneBanner(g3.score), BANNER_TICKS)
    else g3
  }

  /**
   * The banner `collect_item` leaves: its three banners are written in turn,
   * so the milestone banner wins over the streak banner, which wins over
   * the speed-up banner; with none of them, the banner is left alone.
   */
  lemma CollectBanner(g: World)
    ensures var r := Collect(g);
      var speedUp := (g.score + 1) % 5 == 0;
      && r.banner == (if IsMilestone(r.score) then MilestoneBanner(r.score)
                      else if StreakBonus(r.streak) then StreakBanner(r.streak)
                      else if speedUp then SpeedUpBanner(r.speed)
                      else g.banner)
      && r.bannerTimer == (if IsMilestone(r.score) || StreakBonus(r.streak) || speedUp
                           then BANNER_TICKS else g.bannerTimer)
  {
  }

  /** The condition of `maybe_unlock_toon_mode`. */
  predicate CanUnlock(g: World) {
    !g.toon && g.score >= TOON_SCORE
  }

  /** `maybe_unlock_toon_mode`. */
  function Unlock(g: World): (r: World)
    ensures CanUnlock(g) ==>
      && r.toon && r.lives == g.lives + 1 && r.speed == g.speed + 2
      && r.banner == ToonBanner && r.bannerTimer == BANNER_TICKS
    ensures !CanUnlock(g) ==> r == g
    // once checked, it cannot fire again until something clears Toon Mode
    ensures !CanUnlock(r)
    ensures r == g.(toon := r.toon, lives := r.lives, speed := r.speed,
                    banner := r.banner, bannerTimer := r.bannerTimer)
  {
    if !g.toon && g.score >= TOON_SCORE then
      SetBanner(g.(toon := true, lives := g.lives + 1, speed := g.speed + 2), ToonBanner, BANNER_TICKS)
    else g
  }

  /** What one trophy pickup does: `collect_item` then `maybe_unlock_toon_mode`. */
  function Pickup(g: World): (r: World)
    ensures r.streak == g.streak + 1 && r.score > g.score && r.speed >= g.speed
    ensures g.toon ==> r.toon
    // the player, the pause flag, the phase, the best score and the entity lists are untouched
    ensures r.player == g.player && r.paused == g.paused && r.phase == g.phase && r.best == g.best
    ensures r.hazards == g.hazards && r.collectibles == g.collectibles && r.stars == g.stars
  {
    Unlock(Collect(g))
  }

  /** `n` trophy pickups in a row. */
  function Pickups(g: World, n: nat): (r: World)
    ensures r.streak == g.streak + n
    ensures g.score + n <= r.score <= g.score + 2 * n
    ensures g.speed <= r.speed
    ensures g.toon ==> r.toon
    // Toon Mode is switched on at most once, and only at a score of 15 or more
    ensures r.toon ==> g.toon || r.score >= TOON_SCORE
    ensures r.lives == g.lives + (if r.toon && !g.toon then 1 else 0)
    ensures n > 0 ==> r.bannerTimer == g.bannerTimer || r.bannerTimer == BANNER_TICKS
    // nothing but the score, the streak, the speed, Toon Mode, lives and the banner changes
    ensures r == g.(score := r.score, streak := r.streak, speed := r.speed, toon := r.toon,
                    lives := r.lives, banner := r.banner, bannerTimer := r.bannerTimer)
    decreases n
  {
    if n == 0 then g else Pickups(Pickup(g), n - 1)
  }

  // ---------------------------------------------------------------------
  // Properties
  // ---------------------------------------------------------------------

  /** A fifth pickup in a row at score 4: speed-up, then the streak bonus. */
  lemma FifthPickupScenario(g: World)
    requires g.score == 4 && g.streak == 4 && g.speed == START_SPEED
    ensures Collect(g).score == 6 && Collect(g).speed == 6 && Collect(g).streak == 5
    ensures Collect(g).banner == StreakBanner(5)
  {
  }

  /**
   * The speed-up is decided before the streak bonus: a fifth pickup in a
   * row at score 8 reaches 10 through the bonus point, without a speed-up,
   * and shows the milestone banner.
   */
  lemma TenthPointNoSpeedUp(g: World)
    requires g.score == 8 && g.streak == 4
    ensures Collect(g).score == 10 && Collect(g).speed == g.speed
    ensures Collect(g).banner == MilestoneBanner(10)
  {
  }

  /** A hit never lowers the best score, and a pickup never lowers the score. */
  lemma ScoresNeverDrop(g: World)
    ensures Hit(g).best >= g.best && Hit(g).score == g.score
    ensures Pickup(g).score > g.score && Pickup(g).best == g.best
  {
  }

  /** Resetting twice is resetting once. */
  lemma ResetIdempotent(g: World)
    ensures ResetRun(ResetRun(g)) == ResetRun(g)
  {
  }

  /** Hit, Collect and Unlock keep the run invariant. */
  lemma HitKeepsRunInv(g: World)
    requires RunInv(g) && (g.invincible <= 0 ==> g.lives >= 1)
    ensures RunInv(Hit(g))
  {
  }

  lemma PickupKeepsRunInv(g: World)
    requires RunInv(g)
    ensures RunInv(Pickup(g))
  {
  }

  /** A pickup does not look at the entity lists. */
  lemma PickupIgnoresCollectibles(g: World, A: seq<Rect>)
    ensures Pickup(g.(collectibles := A)) == Pickup(g).(collectibles := A)
  {
    var c := Collect(g);
    assert Collect(g.(collectibles := A)) == c.(collectibles := A);
    assert Unlock(c.(collectibles := A)) == Unlock(c).(collectibles := A);
  }

  lemma {:induction false} PickupsKeepRunInv(g: World, n: nat)
    requires RunInv(g)
    ensures RunInv(Pickups(g, n))
    decreases n
  {
    if n > 0 {
      PickupKeepsRunInv(g);
      PickupsKeepRunInv(Pickup(g), n - 1);
    }
  }
}
