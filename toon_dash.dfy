/**
 * The script's module-level globals as the fields of one `Game` object,
 * and its functions and frame-loop steps as methods that update them in
 * place. Every method is proved against the value-level step function of
 * the same name: `Snapshot()` after the call is that function of
 * `Snapshot()` before it.
 */
module ToonDash {
  import opened Geometry
  import opened GameState
  import Scoring
  import Spawner
  import Motion
  import ListRemove
  import Timers
  import Phases
  import Frames

  class Game {
    var state: Phase
    var score: int
    var bestScore: int
    var lives: int
    var speed: int
    var streak: int
    var toonMode: bool
    var paused: bool
    var invincibleTimer: int
    var shakeTimer: int
    var bannerTimer: int
    var bannerText: Banner
    var starTimer: int
    var spawnTimer: int
    var collectTimer: int
    var player: Rect
    var hazards: seq<Rect>
    var collectibles: seq<Rect>
    var stars: seq<Star>

    /** The whole game state as a value. */
    function Snapshot(): World
      reads this
    {
      World(state, score, bestScore, lives, speed, streak, toonMode, paused,
            invincibleTimer, shakeTimer, bannerTimer, bannerText,
            starTimer, spawnTimer, collectTimer, player, hazards, collectibles, stars)
    }

    ghost predicate Valid()
      reads this
    {
      Inv(Snapshot())
    }

    /** The globals as the script initialises them (lines 28-52). */
    constructor ()
      ensures Snapshot() == Initial() && Valid()
    {
      state := Title;
      score, bestScore, lives, speed, streak := 0, 0, START_LIVES, START_SPEED, 0;
      toonMode, paused := false, false;
      invincibleTimer, shakeTimer, bannerTimer, bannerText := 0, 0, 0, NoBanner;
      starTimer, spawnTimer, collectTimer := 0, 0, 0;
      player := Rect(PLAYER_X, PLAYER_Y, PLAYER_SIZE, PLAYER_SIZE);
      hazards, collectibles, stars := [], [], [];
      InitialInv();
    }

    /** `reset_run` (lines 64-82). */
    method ResetRun()
      modifies this
      ensures Snapshot() == Scoring.ResetRun(old(Snapshot()))
    {
      ResetStats();
      ClearEntities();
      ClearEffects();
      player := player.(x := PLAYER_X, y := PLAYER_Y);
    }

    /** Lines 68-72: score, lives, speed, Toon Mode and streak start over. */
    method ResetStats()
      modifies this
      ensures Snapshot() == old(Snapshot()).(score := 0, lives := START_LIVES, speed := START_SPEED,
                                             toon := false, streak := 0)
    {
      ResetScore();
      lives, speed := START_LIVES, START_SPEED;
    }

    /** Lines 68, 71 and 72: no points, no Toon Mode, no streak. */
    method ResetScore()
      modifies this
      ensures Snapshot() == old(Snapshot()).(score := 0, toon := false, streak := 0)
    {
      score, toonMode, streak := 0, false, 0;
    }

    /** Lines 73-76: the entity lists are emptied. */
    method ClearEntities()
      modifies this
      ensures Snapshot() == old(Snapshot()).(hazards := [], collectibles := [], stars := [])
    {
      hazards, collectibles, stars := [], [], [];
    }

    /** Lines 77-80: the effect countdowns stop and the banner is cleared. */
    method ClearEffects()
      modifies this
      ensures Snapshot() == old(Snapshot()).(invincible := 0, shake := 0, bannerTimer := 0, banner := NoBanner)
    {
      invincibleTimer, shakeTimer := 0, 0;
      bannerTimer, bannerText := 0, NoBanner;
    }

    /** `set_banner` (lines 108-111). */
    method SetBanner(text: Banner, frames: int)
      modifies this
      ensures Snapshot() == Scoring.SetBanner(old(Snapshot()), text, frames)
    {
      bannerText := text;
      bannerTimer := frames;
    }

    /** `hit_player` (lines 115-127). */
    method HitPlayer()
      modifies this
      ensures Snapshot() == Scoring.Hit(old(Snapshot()))
    {
      if invincibleTimer > 0 {
        return;
      }
      LoseLife();
      if lives <= 0 {
        if score > bestScore {
          bestScore := score;
        }
        state := GameOver;
      }
    }

    /** Lines 119-122: one life and the streak are lost; invincibility and shake start. */
    method LoseLife()
      modifies this
      ensures Snapshot() == old(Snapshot()).(lives := old(lives) - 1, streak := 0,
                                             invincible := INVINCIBLE_TICKS, shake := SHAKE_TICKS)
    {
      lives, streak := lives - 1, 0;
      invincibleTimer, shakeTimer := INVINCIBLE_TICKS, SHAKE_TICKS;
    }

    /** `collect_item` (lines 131-143), one `if` block at a time. */
    method CollectItem()
      modifies this
      ensures Snapshot() == Scoring.Collect(old(Snapshot()))
    {
      ScorePoint();
      MaybeSpeedUp();
      MaybeStreakPoint();
      MaybeMilestone();
    }

    /** Lines 133-134: one point, and the streak grows. */
    method ScorePoint()
      modifies this
      ensures Snapshot() == old(Snapshot()).(score := old(score) + 1, streak := old(streak) + 1)
    {
      score, streak := score + 1, streak + 1;
    }

    /** Lines 136-138: every fifth point, one more unit of speed, announced. */
    method MaybeSpeedUp()
      modifies this
      ensures Snapshot() == if old(score) % 5 == 0
        then Scoring.SetBanner(old(Snapshot()).(speed := old(speed) + 1), SpeedUpBanner(old(speed) + 1), BANNER_TICKS)
        else old(Snapshot())
    {
      if score % 5 == 0 {
        speed := speed + 1;
        SetBanner(SpeedUpBanner(speed), BANNER_TICKS);
      }
    }

    /** Lines 139-141: every fifth pickup in a row, a bonus point, announced. */
    method MaybeStreakPoint()
      modifies this
      ensures Snapshot() == if old(streak) % 5 == 0 && old(streak) > 0
        then Scoring.SetBanner(old(Snapshot()).(score := old(score) + 1), StreakBanner(old(streak)), BANNER_TICKS)
        else old(Snapshot())
    {
      if streak % 5 == 0 && streak > 0 {
        score := score + 1;
        SetBanner(StreakBanner(streak), BANNER_TICKS);
      }
    }

    /** Lines 142-143: every tenth point, the milestone banner. */
    method MaybeMilestone()
      modifies this
      ensures Snapshot() == if old(score) % 10 == 0 && old(score) > 0
        then Scoring.SetBanner(old(Snapshot()), MilestoneBanner(old(score)), BANNER_TICKS)
        else old(Snapshot())
    {
      if score % 10 == 0 && score > 0 {
        SetBanner(MilestoneBanner(score), BANNER_TICKS);
      }
    }

    /** `maybe_unlock_toon_mode` (lines 146-152). */
    method MaybeUnlockToonMode()
      modifies this
      ensures Snapshot() == Scoring.Unlock(old(Snapshot()))
    {
      if !toonMode && score >= TOON_SCORE {
        toonMode := true;
        lives := lives + 1;
        speed := speed + 2;
        SetBanner(ToonBanner, BANNER_TICKS);
      }
    }

    /** `spawn_hazard` (lines 90-96), with its random draws as parameters. */
    method SpawnHazard(d: Spawner.HazardDraw, y: int)
      requires Spawner.ValidHazardDraw(d) && SPAWN_MARGIN <= y <= HEIGHT - SPAWN_MARGIN
      modifies this
      ensures Snapshot() == Spawner.SpawnHazard(old(Snapshot()), d, y)
    {
      var w, h;
      match d {
        case Wide(dw, dh) => w, h := dw, dh;
        case Square(side) => w, h := side, side;
      }
      hazards := hazards + [Rect(WIDTH, y, w, h)];
    }

    /** `spawn_collectible` (lines 99-101). */
    method SpawnCollectible(y: int)
      requires SPAWN_MARGIN <= y <= HEIGHT - SPAWN_MARGIN
      modifies this
      ensures Snapshot() == Spawner.SpawnCollectible(old(Snapshot()), y)
    {
      collectibles := collectibles + [Rect(WIDTH, y, TROPHY_SIZE, TROPHY_SIZE)];
    }

    /** `spawn_star` (lines 104-105). */
    method SpawnStar(y: int, v: int)
      requires 0 <= y <= HEIGHT && 2 <= v <= 5
      modifies this
      ensures Snapshot() == Spawner.SpawnStar(old(Snapshot()), y, v)
    {
      stars := stars + [Star(WIDTH, y, v)];
    }

    /** Player movement (lines 214-220). */
    method MovePlayer(up: bool, down: bool)
      modifies this
      ensures Snapshot() == Motion.MovePlayer(old(Snapshot()), up, down)
    {
      if !paused {
        if up {
          player := player.(y := player.y - Motion.PLAYER_STEP);
        }
        if down {
          player := player.(y := player.y + Motion.PLAYER_STEP);
        }
        player := ClampToScreen(player);
      }
    }

    /** The star counter (lines 223-227). */
    method StarTick(y: int, v: int)
      requires 0 <= y <= HEIGHT && 2 <= v <= 5
      modifies this
      ensures Snapshot() == Spawner.StarSpawn(old(Snapshot()), y, v)
    {
      if !paused {
        starTimer := starTimer + 1;
        if starTimer > STAR_THRESHOLD {
          SpawnStar(y, v);
          starTimer := 0;
        }
      }
    }

    /** The star loop (lines 228-232). */
    method ScrollStars()
      modifies this
      ensures Snapshot() == old(Snapshot()).(stars := Motion.ScrollStars(old(stars)))
    {
      var live := ScrollStarList(stars);
      stars := live;
    }

    /**
     * The star loop on the list itself: over a copy, scrolling each star
     * in place and removing it by value once it is left of the window.
     * `j` is where the copy's next star sits in the list.
     */
    static method ScrollStarList(snap: seq<Star>) returns (live: seq<Star>)
      ensures live == Motion.ScrollStars(snap)
    {
      live := snap;
      var i, j := 0, 0;
      while i < |snap|
        invariant 0 <= i <= |snap| && 0 <= j <= |live|
        invariant live[j..] == snap[i..]
        invariant forall t :: t in live[..j] ==> t.x >= 0
        invariant Motion.StarPass(live, j) == Motion.StarPass(snap, 0)
        decreases |snap| - i
      {
        assert live[j] == snap[i] && live[j + 1..] == snap[i + 1..] by {
          assert live[j..][0] == snap[i..][0] && live[j..][1..] == snap[i..][1..];
        }
        live, j := ScrollStarAt(live, j);
        i := i + 1;
      }
      assert live[j..] == [];
      Motion.StarPassMeaning(snap, 0);
      assert snap[..0] == [] && snap[0..] == snap;
    }

    /** One iteration of the star loop, on the star at position `j` of the list. */
    static method ScrollStarAt(live: seq<Star>, j: nat) returns (live': seq<Star>, next: nat)
      requires j < |live| && forall t :: t in live[..j] ==> t.x >= 0
      ensures next <= |live'| && live'[next..] == live[j + 1..]
      ensures forall t :: t in live'[..next] ==> t.x >= 0
      ensures Motion.StarPass(live', next) == Motion.StarPass(live, j)
    {
      var s := Motion.Scroll(live[j]);
      live' := live[j := s];
      assert live'[..j] == live[..j];
      next := j;
      if s.x < 0 {
        ListRemove.RemoveFirstAt(live', j);
        live' := ListRemove.RemoveFirst(live', s);
      } else {
        assert live'[..j + 1] == live[..j] + [s];
        next := j + 1;
      }
    }

    /** The hazard and trophy counters (lines 235-243). */
    method SpawnTick(d: Spawner.Draws)
      requires Spawner.ValidDraws(d)
      modifies this
      ensures Snapshot() == Spawner.EntitySpawn(old(Snapshot()), d)
    {
      if !paused {
        spawnTimer := spawnTimer + 1;
        collectTimer := collectTimer + 1;
        if spawnTimer > HAZARD_THRESHOLD {
          SpawnHazard(d.hazard, d.hazardY);
          spawnTimer := 0;
        }
        if collectTimer > COLLECT_THRESHOLD {
          SpawnCollectible(d.trophyY);
          collectTimer := 0;
        }
      }
    }
  
    /**
     * The hazard loop (lines 246-253): over a copy of the list, moving each
     * hazard in place and removing it from the list itself. `j` is where
     * the copy's next hazard sits in the list.
     */
    method HazardPass()
      modifies this
      ensures Snapshot() == Motion.HazardPass(old(Snapshot()), 0)
    {
      ghost var target := Motion.HazardPass(Snapshot(), 0);
      var snap := hazards;
      var i, j := 0, 0;
      assert hazards[..0] == [];
      while i < |snap|
        invariant 0 <= i <= |snap| && 0 <= j <= |hazards|
        invariant hazards[j..] == snap[i..]
        invariant ListRemove.HazardsKept(player, invincibleTimer, hazards[..j])
        invariant Motion.HazardPass(Snapshot(), j) == target
        decreases |snap| - i
      {
        assert hazards[j] == snap[i] && snap[i + 1..] == hazards[j + 1..] by {
          assert hazards[j..][0] == snap[i..][0] && hazards[j..][1..] == snap[i..][1..];
        }
        j := HazardAt(snap[i], j);
        i := i + 1;
      }
      assert j == |hazards| by { assert hazards[j..] == []; }
    }

    /** One iteration of the hazard loop, on the hazard `h` at position `j` of the list. */
    method HazardAt(h: Rect, j: nat) returns (next: nat)
      requires j < |hazards| && hazards[j] == h
      requires ListRemove.HazardsKept(player, invincibleTimer, hazards[..j])
      modifies this
      ensures next <= |hazards| && hazards[next..] == old(hazards[j + 1..])
      ensures ListRemove.HazardsKept(player, invincibleTimer, hazards[..next])
      ensures Motion.HazardPass(Snapshot(), next) == Motion.HazardPass(old(Snapshot()), j)
    {
      ghost var g0 := Snapshot();
      var moved := h;
      if !paused {
        moved := moved.(x := moved.x - speed);
      }
      ghost var before := hazards[..j];
      hazards := hazards[j := moved];
      assert hazards[..j] == before;
      next := ResolveHazard(moved, j);
      assert (Snapshot(), next) == Motion.HazardStep(g0, j);
    }

    /** Lines 249-253, once the hazard `h` at position `j` has moved. */
    method ResolveHazard(h: Rect, j: nat) returns (next: nat)
      requires j < |hazards| && hazards[j] == h
      requires ListRemove.HazardsKept(player, invincibleTimer, hazards[..j])
      modifies this
      ensures next <= |hazards| && hazards[next..] == old(hazards[j + 1..])
      ensures ListRemove.HazardsKept(player, invincibleTimer, hazards[..next])
      ensures h.Right() < 0 ==>
        next == j && Snapshot() == old(Snapshot()).(hazards := Motion.Remove(old(hazards), j))
      ensures h.Right() >= 0 && Overlaps(old(player), h) && old(invincibleTimer) == 0 ==>
        next == j && Snapshot() == Scoring.Hit(old(Snapshot()).(hazards := Motion.Remove(old(hazards), j)))
      ensures h.Right() >= 0 && !(Overlaps(old(player), h) && old(invincibleTimer) == 0) ==>
        next == j + 1 && Snapshot() == old(Snapshot())
    {
      ghost var before := hazards[..j];
      next := j;
      if h.Right() < 0 {
        ListRemove.HazardNotKept(player, invincibleTimer, before, h);
        RemoveHazard(h, j);
        assert hazards[..next] == before;
      } else if Overlaps(player, h) && invincibleTimer == 0 {
        ListRemove.HazardNotKept(player, invincibleTimer, before, h);
        ghost var p := player;
        TakeHit(h, j);
        assert hazards[..next] == before && player == p && invincibleTimer != 0;
        ListRemove.HazardsKeptInvincible(player, 0, invincibleTimer, before);
      } else {
        ListRemove.HazardsKeptGrow(player, invincibleTimer, before, h);
        assert hazards[..j + 1] == before + [h];
        next := j + 1;
      }
    }

    /** Lines 252-253: the hazard leaves the list and hits the player. */
    method TakeHit(h: Rect, j: nat)
      requires j < |hazards| && hazards[j] == h && h !in hazards[..j]
      modifies this
      ensures Snapshot() == Scoring.Hit(old(Snapshot()).(hazards := Motion.Remove(old(hazards), j)))
    {
      RemoveHazard(h, j);
      HitPlayer();
    }

    /** `hazards.remove(h)`, where `h` sits at position `j` and at no earlier one. */
    method RemoveHazard(h: Rect, j: nat)
      requires j < |hazards| && hazards[j] == h && h !in hazards[..j]
      modifies this
      ensures Snapshot() == old(Snapshot()).(hazards := Motion.Remove(old(hazards), j))
    {
      ListRemove.RemoveFirstAt(hazards, j);
      hazards := ListRemove.RemoveFirst(hazards, h);
    }

    /**
     * The trophy loop (lines 256-264): like the hazard loop, but every
     * overlapping trophy is collected, invincible or not.
     */
    method CollectPass()
      modifies this
      ensures Snapshot() == Motion.CollectPass(old(Snapshot()), 0)
    {
      ghost var target := Motion.CollectPass(Snapshot(), 0);
      var snap := collectibles;
      var i, j := 0, 0;
      assert collectibles[..0] == [];
      while i < |snap|
        invariant 0 <= i <= |snap| && 0 <= j <= |collectibles|
        invariant collectibles[j..] == snap[i..]
        invariant ListRemove.TrophiesKept(player, collectibles[..j])
        invariant Motion.CollectPass(Snapshot(), j) == target
        decreases |snap| - i
      {
        assert collectibles[j] == snap[i] && snap[i + 1..] == collectibles[j + 1..] by {
          assert collectibles[j..][0] == snap[i..][0] && collectibles[j..][1..] == snap[i..][1..];
        }
        j := TrophyAt(snap[i], j);
        i := i + 1;
      }
      assert j == |collectibles| by { assert collectibles[j..] == []; }
    }

    /** One iteration of the trophy loop, on the trophy `c` at position `j` of the list. */
    method TrophyAt(c: Rect, j: nat) returns (next: nat)
      requires j < |collectibles| && collectibles[j] == c
      requires ListRemove.TrophiesKept(player, collectibles[..j])
      modifies this
      ensures next <= |collectibles| && collectibles[next..] == old(collectibles[j + 1..])
      ensures ListRemove.TrophiesKept(player, collectibles[..next])
      ensures Motion.CollectPass(Snapshot(), next) == Motion.CollectPass(old(Snapshot()), j)
    {
      ghost var g0 := Snapshot();
      var moved := c;
      if !paused {
        moved := moved.(x := moved.x - speed);
      }
      ghost var before := collectibles[..j];
      collectibles := collectibles[j := moved];
      assert collectibles[..j] == before;
      next := ResolveTrophy(moved, j);
      assert (Snapshot(), next) == Motion.CollectStep(g0, j);
    }

    /** Lines 259-264, once the trophy `c` at position `j` has moved. */
    method ResolveTrophy(c: Rect, j: nat) returns (next: nat)
      requires j < |collectibles| && collectibles[j] == c
      requires ListRemove.TrophiesKept(player, collectibles[..j])
      modifies this
      ensures next <= |collectibles| && collectibles[next..] == old(collectibles[j + 1..])
      ensures ListRemove.TrophiesKept(player, collectibles[..next])
      ensures c.Right() < 0 ==>
        next == j && Snapshot() == old(Snapshot()).(collectibles := Motion.Remove(old(collectibles), j))
      ensures c.Right() >= 0 && Overlaps(old(player), c) ==>
        next == j && Snapshot() == Scoring.Pickup(old(Snapshot()).(collectibles := Motion.Remove(old(collectibles), j)))
      ensures c.Right() >= 0 && !Overlaps(old(player), c) ==>
        next == j + 1 && Snapshot() == old(Snapshot())
    {
      ghost var before := collectibles[..j];
      next := j;
      if c.Right() < 0 {
        ListRemove.TrophyNotKept(player, before, c);
        RemoveTrophy(c, j);
        assert collectibles[..next] == before;
      } else if Overlaps(player, c) {
        ListRemove.TrophyNotKept(player, before, c);
        ghost var p := player;
        TakeTrophy(c, j);
        assert collectibles[..next] == before && player == p;
      } else {
        ListRemove.TrophiesKeptGrow(player, before, c);
        assert collectibles[..j + 1] == before + [c];
        next := j + 1;
      }
    }

    /** Lines 262-264: the trophy leaves the list and is collected. */
    method TakeTrophy(c: Rect, j: nat)
      requires j < |collectibles| && collectibles[j] == c && c !in collectibles[..j]
      modifies this
      ensures Snapshot() == Scoring.Pickup(old(Snapshot()).(collectibles := Motion.Remove(old(collectibles), j)))
    {
      RemoveTrophy(c, j);
      CollectItem();
      MaybeUnlockToonMode();
    }

    /** `collectibles.remove(c)`, where `c` sits at position `j` and at no earlier one. */
    method RemoveTrophy(c: Rect, j: nat)
      requires j < |collectibles| && collectibles[j] == c && c !in collectibles[..j]
      modifies this
      ensures Snapshot() == old(Snapshot()).(collectibles := Motion.Remove(old(collectibles), j))
    {
      ListRemove.RemoveFirstAt(collectibles, j);
      collectibles := ListRemove.RemoveFirst(collectibles, c);
    }

    /** The effect countdowns (lines 282-287), paused or not. */
    method CountDownTimers()
      modifies this
      ensures Snapshot() == Timers.TickTimers(old(Snapshot()))
    {
      if invincibleTimer > 0 {
        invincibleTimer := invincibleTimer - 1;
      }
      if shakeTimer > 0 {
        shakeTimer := shakeTimer - 1;
      }
      if bannerTimer > 0 {
        bannerTimer := bannerTimer - 1;
      }
    }

    /** One key press (lines 189-197). */
    method HandleKey(k: Phases.Key)
      modifies this
      ensures Snapshot() == Phases.HandleKey(old(Snapshot()), k)
    {
      if state == Title && k == Phases.Space {
        ResetRun();
        state := Play;
      } else if state == GameOver && k == Phases.Space {
        ResetRun();
        state := Play;
      } else if state == Play && k == Phases.PauseKey {
        paused := !paused;
      }
    }

    /** The key presses of one frame, in order. */
    method HandleKeys(keys: seq<Phases.Key>)
      modifies this
      ensures Snapshot() == Phases.HandleKeys(old(Snapshot()), keys)
    {
      var n := 0;
      while n < |keys|
        invariant 0 <= n <= |keys|
        invariant Phases.HandleKeys(Snapshot(), keys[n..]) == Phases.HandleKeys(old(Snapshot()), keys)
      {
        assert keys[n..][1..] == keys[n + 1..];
        HandleKey(keys[n]);
        n := n + 1;
      }
      assert keys[n..] == [];
    }

    /** The gameplay steps of a frame in play (lines 214-287), in the script's order. */
    method Gameplay(up: bool, down: bool, d: Spawner.Draws)
      requires Spawner.ValidDraws(d)
      modifies this
      ensures Snapshot() == Frames.Gameplay(old(Snapshot()), up, down, d)
    {
      ghost var g := Snapshot();
      MovePlayer(up, down);
      StarTick(d.starY, d.starSpeed);
      ghost var g2 := Snapshot();
      assert g2 == Spawner.StarSpawn(Motion.MovePlayer(g, up, down), d.starY, d.starSpeed);
      ScrollStars();
      Motion.StarPassMeaning(g2.stars, 0);
      assert g2.stars[..0] == [] && g2.stars[0..] == g2.stars;
      assert Snapshot() == g2.(stars := Motion.StarPass(g2.stars, 0));
      SpawnTick(d);
      HazardPass();
      CollectPass();
      CountDownTimers();
    }

    /**
     * One pass of the frame loop (lines 183-329): the key presses; nothing
     * more on the title and game-over screens; otherwise the gameplay and
     * the game-over backstop.
     */
    method Frame(input: Frames.Input)
      requires Frames.ValidInput(input)
      modifies this
      ensures Snapshot() == Frames.Frame(old(Snapshot()), input)
      ensures old(Valid()) ==> Valid()
    {
      HandleKeys(input.keys);
      if state == Title || state == GameOver {
        Frames.FrameKeepsInvIf(old(Snapshot()), input);
        return;
      }
      Gameplay(input.up, input.down, input.draws);
      if state == Play && lives <= 0 {
        state := GameOver;
      }
      Frames.FrameKeepsInvIf(old(Snapshot()), input);
    }

    /** The frame loop over a sequence of frames' inputs. */
    method RunFrames(inputs: seq<Frames.Input>)
      requires forall i :: i in inputs ==> Frames.ValidInput(i)
      modifies this
      ensures Snapshot() == Frames.Run(old(Snapshot()), inputs)
      ensures old(Valid()) ==> Valid()
    {
      var n := 0;
      while n < |inputs|
        invariant 0 <= n <= |inputs|
        invariant Frames.Run(Snapshot(), inputs[n..]) == Frames.Run(old(Snapshot()), inputs)
        invariant old(Valid()) ==> Valid()
      {
        assert inputs[n] in inputs;
        assert inputs[n..][1..] == inputs[n + 1..];
        Frame(inputs[n]);
        n := n + 1;
      }
      assert inputs[n..] == [];
    }
  }
}
