# Toon Dash, modelled in Dafny

Toon Dash is a one-file pygame endless runner (`JulianBlount_ToonDash_A2.py`). The player is a
square on the left of an 800 by 480 pitch and moves up and down. Red cards (hazards) and gold
trophies (collectibles) scroll in from the right, and background stars drift past. A hazard that
hits costs a life, followed by 90 frames of invincibility. A trophy scores a point. A pickup that
brings the score to a multiple of 5, before any bonus, raises the scroll speed; every fifth trophy
in a row then scores a bonus point, which never triggers a speed-up of its own
(`Scoring.TenthPointNoSpeedUp`). Reaching 15 points unlocks Toon Mode, which gives one extra life
and two more units of speed. The game moves between a
title screen, play and a game-over screen; P pauses play.

This project models the game's state and its frame loop, and proves properties of them. It has
two layers.

- **Values.** `GameState.World` holds every game-state global of the script except `particles`. Each script
  function and each step of the frame loop is a pure function from one `World` to the next:
  `Scoring`, `Spawner`, `Motion`, `Timers`, `Phases` and `Frames`. The properties are proved about
  these functions.
- **Objects.** `ToonDash.Game` is a class whose fields are the script's globals. Its methods update
  those fields in place, in the order and with the branches of the script. This includes the three
  entity loops: each walks a copy of its list, moves each entry in place, and deletes it from the
  list itself with `list.remove`. Each method is proved to leave `Snapshot()`, the fields read as a
  `World`, equal to the matching value-level function of the state before the call.

`list.remove(x)` deletes the first entry *equal* to `x`, which need not be the entry the loop is
looking at. `ListRemove.RemoveFirst` models that removal by value. The loop methods use it, and
`ListRemove.RemoveFirstAt` shows that it always deletes the current entry. Everything the loop kept
before that entry is still on screen and (for hazards, while the player is vulnerable) clear of the
player, and the removed entry is neither. So the value-level passes may remove by position.

Behaviour of the code worth knowing:

- Pausing freezes the player, the spawn counters and the sideways movement of hazards and
  trophies, and nothing else. The effect countdowns keep running (lines 282-287), stars keep
  scrolling (lines 228-232), and collisions are still resolved (lines 249-253, 259-264). So a
  paused player overlapping a hazard loses a life as soon as invincibility runs out, and picks up
  any trophy they overlap (`Frames.PausedGameplay`).
- `reset_run` does not clear the pause flag or the spawn counters. A run started from a game that
  ended while paused starts paused (`Phases.RestartKeepsPause`).
- `hit_player` records the best score when the last life goes. The trophy loop of the same frame
  still runs afterwards, so a run can end with a score above the recorded best
  (`Frames.ScoreCanPassBestAtGameOver`).
- While the player is invincible, a hazard they overlap is skipped, not removed.
- The end-of-frame game-over check (lines 326-327) can never fire: every reachable state in play
  has at least one life (`Phases.BackstopIdle`, `Frames.ReachableInv`).

## Model

| member | source | states |
|---|---|---|
| GameState.Initial | JulianBlount_ToonDash_A2.py:28-52 | the script starts on the title screen with score and best score 0 |
| GameState.InitialInv | JulianBlount_ToonDash_A2.py:28-52 | the starting globals satisfy the state invariant `Inv`: run, effect timer, spawn counter, player and entity bounds |
| ToonDash.Game.constructor | JulianBlount_ToonDash_A2.py:28-52 | the fields start as the script's globals, and the invariant holds |
| Geometry.Overlaps | JulianBlount_ToonDash_A2.py:251 | `colliderect`, as the definition the loops use: the open intervals overlap on both axes (no contract of its own; see the next row) |
| Geometry.OverlapsSymmetric | JulianBlount_ToonDash_A2.py:251 | the overlap test does not depend on the order of the two rectangles, and rectangles that only touch do not overlap |
| Geometry.ClampAxis | JulianBlount_ToonDash_A2.py:220 | `clamp_ip` on one axis: the result lies inside the window, a position already inside is unchanged, and no position inside the window is closer to the original |
| Geometry.ClampToScreen | JulianBlount_ToonDash_A2.py:220 | the clamped rectangle keeps its size, lies inside the window, and is unchanged if it was already inside |
| Scoring.ResetRun | JulianBlount_ToonDash_A2.py:64-82 | score 0, 3 lives, speed 5, no streak or Toon Mode, empty lists, effects and banner cleared, player back at (80, 220); best score, pause flag, spawn counters and phase kept |
| Scoring.ResetIdempotent | JulianBlount_ToonDash_A2.py:64-82 | resetting twice is the same as resetting once |
| ToonDash.Game.ResetRun | JulianBlount_ToonDash_A2.py:64-82 | the fields after the call are `Scoring.ResetRun` of the fields before |
| ToonDash.Game.ResetStats | JulianBlount_ToonDash_A2.py:68-72 | score, lives, speed, Toon Mode and streak start over; nothing else changes |
| ToonDash.Game.ResetScore | JulianBlount_ToonDash_A2.py:68-72 | score, Toon Mode and streak cleared; nothing else changes |
| ToonDash.Game.ClearEntities | JulianBlount_ToonDash_A2.py:73-76 | the three entity lists are emptied; nothing else changes |
| ToonDash.Game.ClearEffects | JulianBlount_ToonDash_A2.py:77-80 | the three countdowns stop and the banner text is cleared; nothing else changes |
| Scoring.SetBanner | JulianBlount_ToonDash_A2.py:108-111 | the banner text and timer are set, and every other global is as before |
| ToonDash.Game.SetBanner | JulianBlount_ToonDash_A2.py:108-111 | the fields after the call are `Scoring.SetBanner` of the fields before |
| Scoring.Hit | JulianBlount_ToonDash_A2.py:115-127 | an invincible player is unaffected; otherwise one life and the streak are lost and 90 frames of invincibility and 12 of shake start; the run ends, recording the larger of score and best, exactly when no life is left; nothing else changes |
| Scoring.HitKeepsRunInv | JulianBlount_ToonDash_A2.py:115-127 | a hit keeps the run invariant (a run in play has a life, streak at most score, speed at least 5) |
| ToonDash.Game.HitPlayer | JulianBlount_ToonDash_A2.py:115-127 | the fields after the call are `Scoring.Hit` of the fields before |
| ToonDash.Game.LoseLife | JulianBlount_ToonDash_A2.py:119-122 | one life and the streak lost, invincibility 90, shake 12; nothing else changes |
| Scoring.Collect | JulianBlount_ToonDash_A2.py:131-143 | the streak grows by one; the score grows by one, or two when the new streak is a multiple of 5; the speed grows by one when the score before the bonus is a multiple of 5; only the score, streak, speed and banner change |
| Scoring.CollectBanner | JulianBlount_ToonDash_A2.py:136-143 | the banner left is the milestone banner if the score is a positive multiple of 10, else the streak banner, else the speed-up banner, else the old one; its timer is 120 when any of them fired |
| Scoring.TenthPointNoSpeedUp | JulianBlount_ToonDash_A2.py:131-143 | a fifth pickup in a row at score 8 reaches 10 through the bonus point with no speed-up, and shows the milestone banner |
| Scoring.FifthPickupScenario | JulianBlount_ToonDash_A2.py:131-143 | from score 4, streak 4 and speed 5, a pickup gives score 6, speed 6, streak 5 and the streak banner |
| ToonDash.Game.CollectItem | JulianBlount_ToonDash_A2.py:131-143 | the fields after the call are `Scoring.Collect` of the fields before |
| ToonDash.Game.ScorePoint | JulianBlount_ToonDash_A2.py:133-134 | score and streak each grow by one; nothing else changes |
| ToonDash.Game.MaybeSpeedUp | JulianBlount_ToonDash_A2.py:136-138 | on a score that is a multiple of 5, speed grows by one and the speed-up banner is shown; otherwise nothing changes |
| ToonDash.Game.MaybeStreakPoint | JulianBlount_ToonDash_A2.py:139-141 | on a positive streak that is a multiple of 5, one bonus point and the streak banner; otherwise nothing changes |
| ToonDash.Game.MaybeMilestone | JulianBlount_ToonDash_A2.py:142-143 | on a positive score that is a multiple of 10, the milestone banner; otherwise nothing changes |
| Scoring.Unlock | JulianBlount_ToonDash_A2.py:146-152 | without Toon Mode and with a score of 15 or more: Toon Mode on, one more life, two more speed, the Toon Mode banner; otherwise nothing; afterwards it cannot fire again |
| ToonDash.Game.MaybeUnlockToonMode | JulianBlount_ToonDash_A2.py:146-152 | the fields after the call are `Scoring.Unlock` of the fields before |
| Scoring.Pickup | JulianBlount_ToonDash_A2.py:263-264 | the as-written pickup, `collect_item` then `maybe_unlock_toon_mode`: the streak grows by one, the score rises, the speed never drops, Toon Mode is never switched off; player, pause flag, phase, best score and entity lists are untouched |
| Scoring.Pickups | JulianBlount_ToonDash_A2.py:131-152 | after n pickups the streak grows by n and the score by between n and 2n; speed never drops; Toon Mode is switched on at most once, only at 15 points, and adds exactly one life; only scoring fields change |
| Scoring.ScoresNeverDrop | JulianBlount_ToonDash_A2.py:115-152 | a hit never lowers the best score or changes the score; a pickup always raises the score and leaves the best score alone |
| Scoring.PickupKeepsRunInv | JulianBlount_ToonDash_A2.py:131-152 | a pickup keeps the run invariant, including Toon Mode only at 15 points or more |
| Scoring.PickupsKeepRunInv | JulianBlount_ToonDash_A2.py:131-152 | any number of pickups keeps the run invariant |
| Scoring.PickupIgnoresCollectibles | JulianBlount_ToonDash_A2.py:131-152 | a pickup neither reads nor writes the trophy list |
| Spawner.CounterStep | JulianBlount_ToonDash_A2.py:236-243 | a counter fires exactly when it has reached its threshold, and is then 0; otherwise it grows by one; it stays within 0 and the threshold |
| Spawner.CounterAfter | JulianBlount_ToonDash_A2.py:223-243 | a spawn counter after n unpaused ticks; one that starts within 0 and its threshold stays there |
| Spawner.CounterCycle | JulianBlount_ToonDash_A2.py:223-227 | from 0, a counter after n unpaused ticks reads n mod (threshold + 1) |
| Spawner.ModNext | JulianBlount_ToonDash_A2.py:224-227 | the next remainder is one more, or 0 after m - 1 (the counter's wrap-around) |
| Spawner.SpawnsEvery | JulianBlount_ToonDash_A2.py:223-243 | from 0, a counter fires on tick n exactly when n is a multiple of threshold + 1: a star every 16 ticks, a hazard every 56, a trophy every 121 |
| Spawner.SpawnHazard | JulianBlount_ToonDash_A2.py:90-96 | one hazard is appended at x = 800, on the drawn row, with exactly the drawn width and height (both sides of a square card equal to the drawn side); nothing else changes |
| ToonDash.Game.SpawnHazard | JulianBlount_ToonDash_A2.py:90-96 | the fields after the call are `Spawner.SpawnHazard` of the fields before |
| Spawner.SpawnCollectible | JulianBlount_ToonDash_A2.py:99-101 | one 26-pixel trophy is appended at x = 800, on the drawn row; nothing else changes |
| ToonDash.Game.SpawnCollectible | JulianBlount_ToonDash_A2.py:99-101 | the fields after the call are `Spawner.SpawnCollectible` of the fields before |
| Spawner.SpawnStar | JulianBlount_ToonDash_A2.py:104-105 | one star is appended at x = 800 with exactly the drawn row and speed; nothing else changes |
| ToonDash.Game.SpawnStar | JulianBlount_ToonDash_A2.py:104-105 | the fields after the call are `Spawner.SpawnStar` of the fields before |
| Spawner.StarSpawn | JulianBlount_ToonDash_A2.py:223-227 | paused: nothing; otherwise the star counter steps and, when it fires, one star is appended; only the star counter and stars change |
| ToonDash.Game.StarTick | JulianBlount_ToonDash_A2.py:223-227 | the fields after the call are `Spawner.StarSpawn` of the fields before |
| Spawner.EntitySpawn | JulianBlount_ToonDash_A2.py:235-243 | paused: nothing; otherwise both counters step, and each one that fires appends its entity; the counters stay within their thresholds |
| ToonDash.Game.SpawnTick | JulianBlount_ToonDash_A2.py:235-243 | the fields after the call are `Spawner.EntitySpawn` of the fields before |
| Spawner.SpawnKeepsEntityInv | JulianBlount_ToonDash_A2.py:90-105 | what the spawner appends has its kind's shape and is on screen |
| Motion.MovePlayer | JulianBlount_ToonDash_A2.py:214-220 | paused: the player stays; otherwise moves 6 up and/or 6 down, then is clamped into the window, keeping its column and size |
| ToonDash.Game.MovePlayer | JulianBlount_ToonDash_A2.py:214-220 | the fields after the call are `Motion.MovePlayer` of the fields before |
| Motion.StarPass | JulianBlount_ToonDash_A2.py:228-232 | the star loop as written, in place from position j: it never adds a star and keeps the stars it has passed at the front; `ToonDash.Game.ScrollStarList` is proved equal to it |
| Motion.StarPassMeaning | JulianBlount_ToonDash_A2.py:228-232 | the star loop scrolls every star by its own speed and drops exactly those left of x = 0, in order |
| Motion.ScrollStarsKeepShape | JulianBlount_ToonDash_A2.py:228-232 | stars left after scrolling are inside the window with their row and speed |
| ToonDash.Game.ScrollStars | JulianBlount_ToonDash_A2.py:228-232 | the star list after the call is the scrolled list; nothing else changes |
| ToonDash.Game.ScrollStarList | JulianBlount_ToonDash_A2.py:228-232 | the star loop, removing by value, yields exactly the scrolled list |
| ToonDash.Game.ScrollStarAt | JulianBlount_ToonDash_A2.py:229-232 | one star iteration keeps the loop's meaning and the fact that kept stars are on screen |
| ListRemove.IndexOf | JulianBlount_ToonDash_A2.py:232 | the position `list.remove` deletes: an entry equal to the value with no equal entry before it |
| ListRemove.RemoveFirst | JulianBlount_ToonDash_A2.py:232 | `list.remove`: when the value is present, exactly the first equal entry is deleted and the others keep their order |
| ListRemove.RemoveFirstAt | JulianBlount_ToonDash_A2.py:250-262 | when no earlier entry equals the one at position j, removing by value removes position j |
| ListRemove.HazardNotKept | JulianBlount_ToonDash_A2.py:249-252 | a hazard the loop removes differs from every hazard it has kept |
| ListRemove.TrophyNotKept | JulianBlount_ToonDash_A2.py:259-262 | a trophy the loop removes differs from every trophy it has kept |
| Motion.MoveLeft | JulianBlount_ToonDash_A2.py:247-248 | `x -= speed` under `if not paused`: only the left edge changes, and nothing while paused |
| Motion.HazardStep | JulianBlount_ToonDash_A2.py:247-253 | one iteration of the hazard loop as written: the hazard moves and is removed when off screen or when it hits a vulnerable player (with `hit_player`), else passed; the loop advances, keeps what it passed and never grows the list |
| Motion.HazardPass | JulianBlount_ToonDash_A2.py:246-253 | the hazard loop as written, `HazardStep` to the end: it never adds a hazard and keeps those already passed at the front; `ToonDash.Game.HazardPass` is proved equal to it |
| Motion.HazardPassMeaning | JulianBlount_ToonDash_A2.py:246-253 | the in-place hazard loop equals its reference meaning: every hazard moves, those off screen go, and a vulnerable player is hit once, by the first overlapping hazard, which goes too |
| Motion.SurvivorsConsHit | JulianBlount_ToonDash_A2.py:251-253 | after the first hit no later hazard can hit, since the player is now invincible |
| Motion.HazardPassOutcome | JulianBlount_ToonDash_A2.py:246-253 | one hazard pass costs at most one hit and only a vulnerable player; while invincible every on-screen hazard survives, overlapping or not; survivors are moved hazards on screen; every on-screen hazard clear of the player survives; shapes are kept |
| Motion.PausedHazardPass | JulianBlount_ToonDash_A2.py:246-253 | while paused nothing moves, yet off-screen hazards go and the first overlapping hazard still hits a vulnerable player |
| Motion.HazardPassHits | JulianBlount_ToonDash_A2.py:246-253 | the hazard pass changes only the hazard list, except for at most one `hit_player` on a player who is not invincible |
| ToonDash.Game.HazardPass | JulianBlount_ToonDash_A2.py:246-253 | the fields after the loop are `Motion.HazardPass` of the fields before |
| ToonDash.Game.HazardAt | JulianBlount_ToonDash_A2.py:246-253 | one iteration keeps the loop's meaning and the fact that kept hazards are on screen and clear of a vulnerable player |
| ToonDash.Game.ResolveHazard | JulianBlount_ToonDash_A2.py:249-253 | a moved hazard off screen is removed; one hitting a vulnerable player is removed and hits; any other is kept |
| ToonDash.Game.TakeHit | JulianBlount_ToonDash_A2.py:252-253 | the hazard leaves the list and `hit_player` runs |
| ToonDash.Game.RemoveHazard | JulianBlount_ToonDash_A2.py:250-252 | `hazards.remove(h)` deletes position j; nothing else changes |
| Motion.CollectStep | JulianBlount_ToonDash_A2.py:257-264 | one iteration of the trophy loop as written: the trophy moves at the current speed and is removed when off screen or when it overlaps the player (with `collect_item` and `maybe_unlock_toon_mode`), else passed; the loop advances, keeps what it passed and never grows the list |
| Motion.CollectPass | JulianBlount_ToonDash_A2.py:256-264 | the trophy loop as written, `CollectStep` to the end: it never adds a trophy and keeps those already passed at the front; `ToonDash.Game.CollectPass` is proved equal to it |
| Motion.CollectOutcome | JulianBlount_ToonDash_A2.py:256-264 | reference meaning of the trophy loop as a fold: each trophy in turn moves by the speed in effect when it is reached, and is dropped off screen, picked up when it overlaps the player, or kept in order; at most one pickup per trophy, and the trophies already kept stay in front |
| Motion.CollectPassMeaning | JulianBlount_ToonDash_A2.py:256-264 | the in-place trophy loop equals the reference fold exactly, from any position j, including a speed raised by a pickup earlier in the same loop |
| Motion.SpeedUpMidPass | JulianBlount_ToonDash_A2.py:256-264 | at score 4 and speed 5, two trophies picked up raise the speed to 6 mid-loop, so a third trophy that speed 5 would have left on screen is dropped: score 6, no trophy left |
| Motion.CollectPassSpec | JulianBlount_ToonDash_A2.py:256-264 | the in-place trophy loop keeps the trophies before j; the run state is that of as many pickups as trophies it removed by collision; the trophies left are on screen, clear of the player, in order, each moved by between the starting and the final speed; the pickups plus the trophies left are at least as many as the trophies on screen at the final speed; paused, it collects exactly the overlapping ones |
| Motion.CollectPassOutcome | JulianBlount_ToonDash_A2.py:256-264 | one trophy pass is a run of pickups, at most one per trophy; the trophies left are on screen and clear of the player; the pickups plus the trophies left are at least as many as the trophies on screen at the final speed; paused, exactly the overlapping trophies are collected; shapes are kept |
| Motion.CollectPassFrame | JulianBlount_ToonDash_A2.py:256-264 | the trophy pass changes only the trophies and what pickups change |
| Motion.CollectPassProgress | JulianBlount_ToonDash_A2.py:256-264 | the trophy pass never lowers the score or the speed, never switches Toon Mode off, and leaves the best score alone |
| Motion.CollectPassKeepsRunInv | JulianBlount_ToonDash_A2.py:256-264 | the trophy pass keeps the run invariant and the timer bounds |
| ToonDash.Game.CollectPass | JulianBlount_ToonDash_A2.py:256-264 | the fields after the loop are `Motion.CollectPass` of the fields before |
| ToonDash.Game.TrophyAt | JulianBlount_ToonDash_A2.py:256-264 | one iteration keeps the loop's meaning and the fact that kept trophies are on screen and clear of the player |
| ToonDash.Game.ResolveTrophy | JulianBlount_ToonDash_A2.py:259-264 | a moved trophy off screen is removed; one overlapping the player is removed and collected; any other is kept |
| ToonDash.Game.TakeTrophy | JulianBlount_ToonDash_A2.py:262-264 | the trophy leaves the list, then `collect_item` and `maybe_unlock_toon_mode` run |
| ToonDash.Game.RemoveTrophy | JulianBlount_ToonDash_A2.py:260-262 | `collectibles.remove(c)` deletes position j; nothing else changes |
| Timers.CountDown | JulianBlount_ToonDash_A2.py:282-287 | a countdown drops by one while positive and then stays |
| Timers.CountDownN | JulianBlount_ToonDash_A2.py:282-287 | n ticks of a countdown: from t >= 0 it stays within 0 and t, and one at or below 0 stays put |
| Timers.CountDownNClosed | JulianBlount_ToonDash_A2.py:282-287 | a countdown from t reads max(t - n, 0) after n ticks, so it never goes negative |
| Timers.TickTimers | JulianBlount_ToonDash_A2.py:282-287 | the three countdowns each tick once, stay within their ranges, and nothing else changes |
| ToonDash.Game.CountDownTimers | JulianBlount_ToonDash_A2.py:282-287 | the fields after the call are `Timers.TickTimers` of the fields before |
| Timers.FlashPattern | JulianBlount_ToonDash_A2.py:294 | the player is always drawn when not invincible, and while invincible is drawn three frames out of every six |
| Timers.InvincibilityLasts | JulianBlount_ToonDash_A2.py:121 | invincibility from a hit lasts exactly 90 frames |
| Phases.HandleKey | JulianBlount_ToonDash_A2.py:189-197 | SPACE on the title or game-over screen starts a fresh run in play; P in play toggles the pause; every other key is ignored |
| ToonDash.Game.HandleKey | JulianBlount_ToonDash_A2.py:189-197 | the fields after the call are `Phases.HandleKey` of the fields before |
| Phases.HandleKeys | JulianBlount_ToonDash_A2.py:186-197 | the key presses of a frame in order: they never change the best score or the spawn counters (`reset_run` keeps them) |
| ToonDash.Game.HandleKeys | JulianBlount_ToonDash_A2.py:186-197 | the fields after the event loop are `Phases.HandleKeys` of the fields before |
| Phases.HandleKeysKeepsInv | JulianBlount_ToonDash_A2.py:186-197 | any sequence of key presses keeps the state invariant and the best score |
| Phases.PauseTwice | JulianBlount_ToonDash_A2.py:196-197 | pressing P twice in play leaves the game as it was |
| Phases.KeysInPlay | JulianBlount_ToonDash_A2.py:189-197 | in play, keys change only the pause flag, and only P does |
| Phases.RestartKeepsPause | JulianBlount_ToonDash_A2.py:193-195 | restarting from the game-over screen keeps the pause flag |
| Phases.Backstop | JulianBlount_ToonDash_A2.py:326-327 | a run in play with no life left ends; any other state is unchanged |
| Phases.BackstopIdle | JulianBlount_ToonDash_A2.py:326-327 | under the run invariant the check never changes anything |
| Frames.Gameplay | JulianBlount_ToonDash_A2.py:213-287 | the gameplay steps of a frame in the script's order (no contract of its own; its properties are the `Frames` lemmas below, and `ToonDash.Game.Gameplay` is proved equal to it) |
| Frames.Frame | JulianBlount_ToonDash_A2.py:182-329 | one frame: the keys, then gameplay and the backstop only in play (no contract of its own; see the `Frames` lemmas below and `ToonDash.Game.Frame`) |
| Frames.Run | JulianBlount_ToonDash_A2.py:182-329 | a finite sequence of frames (no contract of its own; see `Frames.RunKeepsInv`, `Frames.RunKeepsProgress` and `ToonDash.Game.RunFrames`) |
| Frames.GameplayKeepsInv | JulianBlount_ToonDash_A2.py:213-287 | one frame of gameplay keeps the state invariant |
| Frames.FrameKeepsInv | JulianBlount_ToonDash_A2.py:182-329 | every frame keeps the state invariant, whatever the keys, arrows and random draws |
| Frames.RunKeepsInv | JulianBlount_ToonDash_A2.py:182-329 | any number of frames keeps the state invariant |
| Frames.ReachableInv | JulianBlount_ToonDash_A2.py:28-329 | every state reachable from the start satisfies the invariant: lives, timers, counters, player and entities within bounds |
| Frames.BestNeverDrops | JulianBlount_ToonDash_A2.py:124-127 | the best score never drops from one frame to the next |
| Frames.GameplayKeepsProgress | JulianBlount_ToonDash_A2.py:213-287 | the gameplay of a frame never lowers the score or the speed and never switches Toon Mode off |
| Frames.FrameKeepsProgress | JulianBlount_ToonDash_A2.py:182-329 | within a run (in play, or without SPACE), a frame never lowers the score or the speed and never switches Toon Mode off, so Toon Mode comes on at most once per run |
| Frames.RunKeepsProgress | JulianBlount_ToonDash_A2.py:182-329 | over any frames without SPACE, score and speed never drop and Toon Mode, once on, stays on |
| Frames.IdleScreens | JulianBlount_ToonDash_A2.py:199-207 | on the title and game-over screens a frame without SPACE changes nothing |
| Frames.PausedGameplay | JulianBlount_ToonDash_A2.py:213-287 | while paused the player, counters and entity positions are frozen, but stars scroll, countdowns run, and overlapping hazards and trophies are still resolved |
| Frames.PausedFrame | JulianBlount_ToonDash_A2.py:182-329 | a paused frame in play without key presses keeps the player, counters and entity positions, and resolves only collisions |
| Frames.ScoreCanPassBestAtGameOver | JulianBlount_ToonDash_A2.py:246-264 | a frame can end the run by a hit and then collect a trophy, leaving score 1 above best score 0 |
| ToonDash.Game.Gameplay | JulianBlount_ToonDash_A2.py:213-287 | the fields after the gameplay steps are `Frames.Gameplay` of the fields before |
| ToonDash.Game.Frame | JulianBlount_ToonDash_A2.py:182-329 | the fields after one frame are `Frames.Frame` of the fields before, and the invariant is kept |
| ToonDash.Game.RunFrames | JulianBlount_ToonDash_A2.py:182-329 | the fields after a sequence of frames are `Frames.Run` of the fields before, and the invariant is kept |

## Left out

- Drawing is not modelled: the pitch, title and game-over screens, HUD, banners, Toon Mode stripes and the sprites (lines 55-61, 154-179, 209-211, 266-270, 293-323). None of it writes game state.
- Particles (`make_particles`, lines 84-87 and 272-279, and the clearing on line 75) are left out. They are decorative and no other state reads them.
- The screen-shake offsets (lines 290-291) are left out. They are random and only move the drawing.
- pygame setup, the display, fonts, the 60-frames-per-second clock (lines 4-24, 183) and the QUIT event (lines 187-188) are left out. The endless `while True` loop becomes a finite sequence of frames (`Frames.Run`).
- Every `random` call is a parameter constrained to its `randint` range (`Spawner.Draws`). The 0.25 probability of a wide hazard is not modelled, only that either shape can be drawn.
- Key presses are `Space`, `PauseKey` or any other key. The arrow keys held are two booleans per frame.
- Banner texts are tags that carry the number each f-string interpolates. The exact wording is not modelled.
- Rectangles have integer coordinates, and the overlap test assumes positive sizes, which every rectangle of the game has.
- Motion.CollectPassSpec: when not paused, it states only that each trophy left moved by between the starting and the final speed of the frame, and bounds the count of trophies on screen at the final speed rather than naming each one collected, since a pickup earlier in the loop can raise the speed used for later trophies. The exact per-trophy behaviour is `Motion.CollectPassMeaning`.
- Motion.CollectPassOutcome: the same count bound, for the same reason; it does not say which trophies are collected. `Motion.CollectPassMeaning` does.
- RemoveFirst: an absent value leaves the list unchanged, where `list.remove` raises `ValueError`. The game never removes an absent entry (`ListRemove.RemoveFirstAt`), so the error path is not modelled.
