/**
 * The effect countdowns (invincibility, screen shake, banner) and the
 * flashing of the player while invincible. The countdowns run once per
 * frame in play, whether or not the game is paused.
 */
module Timers {
  import opened GameState

  /** One tick of a countdown: down by one while positive, then it stays. */
  function CountDown(t: int): (r: int)
    ensures t > 0 ==> r == t - 1
    ensures t <= 0 ==> r == t
  {
    if t > 0 then t - 1 else t
  }

  /** `n` ticks of a countdown. */
  function CountDownN(t: int, n: nat): (r: int)
    // a countdown never rises, never passes 0 from above, and stays put at or below 0
    ensures t >= 0 ==> 0 <= r <= t
    ensures t <= 0 ==> r == t
    decreases n
  {
    if n == 0 then t else CountDownN(CountDown(t), n - 1)
  }

  /** A countdown started at `t` reads `max(t - n, 0)` after `n` ticks: it never goes negative. */
  lemma {:induction false} CountDownNClosed(t: nat, n: nat)
    ensures CountDownN(t, n) == Max(t - n, 0)
    decreases n
  {
    if n > 0 {
      CountDownNClosed(CountDown(t), n - 1);
    }
  }

  /** Lines 282-287: the three countdowns tick; nothing else changes. */
  function TickTimers(g: World): (r: World)
    ensures r.invincible == CountDown(g.invincible)
    ensures r.shake == CountDown(g.shake)
    ensures r.bannerTimer == CountDown(g.bannerTimer)
    ensures TimerInv(g) ==> TimerInv(r)
    ensures r == g.(invincible := r.invincible, shake := r.shake, bannerTimer := r.bannerTimer)
  {
    g.(invincible := CountDown(g.invincible), shake := CountDown(g.shake),
       bannerTimer := CountDown(g.bannerTimer))
  }

  /** Line 294: the player is drawn on this frame. */
  predicate PlayerVisible(invincible: int) {
    invincible % 6 < 3
  }

  /**
   * The flashing pattern: the player is always drawn when not invincible,
   * and while invincible is drawn for three frames, hidden for three, in a
   * period of six.
   */
  lemma FlashPattern(q: int, i: int)
    requires 0 <= i < 6
    ensures PlayerVisible(0)
    ensures PlayerVisible(6 * q + i) <==> i < 3
  {
    assert (6 * q + i) % 6 == i;
  }

  /** A hit's invincibility lasts exactly 90 frames. */
  lemma InvincibilityLasts(n: nat)
    ensures CountDownN(INVINCIBLE_TICKS, n) > 0 <==> n < INVINCIBLE_TICKS
  {
    CountDownNClosed(INVINCIBLE_TICKS, n);
  }
}
