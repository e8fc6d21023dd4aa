/**
 * `list.remove(x)`, which deletes the first entry EQUAL to `x`, and what
 * the three entity loops know about the entries they have kept so far:
 * enough to show that every removal by value deletes the very entry the
 * loop is looking at. A kept star is still on screen, a kept hazard is on
 * screen and was clear of a vulnerable player, and a kept trophy is on
 * screen and clear of the player; the entry being removed is none of these.
 */
module ListRemove {
  import opened Geometry
  import opened GameState
  import opened Motion

  /** The position of the first entry equal to `x`. */
  function IndexOf<T(==)>(s: seq<T>, x: T): (k: nat)
    requires x in s
    ensures k < |s| && s[k] == x && x !in s[..k]
  {
    if s[0] == x then 0
    else
      var k := IndexOf(s[1..], x);
      assert s[..k + 1] == [s[0]] + s[1..][..k];
      k + 1
  }

  /**
   * `list.remove(x)`: the first entry equal to `x` is deleted and the others
   * keep their order. With no such entry the list is returned unchanged.
   */
  function RemoveFirst<T(==)>(s: seq<T>, x: T): (r: seq<T>)
    ensures x in s ==> r == Remove(s, IndexOf(s, x))
    ensures x !in s ==> r == s
  {
    if s == [] then []
    else if s[0] == x then s[1..]
    else
      var t := s[1..];
      assert s == [s[0]] + t;
      if x in t then
        RemoveCons(s, IndexOf(s, x));
        [s[0]] + RemoveFirst(t, x)
      else
        [s[0]] + RemoveFirst(t, x)
  }

  /** Removing a position after the first one leaves the first entry in front. */
  lemma RemoveCons<T>(s: seq<T>, k: nat)
    requires 0 < k < |s|
    ensures Remove(s, k) == [s[0]] + Remove(s[1..], k - 1)
  {
    assert s[..k] == [s[0]] + s[1..][..k - 1];
    assert s[k + 1..] == s[1..][k..];
  }

  /** When no entry before `j` equals `s[j]`, removing by value removes position `j`. */
  lemma RemoveFirstAt<T>(s: seq<T>, j: nat)
    requires j < |s| && s[j] !in s[..j]
    ensures RemoveFirst(s, s[j]) == Remove(s, j)
  {
    var k := IndexOf(s, s[j]);
  }

  /** A hazard the loop kept is on screen and, while the player is vulnerable, clear of the player. */
  predicate HazardKept(player: Rect, invincible: int, h: Rect) {
    h.Right() >= 0 && (invincible == 0 ==> !Overlaps(player, h))
  }

  /** A trophy the loop kept is on screen and clear of the player. */
  predicate TrophyKept(player: Rect, c: Rect) {
    c.Right() >= 0 && !Overlaps(player, c)
  }

  /** Every hazard in `pre` was kept. */
  predicate HazardsKept(player: Rect, invincible: int, pre: seq<Rect>) {
    forall x :: x in pre ==> HazardKept(player, invincible, x)
  }

  /** Every trophy in `pre` was kept. */
  predicate TrophiesKept(player: Rect, pre: seq<Rect>) {
    forall x :: x in pre ==> TrophyKept(player, x)
  }

  /** A hazard the loop removes is none of those it kept. */
  lemma HazardNotKept(player: Rect, invincible: int, pre: seq<Rect>, h: Rect)
    requires HazardsKept(player, invincible, pre) && !HazardKept(player, invincible, h)
    ensures h !in pre
  {
  }

  /** Keeping one more hazard. */
  lemma HazardsKeptGrow(player: Rect, invincible: int, pre: seq<Rect>, h: Rect)
    requires HazardsKept(player, invincible, pre) && HazardKept(player, invincible, h)
    ensures HazardsKept(player, invincible, pre + [h])
  {
  }

  /** Once the player is invincible, only being on screen matters. */
  lemma HazardsKeptInvincible(player: Rect, invincible: int, invincible': int, pre: seq<Rect>)
    requires HazardsKept(player, invincible, pre) && invincible' != 0
    ensures HazardsKept(player, invincible', pre)
  {
  }

  /** A trophy the loop removes is none of those it kept. */
  lemma TrophyNotKept(player: Rect, pre: seq<Rect>, c: Rect)
    requires TrophiesKept(player, pre) && !TrophyKept(player, c)
    ensures c !in pre
  {
  }

  /** Keeping one more trophy. */
  lemma TrophiesKeptGrow(player: Rect, pre: seq<Rect>, c: Rect)
    requires TrophiesKept(player, pre) && TrophyKept(player, c)
    ensures TrophiesKept(player, pre + [c])
  {
  }
}
