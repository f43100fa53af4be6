/** Properties of the profile list actions. */
module PreferencesProperties {
  import opened Wrappers
  import opened Preferences

  /** Every action keeps the active index on a profile, or at 0 on an empty
      list. */
  lemma InvokeKeepsSelection(p: Prefs, a: Action)
    requires Selected(p)
    ensures Selected(Invoke(p, a))
  {
  }

  /** Moving a profile up or down keeps that same profile active. */
  lemma MoveKeepsActiveProfile(p: Prefs, a: Action)
    requires a == Up || a == Down
    ensures ActiveProfile(Invoke(p, a)) == ActiveProfile(p)
  {
  }

  /** Down moves the active profile one place later when there is room, and
      otherwise changes nothing. */
  lemma DownMoves(p: Prefs)
    requires p.activeIndex < |p.profiles|
    ensures var r := Invoke(p, Down);
            if p.activeIndex < |p.profiles| - 1
            then r.activeIndex == p.activeIndex + 1 && r.profiles[r.activeIndex] == p.profiles[p.activeIndex]
                 && r.profiles[p.activeIndex] == p.profiles[p.activeIndex + 1]
            else r == p
  {
  }

  /** Up moves the active profile one place earlier unless it is first. */
  lemma UpMoves(p: Prefs)
    requires p.activeIndex < |p.profiles|
    ensures var r := Invoke(p, Up);
            if p.activeIndex >= 1
            then r.activeIndex == p.activeIndex - 1 && r.profiles[r.activeIndex] == p.profiles[p.activeIndex]
                 && r.profiles[p.activeIndex] == p.profiles[p.activeIndex - 1]
            else r == p
  {
  }

  /** Up followed by Down puts the list and the selection back. */
  lemma UpThenDown(p: Prefs)
    requires 1 <= p.activeIndex < |p.profiles|
    ensures Invoke(Invoke(p, Up), Down) == p
  {
    var i := p.activeIndex;
    var r := Invoke(p, Up);
    UpSwaps(p);
    assert r.activeIndex == i - 1 && r.profiles == Swap(p.profiles, i, i - 1);
    DownSwaps(r);
    SwapBack(p.profiles, i, i - 1);
    assert Invoke(r, Down) == Prefs(p.profiles, i);
  }

  /** Down followed by Up puts the list and the selection back. */
  lemma DownThenUp(p: Prefs)
    requires p.activeIndex < |p.profiles| - 1
    ensures Invoke(Invoke(p, Down), Up) == p
  {
    var i := p.activeIndex;
    DownSwaps(p);
    UpSwaps(Invoke(p, Down));
    SwapBack(p.profiles, i, i + 1);
  }

  lemma UpSwaps(p: Prefs)
    requires 1 <= p.activeIndex < |p.profiles|
    ensures Invoke(p, Up) == Prefs(Swap(p.profiles, p.activeIndex, p.activeIndex - 1), p.activeIndex - 1)
  {
  }

  lemma DownSwaps(p: Prefs)
    requires p.activeIndex < |p.profiles| - 1
    ensures Invoke(p, Down) == Prefs(Swap(p.profiles, p.activeIndex, p.activeIndex + 1), p.activeIndex + 1)
  {
  }

  /** Up and Down only reorder the profiles. */
  lemma MovePermutes(p: Prefs, a: Action)
    requires a == Up || a == Down
    ensures multiset(Invoke(p, a).profiles) == multiset(p.profiles)
  {
    var i := p.activeIndex;
    if a == Up && 1 <= i < |p.profiles| {
      UpSwaps(p);
      SwapPermutes(p.profiles, i, i - 1);
    } else if a == Down && i < |p.profiles| - 1 {
      DownSwaps(p);
      SwapPermutes(p.profiles, i, i + 1);
    }
  }

  lemma SwapPermutes(s: seq<Profile>, i: nat, j: nat)
    requires i < |s| && j < |s|
    ensures multiset(Swap(s, i, j)) == multiset(s)
  {
  }

  /** Swapping the same two places twice changes nothing. */
  lemma SwapBack(s: seq<Profile>, i: nat, j: nat)
    requires i < |s| && j < |s|
    ensures Swap(Swap(s, i, j), j, i) == s
  {
    var t := Swap(Swap(s, i, j), j, i);
    assert forall k :: 0 <= k < |s| ==> t[k] == s[k];
  }

  /** Remove drops exactly the active profile, keeps the others in order, and
      selects the one before it (or stays at 0). */
  lemma RemoveDropsActive(p: Prefs)
    requires p.activeIndex < |p.profiles|
    ensures var r := Invoke(p, Remove);
            var i := p.activeIndex;
            |r.profiles| == |p.profiles| - 1
            && multiset(r.profiles) + multiset{p.profiles[i]} == multiset(p.profiles)
            && (forall k :: 0 <= k < i ==> r.profiles[k] == p.profiles[k])
            && (forall k :: i <= k < |r.profiles| ==> r.profiles[k] == p.profiles[k + 1])
            && r.activeIndex == (if i == 0 then 0 else i - 1)
  {
    var s := p.profiles;
    var i := p.activeIndex;
    assert s == s[..i] + [s[i]] + s[i + 1..];
    assert multiset(s) == multiset(s[..i]) + multiset{s[i]} + multiset(s[i + 1..]);
  }
}
