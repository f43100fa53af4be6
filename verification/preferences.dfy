/** The add-on preferences: an ordered list of game profiles with an active
    index, edited by the list actions of the preferences panel. */
module Preferences {
  import opened Wrappers

  /** The games a profile may target; the list of supported games holds one. */
  datatype Game = HogwartsLegacy

  datatype Profile = Profile(name: string, game: Game, umodelExportDir: string, assetDir: string)

  /** What the Add action appends: the name set, every other property at its
      default (the first supported game, empty directories). */
  const NewProfile := Profile("New Profile", HogwartsLegacy, "", "")

  datatype Prefs = Prefs(profiles: seq<Profile>, activeIndex: nat)

  datatype Action = Up | Down | Remove | Add

  /** `profiles.move(i, j)` for neighbouring positions: the two swap. */
  function Swap(s: seq<Profile>, i: nat, j: nat): (r: seq<Profile>)
    requires i < |s| && j < |s|
    ensures |r| == |s| && r[i] == s[j] && r[j] == s[i]
    ensures forall k :: 0 <= k < |s| && k != i && k != j ==> r[k] == s[k]
  {
    s[i := s[j]][j := s[i]]
  }

  /** `get_active_profile`: the profile at the active index, None when the
      index is past the end. */
  function ActiveProfile(p: Prefs): (r: Option<Profile>)
    ensures r.Some? <==> p.activeIndex < |p.profiles|
    ensures r.Some? ==> r.value == p.profiles[p.activeIndex]
  {
    if p.activeIndex < |p.profiles| then Some(p.profiles[p.activeIndex]) else None
  }

  /** The part of `invoke` that needs a profile at the active index. */
  function Edit(p: Prefs, a: Action): Prefs
    requires p.activeIndex < |p.profiles|
  {
    var idx := p.activeIndex;
    match a
    case Down =>
      if idx < |p.profiles| - 1 then Prefs(Swap(p.profiles, idx, idx + 1), idx + 1) else p
    case Up =>
      if idx >= 1 then Prefs(Swap(p.profiles, idx, idx - 1), idx - 1) else p
    case Remove =>
      Prefs(p.profiles[..idx] + p.profiles[idx + 1..], if idx != 0 then idx - 1 else 0)
    case Add => p
  }

  /** `UMODELTOOLS_OT_actions.invoke`: Up, Down and Remove act only when the
      active index points at a profile; Add always appends a new profile and
      selects it. */
  function Invoke(p: Prefs, a: Action): (r: Prefs)
    ensures a != Add && p.activeIndex >= |p.profiles| ==> r == p
    ensures a == Add ==> r.profiles == p.profiles + [NewProfile] && ActiveProfile(r) == Some(NewProfile)
  {
    var edited := if p.activeIndex < |p.profiles| then Edit(p, a) else p;
    if a == Add then Prefs(edited.profiles + [NewProfile], |edited.profiles|) else edited
  }

  /** The index shows a profile, or there are no profiles and it is 0. */
  predicate Selected(p: Prefs)
  {
    p.activeIndex < |p.profiles| || (|p.profiles| == 0 && p.activeIndex == 0)
  }
}
