/**
 * Classification of one search result: the state, automatic, select and
 * upgrade characters printed in front of every line of `tap search`.
 */
module Classification {
  import opened Wrappers
  import opened Packages
  import opened Matchers

  // dpkg's current-state codes (`apt_pkg.CURSTATE_*`)
  const CurUnpacked := 1
  const CurHalfConfigured := 2
  const CurHalfInstalled := 4
  const CurConfigFiles := 5
  const CurInstalled := 6

  // dpkg's selection-state codes (`apt_pkg.SELSTATE_*`)
  const SelUnknown := 0
  const SelInstall := 1
  const SelHold := 2
  const SelDeInstall := 3
  const SelPurge := 4

  /** The four flag characters of a result line. */
  datatype Flags = Flags(state: char, automatic: char, select: char, upgrade: char)

  /** The displayed name is a virtual name the version provides, not its package's name. */
  predicate Virtual(e: Entry) {
    e.pkg.name != e.name
  }

  /** The version is the installed one, or the candidate of a package with nothing installed. */
  predicate Selected(e: Entry) {
    Is(e.pkg.installed, e.ver) || (e.pkg.installed.None? && Is(e.pkg.candidate, e.ver))
  }

  /** The `installed` variable of the classification block: a non-virtual name of a selected version. */
  predicate CountsInstalled(e: Entry) {
    !Virtual(e) && Selected(e)
  }

  /** The partial state tables, with the fallback applied when the code is not a key. */
  function InstalledStateChar(code: int): (c: char)
    ensures c == '?' <==> code !in {CurConfigFiles, CurHalfConfigured, CurHalfInstalled, CurUnpacked, CurInstalled}
    ensures c in "cCIzi?"
  {
    if code == CurConfigFiles then 'c'
    else if code == CurHalfConfigured then 'C'
    else if code == CurHalfInstalled then 'I'
    else if code == CurUnpacked then 'z'
    else if code == CurInstalled then 'i'
    else '?'
  }

  function CandidateStateChar(code: int): (c: char)
    ensures c == 'p' <==> code !in {CurConfigFiles, CurHalfConfigured, CurHalfInstalled, CurUnpacked}
    ensures c in "cCIzp"
    ensures code != CurInstalled ==> c == InstalledStateChar(code) || c == 'p'
  {
    if code == CurConfigFiles then 'c'
    else if code == CurHalfConfigured then 'C'
    else if code == CurHalfInstalled then 'I'
    else if code == CurUnpacked then 'z'
    else 'p'
  }

  function StateChar(e: Entry): char {
    if Virtual(e) then 'v'
    else if Is(e.pkg.installed, e.ver) then
      (if e.pkg.isNowBroken then 'b' else InstalledStateChar(e.pkg.currentState))
    else if e.pkg.installed.None? && Is(e.pkg.candidate, e.ver) then CandidateStateChar(e.pkg.currentState)
    else 'p'
  }

  /** The `(is_auto_installed, is_auto_removable)` table; it is total over its four keys. */
  function AutoChar(autoInstalled: bool, autoRemovable: bool): (c: char)
    ensures c == ' ' <==> !autoInstalled && !autoRemovable
    ensures c == '?' <==> !autoInstalled && autoRemovable
  {
    if autoInstalled then (if autoRemovable then 'R' else 'A')
    else (if autoRemovable then '?' else ' ')
  }

  function SelectChar(code: int): (c: char)
    ensures c == ' ' <==> code !in {SelInstall, SelDeInstall, SelHold, SelPurge, SelUnknown}
  {
    if code == SelInstall then 'i'
    else if code == SelDeInstall then 'd'
    else if code == SelHold then 'h'
    else if code == SelPurge then 'p'
    else if code == SelUnknown then '?'
    else ' '
  }

  /** The classification block for one result `(name, version)`. */
  function Classify(e: Entry): (f: Flags)
    ensures f.state == 'v' <==> Virtual(e)
    ensures f.state == 'b' <==> !Virtual(e) && Is(e.pkg.installed, e.ver) && e.pkg.isNowBroken
    ensures f.automatic != ' ' ==> CountsInstalled(e)
    ensures f.automatic == 'R' <==> CountsInstalled(e) && e.pkg.isAutoInstalled && e.pkg.isAutoRemovable
    ensures f.automatic == 'A' <==> CountsInstalled(e) && e.pkg.isAutoInstalled && !e.pkg.isAutoRemovable
    ensures f.automatic == '?' <==> CountsInstalled(e) && !e.pkg.isAutoInstalled && e.pkg.isAutoRemovable
    ensures f.select != ' ' ==> Selected(e)
    ensures f.select == '?' <==> Selected(e) && e.pkg.selectedState == SelUnknown
    ensures f.upgrade == 'u' <==> CountsInstalled(e) && e.pkg.isUpgradable
    ensures f.upgrade in "u "
  {
    var installed := CountsInstalled(e);
    Flags(
      StateChar(e),
      if installed then AutoChar(e.pkg.isAutoInstalled, e.pkg.isAutoRemovable) else ' ',
      if Selected(e) then SelectChar(e.pkg.selectedState) else ' ',
      if installed && e.pkg.isUpgradable then 'u' else ' ')
  }

  /** A virtual name shows `v` with blank automatic and upgrade columns; only its select column may be set. */
  lemma VirtualFlags(e: Entry)
    requires Virtual(e)
    ensures Classify(e).state == 'v' && Classify(e).automatic == ' ' && Classify(e).upgrade == ' '
    ensures Classify(e).select != ' ' <==> Selected(e) && e.pkg.selectedState in {SelInstall, SelDeInstall, SelHold, SelPurge, SelUnknown}
  {
  }

  /** Unmapped current states never fail: `?` for the installed version, `p` for the candidate. */
  lemma UnmappedStateFallbacks(e: Entry)
    requires !Virtual(e) && e.pkg.currentState !in {CurConfigFiles, CurHalfConfigured, CurHalfInstalled, CurUnpacked, CurInstalled}
    ensures Is(e.pkg.installed, e.ver) && !e.pkg.isNowBroken ==> Classify(e).state == '?'
    ensures e.pkg.installed.None? && Is(e.pkg.candidate, e.ver) ==> Classify(e).state == 'p'
  {
  }

  /** The state character tells which branch classified the result. */
  lemma StateNamesBranch(e: Entry)
    ensures Classify(e).state in "cCIz" ==> CountsInstalled(e)
    ensures Classify(e).state in "i?" ==> !Virtual(e) && Is(e.pkg.installed, e.ver) && !e.pkg.isNowBroken
    ensures Classify(e).state == 'p' ==> !CountsInstalled(e) || e.pkg.installed.None?
    ensures Classify(e).state in "vbcCIzi?p"
  {
    var s := Classify(e).state;
    if !Virtual(e) && Is(e.pkg.installed, e.ver) && !e.pkg.isNowBroken {
      assert s == InstalledStateChar(e.pkg.currentState);
    } else if !Virtual(e) && !Is(e.pkg.installed, e.ver) && e.pkg.installed.None? && Is(e.pkg.candidate, e.ver) {
      assert s == CandidateStateChar(e.pkg.currentState);
    }
  }

  /** Every result the `Installed` filter keeps is classified by the installed branch: never `v` or `p`. */
  lemma InstalledResultsShowInstalled(e: Entry)
    requires Keeps(Matcher.Installed, e)
    ensures CountsInstalled(e)
    ensures Classify(e).state in "bcCIzi?"
    ensures Classify(e).upgrade == 'u' <==> e.pkg.isUpgradable
  {
    StateNamesBranch(e);
  }
}
