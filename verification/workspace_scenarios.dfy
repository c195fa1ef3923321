/** Concrete runs of the workspace reconciler from a freshly mounted provider
    or a reached state: first-load selection, stale and deselected ids, team
    auto-selection around an organization switch, and request de-duplication. */
module WorkspaceScenarios {
  import opened Optional
  import opened WorkspaceStore
  import opened WorkspaceProvider

  const OrgOne := Organization("org-1", "One")
  const OrgTwo := Organization("org-2", "Two")
  const TeamOne := Team("team-1", "Core")

  function Loaded(orgs: seq<Organization>, teams: seq<Team>, active: Option<string>): Inputs {
    Inputs(orgs, false, teams, false, active)
  }

  function Fresh(): Session {
    Session(DefaultPreferences(), Mounted(), [])
  }

  lemma RunOne(s: Session, a: Event)
    ensures Run(s, [a]) == Perform(s, a)
  {
    RunSnoc(s, [], a);
    assert [] + [a] == [a];
  }

  lemma RunTwo(s: Session, a: Event, b: Event)
    ensures Run(s, [a, b]) == Perform(Perform(s, a), b)
  {
    RunOne(s, a);
    RunSnoc(s, [a], b);
    assert [a] + [b] == [a, b];
  }

  lemma RunThree(s: Session, a: Event, b: Event, c: Event)
    ensures Run(s, [a, b, c]) == Perform(Perform(Perform(s, a), b), c)
  {
    RunTwo(s, a, b);
    RunSnoc(s, [a, b], c);
    assert [a, b] + [c] == [a, b, c];
  }

  lemma RunFour(s: Session, a: Event, b: Event, c: Event, d: Event)
    ensures Run(s, [a, b, c, d]) == Perform(Perform(Perform(Perform(s, a), b), c), d)
  {
    RunThree(s, a, b, c);
    RunSnoc(s, [a, b, c], d);
    assert [a, b, c] + [d] == [a, b, c, d];
  }

  /** The first render: nothing loaded yet, nothing persisted. */
  const FirstLoading := Inputs([], true, [], true, None)

  /** The next renders: organizations [org-1, org-2] arrive, teams still load. */
  const FirstLoaded := Inputs([OrgOne, OrgTwo], false, [], true, None)

  /** A freshly mounted provider after one loading render and two loaded ones. */
  function AfterFirstLoad(): Session {
    Run(Fresh(), [Rendered(FirstLoading), Rendered(FirstLoaded), Rendered(FirstLoaded)])
  }

  /** Organizations load as [org-1, org-2] with nothing persisted: the first
      organization is chosen, the flag fires, and the next commit asks the
      remote side to make it active. */
  lemma FirstLoadSelectsFirstOrganization()
    ensures AfterFirstLoad()
      == Session(Preferences(Some("org-1"), None),
                 Reconciler(Flags(true, false), Some(Snapshot(FirstLoaded, Some("org-1"), None))),
                 [SetActive("org-1")])
  {
    RunThree(Fresh(), Rendered(FirstLoading), Rendered(FirstLoaded), Rendered(FirstLoaded));
    var s1 := Perform(Fresh(), Rendered(FirstLoading));
    assert s1 == Session(DefaultPreferences(), Reconciler(Flags(false, false), Some(Snapshot(FirstLoading, None, None))), []);
    var s2 := Perform(s1, Rendered(FirstLoaded));
    assert NeedsAutoSelect(FirstLoaded.organizations, OrganizationId, None);
    assert s2.prefs == Preferences(Some("org-1"), None) && s2.requests == [];
    assert s2.reconciler.flags == Flags(true, false);
    var s3 := Perform(s2, Rendered(FirstLoaded));
    assert s3.requests == [SetActive("org-1")];
  }

  /** Once an organization was auto-selected, a background refetch that drops
      it leaves the stale id in place (nothing is surfaced); only a pass
      through a loading list re-arms the flag and picks the new first one. */
  lemma RemovedOrganizationReplacedOnlyAfterReload()
    ensures var refetch := Loaded([OrgTwo], [], Some("org-1"));
      var reloading := Inputs([], true, [], false, Some("org-1"));
      var refetched := Run(AfterFirstLoad(), [Rendered(refetch)]);
      var reloaded := Run(AfterFirstLoad(), [Rendered(refetch), Rendered(reloading), Rendered(refetch)]);
      && refetched.prefs.selectedOrganizationId == Some("org-1")
      && View(refetch, refetched.prefs).selectedOrganization.None?
      && reloaded.prefs.selectedOrganizationId == Some("org-2")
  {
    var start := AfterFirstLoad();
    FirstLoadSelectsFirstOrganization();
    var refetch := Loaded([OrgTwo], [], Some("org-1"));
    var reloading := Inputs([], true, [], false, Some("org-1"));
    RunOne(start, Rendered(refetch));
    RunThree(start, Rendered(refetch), Rendered(reloading), Rendered(refetch));
    var s1 := Perform(start, Rendered(refetch));
    assert s1.prefs.selectedOrganizationId == Some("org-1");
    assert s1.reconciler.flags.hasAutoSelectedOrg;
    var s2 := Perform(s1, Rendered(reloading));
    assert s2.prefs.selectedOrganizationId == Some("org-1");
    assert !s2.reconciler.flags.hasAutoSelectedOrg;
    var s3 := Perform(s2, Rendered(refetch));
    assert NeedsAutoSelect(refetch.organizations, OrganizationId, Some("org-1"));
    assert s3.prefs.selectedOrganizationId == Some("org-2");
  }

  /** An explicit deselection after an auto-select is kept while the list is
      unchanged. */
  lemma DeselectionKeptAfterAutoSelect()
    ensures var s := Run(AfterFirstLoad(), [PickOrganization(None), Rendered(Loaded([OrgOne, OrgTwo], [], Some("org-1")))]);
      s.prefs.selectedOrganizationId.None?
  {
    var start := AfterFirstLoad();
    FirstLoadSelectsFirstOrganization();
    var evs := [PickOrganization(None), Rendered(Loaded([OrgOne, OrgTwo], [], Some("org-1")))];
    FiredOrganizationFlagIsSticky(start, evs);
    assert LastPicked(Some("org-1"), evs) == LastPicked(Some("org-1"), evs[..1]);
    assert evs[..1] == [PickOrganization(None)];
  }

  /** When the persisted organization was valid from the start, the flag never
      fired, so a later deselection is overridden by an auto-select. */
  lemma DeselectionOverriddenWhenFlagNeverFired()
    ensures var inputs := Loaded([OrgOne, OrgTwo], [], Some("org-2"));
      var s := Run(Session(Preferences(Some("org-2"), None), Mounted(), []),
                   [Rendered(inputs), PickOrganization(None), Rendered(inputs)]);
      s.prefs.selectedOrganizationId == Some("org-1")
  {
    var inputs := Loaded([OrgOne, OrgTwo], [], Some("org-2"));
    var s0 := Session(Preferences(Some("org-2"), None), Mounted(), []);
    RunThree(s0, Rendered(inputs), PickOrganization(None), Rendered(inputs));
    var s1 := Perform(s0, Rendered(inputs));
    assert Lists(inputs.organizations, OrganizationId, "org-2");
    assert s1.prefs == Preferences(Some("org-2"), None);
    assert !s1.reconciler.flags.hasAutoSelectedOrg;
    var s2 := Perform(s1, PickOrganization(None));
    var s3 := Perform(s2, Rendered(inputs));
    assert s3.prefs.selectedOrganizationId == Some("org-1");
  }

  /** Persisted {org-1, no team}, organizations [org-1, org-2] and an empty team
      list: org-1 is surfaced, no team is, and nothing is written. */
  lemma EmptyTeamListKeepsSelection()
    ensures var inputs := Loaded([OrgOne, OrgTwo], [], Some("org-1"));
      var prefs := Preferences(Some("org-1"), None);
      var c := Step(inputs, prefs, Mounted());
      && View(inputs, prefs).selectedOrganization == Some(OrgOne)
      && View(inputs, prefs).selectedTeam.None?
      && c.prefs == prefs
      && !c.reconciler.flags.hasAutoSelectedTeam
  {
    var inputs := Loaded([OrgOne, OrgTwo], [], Some("org-1"));
    assert Lists(inputs.organizations, OrganizationId, "org-1");
  }

  /** Persisted {org-1, team-9} while org-1 only has team-1: team-9 is never
      surfaced and the commit promotes team-1. */
  lemma StaleTeamReplacedByFirstTeam()
    ensures var inputs := Loaded([OrgOne, OrgTwo], [TeamOne], Some("org-1"));
      var prefs := Preferences(Some("org-1"), Some("team-9"));
      var c := Step(inputs, prefs, Reconciler(Flags(false, false), Some(Snapshot(inputs, Some("org-1"), None))));
      && View(inputs, prefs).selectedTeam.None?
      && c.prefs == Preferences(Some("org-1"), Some("team-1"))
      && c.reconciler.flags.hasAutoSelectedTeam
  {
  }

  /** Selected org-2 while the remote side reports org-1: one request; a later
      commit with the same two ids does not repeat it, even if it failed. */
  lemma SyncIssuedOnceUntilDependenciesChange()
    ensures var inputs := Loaded([OrgOne, OrgTwo], [], Some("org-1"));
      var prefs := Preferences(Some("org-2"), None);
      var first := Step(inputs, prefs, Reconciler(Flags(true, false), Some(Snapshot(inputs, Some("org-1"), None))));
      var second := Step(inputs, first.prefs, first.reconciler);
      && first.requests == [SetActive("org-2")]
      && second.requests == []
  {
    var inputs := Loaded([OrgOne, OrgTwo], [], Some("org-1"));
    assert Lists(inputs.organizations, OrganizationId, "org-2");
  }

  /** Switching to an organization whose team list is already loaded, while the
      team flag is still fired from the previous organization: the team effect
      runs before the re-arming effect, so no team is chosen in that commit,
      and later commits with the same team list do not choose one either. */
  lemma CachedTeamsAfterSwitchNotAutoSelected()
    ensures var onOne := Loaded([OrgOne, OrgTwo], [TeamOne], Some("org-1"));
      var onTwo := Loaded([OrgOne, OrgTwo], [Team("team-2", "Ops")], Some("org-1"));
      var synced := Loaded([OrgOne, OrgTwo], [Team("team-2", "Ops")], Some("org-2"));
      var s := Session(Preferences(Some("org-1"), Some("team-1")),
                       Reconciler(Flags(true, true), Some(Snapshot(onOne, Some("org-1"), Some("team-1")))), []);
      var after := Run(s, [PickOrganization(Some("org-2")), Rendered(onTwo), Rendered(synced), Rendered(synced)]);
      && after.prefs == Preferences(Some("org-2"), None)
      && !after.reconciler.flags.hasAutoSelectedTeam
      && after.requests == [SetActive("org-2")]
  {
    var onOne := Loaded([OrgOne, OrgTwo], [TeamOne], Some("org-1"));
    var onTwo := Loaded([OrgOne, OrgTwo], [Team("team-2", "Ops")], Some("org-1"));
    var synced := Loaded([OrgOne, OrgTwo], [Team("team-2", "Ops")], Some("org-2"));
    var s0 := Session(Preferences(Some("org-1"), Some("team-1")),
                      Reconciler(Flags(true, true), Some(Snapshot(onOne, Some("org-1"), Some("team-1")))), []);
    RunFour(s0, PickOrganization(Some("org-2")), Rendered(onTwo), Rendered(synced), Rendered(synced));
    var s1 := Perform(s0, PickOrganization(Some("org-2")));
    assert s1.prefs == Preferences(Some("org-2"), None);
    var s2 := Perform(s1, Rendered(onTwo));
    assert Lists(onTwo.organizations, OrganizationId, "org-2");
    assert s2.prefs == Preferences(Some("org-2"), None);
    assert s2.reconciler.flags == Flags(true, false);
    assert s2.requests == [SetActive("org-2")];
    var s3 := Perform(s2, Rendered(synced));
    assert s3.prefs == Preferences(Some("org-2"), None);
    assert s3.reconciler.flags == Flags(true, false);
    assert s3.requests == [SetActive("org-2")];
    var s4 := Perform(s3, Rendered(synced));
    assert s4.prefs == Preferences(Some("org-2"), None);
  }

  /** The same switch with the new organization's teams still loading in the
      first commit: the team is chosen once they arrive. */
  lemma LoadingTeamsAfterSwitchAutoSelected()
    ensures var onOne := Loaded([OrgOne, OrgTwo], [TeamOne], Some("org-1"));
      var loading := Inputs([OrgOne, OrgTwo], false, [], true, Some("org-1"));
      var onTwo := Loaded([OrgOne, OrgTwo], [Team("team-2", "Ops")], Some("org-2"));
      var s := Session(Preferences(Some("org-1"), Some("team-1")),
                       Reconciler(Flags(true, true), Some(Snapshot(onOne, Some("org-1"), Some("team-1")))), []);
      var after := Run(s, [PickOrganization(Some("org-2")), Rendered(loading), Rendered(onTwo)]);
      after.prefs == Preferences(Some("org-2"), Some("team-2"))
  {
    var onOne := Loaded([OrgOne, OrgTwo], [TeamOne], Some("org-1"));
    var loading := Inputs([OrgOne, OrgTwo], false, [], true, Some("org-1"));
    var onTwo := Loaded([OrgOne, OrgTwo], [Team("team-2", "Ops")], Some("org-2"));
    var s0 := Session(Preferences(Some("org-1"), Some("team-1")),
                      Reconciler(Flags(true, true), Some(Snapshot(onOne, Some("org-1"), Some("team-1")))), []);
    RunThree(s0, PickOrganization(Some("org-2")), Rendered(loading), Rendered(onTwo));
    var s1 := Perform(s0, PickOrganization(Some("org-2")));
    var s2 := Perform(s1, Rendered(loading));
    assert Lists(loading.organizations, OrganizationId, "org-2");
    assert s2.prefs == Preferences(Some("org-2"), None);
    assert s2.reconciler.flags == Flags(true, false);
    var s3 := Perform(s2, Rendered(onTwo));
    assert s3.prefs == Preferences(Some("org-2"), Some("team-2"));
  }
}
