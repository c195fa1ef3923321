/** The workspace reconciler: one React commit of the workspace provider as a
    pure step. A step reads the externally loaded organization and team lists,
    the persisted preference record and the reconciler's own memory (the two
    one-shot auto-select flags and what the previous commit saw). It runs the
    provider's four effects in declaration order. Each effect runs only when
    one of its dependencies changed since the previous commit, or on the first
    commit. The step returns the new record, the new memory and the
    "set remote active organization" requests issued. */
module WorkspaceProvider {
  import opened Optional
  import opened WorkspaceStore

  /** The parts of a listed organization or team the reconciler reads. */
  datatype Organization = Organization(id: string, name: string)

  datatype Team = Team(id: string, name: string)

  function OrganizationId(o: Organization): string { o.id }

  function TeamId(t: Team): string { t.id }

  /** `xs.some(x => idOf(x) === id)`. */
  predicate Lists<T>(xs: seq<T>, idOf: T -> string, id: string)
    decreases |xs|
  {
    |xs| > 0 && (idOf(xs[0]) == id || Lists(xs[1..], idOf, id))
  }

  lemma {:induction false} ListsIffSomeIndex<T>(xs: seq<T>, idOf: T -> string, id: string)
    ensures Lists(xs, idOf, id) <==> exists i :: 0 <= i < |xs| && idOf(xs[i]) == id
    decreases |xs|
  {
    if |xs| > 0 {
      ListsIffSomeIndex(xs[1..], idOf, id);
      if Lists(xs[1..], idOf, id) {
        var i :| 0 <= i < |xs[1..]| && idOf(xs[1..][i]) == id;
        assert idOf(xs[i + 1]) == id;
      }
      if exists i :: 0 <= i < |xs| && idOf(xs[i]) == id {
        var i :| 0 <= i < |xs| && idOf(xs[i]) == id;
        if i > 0 { assert idOf(xs[1..][i - 1]) == id; }
      }
    }
  }

  /** `xs.find(x => idOf(x) === id) ?? null`: the first element with that id. */
  function FindById<T(==)>(xs: seq<T>, idOf: T -> string, id: string): (r: Option<T>)
    ensures r.None? <==> !Lists(xs, idOf, id)
    ensures r.Some? ==> exists i :: 0 <= i < |xs| && xs[i] == r.value && idOf(xs[i]) == id
                                   && forall j :: 0 <= j < i ==> idOf(xs[j]) != id
    decreases |xs|
  {
    if |xs| == 0 then None
    else if idOf(xs[0]) == id then Some(xs[0])
    else
      var r := FindById(xs[1..], idOf, id);
      if r.Some? then
        var i :| 0 <= i < |xs[1..]| && xs[1..][i] == r.value && idOf(xs[1..][i]) == id
                 && forall j :: 0 <= j < i ==> idOf(xs[1..][j]) != id;
        assert xs[i + 1] == r.value && forall j :: 0 <= j < i + 1 ==> idOf(xs[j]) != id by {
          forall j | 0 <= j < i + 1 ensures idOf(xs[j]) != id {
            if j > 0 { assert xs[j] == xs[1..][j - 1]; }
          }
        }
        r
      else
        r
  }

  /** Whether the auto-select rule considers the persisted id unusable: it is
      null or empty, or no listed element carries it. */
  predicate NeedsAutoSelect<T>(xs: seq<T>, idOf: T -> string, id: Option<string>) {
    !IsSet(id) || !Lists(xs, idOf, id.value)
  }

  /** The effective selection surfaced to the application: the first listed
      element whose id is the persisted one, and nothing when the id is unset
      or stale. A stale id never surfaces an object. */
  function Selected<T(==)>(xs: seq<T>, idOf: T -> string, id: Option<string>): (r: Option<T>)
    ensures r.None? <==> NeedsAutoSelect(xs, idOf, id)
    ensures r.Some? ==> IsSet(id) && r.value in xs && idOf(r.value) == id.value
    ensures r.Some? ==> exists i :: 0 <= i < |xs| && xs[i] == r.value
                                   && forall j :: 0 <= j < i ==> idOf(xs[j]) != id.value
  {
    if !IsSet(id) then None else FindById(xs, idOf, id.value)
  }

  /** What the provider receives from its collaborators in one render. */
  datatype Inputs = Inputs(
    organizations: seq<Organization>,
    isLoadingOrganizations: bool,
    teams: seq<Team>,
    isLoadingTeams: bool,
    activeOrganizationId: Option<string>)

  /** What one render saw: the inputs and the persisted ids read at render
      time. The effects of that commit see these values, not later writes. */
  datatype Snapshot = Snapshot(inputs: Inputs, orgId: Option<string>, teamId: Option<string>)

  /** The two one-shot flags ("an automatic choice was made this cycle"). */
  datatype Flags = Flags(hasAutoSelectedOrg: bool, hasAutoSelectedTeam: bool)

  /** The reconciler's memory between commits: its flags and the snapshot of
      the previous commit (absent before the first commit). */
  datatype Reconciler = Reconciler(flags: Flags, previous: Option<Snapshot>)

  /** The "set the remote active organization" request. */
  datatype Request = SetActive(organizationId: string)

  /** The state an effect reads and writes: the current record and the flags. */
  datatype State = State(prefs: Preferences, flags: Flags)

  /** The provider as first mounted. */
  function Mounted(): (r: Reconciler)
    ensures !r.flags.hasAutoSelectedOrg && !r.flags.hasAutoSelectedTeam && r.previous.None?
  {
    Reconciler(Flags(false, false), None)
  }

  /** Whether the organizations are loaded and non-empty. */
  predicate OrganizationsAvailable(i: Inputs) {
    !i.isLoadingOrganizations && |i.organizations| > 0
  }

  /** Organization auto-select effect. While the list is loading or empty it
      re-arms the flag and writes nothing. On a loaded list it writes the first
      organization exactly when the rendered id is unusable and the flag has
      not fired, and fires the flag. */
  function OrganizationEffect(s: Snapshot, st: State): (r: State)
    ensures r.flags.hasAutoSelectedTeam == st.flags.hasAutoSelectedTeam
    ensures !OrganizationsAvailable(s.inputs) ==>
      r == st.(flags := st.flags.(hasAutoSelectedOrg := false))
    ensures OrganizationsAvailable(s.inputs) ==>
      if NeedsAutoSelect(s.inputs.organizations, OrganizationId, s.orgId) && !st.flags.hasAutoSelectedOrg
      then r.flags.hasAutoSelectedOrg
           && r.prefs == SetSelectedOrganizationId(st.prefs, Some(s.inputs.organizations[0].id))
      else r == st
    // On a loaded list with the flag not yet fired, the record ends up naming a listed organization.
    ensures OrganizationsAvailable(s.inputs) && !st.flags.hasAutoSelectedOrg && st.prefs.selectedOrganizationId == s.orgId ==>
      && r.prefs.selectedOrganizationId.Some?
      && Lists(s.inputs.organizations, OrganizationId, r.prefs.selectedOrganizationId.value)
  {
    var orgs := s.inputs.organizations;
    if s.inputs.isLoadingOrganizations || |orgs| == 0 then
      st.(flags := st.flags.(hasAutoSelectedOrg := false))
    else if NeedsAutoSelect(orgs, OrganizationId, s.orgId) && !st.flags.hasAutoSelectedOrg then
      assert OrganizationId(orgs[0]) == orgs[0].id;
      State(SetSelectedOrganizationId(st.prefs, Some(orgs[0].id)), st.flags.(hasAutoSelectedOrg := true))
    else
      st
  }

  /** Team auto-select effect. While teams load, or no organization is
      selected, it re-arms the team flag and writes nothing. A loaded empty
      list clears a selected team. A loaded non-empty list gets its first team
      written when the rendered team id is unusable and the flag has not fired.
      The organization field and the organization flag are never touched. */
  function TeamEffect(s: Snapshot, st: State): (r: State)
    ensures r.prefs.selectedOrganizationId == st.prefs.selectedOrganizationId
    ensures r.flags.hasAutoSelectedOrg == st.flags.hasAutoSelectedOrg
    ensures s.inputs.isLoadingTeams || !IsSet(s.orgId) ==>
      r == st.(flags := st.flags.(hasAutoSelectedTeam := false))
    ensures !s.inputs.isLoadingTeams && IsSet(s.orgId) && |s.inputs.teams| == 0 ==>
      r.flags == st.flags
      && r.prefs == (if IsSet(s.teamId) then SetSelectedTeamId(st.prefs, None) else st.prefs)
    ensures !s.inputs.isLoadingTeams && IsSet(s.orgId) && |s.inputs.teams| > 0 ==>
      if NeedsAutoSelect(s.inputs.teams, TeamId, s.teamId) && !st.flags.hasAutoSelectedTeam
      then r.flags.hasAutoSelectedTeam && r.prefs == SetSelectedTeamId(st.prefs, Some(s.inputs.teams[0].id))
      else r == st
    // Whatever the effect writes into the team field is null or a listed team.
    ensures r.prefs.selectedTeamId != st.prefs.selectedTeamId ==>
      r.prefs.selectedTeamId.None? || Lists(s.inputs.teams, TeamId, r.prefs.selectedTeamId.value)
  {
    var teams := s.inputs.teams;
    if s.inputs.isLoadingTeams || !IsSet(s.orgId) then
      st.(flags := st.flags.(hasAutoSelectedTeam := false))
    else if |teams| == 0 then
      if IsSet(s.teamId) then st.(prefs := SetSelectedTeamId(st.prefs, None)) else st
    else if NeedsAutoSelect(teams, TeamId, s.teamId) && !st.flags.hasAutoSelectedTeam then
      assert TeamId(teams[0]) == teams[0].id;
      State(SetSelectedTeamId(st.prefs, Some(teams[0].id)), st.flags.(hasAutoSelectedTeam := true))
    else
      st
  }

  /** Remote active-organization sync effect: one request naming the rendered
      organization exactly when that id is set and differs from the remote one. */
  function SyncEffect(s: Snapshot): (reqs: seq<Request>)
    ensures |reqs| <= 1
    ensures |reqs| == 1 <==> IsSet(s.orgId) && s.inputs.activeOrganizationId != s.orgId
    ensures |reqs| == 1 ==> reqs[0].organizationId == s.orgId.value
  {
    if !IsSet(s.orgId) then []
    else if s.inputs.activeOrganizationId != s.orgId then [SetActive(s.orgId.value)]
    else []
  }

  /** Dependency lists of the four effects. */
  function OrganizationDeps(s: Snapshot): (bool, seq<Organization>, Option<string>) {
    (s.inputs.isLoadingOrganizations, s.inputs.organizations, s.orgId)
  }

  function TeamDeps(s: Snapshot): (bool, seq<Team>, Option<string>, Option<string>) {
    (s.inputs.isLoadingTeams, s.inputs.teams, s.teamId, s.orgId)
  }

  function RearmDeps(s: Snapshot): Option<string> {
    s.orgId
  }

  function SyncDeps(s: Snapshot): (Option<string>, Option<string>) {
    (s.orgId, s.inputs.activeOrganizationId)
  }

  /** An effect runs on the first commit and whenever its dependencies changed. */
  predicate Runs<D(==)>(previous: Option<Snapshot>, s: Snapshot, deps: Snapshot -> D) {
    previous.None? || deps(previous.value) != deps(s)
  }

  /** The outcome of one commit. */
  datatype Commit = Commit(prefs: Preferences, reconciler: Reconciler, requests: seq<Request>)

  /** One render and commit of the provider. */
  function Step(inputs: Inputs, prefs: Preferences, rec: Reconciler): (c: Commit)
    ensures c.reconciler.previous == Some(Snapshot(inputs, prefs.selectedOrganizationId, prefs.selectedTeamId))
    ensures |c.requests| <= 1
  {
    var s := Snapshot(inputs, prefs.selectedOrganizationId, prefs.selectedTeamId);
    var st0 := State(prefs, rec.flags);
    var st1 := if Runs(rec.previous, s, OrganizationDeps) then OrganizationEffect(s, st0) else st0;
    var st2 := if Runs(rec.previous, s, TeamDeps) then TeamEffect(s, st1) else st1;
    var st3 := if Runs(rec.previous, s, RearmDeps) then st2.(flags := st2.flags.(hasAutoSelectedTeam := false)) else st2;
    var reqs := if Runs(rec.previous, s, SyncDeps) then SyncEffect(s) else [];
    Commit(st3.prefs, Reconciler(st3.flags, Some(s)), reqs)
  }

  /** The organization id changes in a commit only by an auto-select to the
      first listed organization, which fires the organization flag. */
  lemma StepChangesOrganizationOnlyByAutoSelect(inputs: Inputs, prefs: Preferences, rec: Reconciler)
    ensures var c := Step(inputs, prefs, rec);
      c.prefs.selectedOrganizationId != prefs.selectedOrganizationId ==>
        && OrganizationsAvailable(inputs)
        && NeedsAutoSelect(inputs.organizations, OrganizationId, prefs.selectedOrganizationId)
        && !rec.flags.hasAutoSelectedOrg && c.reconciler.flags.hasAutoSelectedOrg
        && c.prefs.selectedOrganizationId == Some(inputs.organizations[0].id)
  {
  }

  /** The organization flag is re-armed only in a commit whose organization
      list is loading or empty. */
  lemma StepRearmsOrganizationOnlyWhenUnavailable(inputs: Inputs, prefs: Preferences, rec: Reconciler)
    ensures var c := Step(inputs, prefs, rec);
      rec.flags.hasAutoSelectedOrg && !c.reconciler.flags.hasAutoSelectedOrg ==> !OrganizationsAvailable(inputs)
  {
  }

  /** A commit whose rendered organization id differs from the previous
      commit's leaves the team flag re-armed. */
  lemma StepRearmsTeamOnOrganizationChange(inputs: Inputs, prefs: Preferences, rec: Reconciler)
    requires rec.previous.Some? && rec.previous.value.orgId != prefs.selectedOrganizationId
    ensures !Step(inputs, prefs, rec).reconciler.flags.hasAutoSelectedTeam
  {
  }

  /** The requests of a commit: at most one; it names the rendered organization,
      which is set and differs from the remote active one; and it is issued on
      every commit where that holds and the organization id or the remote id
      changed (or on the first commit). */
  lemma StepSyncRequests(inputs: Inputs, prefs: Preferences, rec: Reconciler)
    ensures var c := Step(inputs, prefs, rec);
      var s := Snapshot(inputs, prefs.selectedOrganizationId, prefs.selectedTeamId);
      && (|c.requests| == 1 ==>
            && IsSet(prefs.selectedOrganizationId)
            && c.requests[0] == SetActive(prefs.selectedOrganizationId.value)
            && inputs.activeOrganizationId != prefs.selectedOrganizationId)
      && (Runs(rec.previous, s, SyncDeps) ==>
            (|c.requests| == 1 <==> IsSet(prefs.selectedOrganizationId) && inputs.activeOrganizationId != prefs.selectedOrganizationId))
      && (!Runs(rec.previous, s, SyncDeps) ==> c.requests == [])
  {
  }

  /** A team id written by the reconciler never sits in a record without an
      organization: the record property "team set implies organization set"
      is preserved by every commit. */
  lemma StepKeepsTeamUnderOrganization(inputs: Inputs, prefs: Preferences, rec: Reconciler)
    requires prefs.selectedTeamId.Some? ==> prefs.selectedOrganizationId.Some?
    ensures var c := Step(inputs, prefs, rec);
      c.prefs.selectedTeamId.Some? ==> c.prefs.selectedOrganizationId.Some?
  {
  }

  /** What happens between commits: a render with new inputs, or the user
      choosing through one of the exposed setters. */
  datatype Event =
    | Rendered(inputs: Inputs)
    | PickOrganization(organizationId: Option<string>)
    | PickTeam(teamId: Option<string>)

  datatype Session = Session(prefs: Preferences, reconciler: Reconciler, requests: seq<Request>)

  function Perform(s: Session, e: Event): Session {
    match e
    case Rendered(inputs) =>
      var c := Step(inputs, s.prefs, s.reconciler);
      Session(c.prefs, c.reconciler, s.requests + c.requests)
    case PickOrganization(o) => s.(prefs := SetSelectedOrganizationId(s.prefs, o))
    case PickTeam(t) => s.(prefs := SetSelectedTeamId(s.prefs, t))
  }

  /** The session after a sequence of events, oldest first. */
  function Run(s: Session, evs: seq<Event>): Session
    decreases |evs|
  {
    if |evs| == 0 then s else Perform(Run(s, evs[..|evs| - 1]), evs[|evs| - 1])
  }

  lemma RunSnoc(s: Session, evs: seq<Event>, e: Event)
    ensures Run(s, evs + [e]) == Perform(Run(s, evs), e)
  {
    assert (evs + [e])[..|evs|] == evs;
  }

  /** The organization id after the events if the reconciler never wrote it:
      the last user pick, or the starting id. */
  function LastPicked(start: Option<string>, evs: seq<Event>): Option<string>
    decreases |evs|
  {
    if |evs| == 0 then start
    else if evs[|evs| - 1].PickOrganization? then evs[|evs| - 1].organizationId
    else LastPicked(start, evs[..|evs| - 1])
  }

  predicate AllRendersAvailable(evs: seq<Event>) {
    forall k :: 0 <= k < |evs| && evs[k].Rendered? ==> OrganizationsAvailable(evs[k].inputs)
  }

  /** Once the organization flag has fired, no commit auto-selects an
      organization again while the list stays loaded and non-empty: the
      organization id is always the user's last pick (or what it was), even a
      null or stale one. */
  lemma {:induction false} FiredOrganizationFlagIsSticky(s: Session, evs: seq<Event>)
    requires s.reconciler.flags.hasAutoSelectedOrg
    requires AllRendersAvailable(evs)
    ensures Run(s, evs).reconciler.flags.hasAutoSelectedOrg
    ensures Run(s, evs).prefs.selectedOrganizationId == LastPicked(s.prefs.selectedOrganizationId, evs)
    decreases |evs|
  {
    if |evs| > 0 {
      var init := evs[..|evs| - 1];
      assert forall k :: 0 <= k < |init| ==> init[k] == evs[k];
      FiredOrganizationFlagIsSticky(s, init);
      var e := evs[|evs| - 1];
      if e.Rendered? {
        var before := Run(s, init);
        StepChangesOrganizationOnlyByAutoSelect(e.inputs, before.prefs, before.reconciler);
        StepRearmsOrganizationOnlyWhenUnavailable(e.inputs, before.prefs, before.reconciler);
      }
    }
  }

  /** The number of commits among the events in which the reconciler
      auto-selected an organization (its organization flag fired). */
  function OrganizationAutoSelects(s: Session, evs: seq<Event>): nat
    decreases |evs|
  {
    if |evs| == 0 then 0
    else
      var before := Run(s, evs[..|evs| - 1]);
      var after := Perform(before, evs[|evs| - 1]);
      OrganizationAutoSelects(s, evs[..|evs| - 1])
        + (if !before.reconciler.flags.hasAutoSelectedOrg && after.reconciler.flags.hasAutoSelectedOrg then 1 else 0)
  }

  /** While the organization list stays loaded and non-empty the reconciler
      auto-selects at most once, and exactly once when the flag started armed
      and ended fired. */
  lemma {:induction false} AutoSelectAtMostOncePerArming(s: Session, evs: seq<Event>)
    requires AllRendersAvailable(evs)
    ensures s.reconciler.flags.hasAutoSelectedOrg ==> Run(s, evs).reconciler.flags.hasAutoSelectedOrg
    ensures OrganizationAutoSelects(s, evs) <= 1
    ensures OrganizationAutoSelects(s, evs) == 1 <==>
      !s.reconciler.flags.hasAutoSelectedOrg && Run(s, evs).reconciler.flags.hasAutoSelectedOrg
    decreases |evs|
  {
    if |evs| > 0 {
      var init := evs[..|evs| - 1];
      assert forall k :: 0 <= k < |init| ==> init[k] == evs[k];
      AutoSelectAtMostOncePerArming(s, init);
      var before := Run(s, init);
      var e := evs[|evs| - 1];
      var after := Perform(before, e);
      assert Run(s, evs) == after;
      assert OrganizationAutoSelects(s, evs) == OrganizationAutoSelects(s, init)
        + (if !before.reconciler.flags.hasAutoSelectedOrg && after.reconciler.flags.hasAutoSelectedOrg then 1 else 0);
      if e.Rendered? {
        StepRearmsOrganizationOnlyWhenUnavailable(e.inputs, before.prefs, before.reconciler);
      }
      assert before.reconciler.flags.hasAutoSelectedOrg ==> after.reconciler.flags.hasAutoSelectedOrg;
    }
  }

  /** The team flag is re-armed only in a commit whose teams are loading,
      whose rendered organization id is unset, or whose rendered organization
      id differs from the previous commit's (the first commit included). */
  lemma StepRearmsTeamOnlyWhenUnavailableOrSwitched(inputs: Inputs, prefs: Preferences, rec: Reconciler)
    ensures var c := Step(inputs, prefs, rec);
      rec.flags.hasAutoSelectedTeam && !c.reconciler.flags.hasAutoSelectedTeam ==>
        || inputs.isLoadingTeams
        || !IsSet(prefs.selectedOrganizationId)
        || rec.previous.None?
        || rec.previous.value.orgId != prefs.selectedOrganizationId
  {
  }

  /** The team flag fires in a commit only by auto-selecting: the teams are
      loaded and non-empty under a set organization, the rendered team id is
      unusable, and the first team is written. */
  lemma StepFiresTeamFlagOnlyByAutoSelect(inputs: Inputs, prefs: Preferences, rec: Reconciler)
    ensures var c := Step(inputs, prefs, rec);
      !rec.flags.hasAutoSelectedTeam && c.reconciler.flags.hasAutoSelectedTeam ==>
        && !inputs.isLoadingTeams && IsSet(prefs.selectedOrganizationId) && |inputs.teams| > 0
        && NeedsAutoSelect(inputs.teams, TeamId, prefs.selectedTeamId)
        && c.prefs.selectedTeamId == Some(inputs.teams[0].id)
  {
  }

  /** The events keep the organization settled and the teams loaded: every
      render has loaded, non-empty organizations and loaded teams, and the
      user never picks an organization (team picks are allowed). */
  predicate TeamsSettled(evs: seq<Event>) {
    && AllRendersAvailable(evs)
    && (forall k :: 0 <= k < |evs| && evs[k].Rendered? ==> !evs[k].inputs.isLoadingTeams)
    && (forall k :: 0 <= k < |evs| ==> !evs[k].PickOrganization?)
  }

  /** The organization flag has fired and the previous commit rendered the
      current organization id `org`. */
  predicate SteadyOrganization(ss: Session, org: Option<string>) {
    && ss.reconciler.flags.hasAutoSelectedOrg
    && ss.prefs.selectedOrganizationId == org
    && ss.reconciler.previous.Some?
    && ss.reconciler.previous.value.orgId == org
  }

  lemma {:induction false} SteadyOrganizationKept(s: Session, evs: seq<Event>)
    requires SteadyOrganization(s, s.prefs.selectedOrganizationId)
    requires TeamsSettled(evs)
    ensures SteadyOrganization(Run(s, evs), s.prefs.selectedOrganizationId)
    decreases |evs|
  {
    if |evs| > 0 {
      var init := evs[..|evs| - 1];
      assert forall k :: 0 <= k < |init| ==> init[k] == evs[k];
      SteadyOrganizationKept(s, init);
      var before := Run(s, init);
      var e := evs[|evs| - 1];
      if e.Rendered? {
        StepChangesOrganizationOnlyByAutoSelect(e.inputs, before.prefs, before.reconciler);
        StepRearmsOrganizationOnlyWhenUnavailable(e.inputs, before.prefs, before.reconciler);
      } else {
        assert e.PickTeam?;
      }
    }
  }

  /** The number of commits among the events in which the team flag fired. */
  function TeamAutoSelects(s: Session, evs: seq<Event>): nat
    decreases |evs|
  {
    if |evs| == 0 then 0
    else
      var before := Run(s, evs[..|evs| - 1]);
      var after := Perform(before, evs[|evs| - 1]);
      TeamAutoSelects(s, evs[..|evs| - 1])
        + (if !before.reconciler.flags.hasAutoSelectedTeam && after.reconciler.flags.hasAutoSelectedTeam then 1 else 0)
  }

  /** With the organization flag fired, the previous commit on the current
      organization, loaded teams on every render and no organization pick, the
      team flag fires at most once, exactly once when it started armed and
      ended fired, and once fired under a set organization it stays fired. */
  lemma {:induction false} TeamAutoSelectAtMostOncePerArming(s: Session, evs: seq<Event>)
    requires SteadyOrganization(s, s.prefs.selectedOrganizationId)
    requires TeamsSettled(evs)
    ensures IsSet(s.prefs.selectedOrganizationId) && s.reconciler.flags.hasAutoSelectedTeam ==>
      Run(s, evs).reconciler.flags.hasAutoSelectedTeam
    ensures !s.reconciler.flags.hasAutoSelectedTeam && Run(s, evs).reconciler.flags.hasAutoSelectedTeam ==>
      IsSet(s.prefs.selectedOrganizationId)
    ensures TeamAutoSelects(s, evs) <= 1
    ensures TeamAutoSelects(s, evs) == 1 <==>
      !s.reconciler.flags.hasAutoSelectedTeam && Run(s, evs).reconciler.flags.hasAutoSelectedTeam
    decreases |evs|
  {
    if |evs| > 0 {
      var org := s.prefs.selectedOrganizationId;
      var init := evs[..|evs| - 1];
      assert forall k :: 0 <= k < |init| ==> init[k] == evs[k];
      TeamAutoSelectAtMostOncePerArming(s, init);
      SteadyOrganizationKept(s, init);
      var before := Run(s, init);
      var e := evs[|evs| - 1];
      var after := Perform(before, e);
      assert Run(s, evs) == after;
      assert TeamAutoSelects(s, evs) == TeamAutoSelects(s, init)
        + (if !before.reconciler.flags.hasAutoSelectedTeam && after.reconciler.flags.hasAutoSelectedTeam then 1 else 0);
      if e.Rendered? {
        StepRearmsTeamOnlyWhenUnavailableOrSwitched(e.inputs, before.prefs, before.reconciler);
        StepFiresTeamFlagOnlyByAutoSelect(e.inputs, before.prefs, before.reconciler);
      } else {
        assert e.PickTeam?;
      }
      assert IsSet(org) && before.reconciler.flags.hasAutoSelectedTeam ==> after.reconciler.flags.hasAutoSelectedTeam;
      assert !IsSet(org) ==> !(!before.reconciler.flags.hasAutoSelectedTeam && after.reconciler.flags.hasAutoSelectedTeam);
    }
  }

  /** The value the provider hands to its consumers. */
  datatype WorkspaceView = WorkspaceView(
    organizations: seq<Organization>,
    isLoadingOrganizations: bool,
    selectedOrganization: Option<Organization>,
    teams: seq<Team>,
    isLoadingTeams: bool,
    selectedTeam: Option<Team>)

  /** The exposed selection for the current inputs and record: each surfaced
      object is listed and carries the persisted id. */
  function View(inputs: Inputs, prefs: Preferences): (v: WorkspaceView)
    ensures v.selectedOrganization.Some? ==>
      v.selectedOrganization.value in inputs.organizations
      && prefs.selectedOrganizationId == Some(v.selectedOrganization.value.id)
    ensures v.selectedTeam.Some? ==>
      v.selectedTeam.value in inputs.teams && prefs.selectedTeamId == Some(v.selectedTeam.value.id)
    ensures v.selectedOrganization.None? <==> NeedsAutoSelect(inputs.organizations, OrganizationId, prefs.selectedOrganizationId)
    ensures v.selectedTeam.None? <==> NeedsAutoSelect(inputs.teams, TeamId, prefs.selectedTeamId)
  {
    WorkspaceView(
      inputs.organizations, inputs.isLoadingOrganizations,
      Selected(inputs.organizations, OrganizationId, prefs.selectedOrganizationId),
      inputs.teams, inputs.isLoadingTeams,
      Selected(inputs.teams, TeamId, prefs.selectedTeamId))
  }

  const OutsideProviderMessage: string := "useWorkspace must be used within a WorkspaceProvider"

  /** Reading the workspace outside a provider is an error. */
  function UseWorkspace(context: Option<WorkspaceView>): (r: Result<WorkspaceView, string>)
    ensures r.Failure? <==> context.None?
    ensures r.Failure? ==> r.error == OutsideProviderMessage
    ensures r.Success? ==> r.value == context.value
  {
    match context
    case None => Failure(OutsideProviderMessage)
    case Some(v) => Success(v)
  }
}
