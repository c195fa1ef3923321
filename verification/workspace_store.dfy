/** The persisted workspace preference record and its two accessors: one for
    the selected organization, one for the selected team. Writing the
    organization always clears the team; writing the team keeps the
    organization. Durable storage itself is not modelled: the record is a value. */
module WorkspaceStore {
  import opened Optional

  const StorageKey: string := "workspace-preferences"

  datatype Preferences = Preferences(
    selectedOrganizationId: Option<string>,
    selectedTeamId: Option<string>)

  /** The record read before anything was ever written. */
  function DefaultPreferences(): (p: Preferences)
    ensures p.selectedOrganizationId.None? && p.selectedTeamId.None?
  {
    Preferences(None, None)
  }

  /** Read side of the organization accessor. */
  function SelectedOrganizationId(p: Preferences): Option<string> {
    p.selectedOrganizationId
  }

  /** Read side of the team accessor. */
  function SelectedTeamId(p: Preferences): Option<string> {
    p.selectedTeamId
  }

  /** Write side of the organization accessor: the team is cleared whatever it
      was, even when the organization id does not change. */
  function SetSelectedOrganizationId(p: Preferences, organizationId: Option<string>): (r: Preferences)
    ensures SelectedOrganizationId(r) == organizationId
    ensures SelectedTeamId(r).None?
  {
    p.(selectedOrganizationId := organizationId, selectedTeamId := None)
  }

  /** Write side of the team accessor: the organization is kept. */
  function SetSelectedTeamId(p: Preferences, teamId: Option<string>): (r: Preferences)
    ensures SelectedTeamId(r) == teamId
    ensures SelectedOrganizationId(r) == SelectedOrganizationId(p)
  {
    p.(selectedTeamId := teamId)
  }

  /** Writing back what was read: the team accessor leaves the record as it
      is, while the organization accessor does so only when no team is
      selected, because it clears the team even for an unchanged id. */
  lemma WriteBackOfRead(p: Preferences)
    ensures SetSelectedTeamId(p, SelectedTeamId(p)) == p
    ensures SetSelectedOrganizationId(p, SelectedOrganizationId(p)) == p <==> SelectedTeamId(p).None?
  {
  }

  /** Writing the same organization twice is the same as writing it once, and
      the result does not depend on the record written over. */
  lemma OrganizationWriteIdempotent(p: Preferences, q: Preferences, organizationId: Option<string>)
    ensures SetSelectedOrganizationId(SetSelectedOrganizationId(p, organizationId), organizationId)
         == SetSelectedOrganizationId(p, organizationId)
    ensures SetSelectedOrganizationId(p, organizationId) == SetSelectedOrganizationId(q, organizationId)
  {
  }

  /** A write through either accessor into the record. */
  datatype Write = WriteOrganization(organizationId: Option<string>) | WriteTeam(teamId: Option<string>)

  function Apply(p: Preferences, w: Write): Preferences {
    match w
    case WriteOrganization(o) => SetSelectedOrganizationId(p, o)
    case WriteTeam(t) => SetSelectedTeamId(p, t)
  }

  /** The record after a sequence of writes, oldest first. */
  function ApplyAll(p: Preferences, ws: seq<Write>): Preferences
    decreases |ws|
  {
    if |ws| == 0 then p else Apply(ApplyAll(p, ws[..|ws| - 1]), ws[|ws| - 1])
  }

  /** After any sequence of writes a selected team traces back either to the
      starting record, when no organization was written at all, or to a team
      write that no organization write followed; and the organization is that
      of the last organization write, or the starting one if there was none. */
  lemma {:induction false} TeamSurvivesOnlyALaterTeamWrite(p: Preferences, ws: seq<Write>)
    ensures var r := ApplyAll(p, ws);
      && (r.selectedTeamId.Some? ==>
            (r.selectedTeamId == p.selectedTeamId && forall k :: 0 <= k < |ws| ==> ws[k].WriteTeam?)
            || (exists j :: 0 <= j < |ws| && ws[j] == WriteTeam(r.selectedTeamId)
                  && forall k :: j < k < |ws| ==> ws[k].WriteTeam?))
      && ((forall k :: 0 <= k < |ws| ==> ws[k].WriteTeam?) ==> r.selectedOrganizationId == p.selectedOrganizationId)
      && (forall j :: 0 <= j < |ws| && ws[j].WriteOrganization? && (forall k :: j < k < |ws| ==> ws[k].WriteTeam?)
            ==> r.selectedOrganizationId == ws[j].organizationId)
    decreases |ws|
  {
    if |ws| > 0 {
      var init := ws[..|ws| - 1];
      var last := ws[|ws| - 1];
      TeamSurvivesOnlyALaterTeamWrite(p, init);
      assert forall k :: 0 <= k < |init| ==> init[k] == ws[k];
      var q := ApplyAll(p, init);
      var r := ApplyAll(p, ws);
      assert r == Apply(q, last);
      if last.WriteTeam? {
        if last.teamId.Some? {
          assert ws[|ws| - 1] == WriteTeam(r.selectedTeamId);
        }
        forall j | 0 <= j < |ws| && ws[j].WriteOrganization? && (forall k :: j < k < |ws| ==> ws[k].WriteTeam?)
          ensures r.selectedOrganizationId == ws[j].organizationId
        {
          assert j < |init|;
          assert forall k :: j < k < |init| ==> init[k].WriteTeam?;
        }
      } else {
        forall j | 0 <= j < |ws| && ws[j].WriteOrganization? && (forall k :: j < k < |ws| ==> ws[k].WriteTeam?)
          ensures r.selectedOrganizationId == ws[j].organizationId
        {
          assert j == |ws| - 1;
        }
      }
    }
  }

  /** Once the last write is an organization write, no team is selected. */
  lemma OrganizationWriteLastClearsTeam(p: Preferences, ws: seq<Write>)
    requires |ws| > 0 && ws[|ws| - 1].WriteOrganization?
    ensures ApplyAll(p, ws).selectedTeamId.None?
  {
  }
}
