# Workspace selection and client-side helpers of the web app, in Dafny

This project models the deterministic client-side logic of the web
application. Every operation is a pure function (or a small method with loop
invariants), and its contract states what the TypeScript promises.

- **Workspace selection** (`WorkspaceStore`, `WorkspaceProvider`, `WorkspaceScenarios`).
  - The persisted `{selectedOrganizationId, selectedTeamId}` record and its two accessors. Writing the organization clears the team.
  - The `WorkspaceProvider` reconciler. One React render and commit is a pure `Step`: `(inputs, record, reconciler memory) -> (record', memory', set-active requests)`.
    - The four effects run in declaration order.
    - Each effect runs only when its dependency list changed since the previous commit, or on the first commit.
    - The memory holds the two one-shot auto-select flags and the previous commit's snapshot.
  - `WorkspaceScenarios` replays concrete event sequences through the reconciler.
- **Roles** (`OrganizationTypes`, `OrganizationUtils`): the role names, `ROLES`, `ROLE_HIERARCHY`, `canManageRole`, `normalizeSlug` and `getInitials`.
- **Model picker filtering** (`ModelFiltering`):
  - the greedy fuzzy matcher and the provider table;
  - `getProviderLabel`, `getProviderDisplayName` and `getProviderLogoSlug`;
  - the label cache, the sidebar author list, the group filter for "all", "favorites" or a label, and favourite toggling.
- **Agent registry** (`AgentRegistry`): the `register`, `unregister` and `setAgent` state updaters, and the lookup in `useAgentById`. An updater that has nothing to do returns the previous object itself; this is modelled as `Update.Unchanged`.
- **Theme** (`ThemeProvider`, `ThemeCss`): stored-mode validation, mode resolution, applying the scheme to the document root, `setTheme`, the system-preference listener and the `useTheme` guard. Also the TweakCN style-sheet serialiser `generateThemeCSS`.
- **Token client** (`TokenClient`): one cell, where the last write wins.

Helper modules: `Optional` (`Option`, `Result`, JavaScript truthiness of a nullable string), `Seqs` (filter, first-occurrence de-duplication) and `Text` (ASCII case mapping, `split`/`join`, run replacement, substring).

Environment inputs become parameters:

| environment input | modelled as |
|---|---|
| `localStorage` | a map |
| the `prefers-color-scheme: dark` media query | a boolean |
| the document root | its class set and attribute map |
| the organization and team lists | inputs of each render |
| the remote active organization | an input of each render |
| set-active calls | requests returned by the step |

## Model

| member | source | states |
|---|---|---|
| WorkspaceStore.DefaultPreferences | apps/web/src/providers/workspace/store.ts:11-14 | The record read before any write has no organization and no team. |
| WorkspaceStore.SetSelectedOrganizationId | apps/web/src/providers/workspace/store.ts:21-31 | After writing organization `x`, reading the organization gives `x` and reading the team gives null, whatever the team was. |
| WorkspaceStore.SetSelectedTeamId | apps/web/src/providers/workspace/store.ts:33-42 | After writing team `t`, reading the team gives `t` and the organization is what it was. |
| WorkspaceStore.WriteBackOfRead | apps/web/src/providers/workspace/store.ts:21-42 | Writing back the team that was read leaves the record as it is. Writing back the organization that was read does so exactly when no team is selected, since it clears the team. |
| WorkspaceStore.OrganizationWriteIdempotent | apps/web/src/providers/workspace/store.ts:23-30 | Writing the same organization twice equals writing it once, and the result does not depend on the record written over. |
| WorkspaceStore.TeamSurvivesOnlyALaterTeamWrite | apps/web/src/providers/workspace/store.ts:21-42 | Consider any sequence of accessor writes. A non-null team comes from a team write that no organization write followed, or from the start when only team writes happened. The organization is the last organization write, or the starting one if there was none. |
| WorkspaceStore.OrganizationWriteLastClearsTeam | apps/web/src/providers/workspace/store.ts:25-29 | When the last write is an organization write, no team is selected. |
| WorkspaceProvider.FindById | apps/web/src/providers/workspace/workspace-provider.tsx:50 | `find` by id gives null exactly when no element has the id, and otherwise a listed element with that id. |
| WorkspaceProvider.Selected | apps/web/src/providers/workspace/workspace-provider.tsx:48-58 | The effective organization or team is null exactly when the persisted id is null, empty or not listed. Otherwise it is a listed element carrying that id, so a stale id never surfaces an object. |
| WorkspaceProvider.View | apps/web/src/providers/workspace/workspace-provider.tsx:48-58 | The provider's exposed organization and team each obey the rule of `Selected`. |
| WorkspaceProvider.Mounted | apps/web/src/providers/workspace/workspace-provider.tsx:60-61 | A fresh provider has both auto-select flags down and has seen no commit. |
| WorkspaceProvider.OrganizationEffect | apps/web/src/providers/workspace/workspace-provider.tsx:63-77 | While the list loads or is empty, the org flag goes down and nothing is written. On a loaded list, the first organization is written and the flag fires exactly when the rendered id is unusable and the flag is down; otherwise nothing changes. A loaded list with the flag down always ends naming a listed organization. |
| WorkspaceProvider.TeamEffect | apps/web/src/providers/workspace/workspace-provider.tsx:79-99 | While teams load or no organization is set, the team flag goes down and nothing is written. A loaded empty list clears a set team id and leaves the flags alone. A non-empty list gets its first team written, and the flag fired, exactly when the rendered team id is unusable and the flag is down. Every team id it writes is null or listed. The organization is never touched. |
| WorkspaceProvider.SyncEffect | apps/web/src/providers/workspace/workspace-provider.tsx:105-111 | One set-active request naming the rendered organization is issued exactly when that id is set and differs from the remote active id; otherwise none. |
| WorkspaceProvider.Step | apps/web/src/providers/workspace/workspace-provider.tsx:63-111 | A commit records what it rendered as the next commit's snapshot and issues at most one request. |
| WorkspaceProvider.StepChangesOrganizationOnlyByAutoSelect | apps/web/src/providers/workspace/workspace-provider.tsx:63-77 | Within a commit the organization id changes only by an auto-select. That auto-select needs a loaded non-empty list, an unusable id and the flag down; it writes the first organization and fires the flag. |
| WorkspaceProvider.StepRearmsOrganizationOnlyWhenUnavailable | apps/web/src/providers/workspace/workspace-provider.tsx:64-66 | A fired org flag goes down only in a commit whose list is loading or empty. |
| WorkspaceProvider.StepRearmsTeamOnOrganizationChange | apps/web/src/providers/workspace/workspace-provider.tsx:101-103 | A commit whose rendered organization id differs from the previous one ends with the team flag down. |
| WorkspaceProvider.StepSyncRequests | apps/web/src/providers/workspace/workspace-provider.tsx:105-111 | A request names the rendered, set organization that differs from the remote one. When the ids changed it is issued exactly under that condition. When neither id changed, nothing is issued. |
| WorkspaceProvider.StepKeepsTeamUnderOrganization | apps/web/src/providers/workspace/workspace-provider.tsx:79-99 | Every commit preserves "a team is selected only under a selected organization". |
| WorkspaceProvider.FiredOrganizationFlagIsSticky | apps/web/src/providers/workspace/workspace-provider.tsx:63-77 | Once the org flag has fired, and while the list stays loaded and non-empty, it stays fired. The organization id is then always the user's last pick or the starting id, even a null or stale one. |
| WorkspaceProvider.AutoSelectAtMostOncePerArming | apps/web/src/providers/workspace/workspace-provider.tsx:63-77 | While the list stays loaded and non-empty, the reconciler auto-selects an organization at most once. It does so exactly once when the flag started down and ended fired. |
| WorkspaceProvider.StepRearmsTeamOnlyWhenUnavailableOrSwitched | apps/web/src/providers/workspace/workspace-provider.tsx:79-103 | A fired team flag goes down only in a commit whose teams are loading, whose organization id is unset, or whose organization id differs from the previous commit's. |
| WorkspaceProvider.StepFiresTeamFlagOnlyByAutoSelect | apps/web/src/providers/workspace/workspace-provider.tsx:92-98 | The team flag fires only when the teams are loaded and non-empty under a set organization and the rendered team is unusable. The first team is then written. |
| WorkspaceProvider.SteadyOrganizationKept | apps/web/src/providers/workspace/workspace-provider.tsx:63-77 | With loaded organizations and teams and no organization pick, a fired org flag on an organization the previous commit rendered stays that way. |
| WorkspaceProvider.TeamAutoSelectAtMostOncePerArming | apps/web/src/providers/workspace/workspace-provider.tsx:79-103 | Under a settled organization and loaded teams, with no organization pick, the reconciler auto-selects a team at most once. It does so exactly once when the team flag started down and ended fired, and a fired flag stays fired under a set organization. |
| WorkspaceProvider.UseWorkspace | apps/web/src/providers/workspace/workspace-provider.tsx:155-161 | Outside a provider the hook fails with "useWorkspace must be used within a WorkspaceProvider"; inside it returns the context value. |
| WorkspaceScenarios.FirstLoadSelectsFirstOrganization | apps/web/src/providers/workspace/workspace-provider.tsx:63-111 | From a freshly mounted provider with nothing persisted, a loading render and two loaded ones reach one exact state. The first organization is selected, the org flag has fired, the team flag is down, and exactly one request asks the remote side to activate it. |
| WorkspaceScenarios.RemovedOrganizationReplacedOnlyAfterReload | apps/web/src/providers/workspace/workspace-provider.tsx:63-77 | Starting from that first-load state, a refetch that drops the selected organization leaves the stale id. Only a pass through a loading list picks the new first organization. |
| WorkspaceScenarios.DeselectionKeptAfterAutoSelect | apps/web/src/providers/workspace/workspace-provider.tsx:63-77 | Starting from that first-load state, a deselection is kept while the list is unchanged. |
| WorkspaceScenarios.DeselectionOverriddenWhenFlagNeverFired | apps/web/src/providers/workspace/workspace-provider.tsx:63-77 | When the persisted organization was valid from the start, a later deselection is overridden by an auto-select. |
| WorkspaceScenarios.EmptyTeamListKeepsSelection | apps/web/src/providers/workspace/workspace-provider.tsx:48-99 | An empty team list with no team selected writes nothing; the organization stays surfaced. |
| WorkspaceScenarios.StaleTeamReplacedByFirstTeam | apps/web/src/providers/workspace/workspace-provider.tsx:55-99 | A persisted team that is not listed is never surfaced, and the commit promotes the first team. |
| WorkspaceScenarios.SyncIssuedOnceUntilDependenciesChange | apps/web/src/providers/workspace/workspace-provider.tsx:105-111 | A divergence issues one request, which is not repeated while both ids stay the same. |
| WorkspaceScenarios.CachedTeamsAfterSwitchNotAutoSelected | apps/web/src/providers/workspace/workspace-provider.tsx:79-103 | Suppose the user switches to an organization whose teams are already loaded while the team flag is still fired. Then no team is chosen, in that commit or in later ones with the same team list. |
| WorkspaceScenarios.LoadingTeamsAfterSwitchAutoSelected | apps/web/src/providers/workspace/workspace-provider.tsx:79-103 | The same switch with the teams still loading chooses the first team once they arrive. |
| OrganizationTypes.ParseRole | apps/web/src/hooks/auth/organization/types.ts:23 | A string is a role exactly when it is the name of one of the three roles. |
| OrganizationTypes.RoleValues | apps/web/src/hooks/auth/organization/types.ts:25-29 | The picker's values are "owner", "admin" and "member", in that order. |
| OrganizationTypes.RolesListEveryRoleOnce | apps/web/src/hooks/auth/organization/types.ts:23-29 | `ROLES` lists exactly the three roles, once each, in the order owner, admin, member, and the picker's values are their `value` fields. |
| OrganizationTypes.HierarchyRanksEveryRole | apps/web/src/hooks/auth/organization/types.ts:31-35 | The hierarchy ranks exactly the three role names, each positively, with owner > admin > member. |
| OrganizationUtils.FirstChars | apps/web/src/hooks/auth/organization/utils.ts:5-7 | Mapping each piece to its first character and joining gives one character per non-empty piece, in order. Empty pieces give `undefined`, which joins as nothing. |
| OrganizationUtils.GetInitials | apps/web/src/hooks/auth/organization/utils.ts:3-10 | The initials are the upper-cased first characters of the first two non-empty space-separated words, in order, so there are at most two. |
| OrganizationUtils.NormalizeSlug | apps/web/src/hooks/auth/organization/utils.ts:19-21 | The slug is the one-pass reading of the input: each run of whitespace becomes one `-`, and every other character is lower-cased and kept exactly when it is `a-z`, `0-9` or `-`. So the slug holds only those characters, is no longer than the input, and keeps the input's letters and digits, lower-cased, in order. |
| OrganizationUtils.PipelineIsOnePass | apps/web/src/hooks/auth/organization/utils.ts:20 | Lower-casing, collapsing whitespace runs to `-` and dropping other characters, in the code's order, equals the one-pass reading. |
| OrganizationUtils.SlugKeepsLettersAndDigits | apps/web/src/hooks/auth/organization/utils.ts:20 | The one-pass reading keeps exactly the lower-cased input's letters and digits, in order. |
| OrganizationUtils.WhitespaceRunIsOneHyphen | apps/web/src/hooks/auth/organization/utils.ts:20 | A non-empty whitespace run followed by a non-space character or the end gives exactly one `-`, followed by the slug of the rest. |
| OrganizationUtils.SlugIsFixedPoint | apps/web/src/hooks/auth/organization/utils.ts:20 | A string that is already a slug is returned unchanged. |
| OrganizationUtils.NormalizeSlugIdempotent | apps/web/src/hooks/auth/organization/utils.ts:20 | Normalising twice is normalising once. |
| OrganizationUtils.Rank | apps/web/src/hooks/auth/organization/utils.ts:14-15 | A role name has its hierarchy rank; every other string ranks 0, and only they do. |
| OrganizationUtils.CanManageRole | apps/web/src/hooks/auth/organization/utils.ts:12-17 | Without an acting role nobody can be managed. Only a real role manages. A real role manages every non-role string. |
| OrganizationUtils.CanManageRoleIrreflexive | apps/web/src/hooks/auth/organization/utils.ts:16 | No role manages its own role, owner included. |
| OrganizationUtils.CanManageRoleAsymmetricTransitive | apps/web/src/hooks/auth/organization/utils.ts:14-16 | Management never goes both ways, and it composes. |
| OrganizationUtils.CanManageRoleFollowsHierarchy | apps/web/src/hooks/auth/organization/utils.ts:12-17 | Among the roles, management is exactly owner over admin and member, and admin over member. A null role manages nobody. |
| OrganizationUtils.CanManageRoleAsWritten | apps/web/src/hooks/auth/organization/utils.ts:12-17 | The check as evaluated on the object literal never grants more than the intended check. It agrees with it whenever neither name is inherited from `Object.prototype`. |
| OrganizationUtils.InheritedNameEscapesRankZero | apps/web/src/hooks/auth/organization/utils.ts:14-16 | An owner cannot manage the role string "constructor", though the intended check allows it. |
| ModelFiltering.Squash | apps/web/src/hooks/use-model-filtering.ts:7-8 | The normalised string contains no separator and no upper-case letter. |
| ModelFiltering.SquashIsLowerWithoutSeparators | apps/web/src/hooks/use-model-filtering.ts:7-8 | The normalisation equals lower-casing the whole string and then deleting every `-`, `_` and `.`. |
| ModelFiltering.FuzzyMatch | apps/web/src/hooks/use-model-filtering.ts:6-27 | A query whose normalised form occurs in the normalised target always matches. Any other match needs a normalised query of at least three characters. |
| ModelFiltering.FuzzyMatchLoop | apps/web/src/hooks/use-model-filtering.ts:6-27 | The code's early returns and its scanning loop compute the matcher's result. |
| ModelFiltering.ScanLoop | apps/web/src/hooks/use-model-filtering.ts:14-26 | The loop with its early `return false` computes the greedy scan. |
| ModelFiltering.ScanFindsCloseEmbedding | apps/web/src/hooks/use-model-filtering.ts:14-26 | A successful scan yields the matched positions: increasing, each holding the query's character, and consecutive ones at most two apart. |
| ModelFiltering.FuzzyMatchSound | apps/web/src/hooks/use-model-filtering.ts:6-27 | A match means the normalised query occurs in the normalised target, or it has at least three characters and is a subsequence of it with gaps of at most one character. Conversely, occurring in the target always matches. |
| ModelFiltering.ShortQueryNeedsSubstring | apps/web/src/hooks/use-model-filtering.ts:9-11 | A normalised query shorter than three characters matches exactly when it occurs in the target. |
| ModelFiltering.GreedyScanIsIncomplete | apps/web/src/hooks/use-model-filtering.ts:13-26 | Some queries lie in the target with small gaps, yet the greedy scan rejects them. The shape is "abc" in "axxabxc". |
| ModelFiltering.GreedyScanMissesAbc | apps/web/src/hooks/use-model-filtering.ts:13-26 | "abc" does not match "axxabxc". |
| ModelFiltering.LabelFrom | apps/web/src/hooks/use-model-filtering.ts:51-60 | A label found by scanning the table is one of the table's display names. |
| ModelFiltering.GetProviderLabel | apps/web/src/hooks/use-model-filtering.ts:48-61 | The provider label is null or one of the table's display names. |
| ModelFiltering.LabelFromFirstMatch | apps/web/src/hooks/use-model-filtering.ts:51-60 | The scan finds a label exactly when some row from the start position matches. The label is then the display name of the first such row. |
| ModelFiltering.GetProviderLabelFirstMatch | apps/web/src/hooks/use-model-filtering.ts:48-61 | A label exists exactly when some key matches the author slug. It is the display name of the first matching key in table order. |
| ModelFiltering.EmptyAuthorLabelledAnthropic | apps/web/src/hooks/use-model-filtering.ts:49-57 | An empty author is labelled "Anthropic", because the empty slug occurs in every key. |
| ModelFiltering.LogoFrom | apps/web/src/hooks/use-model-filtering.ts:76-81 | The logo is that of the first row with the given display name, or the name itself when no row has it. |
| ModelFiltering.DisplayNamesDistinct | apps/web/src/hooks/use-model-filtering.ts:30-43 | The table's display names are distinct, non-empty, and neither "all" nor "favorites". |
| ModelFiltering.GetProviderDisplayName | apps/web/src/hooks/use-model-filtering.ts:64-68 | "all" and "favorites" are captioned "All" and "Favorites". Every other string is shown as itself, and only those are. |
| ModelFiltering.GetProviderLogoSlug | apps/web/src/hooks/use-model-filtering.ts:71-82 | The pseudo-labels are their own slug. A provider's display name gives that provider's logo. A string that names no provider is returned unchanged. |
| ModelFiltering.LabelsDisplayAndLogo | apps/web/src/hooks/use-model-filtering.ts:64-82 | "all" and "favorites" are captioned "All" and "Favorites" and keep their slug. A provider label is shown as itself, and its logo is the table's logo for that provider. |
| ModelFiltering.LabelCache | apps/web/src/hooks/use-model-filtering.ts:108-115 | The cache maps exactly the groups' authors, each to its provider label. |
| ModelFiltering.CachedLabel | apps/web/src/hooks/use-model-filtering.ts:122-123 | `cache.get(author)` gives a label exactly when the author has a non-null entry, and then that entry. |
| ModelFiltering.CachedLabels | apps/web/src/hooks/use-model-filtering.ts:122-128 | The truthy cached labels never include the empty string. An author missing from the cache reads as `undefined` and gives no label. |
| ModelFiltering.Authors | apps/web/src/hooks/use-model-filtering.ts:117-130 | The loop with its `seen` set yields "favorites" and "all" followed by the truthy cached labels, whatever authors the cache covers. This is the first-occurrence de-duplication of that list. |
| ModelFiltering.CachedLabelsAreProviderLabels | apps/web/src/hooks/use-model-filtering.ts:108-128 | With the cache built from the same groups, the cached labels are exactly the provider labels of the groups' authors. Neither pseudo-label is among them. |
| ModelFiltering.SidebarListsEachLabelOnce | apps/web/src/hooks/use-model-filtering.ts:117-130 | The author list starts with "favorites", "all" and has no duplicates. After those two, it holds exactly the provider labels of the groups' authors. |
| ModelFiltering.AddToGroups | apps/web/src/hooks/use-model-filtering.ts:144-146 | Pushing a model adds it at the end of its author's group. That group is created at the end when new, and the other groups are untouched. |
| ModelFiltering.GroupFavorites | apps/web/src/hooks/use-model-filtering.ts:138-150 | The favourites view has one group per author, no empty group, and never more groups than models. |
| ModelFiltering.FirstFavoriteIndex | apps/web/src/hooks/use-model-filtering.ts:143-147 | The position of the first favourite under an author, or the model count when there is none. |
| ModelFiltering.GroupFavoritesPartition | apps/web/src/hooks/use-model-filtering.ts:138-150 | The favourites view groups exactly the favourite models. Group authors are distinct. Each group is non-empty and holds its author's favourites in model order. A model without an author goes under "Other". The groups come in the order in which their authors' first favourite appears, the insertion order that `Object.entries` reports. |
| ModelFiltering.FilteredModels | apps/web/src/hooks/use-model-filtering.ts:132-154 | "all" shows exactly the groups whose cached label is not null, authors missing from the cache included, "favorites" the grouped favourites, and a label exactly the groups cached under it. |
| ModelFiltering.FilteredGroupsKeepOrder | apps/web/src/hooks/use-model-filtering.ts:133-153 | For "all" or a label, the shown groups are the matching groups in their original order, none missed. For "all" a group matches when its author has no cache entry or a non-null one. |
| ModelFiltering.AllShowsLabelledGroupsInOrder | apps/web/src/hooks/use-model-filtering.ts:133-136 | When every author has a label, "all" shows every group, in order. |
| ModelFiltering.LabelSelectionMatchesProvider | apps/web/src/hooks/use-model-filtering.ts:152-153 | With the cache built from the same groups, a label shows exactly the groups whose author has that provider label. |
| ModelFiltering.Without | apps/web/src/hooks/use-model-filtering.ts:158 | Removing a slug is the generic filter keeping every element other than it, so every other slug stays, every copy, in order. No copy of the slug is left, and a list without it is returned as it is. |
| ModelFiltering.WithoutKeepsOthersInOrder | apps/web/src/hooks/use-model-filtering.ts:158 | The kept slugs are the original list read at strictly increasing positions, and every position holding another slug is among them. |
| ModelFiltering.ToggleFavorite | apps/web/src/hooks/use-model-filtering.ts:156-162 | Toggling flips whether the slug is a favourite and leaves every other slug's status as it was. |
| ModelFiltering.ToggleFavoriteKeepsOthers | apps/web/src/hooks/use-model-filtering.ts:156-160 | Toggling off a present slug is the filter keeping every other slug, every copy, at increasing positions of the original list with none missed. Toggling on an absent slug appends exactly one copy at the end, after the unchanged list. A list without duplicates stays without duplicates. Either way the other slugs are those of the original list, and toggling an absent slug twice restores it. |
| AgentRegistry.Register | apps/web/src/providers/agent.tsx:69-76 | The updater returns the previous set itself exactly when `id` is present. Either way the result is the set with `id` added. |
| AgentRegistry.UnregisterId | apps/web/src/providers/agent.tsx:79-84 | The updater returns the previous set itself exactly when `id` is absent. Either way the result is the set without `id`. |
| AgentRegistry.UnregisterAgent | apps/web/src/providers/agent.tsx:85-90 | The updater returns the previous map itself exactly when `id` has no entry. Either way the result is the map without `id`. |
| AgentRegistry.SetAgent | apps/web/src/providers/agent.tsx:93-100 | The updater returns the previous map itself exactly when `id` already maps to that agent. Either way the result maps `id` to it and keeps every other entry. |
| AgentRegistry.RegisterIn | apps/web/src/providers/agent.tsx:69-76 | `register` adds `id`, keeps every other id and leaves the agents map alone. |
| AgentRegistry.UnregisterIn | apps/web/src/providers/agent.tsx:78-91 | `unregister` removes `id` from both the ids and the map, and keeps everything else. |
| AgentRegistry.SetAgentIn | apps/web/src/providers/agent.tsx:93-100 | `setAgent` maps `id` to the agent, keeps every other entry and leaves the ids alone. |
| AgentRegistry.RegisterIdempotent | apps/web/src/providers/agent.tsx:69-76 | A second `register` of the same id is a no-op returning the identical set. |
| AgentRegistry.UnregisterIdempotent | apps/web/src/providers/agent.tsx:78-91 | A second `unregister` is a no-op on both the set and the map. |
| AgentRegistry.SetAgentIdempotent | apps/web/src/providers/agent.tsx:93-100 | Setting the same agent again returns the identical map. |
| AgentRegistry.RegisterThenUnregister | apps/web/src/providers/agent.tsx:69-100 | Take `register`, then `setAgent`, then `unregister` of an id. Afterwards the id is in neither the set nor the map. Every other id keeps its registration and its connection. |
| AgentRegistry.AgentById | apps/web/src/providers/agent.tsx:131-136 | The hook's agent is the map's entry or null, and `isLoading` holds exactly when the map has no agent for the id. |
| AgentRegistry.LoadingFollowsConnection | apps/web/src/providers/agent.tsx:93-136 | After `setAgent` the id is loaded with that agent; after `unregister` it is loading again. |
| AgentRegistry.UseAgentById | apps/web/src/providers/agent.tsx:117-137 | Outside the provider the hook fails with "useAgentById must be used within AgentProvider". Inside it, `isLoading` holds exactly when the id has no agent. |
| ThemeProvider.ParseStoredMode | apps/web/src/components/tweakcn-theme-provider.tsx:58-63 | A stored value is adopted exactly when it is "light", "dark" or "system", and the adopted mode has that name. |
| ThemeProvider.StoredModeRoundTrip | apps/web/src/components/tweakcn-theme-provider.tsx:58-88 | Storing a mode's name and reading it back gives the mode. |
| ThemeProvider.SystemScheme | apps/web/src/components/tweakcn-theme-provider.tsx:42-45 | The system scheme is dark exactly when the dark-preference query matches. |
| ThemeProvider.Resolve | apps/web/src/components/tweakcn-theme-provider.tsx:66 | The resolved theme is the mode's own scheme for "light" and "dark". For "system" it is the system preference. It is never "system". |
| ThemeProvider.ApplyScheme | apps/web/src/components/tweakcn-theme-provider.tsx:47-56 | In class mode the root gets the scheme's class, loses the other one, and every other class and attribute is unchanged. Otherwise the configured attribute is set to the scheme, and every other attribute and the classes are unchanged. |
| ThemeProvider.LoadStoredMode | apps/web/src/components/tweakcn-theme-provider.tsx:58-63 | A valid stored mode is adopted. Otherwise, and in every other field, the provider is unchanged. |
| ThemeProvider.ResolveAndApply | apps/web/src/components/tweakcn-theme-provider.tsx:65-69 | After the effect the resolved theme matches the mode and is what the root shows. |
| ThemeProvider.Mount | apps/web/src/components/tweakcn-theme-provider.tsx:39-69 | After mounting, the mode is the valid stored one or else the default. The resolved theme matches it and is shown, and storage is untouched. |
| ThemeProvider.SetTheme | apps/web/src/components/tweakcn-theme-provider.tsx:85-88 | `setTheme` adopts the mode and stores its name under the storage key. It keeps the resolved theme consistent with the mode. |
| ThemeProvider.SetThemeSurvivesReload | apps/web/src/components/tweakcn-theme-provider.tsx:58-88 | A mode set with `setTheme` is the mode of the next mount. |
| ThemeProvider.SystemPreferenceChanged | apps/web/src/components/tweakcn-theme-provider.tsx:71-83 | The listener reacts only in "system" mode with system following enabled. There it re-resolves and re-applies; otherwise nothing changes. |
| ThemeProvider.PreferenceChangeKeepsConsistency | apps/web/src/components/tweakcn-theme-provider.tsx:65-83 | Outside "system" mode with following disabled, a change of system preference keeps the resolved theme consistent and shown. |
| ThemeProvider.DisabledSystemFollowingGoesStale | apps/web/src/components/tweakcn-theme-provider.tsx:65-83 | With `enableSystem` off, "system" mode still resolves from the system preference, but a later change of that preference is not followed. |
| ThemeProvider.UseTheme | apps/web/src/components/tweakcn-theme-provider.tsx:16-22 | Outside a provider the hook fails with "useTheme must be used within a ThemeProvider"; inside it returns the context. |
| ThemeProvider.ContextOf | apps/web/src/components/tweakcn-theme-provider.tsx:90-94 | The context carries the provider's mode and resolved theme. |
| ThemeCss.Blocks | apps/web/src/components/tweakcn-theme-provider.tsx:152-161 | The sheet has three blocks when the theme record is present and two otherwise. The last two are the light `:root` block and the `.dark` block, and a present theme block comes first. |
| ThemeCss.ThemeBlockOnlyWhenPresent | apps/web/src/components/tweakcn-theme-provider.tsx:152-163 | The theme `:root` block is emitted exactly when the record is present. The sheet is the blocks separated by one blank line. |
| ThemeCss.GenerateThemeCss | apps/web/src/components/tweakcn-theme-provider.tsx:143-164 | The sheet is the lines of its blocks joined by newlines: each block's selector line, its declarations and `}`, with one empty line between consecutive blocks. |
| ThemeCss.GeneratedSheetLines | apps/web/src/components/tweakcn-theme-provider.tsx:143-164 | Take keys and values without line breaks. Read line by line, the sheet is each block's selector line, one line per variable (a single empty line for an empty record) and `}`. Consecutive blocks are separated by exactly one empty line. |
| TokenClient.SetAuth | apps/web/src/lib/token-client.ts:4-6 | After `setAuth(t)`, `getToken` returns `t`. |
| TokenClient.FreshHasNoToken | apps/web/src/lib/token-client.ts:2 | A new client's token is null. |
| TokenClient.LastSetWins | apps/web/src/lib/token-client.ts:4-10 | After any sequence of `setAuth` calls the token is the last one set, or unchanged when there were none. |
| TokenClient.SetAuthNullClears | apps/web/src/lib/token-client.ts:4-6 | `setAuth(null)` clears the token, whatever was set before. |
| TokenClient.GetTokenRoundTrip | apps/web/src/lib/token-client.ts:4-10 | `getToken` returns what `setAuth` stored, and storing what `getToken` returned leaves the client as it is. |

## Behaviour of the effects worth knowing

The scenario lemmas above exhibit each of these.

- A deselection with an unchanged list is overridden by an auto-select when the persisted organization was valid from the first load, because the org flag then never fired (`DeselectionOverriddenWhenFlagNeverFired`).
- A refetched list without the selected organization leaves the stale id in place. Only a pass through a loading or empty list re-arms the flag, and then the new first organization is picked (`RemovedOrganizationReplacedOnlyAfterReload`).
- A set-active request is issued only when the organization id or the remote id changes. A failed request is therefore not retried while both ids stay the same (`SyncIssuedOnceUntilDependenciesChange`).
- The team flag is reset in the effect declared after the team effect. So switching to an organization whose team list is already loaded, while the team flag is still fired, selects no team (`CachedTeamsAfterSwitchNotAutoSelected`).

## Left out

- `localStorage` persistence of the workspace record and of the favourites atom: the record and the list are plain values.
- Query hooks: the remote auth client and react-query supply the organization, team and active-organization inputs, which are parameters.
- The session user and the `AuthBoundary` redirect: they pass through the provider unchanged.
- Object identity: value equality stands in for `Object.is` when comparing effect dependency arrays. A refetch returning an equal list is treated as unchanged.
- `WorkspaceProvider.Step`: the user's setters run between commits (events of a session), not inside one. Effects read the ids rendered in that commit.
- JavaScript `toLowerCase`/`toUpperCase` beyond ASCII: `Text.Lower` and `Text.Upper` map only `A-Z`/`a-z`. Other characters are kept as they are. This covers `Squash`, `NormalizeSlug` and `GetInitials`.
- `GetInitials` works on UTF-16 code units in the source; the model takes characters.
- ModelFiltering.FuzzyMatch and ModelFiltering.Scan: lengths and indexing are in characters, not UTF-16 code units, so a character outside the Basic Multilingual Plane counts once. The query "😀x" against the target "😀ax" matches in the source, where the query has three code units, but not in the model, where it has two characters.
- ModelFiltering.GroupFavoritesPartition: `Object.entries` lists integer-like keys (such as "42") first, in ascending numeric order, before the other keys in insertion order. The model promises first-seen order for every author. Authors named like `Object.prototype` members (`"constructor"`, `"__proto__"`) make `groups[author]` misbehave and are not modelled either.
- ModelFiltering.Authors and ModelFiltering.FilteredModels: they take the label cache as a parameter, as the source memoises it separately. The lemmas that build the cache from the same groups relate them to `GetProviderLabel`.
- `AgentConnection`: the websocket connection and its `setAgent` call. The agent instance is an opaque handle.
- AgentRegistry.RegisterIn: sets are unordered in the model. JavaScript `Set` iteration order, which only orders the rendered connections, is not kept.
- Server rendering: the `typeof window`/`typeof document` guards are left out, because the effects run only in the browser.
- `useTweakCNThemes` and the `<style>` element: storing, parsing and inserting the TweakCN theme (`JSON.parse`, DOM insertion and removal). Only the style-sheet text (`generateThemeCSS`) is modelled. `lib/tweakcn.ts` is not part of this model; the shape of `cssVars` is taken from its use in the serialiser.
- ThemeCss.GeneratedSheetLines: the line-by-line reading needs keys and values without line breaks. `Blocks` and `ThemeBlockOnlyWhenPresent` hold without that restriction.
- Prop changes of the theme provider (`storageKey`, `attribute`, `enableSystem` during its life): the props are fixed for a session.
- WorkspaceProvider.TeamAutoSelectAtMostOncePerArming: the bound assumes the previous commit already rendered the current organization. Right after an organization switch the team effect may write a team and the later effect then re-arms the flag, so a second auto-select can follow.
- ThemeProvider.Mount: the two passes of the resolving effect are collapsed into their final state. A first-frame flash of the default mode is visible only in between.

## Findings

| source | as written | input that shows it | evidently intended | confidence | as-written member | corrected member |
|---|---|---|---|---|---|---|
| apps/web/src/hooks/auth/organization/utils.ts:14-15 | `ROLE_HIERARCHY[name] ?? 0` indexes an object literal. Names inherited from `Object.prototype` (`"constructor"`, `"toString"`, `"__proto__"`, ...) yield a function or object, not `undefined`, so they escape the 0 default. The `>` comparison with NaN is then false. | `canManageRole("owner", "constructor")` is false | every string outside the hierarchy ranks 0, so an owner manages it | not executed | OrganizationUtils.CanManageRoleAsWritten | OrganizationUtils.CanManageRole |
