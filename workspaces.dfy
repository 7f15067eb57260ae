/** Workspaces: what the migrator compares (planning and migrating them are not implemented). */
module Workspaces {
  import opened Wrappers
  import opened Resources
  import opened Equality

  /**
   * `Workspace::differences`: `name`, `description` (optional arm) and
   * `disabled`, in that order; the application and dashboard lists are not
   * compared.
   */
  function WorkspaceDifferences(workspace: Workspace, other: Workspace): (r: seq<Difference>)
    ensures r == [] <==>
      workspace.name == other.name && workspace.description == other.description && workspace.disabled == other.disabled
    ensures |r| <= 3 && forall d | d in r :: d.UpdatingField?
    ensures |r| ==
      (if workspace.name != other.name then 1 else 0) + (if workspace.description != other.description then 1 else 0) +
      (if workspace.disabled != other.disabled then 1 else 0)
    ensures workspace.name != other.name ==> r[0] == UpdatingField("name", workspace.name, other.name)
    ensures workspace.description != other.description ==>
      r[if workspace.name != other.name then 1 else 0] ==
      UpdatingField("description", OptionText(workspace.description), OptionText(other.description))
    ensures workspace.disabled != other.disabled ==>
      r[|r| - 1] == UpdatingField("disabled", FlagText(workspace.disabled), FlagText(other.disabled))
  {
    var name := FieldDiff("name", workspace.name, other.name, Verbatim);
    var description := OptionalFieldDiff("description", workspace.description, other.description);
    var disabled := FieldDiff("disabled", workspace.disabled, other.disabled, FlagText);
    name + description + disabled
  }

  /** Each of the three compared fields is reported exactly when it differs, and no other field is. */
  lemma WorkspaceDifferencesReportChangedFields(workspace: Workspace, other: Workspace, field: string)
    ensures Reports(WorkspaceDifferences(workspace, other), field) <==>
      || (field == "name" && workspace.name != other.name)
      || (field == "description" && workspace.description != other.description)
      || (field == "disabled" && workspace.disabled != other.disabled)
  {
    var name := FieldDiff("name", workspace.name, other.name, Verbatim);
    var description := FieldDiff("description", workspace.description, other.description, OptionText);
    var disabled := FieldDiff("disabled", workspace.disabled, other.disabled, FlagText);
    ReportsConcat(name, description, field);
    ReportsConcat(name + description, disabled, field);
    FieldDiffReports("name", workspace.name, other.name, Verbatim, field);
    FieldDiffReports("description", workspace.description, other.description, OptionText, field);
    FieldDiffReports("disabled", workspace.disabled, other.disabled, FlagText, field);
  }

  /** The three pushes of `Workspace::differences`. */
  method CollectWorkspaceDifferences(workspace: Workspace, other: Workspace) returns (differences: seq<Difference>)
    ensures differences == WorkspaceDifferences(workspace, other)
  {
    differences := [];
    if workspace.name != other.name {
      differences := differences + [UpdatingField("name", workspace.name, other.name)];
    }
    ghost var expected := FieldDiff("name", workspace.name, other.name, Verbatim);
    assert differences == expected;
    if workspace.description != other.description {
      differences := differences +
        [UpdatingField("description", OptionText(workspace.description), OptionText(other.description))];
    }
    expected := expected + OptionalFieldDiff("description", workspace.description, other.description);
    assert differences == expected;
    if workspace.disabled != other.disabled {
      differences := differences + [UpdatingField("disabled", FlagText(workspace.disabled), FlagText(other.disabled))];
    }
    expected := expected + FieldDiff("disabled", workspace.disabled, other.disabled, FlagText);
    assert differences == expected;
  }

  /** `Workspace::is_same_resource`: exact, case-sensitive name equality. */
  predicate IsSameWorkspace(workspace: Workspace, other: Workspace) {
    workspace.name == other.name
  }

  /** Workspaces keep the default `looks_like`: no differences at all. */
  predicate WorkspaceLooksLike(workspace: Workspace, other: Workspace) {
    DefaultLooksLike(workspace, other, WorkspaceDifferences)
  }

  /**
   * Two workspaces that differ only in the applications and dashboards they
   * hold look alike: the id lists are not compared.
   */
  lemma WorkspaceContentsIgnored(workspace: Workspace, applications: seq<string>, dashboards: seq<string>)
    ensures WorkspaceLooksLike(workspace, workspace.(applications := applications, dashboards := dashboards))
    ensures IsSameWorkspace(workspace, workspace.(applications := applications, dashboards := dashboards))
  {
  }
}
