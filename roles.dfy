/** Roles: the per-kind planner (`migrate_roles` itself is not implemented). */
module Roles {
  import opened Wrappers
  import opened Text
  import opened Resources
  import opened SwimlaneMigrator
  import opened Planner

  /**
   * `get_roles_to_migrate`: roles are matched on their lower-cased names
   * against the first such destination entry; an entry that looks like its
   * counterpart is left out, and Delete is never planned.
   */
  method RolesToMigrate(sourceRoles: Result<seq<Role>, ClientError>, destinationRoles: Result<seq<Role>, ClientError>,
                         looksLike: (Role, Role) -> bool)
    returns (r: Result<seq<MigrationPlan<Role>>, MigratorError>)
    ensures sourceRoles.Failure? ==> r == Failure(SwimlaneError(sourceRoles.error))
    ensures sourceRoles.Success? && destinationRoles.Failure? ==> r == Failure(SwimlaneError(destinationRoles.error))
    ensures sourceRoles.Success? && destinationRoles.Success? ==>
      r == Success(Upserts(sourceRoles.value, destinationRoles.value, SameRoleName, looksLike))
    ensures r.Success? ==> |r.value| <= |sourceRoles.value| && forall e | e in r.value :: !e.Delete?
    ensures r.Success? ==> forall e | e in r.value && e.Create? ::
      forall d | d in destinationRoles.value :: Lower(d.name) != Lower(e.sourceResource.name)
    ensures r.Success? ==> forall e | e in r.value && e.Update? ::
      e.destinationResource in destinationRoles.value &&
      Lower(e.destinationResource.name) == Lower(e.sourceResource.name) &&
      !looksLike(e.sourceResource, e.destinationResource)
    ensures r.Success? ==> forall e | e in r.value && e.Update? ::
      && FirstCounterpart(destinationRoles.value, e.sourceResource, SameRoleName).Some?
      && e.destinationResource == destinationRoles.value[FirstCounterpart(destinationRoles.value, e.sourceResource, SameRoleName).value]
    ensures r.Success? ==> forall i | 0 <= i < |sourceRoles.value| ::
      var first := FirstCounterpart(destinationRoles.value, sourceRoles.value[i], SameRoleName);
      && (first.None? ==> Create(sourceRoles.value[i]) in r.value)
      && (first.Some? && !looksLike(sourceRoles.value[i], destinationRoles.value[first.value]) ==>
            Update(sourceRoles.value[i], destinationRoles.value[first.value]) in r.value)
      && (first.Some? && looksLike(sourceRoles.value[i], destinationRoles.value[first.value]) ==>
            forall e | e in r.value :: e.Delete? || e.sourceResource != sourceRoles.value[i])
  {
    r := UpsertsToMigrate(sourceRoles, destinationRoles, SameRoleName, looksLike);
  }
}
