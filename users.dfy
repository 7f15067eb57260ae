/** Users: the per-kind planner and the listing `migrate_users` prints (it sends nothing). */
module Users {
  import opened Wrappers
  import opened Text
  import opened Resources
  import opened SwimlaneMigrator
  import opened Planner

  /**
   * `get_users_to_migrate`: users are matched on their lower-cased user names
   * against the first such destination entry; an entry that looks like its
   * counterpart is left out, and Delete is never planned.
   */
  method UsersToMigrate(sourceUsers: Result<seq<User>, ClientError>, destinationUsers: Result<seq<User>, ClientError>,
                         looksLike: (User, User) -> bool)
    returns (r: Result<seq<MigrationPlan<User>>, MigratorError>)
    ensures sourceUsers.Failure? ==> r == Failure(SwimlaneError(sourceUsers.error))
    ensures sourceUsers.Success? && destinationUsers.Failure? ==> r == Failure(SwimlaneError(destinationUsers.error))
    ensures sourceUsers.Success? && destinationUsers.Success? ==>
      r == Success(Upserts(sourceUsers.value, destinationUsers.value, SameUserName, looksLike))
    ensures r.Success? ==> |r.value| <= |sourceUsers.value| && forall e | e in r.value :: !e.Delete?
    ensures r.Success? ==> forall e | e in r.value && e.Create? ::
      forall d | d in destinationUsers.value :: Lower(d.userName) != Lower(e.sourceResource.userName)
    ensures r.Success? ==> forall e | e in r.value && e.Update? ::
      e.destinationResource in destinationUsers.value &&
      Lower(e.destinationResource.userName) == Lower(e.sourceResource.userName) &&
      !looksLike(e.sourceResource, e.destinationResource)
    ensures r.Success? ==> forall e | e in r.value && e.Update? ::
      && FirstCounterpart(destinationUsers.value, e.sourceResource, SameUserName).Some?
      && e.destinationResource == destinationUsers.value[FirstCounterpart(destinationUsers.value, e.sourceResource, SameUserName).value]
    ensures r.Success? ==> forall i | 0 <= i < |sourceUsers.value| ::
      var first := FirstCounterpart(destinationUsers.value, sourceUsers.value[i], SameUserName);
      && (first.None? ==> Create(sourceUsers.value[i]) in r.value)
      && (first.Some? && !looksLike(sourceUsers.value[i], destinationUsers.value[first.value]) ==>
            Update(sourceUsers.value[i], destinationUsers.value[first.value]) in r.value)
      && (first.Some? && looksLike(sourceUsers.value[i], destinationUsers.value[first.value]) ==>
            forall e | e in r.value :: e.Delete? || e.sourceResource != sourceUsers.value[i])
  {
    r := UpsertsToMigrate(sourceUsers, destinationUsers, SameUserName, looksLike);
  }

  function UserName(u: User): string {
    u.userName
  }

  /**
   * `migrate_users`: the plan is computed and listed under a heading, one
   * line per entry; no request is sent to the destination.
   */
  method MigrateUsers(sourceUsers: Result<seq<User>, ClientError>, destinationUsers: Result<seq<User>, ClientError>,
                      looksLike: (User, User) -> bool)
    returns (result: Result<(), MigratorError>, listing: seq<string>)
    ensures sourceUsers.Failure? ==> result == Failure(SwimlaneError(sourceUsers.error)) && listing == []
    ensures sourceUsers.Success? && destinationUsers.Failure? ==>
      result == Failure(SwimlaneError(destinationUsers.error)) && listing == []
    ensures sourceUsers.Success? && destinationUsers.Success? ==>
      result == Success(()) &&
      listing == ["Users to migrate:"] + Listed(Upserts(sourceUsers.value, destinationUsers.value, SameUserName, looksLike), UserName)
    ensures result.Success? ==> 1 <= |listing| <= 1 + |sourceUsers.value|
  {
    listing := [];
    var plan := UsersToMigrate(sourceUsers, destinationUsers, looksLike);
    if plan.Failure? {
      return Failure(plan.error), listing;
    }
    var lines := ListPlan(plan.value, UserName);
    ListedWithoutDeletes(plan.value, UserName);
    listing := ["Users to migrate:"] + lines;
    result := Success(());
  }
}
