/**
 * Groups: the per-kind planner (`get_groups_to_migrate`) and the creation of
 * missing groups with their nested references translated (`migrate_groups`).
 */
module Groups {
  import opened Wrappers
  import opened Text
  import opened Resources
  import opened SwimlaneMigrator
  import opened Planner

  /**
   * `get_groups_to_migrate`: groups are matched on their lower-cased names
   * against the first such destination entry; an entry that looks like its
   * counterpart is left out, and Delete is never planned.
   */
  method GroupsToMigrate(sourceGroups: Result<seq<Group>, ClientError>, destinationGroups: Result<seq<Group>, ClientError>,
                         looksLike: (Group, Group) -> bool)
    returns (r: Result<seq<MigrationPlan<Group>>, MigratorError>)
    ensures sourceGroups.Failure? ==> r == Failure(SwimlaneError(sourceGroups.error))
    ensures sourceGroups.Success? && destinationGroups.Failure? ==> r == Failure(SwimlaneError(destinationGroups.error))
    ensures sourceGroups.Success? && destinationGroups.Success? ==>
      r == Success(Upserts(sourceGroups.value, destinationGroups.value, SameGroupName, looksLike))
    ensures r.Success? ==> |r.value| <= |sourceGroups.value| && forall e | e in r.value :: !e.Delete?
    ensures r.Success? ==> forall e | e in r.value && e.Create? ::
      forall d | d in destinationGroups.value :: Lower(d.name) != Lower(e.sourceResource.name)
    ensures r.Success? ==> forall e | e in r.value && e.Update? ::
      e.destinationResource in destinationGroups.value &&
      Lower(e.destinationResource.name) == Lower(e.sourceResource.name) &&
      !looksLike(e.sourceResource, e.destinationResource)
    ensures r.Success? ==> forall e | e in r.value && e.Update? ::
      && FirstCounterpart(destinationGroups.value, e.sourceResource, SameGroupName).Some?
      && e.destinationResource == destinationGroups.value[FirstCounterpart(destinationGroups.value, e.sourceResource, SameGroupName).value]
    ensures r.Success? ==> forall i | 0 <= i < |sourceGroups.value| ::
      var first := FirstCounterpart(destinationGroups.value, sourceGroups.value[i], SameGroupName);
      && (first.None? ==> Create(sourceGroups.value[i]) in r.value)
      && (first.Some? && !looksLike(sourceGroups.value[i], destinationGroups.value[first.value]) ==>
            Update(sourceGroups.value[i], destinationGroups.value[first.value]) in r.value)
      && (first.Some? && looksLike(sourceGroups.value[i], destinationGroups.value[first.value]) ==>
            forall e | e in r.value :: e.Delete? || e.sourceResource != sourceGroups.value[i])
  {
    r := UpsertsToMigrate(sourceGroups, destinationGroups, SameGroupName, looksLike);
  }

  /** Every reference has a translation in the table. */
  predicate AllResolved(entities: seq<BaseEntity>, table: map<string, string>) {
    forall i | 0 <= i < |entities| :: entities[i].id in table
  }

  /** `translated` is `entities` with each id replaced by its translation; names and order are kept. */
  predicate Translated(entities: seq<BaseEntity>, table: map<string, string>, translated: seq<BaseEntity>) {
    && |translated| == |entities|
    && forall i | 0 <= i < |entities| ::
         entities[i].id in table && translated[i] == entities[i].(id := table[entities[i].id])
  }

  /**
   * One nested loop of `migrate_groups`: each reference's id is translated in
   * turn; the first reference without a translation stops the loop with its name.
   */
  function Rewrite(entities: seq<BaseEntity>, table: map<string, string>): Result<seq<BaseEntity>, string> {
    if entities == [] then Success([])
    else
      var e := entities[|entities| - 1];
      match Rewrite(entities[..|entities| - 1], table)
      case Failure(name) => Failure(name)
      case Success(done) =>
        if e.id in table then Success(done + [e.(id := table[e.id])]) else Failure(e.name)
  }

  /** The rewrite succeeds exactly when every reference resolves, and then translates each in place. */
  lemma {:induction false} RewriteSucceeds(entities: seq<BaseEntity>, table: map<string, string>)
    ensures Rewrite(entities, table).Success? <==> AllResolved(entities, table)
    ensures Rewrite(entities, table).Success? ==> Translated(entities, table, Rewrite(entities, table).value)
  {
    if entities != [] {
      var prefix := entities[..|entities| - 1];
      RewriteSucceeds(prefix, table);
      assert forall i | 0 <= i < |prefix| :: prefix[i] == entities[i];
    }
  }

  /** `name` is the name of the first reference in `entities` that `table` cannot translate. */
  predicate FirstUnresolved(entities: seq<BaseEntity>, table: map<string, string>, name: string) {
    exists i :: 0 <= i < |entities| && entities[i].id !in table && entities[i].name == name &&
      AllResolved(entities[..i], table)
  }

  /** A failure names the first reference without a translation. */
  lemma {:induction false} RewriteNamesFirstUnresolved(entities: seq<BaseEntity>, table: map<string, string>)
    requires Rewrite(entities, table).Failure?
    ensures FirstUnresolved(entities, table, Rewrite(entities, table).error)
  {
    var prefix := entities[..|entities| - 1];
    if Rewrite(prefix, table).Failure? {
      RewriteNamesFirstUnresolved(prefix, table);
      var i :| 0 <= i < |prefix| && prefix[i].id !in table && Rewrite(prefix, table).error == prefix[i].name &&
        AllResolved(prefix[..i], table);
      assert prefix[..i] == entities[..i];
    } else {
      RewriteSucceeds(prefix, table);
      assert entities[..|entities| - 1] == prefix;
    }
  }

  /** The nested loop itself, with its early return. */
  method ResolveNested(entities: seq<BaseEntity>, table: map<string, string>) returns (r: Result<seq<BaseEntity>, string>)
    ensures r == Rewrite(entities, table)
  {
    var nested := [];
    var i := 0;
    while i < |entities|
      invariant 0 <= i <= |entities|
      invariant Rewrite(entities[..i], table) == Success(nested)
    {
      assert entities[..i + 1][..i] == entities[..i];
      var e := entities[i];
      if e.id !in table {
        RewriteStops(entities, table, i + 1);
        return Failure(e.name);
      }
      nested := nested + [e.(id := table[e.id])];
      i := i + 1;
    }
    assert entities[..|entities|] == entities;
    r := Success(nested);
  }

  /** Once the rewrite has failed on a prefix, the remaining references are not looked at. */
  lemma {:induction false} RewriteStops(entities: seq<BaseEntity>, table: map<string, string>, n: nat)
    requires n <= |entities|
    requires Rewrite(entities[..n], table).Failure?
    ensures Rewrite(entities, table) == Rewrite(entities[..n], table)
    decreases |entities| - n
  {
    if n < |entities| {
      assert entities[..n + 1][..n] == entities[..n];
      RewriteStops(entities, table, n + 1);
    } else {
      assert entities[..n] == entities;
    }
  }

  /**
   * The group sent to the destination for a Create entry: nested groups are
   * translated first, then roles, then users; the first unresolved reference
   * fails with the Missing* error of its kind.
   */
  function AdaptForCreate(g: Group, groupTable: map<string, string>, roleTable: map<string, string>,
                          userTable: map<string, string>): (r: Result<Group, MigratorError>)
    ensures r.Success? <==>
      AllResolved(g.groups, groupTable) && AllResolved(g.roles, roleTable) && AllResolved(g.users, userTable)
    ensures r.Success? ==>
      && r.value.id == g.id && r.value.name == g.name && r.value.description == g.description
      && r.value.disabled == g.disabled
      && Translated(g.groups, groupTable, r.value.groups)
      && Translated(g.roles, roleTable, r.value.roles)
      && Translated(g.users, userTable, r.value.users)
    ensures r.Failure? ==> !r.error.SwimlaneError?
    ensures r.Failure? && r.error.MissingRole? ==> AllResolved(g.groups, groupTable)
    ensures r.Failure? && r.error.MissingUser? ==> AllResolved(g.groups, groupTable) && AllResolved(g.roles, roleTable)
    ensures !AllResolved(g.groups, groupTable) ==> r.Failure? && r.error.MissingGroup?
    ensures AllResolved(g.groups, groupTable) && !AllResolved(g.roles, roleTable) ==>
      r.Failure? && r.error.MissingRole?
    ensures AllResolved(g.groups, groupTable) && AllResolved(g.roles, roleTable) && !AllResolved(g.users, userTable) ==>
      r.Failure? && r.error.MissingUser?
    ensures r.Failure? && r.error.MissingGroup? ==> FirstUnresolved(g.groups, groupTable, r.error.groupName)
    ensures r.Failure? && r.error.MissingRole? ==> FirstUnresolved(g.roles, roleTable, r.error.roleName)
    ensures r.Failure? && r.error.MissingUser? ==> FirstUnresolved(g.users, userTable, r.error.userName)
  {
    RewriteSucceeds(g.groups, groupTable);
    RewriteSucceeds(g.roles, roleTable);
    RewriteSucceeds(g.users, userTable);
    match Rewrite(g.groups, groupTable)
    case Failure(name) =>
      RewriteNamesFirstUnresolved(g.groups, groupTable);
      Failure(MissingGroup(name))
    case Success(groups) =>
      match Rewrite(g.roles, roleTable)
      case Failure(name) =>
        RewriteNamesFirstUnresolved(g.roles, roleTable);
        Failure(MissingRole(name))
      case Success(roles) =>
        match Rewrite(g.users, userTable)
        case Failure(name) =>
          RewriteNamesFirstUnresolved(g.users, userTable);
          Failure(MissingUser(name))
        case Success(users) => Success(g.(groups := groups, roles := roles, users := users))
  }

  /** The body of the create loop up to the write: the three nested loops in order. */
  method PrepareCreate(g: Group, groupTable: map<string, string>, roleTable: map<string, string>,
                       userTable: map<string, string>)
    returns (r: Result<Group, MigratorError>)
    ensures r == AdaptForCreate(g, groupTable, roleTable, userTable)
  {
    var groupToCreate := g;
    var groups := ResolveNested(g.groups, groupTable);
    if groups.Failure? {
      return Failure(MissingGroup(groups.error));
    }
    groupToCreate := groupToCreate.(groups := groups.value);
    var roles := ResolveNested(g.roles, roleTable);
    if roles.Failure? {
      return Failure(MissingRole(roles.error));
    }
    groupToCreate := groupToCreate.(roles := roles.value);
    var users := ResolveNested(g.users, userTable);
    if users.Failure? {
      return Failure(MissingUser(users.error));
    }
    groupToCreate := groupToCreate.(users := users.value);
    r := Success(groupToCreate);
  }

  /** What the create loop leaves behind: its outcome and the create requests it issued, in order. */
  datatype CreateRun = CreateRun(result: Result<(), MigratorError>, requests: seq<Group>)

  /**
   * The create loop of `migrate_groups`: Update and Delete entries are skipped;
   * each Create entry is adapted and then sent with `create`, whose answer is
   * `None` on success. The first error ends the loop; requests already sent stay sent.
   */
  function ApplyCreates(plan: seq<MigrationPlan<Group>>, groupTable: map<string, string>, roleTable: map<string, string>,
                        userTable: map<string, string>, create: Group -> Option<ClientError>): CreateRun
  {
    if plan == [] then CreateRun(Success(()), [])
    else
      CreateStep(ApplyCreates(plan[..|plan| - 1], groupTable, roleTable, userTable, create), plan[|plan| - 1],
                 groupTable, roleTable, userTable, create)
  }

  /** One iteration of the create loop, after the iterations that produced `run`. */
  function CreateStep(run: CreateRun, entry: MigrationPlan<Group>, groupTable: map<string, string>,
                      roleTable: map<string, string>, userTable: map<string, string>,
                      create: Group -> Option<ClientError>): CreateRun
  {
    if run.result.Failure? then run
    else
      match entry
      case Create(g) =>
        (match AdaptForCreate(g, groupTable, roleTable, userTable)
         case Failure(e) => CreateRun(Failure(e), run.requests)
         case Success(adapted) =>
           match create(adapted)
           case Some(e) => CreateRun(Failure(SwimlaneError(e)), run.requests + [adapted])
           case None => CreateRun(Success(()), run.requests + [adapted]))
      case _ => run
  }

  /** The source groups of the Create entries, in plan order. */
  function CreateSources(plan: seq<MigrationPlan<Group>>): seq<Group> {
    if plan == [] then []
    else
      CreateSources(plan[..|plan| - 1]) +
      if plan[|plan| - 1].Create? then [plan[|plan| - 1].sourceResource] else []
  }

  /**
   * A successful run sent exactly one request per Create entry, in plan
   * order, each the adapted source group.
   */
  lemma {:induction false} SuccessfulRunCreatesEach(plan: seq<MigrationPlan<Group>>, groupTable: map<string, string>,
                                                    roleTable: map<string, string>, userTable: map<string, string>,
                                                    create: Group -> Option<ClientError>)
    requires ApplyCreates(plan, groupTable, roleTable, userTable, create).result.Success?
    ensures var requests := ApplyCreates(plan, groupTable, roleTable, userTable, create).requests;
      var sources := CreateSources(plan);
      |requests| == |sources| &&
      forall i | 0 <= i < |sources| :: AdaptForCreate(sources[i], groupTable, roleTable, userTable) == Success(requests[i])
  {
    if plan != [] {
      SuccessfulRunCreatesEach(plan[..|plan| - 1], groupTable, roleTable, userTable, create);
    }
  }

  /** Requests are only ever added: the requests sent for a prefix of the plan are a prefix of all requests. */
  lemma {:induction false} RequestsAreNeverUndone(plan: seq<MigrationPlan<Group>>, n: nat, groupTable: map<string, string>,
                                                  roleTable: map<string, string>, userTable: map<string, string>,
                                                  create: Group -> Option<ClientError>)
    requires n <= |plan|
    ensures ApplyCreates(plan[..n], groupTable, roleTable, userTable, create).requests <=
            ApplyCreates(plan, groupTable, roleTable, userTable, create).requests
    decreases |plan| - n
  {
    if n < |plan| {
      assert plan[..n + 1][..n] == plan[..n];
      RequestsAreNeverUndone(plan, n + 1, groupTable, roleTable, userTable, create);
      assert plan[..n + 1][n] == plan[n];
    } else {
      assert plan[..n] == plan;
    }
  }

  /** After the first error nothing else happens: later entries change neither the outcome nor the requests. */
  lemma {:induction false} ErrorAbortsRemainingCreates(plan: seq<MigrationPlan<Group>>, n: nat, groupTable: map<string, string>,
                                                       roleTable: map<string, string>, userTable: map<string, string>,
                                                       create: Group -> Option<ClientError>)
    requires n <= |plan|
    requires ApplyCreates(plan[..n], groupTable, roleTable, userTable, create).result.Failure?
    ensures ApplyCreates(plan, groupTable, roleTable, userTable, create) ==
            ApplyCreates(plan[..n], groupTable, roleTable, userTable, create)
    decreases |plan| - n
  {
    if n < |plan| {
      assert plan[..n + 1][..n] == plan[..n];
      ErrorAbortsRemainingCreates(plan, n + 1, groupTable, roleTable, userTable, create);
    } else {
      assert plan[..n] == plan;
    }
  }

  /** An Update entry causes no write: appending one changes nothing. */
  lemma UpdatesWriteNothing(plan: seq<MigrationPlan<Group>>, source: Group, destination: Group,
                            groupTable: map<string, string>, roleTable: map<string, string>, userTable: map<string, string>,
                            create: Group -> Option<ClientError>)
    ensures ApplyCreates(plan + [Update(source, destination)], groupTable, roleTable, userTable, create) ==
            ApplyCreates(plan, groupTable, roleTable, userTable, create)
  {
    assert (plan + [Update(source, destination)])[..|plan|] == plan;
  }

  /** The create loop as written: entry by entry, returning on the first error. */
  method RunCreates(plan: seq<MigrationPlan<Group>>, groupTable: map<string, string>, roleTable: map<string, string>,
                    userTable: map<string, string>, create: Group -> Option<ClientError>)
    returns (result: Result<(), MigratorError>, requests: seq<Group>)
    ensures CreateRun(result, requests) == ApplyCreates(plan, groupTable, roleTable, userTable, create)
  {
    requests := [];
    var i := 0;
    while i < |plan|
      invariant 0 <= i <= |plan|
      invariant ApplyCreates(plan[..i], groupTable, roleTable, userTable, create) == CreateRun(Success(()), requests)
    {
      assert plan[..i + 1][..i] == plan[..i];
      ghost var next := CreateStep(CreateRun(Success(()), requests), plan[i], groupTable, roleTable, userTable, create);
      assert ApplyCreates(plan[..i + 1], groupTable, roleTable, userTable, create) == next;
      if plan[i].Create? {
        var adapted := PrepareCreate(plan[i].sourceResource, groupTable, roleTable, userTable);
        if adapted.Failure? {
          assert next == CreateRun(Failure(adapted.error), requests);
          ErrorAbortsRemainingCreates(plan, i + 1, groupTable, roleTable, userTable, create);
          return Failure(adapted.error), requests;
        }
        requests := requests + [adapted.value];
        var answer := create(adapted.value);
        if answer.Some? {
          assert next == CreateRun(Failure(SwimlaneError(answer.value)), requests);
          ErrorAbortsRemainingCreates(plan, i + 1, groupTable, roleTable, userTable, create);
          return Failure(SwimlaneError(answer.value)), requests;
        }
      }
      i := i + 1;
    }
    assert plan[..|plan|] == plan;
    result := Success(());
  }

  function GroupName(g: Group): string {
    g.name
  }

  /**
   * `migrate_groups`: the plan and the three id tables are awaited in that
   * order (groups, then users, then roles); then the creates are sent; then
   * the Create and Update entries are listed.
   */
  method MigrateGroups(sourceGroups: Result<seq<Group>, ClientError>, destinationGroups: Result<seq<Group>, ClientError>,
                       sourceUsers: Result<seq<User>, ClientError>, destinationUsers: Result<seq<User>, ClientError>,
                       sourceRoles: Result<seq<Role>, ClientError>, destinationRoles: Result<seq<Role>, ClientError>,
                       looksLike: (Group, Group) -> bool, create: Group -> Option<ClientError>)
    returns (result: Result<(), MigratorError>, requests: seq<Group>, listing: seq<string>)
    ensures sourceGroups.Failure? ==> result == Failure(SwimlaneError(sourceGroups.error)) && requests == []
    ensures sourceGroups.Success? && destinationGroups.Failure? ==>
      result == Failure(SwimlaneError(destinationGroups.error)) && requests == []
    ensures sourceGroups.Success? && destinationGroups.Success? && sourceUsers.Failure? ==>
      result == Failure(SwimlaneError(sourceUsers.error)) && requests == []
    ensures sourceGroups.Success? && destinationGroups.Success? && sourceUsers.Success? && destinationUsers.Failure? ==>
      result == Failure(SwimlaneError(destinationUsers.error)) && requests == []
    ensures sourceGroups.Success? && destinationGroups.Success? && sourceUsers.Success? && destinationUsers.Success? &&
            sourceRoles.Failure? ==>
      result == Failure(SwimlaneError(sourceRoles.error)) && requests == []
    ensures sourceGroups.Success? && destinationGroups.Success? && sourceUsers.Success? && destinationUsers.Success? &&
            sourceRoles.Success? && destinationRoles.Failure? ==>
      result == Failure(SwimlaneError(destinationRoles.error)) && requests == []
    ensures sourceGroups.Success? && destinationGroups.Success? && sourceUsers.Success? && destinationUsers.Success? &&
            sourceRoles.Success? && destinationRoles.Success? ==>
      var plan := Upserts(sourceGroups.value, destinationGroups.value, SameGroupName, looksLike);
      var run := ApplyCreates(plan,
        IdTable(sourceGroups.value, destinationGroups.value, SameGroupName, GroupId),
        IdTable(sourceRoles.value, destinationRoles.value, SameRoleName, RoleId),
        IdTable(sourceUsers.value, destinationUsers.value, SameUserName, UserId), create);
      result == run.result && requests == run.requests &&
      listing == if run.result.Success? then Listed(plan, GroupName) else []
    ensures result.Failure? ==> listing == []
  {
    requests, listing := [], [];
    var plan := GroupsToMigrate(sourceGroups, destinationGroups, looksLike);
    if plan.Failure? {
      return Failure(plan.error), requests, listing;
    }
    var groupTable := GroupIdTable(sourceGroups, destinationGroups);
    var userTable := UserIdTable(sourceUsers, destinationUsers);
    if userTable.Failure? {
      return Failure(userTable.error), requests, listing;
    }
    var roleTable := RoleIdTable(sourceRoles, destinationRoles);
    if roleTable.Failure? {
      return Failure(roleTable.error), requests, listing;
    }
    result, requests := RunCreates(plan.value, groupTable.value, roleTable.value, userTable.value, create);
    if result.Failure? {
      return;
    }
    listing := ListPlan(plan.value, GroupName);
  }
}
