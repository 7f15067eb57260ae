/**
 * The generic planner (`get_resources_to_migrate`) and the id translation
 * tables (`get_*_id_hashmap`) of the migrator.
 */
module Planner {
  import opened Wrappers
  import opened Text
  import opened Resources
  import opened SwimlaneMigrator

  /**
   * `destination.iter().find(|d| same(d, s))`: the position of the first
   * destination item that is the same resource as `s`.
   */
  function FirstCounterpart<T>(destination: seq<T>, s: T, same: (T, T) -> bool): (r: Option<nat>)
    ensures r.Some? ==> r.value < |destination| && same(destination[r.value], s)
    ensures r.Some? ==> forall j | 0 <= j < r.value :: !same(destination[j], s)
    ensures r.None? <==> forall j | 0 <= j < |destination| :: !same(destination[j], s)
  {
    if destination == [] then None
    else if same(destination[0], s) then Some(0)
    else
      match FirstCounterpart(destination[1..], s, same)
      case None => None
      case Some(k) => Some(k + 1)
  }

  /**
   * The entry one source item contributes: Create when the destination has no
   * counterpart, nothing when the first counterpart looks like it, and
   * otherwise Update against that first counterpart.
   */
  function EntryFor<T>(s: T, destination: seq<T>, same: (T, T) -> bool, looksLike: (T, T) -> bool)
    : (r: seq<MigrationPlan<T>>)
    ensures |r| <= 1
  {
    match FirstCounterpart(destination, s, same)
    case None => [Create(s)]
    case Some(j) => if looksLike(s, destination[j]) then [] else [Update(s, destination[j])]
  }

  /**
   * What a source item's entry means: Create exactly when the destination has
   * no counterpart; nothing exactly when the first counterpart looks like the
   * source item; never a Delete; and an Update only against the first
   * counterpart, which then does not look like the source item.
   */
  lemma EntryForMeaning<T>(s: T, destination: seq<T>, same: (T, T) -> bool, looksLike: (T, T) -> bool)
    ensures var r := EntryFor(s, destination, same, looksLike);
      var first := FirstCounterpart(destination, s, same);
      && ((r != [] && r[0].Create?) <==> forall j | 0 <= j < |destination| :: !same(destination[j], s))
      && (r == [] <==> first.Some? && looksLike(s, destination[first.value]))
      && (forall e | e in r :: !e.Delete? && e.sourceResource == s)
      && (forall e | e in r && e.Update? ::
            && first.Some? && e.destinationResource == destination[first.value]
            && same(e.destinationResource, s) && !looksLike(s, e.destinationResource))
  {
  }

  /** The first loop: the entries of the source items, in source order. */
  function Upserts<T>(source: seq<T>, destination: seq<T>, same: (T, T) -> bool, looksLike: (T, T) -> bool)
    : (r: seq<MigrationPlan<T>>)
    ensures |r| <= |source|
  {
    if source == [] then []
    else Upserts(source[..|source| - 1], destination, same, looksLike) + EntryFor(source[|source| - 1], destination, same, looksLike)
  }

  /** `source.iter().any(|s| same(s, d))`. */
  predicate Claimed<T>(source: seq<T>, d: T, same: (T, T) -> bool) {
    exists i :: 0 <= i < |source| && same(source[i], d)
  }

  /** The second loop: a Delete for each destination item no source item claims, in destination order. */
  function Deletes<T>(source: seq<T>, destination: seq<T>, same: (T, T) -> bool): (r: seq<MigrationPlan<T>>)
    ensures |r| <= |destination|
  {
    if destination == [] then []
    else
      var d := destination[|destination| - 1];
      Deletes(source, destination[..|destination| - 1], same) + if Claimed(source, d, same) then [] else [Delete(d)]
  }

  /** The whole plan: every Create and Update first, then every Delete. */
  function Plan<T>(source: seq<T>, destination: seq<T>, same: (T, T) -> bool, looksLike: (T, T) -> bool)
    : (r: seq<MigrationPlan<T>>)
    ensures |r| <= |source| + |destination|
  {
    Upserts(source, destination, same, looksLike) + Deletes(source, destination, same)
  }

  /** One more source item appends its own entry. */
  lemma UpsertsSnoc<T>(source: seq<T>, x: T, destination: seq<T>, same: (T, T) -> bool, looksLike: (T, T) -> bool)
    ensures Upserts(source + [x], destination, same, looksLike) ==
      Upserts(source, destination, same, looksLike) + EntryFor(x, destination, same, looksLike)
  {
    assert (source + [x])[..|source|] == source;
  }

  /**
   * The first loop emits no Delete, and each entry it emits is the entry of
   * one of the source items; every source item's entry is emitted.
   */
  lemma {:induction false} UpsertsEntries<T>(source: seq<T>, destination: seq<T>, same: (T, T) -> bool, looksLike: (T, T) -> bool)
    ensures forall e | e in Upserts(source, destination, same, looksLike) ::
      !e.Delete? && e.sourceResource in source && e in EntryFor(e.sourceResource, destination, same, looksLike)
    ensures forall i, e | 0 <= i < |source| && e in EntryFor(source[i], destination, same, looksLike) ::
      e in Upserts(source, destination, same, looksLike)
  {
    if source != [] {
      var prefix := source[..|source| - 1];
      UpsertsEntries(prefix, destination, same, looksLike);
      assert forall i | 0 <= i < |prefix| :: prefix[i] == source[i];
    }
  }

  /**
   * Every entry of the first loop, read back: never a Delete; a Create only
   * when no destination item is its counterpart; an Update only against the
   * first counterpart in the destination, which does not look like the source
   * item.
   */
  lemma UpsertsMeaning<T>(source: seq<T>, destination: seq<T>, same: (T, T) -> bool, looksLike: (T, T) -> bool)
    ensures forall e | e in Upserts(source, destination, same, looksLike) ::
      && !e.Delete? && e.sourceResource in source
      && (e.Create? ==> forall d | d in destination :: !same(d, e.sourceResource))
      && (e.Update? ==> e.destinationResource in destination && same(e.destinationResource, e.sourceResource) &&
                        !looksLike(e.sourceResource, e.destinationResource))
      && (e.Update? ==> FirstCounterpart(destination, e.sourceResource, same).Some? &&
                        e.destinationResource == destination[FirstCounterpart(destination, e.sourceResource, same).value])
  {
    UpsertsEntries(source, destination, same, looksLike);
    forall e | e in Upserts(source, destination, same, looksLike)
      ensures e.Create? ==> forall d | d in destination :: !same(d, e.sourceResource)
      ensures e.Update? ==> e.destinationResource in destination && same(e.destinationResource, e.sourceResource) &&
                            !looksLike(e.sourceResource, e.destinationResource)
      ensures e.Update? ==> FirstCounterpart(destination, e.sourceResource, same).Some? &&
                            e.destinationResource == destination[FirstCounterpart(destination, e.sourceResource, same).value]
    {
      EntryForMeaning(e.sourceResource, destination, same, looksLike);
      if e.Create? {
        forall d | d in destination ensures !same(d, e.sourceResource) {
          var j :| 0 <= j < |destination| && destination[j] == d;
        }
      }
    }
  }

  /**
   * Every source item is handled by the first loop: Create when the
   * destination has no counterpart, Update against the first counterpart when
   * that one does not look like it, and no entry at all when it does.
   */
  lemma UpsertsCover<T>(source: seq<T>, destination: seq<T>, same: (T, T) -> bool, looksLike: (T, T) -> bool)
    ensures forall i | 0 <= i < |source| ::
      var first := FirstCounterpart(destination, source[i], same);
      var ups := Upserts(source, destination, same, looksLike);
      && (first.None? ==> Create(source[i]) in ups)
      && (first.Some? && !looksLike(source[i], destination[first.value]) ==>
            Update(source[i], destination[first.value]) in ups)
      && (first.Some? && looksLike(source[i], destination[first.value]) ==>
            forall e | e in ups :: e.Delete? || e.sourceResource != source[i])
  {
    UpsertsEntries(source, destination, same, looksLike);
  }

  /**
   * The second loop emits exactly one Delete for each destination item that
   * no source item claims, and nothing else.
   */
  lemma {:induction false} DeletesEntries<T>(source: seq<T>, destination: seq<T>, same: (T, T) -> bool)
    ensures forall e | e in Deletes(source, destination, same) ::
      e.Delete? && e.destinationResource in destination && !Claimed(source, e.destinationResource, same)
    ensures forall j | 0 <= j < |destination| && !Claimed(source, destination[j], same) ::
      Delete(destination[j]) in Deletes(source, destination, same)
  {
    if destination != [] {
      var prefix := destination[..|destination| - 1];
      DeletesEntries(source, prefix, same);
      assert forall j | 0 <= j < |prefix| :: prefix[j] == destination[j];
    }
  }

  /**
   * The second loop keeps destination order: the Deletes for a destination
   * list split in two are those of the first part followed by those of the
   * second, so each unclaimed item, repeated or not, gets its own Delete in
   * its own position.
   */
  lemma {:induction false} DeletesAppend<T>(source: seq<T>, first: seq<T>, second: seq<T>, same: (T, T) -> bool)
    ensures Deletes(source, first + second, same) == Deletes(source, first, same) + Deletes(source, second, same)
    decreases |second|
  {
    if second == [] {
      assert first + second == first;
    } else {
      var prefix := second[..|second| - 1];
      DeletesAppend(source, first, prefix, same);
      assert (first + second)[..|first + second| - 1] == first + prefix;
    }
  }

  /** In the whole plan every Create and Update comes before every Delete. */
  lemma PlanOrder<T>(source: seq<T>, destination: seq<T>, same: (T, T) -> bool, looksLike: (T, T) -> bool)
    ensures var p := Plan(source, destination, same, looksLike);
      forall i, j | 0 <= i < j < |p| :: p[i].Delete? ==> p[j].Delete?
  {
    var ups := Upserts(source, destination, same, looksLike);
    var dels := Deletes(source, destination, same);
    UpsertsEntries(source, destination, same, looksLike);
    DeletesEntries(source, destination, same);
    var p := ups + dels;
    forall i, j | 0 <= i < j < |p| && p[i].Delete? ensures p[j].Delete? {
      if i >= |ups| {
        assert p[j] in dels;
      }
    }
  }

  /**
   * The plan is empty exactly when every source item has a counterpart that
   * looks like it and every destination item is claimed by some source item.
   */
  lemma PlanEmptyIff<T>(source: seq<T>, destination: seq<T>, same: (T, T) -> bool, looksLike: (T, T) -> bool)
    ensures Plan(source, destination, same, looksLike) == [] <==>
      (forall i | 0 <= i < |source| :: EntryFor(source[i], destination, same, looksLike) == []) &&
      (forall j | 0 <= j < |destination| :: Claimed(source, destination[j], same))
  {
    UpsertsEmptyIff(source, destination, same, looksLike);
    DeletesEmptyIff(source, destination, same);
  }

  /** The first loop emits nothing exactly when no source item needs an entry. */
  lemma UpsertsEmptyIff<T>(source: seq<T>, destination: seq<T>, same: (T, T) -> bool, looksLike: (T, T) -> bool)
    ensures Upserts(source, destination, same, looksLike) == [] <==>
      forall i | 0 <= i < |source| :: EntryFor(source[i], destination, same, looksLike) == []
  {
    UpsertsEntries(source, destination, same, looksLike);
    var ups := Upserts(source, destination, same, looksLike);
    if ups != [] {
      var e := ups[0];
      assert e in ups;
      var i :| 0 <= i < |source| && source[i] == e.sourceResource;
    } else {
      forall i | 0 <= i < |source| ensures EntryFor(source[i], destination, same, looksLike) == [] {
        HeadIsMember(EntryFor(source[i], destination, same, looksLike));
      }
    }
  }


  /** A non-empty sequence holds its first element. */
  lemma HeadIsMember<U>(s: seq<U>)
    ensures s == [] || s[0] in s
  {
  }

  /** The second loop emits nothing exactly when every destination item is claimed. */
  lemma DeletesEmptyIff<T>(source: seq<T>, destination: seq<T>, same: (T, T) -> bool)
    ensures Deletes(source, destination, same) == [] <==>
      forall j | 0 <= j < |destination| :: Claimed(source, destination[j], same)
  {
    DeletesEntries(source, destination, same);
    var dels := Deletes(source, destination, same);
    if dels != [] {
      assert dels[0] in dels;
    }
  }

  method PlanUpserts<T>(source: seq<T>, destination: seq<T>, same: (T, T) -> bool, looksLike: (T, T) -> bool)
    returns (plan: seq<MigrationPlan<T>>)
    ensures plan == Upserts(source, destination, same, looksLike)
  {
    plan := [];
    var i := 0;
    while i < |source|
      invariant 0 <= i <= |source|
      invariant plan == Upserts(source[..i], destination, same, looksLike)
    {
      assert source[..i + 1] == source[..i] + [source[i]];
      UpsertsSnoc(source[..i], source[i], destination, same, looksLike);
      var found := FirstCounterpart(destination, source[i], same);
      if found.Some? {
        if looksLike(source[i], destination[found.value]) {
          i := i + 1;
          continue;
        }
        plan := plan + [Update(source[i], destination[found.value])];
      } else {
        plan := plan + [Create(source[i])];
      }
      i := i + 1;
    }
    assert source[..|source|] == source;
  }

  /** The second loop of `get_resources_to_migrate`. */
  method PlanDeletes<T>(plan0: seq<MigrationPlan<T>>, source: seq<T>, destination: seq<T>, same: (T, T) -> bool)
    returns (plan: seq<MigrationPlan<T>>)
    ensures plan == plan0 + Deletes(source, destination, same)
  {
    plan := plan0;
    var j := 0;
    while j < |destination|
      invariant 0 <= j <= |destination|
      invariant plan == plan0 + Deletes(source, destination[..j], same)
    {
      assert destination[..j + 1][..j] == destination[..j];
      if !Claimed(source, destination[j], same) {
        plan := plan + [Delete(destination[j])];
      }
      j := j + 1;
    }
    assert destination[..|destination|] == destination;
  }

  /**
   * `get_resources_to_migrate`: the source list is awaited first, then the
   * destination list; the first failure is returned and no plan is built.
   */
  method ResourcesToMigrate<T>(sourceFetch: Result<seq<T>, ClientError>, destinationFetch: Result<seq<T>, ClientError>,
                               same: (T, T) -> bool, looksLike: (T, T) -> bool)
    returns (r: Result<seq<MigrationPlan<T>>, MigratorError>)
    ensures sourceFetch.Failure? ==> r == Failure(SwimlaneError(sourceFetch.error))
    ensures sourceFetch.Success? && destinationFetch.Failure? ==> r == Failure(SwimlaneError(destinationFetch.error))
    ensures sourceFetch.Success? && destinationFetch.Success? ==>
      r == Success(Plan(sourceFetch.value, destinationFetch.value, same, looksLike))
  {
    if sourceFetch.Failure? {
      return Failure(SwimlaneError(sourceFetch.error));
    }
    if destinationFetch.Failure? {
      return Failure(SwimlaneError(destinationFetch.error));
    }
    var source, destination := sourceFetch.value, destinationFetch.value;
    var plan := PlanUpserts(source, destination, same, looksLike);
    plan := PlanDeletes(plan, source, destination, same);
    r := Success(plan);
  }

  /** Some destination item is the same resource as `s`. */
  predicate HasCounterpart<T>(destination: seq<T>, s: T, same: (T, T) -> bool) {
    exists j :: 0 <= j < |destination| && same(destination[j], s)
  }

  /**
   * The id table: for each source item, in order, that has a counterpart, its
   * id is mapped to the id of its first counterpart; a later source item with
   * the same id overwrites.
   */
  function IdTable<T>(source: seq<T>, destination: seq<T>, same: (T, T) -> bool, id: T -> string): map<string, string> {
    if source == [] then map[]
    else
      var s := source[|source| - 1];
      var table := IdTable(source[..|source| - 1], destination, same, id);
      match FirstCounterpart(destination, s, same)
      case None => table
      case Some(j) => table[id(s) := id(destination[j])]
  }

  /** An id is a key exactly when some source item with that id has a counterpart. */
  lemma {:induction false} IdTableKeys<T>(source: seq<T>, destination: seq<T>, same: (T, T) -> bool, id: T -> string)
    ensures forall k :: k in IdTable(source, destination, same, id) <==>
      exists i :: 0 <= i < |source| && id(source[i]) == k && HasCounterpart(destination, source[i], same)
  {
    if source != [] {
      var prefix := source[..|source| - 1];
      IdTableKeys(prefix, destination, same, id);
      assert forall i | 0 <= i < |prefix| :: prefix[i] == source[i];
    }
  }

  /** Every value is the id of a destination item. */
  lemma {:induction false} IdTableValues<T>(source: seq<T>, destination: seq<T>, same: (T, T) -> bool, id: T -> string)
    ensures forall k | k in IdTable(source, destination, same, id) ::
      exists j :: 0 <= j < |destination| && IdTable(source, destination, same, id)[k] == id(destination[j])
  {
    if source != [] {
      IdTableValues(source[..|source| - 1], destination, same, id);
    }
  }

  /**
   * When no later source item shares its id, a matched source item maps to the
   * id of its first counterpart in destination order.
   */
  lemma {:induction false} IdTableFirstMatch<T>(source: seq<T>, destination: seq<T>, same: (T, T) -> bool, id: T -> string, i: nat)
    requires i < |source|
    requires forall k | i < k < |source| :: id(source[k]) != id(source[i])
    requires FirstCounterpart(destination, source[i], same).Some?
    ensures id(source[i]) in IdTable(source, destination, same, id)
    ensures IdTable(source, destination, same, id)[id(source[i])] ==
      id(destination[FirstCounterpart(destination, source[i], same).value])
  {
    if i < |source| - 1 {
      var prefix := source[..|source| - 1];
      assert prefix[i] == source[i];
      IdTableFirstMatch(prefix, destination, same, id, i);
    }
  }

  /** The loop of a `get_*_id_hashmap`. */
  method BuildIdTable<T>(source: seq<T>, destination: seq<T>, same: (T, T) -> bool, id: T -> string)
    returns (table: map<string, string>)
    ensures table == IdTable(source, destination, same, id)
  {
    table := map[];
    var i := 0;
    while i < |source|
      invariant 0 <= i <= |source|
      invariant table == IdTable(source[..i], destination, same, id)
    {
      assert source[..i + 1][..i] == source[..i];
      var found := FirstCounterpart(destination, source[i], same);
      if found.Some? {
        table := table[id(source[i]) := id(destination[found.value])];
      }
      i := i + 1;
    }
    assert source[..|source|] == source;
  }

  /** A `get_*_id_hashmap`: both lists are awaited, source first, then the table is built. */
  method IdTableOf<T>(sourceFetch: Result<seq<T>, ClientError>, destinationFetch: Result<seq<T>, ClientError>,
                      same: (T, T) -> bool, id: T -> string)
    returns (r: Result<map<string, string>, MigratorError>)
    ensures sourceFetch.Failure? ==> r == Failure(SwimlaneError(sourceFetch.error))
    ensures sourceFetch.Success? && destinationFetch.Failure? ==> r == Failure(SwimlaneError(destinationFetch.error))
    ensures sourceFetch.Success? && destinationFetch.Success? ==>
      r == Success(IdTable(sourceFetch.value, destinationFetch.value, same, id))
  {
    if sourceFetch.Failure? {
      return Failure(SwimlaneError(sourceFetch.error));
    }
    if destinationFetch.Failure? {
      return Failure(SwimlaneError(destinationFetch.error));
    }
    var table := BuildIdTable(sourceFetch.value, destinationFetch.value, same, id);
    r := Success(table);
  }

  /** Groups, roles, tasks and applications are matched on their lower-cased names. */
  predicate SameGroupName(d: Group, s: Group) {
    Lower(d.name) == Lower(s.name)
  }

  /** Users are matched on their lower-cased user names. */
  predicate SameUserName(d: User, s: User) {
    Lower(d.userName) == Lower(s.userName)
  }

  predicate SameRoleName(d: Role, s: Role) {
    Lower(d.name) == Lower(s.name)
  }

  predicate SameTaskName(d: LightTask, s: LightTask) {
    Lower(d.name) == Lower(s.name)
  }

  predicate SameApplicationName(d: LightApplication, s: LightApplication) {
    Lower(d.name) == Lower(s.name)
  }

  function GroupId(g: Group): string { g.id }
  function UserId(u: User): string { u.id }
  function RoleId(r: Role): string { r.id }
  function TaskId(t: LightTask): string { t.id }
  function ApplicationId(a: LightApplication): string { a.id }

  /** `get_group_id_hashmap`. */
  method GroupIdTable(sourceGroups: Result<seq<Group>, ClientError>, destinationGroups: Result<seq<Group>, ClientError>)
    returns (r: Result<map<string, string>, MigratorError>)
    ensures sourceGroups.Failure? ==> r == Failure(SwimlaneError(sourceGroups.error))
    ensures sourceGroups.Success? && destinationGroups.Failure? ==> r == Failure(SwimlaneError(destinationGroups.error))
    ensures sourceGroups.Success? && destinationGroups.Success? ==>
      r == Success(IdTable(sourceGroups.value, destinationGroups.value, SameGroupName, GroupId))
    ensures r.Success? ==> forall k :: k in r.value <==>
      exists i :: 0 <= i < |sourceGroups.value| && sourceGroups.value[i].id == k &&
        exists j :: 0 <= j < |destinationGroups.value| && Lower(destinationGroups.value[j].name) == Lower(sourceGroups.value[i].name)
  {
    r := IdTableOf(sourceGroups, destinationGroups, SameGroupName, GroupId);
    if r.Success? {
      IdTableKeys(sourceGroups.value, destinationGroups.value, SameGroupName, GroupId);
    }
  }

  /** `get_user_id_hashmap`. */
  method UserIdTable(sourceUsers: Result<seq<User>, ClientError>, destinationUsers: Result<seq<User>, ClientError>)
    returns (r: Result<map<string, string>, MigratorError>)
    ensures sourceUsers.Failure? ==> r == Failure(SwimlaneError(sourceUsers.error))
    ensures sourceUsers.Success? && destinationUsers.Failure? ==> r == Failure(SwimlaneError(destinationUsers.error))
    ensures sourceUsers.Success? && destinationUsers.Success? ==>
      r == Success(IdTable(sourceUsers.value, destinationUsers.value, SameUserName, UserId))
    ensures r.Success? ==> forall k :: k in r.value <==>
      exists i :: 0 <= i < |sourceUsers.value| && sourceUsers.value[i].id == k &&
        exists j :: 0 <= j < |destinationUsers.value| && Lower(destinationUsers.value[j].userName) == Lower(sourceUsers.value[i].userName)
  {
    r := IdTableOf(sourceUsers, destinationUsers, SameUserName, UserId);
    if r.Success? {
      IdTableKeys(sourceUsers.value, destinationUsers.value, SameUserName, UserId);
    }
  }

  /** `get_role_id_hashmap`. */
  method RoleIdTable(sourceRoles: Result<seq<Role>, ClientError>, destinationRoles: Result<seq<Role>, ClientError>)
    returns (r: Result<map<string, string>, MigratorError>)
    ensures sourceRoles.Failure? ==> r == Failure(SwimlaneError(sourceRoles.error))
    ensures sourceRoles.Success? && destinationRoles.Failure? ==> r == Failure(SwimlaneError(destinationRoles.error))
    ensures sourceRoles.Success? && destinationRoles.Success? ==>
      r == Success(IdTable(sourceRoles.value, destinationRoles.value, SameRoleName, RoleId))
    ensures r.Success? ==> forall k :: k in r.value <==>
      exists i :: 0 <= i < |sourceRoles.value| && sourceRoles.value[i].id == k &&
        exists j :: 0 <= j < |destinationRoles.value| && Lower(destinationRoles.value[j].name) == Lower(sourceRoles.value[i].name)
  {
    r := IdTableOf(sourceRoles, destinationRoles, SameRoleName, RoleId);
    if r.Success? {
      IdTableKeys(sourceRoles.value, destinationRoles.value, SameRoleName, RoleId);
    }
  }

  /** `get_task_hashmap`. */
  method TaskIdTable(sourceTasks: Result<seq<LightTask>, ClientError>, destinationTasks: Result<seq<LightTask>, ClientError>)
    returns (r: Result<map<string, string>, MigratorError>)
    ensures sourceTasks.Failure? ==> r == Failure(SwimlaneError(sourceTasks.error))
    ensures sourceTasks.Success? && destinationTasks.Failure? ==> r == Failure(SwimlaneError(destinationTasks.error))
    ensures sourceTasks.Success? && destinationTasks.Success? ==>
      r == Success(IdTable(sourceTasks.value, destinationTasks.value, SameTaskName, TaskId))
    ensures r.Success? ==> forall k :: k in r.value <==>
      exists i :: 0 <= i < |sourceTasks.value| && sourceTasks.value[i].id == k &&
        exists j :: 0 <= j < |destinationTasks.value| && Lower(destinationTasks.value[j].name) == Lower(sourceTasks.value[i].name)
  {
    r := IdTableOf(sourceTasks, destinationTasks, SameTaskName, TaskId);
    if r.Success? {
      IdTableKeys(sourceTasks.value, destinationTasks.value, SameTaskName, TaskId);
    }
  }

  /** `get_application_hashmap`. */
  method ApplicationIdTable(sourceApplications: Result<seq<LightApplication>, ClientError>, destinationApplications: Result<seq<LightApplication>, ClientError>)
    returns (r: Result<map<string, string>, MigratorError>)
    ensures sourceApplications.Failure? ==> r == Failure(SwimlaneError(sourceApplications.error))
    ensures sourceApplications.Success? && destinationApplications.Failure? ==> r == Failure(SwimlaneError(destinationApplications.error))
    ensures sourceApplications.Success? && destinationApplications.Success? ==>
      r == Success(IdTable(sourceApplications.value, destinationApplications.value, SameApplicationName, ApplicationId))
    ensures r.Success? ==> forall k :: k in r.value <==>
      exists i :: 0 <= i < |sourceApplications.value| && sourceApplications.value[i].id == k &&
        exists j :: 0 <= j < |destinationApplications.value| && Lower(destinationApplications.value[j].name) == Lower(sourceApplications.value[i].name)
  {
    r := IdTableOf(sourceApplications, destinationApplications, SameApplicationName, ApplicationId);
    if r.Success? {
      IdTableKeys(sourceApplications.value, destinationApplications.value, SameApplicationName, ApplicationId);
    }
  }

  /**
   * The lines the migrate commands print for a plan: one per Create and per
   * Update, none for a Delete.
   */
  function Listed<T>(plan: seq<MigrationPlan<T>>, name: T -> string): seq<string> {
    if plan == [] then []
    else
      Listed(plan[..|plan| - 1], name) +
      match plan[|plan| - 1]
      case Create(s) => ["  " + name(s) + " (create)"]
      case Update(s, d) => ["  " + name(s) + " (update) - " + name(d)]
      case Delete(_) => []
  }

  /** A plan without Delete entries prints exactly one line per entry. */
  lemma {:induction false} ListedWithoutDeletes<T>(plan: seq<MigrationPlan<T>>, name: T -> string)
    requires forall e | e in plan :: !e.Delete?
    ensures |Listed(plan, name)| == |plan|
  {
    if plan != [] {
      var prefix := plan[..|plan| - 1];
      assert forall e | e in prefix :: e in plan;
      assert plan[|plan| - 1] in plan;
      ListedWithoutDeletes(prefix, name);
    }
  }

  /** The print loop shared by the migrate commands. */
  method ListPlan<T>(plan: seq<MigrationPlan<T>>, name: T -> string) returns (lines: seq<string>)
    ensures lines == Listed(plan, name)
  {
    lines := [];
    var i := 0;
    while i < |plan|
      invariant 0 <= i <= |plan|
      invariant lines == Listed(plan[..i], name)
    {
      assert plan[..i + 1][..i] == plan[..i];
      match plan[i] {
        case Create(s) =>
          lines := lines + ["  " + name(s) + " (create)"];
        case Update(s, d) =>
          lines := lines + ["  " + name(s) + " (update) - " + name(d)];
        case Delete(_) =>
      }
      i := i + 1;
    }
    assert plan[..|plan|] == plan;
  }

  /**
   * The shared shape of `get_groups_to_migrate`, `get_users_to_migrate` and
   * `get_roles_to_migrate`: both lists are awaited, source first, and only
   * the first loop of the planner runs, so no Delete is ever planned.
   */
  method UpsertsToMigrate<T>(sourceFetch: Result<seq<T>, ClientError>, destinationFetch: Result<seq<T>, ClientError>,
                             same: (T, T) -> bool, looksLike: (T, T) -> bool)
    returns (r: Result<seq<MigrationPlan<T>>, MigratorError>)
    ensures sourceFetch.Failure? ==> r == Failure(SwimlaneError(sourceFetch.error))
    ensures sourceFetch.Success? && destinationFetch.Failure? ==> r == Failure(SwimlaneError(destinationFetch.error))
    ensures sourceFetch.Success? && destinationFetch.Success? ==>
      r == Success(Upserts(sourceFetch.value, destinationFetch.value, same, looksLike))
    ensures r.Success? ==> |r.value| <= |sourceFetch.value|
    ensures r.Success? ==> forall e | e in r.value ::
      && !e.Delete? && e.sourceResource in sourceFetch.value
      && (e.Create? ==> forall d | d in destinationFetch.value :: !same(d, e.sourceResource))
      && (e.Update? ==> e.destinationResource in destinationFetch.value && same(e.destinationResource, e.sourceResource) &&
                        !looksLike(e.sourceResource, e.destinationResource))
      && (e.Update? ==>
            && FirstCounterpart(destinationFetch.value, e.sourceResource, same).Some?
            && e.destinationResource == destinationFetch.value[FirstCounterpart(destinationFetch.value, e.sourceResource, same).value])
    ensures r.Success? ==> forall i | 0 <= i < |sourceFetch.value| ::
      var first := FirstCounterpart(destinationFetch.value, sourceFetch.value[i], same);
      && (first.None? ==> Create(sourceFetch.value[i]) in r.value)
      && (first.Some? && !looksLike(sourceFetch.value[i], destinationFetch.value[first.value]) ==>
            Update(sourceFetch.value[i], destinationFetch.value[first.value]) in r.value)
      && (first.Some? && looksLike(sourceFetch.value[i], destinationFetch.value[first.value]) ==>
            forall e | e in r.value :: e.Delete? || e.sourceResource != sourceFetch.value[i])
  {
    if sourceFetch.Failure? {
      return Failure(SwimlaneError(sourceFetch.error));
    }
    if destinationFetch.Failure? {
      return Failure(SwimlaneError(destinationFetch.error));
    }
    var plan := PlanUpserts(sourceFetch.value, destinationFetch.value, same, looksLike);
    UpsertsMeaning(sourceFetch.value, destinationFetch.value, same, looksLike);
    UpsertsCover(sourceFetch.value, destinationFetch.value, same, looksLike);
    r := Success(plan);
  }
}
