/** Applications: what the migrator compares and how it plans them (`migrate_apps` is not implemented). */
module Apps {
  import opened Wrappers
  import opened Resources
  import opened Equality
  import opened SwimlaneMigrator
  import opened Planner

  /**
   * `Application::differences`: `name`, `disabled`, `description` (optional
   * arm) and `time_tracking_enabled`, each reported once when it differs, in
   * that order; current values come from `app`, new ones from `other`.
   */
  function AppDifferences(app: Application, other: Application): (r: seq<Difference>)
    ensures r == [] <==>
      app.name == other.name && app.disabled == other.disabled &&
      app.description == other.description && app.timeTrackingEnabled == other.timeTrackingEnabled
    ensures |r| <= 4 && forall d | d in r :: d.UpdatingField?
    ensures |r| ==
      (if app.name != other.name then 1 else 0) + (if app.disabled != other.disabled then 1 else 0) +
      (if app.description != other.description then 1 else 0) +
      (if app.timeTrackingEnabled != other.timeTrackingEnabled then 1 else 0)
    ensures app.name != other.name ==> r[0] == UpdatingField("name", app.name, other.name)
    ensures app.disabled != other.disabled ==>
      r[if app.name != other.name then 1 else 0] == UpdatingField("disabled", FlagText(app.disabled), FlagText(other.disabled))
    ensures app.description != other.description ==>
      r[(if app.name != other.name then 1 else 0) + (if app.disabled != other.disabled then 1 else 0)] ==
      UpdatingField("description", OptionText(app.description), OptionText(other.description))
    ensures app.timeTrackingEnabled != other.timeTrackingEnabled ==>
      r[|r| - 1] == UpdatingField("time_tracking_enabled", FlagText(app.timeTrackingEnabled), FlagText(other.timeTrackingEnabled))
  {
    var name := FieldDiff("name", app.name, other.name, Verbatim);
    var disabled := FieldDiff("disabled", app.disabled, other.disabled, FlagText);
    var description := OptionalFieldDiff("description", app.description, other.description);
    var timeTracking := FieldDiff("time_tracking_enabled", app.timeTrackingEnabled, other.timeTrackingEnabled, FlagText);
    name + disabled + description + timeTracking
  }

  /** Each of the four compared fields is reported exactly when it differs, and no other field is. */
  lemma AppDifferencesReportChangedFields(app: Application, other: Application, field: string)
    ensures Reports(AppDifferences(app, other), field) <==>
      || (field == "name" && app.name != other.name)
      || (field == "disabled" && app.disabled != other.disabled)
      || (field == "description" && app.description != other.description)
      || (field == "time_tracking_enabled" && app.timeTrackingEnabled != other.timeTrackingEnabled)
  {
    var name := FieldDiff("name", app.name, other.name, Verbatim);
    var disabled := FieldDiff("disabled", app.disabled, other.disabled, FlagText);
    var description := FieldDiff("description", app.description, other.description, OptionText);
    var timeTracking := FieldDiff("time_tracking_enabled", app.timeTrackingEnabled, other.timeTrackingEnabled, FlagText);
    assert AppDifferences(app, other) == name + disabled + description + timeTracking;
    ReportsConcat(name, disabled, field);
    ReportsConcat(name + disabled, description, field);
    ReportsConcat(name + disabled + description, timeTracking, field);
    FieldDiffReports("name", app.name, other.name, Verbatim, field);
    FieldDiffReports("disabled", app.disabled, other.disabled, FlagText, field);
    FieldDiffReports("description", app.description, other.description, OptionText, field);
    FieldDiffReports("time_tracking_enabled", app.timeTrackingEnabled, other.timeTrackingEnabled, FlagText, field);
  }

  /** The four pushes of `Application::differences`. */
  method CollectAppDifferences(app: Application, other: Application) returns (differences: seq<Difference>)
    ensures differences == AppDifferences(app, other)
  {
    differences := [];
    if app.name != other.name {
      differences := differences + [UpdatingField("name", app.name, other.name)];
    }
    ghost var expected := FieldDiff("name", app.name, other.name, Verbatim);
    assert differences == expected;
    if app.disabled != other.disabled {
      differences := differences + [UpdatingField("disabled", FlagText(app.disabled), FlagText(other.disabled))];
    }
    expected := expected + FieldDiff("disabled", app.disabled, other.disabled, FlagText);
    assert differences == expected;
    if app.description != other.description {
      differences := differences +
        [UpdatingField("description", OptionText(app.description), OptionText(other.description))];
    }
    expected := expected + OptionalFieldDiff("description", app.description, other.description);
    assert differences == expected;
    if app.timeTrackingEnabled != other.timeTrackingEnabled {
      differences := differences +
        [UpdatingField("time_tracking_enabled", FlagText(app.timeTrackingEnabled), FlagText(other.timeTrackingEnabled))];
    }
    expected := expected + FieldDiff("time_tracking_enabled", app.timeTrackingEnabled, other.timeTrackingEnabled, FlagText);
    assert differences == expected;
  }

  /** `Application::is_same_resource`: exact, case-sensitive name equality. */
  predicate IsSameApp(app: Application, other: Application) {
    app.name == other.name
  }

  /** Applications keep the default `looks_like`: no differences at all. */
  predicate AppLooksLike(app: Application, other: Application) {
    DefaultLooksLike(app, other, AppDifferences)
  }

  /**
   * The comparison ignores the application's schema: two applications that
   * agree on name, disabled, description and time tracking compare the same,
   * whatever their id, acronym, tracking field, layout, fields, workspaces,
   * create-workspace flag, permissions, uid and version.
   */
  lemma AppSchemaIgnored(app: Application, changed: Application, other: Application)
    requires changed.name == app.name && changed.disabled == app.disabled
    requires changed.description == app.description && changed.timeTrackingEnabled == app.timeTrackingEnabled
    ensures AppDifferences(changed, other) == AppDifferences(app, other)
    ensures AppDifferences(other, changed) == AppDifferences(other, app)
    ensures AppLooksLike(changed, other) == AppLooksLike(app, other)
  {
  }


  /**
   * `get_apps_to_migrate`: the generic planner over exact names, so apps the
   * source lacks are planned for deletion after every Create and Update.
   */
  method AppsToMigrate(sourceApps: Result<seq<Application>, ClientError>,
                       destinationApps: Result<seq<Application>, ClientError>)
    returns (r: Result<seq<MigrationPlan<Application>>, MigratorError>)
    ensures sourceApps.Failure? ==> r == Failure(SwimlaneError(sourceApps.error))
    ensures sourceApps.Success? && destinationApps.Failure? ==> r == Failure(SwimlaneError(destinationApps.error))
    ensures sourceApps.Success? && destinationApps.Success? ==>
      r == Success(Plan(sourceApps.value, destinationApps.value, IsSameApp, AppLooksLike))
    ensures r.Success? ==> forall e | e in r.value && e.Create? ::
      forall d | d in destinationApps.value :: d.name != e.sourceResource.name
    ensures r.Success? ==> forall e | e in r.value && e.Update? ::
      e.destinationResource in destinationApps.value && e.destinationResource.name == e.sourceResource.name &&
      AppDifferences(e.sourceResource, e.destinationResource) != []
    ensures r.Success? ==> forall e | e in r.value && e.Delete? ::
      e.destinationResource in destinationApps.value &&
      forall s | s in sourceApps.value :: s.name != e.destinationResource.name
    ensures r.Success? ==> forall e | e in r.value && e.Update? ::
      && FirstCounterpart(destinationApps.value, e.sourceResource, IsSameApp).Some?
      && e.destinationResource == destinationApps.value[FirstCounterpart(destinationApps.value, e.sourceResource, IsSameApp).value]
    ensures r.Success? ==> forall i | 0 <= i < |sourceApps.value| ::
      var first := FirstCounterpart(destinationApps.value, sourceApps.value[i], IsSameApp);
      && (first.None? ==> Create(sourceApps.value[i]) in r.value)
      && (first.Some? && AppDifferences(sourceApps.value[i], destinationApps.value[first.value]) != [] ==>
            Update(sourceApps.value[i], destinationApps.value[first.value]) in r.value)
      && (first.Some? && AppDifferences(sourceApps.value[i], destinationApps.value[first.value]) == [] ==>
            forall e | e in r.value :: e.Delete? || e.sourceResource != sourceApps.value[i])
    ensures r.Success? ==> forall j | 0 <= j < |destinationApps.value| ::
      (forall s | s in sourceApps.value :: s.name != destinationApps.value[j].name) ==>
        Delete(destinationApps.value[j]) in r.value
  {
    r := ResourcesToMigrate(sourceApps, destinationApps, IsSameApp, AppLooksLike);
    if r.Success? {
      AppPlanEntries(sourceApps.value, destinationApps.value);
      AppPlanCover(sourceApps.value, destinationApps.value);
    }
  }

  /** Each entry of the application plan, read back against the two lists. */
  lemma AppPlanEntries(source: seq<Application>, destination: seq<Application>)
    ensures forall e | e in Plan(source, destination, IsSameApp, AppLooksLike) ::
      && (e.Create? ==> forall d | d in destination :: d.name != e.sourceResource.name)
      && (e.Update? ==>
            && e.destinationResource in destination && e.destinationResource.name == e.sourceResource.name
            && AppDifferences(e.sourceResource, e.destinationResource) != []
            && FirstCounterpart(destination, e.sourceResource, IsSameApp).Some?
            && e.destinationResource == destination[FirstCounterpart(destination, e.sourceResource, IsSameApp).value])
      && (e.Delete? ==>
            e.destinationResource in destination && forall s | s in source :: s.name != e.destinationResource.name)
  {
    UpsertsMeaning(source, destination, IsSameApp, AppLooksLike);
    DeletesEntries(source, destination, IsSameApp);
    forall e | e in Plan(source, destination, IsSameApp, AppLooksLike)
      ensures e in Upserts(source, destination, IsSameApp, AppLooksLike) || e in Deletes(source, destination, IsSameApp)
    {
    }
  }

  /**
   * Every application is handled by the plan: each source application by
   * Create, by Update against its first same-named destination application or
   * by nothing when that one has no differences; each destination application
   * no source application names by Delete.
   */
  lemma AppPlanCover(source: seq<Application>, destination: seq<Application>)
    ensures forall i | 0 <= i < |source| ::
      var first := FirstCounterpart(destination, source[i], IsSameApp);
      var p := Plan(source, destination, IsSameApp, AppLooksLike);
      && (first.None? ==> Create(source[i]) in p)
      && (first.Some? && AppDifferences(source[i], destination[first.value]) != [] ==>
            Update(source[i], destination[first.value]) in p)
      && (first.Some? && AppDifferences(source[i], destination[first.value]) == [] ==>
            forall e | e in p :: e.Delete? || e.sourceResource != source[i])
    ensures forall j | 0 <= j < |destination| ::
      (forall s | s in source :: s.name != destination[j].name) ==>
        Delete(destination[j]) in Plan(source, destination, IsSameApp, AppLooksLike)
  {
    UpsertsCover(source, destination, IsSameApp, AppLooksLike);
    DeletesEntries(source, destination, IsSameApp);
    forall j | 0 <= j < |destination| && (forall s | s in source :: s.name != destination[j].name)
      ensures !Claimed(source, destination[j], IsSameApp)
    {
    }
  }

  /** An application only the destination has is planned for deletion. */
  lemma DestinationOnlyAppDeleted(app: Application)
    ensures Plan([], [app], IsSameApp, AppLooksLike) == [Delete(app)]
  {
    assert !Claimed([], app, IsSameApp);
    assert [app][..0] == [];
  }
}
