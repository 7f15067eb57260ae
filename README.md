# swimlane-cli reconciliation core, modelled in Dafny

This project models the reconciliation logic of `swimlane-cli`. That tool
copies groups, users, roles, applications and Python packages from a source
Swimlane server to a destination server. Everything below is a model of the
Rust sources under `crates/`. Nothing talks to a server.

Modules, one per source file:

- `Wrappers`: `Option` and `Result`.
- `Text`: the string operations the parsers and matchers rely on:
  - `to_lowercase`, modelled as ASCII lower-casing;
  - `trim`, over ASCII whitespace;
  - `split("==")`, proved to be undone by `Join`.
- `Resources`: the record shapes the client returns, such as `BaseEntity`,
  `Group`, `User`, `Role`, `Application`, `Workspace` and `LightTask`, plus
  the client error.
- `Equality` (`swimlane-migrator/src/equality.rs`):
  - `Difference` and how it is displayed;
  - the four arms of `push_difference!`;
  - the default `looks_like`;
  - the `BaseEntity` implementation.
- `SwimlaneMigrator` (`swimlane-migrator/src/lib.rs`): the migration plan,
  the errors, and the `new` guard.
- `Planner` (`swimlane-migrator/src/util.rs`):
  - the generic planner `get_resources_to_migrate`;
  - the five id-translation tables;
  - the listing that the migrate commands print.
- `Groups`, `Users`, `Roles`, `Apps`, `Workspaces`: the per-kind planners,
  and the group creation with nested references translated.
- `Requirements` (`swimlane/src/util.rs`): the requirements-file parser.
- `PackageVersion` (`swimlane-cli/src/util.rs`): `parse_package_version`.
- `Python` (`swimlane/src/python.rs`):
  - lower-casing of installed package names;
  - the install/update/skip classification;
  - the two request phases.
- `Tasks` (`swimlane/src/tasks.rs`): the two-way task name/id table.
- `Workflows` (`swimlane/src/workflows.rs`): the `EvalType` decoder and
  encoder.

Operations that loop in the source are methods with loop invariants. Each is
proved equal to a specification function. The properties are proved as
lemmas about those functions.

Server reads are inputs of type `Result<seq<T>, ClientError>`, one per server
and kind. A server write is either recorded as an output sequence of requests,
or answered by an input function (`create`).

## Model

| member | source | states |
|---|---|---|
| Text.TrimStart | crates/swimlane/src/util.rs:20 | the result is a suffix of the input, does not start with whitespace, and everything removed is whitespace |
| Text.TrimEnd | crates/swimlane/src/util.rs:20 | the result is a prefix of the input, does not end with whitespace, and everything removed is whitespace |
| Text.TrimUnpadded | crates/swimlane/src/util.rs:20 | a string without leading or trailing whitespace is its own trim |
| Text.LowerIsLower | crates/swimlane/src/python.rs:30-36 | lower-casing leaves no upper-case letter and is the identity on lower-case text |
| Text.Split | crates/swimlane/src/util.rs:29 | `split("==")` yields at least one part, and the first part is a prefix of the input |
| Text.JoinConsHead | crates/swimlane/src/util.rs:29 | a character glued onto the first part ends up at the front of the joined string |
| Text.JoinSplit | crates/swimlane/src/util.rs:29 | gluing the parts back with "==" gives the input: splitting loses nothing |
| Text.SplitPartsHaveNoSeparator | crates/swimlane/src/util.rs:29 | no part holds "==" |
| Text.SplitAfterPlain | crates/swimlane-cli/src/util.rs:19 | a leading stretch without '=' is glued onto the first part |
| Text.SplitAfterSeparator | crates/swimlane-cli/src/util.rs:19 | a leading "==" produces an empty first part |
| Text.SplitPlain | crates/swimlane-cli/src/util.rs:19 | a string without '=' is a single part |
| Equality.FieldDiff | crates/swimlane-migrator/src/equality.rs:28-36 | the scalar arm pushes exactly one `UpdatingField` exactly when the values differ, with current and new values in that order |
| Equality.OptionalFieldDiff | crates/swimlane-migrator/src/equality.rs:37-47 | the optional arm reports a difference exactly when the two options differ |
| Equality.ReportsConcat | crates/swimlane-migrator/src/equality.rs:27-101 | the pushes accumulate: a field is reported by a concatenation iff by one of its halves |
| Equality.FieldDiffReports | crates/swimlane-migrator/src/equality.rs:28-36 | the scalar arm reports its own field, and only when the values differ |
| Equality.MissingVersusEmpty | crates/swimlane-migrator/src/equality.rs:41-44 | `None` against `Some("")` is a difference, yet both values display as '' |
| Equality.RenderedNewValueFirst | crates/swimlane-migrator/src/equality.rs:106-110 | the display shows the new value before the current one |
| Equality.Render | crates/swimlane-migrator/src/equality.rs:103-122 | each rendering is longer than its field name; an added item starts with '+' and a removed one with '-', then the field; the other two start with the field |
| Equality.AddedAndRemovedRenderApart | crates/swimlane-migrator/src/equality.rs:111-116 | an added item displays with '+' and a removed item with '-', so they never display alike |
| Equality.Unmatched | crates/swimlane-migrator/src/equality.rs:49-60 | the filter keeps at most the items it is given |
| Equality.UnmatchedMembers | crates/swimlane-migrator/src/equality.rs:49-60 | an item is kept iff no item of the other list is the same resource |
| Equality.UnmatchedEmptyIff | crates/swimlane-migrator/src/equality.rs:49-60 | nothing is kept iff every item has a counterpart |
| Equality.AsAdded | crates/swimlane-migrator/src/equality.rs:55-58 | one `AddingItem` per kept item, in order, labelled with the item |
| Equality.AsRemoved | crates/swimlane-migrator/src/equality.rs:67-70 | one `RemovingItem` per kept item, in order, labelled with the item |
| Equality.CollectionDiff | crates/swimlane-migrator/src/equality.rs:48-73 | at most one entry per item of either list |
| Equality.CollectionDiffEmptyIff | crates/swimlane-migrator/src/equality.rs:48-73 | no entries iff each list's items all have counterparts in the other |
| Equality.AddedBeforeRemoved | crates/swimlane-migrator/src/equality.rs:49-72 | every added item comes before every removed item |
| Equality.UnmatchedLabels | crates/swimlane-migrator/src/equality.rs:48-73 | each added label belongs to a source item without a counterpart, and each removed label to such a target item |
| Equality.ShownUnmatched | crates/swimlane-migrator/src/equality.rs:57 | each kept item's label is the label of an input item without a counterpart |
| Equality.EntityCollectionDiff | crates/swimlane-migrator/src/equality.rs:48-73 | the entity arm labels by name; added names come from source entities no target entity shares a name with, and removed names the other way round |
| Equality.StringCollectionDiff | crates/swimlane-migrator/src/equality.rs:75-100 | the string arm adds strings of the source without a match in the target, and removes those of the target without a match in the source |
| Equality.ExtendCollection | crates/swimlane-migrator/src/equality.rs:48-73 | the two `extend` calls append exactly the collection entries |
| Equality.ExtendPass | crates/swimlane-migrator/src/equality.rs:49-72 | one `extend` pass appends, item by item and in order, the entry of each item with no counterpart among the others |
| Equality.AddingPass | crates/swimlane-migrator/src/equality.rs:49-60 | the first pass writes exactly an `AddingItem` for each unmatched source item, in order |
| Equality.RemovingPass | crates/swimlane-migrator/src/equality.rs:61-72 | the second pass writes exactly a `RemovingItem` for each unmatched target item, in order |
| Equality.Find | crates/swimlane-migrator/src/equality.rs:50-52 | the search succeeds iff some other item is the same resource |
| Equality.BaseEntityDifferences | crates/swimlane-migrator/src/equality.rs:212-229 | no differences iff name and disabled agree; exactly one difference per field that differs; the name comes first and disabled last |
| Equality.CollectBaseEntityDifferences | crates/swimlane-migrator/src/equality.rs:212-229 | the two pushes build exactly those differences |
| Equality.BaseEntityOverride | crates/swimlane-migrator/src/equality.rs:231-235 | the override looks alike iff the default rule does or only `disabled` differs; if only `disabled` differs, differences are reported while the entities still look alike |
| Equality.DefaultLooksLike | crates/swimlane-migrator/src/equality.rs:170-172 | definition: two values look alike when comparing them reports no differences |
| Equality.BaseEntityLooksLike | crates/swimlane-migrator/src/equality.rs:231-235 | definition: base entities look alike when their names are equal, whatever `disabled` holds |
| Equality.IsSameBaseEntity | crates/swimlane-migrator/src/equality.rs:237-239 | definition: base entities are the same resource when their names are equal, case-sensitively |
| SwimlaneMigrator.New | crates/swimlane-migrator/src/lib.rs:23-40 | construction fails with `SourceAndDestinationAreIdentical` iff both base URLs are equal, and otherwise stores its arguments |
| Planner.FirstCounterpart | crates/swimlane-migrator/src/util.rs:142-145 | `find` returns the first destination item that is the same resource, or none iff there is none |
| Planner.EntryFor | crates/swimlane-migrator/src/util.rs:141-157 | the first loop emits at most one entry per source item |
| Planner.EntryForMeaning | crates/swimlane-migrator/src/util.rs:141-157 | per source item: Create iff no counterpart; no entry iff the first counterpart looks alike; an Update is against the first counterpart, which does not look alike; never a Delete |
| Planner.Upserts | crates/swimlane-migrator/src/util.rs:141-157 | the first loop emits at most one entry per source item |
| Planner.Deletes | crates/swimlane-migrator/src/util.rs:159-168 | the second loop emits at most one entry per destination item |
| Planner.Plan | crates/swimlane-migrator/src/util.rs:127-171 | the plan has at most one entry per item on either side |
| Planner.UpsertsSnoc | crates/swimlane-migrator/src/util.rs:141-157 | one more source item appends exactly its own entry |
| Planner.UpsertsEntries | crates/swimlane-migrator/src/util.rs:141-157 | the first loop emits no Delete; each entry is its source item's entry, and every source item's entry is emitted |
| Planner.UpsertsMeaning | crates/swimlane-migrator/src/util.rs:141-157 | every upsert entry names a source item; a Create has no counterpart in the destination; an Update is against the first destination counterpart, which does not look alike; never a Delete |
| Planner.UpsertsCover | crates/swimlane-migrator/src/util.rs:141-157 | every source item is handled: Create without a counterpart, Update against the first counterpart when it does not look alike, and no entry at all when it does |
| Planner.DeletesEntries | crates/swimlane-migrator/src/util.rs:159-168 | a destination item is deleted iff no source item claims it |
| Planner.DeletesAppend | crates/swimlane-migrator/src/util.rs:159-168 | the Deletes of a destination list split in two are those of each part in order, so destination order and repeated items are kept |
| Planner.PlanOrder | crates/swimlane-migrator/src/util.rs:141-168 | every Delete comes after every Create and Update |
| Planner.PlanEmptyIff | crates/swimlane-migrator/src/util.rs:127-171 | the plan is empty iff every source item has a counterpart and its first counterpart looks alike, and every destination item is claimed |
| Planner.UpsertsEmptyIff | crates/swimlane-migrator/src/util.rs:141-157 | the first loop emits nothing iff no source item needs an entry |
| Planner.DeletesEmptyIff | crates/swimlane-migrator/src/util.rs:159-168 | the second loop emits nothing iff every destination item is claimed by a source item |
| Planner.PlanUpserts | crates/swimlane-migrator/src/util.rs:141-157 | the first loop builds exactly the upsert entries |
| Planner.PlanDeletes | crates/swimlane-migrator/src/util.rs:159-168 | the second loop appends exactly the delete entries |
| Planner.ResourcesToMigrate | crates/swimlane-migrator/src/util.rs:127-171 | the source fetch error wins, then the destination's; otherwise the result is the plan |
| Planner.IdTableKeys | crates/swimlane-migrator/src/util.rs:20-26 | an id is a key iff some source item with it has a counterpart |
| Planner.IdTable | crates/swimlane-migrator/src/util.rs:20-26 | definition of the id table: each source item in order with a counterpart maps its id to its first counterpart's id, later items overwriting |
| Planner.IdTableValues | crates/swimlane-migrator/src/util.rs:20-26 | every value is the id of a destination item |
| Planner.IdTableFirstMatch | crates/swimlane-migrator/src/util.rs:21-24 | when no later source item has the same id, the key maps to its first counterpart's id |
| Planner.BuildIdTable | crates/swimlane-migrator/src/util.rs:20-26 | the insert loop builds exactly the table |
| Planner.IdTableOf | crates/swimlane-migrator/src/util.rs:9-29 | fetch errors come first, source before destination; otherwise the result is the table |
| Planner.GroupIdTable | crates/swimlane-migrator/src/util.rs:9-29 | group table: fetch errors in order; keys are source group ids with a destination group of the same lower-cased name |
| Planner.UserIdTable | crates/swimlane-migrator/src/util.rs:32-52 | user table, matched on lower-cased user names |
| Planner.RoleIdTable | crates/swimlane-migrator/src/util.rs:55-75 | role table, matched on lower-cased names |
| Planner.TaskIdTable | crates/swimlane-migrator/src/util.rs:77-95 | task table, matched on lower-cased names |
| Planner.ApplicationIdTable | crates/swimlane-migrator/src/util.rs:97-125 | application table, matched on lower-cased names |
| Planner.ListedWithoutDeletes | crates/swimlane-migrator/src/groups.rs:96-118 | a plan without Delete prints one line per entry |
| Planner.ListPlan | crates/swimlane-migrator/src/groups.rs:96-118 | the print loop writes the "(create)" and "(update)" lines of the plan, in order |
| Planner.UpsertsToMigrate | crates/swimlane-migrator/src/groups.rs:5-35 | the shared shape of the group, user and role planners: fetch errors in order; otherwise the first loop only, so never a Delete; a Create only without a counterpart; an Update only against the first counterpart, which does not look alike; every source item gets its Create, its Update against the first counterpart, or no entry when that counterpart looks alike |
| Groups.GroupsToMigrate | crates/swimlane-migrator/src/groups.rs:5-35 | a Create has no destination group of the same lower-cased name; an Update is against the first such group, which does not look alike; every source group gets its Create or Update, or no entry when the first same-named group looks alike; never a Delete |
| Groups.RewriteSucceeds | crates/swimlane-migrator/src/groups.rs:55-64 | the nested loop succeeds iff every reference has a translation, and then replaces each id in place, keeping names and order |
| Groups.RewriteNamesFirstUnresolved | crates/swimlane-migrator/src/groups.rs:56-61 | a failure reports the name of the first reference without a translation |
| Groups.RewriteStops | crates/swimlane-migrator/src/groups.rs:59-61 | after the first failure, the remaining references are not looked at |
| Groups.ResolveNested | crates/swimlane-migrator/src/groups.rs:54-65 | the nested loop with early return computes exactly the rewrite |
| Groups.AdaptForCreate | crates/swimlane-migrator/src/groups.rs:52-91 | succeeds iff nested groups, roles and users all resolve, and then translates each list; groups are checked before roles and roles before users, so the error is of the kind of the first list that does not resolve and names the first unresolved reference in that list |
| Groups.Rewrite | crates/swimlane-migrator/src/groups.rs:55-64 | definition of one nested loop: each reference in order gets its translated id, and the first reference without one stops the loop with its name |
| Groups.PrepareCreate | crates/swimlane-migrator/src/groups.rs:52-91 | the three nested loops compute exactly the adapted group |
| Groups.SuccessfulRunCreatesEach | crates/swimlane-migrator/src/groups.rs:50-94 | a successful run sends one create per Create entry, in plan order, each being the adapted source group |
| Groups.RequestsAreNeverUndone | crates/swimlane-migrator/src/groups.rs:50-94 | the requests sent for a prefix of the plan are a prefix of all requests sent |
| Groups.ErrorAbortsRemainingCreates | crates/swimlane-migrator/src/groups.rs:59-61 | after the first error, later entries change neither the outcome nor the requests |
| Groups.UpdatesWriteNothing | crates/swimlane-migrator/src/groups.rs:50-51 | an Update entry sends nothing |
| Groups.RunCreates | crates/swimlane-migrator/src/groups.rs:50-94 | the create loop computes exactly that outcome and those requests |
| Groups.MigrateGroups | crates/swimlane-migrator/src/groups.rs:37-121 | errors in await order: group fetches, then users, then roles, with nothing sent; otherwise the create run's outcome and requests, and the listing only after success |
| Users.UsersToMigrate | crates/swimlane-migrator/src/users.rs:5-35 | a Create has no destination user of the same lower-cased user name; an Update is against the first such user, which does not look alike; every source user gets its Create or Update, or no entry when the first same-named user looks alike; never a Delete |
| Users.MigrateUsers | crates/swimlane-migrator/src/users.rs:38-63 | fetch errors in order; otherwise a heading plus one line per planned user, and nothing is sent |
| Roles.RolesToMigrate | crates/swimlane-migrator/src/roles.rs:5-35 | a Create has no destination role of the same lower-cased name; an Update is against the first such role, which does not look alike; every source role gets its Create or Update, or no entry when the first same-named role looks alike; never a Delete |
| Apps.AppDifferences | crates/swimlane-migrator/src/apps.rs:7-22 | no differences iff name, disabled, description and time tracking agree; exactly one entry per field that differs, in the order name, disabled, description, time tracking, each showing the current value from the first application and the new value from the second |
| Apps.AppDifferencesReportChangedFields | crates/swimlane-migrator/src/apps.rs:11-19 | each of the four fields is reported exactly when it differs, and no other field is reported |
| Apps.CollectAppDifferences | crates/swimlane-migrator/src/apps.rs:7-22 | the four pushes build exactly those differences |
| Apps.AppSchemaIgnored | crates/swimlane-migrator/src/apps.rs:7-22 | two applications that agree on name, disabled, description and time tracking compare the same, on either side, and look alike to the same applications; id, acronym, tracking field, layout, fields, workspaces, create-workspace flag, permissions, uid and version never matter |
| Apps.IsSameApp | crates/swimlane-migrator/src/apps.rs:24-26 | definition: applications are the same resource when their names are equal, case-sensitively |
| Apps.AppsToMigrate | crates/swimlane-migrator/src/apps.rs:30-38 | the generic plan over exact names, after the fetch errors in order: Creates have no same-named destination app; Updates are against the first same-named app and differ from it; Deletes have no same-named source app; every source app with differences from its first same-named app is updated, every one without a same-named app is created, and every destination app no source app names is deleted |
| Apps.AppPlanEntries | crates/swimlane-migrator/src/apps.rs:30-38 | each entry of the application plan: a Create has no same-named destination app; an Update is against the first same-named app and differs from it; a Delete has no same-named source app |
| Apps.AppPlanCover | crates/swimlane-migrator/src/apps.rs:30-38 | each source app is created, updated against its first same-named app, or left out when it has no differences from it; each destination app no source app names is deleted |
| Apps.DestinationOnlyAppDeleted | crates/swimlane-migrator/src/util.rs:159-168 | an application that only the destination has is planned for deletion |
| Workspaces.WorkspaceDifferences | crates/swimlane-migrator/src/workspaces.rs:8-18 | no differences iff name, description and disabled agree; exactly one entry per field that differs, in the order name, description, disabled, each showing the current value from the first workspace and the new value from the second |
| Workspaces.WorkspaceDifferencesReportChangedFields | crates/swimlane-migrator/src/workspaces.rs:11-13 | each of the three fields is reported exactly when it differs, and no other field is reported |
| Workspaces.CollectWorkspaceDifferences | crates/swimlane-migrator/src/workspaces.rs:8-18 | the three pushes build exactly those differences |
| Workspaces.WorkspaceContentsIgnored | crates/swimlane-migrator/src/workspaces.rs:14-16 | workspaces differing only in their application and dashboard lists look alike |
| Workspaces.IsSameWorkspace | crates/swimlane-migrator/src/workspaces.rs:20-22 | definition: workspaces are the same resource when their names are equal, case-sensitively |
| Requirements.Analyse | crates/swimlane/src/util.rs:20-38 | a comment is a trimmed line starting with '#'; any other line is an entry iff its trimmed text splits into exactly two parts, and the entry is those two parts lower-cased |
| Requirements.AnalyseAll | crates/swimlane/src/util.rs:18-20 | one analysis per line |
| Requirements.FilePathToHashmap | crates/swimlane/src/util.rs:9-51 | the line loop with its early returns computes exactly the parse |
| Requirements.ParseAnalysedStep | crates/swimlane/src/util.rs:30-46 | after a successful prefix, one more line is one more step of the loop, numbered from 1 |
| Requirements.ParseLines | crates/swimlane/src/util.rs:18-48 | definition of the parse of a file's lines: analyse each line, then fold the analyses; its properties are the lemmas above |
| Requirements.FailureIsFinal | crates/swimlane/src/util.rs:30-46 | after the first error, later lines change nothing |
| Requirements.ParsedValues | crates/swimlane/src/util.rs:37-47 | after a successful parse every non-comment line is an entry, and its lower-cased name maps to its lower-cased version |
| Requirements.ParsedKeys | crates/swimlane/src/util.rs:47 | every key comes from an entry line |
| Requirements.ParsedSize | crates/swimlane/src/util.rs:39-47 | the map has exactly one key per non-comment line |
| Requirements.ParseSucceedsIff | crates/swimlane/src/util.rs:18-48 | parsing succeeds iff no line is malformed and no two entry lines share a lower-cased name |
| Requirements.FirstErrorReported | crates/swimlane/src/util.rs:30-46 | the error names a line of the file, numbered from 1; every earlier line was accepted, and that line's own step raises exactly this error |
| Requirements.AnalyseEntry | crates/swimlane/src/util.rs:29-38 | "name==version" is an entry with both parts lower-cased |
| Requirements.ParseTwoLines | crates/swimlane/src/util.rs:18-48 | a two-line file is the first line's step followed by the second's |
| Requirements.AnalyseBlank | crates/swimlane/src/util.rs:29-35 | a blank line is malformed |
| Requirements.AnalyseFlask | crates/swimlane/src/util.rs:29-38 | "flask==2.0" is the entry flask, 2.0 |
| Requirements.AnalyseCapitalFlask | crates/swimlane/src/util.rs:37-38 | "Flask==2.0" is the same entry |
| Requirements.BlankLineRejected | crates/swimlane/src/util.rs:30-35 | a blank second line is an invalid format on line 2 |
| Requirements.RepeatedNameRejected | crates/swimlane/src/util.rs:39-46 | names that differ only in case are duplicates, reported on line 2 with both versions |
| PackageVersion.ParsePackageVersion | crates/swimlane-cli/src/util.rs:13-24 | empty input gives none; otherwise a version is returned iff the split has more than two parts or exactly two with a non-empty second; it is the second part and holds no "==" |
| PackageVersion.SeparatorWhenSeveralParts | crates/swimlane-cli/src/util.rs:19-20 | more than one part means the input held "==" |
| PackageVersion.ExampleNoSeparator | crates/swimlane-cli/src/util.rs:8 | "package" gives none |
| PackageVersion.ExampleEmptyTail | crates/swimlane-cli/src/util.rs:9 | "package==" gives none |
| PackageVersion.ExampleVersion | crates/swimlane-cli/src/util.rs:10 | "package==1.0.0" gives "1.0.0" |
| PackageVersion.SplitNameVersion | crates/swimlane-cli/src/util.rs:19 | "name==version" splits into the name and the version when neither holds '=' |
| PackageVersion.ParseRoundTrip | crates/swimlane-cli/src/util.rs:13-24 | writing "name==version" and parsing it gives the version back, in both parsers |
| PackageVersion.SplitDoubledSeparator | crates/swimlane-cli/src/util.rs:19 | "name====version" splits into the name, an empty part and the version when neither holds '=' |
| PackageVersion.SplitFourEquals | crates/swimlane-cli/src/util.rs:19 | "pkg====1.0" splits into "pkg", "" and "1.0" |
| PackageVersion.EmptyVersionAccepted | crates/swimlane-cli/src/util.rs:20-23 | as written, "pkg====1.0" yields the empty version; the corrected parser yields none |
| PackageVersion.ParsePackageVersionNonEmpty | crates/swimlane-cli/src/util.rs:1-3 | corrected parser: a returned version is never empty and holds no "=="; whenever it answers, or the original returns a non-empty version, the two agree |
| Python.LowercaseNamesKeepsPackages | crates/swimlane/src/python.rs:30-36 | every package is kept with all other fields unchanged; names have no upper-case letter; applying it twice changes nothing |
| Python.LowercaseNames | crates/swimlane/src/python.rs:30-36 | definition: each installed package with its name lower-cased, in order |
| Python.GetInstalledPipPackages | crates/swimlane/src/python.rs:27-39 | the fetch error is passed through; otherwise the packages with lower-cased names |
| Python.Classify | crates/swimlane/src/python.rs:71-86 | install iff no installed package has the name; nothing to do iff some has it and all such have exactly this version; update iff one has another version, or none |
| Python.SelectedMembers | crates/swimlane/src/python.rs:71-86 | a requirement is pushed to a list iff it is listed with its version and classified for that list |
| Python.ClassificationPartitions | crates/swimlane/src/python.rs:71-86 | every requirement is in the install list, in the update list, or in neither because it is already installed, and never in both lists |
| Python.SplitRequirements | crates/swimlane/src/python.rs:71-86 | the loop builds exactly the install and update lists, in iteration order |
| Python.InstallBody | crates/swimlane/src/python.rs:137-150 | the body carries the name and version given and "Python3", with every other field unset |
| Python.UninstallsAreUninstalls | crates/swimlane/src/python.rs:90-95 | one uninstall per update package, in order |
| Python.InstallsAreInstalls | crates/swimlane/src/python.rs:105-112 | one install per package, in order, at its version |
| Python.UploadRequestsPhases | crates/swimlane/src/python.rs:88-116 | all uninstalls come before any install; the request count is installs plus twice the updates |
| Python.UploadRequests | crates/swimlane/src/python.rs:88-116 | definition of the requests an upload sends: the uninstalls of the packages to update, then the installs of the new packages followed by those to update |
| Python.UpdatesReinstalled | crates/swimlane/src/python.rs:90-116 | each update package is uninstalled in the first phase and installed again at the required version after the install list |
| Python.InstallsFollowUninstalls | crates/swimlane/src/python.rs:103-112 | the install list is installed right after the uninstall phase, at the required versions |
| Python.UninstallPhase | crates/swimlane/src/python.rs:88-99 | the loop issues exactly the uninstalls |
| Python.InstallPhase | crates/swimlane/src/python.rs:101-116 | the loop issues exactly the installs |
| Python.UploadPythonRequirements | crates/swimlane/src/python.rs:41-119 | a bad requirements file aborts before anything is sent; a failed fetch sends nothing; otherwise the uninstall phase, then the install phase, over the classified requirements |
| Tasks.FoldInsertsKeys | crates/swimlane/src/tasks.rs:241-244 | the map's keys are exactly the keys inserted |
| Tasks.LastWriterWins | crates/swimlane/src/tasks.rs:242-243 | the last insert of a key decides its value |
| Tasks.FoldInsertsSize | crates/swimlane/src/tasks.rs:241-244 | at most one key per insert |
| Tasks.TaskInsertions | crates/swimlane/src/tasks.rs:241-244 | per task, in list order: name to id, then id to name |
| Tasks.TaskMapSnoc | crates/swimlane/src/tasks.rs:242-243 | one iteration applies its task's two inserts, name first and id second |
| Tasks.GetTaskHashmap | crates/swimlane/src/tasks.rs:236-248 | the fetch error is passed through; otherwise the loop builds exactly the folded map |
| Tasks.TaskMapKeys | crates/swimlane/src/tasks.rs:241-244 | the keys are exactly the names together with the ids of all tasks; at most two per task |
| Tasks.TaskMap | crates/swimlane/src/tasks.rs:241-244 | definition: the task insertions folded into one map in list order |
| Tasks.TaskMapIsBidirectional | crates/swimlane/src/tasks.rs:242-243 | with distinct names and ids, every name maps to its id and every id to its name |
| Tasks.NameShadowedByLaterId | crates/swimlane/src/tasks.rs:242-243 | a name that equals a later task's id is overwritten by that task's name |
| Workflows.Decimal | crates/swimlane/src/workflows.rs:32 | the decimal text of a number is non-empty, all digits, denotes the number, and has no leading zero |
| Workflows.VisitU64 | crates/swimlane/src/workflows.rs:26-34 | only 0 is accepted, as Zero; any other number fails with "Invalid EvalType: " and the number |
| Workflows.VisitStr | crates/swimlane/src/workflows.rs:36-45 | exactly "and" and "or" are accepted, as And and Or; anything else fails with "Invalid EvalType: " and the string |
| Workflows.Deserialize | crates/swimlane/src/workflows.rs:174-181 | strings go through `visit_str` and unsigned 64-bit integers through `visit_u64`; the result is an invalid-type error, naming what was expected, exactly for negative integers, integers beyond 64 bits and every other kind of value |
| Workflows.DeserializeAcceptsExactly | crates/swimlane/src/workflows.rs:26-45 | exactly 0, "and" and "or" decode, to Zero, And and Or respectively |
| Workflows.UpperCaseRejected | crates/swimlane/src/workflows.rs:40-43 | matching is case-sensitive: "AND" is rejected |
| Workflows.NegativeIsInvalidType | crates/swimlane/src/workflows.rs:174-181 | a negative integer never reaches `visit_u64` and is an invalid type |
| Workflows.SevenRejected | crates/swimlane/src/workflows.rs:30-33 | 7 is rejected with "Invalid EvalType: 7" |
| Workflows.SerializeAsWritten | crates/swimlane/src/workflows.rs:165-172 | the derived encoder writes every variant as a string |
| Workflows.ZeroDoesNotRoundTrip | crates/swimlane/src/workflows.rs:165-181 | the derived encoding of Zero does not decode, while those of And and Or do |
| Workflows.Serialize | crates/swimlane/src/workflows.rs:165-172 | corrected encoder: it writes an integer exactly for Zero |
| Workflows.RoundTrip | crates/swimlane/src/workflows.rs:26-45 | with the corrected encoder, every evaluation type decodes back to itself |
| Workflows.DecodedValuesAreEncodings | crates/swimlane/src/workflows.rs:26-45 | every value that decodes is the corrected encoding of its result |

## Left out

- HTTP, JSON transport, authentication, pagination and the printing of progress messages are left out. Server reads are inputs. Writes are recorded requests or the answers of an input function.
- The source awaits several fetches concurrently, and `upload_python_requirements` spawns its requests as tasks. The model runs them in sequence, in the order they are awaited. Each phase's requests are listed in the order they are spawned.
- One snapshot per server and kind: when a command fetches the same list twice, for example for the group plan and the group id table, the model uses one fetch result for both.
- `looks_like` for `Group`, `User` and `Role` is defined outside the files modelled. It is a parameter `looksLike`.
- `migrate_roles`, `migrate_apps`, `get_workspaces_to_migrate` and `migrate_workspaces` are `todo!()` stubs in the source, so they are not modelled.
- `swimlane-migrator/src/adapt.rs`, the normalisers held by the migrator, is not part of this model.
- Groups.RunCreates: a failed `create_group` is an input answer, and whatever the server did with the request is not modelled.
- Python.UploadPythonRequirements:
  - the panics on a bad requirements file become the `Aborted` outcome;
  - non-200 answers to install/uninstall requests panic in the source and are not modelled;
  - the map's unspecified iteration order is the parameter `order`.
- Requirements.FilePathToHashmap: opening and reading the file is I/O. The lines are the input, so the `FileNotFound` error is not modelled.
- `to_lowercase` is modelled as ASCII lower-casing and `trim` as ASCII whitespace trimming. Unicode case mapping and Unicode whitespace are left out.
- Integers in `EvalType` decoding are unbounded values. The decoder's split between `u64` and the rest is written out explicitly.
- Record fields that no modelled operation reads are left out, such as timestamps and the application field and layout structures. Floating-point values are left out too.
- Planner.UpsertsSnoc: the upsert loop is proved equal to its specification entry by entry. A lemma about appending whole lists of source items is not stated.

## Findings

| source | as written | input that shows it | evidently intended | confidence | as-written member | corrected member |
|---|---|---|---|---|---|---|
| crates/swimlane/src/workflows.rs:165-181 | `EvalType` derives `Serialize`, so `Zero` (not renamed) is written as the string "Zero", while the hand-written decoder accepts only the integer 0 for it | `EvalType::Zero` encoded and decoded again fails with "Invalid EvalType: Zero" | every evaluation type survives a round trip, with `Zero` written as 0 | not executed | Workflows.ZeroDoesNotRoundTrip | Workflows.RoundTrip |
| crates/swimlane-cli/src/util.rs:20-23 | the empty-version check applies only when there are exactly two parts | "pkg====1.0" yields `Some("")` | per the documentation at lines 1-3, input not of the form package==version yields no version, so a returned version is never empty | not executed | PackageVersion.EmptyVersionAccepted | PackageVersion.ParsePackageVersionNonEmpty |
