/** The migrator's own types and its constructor. */
module SwimlaneMigrator {
  import opened Wrappers
  import opened Resources

  /** What has to happen to one resource. */
  datatype MigrationPlan<T> =
    | Create(sourceResource: T)
    | Update(sourceResource: T, destinationResource: T)
    | Delete(destinationResource: T)

  datatype MigratorError =
    | SwimlaneError(cause: ClientError)
    | MissingGroup(groupName: string)
    | MissingRole(roleName: string)
    | MissingUser(userName: string)

  datatype NewError = SourceAndDestinationAreIdentical

  /** A migrator between two servers; the resource normalisers it also holds are not modelled. */
  datatype Migrator = Migrator(from: Client, to: Client, dryRun: bool)

  /**
   * `SwimlaneMigrator::new`: refuses a source and a destination with the same
   * base URL before building anything, and otherwise keeps its arguments as given.
   */
  function New(from: Client, to: Client, dryRun: bool): (r: Result<Migrator, NewError>)
    ensures r.Failure? <==> from.baseUrl == to.baseUrl
    ensures r.Failure? ==> r.error == SourceAndDestinationAreIdentical
    ensures r.Success? ==> r.value.from == from && r.value.to == to && r.value.dryRun == dryRun
    ensures r.Success? ==> r.value.from.baseUrl != r.value.to.baseUrl
  {
    if from.baseUrl == to.baseUrl then Failure(SourceAndDestinationAreIdentical)
    else Success(Migrator(from, to, dryRun))
  }
}
