/**
 * The platform's records as the migrator sees them. Only the fields the
 * reconciliation reads or writes are kept; timestamps, audit users and the
 * vendor field/layout schema are reduced to opaque strings or dropped.
 */
module Resources {
  import opened Wrappers

  /** A failure of the platform client (a failed request, a missing file, ...). */
  datatype ClientError =
    | PackageNotFound(package: string, version: string)
    | FileNotFound(path: string)
    | IoError(cause: string)
    | RequestError(cause: string)

  /** A connection to one platform server; only its base URL matters here. */
  datatype Client = Client(baseUrl: string)

  /** The reference to a user, group or role nested inside another record. */
  datatype BaseEntity = BaseEntity(id: string, name: string, disabled: bool)

  datatype Group = Group(
    id: string,
    name: string,
    description: Option<string>,
    users: seq<BaseEntity>,
    groups: seq<BaseEntity>,
    roles: seq<BaseEntity>,
    disabled: bool)

  datatype User = User(
    id: string,
    userName: string,
    email: string,
    firstName: Option<string>,
    lastName: Option<string>,
    name: string,
    displayName: Option<string>,
    disabled: bool)

  datatype Role = Role(
    id: string,
    name: string,
    disabled: bool,
    description: Option<string>,
    groups: seq<BaseEntity>,
    roles: Option<seq<BaseEntity>>,
    users: seq<BaseEntity>)

  /** An application; its layout, fields and permission matrix are kept as opaque values. */
  datatype Application = Application(
    id: string,
    name: string,
    acronym: string,
    description: Option<string>,
    trackingFieldId: string,
    layout: seq<string>,
    fields: seq<string>,
    workspaces: seq<string>,
    createWorkspace: bool,
    timeTrackingEnabled: bool,
    permissions: string,
    uid: string,
    version: int,
    disabled: bool)

  datatype LightApplication = LightApplication(
    id: string,
    name: string,
    acronym: string,
    description: Option<string>)

  datatype Workspace = Workspace(
    id: string,
    uid: string,
    description: Option<string>,
    version: int,
    name: string,
    disabled: bool,
    applications: seq<string>,
    dashboards: seq<string>,
    permissions: string)

  datatype LightTask = LightTask(id: string, name: string, disabled: bool, applicationId: Option<string>, actionType: string)
}
