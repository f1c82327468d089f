/** The record the Toggl Reports API returns for one time entry. */
module TogglTypes {
  import opened Wrappers

  /** One raw entry; every `| null` member is an Option, timestamps are opaque ISO-8601 strings. */
  datatype TogglReportsEntry = TogglReportsEntry(
    id: int,
    pid: Option<int>,
    tid: Option<int>,
    uid: Option<int>,
    description: Option<string>,
    start: string,
    end: string,
    updated: string,
    dur: int,
    user: Option<string>,
    useStop: bool,
    client: Option<string>,
    project: Option<string>,
    projectColor: Option<string>,
    projectHexColor: Option<string>,
    billable: int,
    isBillable: bool,
    cur: Option<string>,
    tags: seq<string>)
}
