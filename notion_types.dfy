/** The property set of one row of the Notion table the entries are synced into. */
module NotionTypes {
  import opened Wrappers

  /** The `date` property: a start/end pair of ISO-8601 strings. */
  datatype DateRange = DateRange(start: string, end: string)

  /** The properties of a row. `description` is the content of the title's single text element.
      `id` is optional because the update payload leaves it out; `project` and `client` are
      select options that are present only when set. */
  datatype NotionTableProperties = NotionTableProperties(
    description: string,
    date: DateRange,
    id: Option<int>,
    project: Option<string>,
    client: Option<string>)
}
