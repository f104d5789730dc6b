/** The rows of the database tables the routers read and write. Ids are the
    tables' integer primary keys; timestamps are clock readings. */
module Records {
  import opened Opt

  /** A row of the settings table; `key` is its primary key. */
  datatype SettingRow = SettingRow(key: string, value: string, description: Option<string>)

  /** A row of the action log. */
  datatype ActionLog = ActionLog(id: nat, timestamp: int, actionType: string, description: string, status: string)

  /** A folder created by a provisioning action. */
  datatype FolderRow = FolderRow(id: nat, path: string, server: string, actionId: nat)

  /** An access group created by a provisioning action; `kind` is the
      table's `type` column. */
  datatype GroupRow = GroupRow(id: nat, name: string, kind: string, actionId: nat)
}
