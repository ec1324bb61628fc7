/** What becomes of a backup (internal/platform/backup/types.go). */
module BackupState {

  datatype State = Pending | Ready | Failed
}
