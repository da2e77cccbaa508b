/** Login records as the accounting programs read them. */
module LoginRecords {

  datatype Kind =
    | EmptyRec | RunLvl | BootTime | OldTime | NewTime | InitProcess | LoginProcess | UserProcess | DeadProcess
    | Accounting

  datatype Rec = Rec(kind: Kind, line: string, name: string, time: int)

  predicate IsProcess(k: Kind) {
    k.UserProcess? || k.LoginProcess? || k.InitProcess? || k.DeadProcess?
  }
}
