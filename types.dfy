/** Values shared by the local-cache engine of js/mDB.js: stored records,
    write-queue entries and the effects the engine has on its collaborators. */
module Types {

  datatype Option<T> = None | Some(value: T)

  /** A record as stored in IndexedDB: field name to field value. Field values
      are modelled as strings; a field is truthy when present and non-empty. */
  type Record = map<string, string>

  predicate Truthy(rec: Record, field: string)
  {
    field in rec && rec[field] != ""
  }

  /** The four object stores created on upgrade, with their key paths. */
  const NodesStore := "f"
  const OutKeysStore := "ok"
  const SharesStore := "s"
  const UsersStore := "u"

  predicate IsStore(t: string)
  {
    t == NodesStore || t == OutKeysStore || t == SharesStore || t == UsersStore
  }

  /** One queued mutation: `{a: record}` is a put, `{d: key}` a delete. */
  datatype Entry = Put(rec: Record) | Delete(key: string)

  /** What the engine asks of IndexedDB and of the rest of the application,
      recorded in the order it happens. */
  datatype Effect =
    | LoadFm                                  // loadfm(): fetch everything live
    | GetSc                                   // getsc(1): incremental catch-up
    | OpenDatabase                            // indexedDB.open("MEGA_" + u_handle, 2)
    | CreateStore(name: string, keyPath: string)
    | CloseDatabase(handle: nat)
    | DeleteDatabase                          // indexedDB.deleteDatabase("MEGA_" + u_handle)
    | CountRecords(store: string)             // objectStore(t).count()
    | OpenCursor(store: string)               // objectStore(t).openCursor()
    | ProcessOk(rec: Record)                  // process_ok([v])
    | AddNode(rec: Record)                    // M.addNode(v, 1)
    | ShareKey(rec: Record)                   // u_sharekeys[v.h] = crypto_process_sharekey(v.h, v.sk)
    | AddUser(rec: Record)                    // M.addUser(v, 1)
    | NodeShare(rec: Record)                  // M.nodeShare(v.h, v, 1)
}
