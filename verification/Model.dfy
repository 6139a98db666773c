/** The rows and stores the upload, worker and download components share. */
module Model {
  import opened Bytes

  datatype Status = Uploading | Ready | Expired | Deleted | Infected | Revoked

  datatype FileRow = FileRow(id: string, size: nat, iv: bytes, sha256: bytes)

  datatype Transfer = Transfer(
    status: Status,
    wrappedKey: Option<bytes>,
    createdAt: int,
    expiresAt: int,
    deletedAt: Option<int>,
    infectedAt: Option<int>,
    revokedAt: Option<int>,
    files: seq<FileRow>)

  type Transfers = map<string, Transfer>

  /** Staging files, by transfer and file id. A missing file has no entry. */
  type Staging = map<(string, string), bytes>

  function StagedSize(staging: Staging, key: (string, string)): nat {
    if key in staging then |staging[key]| else 0
  }

  function StagedContent(staging: Staging, key: (string, string)): bytes {
    if key in staging then staging[key] else []
  }

  /** How shredding can go wrong. Each file is overwritten in place, as far as that works,
      and then unlinked; only the unlinking can raise. `stuck` are the files still there
      afterwards, and `noise` says which of their bytes were overwritten, and with what. */
  datatype ShredFault = ShredFault(
    stuck: set<(string, string)>,
    noise: ((string, string), nat) -> Option<byte>)

  /** What a file holds after the attempt to overwrite it: as many bytes as before. */
  function Overwritten(fault: ShredFault, key: (string, string), content: bytes): (r: bytes)
    ensures |r| == |content|
  {
    seq(|content|, i requires 0 <= i < |content| =>
      match fault.noise(key, i)
      case Some(b) => b
      case None => content[i])
  }

  /** Shredding the staging directories of these transfers. */
  function Shred(staging: Staging, transfers: set<string>, fault: ShredFault): Staging {
    map key | key in staging && (key.0 !in transfers || key in fault.stuck) ::
      if key.0 in transfers then Overwritten(fault, key, staging[key]) else staging[key]
  }

  /** Shredding raises when a file is still there afterwards. */
  predicate ShredRaises(staging: Staging, transfer: string, fault: ShredFault) {
    exists key :: key in staging && key.0 == transfer && key in fault.stuck
  }

  datatype AuditEvent = UploadComplete(transfer: string) | UploadFailed(transfer: string)

  function FindFile(files: seq<FileRow>, id: string): (r: Option<FileRow>)
    ensures r.Some? ==> r.value in files && r.value.id == id
    ensures r.None? <==> forall f :: f in files ==> f.id != id
  {
    if files == [] then None
    else if files[0].id == id then Some(files[0])
    else FindFile(files[1..], id)
  }

  /** File ids are primary keys. */
  ghost predicate DistinctFiles(files: seq<FileRow>) {
    forall i, j :: 0 <= i < j < |files| ==> files[i].id != files[j].id
  }

  /** The database, the staging directory, the object store, the job queue, the Redis
      locks and the audit log. */
  class World {
    var transfers: Transfers
    var staging: Staging
    var objects: map<string, bytes>
    var queue: seq<string>
    var locks: set<string>
    var audit: seq<AuditEvent>

    constructor (transfers: Transfers)
      ensures this.transfers == transfers && staging == map[] && objects == map[]
      ensures queue == [] && locks == {} && audit == []
    {
      this.transfers := transfers;
      staging, objects, queue, locks, audit := map[], map[], [], {}, [];
    }
  }
}
