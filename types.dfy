/**
 * The declarations shared by the queue, the orchestrator and the transfer
 * client: the item status, the collision policy and the item descriptor a
 * caller submits (src/types.ts).
 */
module Types {

  /** Lifecycle of one work item. */
  datatype ItemStatus = Ready | Uploading | Complete | Error

  /** What to do when the remote object already exists. */
  datatype Behavior = Cover | Skip | Verify

  /** What a caller submits for one file or directory (IFileItem). */
  datatype Descriptor = Descriptor(
    isDirectory: bool,
    name: string,
    localPath: string,
    serverPath: string,
    size: nat)
}
