/**
 * One work item (src/FileItem.ts): a mutable record whose descriptor fields
 * are copied in at construction and whose progress is updated in place.
 */
module FileItems {
  import opened Wrappers
  import opened Types

  /**
   * A snapshot of a work item. The queue hands these out instead of its own
   * objects, so a caller can never reach the stored record through one.
   */
  datatype Item = Item(
    id: string,
    isDirectory: bool,
    name: string,
    localPath: string,
    serverPath: string,
    size: nat,
    error: Option<string>,
    transferred: nat,
    status: ItemStatus)

  /** The fields no operation ever writes after construction. */
  datatype Fixed = Fixed(
    id: string,
    isDirectory: bool,
    name: string,
    localPath: string,
    serverPath: string,
    size: nat)

  function FixedPart(it: Item): Fixed {
    Fixed(it.id, it.isDirectory, it.name, it.localPath, it.serverPath, it.size)
  }

  /**
   * The item a fresh FileItem holds: the defaults (no error, nothing
   * transferred, Ready) with every descriptor field copied over them.
   */
  function FromDescriptor(id: string, d: Descriptor): (it: Item)
    ensures it.status == Ready && it.transferred == 0 && it.error == None
    ensures FixedPart(it) == Fixed(id, d.isDirectory, d.name, d.localPath, d.serverPath, d.size)
  {
    Item(id, d.isDirectory, d.name, d.localPath, d.serverPath, d.size, None, 0, Ready)
  }

  class FileItem {
    var id: string
    var isDirectory: bool
    var name: string
    var localPath: string
    var serverPath: string
    var size: nat
    var error: Option<string>
    var transferred: nat
    var status: ItemStatus

    /** A field-by-field copy of this record (`Object.assign({}, item)`). */
    function Copy(): Item
      reads this
    {
      Item(id, isDirectory, name, localPath, serverPath, size, error, transferred, status)
    }

    /**
     * `new FileItem(d)`: the identifier comes from the generator (supplied
     * here), the descriptor's five fields override the defaults.
     */
    constructor (freshId: string, d: Descriptor)
      ensures Copy() == FromDescriptor(freshId, d)
    {
      id := freshId;
      isDirectory, name, localPath, serverPath, size := d.isDirectory, d.name, d.localPath, d.serverPath, d.size;
      error, transferred, status := None, 0, Ready;
    }

    method SetTransferred(n: nat)
      modifies this
      ensures Copy() == old(Copy()).(transferred := n)
    {
      transferred := n;
    }
  }
}
