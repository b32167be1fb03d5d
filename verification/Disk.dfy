/**
 One file that is replaced by write-to-temp, rename, directory fsync, as the replay guard
 sees it. `visible` is what a read returns now. `durable` holds every content the file may
 have after a power loss: a rename that is not yet covered by a directory fsync may or may
 not survive.
 */
module Disk {

  datatype Disk<T> = Disk(visible: T, durable: set<T>)

  /** How far an atomic replacement gets before it returns. */
  datatype Fate = FailsBeforeRename | FailsAfterRename | Succeeds

  function Renamed<T>(d: Disk<T>, x: T): Disk<T> {
    Disk(x, d.durable + {x})
  }

  function Synced<T>(d: Disk<T>): Disk<T> {
    Disk(d.visible, {d.visible})
  }

  function Write<T>(d: Disk<T>, x: T, fate: Fate): Disk<T> {
    match fate
    case FailsBeforeRename => d
    case FailsAfterRename => Renamed(d, x)
    case Succeeds => Synced(Renamed(d, x))
  }
}
