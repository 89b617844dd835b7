/** The retention rules that the inventory walk and the pruner share. */
module Retention {

  const TRANSIENT_DIRECTORY := "transient"
  const TRANSIENT_LEASE_MARKER := ".hardknock-active-v1"
  const MIN_ABANDONED_LEASE_AGE: nat := 300

  datatype DirectoryRetention =
    | Protected
    | Transient
    | ActiveLease
    | AbandonedLease(markerModified: nat)

  datatype Classification = Reclaimable | Kept

  type Path = seq<string>

  /** `now.saturating_sub(modified) >= 300 s`. */
  predicate OldEnough(now: nat, modified: nat) {
    (if now >= modified then now - modified else 0) >= MIN_ABANDONED_LEASE_AGE
  }

  /** What looking at a directory's lease marker and lock can find. */
  datatype LeaseView =
    | NoMarker
    | OddMarker                      // not a regular file, or hard-linked
    | MarkerAndLockHeld
    | MarkerAndLockFree(modified: nat)

  function InspectTransientLease(view: LeaseView): DirectoryRetention {
    match view
    case NoMarker => Transient
    case OddMarker => ActiveLease
    case MarkerAndLockHeld => ActiveLease
    case MarkerAndLockFree(modified) => AbandonedLease(modified)
  }

  function Classify(path: Path, retention: DirectoryRetention, modified: nat, inventoryTime: nat): Classification {
    if |path| < 2 || path[0] != TRANSIENT_DIRECTORY then
      Kept
    else
      match retention
      case Transient => Reclaimable
      case AbandonedLease(marker) =>
        if OldEnough(inventoryTime, marker) && OldEnough(inventoryTime, modified) then Reclaimable else Kept
      case Protected => Kept
      case ActiveLease => Kept
  }
}
