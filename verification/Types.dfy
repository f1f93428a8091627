/** Types that several modules share. */
module Types {

  datatype PeerID = PeerID(id: nat)
  datatype Cid = Cid(id: nat)
  datatype ContextID = ContextID(id: nat)

  /** A multihash, and whether it decodes as one. */
  datatype Multihash = Multihash(digest: nat, decodes: bool)

  /** A network address. */
  datatype Addr = Addr(id: nat)

  /** The string by which a provider's information is looked up in discovery. */
  datatype DiscoveryAddr = DiscoveryAddr(id: nat)

  /** A point in time or a duration, in nanoseconds. */
  type Time = int

  /** A staging cell: never stored to, emptied by a worker, or holding an assignment. */
  datatype Cell<+T> = Unset | NoAssignment | Staged(content: T)
}
