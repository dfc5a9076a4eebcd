/** The registered records as the contract's `getIPDetails(i)` returns them,
    for `i` from 0 to `getTotalIPs() - 1`. The ledger is a sequence whose
    position is the registration index. */
module Ledger {
  import opened Wrappers

  datatype Owner = Owner(name: string, email: string, physicalAddress: string)

  /** The fields of a record the core reads; `owner` and `ownerAddress` may
      be missing (`None`). */
  datatype IpRecord = IpRecord(
    index: nat,
    name: string,
    description: string,
    owner: Option<Owner>,
    ownerAddress: Option<string>)
}
