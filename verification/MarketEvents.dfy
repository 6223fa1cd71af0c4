/** The fixed-size event the parser produces and every queue carries. */
module MarketEvents {

  datatype Kind = Add | Delete | Cancel | Replace | Trade | Execute

  /** The union of the source is flattened: fields a kind does not use are 0. */
  datatype MarketEvent = MarketEvent(kind: Kind, seqId: nat, locate: nat, timestamp: nat,
                                     price: int, volume: nat, orderRef: nat, newOrderRef: nat)
}
