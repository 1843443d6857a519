/** The messages that matter to file transfer; every other packet is `Other`. */
module Messages {
  import opened Bytes

  type TransferId = string
  type FileName = string

  datatype Message =
    | Offer(id: TransferId, name: FileName, size: nat)
    | Chunk(id: TransferId, offset: nat, data: bytes)
    | Complete(id: TransferId, sha: string)
    | Other(packetType: nat, payload: bytes)

  datatype Envelope = Envelope(sequence: nat, message: Message)
}
