/**
 The sizes of the transport, src/util.h. They are kept symbolic; the source uses 32 packets to a
 block, 100 blocks and 1445 payload bytes. One byte must hold a packet index and two bytes the
 length of a payload, and the receiver's ack loop needs a second block.
 */
module Config {

  type BlockSize = n: nat | 1 <= n <= 255 witness 32
  type NumBlocks = n: nat | 2 <= n witness 100
  type PayloadSize = n: nat | 3 <= n <= 65537 witness 1445

  /** Packets in a block. */
  const BLOCK_SIZE: BlockSize
  /** Block slots at either end. */
  const NUM_BLOCKS: NumBlocks
  /** Bytes in the payload of a packet, two of which hold the length of the data. */
  const PAYLOAD_SIZE: PayloadSize

  type WindowSize = n: nat | 2 <= n witness 1000

  /** Largest congestion window, and the number of slots for packets in flight. */
  const MAX_CWND: WindowSize

  type InitialWindow = n: nat | 2 <= n <= MAX_CWND witness 2

  /** The congestion window a path starts with and falls back to. */
  const INIT_SEGS: InitialWindow

  /** The coding window that marks a job for coded packets. */
  const MAX_CODING_WND: nat := 32
}
