/**
 * Value types of libkbfs shared by the block pipeline, the block server and
 * the reference accounting. Identifiers and keys are opaque byte strings; only
 * their zero values matter to the code modelled here.
 */
module DataTypes {
  import opened Wrappers

  type Byte = b: int | 0 <= b < 256
  type Bytes = seq<Byte>

  /** BlockRefNonce is an 8-byte array in Go; here its value as an unsigned 64-bit number. */
  newtype RefNonce = x: int | 0 <= x < 0x1_0000_0000_0000_0000

  /** zeroBlockRefNonce: the nonce of the reference made when a block is first stored. */
  const ZeroRefNonce: RefNonce := 0

  /** A block's identifier, the hash of its encoded ciphertext; BlockID{} is the empty hash. */
  datatype BlockId = BlockId(hash: Bytes)

  const ZeroBlockId: BlockId := BlockId([])

  datatype TlfId = TlfId(raw: Bytes)

  datatype UserId = UserId(raw: Bytes)

  /** The part of a block pointer that names one reference to a block. */
  datatype BlockContext = BlockContext(creator: UserId, writer: UserId, refNonce: RefNonce)

  datatype BlockPointer = BlockPointer(id: BlockId, keyGen: int, dataVer: int, context: BlockContext)

  /** A folder revision; the pipeline only passes it on to the key manager and reads its folder id. */
  datatype RootMetadata = RootMetadata(id: TlfId, revision: int)

  /** BlockCryptKeyServerHalf: a 32-byte key fragment kept by the block server. */
  datatype ServerHalf = ServerHalf(key: Bytes)

  const ZeroServerHalf: ServerHalf :=
    ServerHalf([0, 0, 0, 0, 0, 0, 0, 0, 0, 0, 0, 0, 0, 0, 0, 0,
                0, 0, 0, 0, 0, 0, 0, 0, 0, 0, 0, 0, 0, 0, 0, 0])

  /** The encoded ciphertext of a block and the server half of its key. */
  datatype ReadyBlockData = ReadyBlockData(buf: Bytes, serverHalf: ServerHalf)

  /** ReadyBlockData{}: a nil buffer and a zero server half. */
  const ZeroReadyBlockData: ReadyBlockData := ReadyBlockData([], ZeroServerHalf)

  /** blockRefLocalStatus: the state the block server keeps for one reference. */
  datatype RefStatus = LiveRef | ArchivedRef

  /**
   * Errors. Collaborators (key manager, crypto, codec, block server, random
   * source) return errors this model does not look inside; the pipeline's own
   * integrity error carries its two counts.
   */
  datatype Error =
    | CollaboratorError(reason: string)
    | TooLowByteCountError(expectedMinByteCount: int, byteCount: int)
}
