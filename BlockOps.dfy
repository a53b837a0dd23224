/**
 * BlockOpsStandard: the relay between a folder's blocks and the block server.
 *
 * The key manager, the crypto primitives, the codec and the block server's
 * fetch are collaborators whose internals are not modelled: `Config` holds
 * each one as a function, so that `Ready` and `Get` are fixed chains of calls
 * to them. Each run also reports which collaborator steps it reached, which
 * states the order of the chain and where it stops. `Put` and `Delete` are
 * methods that send one request to a `BlockServer` object.
 */
module BlockOps {
  import opened Wrappers
  import opened DataTypes
  import opened BlockRefs
  import opened Server

  datatype TlfCryptKey = TlfCryptKey(key: Bytes)

  datatype BlockCryptKey = BlockCryptKey(key: Bytes)

  /** A plaintext file or directory block. */
  datatype Block = Block(contents: Bytes)

  datatype EncryptedBlock = EncryptedBlock(version: int, encryptedData: Bytes)

  /**
   * EncryptBlock's three results. As in Go, the plaintext size is handed
   * back alongside an error too, and Ready assigns it to its named result.
   */
  datatype Encrypted = Encrypted(plainSize: int, block: EncryptedBlock, err: Option<Error>)

  /** MakePermanentBlockID's two results; the id is assigned even alongside an error. */
  datatype PermanentId = PermanentId(id: BlockId, err: Option<Error>)

  datatype KeyManager = KeyManager(
    keyForEncryption: RootMetadata -> Result<TlfCryptKey, Error>,
    keyForDecryption: (RootMetadata, BlockPointer) -> Result<TlfCryptKey, Error>)

  datatype Crypto = Crypto(
    unmaskBlockCryptKey: (ServerHalf, TlfCryptKey) -> Result<BlockCryptKey, Error>,
    encryptBlock: (Block, BlockCryptKey) -> Encrypted,
    decryptBlock: (EncryptedBlock, BlockCryptKey) -> Result<Block, Error>,
    makePermanentBlockId: Bytes -> PermanentId)

  datatype Codec = Codec(
    encode: EncryptedBlock -> Result<Bytes, Error>,
    decode: Bytes -> Result<EncryptedBlock, Error>)

  /** The collaborators BlockOpsStandard reaches through its config. */
  datatype Config = Config(
    keyManager: KeyManager,
    crypto: Crypto,
    codec: Codec,
    serverGet: (BlockId, BlockPointer) -> Result<StoredBlock, Error>)

  // ---------------------------------------------------------------- Ready

  /** The steps of Ready, in the order the code takes them. */
  datatype ReadyStep =
    | GetKeyForEncryption | MakeServerHalf | UnmaskKey | EncryptStep | EncodeStep | CheckSize | MakeBlockId

  const ReadySteps: seq<ReadyStep> :=
    [GetKeyForEncryption, MakeServerHalf, UnmaskKey, EncryptStep, EncodeStep, CheckSize, MakeBlockId]

  /** Ready's four named results, and the steps the run reached. */
  datatype ReadyRun = ReadyRun(
    id: BlockId, plainSize: int, readyBlockData: ReadyBlockData, err: Option<Error>, steps: seq<ReadyStep>)

  /** A run that Ready returns after failing at step `n` with error `e`: every output zero. */
  function FailedAt(n: nat, e: Error): ReadyRun
    requires 1 <= n <= |ReadySteps|
  {
    ReadyRun(ZeroBlockId, 0, ZeroReadyBlockData, Some(e), ReadySteps[..n])
  }

  /**
   * The named results as they stand when Ready's body returns, before its
   * deferred reset. `freshHalf` is what MakeRandomBlockCryptKeyServerHalf
   * yields on this run.
   */
  function RunReadySteps(cfg: Config, md: RootMetadata, block: Block, freshHalf: Result<ServerHalf, Error>): ReadyRun
  {
    var none := ReadyRun(ZeroBlockId, 0, ZeroReadyBlockData, None, []);
    match cfg.keyManager.keyForEncryption(md)
    case Err(e) => none.(err := Some(e), steps := ReadySteps[..1])
    case Ok(tlfCryptKey) =>
      match freshHalf
      case Err(e) => none.(err := Some(e), steps := ReadySteps[..2])
      case Ok(serverHalf) =>
        match cfg.crypto.unmaskBlockCryptKey(serverHalf, tlfCryptKey)
        case Err(e) => none.(err := Some(e), steps := ReadySteps[..3])
        case Ok(blockKey) =>
          var encrypted := cfg.crypto.encryptBlock(block, blockKey);
          var sized := none.(plainSize := encrypted.plainSize);
          if encrypted.err.Some? then sized.(err := encrypted.err, steps := ReadySteps[..4])
          else
            match cfg.codec.encode(encrypted.block)
            case Err(e) => sized.(err := Some(e), steps := ReadySteps[..5])
            case Ok(buf) =>
              var filled := sized.(readyBlockData := ReadyBlockData(buf, serverHalf));
              var encodedSize := |buf|;
              if encodedSize < encrypted.plainSize then
                filled.(err := Some(TooLowByteCountError(encrypted.plainSize, encodedSize)), steps := ReadySteps[..6])
              else
                var made := cfg.crypto.makePermanentBlockId(buf);
                filled.(id := made.id, err := made.err, steps := ReadySteps)
  }

  /**
   * Ready: encrypts and encodes a block and names it by its encoded bytes.
   * The deferred function resets the other three named results (`id`,
   * `plainSize`, `readyBlockData`) to their zero values whenever the run
   * ends with an error; the error itself is kept.
   */
  function Ready(cfg: Config, md: RootMetadata, block: Block, freshHalf: Result<ServerHalf, Error>): (r: ReadyRun)
    ensures r.err.Some? ==> r.id == ZeroBlockId && r.plainSize == 0 && r.readyBlockData == ZeroReadyBlockData
    ensures 1 <= |r.steps| <= |ReadySteps| && r.steps == ReadySteps[..|r.steps|]
    ensures r.err.None? ==> r.steps == ReadySteps
    ensures r.err.Some? ==> r == FailedAt(|r.steps|, r.err.value)
  {
    var raw := RunReadySteps(cfg, md, block, freshHalf);
    if raw.err.Some? then raw.(id := ZeroBlockId, plainSize := 0, readyBlockData := ZeroReadyBlockData)
    else raw
  }

  /**
   * The chain stops at the first step that fails and returns that step's
   * error; later collaborators are not called.
   */
  lemma ReadyStopsAtFirstFailure(cfg: Config, md: RootMetadata, block: Block, freshHalf: Result<ServerHalf, Error>)
    ensures var r := Ready(cfg, md, block, freshHalf);
      var key := cfg.keyManager.keyForEncryption(md);
      && (key.Err? ==> r == FailedAt(1, key.error))
      && (key.Ok? && freshHalf.Err? ==> r == FailedAt(2, freshHalf.error))
      && (key.Ok? && freshHalf.Ok? ==>
            var blockKey := cfg.crypto.unmaskBlockCryptKey(freshHalf.value, key.value);
            && (blockKey.Err? ==> r == FailedAt(3, blockKey.error))
            && (blockKey.Ok? ==>
                  var encrypted := cfg.crypto.encryptBlock(block, blockKey.value);
                  && (encrypted.err.Some? ==> r == FailedAt(4, encrypted.err.value))
                  && (encrypted.err.None? ==>
                        var buf := cfg.codec.encode(encrypted.block);
                        && (buf.Err? ==> r == FailedAt(5, buf.error))
                        && (buf.Ok? && |buf.value| >= encrypted.plainSize &&
                            cfg.crypto.makePermanentBlockId(buf.value).err.Some? ==>
                              r == FailedAt(7, cfg.crypto.makePermanentBlockId(buf.value).err.value)))))
  {
  }

  /**
   * The converse of the failure cases: when every step succeeds and the
   * encoding is at least as long as the plaintext, Ready succeeds and returns
   * the permanent id of the encoded bytes, the encrypted plaintext size, and
   * those bytes with the fresh server half.
   */
  lemma ReadySucceedsWhenEveryStepDoes(cfg: Config, md: RootMetadata, block: Block, serverHalf: ServerHalf,
                                       tlfCryptKey: TlfCryptKey, blockKey: BlockCryptKey, buf: Bytes)
    requires cfg.keyManager.keyForEncryption(md) == Ok(tlfCryptKey)
    requires cfg.crypto.unmaskBlockCryptKey(serverHalf, tlfCryptKey) == Ok(blockKey)
    requires cfg.crypto.encryptBlock(block, blockKey).err.None?
    requires cfg.codec.encode(cfg.crypto.encryptBlock(block, blockKey).block) == Ok(buf)
    requires |buf| >= cfg.crypto.encryptBlock(block, blockKey).plainSize
    requires cfg.crypto.makePermanentBlockId(buf).err.None?
    ensures Ready(cfg, md, block, Ok(serverHalf)) ==
      ReadyRun(cfg.crypto.makePermanentBlockId(buf).id, cfg.crypto.encryptBlock(block, blockKey).plainSize,
               ReadyBlockData(buf, serverHalf), None, ReadySteps)
  {
  }

  /**
   * The integrity rule: once the block is encoded, Ready fails at the size
   * check, with both counts in the error, exactly when the encoding is
   * shorter than the plaintext; an encoding of equal length passes.
   */
  lemma ReadySizeCheck(cfg: Config, md: RootMetadata, block: Block, serverHalf: ServerHalf,
                       tlfCryptKey: TlfCryptKey, blockKey: BlockCryptKey, buf: Bytes)
    requires cfg.keyManager.keyForEncryption(md) == Ok(tlfCryptKey)
    requires cfg.crypto.unmaskBlockCryptKey(serverHalf, tlfCryptKey) == Ok(blockKey)
    requires cfg.crypto.encryptBlock(block, blockKey).err.None?
    requires cfg.codec.encode(cfg.crypto.encryptBlock(block, blockKey).block) == Ok(buf)
    ensures var plainSize := cfg.crypto.encryptBlock(block, blockKey).plainSize;
      var r := Ready(cfg, md, block, Ok(serverHalf));
      && (r.steps == ReadySteps[..6] <==> |buf| < plainSize)
      && (|buf| < plainSize ==> r.err == Some(TooLowByteCountError(plainSize, |buf|)))
      && (|buf| >= plainSize ==> r.steps == ReadySteps)
  {
  }

  /**
   * A successful Ready: the id is MakePermanentBlockID of exactly the
   * returned buffer, the returned server half is the one the block key was
   * unmasked from, the buffer is the encoding of that key's ciphertext, and
   * the encoding is at least as long as the plaintext.
   */
  lemma ReadySucceeded(cfg: Config, md: RootMetadata, block: Block, freshHalf: Result<ServerHalf, Error>)
    requires Ready(cfg, md, block, freshHalf).err.None?
    ensures var r := Ready(cfg, md, block, freshHalf);
      && freshHalf == Ok(r.readyBlockData.serverHalf)
      && cfg.keyManager.keyForEncryption(md).Ok?
      && var blockKey := cfg.crypto.unmaskBlockCryptKey(r.readyBlockData.serverHalf, cfg.keyManager.keyForEncryption(md).value);
      && blockKey.Ok?
      && var encrypted := cfg.crypto.encryptBlock(block, blockKey.value);
      && encrypted.err.None?
      && r.plainSize == encrypted.plainSize
      && cfg.codec.encode(encrypted.block) == Ok(r.readyBlockData.buf)
      && r.plainSize <= |r.readyBlockData.buf|
      && cfg.crypto.makePermanentBlockId(r.readyBlockData.buf) == PermanentId(r.id, None)
  {
  }

  // ---------------------------------------------------------------- Get

  /** The steps of Get, in the order the code takes them. */
  datatype GetStep = ServerGet | GetKeyForDecryption | UnmaskServerHalf | DecodeStep | DecryptStep

  const GetSteps: seq<GetStep> := [ServerGet, GetKeyForDecryption, UnmaskServerHalf, DecodeStep, DecryptStep]

  /** What Get fills in (or the error it returns), and the steps the run reached. */
  datatype GetRun = GetRun(result: Result<Block, Error>, steps: seq<GetStep>)

  /** Get: fetches a block's bytes and server half, then decodes and decrypts them. */
  function Get(cfg: Config, md: RootMetadata, ptr: BlockPointer): (r: GetRun)
    ensures 1 <= |r.steps| <= |GetSteps| && r.steps == GetSteps[..|r.steps|]
    ensures r.result.Ok? ==> r.steps == GetSteps
    ensures cfg.serverGet(ptr.id, ptr).Err? ==> r == GetRun(Err(cfg.serverGet(ptr.id, ptr).error), [ServerGet])
  {
    match cfg.serverGet(ptr.id, ptr)
    case Err(e) => GetRun(Err(e), GetSteps[..1])
    case Ok(stored) =>
      match cfg.keyManager.keyForDecryption(md, ptr)
      case Err(e) => GetRun(Err(e), GetSteps[..2])
      case Ok(tlfCryptKey) =>
        match cfg.crypto.unmaskBlockCryptKey(stored.serverHalf, tlfCryptKey)
        case Err(e) => GetRun(Err(e), GetSteps[..3])
        case Ok(blockKey) =>
          match cfg.codec.decode(stored.buf)
          case Err(e) => GetRun(Err(e), GetSteps[..4])
          case Ok(encrypted) => GetRun(cfg.crypto.decryptBlock(encrypted, blockKey), GetSteps)
  }

  /**
   * Get stops at the first step that fails and returns that step's error;
   * when every step before decryption succeeds, it returns what decrypting
   * the decoded bytes under the unmasked key gives, error or block.
   */
  lemma GetStopsAtFirstFailure(cfg: Config, md: RootMetadata, ptr: BlockPointer)
    ensures var r := Get(cfg, md, ptr);
      var stored := cfg.serverGet(ptr.id, ptr);
      && (stored.Err? ==> r == GetRun(Err(stored.error), GetSteps[..1]))
      && (stored.Ok? ==>
            var tlfCryptKey := cfg.keyManager.keyForDecryption(md, ptr);
            && (tlfCryptKey.Err? ==> r == GetRun(Err(tlfCryptKey.error), GetSteps[..2]))
            && (tlfCryptKey.Ok? ==>
                  var blockKey := cfg.crypto.unmaskBlockCryptKey(stored.value.serverHalf, tlfCryptKey.value);
                  && (blockKey.Err? ==> r == GetRun(Err(blockKey.error), GetSteps[..3]))
                  && (blockKey.Ok? ==>
                        var encrypted := cfg.codec.decode(stored.value.buf);
                        && (encrypted.Err? ==> r == GetRun(Err(encrypted.error), GetSteps[..4]))
                        && (encrypted.Ok? ==>
                              r == GetRun(cfg.crypto.decryptBlock(encrypted.value, blockKey.value), GetSteps)))))
  {
  }

  /**
   * A Get that reached decryption, whatever decryption answered, decrypted
   * the decoding of the fetched bytes under the key unmasked from the fetched
   * server half and the folder's decryption key.
   */
  lemma GetSucceeded(cfg: Config, md: RootMetadata, ptr: BlockPointer)
    requires Get(cfg, md, ptr).steps == GetSteps
    ensures var stored := cfg.serverGet(ptr.id, ptr);
      && stored.Ok?
      && var tlfCryptKey := cfg.keyManager.keyForDecryption(md, ptr);
      && tlfCryptKey.Ok?
      && var blockKey := cfg.crypto.unmaskBlockCryptKey(stored.value.serverHalf, tlfCryptKey.value);
      && blockKey.Ok?
      && var encrypted := cfg.codec.decode(stored.value.buf);
      && encrypted.Ok?
      && Get(cfg, md, ptr).result == cfg.crypto.decryptBlock(encrypted.value, blockKey.value)
  {
  }

  /** Decoding undoes encoding. */
  ghost predicate CodecRoundTrips(codec: Codec)
  {
    forall e: EncryptedBlock, buf: Bytes :: codec.encode(e) == Ok(buf) ==> codec.decode(buf) == Ok(e)
  }

  /** Decrypting under the key a block was encrypted with gives the block back. */
  ghost predicate CryptoRoundTrips(crypto: Crypto)
  {
    forall b: Block, k: BlockCryptKey ::
      crypto.encryptBlock(b, k).err.None? ==> crypto.decryptBlock(crypto.encryptBlock(b, k).block, k) == Ok(b)
  }

  /**
   * Get undoes Ready: when the server hands back the buffer and server half
   * that Ready produced and the folder yields the same key for decryption as
   * for encryption, Get returns the original block.
   */
  lemma GetAfterReady(cfg: Config, md: RootMetadata, block: Block, freshHalf: Result<ServerHalf, Error>, ptr: BlockPointer)
    requires CodecRoundTrips(cfg.codec) && CryptoRoundTrips(cfg.crypto)
    requires Ready(cfg, md, block, freshHalf).err.None?
    requires cfg.serverGet(ptr.id, ptr) ==
      Ok(StoredBlock(Ready(cfg, md, block, freshHalf).readyBlockData.buf, Ready(cfg, md, block, freshHalf).readyBlockData.serverHalf))
    requires cfg.keyManager.keyForDecryption(md, ptr) == cfg.keyManager.keyForEncryption(md)
    ensures Get(cfg, md, ptr) == GetRun(Ok(block), GetSteps)
  {
    ReadySucceeded(cfg, md, block, freshHalf);
    var r := Ready(cfg, md, block, freshHalf);
    var tlfCryptKey := cfg.keyManager.keyForEncryption(md).value;
    var blockKey := cfg.crypto.unmaskBlockCryptKey(r.readyBlockData.serverHalf, tlfCryptKey).value;
    var encrypted := cfg.crypto.encryptBlock(block, blockKey);
    assert cfg.codec.decode(r.readyBlockData.buf) == Ok(encrypted.block);
    assert cfg.crypto.decryptBlock(encrypted.block, blockKey) == Ok(block);
  }

  // ---------------------------------------------------------------- Put and Delete

  /**
   * The one request Put sends: the zero nonce stores the block with its bytes
   * and server half; any other nonce only adds a reference, with no bytes.
   * Both name the pointer's block and the folder of `md`.
   */
  function PutRequest(md: RootMetadata, ptr: BlockPointer, readyBlockData: ReadyBlockData): (c: ServerCall)
    ensures CarriesPayload(c) <==> ptr.context.refNonce == ZeroRefNonce
    ensures !CarriesPayload(c) ==> c.AddReferenceCall?
    ensures c.id == ptr.id && c.tlf == md.id && c.context == ptr.context
    ensures CarriesPayload(c) ==> c.buf == readyBlockData.buf && c.serverHalf == readyBlockData.serverHalf
  {
    if ptr.context.refNonce == ZeroRefNonce then
      PutCall(ptr.id, md.id, ptr.context, readyBlockData.buf, readyBlockData.serverHalf)
    else
      AddReferenceCall(ptr.id, md.id, ptr.context)
  }

  class BlockOpsStandard {
    const config: Config
    const server: BlockServer

    constructor (config: Config, server: BlockServer)
      ensures this.config == config && this.server == server
    {
      this.config := config;
      this.server := server;
    }

    /** Put: sends PutRequest and returns the server's answer unchanged. */
    method Put(md: RootMetadata, ptr: BlockPointer, readyBlockData: ReadyBlockData) returns (err: Option<Error>)
      requires server.Valid()
      modifies server
      ensures server.Valid()
      ensures server.calls == old(server.calls) + [PutRequest(md, ptr, readyBlockData)]
      ensures err == server.reply(PutRequest(md, ptr, readyBlockData))
      ensures server.refs == if err.None? then AddRef(old(server.refs), ptr.id, ptr.context.refNonce, LiveRef)
                             else old(server.refs)
      ensures server.blocks ==
        if err.None? && ptr.context.refNonce == ZeroRefNonce
        then old(server.blocks)[ptr.id := StoredBlock(readyBlockData.buf, readyBlockData.serverHalf)]
        else old(server.blocks)
    {
      if ptr.context.refNonce == ZeroRefNonce {
        err := server.Put(ptr.id, md.id, ptr.context, readyBlockData.buf, readyBlockData.serverHalf);
      } else {
        // a non-zero nonce is a new reference to a block already stored
        err := server.AddBlockReference(ptr.id, md.id, ptr.context);
      }
    }

    /**
     * Delete: sends one remove-reference request for the block in the folder
     * of `md` and returns the server's answer unchanged; no bytes are sent or
     * fetched and the stored blocks are untouched.
     */
    method Delete(md: RootMetadata, id: BlockId, context: BlockContext) returns (err: Option<Error>)
      requires server.Valid()
      modifies server
      ensures server.Valid()
      ensures server.calls == old(server.calls) + [RemoveReferenceCall(id, md.id, context)]
      ensures err == server.reply(RemoveReferenceCall(id, md.id, context))
      ensures server.refs == if err.None? then RemoveRef(old(server.refs), id, context.refNonce) else old(server.refs)
      ensures server.blocks == old(server.blocks)
    {
      err := server.RemoveBlockReference(id, md.id, context);
    }
  }
}
