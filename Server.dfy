/**
 * The block server as BlockOps sees it. Its storage medium and its reasons for
 * refusing a request are outside the model: `reply` fixes, for every request,
 * the error the server answers with (None when it accepts). An accepted
 * request changes the reference map and the stored blocks; every request is
 * recorded, in order, in `calls`.
 */
module Server {
  import opened Wrappers
  import opened DataTypes
  import opened BlockRefs

  /** One request to the block server, with the arguments it was given. */
  datatype ServerCall =
    | PutCall(id: BlockId, tlf: TlfId, context: BlockContext, buf: Bytes, serverHalf: ServerHalf)
    | AddReferenceCall(id: BlockId, tlf: TlfId, context: BlockContext)
    | RemoveReferenceCall(id: BlockId, tlf: TlfId, context: BlockContext)

  /** True of the one kind of request that sends a block's bytes. */
  predicate CarriesPayload(c: ServerCall)
  {
    c.PutCall?
  }

  /** What the server keeps of a stored block and hands back on a fetch. */
  datatype StoredBlock = StoredBlock(buf: Bytes, serverHalf: ServerHalf)

  class BlockServer {
    const reply: ServerCall -> Option<Error>
    var refs: RefMap
    var blocks: map<BlockId, StoredBlock>
    var calls: seq<ServerCall>

    /** The server keeps no block entry without references. */
    ghost predicate Valid()
      reads this
    {
      NoEmptyEntries(refs)
    }

    constructor (reply: ServerCall -> Option<Error>)
      ensures Valid() && this.reply == reply
      ensures refs == map[] && blocks == map[] && calls == []
    {
      this.reply := reply;
      refs := map[];
      blocks := map[];
      calls := [];
    }

    /** Stores a new block with its first reference. */
    method Put(id: BlockId, tlf: TlfId, context: BlockContext, buf: Bytes, serverHalf: ServerHalf)
      returns (err: Option<Error>)
      requires Valid()
      modifies this
      ensures Valid()
      ensures calls == old(calls) + [PutCall(id, tlf, context, buf, serverHalf)]
      ensures err == reply(PutCall(id, tlf, context, buf, serverHalf))
      ensures refs == if err.None? then AddRef(old(refs), id, context.refNonce, LiveRef) else old(refs)
      ensures blocks == if err.None? then old(blocks)[id := StoredBlock(buf, serverHalf)] else old(blocks)
    {
      var call := PutCall(id, tlf, context, buf, serverHalf);
      calls := calls + [call];
      err := reply(call);
      if err.None? {
        refs := AddRef(refs, id, context.refNonce, LiveRef);
        blocks := blocks[id := StoredBlock(buf, serverHalf)];
      }
    }

    /** Adds a reference to a block that is already stored; no bytes are sent. */
    method AddBlockReference(id: BlockId, tlf: TlfId, context: BlockContext) returns (err: Option<Error>)
      requires Valid()
      modifies this
      ensures Valid()
      ensures calls == old(calls) + [AddReferenceCall(id, tlf, context)]
      ensures err == reply(AddReferenceCall(id, tlf, context))
      ensures refs == if err.None? then AddRef(old(refs), id, context.refNonce, LiveRef) else old(refs)
      ensures blocks == old(blocks)
    {
      var call := AddReferenceCall(id, tlf, context);
      calls := calls + [call];
      err := reply(call);
      if err.None? {
        refs := AddRef(refs, id, context.refNonce, LiveRef);
      }
    }

    /** Removes one reference; the stored bytes are left to the server. */
    method RemoveBlockReference(id: BlockId, tlf: TlfId, context: BlockContext) returns (err: Option<Error>)
      requires Valid()
      modifies this
      ensures Valid()
      ensures calls == old(calls) + [RemoveReferenceCall(id, tlf, context)]
      ensures err == reply(RemoveReferenceCall(id, tlf, context))
      ensures refs == if err.None? then RemoveRef(old(refs), id, context.refNonce) else old(refs)
      ensures blocks == old(blocks)
    {
      var call := RemoveReferenceCall(id, tlf, context);
      calls := calls + [call];
      err := reply(call);
      if err.None? {
        refs := RemoveRef(refs, id, context.refNonce);
      }
    }
  }
}
