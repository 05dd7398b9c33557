/** The per-world publisher: captures are free, `PublishOnce` is the only writer of the live root. */
module Publication {
  import opened Wrappers
  import opened Protocol

  /** A bound but unpublished successor of the root that was live when it was bound. */
  datatype PreparedPublication = PreparedPublication(
    tokenId: U64, base: Root, worldId: string, contextId: string, generation: U64, next: Root)

  class PublicationAuthority {
    const worldId: string
    const contextId: string
    const generation: U64
    var root: Root
    var nextTokenId: U64

    ghost function Model(): Authority
      reads this
    {
      Authority(worldId, contextId, generation, root, nextTokenId)
    }

    constructor (worldId: string, contextId: string, generation: U64, initial: Root)
      ensures Model() == Authority(worldId, contextId, generation, initial, 0)
    {
      this.worldId := worldId;
      this.contextId := contextId;
      this.generation := generation;
      root := initial;
      nextTokenId := 0;
    }

    /** Binding uses up a token id and folds the replacement into the successor's identity. */
    method Prepare(target: U64, next: Root, replacement: Directory)
      returns (r: Result<PreparedPublication, ProtocolError>)
      modifies this`nextTokenId
      ensures r.Ok? <==>
        && next.stamp.worldId == worldId && next.stamp.contextId == contextId && next.stamp.generation == generation
        && target == next.stamp.worldRevision && old(nextTokenId) + 1 < U64_LIMIT
      ensures r.Ok? ==> r.value == PreparedPublication(
        old(nextTokenId), root, worldId, contextId, generation, next.(replacement := Some(replacement)))
      ensures r.Ok? ==> nextTokenId == old(nextTokenId) + 1
      ensures r.Err? ==> nextTokenId == old(nextTokenId)
      ensures r.Err? ==>
        r.error == if next.stamp.worldId != worldId || next.stamp.contextId != contextId then SessionMismatch
                   else if next.stamp.generation != generation then StaleEpoch else InvalidHandle
    {
      if next.stamp.worldId != worldId || next.stamp.contextId != contextId {
        return Err(SessionMismatch);
      }
      if next.stamp.generation != generation {
        return Err(StaleEpoch);
      }
      if target != next.stamp.worldRevision {
        return Err(InvalidHandle);
      }
      if nextTokenId + 1 >= U64_LIMIT {
        return Err(InvalidHandle);
      }
      var tokenId := nextTokenId;
      nextTokenId := nextTokenId + 1;
      var bound := next.(replacement := Some(replacement));
      r := Ok(PreparedPublication(tokenId, root, worldId, contextId, generation, bound));
    }

    /** A token of this authority is published exactly when its base is still the live root. */
    method PublishOnce(token: PreparedPublication) returns (r: Result<Root, ProtocolError>)
      modifies this`root
      ensures r.Ok? <==>
        && token.worldId == worldId && token.contextId == contextId && token.generation == generation
        && token.base == old(root)
      ensures r.Ok? ==> root == token.next && r.value == token.next
      ensures r.Err? ==> root == old(root)
      ensures token.worldId != worldId || token.contextId != contextId ==> r == Err(SessionMismatch)
      ensures token.worldId == worldId && token.contextId == contextId && token.generation != generation
        ==> r == Err(StaleEpoch)
      ensures token.worldId == worldId && token.contextId == contextId && token.generation == generation && r.Err?
        ==> r.error == SnapshotBaseMismatch
    {
      if token.worldId != worldId || token.contextId != contextId {
        return Err(SessionMismatch);
      }
      if token.generation != generation {
        return Err(StaleEpoch);
      }
      if token.base != root {
        return Err(SnapshotBaseMismatch);
      }
      root := token.next;
      r := Ok(root);
    }

    /** Bind, seal and publish in one exclusive step, as every barrier does. */
    method PublishSuccessor(next: Root, replacement: Directory, pinFree: bool) returns (r: Outcome<ProtocolError>)
      modifies this
      ensures (Model(), r) == PublishNext(old(Model()), next.(replacement := Some(replacement)), pinFree)
    {
      var prepared := Prepare(next.stamp.worldRevision, next, replacement);
      if prepared.Err? {
        return Fail(prepared.error);
      }
      if !pinFree {
        return Fail(BudgetExceeded);
      }
      var published := PublishOnce(prepared.value);
      r := Pass;
    }
  }
}
