/**
 * The mapping module as it runs: the lazily filled `allowedContracts`
 * global, the entity store behind `Position.load` / `save`, and the two
 * event handlers, which change both step by step.
 */
module Mapping {
  import opened Runtime
  import opened Schema
  import opened Identity
  import opened AllowList
  import opened Handlers

  datatype Option<T> = None | Some(value: T)

  class Subgraph {
    /** The host conversions the mapping calls. */
    const host: Host
    /** The module-level `allowedContracts` array: empty until first used. */
    var allowedContracts: seq<Bytes>
    /** The entity store. */
    var store: Store

    ghost predicate Valid()
      reads this
    {
      && (allowedContracts == [] || allowedContracts == AllowedContracts(host))
      && KeyedById(store)
    }

    /** A fresh module instance over a store whose records sit under their ids. */
    constructor (host: Host, store: Store)
      requires KeyedById(store)
      ensures Valid()
      ensures this.host == host && allowedContracts == [] && this.store == store
    {
      this.host := host;
      allowedContracts := [];
      this.store := store;
    }

    /**
     * `isAllowedContract`: fill the list on the first call, then test
     * membership. Afterwards the list holds exactly the two addresses,
     * whatever it held before.
     */
    method IsAllowedContract(contract: Bytes) returns (allowed: bool)
      requires Valid()
      modifies this`allowedContracts
      ensures Valid()
      ensures allowedContracts == AllowedContracts(host)
      ensures old(allowedContracts) != [] ==> allowedContracts == old(allowedContracts)
      ensures allowed <==> contract == host.bytesFromHex(FirstContractHex) || contract == host.bytesFromHex(SecondContractHex)
    {
      if |allowedContracts| == 0 {
        allowedContracts := [host.bytesFromHex(FirstContractHex), host.bytesFromHex(SecondContractHex)];
      }
      allowed := contract in allowedContracts;
    }

    /** `Position.load(id)` */
    method Load(id: string) returns (entity: Option<Position>)
      requires Valid()
      ensures entity.None? <==> id !in store
      ensures entity.Some? ==> id in store && entity.value == store[id] && entity.value.id == id
    {
      if id in store {
        entity := Some(store[id]);
      } else {
        entity := None;
      }
    }

    /** `entity.save()`: write the whole record under its own id. */
    method Save(entity: Position)
      requires Valid()
      modifies this`store
      ensures Valid()
      ensures store == old(store)[entity.id := entity]
    {
      store := store[entity.id := entity];
    }

    /** `handleOpenPosition` */
    method HandleOpenPosition(event: OpenPositionEvent)
      requires Valid()
      modifies this
      ensures Valid()
      ensures allowedContracts == AllowedContracts(host)
      ensures store == OnOpenPosition(host, Keys(host), old(store), event)
    {
      var allowed := IsAllowedContract(event.address);
      if !allowed {
        return;
      }
      var entityId := PositionId(host, event.address, event.owner);
      assert entityId == CurrentKey(Keys(host), Open(event));
      var loaded := Load(entityId);
      var entity: Position;
      if loaded.Some? {
        entity := loaded.value;
        var oldEntity := NewPosition(SnapshotId(host, event.address, event.owner, event.blockNumber, event.logIndex));
        oldEntity := oldEntity.(
          contract := entity.contract,
          owner := entity.owner,
          amount := entity.amount,
          stopLoss := entity.stopLoss,
          takeProfit := entity.takeProfit,
          closed := true);
        Save(oldEntity);
      } else {
        entity := NewPosition(entityId);
      }
      entity := entity.(
        contract := event.address,
        owner := event.owner,
        amount := event.amount,
        stopLoss := event.stopLoss,
        takeProfit := event.takeProfit,
        closed := false);
      Save(entity);
    }

    /** `handleClosePosition` */
    method HandleClosePosition(event: ClosePositionEvent)
      requires Valid()
      modifies this
      ensures Valid()
      ensures allowedContracts == AllowedContracts(host)
      ensures store == OnClosePosition(host, Keys(host), old(store), event)
    {
      var allowed := IsAllowedContract(event.address);
      if !allowed {
        return;
      }
      var entityId := PositionId(host, event.address, event.owner);
      assert entityId == CurrentKey(Keys(host), Close(event));
      var loaded := Load(entityId);
      if loaded.Some? {
        var entity := loaded.value;
        var oldEntity := NewPosition(SnapshotId(host, event.address, event.owner, event.blockNumber, event.logIndex));
        oldEntity := oldEntity.(
          contract := entity.contract,
          owner := entity.owner,
          amount := entity.amount,
          stopLoss := entity.stopLoss,
          takeProfit := entity.takeProfit,
          closed := true);
        assert oldEntity == Archived(entity, oldEntity.id);
        Save(oldEntity);
        entity := entity.(contract := ZeroAddress(host), owner := ZeroAddress(host));
        assert entity == Zeroed(host, loaded.value);
        Save(entity);
      }
    }
  }
}
