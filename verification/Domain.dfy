/** The vocabulary shared by the services: items as the item-service publishes them and the
    matching-service stores them, and the envelope that carries them. */
module Domain {

  datatype Option<+T> = None | Some(value: T)

  datatype Result<+T, +E> = Ok(value: T) | Err(error: E)

  // UUIDs are opaque; only equality is ever used on them.
  type ItemId = nat
  type UserId = nat
  type EventId = nat

  datatype Classification = LOST | FOUND

  datatype ItemStatus = AVAILABLE | MATCHED | IN_RECOVERY | RECOVERED | CANCELLED | CLOSED

  /** An item row, which is also the payload of an item event and a row of the projection table.
      `date` counts days. */
  datatype Item = Item(
    id: ItemId,
    classification: Classification,
    title: string,
    description: string,
    category: string,
    color: string,
    location: string,
    date: int,
    reporter: UserId,
    status: ItemStatus,
    version: int)

  datatype EventType = ItemCreated | ItemUpdated | OtherEvent(name: string)

  datatype Envelope = Envelope(
    eventId: EventId,
    eventType: EventType,
    aggregateId: ItemId,
    aggregateVersion: int,
    payload: Item)

  function Lookup<K(==), V>(m: map<K, V>, key: K): Option<V> {
    if key in m then Some(m[key]) else None
  }
}
