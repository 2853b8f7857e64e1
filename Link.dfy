/**
 * The link handle and the connect-and-negotiate step of `_ensure_connected`
 * (coordinator.py), with the transport's behaviour given as an oracle.
 */
module Link {
  import opened Wrappers
  import opened Gatt

  /** A transport connection, with the services it discovered. */
  datatype Client = Client(id: nat, services: seq<Service>)

  /** The outcome of establishing a connection (after the transport's own retries). */
  datatype Attempt = ConnectFailed | Connected(client: Client)

  /** What the transport does during one `_ensure_connected` call:
      whether an existing client still reports itself connected, whether the
      address resolves to a device, how connecting ends, whether subscribing
      to notifications succeeds and whether a teardown disconnect succeeds. */
  datatype LinkOracle = LinkOracle(stillConnected: bool, resolved: bool, attempt: Attempt,
                                   subscribeOk: bool, closeOk: bool)

  /** The link handle: the client and the two negotiated characteristics,
      plus the `_connected` flag. */
  datatype Handles = Handles(client: Option<Client>, writeChar: Option<Characteristic>,
                             notifyChar: Option<Characteristic>, connected: bool)

  const NoLink := Handles(None, None, None, false)

  /** The result of `_ensure_connected`: its return value, the new link
      handle, whether the missed-update counter is reset, and whether the
      fresh client was asked to disconnect. */
  datatype ConnectOutcome = ConnectOutcome(ok: bool, handles: Handles, resetMissed: bool, closed: bool)

  /** The characteristics negotiated on a client's services. */
  function NotifyOf(c: Client, ids: Uuids): Option<Characteristic>
  {
    NotifyChoice(Candidates(c.services, ids), ids)
  }

  function WriteOf(c: Client, ids: Uuids): Option<Characteristic>
  {
    WriteChoice(Candidates(c.services, ids), ids)
  }

  /** Whenever a client is held, both characteristics are held too, and they
      are the ones negotiated on that client's services. */
  predicate Negotiated(h: Handles, ids: Uuids)
  {
    h.client.Some? ==>
      && h.notifyChar.Some? && h.writeChar.Some?
      && h.notifyChar == NotifyOf(h.client.value, ids)
      && h.writeChar == WriteOf(h.client.value, ids)
  }

  /** `_ensure_connected`. A live client is reused as it is. An unresolvable
      address gives up with nothing changed. A transport error clears the
      whole handle. A missing notify or write characteristic disconnects the
      fresh client and drops it (a disconnect error clears the whole handle). */
  function Connect(h: Handles, o: LinkOracle, ids: Uuids): (out: ConnectOutcome)
    ensures out.ok ==> out.handles.client.Some?
    ensures out.resetMissed ==> out.ok && out.handles.connected
    ensures out.closed ==> !out.ok && out.handles.client.None?
  {
    if h.client.Some? && o.stillConnected then ConnectOutcome(true, h, false, false)
    else if !o.resolved then ConnectOutcome(false, h, false, false)
    else match o.attempt
      case ConnectFailed => ConnectOutcome(false, NoLink, false, false)
      case Connected(c) =>
        var notify := NotifyOf(c, ids);
        var write := WriteOf(c, ids);
        if notify.None? then
          ConnectOutcome(false, if o.closeOk then h.(client := None) else NoLink, false, true)
        else if !o.subscribeOk then ConnectOutcome(false, NoLink, false, false)
        else if write.None? then
          ConnectOutcome(false, if o.closeOk then h.(client := None, notifyChar := notify) else NoLink, false, true)
        else ConnectOutcome(true, Handles(Some(c), write, notify, true), true, false)
  }

  /** The fresh client offers both characteristics and accepts the subscription. */
  predicate Negotiates(o: LinkOracle, ids: Uuids)
  {
    o.attempt.Connected? && o.subscribeOk &&
    NotifyOf(o.attempt.client, ids).Some? && WriteOf(o.attempt.client, ids).Some?
  }

  /** Connecting succeeds exactly when a live client is reused or a fresh one
      negotiates both characteristics; the counter is reset only in the latter case. */
  lemma ConnectSucceeds(h: Handles, o: LinkOracle, ids: Uuids)
    ensures Connect(h, o, ids).ok <==>
              (h.client.Some? && o.stillConnected) || (o.resolved && Negotiates(o, ids))
    ensures Connect(h, o, ids).resetMissed <==>
              !(h.client.Some? && o.stillConnected) && o.resolved && Negotiates(o, ids)
  {
  }

  /** Connecting keeps the negotiated-handle invariant, and after a success
      the engine holds a client with both characteristics. */
  lemma ConnectKeepsNegotiated(h: Handles, o: LinkOracle, ids: Uuids)
    requires Negotiated(h, ids)
    ensures Negotiated(Connect(h, o, ids).handles, ids)
    ensures Connect(h, o, ids).ok ==>
              var n := Connect(h, o, ids).handles;
              n.client.Some? && n.writeChar.Some? && n.notifyChar.Some?
  {
  }

  /** A fresh client that lacks either characteristic is never kept. */
  lemma NegotiationFailureTearsDown(h: Handles, o: LinkOracle, ids: Uuids)
    requires !(h.client.Some? && o.stillConnected) && o.resolved && o.attempt.Connected?
    requires NotifyOf(o.attempt.client, ids).None? || WriteOf(o.attempt.client, ids).None?
    ensures !Connect(h, o, ids).ok && Connect(h, o, ids).handles.client.None?
    ensures NotifyOf(o.attempt.client, ids).None? || o.subscribeOk ==> Connect(h, o, ids).closed
  {
  }

  /** A client that is still connected is reused without reconnecting. */
  lemma LiveClientReused(h: Handles, o: LinkOracle, ids: Uuids)
    requires h.client.Some? && o.stillConnected
    ensures Connect(h, o, ids) == ConnectOutcome(true, h, false, false)
  {
  }
}
