/**
 * The session engine of the LiTime BMS integration: the coordinator object
 * whose fields hold the link handle, the reassembly state and the session
 * counters, and whose methods are the polling cycle, the notification
 * callback, connection management and the relay commands
 * (coordinator.py, class `LitimeBmsCoordinator`).
 *
 * Everything the BLE transport does is an argument: a `LinkOracle` for the
 * connect step, a flag for whether a GATT write succeeds, and the sequence
 * of notification packets that arrive while a response is awaited.
 */
module Coordinator {
  import opened Wrappers
  import opened Bytes
  import opened Frames
  import opened Status
  import opened Reassembly
  import opened Gatt
  import opened Link

  /** The device constants the engine is built with: GATT UUIDs, decoding
      tables and command opcodes. */
  datatype Config = Config(uuids: Uuids, tables: Tables, queryStatus: byte,
                           chargeOn: byte, chargeOff: byte, dischargeOn: byte, dischargeOff: byte)

  class LitimeBmsCoordinator {
    const address: string
    const deviceName: string
    const cfg: Config

    // the link handle
    var client: Option<Client>
    var writeChar: Option<Characteristic>
    var notifyChar: Option<Characteristic>
    var connected: bool

    // notification reassembly and the response event
    var responseBuffer: seq<byte>
    var responseData: Option<seq<byte>>
    var responseEvent: bool

    // session state
    var missedUpdates: nat
    var connectionEnabled: bool

    // effects on the transport and the polling framework, recorded
    var written: seq<seq<byte>>   // frames written to the write characteristic
    var closeRequests: nat        // graceful disconnects asked of the transport
    var refreshRequests: nat      // refreshes asked of the polling framework
    var published: Option<Reading> // the last reading pushed to the framework out of cycle

    function LinkHandle(): Handles
      reads this
    {
      Handles(client, writeChar, notifyChar, connected)
    }

    function Pending(): Reassembler
      reads this
    {
      Reassembler(responseBuffer, responseData, responseEvent)
    }

    /** The object invariant: a held client always comes with the
        characteristics negotiated on it, and the reassembly state is sound. */
    ghost predicate Valid()
      reads this
    {
      Negotiated(LinkHandle(), cfg.uuids) && Reassembly.Valid(Pending())
    }

    constructor (address: string, name: string, cfg: Config)
      ensures Valid()
      ensures this.address == address && deviceName == name && this.cfg == cfg
      ensures LinkHandle() == NoLink && Pending() == Cleared
      ensures missedUpdates == 0 && connectionEnabled
      ensures written == [] && closeRequests == 0 && refreshRequests == 0 && published == None
    {
      this.address := address;
      deviceName := name;
      this.cfg := cfg;
      client, writeChar, notifyChar := None, None, None;
      responseBuffer, responseData, responseEvent := [], None, false;
      missedUpdates := 0;
      connected := false;
      connectionEnabled := true;
      written, closeRequests, refreshRequests, published := [], 0, 0, None;
    }

    /** `_notification_handler`: one inbound packet. */
    method NotificationHandler(data: seq<byte>)
      requires Valid()
      modifies this`responseBuffer, this`responseData, this`responseEvent
      ensures Valid()
      ensures Pending() == Receive(old(Pending()), data)
    {
      ReceiveValid(Pending(), data);
      if |data| > RESPONSE_MARKER_OFFSET && data[RESPONSE_MARKER_OFFSET] == RESPONSE_MARKER_VALUE {
        responseBuffer := data;
      } else {
        if |responseBuffer| > 0 {
          responseBuffer := responseBuffer + data;
        } else {
          return;
        }
      }
      if |responseBuffer| >= MIN_RESPONSE_LENGTH {
        responseData := Some(responseBuffer);
        responseBuffer := [];
        responseEvent := true;
      }
    }

    /** Clears the link handle after a transport error. */
    method DropLink()
      modifies this`client, this`writeChar, this`notifyChar, this`connected
      ensures LinkHandle() == NoLink
    {
      client := None;
      writeChar := None;
      notifyChar := None;
      connected := false;
    }

    /** `_ensure_connected`. */
    method EnsureConnected(o: LinkOracle) returns (ok: bool)
      requires Valid()
      modifies this`client, this`writeChar, this`notifyChar, this`connected,
               this`missedUpdates, this`closeRequests
      ensures Valid()
      ensures var out := Connect(old(LinkHandle()), o, cfg.uuids);
              && ok == out.ok && LinkHandle() == out.handles
              && missedUpdates == (if out.resetMissed then 0 else old(missedUpdates))
              && closeRequests == old(closeRequests) + (if out.closed then 1 else 0)
    {
      if client.Some? && o.stillConnected {
        return true;
      }
      if !o.resolved {
        return false;
      }
      match o.attempt {
        case ConnectFailed =>
          DropLink();
          return false;
        case Connected(c) =>
          client := Some(c);
          var notify, write := SelectCharacteristics(c.services, cfg.uuids);
          if notify.Some? {
            if !o.subscribeOk {
              DropLink();
              return false;
            }
            notifyChar := notify;
          } else {
            closeRequests := closeRequests + 1;
            if !o.closeOk {
              DropLink();
              return false;
            }
            client := None;
            return false;
          }
          if write.Some? {
            writeChar := write;
          } else {
            closeRequests := closeRequests + 1;
            if !o.closeOk {
              DropLink();
              return false;
            }
            client := None;
            return false;
          }
          connected := true;
          missedUpdates := 0;
          return true;
      }
    }

    /** `_send_command`: without a client or write characteristic nothing is
        sent and nothing is raised; otherwise the frame is written, and a
        failed write is reported to the caller (`failed`). */
    method SendCommand(cmd: byte, writeOk: bool) returns (failed: bool)
      modifies this`written
      ensures client.None? || writeChar.None? ==> !failed && written == old(written)
      ensures client.Some? && writeChar.Some? ==>
                failed == !writeOk && written == old(written) + (if writeOk then [BuildCommand(cmd)] else [])
    {
      if client.None? || writeChar.None? {
        return false;
      }
      var frame := BuildCommand(cmd);
      if !writeOk {
        return true;
      }
      written := written + [frame];
      return false;
    }

    /** The wait for the response event: the packets the transport delivers
        are handled one by one until the event is set or they run out. */
    method AwaitResponse(arrivals: seq<seq<byte>>)
      requires Valid()
      modifies this`responseBuffer, this`responseData, this`responseEvent
      ensures Valid()
      ensures Pending() == Deliver(old(Pending()), arrivals)
    {
      var i := 0;
      while i < |arrivals| && !responseEvent
        invariant 0 <= i <= |arrivals|
        invariant Valid()
        invariant Deliver(Pending(), arrivals[i..]) == Deliver(old(Pending()), arrivals)
      {
        assert arrivals[i..][1..] == arrivals[i + 1..];
        NotificationHandler(arrivals[i]);
        i := i + 1;
      }
    }

    /** `_async_update_data`: one polling cycle. `arrivals` are the packets
        the transport delivers while the response is awaited; if they do not
        complete a response, the wait times out. */
    method UpdateData(o: LinkOracle, writeOk: bool, arrivals: seq<seq<byte>>) returns (reading: Reading)
      requires Valid()
      modifies this`client, this`writeChar, this`notifyChar, this`connected, this`missedUpdates,
               this`closeRequests, this`responseBuffer, this`responseData, this`responseEvent, this`written
      ensures Valid()
      // connection disabled: nothing is attempted and nothing changes
      ensures !old(connectionEnabled) ==>
                reading == OfflineData() && LinkHandle() == old(LinkHandle()) && Pending() == old(Pending())
                && missedUpdates == old(missedUpdates) && written == old(written)
                && closeRequests == old(closeRequests)
      ensures old(connectionEnabled) ==>
                var out := Connect(old(LinkHandle()), o, cfg.uuids);
                var missed := if out.resetMissed then 0 else old(missedUpdates);
                && closeRequests == old(closeRequests) + (if out.closed then 1 else 0)
                // no link: one more miss, reassembly untouched
                && (!out.ok ==>
                      reading == OfflineData() && LinkHandle() == out.handles && Pending() == old(Pending())
                      && missedUpdates == old(missedUpdates) + 1 && written == old(written))
                // the query could not be written: one more miss, link dropped
                && (out.ok && !writeOk ==>
                      reading == OfflineData() && LinkHandle() == NoLink && Pending() == Cleared
                      && missedUpdates == missed + 1 && written == old(written))
                // the query was written; the reassembler restarted from a cleared state
                && (out.ok && writeOk ==>
                      && written == old(written) + [BuildCommand(cfg.queryStatus)]
                      && Pending() == Deliver(Cleared, arrivals)
                      && LinkHandle() == out.handles
                      // timeout: one more miss, link kept for the next cycle
                      && (!Pending().eventSet ==> reading == OfflineData() && missedUpdates == missed + 1)
                      // response: decoded, miss counter reset
                      && (Pending().eventSet ==>
                            missedUpdates == 0 && Describes(reading, ReadRaw(Pending().response.value), cfg.tables)))
    {
      if !connectionEnabled {
        return OfflineData();
      }
      var ok := ConnectForCycle(o);
      if !ok {
        return OfflineData();
      }
      reading := QueryCycle(writeOk, arrivals);
    }

    /** The connect step of `_async_update_data`: a link that cannot be
        established counts one missed update. */
    method ConnectForCycle(o: LinkOracle) returns (ok: bool)
      requires Valid()
      modifies this`client, this`writeChar, this`notifyChar, this`connected,
               this`missedUpdates, this`closeRequests
      ensures Valid()
      ensures var out := Connect(old(LinkHandle()), o, cfg.uuids);
              && ok == out.ok && LinkHandle() == out.handles
              && closeRequests == old(closeRequests) + (if out.closed then 1 else 0)
              && (ok ==> client.Some? && writeChar.Some?)
              && missedUpdates == (if !ok then old(missedUpdates) + 1 else if out.resetMissed then 0 else old(missedUpdates))
    {
      ConnectKeepsNegotiated(LinkHandle(), o, cfg.uuids);
      ok := EnsureConnected(o);
      if !ok {
        missedUpdates := missedUpdates + 1;
      }
    }

    /** The transaction of one polling cycle once the link is up: send the
        query, await the response, decode it. */
    method QueryCycle(writeOk: bool, arrivals: seq<seq<byte>>) returns (reading: Reading)
      requires Valid() && client.Some? && writeChar.Some?
      modifies this`responseBuffer, this`responseData, this`responseEvent, this`written,
               this`missedUpdates, this`client, this`writeChar, this`notifyChar, this`connected
      ensures Valid()
      ensures !writeOk ==>
                reading == OfflineData() && LinkHandle() == NoLink && Pending() == Cleared
                && missedUpdates == old(missedUpdates) + 1 && written == old(written)
      ensures writeOk ==>
                && written == old(written) + [BuildCommand(cfg.queryStatus)]
                && Pending() == Deliver(Cleared, arrivals)
                && LinkHandle() == old(LinkHandle())
                && (!Pending().eventSet ==> reading == OfflineData() && missedUpdates == old(missedUpdates) + 1)
                && (Pending().eventSet ==>
                      missedUpdates == 0 && Describes(reading, ReadRaw(Pending().response.value), cfg.tables))
    {
      var failed := SendQuery(writeOk);
      if failed {
        return OfflineData();
      }
      AwaitResponse(arrivals);
      assert Pending() == Deliver(Cleared, arrivals);
      reading := ConcludeCycle();
    }

    /** The part of `_async_update_data` between connecting and waiting:
        event, response slot and buffer are cleared, then the status query
        is sent; a failed write counts a miss and drops the link. */
    method SendQuery(writeOk: bool) returns (failed: bool)
      requires Valid() && client.Some? && writeChar.Some?
      modifies this`responseBuffer, this`responseData, this`responseEvent, this`written,
               this`missedUpdates, this`client, this`writeChar, this`notifyChar, this`connected
      ensures Valid()
      ensures Pending() == Cleared
      ensures failed == !writeOk
      ensures failed ==> written == old(written) && missedUpdates == old(missedUpdates) + 1 && LinkHandle() == NoLink
      ensures !failed ==>
                written == old(written) + [BuildCommand(cfg.queryStatus)]
                && missedUpdates == old(missedUpdates) && LinkHandle() == old(LinkHandle())
    {
      responseEvent := false;
      responseData := None;
      responseBuffer := [];
      failed := SendCommand(cfg.queryStatus, writeOk);
      if failed {
        missedUpdates := missedUpdates + 1;
        DropLink();
      }
    }

    /** The end of `_async_update_data`: no event means a timeout and one
        more miss; a response is decoded and resets the miss counter. */
    method ConcludeCycle() returns (reading: Reading)
      requires Valid()
      modifies this`missedUpdates
      ensures !responseEvent ==> reading == OfflineData() && missedUpdates == old(missedUpdates) + 1
      ensures responseEvent ==> missedUpdates == 0 && Describes(reading, ReadRaw(responseData.value), cfg.tables)
    {
      if !responseEvent {
        missedUpdates := missedUpdates + 1;
        return OfflineData();
      }
      if responseData.None? {
        return OfflineData();
      }
      var parsed := ParseStatusResponse(responseData.value, cfg.tables);
      if parsed.Err? {
        return OfflineData();
      }
      missedUpdates := 0;
      return parsed.value;
    }

    /** `async_disconnect`: a graceful close is asked of a connected client
        (its failure is ignored); the link handle is always cleared. */
    method Disconnect(stillConnected: bool)
      modifies this`client, this`writeChar, this`notifyChar, this`connected, this`closeRequests
      ensures LinkHandle() == NoLink
      ensures closeRequests == old(closeRequests) + (if old(client).Some? && stillConnected then 1 else 0)
    {
      if client.Some? && stillConnected {
        closeRequests := closeRequests + 1;
      }
      DropLink();
    }

    /** `async_set_connection_enabled`. Enabling resets the miss counter and
        asks for a refresh; disabling drops the link and publishes the
        offline reading at once. */
    method SetConnectionEnabled(enabled: bool, stillConnected: bool)
      requires Valid()
      modifies this
      ensures Valid()
      ensures connectionEnabled == enabled
      ensures Pending() == old(Pending()) && written == old(written)
      ensures enabled ==>
                missedUpdates == 0 && refreshRequests == old(refreshRequests) + 1
                && LinkHandle() == old(LinkHandle()) && published == old(published)
                && closeRequests == old(closeRequests)
      ensures !enabled ==>
                LinkHandle() == NoLink && published == Some(OfflineData())
                && missedUpdates == old(missedUpdates) && refreshRequests == old(refreshRequests)
                && closeRequests == old(closeRequests) + (if old(client).Some? && stillConnected then 1 else 0)
    {
      connectionEnabled := enabled;
      if enabled {
        missedUpdates := 0;
        refreshRequests := refreshRequests + 1;
      } else {
        Disconnect(stillConnected);
        published := Some(OfflineData());
      }
    }

    /** The shared body of `async_set_charging` and `async_set_discharging`:
        without a link nothing is sent; otherwise the opcode is written and a
        refresh is asked for, unless the write fails (`failed`, raised to the caller). */
    method RelayCommand(cmd: byte, o: LinkOracle, writeOk: bool) returns (failed: bool)
      requires Valid()
      modifies this`client, this`writeChar, this`notifyChar, this`connected,
               this`missedUpdates, this`closeRequests, this`written, this`refreshRequests
      ensures Valid()
      ensures var out := Connect(old(LinkHandle()), o, cfg.uuids);
              && LinkHandle() == out.handles
              && missedUpdates == (if out.resetMissed then 0 else old(missedUpdates))
              && closeRequests == old(closeRequests) + (if out.closed then 1 else 0)
              && (!out.ok ==> !failed && written == old(written) && refreshRequests == old(refreshRequests))
              && (out.ok ==>
                    && failed == !writeOk
                    && written == old(written) + (if writeOk then [BuildCommand(cmd)] else [])
                    && refreshRequests == old(refreshRequests) + (if writeOk then 1 else 0))
    {
      ConnectKeepsNegotiated(LinkHandle(), o, cfg.uuids);
      var ok := EnsureConnected(o);
      if !ok {
        return false;
      }
      failed := SendCommand(cmd, writeOk);
      if failed {
        return;
      }
      refreshRequests := refreshRequests + 1;
    }

    /** `async_set_charging`. */
    method SetCharging(enabled: bool, o: LinkOracle, writeOk: bool) returns (failed: bool)
      requires Valid()
      modifies this`client, this`writeChar, this`notifyChar, this`connected,
               this`missedUpdates, this`closeRequests, this`written, this`refreshRequests
      ensures Valid()
      ensures var out := Connect(old(LinkHandle()), o, cfg.uuids);
              && LinkHandle() == out.handles
              && missedUpdates == (if out.resetMissed then 0 else old(missedUpdates))
              && closeRequests == old(closeRequests) + (if out.closed then 1 else 0)
              && (out.ok && writeOk ==>
                    !failed && written == old(written) + [BuildCommand(if enabled then cfg.chargeOn else cfg.chargeOff)]
                    && refreshRequests == old(refreshRequests) + 1)
              && (!out.ok ==> !failed && written == old(written) && refreshRequests == old(refreshRequests))
              && (out.ok && !writeOk ==> failed && written == old(written) && refreshRequests == old(refreshRequests))
    {
      failed := RelayCommand(if enabled then cfg.chargeOn else cfg.chargeOff, o, writeOk);
    }

    /** `async_set_discharging`. */
    method SetDischarging(enabled: bool, o: LinkOracle, writeOk: bool) returns (failed: bool)
      requires Valid()
      modifies this`client, this`writeChar, this`notifyChar, this`connected,
               this`missedUpdates, this`closeRequests, this`written, this`refreshRequests
      ensures Valid()
      ensures var out := Connect(old(LinkHandle()), o, cfg.uuids);
              && LinkHandle() == out.handles
              && missedUpdates == (if out.resetMissed then 0 else old(missedUpdates))
              && closeRequests == old(closeRequests) + (if out.closed then 1 else 0)
              && (out.ok && writeOk ==>
                    !failed && written == old(written) + [BuildCommand(if enabled then cfg.dischargeOn else cfg.dischargeOff)]
                    && refreshRequests == old(refreshRequests) + 1)
              && (!out.ok ==> !failed && written == old(written) && refreshRequests == old(refreshRequests))
              && (out.ok && !writeOk ==> failed && written == old(written) && refreshRequests == old(refreshRequests))
    {
      failed := RelayCommand(if enabled then cfg.dischargeOn else cfg.dischargeOff, o, writeOk);
    }
  }
}
