// The tracker's device configuration commands: the BLE name and the BLE
// advertising interval are written and read by a 32-bit configuration id,
// and a ping answers with the chip and middleware versions.
module UwbConfigHandler {
  import opened Bytes
  import opened TlvBuilder

  const SET_CONFIG: u8 := 0x01
  const GET_CONFIG: u8 := 0x02
  const DEVICE_PING: u8 := 0x03
  const CHIP_VERSION: u8 := 0x01
  const MW_VERSION: u8 := 0x02

  const BLE_NAME_SIZE: u8 := 24
  /** The configuration ids, in the order `UWBT_ConfigId_t` lists them. */
  const BLE_NAME: u32 := 0
  const BLE_INTERVAL: u32 := 1

  /** `UWBT_Config_t`: an id, whether it may be written and read, and the
      bounds of its value's length. */
  datatype ConfigEntry = ConfigEntry(configId: u32, setEnabled: bool, getEnabled: bool,
                                     expLenLowerBound: u8, expLenUpperBound: u8)

  /** `configTable`. */
  const ConfigTable: seq<ConfigEntry> :=
    [ConfigEntry(BLE_NAME, true, true, 1, BLE_NAME_SIZE),
     ConfigEntry(BLE_INTERVAL, true, true, 2, 2)]

  /** The table's entry for an id, if it has one. */
  function EntryFor(configId: u32): (r: Option<ConfigEntry>)
    ensures r.Some? <==> exists i :: 0 <= i < |ConfigTable| && ConfigTable[i].configId == configId
    ensures r.Some? ==> r.value in ConfigTable && r.value.configId == configId
  {
    if configId == BLE_NAME then Some(ConfigTable[0])
    else if configId == BLE_INTERVAL then Some(ConfigTable[1])
    else None
  }

  /** `findConfigById`: the first entry with the id. */
  method FindConfigById(configId: u32) returns (cfg: Option<ConfigEntry>)
    ensures cfg == EntryFor(configId)
  {
    for i := 0 to |ConfigTable|
      invariant forall j :: 0 <= j < i ==> ConfigTable[j].configId != configId
    {
      if configId == ConfigTable[i].configId {
        return Some(ConfigTable[i]);
      }
    }
    return None;
  }

  /** `checkLength`: both bounds are inclusive. */
  predicate CheckLength(cfg: ConfigEntry, actualLen: nat)
  {
    cfg.expLenLowerBound as nat <= actualLen <= cfg.expLenUpperBound as nat
  }

  /** A name takes 1 to 24 bytes and an interval exactly two. */
  lemma ConfigLengths(actualLen: nat)
    ensures CheckLength(EntryFor(BLE_NAME).value, actualLen) <==> 1 <= actualLen <= 24
    ensures CheckLength(EntryFor(BLE_INTERVAL).value, actualLen) <==> actualLen == 2
  {
  }

  /** What a write request asks the configuration store to keep. */
  datatype ConfigWrite = WriteBleName(name: seq<u8>) | WriteBleInterval(interval: u16)

  /** The write a request makes, or None when it is turned down: an id the
      table has, a value of a length it allows, and writing enabled. The
      interval is big endian. */
  function WriteFor(configId: u32, configValue: seq<u8>): (w: Option<ConfigWrite>)
    ensures w.Some? <==> EntryFor(configId).Some? && CheckLength(EntryFor(configId).value, |configValue|)
    ensures w.Some? && configId == BLE_NAME ==> w.value == WriteBleName(configValue) && 1 <= |configValue| <= 24
    ensures w.Some? && configId == BLE_INTERVAL ==>
      |configValue| == 2 && w.value.WriteBleInterval? && ToBE16(w.value.interval) == configValue
  {
    var cfg := EntryFor(configId);
    if cfg.None? || !CheckLength(cfg.value, |configValue|) || !cfg.value.setEnabled then None
    else if cfg.value.configId == BLE_NAME then Some(WriteBleName(configValue))
    else
      assert configValue == [configValue[0], configValue[1]];
      Some(WriteBleInterval(BE16(configValue[0], configValue[1])))
  }

  /** `handleWriteCfgRequest`: `writeOk` is the configuration store's answer
      to the write. Returns the write asked of it, if any. */
  method HandleWriteCfgRequest(configId: u32, configValue: seq<u8>, writeOk: bool)
    returns (ok: bool, write: Option<ConfigWrite>)
    ensures write == WriteFor(configId, configValue)
    ensures ok <==> write.Some? && writeOk
  {
    ok := false;
    write := None;
    var cfg := FindConfigById(configId);
    if cfg.None? {
      return;
    }
    if !CheckLength(cfg.value, |configValue|) {
      return;
    }
    if !cfg.value.setEnabled {
      return;
    }
    if cfg.value.configId == BLE_NAME {
      write := Some(WriteBleName(configValue));
    } else {
      write := Some(WriteBleInterval(BE16(configValue[0], configValue[1])));
    }
    ok := writeOk;
  }

  /** The requests `handleConfigCmd` accepts. */
  predicate ConfigRequestOk(subtype: u8, value: seq<u8>, writeOk: bool)
  {
    (subtype == SET_CONFIG && |value| >= 5 && WriteFor(BE32(value[1], value[2], value[3], value[4]), value[5..]).Some? && writeOk)
    || (subtype == GET_CONFIG && |value| == 5 && EntryFor(BE32(value[1], value[2], value[3], value[4])).Some?)
    || (subtype == DEVICE_PING && |value| == 1)
  }

  /** The fields `handleConfigCmd` adds to the response. A read answers with
      status 1 and the value (the stored name without its terminator, or
      the interval as a 32-bit word); a ping echoes its subtype and the two
      versions; any other request answers with its status byte. */
  function ConfigFields(subtype: u8, value: seq<u8>, writeOk: bool, storedName: seq<u8>, storedInterval: u32): seq<seq<u8>>
  {
    if subtype == GET_CONFIG && |value| == 5 && EntryFor(BE32(value[1], value[2], value[3], value[4])).Some? then
      if BE32(value[1], value[2], value[3], value[4]) == BLE_NAME then [[1], storedName] else [[1], ToBE32(storedInterval)]
    else if subtype == DEVICE_PING && |value| == 1 then
      [[value[0]], [CHIP_VERSION], [MW_VERSION]]
    else
      [[if ConfigRequestOk(subtype, value, writeOk) then 1 else 0]]
  }

  /** `handleConfigCmd`: the request's value is the subtype and its
      arguments; `stale` is the byte read as the subtype of an empty value.
      `writeOk` is the store's answer to a write, `storedName` and
      `storedInterval` what it holds. Returns whether the request failed and
      the write it asked for, if any. */
  method HandleConfigCmd(b: Builder, value: seq<u8>, stale: u8, writeOk: bool, storedName: seq<u8>, storedInterval: u32)
    returns (error: bool, write: Option<ConfigWrite>)
    requires b.Valid() && |storedName| < 0x1_0000
    modifies b, b.mTlv
    ensures b.Valid() && b.mTlv[0] == old(b.mTlv[0])
    ensures var subtype := if |value| > 0 then value[0] else stale;
      && (error <==> !ConfigRequestOk(subtype, value, writeOk))
      && write == (if subtype == SET_CONFIG && |value| >= 5 then WriteFor(BE32(value[1], value[2], value[3], value[4]), value[5..]) else None)
      && b.Value() == AddAll(old(b.Value()), ConfigFields(subtype, value, writeOk, storedName, storedInterval))
  {
    var subtype := if |value| > 0 then value[0] else stale;
    var justRspStatus := true;
    var respStatus := true;
    write := None;
    if subtype == SET_CONFIG {
      if |value| >= 5 {
        respStatus, write := HandleWriteCfgRequest(BE32(value[1], value[2], value[3], value[4]), value[5..], writeOk);
      } else {
        respStatus := false;
      }
    } else if subtype == GET_CONFIG {
      if |value| == 5 {
        var cfg := FindConfigById(BE32(value[1], value[2], value[3], value[4]));
        if cfg.Some? && cfg.value.getEnabled {
          justRspStatus := false;
          var _ := b.TlvAddU8(1);
          if cfg.value.configId == BLE_NAME {
            var _ := b.TlvAddPtr(storedName);
            AddTwo(old(b.Value()), [1], storedName);
          } else {
            var _ := b.TlvAddU32(storedInterval);
            AddTwo(old(b.Value()), [1], ToBE32(storedInterval));
          }
        } else {
          respStatus := false;
        }
      } else {
        respStatus := false;
      }
    } else if subtype == DEVICE_PING {
      if |value| == 1 {
        var _ := b.TlvAddU8(value[0]);
        var _ := b.TlvAddU8(CHIP_VERSION);
        var _ := b.TlvAddU8(MW_VERSION);
        AddThree(old(b.Value()), [value[0]], [CHIP_VERSION], [MW_VERSION]);
        justRspStatus := false;
      } else {
        respStatus := false;
      }
    } else {
      respStatus := false;
    }
    if justRspStatus {
      var _ := b.TlvAddU8(if respStatus then 1 else 0);
      AddOne(old(b.Value()), [if respStatus then 1 else 0]);
    }
    error := !respStatus;
  }

  /** In a fresh response: a ping reads back as its subtype and the two
      versions; a read of the interval as status 1 and the interval, big
      endian; any other request as one status byte, 1 exactly when it went
      through. */
  lemma ConfigResponseLayout(subtype: u8, value: seq<u8>, writeOk: bool, storedName: seq<u8>, storedInterval: u32)
    ensures subtype == DEVICE_PING && value == [DEVICE_PING] ==>
      AddAll([], ConfigFields(subtype, value, writeOk, storedName, storedInterval)) == [DEVICE_PING, CHIP_VERSION, MW_VERSION]
    ensures subtype == GET_CONFIG && |value| == 5 && BE32(value[1], value[2], value[3], value[4]) == BLE_INTERVAL ==>
      var rsp := AddAll([], ConfigFields(subtype, value, writeOk, storedName, storedInterval));
      |rsp| == 5 && rsp[0] == 1 && BE32(rsp[1], rsp[2], rsp[3], rsp[4]) == storedInterval
    ensures subtype != GET_CONFIG && subtype != DEVICE_PING ==>
      AddAll([], ConfigFields(subtype, value, writeOk, storedName, storedInterval)) == [if ConfigRequestOk(subtype, value, writeOk) then 1 else 0]
  {
    if subtype == DEVICE_PING && value == [DEVICE_PING] {
      AddThree([], [value[0]], [CHIP_VERSION], [MW_VERSION]);
    } else if subtype == GET_CONFIG && |value| == 5 && BE32(value[1], value[2], value[3], value[4]) == BLE_INTERVAL {
      AddTwo([], [1], ToBE32(storedInterval));
    } else if subtype != GET_CONFIG && subtype != DEVICE_PING {
      AddOne([], [if ConfigRequestOk(subtype, value, writeOk) then 1 else 0]);
    }
  }

  /** A set answers 1 exactly when the store took a write the table allows,
      and the interval it writes is the one the request carries. */
  lemma SetConfigAnswer(value: seq<u8>, writeOk: bool, interval: u16)
    requires |value| == 7 && BE32(value[1], value[2], value[3], value[4]) == BLE_INTERVAL
    requires value[5..] == ToBE16(interval)
    ensures ConfigRequestOk(SET_CONFIG, value, writeOk) <==> writeOk
    ensures WriteFor(BLE_INTERVAL, value[5..]) == Some(WriteBleInterval(interval))
  {
    var w := WriteFor(BLE_INTERVAL, value[5..]);
    assert w.Some?;
    assert ToBE16(w.value.interval) == ToBE16(interval);
    assert BE16(ToBE16(interval)[0], ToBE16(interval)[1]) == interval;
  }
}
