// The SR100T HAL's compiled-in configuration table and its lookups. A
// table entry's `val` pointer either is the number itself (TYPE_VAL) or
// points at memory (TYPE_DATA: a length byte then the bytes; TYPE_STR: a
// NUL-terminated string).
module NxpConfig {
  import opened Bytes

  const TYPE_VAL: u8 := 0
  const TYPE_DATA: u8 := 1
  const TYPE_STR: u8 := 2

  /** `NxpUwbConfig` keys used by the table and its callers. */
  const UWB_CORE_CONFIG_PARAM: u8 := 5
  const UWB_BOARD_VARIANT_CONFIG: u8 := 6
  const UWB_BOARD_VARIANT_VERSION: u8 := 7
  const UWB_MW_RANGING_FEATURE: u8 := 8
  const UWB_FW_LOG_THREAD_ID: u8 := 9
  const UWB_SET_FW_LOG_LEVEL: u8 := 10
  const UWB_STANDBY_TIMEOUT_VALUE: u8 := 11
  const UWB_RANG_CYCLE_INTERVAL: u8 := 12
  const UWB_APP_SESSION_TIMEOUT: u8 := 13
  const UWB_RANG_SESSION_INTERVAL: u8 := 14
  const UWB_DPD_ENTRY_TIMEOUT: u8 := 15
  const UWB_LOW_POWER_MODE: u8 := 16
  const UWB_HPD_ENTRY_TIMEOUT: u8 := 17
  const UWB_MHR_IN_CCM: u8 := 18
  const UWB_DDFS_TONE_CONFIG_ENABLE: u8 := 19
  const UWB_TELEC_CONFIG: u8 := 20

  const UWB_BOARD_RHODES_V3: nat := 3

  /** `sizeof(unsigned long)`, `sizeof(unsigned short)`,
      `sizeof(unsigned char)` on the 32-bit target. */
  const LONG_SIZE: nat := 4
  const SHORT_SIZE: nat := 2
  const CHAR_SIZE: nat := 1

  /** What an entry's `val` pointer holds. */
  datatype Val = Null | Word(n: nat) | Mem(bytes: seq<u8>)

  /** `NxpParam_t`. */
  datatype NxpParam = NxpParam(key: u8, ptype: u8, val: Val)

  /** `phNxpUciHal_core_configs`: a length byte, then a CORE_SET_CONFIG
      command with five parameters (low power mode, delay calibration,
      antenna spacing, DPD wakeup source, WTX count). */
  const CORE_CONFIGS: seq<u8> :=
    [0x9E, 0x20, 0x04, 0x00, 0x9A, 0x05,
     0x01, 0x01, 0x00,
     0xE4, 0x00, 0x08, 0xC0, 0x3A, 0xC0, 0x3A, 0xC0, 0x3A, 0xC0, 0x3A,
     0xE4, 0x01, 0x80] + seq(128, k => if k % 4 == 3 then 0x28 else 0x00) +
    [0xE4, 0x02, 0x01, 0x00,
     0xE4, 0x03, 0x01, 0x14]

  /** `phNxpUciHal_NXPConfig`. */
  const NXP_CONFIG: seq<NxpParam> :=
    [NxpParam(UWB_RANG_SESSION_INTERVAL, TYPE_VAL, Word(2000)),
     NxpParam(UWB_APP_SESSION_TIMEOUT, TYPE_VAL, Word(3600000)),
     NxpParam(UWB_RANG_CYCLE_INTERVAL, TYPE_VAL, Word(200)),
     NxpParam(UWB_STANDBY_TIMEOUT_VALUE, TYPE_VAL, Word(0x00)),
     NxpParam(UWB_SET_FW_LOG_LEVEL, TYPE_VAL, Word(0x003)),
     NxpParam(UWB_FW_LOG_THREAD_ID, TYPE_VAL, Word(0x00)),
     NxpParam(UWB_MW_RANGING_FEATURE, TYPE_VAL, Word(0x01)),
     NxpParam(UWB_BOARD_VARIANT_CONFIG, TYPE_VAL, Word(0x73)),
     NxpParam(UWB_BOARD_VARIANT_VERSION, TYPE_VAL, Word(UWB_BOARD_RHODES_V3)),
     NxpParam(UWB_CORE_CONFIG_PARAM, TYPE_DATA, Mem(CORE_CONFIGS)),
     NxpParam(UWB_DPD_ENTRY_TIMEOUT, TYPE_VAL, Word(500)),
     NxpParam(UWB_LOW_POWER_MODE, TYPE_VAL, Word(0x01))]

  /** The position of the first entry with `key`, or `|table|`. */
  function FindIndex(table: seq<NxpParam>, key: u8): (r: nat)
    ensures r <= |table|
    ensures r < |table| ==> table[r].key == key
    ensures forall k :: 0 <= k < r ==> table[k].key != key
  {
    if table == [] then 0
    else if table[0].key == key then 0
    else 1 + FindIndex(table[1..], key)
  }

  /** `phNxpUciHal_NxpParamFind`: the first entry with the key, or NULL. */
  function NxpParamFind(table: seq<NxpParam>, key: u8): (r: Option<NxpParam>)
    ensures r.None? <==> forall k :: 0 <= k < |table| ==> table[k].key != key
    ensures r.Some? ==> r.value.key == key && r.value == table[FindIndex(table, key)]
  {
    var i := FindIndex(table, key);
    if i < |table| then Some(table[i]) else None
  }

  /** The search loop of `phNxpUciHal_NxpParamFind`. */
  method Find(table: seq<NxpParam>, key: u8) returns (r: Option<NxpParam>)
    ensures r == NxpParamFind(table, key)
  {
    if |table| == 0 {
      return None;
    }
    var i := 0;
    while i < |table|
      invariant i <= |table|
      invariant forall k :: 0 <= k < i ==> table[k].key != key
    {
      if table[i].key == key {
        assert FindIndex(table, key) == i by {
          FirstKeyAt(table, key, i);
        }
        return Some(table[i]);
      }
      i := i + 1;
    }
    return None;
  }

  /** The first entry with the key is found wherever it sits. */
  lemma {:induction false} FirstKeyAt(table: seq<NxpParam>, key: u8, i: nat)
    requires i < |table| && table[i].key == key
    requires forall k :: 0 <= k < i ==> table[k].key != key
    ensures FindIndex(table, key) == i
  {
    if i > 0 {
      FirstKeyAt(table[1..], key, i - 1);
    }
  }

  /** The pointer value `(size_t)pParam->val`: the number itself, the
      address of the memory it points at, or 0. */
  function PtrBits(v: Val, address: nat): nat
  {
    match v
    case Null => 0
    case Word(n) => n
    case Mem(_) => address
  }

  /** One more than the largest value of an unsigned integer `len` bytes
      wide. */
  function WidthBound(len: nat): (r: nat)
    requires len in {LONG_SIZE, SHORT_SIZE, CHAR_SIZE}
  {
    if len == LONG_SIZE then 0x1_0000_0000 else if len == SHORT_SIZE then 0x1_0000 else 0x100
  }

  /** `phNxpUciHal_GetNxpNumValue`: FALSE for a NULL output pointer, a
      missing key or an unsupported width; otherwise the value written is
      the pointer value truncated to the requested width. `address` stands
      for where a TYPE_DATA or TYPE_STR entry's memory lies. */
  function GetNxpNumValue(table: seq<NxpParam>, key: u8, outNull: bool, len: nat, address: nat): (r: Option<nat>)
    ensures r.Some? <==> !outNull && NxpParamFind(table, key).Some? && len in {LONG_SIZE, SHORT_SIZE, CHAR_SIZE}
    ensures r.Some? ==> var v := PtrBits(NxpParamFind(table, key).value.val, address);
                        r.value < WidthBound(len) && (v - r.value) % WidthBound(len) == 0 &&
                        (v < WidthBound(len) ==> r.value == v)
  {
    if outNull then None
    else
      var p := NxpParamFind(table, key);
      if p.None? then None
      else
        var v := PtrBits(p.value.val, address);
        if len == LONG_SIZE then Some(v % 0x1_0000_0000)
        else if len == SHORT_SIZE then Some(v % 0x1_0000)
        else if len == CHAR_SIZE then Some(v % 0x100)
        else None
  }

  /** `phNxpUciHal_GetNxpByteArrayValue`: only a TYPE_DATA entry with
      memory answers; the length is its byte 0 and the value starts at byte
      1. */
  function GetNxpByteArrayValue(table: seq<NxpParam>, key: u8, outNull: bool): (r: Option<(seq<u8>, nat)>)
    ensures r.Some? <==> !outNull && NxpParamFind(table, key).Some? &&
                         NxpParamFind(table, key).value.ptype == TYPE_DATA &&
                         NxpParamFind(table, key).value.val.Mem? && |NxpParamFind(table, key).value.val.bytes| > 0
    ensures r.Some? ==> var b := NxpParamFind(table, key).value.val.bytes;
                        r.value.1 < 0x100 && b == [r.value.1 as u8] + r.value.0
  {
    if outNull then None
    else
      var p := NxpParamFind(table, key);
      if p.None? then None
      else if p.value.ptype == TYPE_DATA && p.value.val.Mem? && |p.value.val.bytes| > 0 then
        Some((p.value.val.bytes[1..], p.value.val.bytes[0] as nat))
      else None
  }

  /** `strlen`: the bytes before the first NUL (all of them when there is
      none in the modelled memory). */
  function StrLen(s: seq<u8>): (r: nat)
    ensures r <= |s| && (r < |s| ==> s[r] == 0) && forall k :: 0 <= k < r ==> s[k] != 0
  {
    if s == [] || s[0] == 0 then 0 else 1 + StrLen(s[1..])
  }

  /** `phNxpUciHal_GetNxpStrValue`: only a TYPE_STR entry whose string fits
      in `len` answers; the output buffer of `len` bytes is zeroed and then
      holds the string. */
  function GetNxpStrValue(table: seq<NxpParam>, key: u8, outNull: bool, len: nat): (r: Option<seq<u8>>)
    ensures r.Some? <==> !outNull && NxpParamFind(table, key).Some? &&
                         NxpParamFind(table, key).value.ptype == TYPE_STR &&
                         NxpParamFind(table, key).value.val.Mem? &&
                         StrLen(NxpParamFind(table, key).value.val.bytes) <= len
    ensures r.Some? ==> var s := NxpParamFind(table, key).value.val.bytes;
                        |r.value| == len && r.value[..StrLen(s)] == s[..StrLen(s)] &&
                        forall k :: StrLen(s) <= k < len ==> r.value[k] == 0
  {
    if outNull then None
    else
      var p := NxpParamFind(table, key);
      if p.None? then None
      else if p.value.ptype == TYPE_STR && p.value.val.Mem? && StrLen(p.value.val.bytes) <= len then
        var n := StrLen(p.value.val.bytes);
        Some(p.value.val.bytes[..n] + seq(len - n, _ => 0))
      else None
  }

  /** The keys of the table are all different, so each lookup answers the
      one entry holding its key. */
  lemma TableKeysDistinct()
    ensures forall i, j :: 0 <= i < j < |NXP_CONFIG| ==> NXP_CONFIG[i].key != NXP_CONFIG[j].key
  {
  }

  /** The values callers read: the DPD entry timeout as a short, the low
      power mode and the FW log thread id as a byte. */
  lemma TableLookups(address: nat)
    ensures GetNxpNumValue(NXP_CONFIG, UWB_DPD_ENTRY_TIMEOUT, false, SHORT_SIZE, address) == Some(500)
    ensures GetNxpNumValue(NXP_CONFIG, UWB_LOW_POWER_MODE, false, CHAR_SIZE, address) == Some(1)
    ensures GetNxpNumValue(NXP_CONFIG, UWB_FW_LOG_THREAD_ID, false, CHAR_SIZE, address) == Some(0)
  {
    FirstKeyAt(NXP_CONFIG, UWB_DPD_ENTRY_TIMEOUT, 10);
    FirstKeyAt(NXP_CONFIG, UWB_LOW_POWER_MODE, 11);
    FirstKeyAt(NXP_CONFIG, UWB_FW_LOG_THREAD_ID, 5);
  }

  /** The SR040-only keys (HPD entry timeout, MHR in CCM, DDFS tone, TELEC)
      are not in the table, so their reads fail and the callers keep their
      defaults. */
  lemma MissingKeysFail(address: nat, len: nat)
    ensures GetNxpNumValue(NXP_CONFIG, UWB_HPD_ENTRY_TIMEOUT, false, len, address).None?
    ensures GetNxpNumValue(NXP_CONFIG, UWB_MHR_IN_CCM, false, len, address).None?
    ensures GetNxpNumValue(NXP_CONFIG, UWB_DDFS_TONE_CONFIG_ENABLE, false, len, address).None?
    ensures GetNxpNumValue(NXP_CONFIG, UWB_TELEC_CONFIG, false, len, address).None?
  {
  }

  /** The table holds no TYPE_STR entry, so every string read fails. */
  lemma NoStringsInTable(key: u8, len: nat)
    ensures GetNxpStrValue(NXP_CONFIG, key, false, len).None?
  {
    var p := NxpParamFind(NXP_CONFIG, key);
    if p.Some? {
      assert p.value in NXP_CONFIG;
    }
  }

  /** Reading a 32-bit value as a short truncates it: the application
      session timeout of 3600000 reads as 61056. */
  lemma SessionTimeoutTruncated(address: nat)
    ensures GetNxpNumValue(NXP_CONFIG, UWB_APP_SESSION_TIMEOUT, false, LONG_SIZE, address) == Some(3600000)
    ensures GetNxpNumValue(NXP_CONFIG, UWB_APP_SESSION_TIMEOUT, false, SHORT_SIZE, address) == Some(61056)
  {
    FirstKeyAt(NXP_CONFIG, UWB_APP_SESSION_TIMEOUT, 1);
  }

  /** The core config entry is the only byte array: its length byte counts
      the bytes after it, and the UCI command in them announces a payload
      of the bytes after its 4-byte header. */
  lemma CoreConfigsConsistent()
    ensures var r := GetNxpByteArrayValue(NXP_CONFIG, UWB_CORE_CONFIG_PARAM, false);
            r.Some? && r.value.1 == |r.value.0| == 158 &&
            r.value.0[3] as nat == |r.value.0| - 4
    ensures GetNxpByteArrayValue(NXP_CONFIG, UWB_DPD_ENTRY_TIMEOUT, false).None?
  {
    FirstKeyAt(NXP_CONFIG, UWB_CORE_CONFIG_PARAM, 9);
    FirstKeyAt(NXP_CONFIG, UWB_DPD_ENTRY_TIMEOUT, 10);
  }
}
