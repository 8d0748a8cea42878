// Setting application configurations on an SR100T: the API's `eAppConfig`
// numbering is mapped to UCI parameter ids, and each setting becomes one
// TLV of the SESSION_SET_APP_CONFIG command.
module UwbApiAppConfig {
  import opened Bytes
  import opened UwbApiInternal
  import Sr100tInternal

  /** `END_OF_SUPPORTED_APP_CONFIGS`: `eAppConfig` numbers its UCI settings
      0 to 41. */
  const END_OF_SUPPORTED_APP_CONFIGS: u16 := 42
  /** The extended settings are numbered `0xE300` upwards, up to
      `END_OF_SUPPORTED_EXT_CONFIGS`. */
  const END_OF_SUPPORTED_EXT_CONFIGS: u16 := 0xE309
  const EXTENDED_APP_CONFIG_ID: u8 := 0xE3

  /** `app_config_mapping`: the UCI id of each `eAppConfig` setting, in the
      enumeration's order. */
  const AppConfigMapping: seq<u8> :=
    [0x01, 0x02, 0x04, 0x08, 0x09, 0x0A, 0x0B, 0x0C, 0x0D, 0x0E, 0x0F, 0x10,
     0x12, 0x13, 0x14, 0x15, 0x16, 0x17, 0x18, 0x19, 0x1A, 0x1B, 0x1C, 0x1D,
     0x1E, 0x1F, 0x20, 0x21, 0x22, 0x23, 0x24, 0x25, 0x26, 0x29, 0x2A, 0x2B,
     0x2C, 0x2F, 0x30, 0x32, 0x2E, 0x34]

  /** `ext_app_config_mapping`: the extended sub-id in the high byte and
      `EXTENDED_APP_CONFIG_ID` in the low byte. */
  const ExtAppConfigMapping: seq<u16> :=
    [0x00E3, 0x01E3, 0x02E3, 0x03E3, 0x04E3, 0x05E3, 0x06E3, 0x07E3, 0x08E3]

  /** The `eAppConfig` setting a UCI id stands for: the reading of the
      table in the other direction. */
  function AppConfigOf(uciId: u8): Option<u16>
  {
    if uciId == 0x2E then Some(40)
    else if uciId == 0x34 then Some(41)
    else if uciId == 0x32 then Some(39)
    else if uciId == 0x30 then Some(38)
    else if uciId == 0x2F then Some(37)
    else if 0x29 <= uciId <= 0x2C then Some(uciId as u16 - 0x29 + 33)
    else if 0x12 <= uciId <= 0x26 then Some(uciId as u16 - 0x12 + 12)
    else if 0x08 <= uciId <= 0x10 then Some(uciId as u16 - 0x08 + 3)
    else if uciId == 0x04 then Some(2)
    else if 0x01 <= uciId <= 0x02 then Some(uciId as u16 - 1)
    else None
  }

  /** Every setting goes to a UCI id of its own: reading the table back
      from the UCI id gives the setting. */
  lemma AppConfigMappingInverse()
    ensures |AppConfigMapping| == END_OF_SUPPORTED_APP_CONFIGS as int
    ensures forall i :: 0 <= i < |AppConfigMapping| ==> AppConfigOf(AppConfigMapping[i]) == Some(i as u16)
  {
  }

  /** Hence no two settings share a UCI id. */
  lemma AppConfigMappingInjective(i: nat, j: nat)
    requires i < |AppConfigMapping| && j < |AppConfigMapping| && i != j
    ensures AppConfigMapping[i] != AppConfigMapping[j]
  {
    AppConfigMappingInverse();
  }

  /** Each extended entry carries its own position as the sub-id and the
      extended group id below it. */
  lemma ExtMappingLayout(i: nat)
    requires i < |ExtAppConfigMapping|
    ensures ExtAppConfigMapping[i] / 0x100 == i as u16
    ensures ExtAppConfigMapping[i] % 0x100 == EXTENDED_APP_CONFIG_ID as u16
  {
  }

  /** The TLV `getExtAppConfigTLVBuffer` writes for a sub-id. */
  function ExtTlv(subId: u8, value: seq<u8>): (t: seq<u8>)
    requires 1 <= |value|
    ensures 2 <= |t| && t[..2] == [EXTENDED_APP_CONFIG_ID, subId]
  {
    Tlv([EXTENDED_APP_CONFIG_ID, subId], Sr100tInternal.ExtAppConfigWidth(subId), 0, value)
  }

  /** The guard of `tlvSet_appConfigBuf`: a UCI setting, or an extended one
      below the end of the extended ones. */
  predicate SupportedAppConfig(paramId: u16)
  {
    paramId < END_OF_SUPPORTED_APP_CONFIGS
    || ((paramId / 0x100) as u8 == EXTENDED_APP_CONFIG_ID && paramId < END_OF_SUPPORTED_EXT_CONFIGS)
  }

  /** A supported setting is either one of the 42 or one of the nine
      extended ones. */
  lemma SupportedAppConfigCases(paramId: u16)
    ensures SupportedAppConfig(paramId) <==>
      (paramId < 42 || 0xE300 <= paramId < 0xE300 + |ExtAppConfigMapping| as u16)
  {
  }

  /** The value bytes a setting needs. */
  predicate ValueCovers(paramId: u16, paramLen: u8, value: seq<u8>)
  {
    if paramId < END_OF_SUPPORTED_APP_CONFIGS then ValueSize(AppConfigWidth(AppConfigMapping[paramId]), paramLen) <= |value|
    else 1 <= |value|
  }

  /** `tlvSet_appConfigBuf` for the SR100T as written: the extended table is
      indexed with the high byte of the setting, which is always 0xE3, past
      the table's nine entries. `beyond` is the value the read finds there,
      and the low byte of it is taken as the sub-id. */
  method TlvSetAppConfigBufAsWritten(paramId: u16, paramLen: u8, value: seq<u8>, beyond: u16)
    returns (tlvLen: u8, tlv: seq<u8>, extIndex: nat)
    requires ValueCovers(paramId, paramLen, value)
    ensures !SupportedAppConfig(paramId) ==> tlvLen == 0 && tlv == []
    ensures SupportedAppConfig(paramId) && paramId < END_OF_SUPPORTED_APP_CONFIGS ==>
      tlv == Tlv([AppConfigMapping[paramId]], AppConfigWidth(AppConfigMapping[paramId]), paramLen, value)
      && tlvLen as nat == |tlv| % 0x100
    ensures SupportedAppConfig(paramId) && paramId >= END_OF_SUPPORTED_APP_CONFIGS ==>
      extIndex == EXTENDED_APP_CONFIG_ID as nat
      && tlv == ExtTlv((beyond % 0x100) as u8, value)
      && tlvLen as nat == |tlv|
  {
    extIndex := 0;
    var extParamId := (paramId / 0x100) as u8;
    if !SupportedAppConfig(paramId) {
      return 0, [], extIndex;
    }
    if extParamId == EXTENDED_APP_CONFIG_ID {
      extIndex := extParamId as nat;
      assert extIndex >= |ExtAppConfigMapping|;
      var entry := beyond;
      tlvLen, tlv := Sr100tInternal.GetExtAppConfigTlvBuffer((entry % 0x100) as u8, value);
    } else {
      tlvLen, tlv := GetAppConfigTlvBuffer(AppConfigMapping[paramId], paramLen, value);
    }
  }

  /** Every extended setting makes the SR100T branch read past the extended
      table, and what it then writes is `ExtTlv` of the low byte of what
      lies there, the same for every setting: it differs from the setting's
      own TLV for every extended setting but the one whose sub-id that byte
      happens to be. */
  lemma ExtIndexOutOfBounds(value: seq<u8>, beyond: u16)
    requires 1 <= |value|
    ensures forall paramId: u16 :: SupportedAppConfig(paramId) && paramId >= END_OF_SUPPORTED_APP_CONFIGS ==>
      (paramId / 0x100) as nat >= |ExtAppConfigMapping|
    ensures forall paramId: u16 ::
              SupportedAppConfig(paramId) && paramId >= END_OF_SUPPORTED_APP_CONFIGS && paramId % 0x100 != beyond % 0x100
              ==> ExtTlv((beyond % 0x100) as u8, value) != ExtTlv((paramId % 0x100) as u8, value)
  {
    forall paramId: u16 | SupportedAppConfig(paramId) && paramId >= END_OF_SUPPORTED_APP_CONFIGS &&
      paramId % 0x100 != beyond % 0x100
      ensures ExtTlv((beyond % 0x100) as u8, value) != ExtTlv((paramId % 0x100) as u8, value)
    {
      assert ExtTlv((beyond % 0x100) as u8, value)[1] != ExtTlv((paramId % 0x100) as u8, value)[1];
    }
  }

  /** `tlvSet_appConfigBuf` as evidently intended, the way the API's
      `UwbApi_SetAppConfig` looks the extended table up: indexed with the
      low byte of the setting, whose entry's high byte is the sub-id. */
  method TlvSetAppConfigBuf(paramId: u16, paramLen: u8, value: seq<u8>) returns (tlvLen: u8, tlv: seq<u8>)
    requires ValueCovers(paramId, paramLen, value)
    ensures !SupportedAppConfig(paramId) ==> tlvLen == 0 && tlv == []
    ensures SupportedAppConfig(paramId) && paramId < END_OF_SUPPORTED_APP_CONFIGS ==>
      tlv == Tlv([AppConfigMapping[paramId]], AppConfigWidth(AppConfigMapping[paramId]), paramLen, value)
      && tlvLen as nat == |tlv| % 0x100
    ensures SupportedAppConfig(paramId) && paramId >= END_OF_SUPPORTED_APP_CONFIGS ==>
      tlv == ExtTlv((paramId % 0x100) as u8, value) && tlvLen as nat == |tlv|
  {
    var extParamId := (paramId / 0x100) as u8;
    if !SupportedAppConfig(paramId) {
      return 0, [];
    }
    if extParamId == EXTENDED_APP_CONFIG_ID {
      var index := (paramId % 0x100) as nat;
      ExtMappingLayout(index);
      tlvLen, tlv := Sr100tInternal.GetExtAppConfigTlvBuffer((ExtAppConfigMapping[index] / 0x100) as u8, value);
    } else {
      tlvLen, tlv := GetAppConfigTlvBuffer(AppConfigMapping[paramId], paramLen, value);
    }
  }

  /** With the intended lookup every extended setting's TLV names the
      extended group and the setting's own sub-id. */
  lemma ExtSettingNamesItself(paramId: u16, value: seq<u8>)
    requires SupportedAppConfig(paramId) && paramId >= END_OF_SUPPORTED_APP_CONFIGS && 1 <= |value|
    ensures var t := ExtTlv((paramId % 0x100) as u8, value);
      2 <= |t| && t[0] == EXTENDED_APP_CONFIG_ID && t[1] as nat == paramId as nat - 0xE300
  {
  }

  // ---------------------------------------------------------------------
  // AppConfig_TlvParser

  /** `SetAppParams_List_t`'s value: a 32-bit value, a byte array, or a
      type tag the parser does not know. */
  datatype AppParamValue = U32Value(vu32: u32) | Au8Value(bytes: seq<u8>) | UnknownType(tag: nat)

  /** `AppConfig_TlvParser`: a 32-bit value becomes four bytes, low byte
      first; an array is copied with its length; another type fails. */
  function AppConfigTlvParser(p: AppParamValue): (r: Option<seq<u8>>)
    requires p.Au8Value? ==> |p.bytes| < 0x10000
    ensures p.UnknownType? <==> r.None?
    ensures p.U32Value? ==> r.Some? && |r.value| == 4 && U32At(r.value, 0) == p.vu32
    ensures p.Au8Value? ==> r == Some(p.bytes)
  {
    match p
    case U32Value(v) => ReadBackLE32([], v, []); assert [] + ToLE32(v) + [] == ToLE32(v); Some(ToLE32(v))
    case Au8Value(bytes) => Some(bytes)
    case UnknownType(_) => None
  }
}
