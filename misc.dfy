/** The names of the library's log levels and device types. Both are C
    enums, so any integer can arrive, and each table has a fallback. */
module Misc {

  const MC_LOG_LEVEL_DEBUG: int := 0
  const MC_LOG_LEVEL_INFO: int := 1
  const MC_LOG_LEVEL_WARN: int := 2
  const MC_LOG_LEVEL_ERROR: int := 3

  /** `mc_log_level_to_str`: never null, always an `MC_LOG_LEVEL_` name,
      and the fallback exactly for values that name no level. */
  function LogLevelToStr(level: int): (name: string)
    ensures |name| > 13 && name[..13] == "MC_LOG_LEVEL_"
    ensures name == "MC_LOG_LEVEL_UNKNOWN" <==> !(MC_LOG_LEVEL_DEBUG <= level <= MC_LOG_LEVEL_ERROR)
  {
    if level == MC_LOG_LEVEL_DEBUG then "MC_LOG_LEVEL_DEBUG"
    else if level == MC_LOG_LEVEL_INFO then "MC_LOG_LEVEL_INFO"
    else if level == MC_LOG_LEVEL_WARN then "MC_LOG_LEVEL_WARN"
    else if level == MC_LOG_LEVEL_ERROR then "MC_LOG_LEVEL_ERROR"
    else "MC_LOG_LEVEL_UNKNOWN"
  }

  /** Distinct levels have distinct names. */
  lemma LogLevelNamesDistinct(a: int, b: int)
    requires MC_LOG_LEVEL_DEBUG <= a <= MC_LOG_LEVEL_ERROR && MC_LOG_LEVEL_DEBUG <= b <= MC_LOG_LEVEL_ERROR
    ensures LogLevelToStr(a) == LogLevelToStr(b) ==> a == b
  {
  }

  const MC_DEVICE_TYPE_DGPU: int := 0
  const MC_DEVICE_TYPE_IGPU: int := 1
  const MC_DEVICE_TYPE_VGPU: int := 2
  const MC_DEVICE_TYPE_CPU: int := 3

  /** `mc_device_type_to_str`: never null, always an `MC_DEVICE_TYPE_`
      name, and the fallback exactly for values that name no known type. */
  function DeviceTypeToStr(deviceType: int): (name: string)
    ensures |name| > 15 && name[..15] == "MC_DEVICE_TYPE_"
    ensures name == "MC_DEVICE_TYPE_OTHER" <==> !(MC_DEVICE_TYPE_DGPU <= deviceType <= MC_DEVICE_TYPE_CPU)
  {
    if deviceType == MC_DEVICE_TYPE_DGPU then "MC_DEVICE_TYPE_DGPU"
    else if deviceType == MC_DEVICE_TYPE_IGPU then "MC_DEVICE_TYPE_IGPU"
    else if deviceType == MC_DEVICE_TYPE_VGPU then "MC_DEVICE_TYPE_VGPU"
    else if deviceType == MC_DEVICE_TYPE_CPU then "MC_DEVICE_TYPE_CPU"
    else "MC_DEVICE_TYPE_OTHER"
  }

  /** Distinct known types have distinct names. */
  lemma DeviceTypeNamesDistinct(a: int, b: int)
    requires MC_DEVICE_TYPE_DGPU <= a <= MC_DEVICE_TYPE_CPU && MC_DEVICE_TYPE_DGPU <= b <= MC_DEVICE_TYPE_CPU
    ensures DeviceTypeToStr(a) == DeviceTypeToStr(b) ==> a == b
  {
  }
}
