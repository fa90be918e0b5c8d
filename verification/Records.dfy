/** The data of one log call: fields, the entry, and the formatter's
    configuration. */
module Records {
  import opened Basics
  import opened Json

  datatype FieldType =
    | StringType | Int64Type | Uint64Type | Float64Type | BoolType | DurationType | ErrorType
    | UnknownType   // any other value of the uint8

  datatype Field = Field(key: bytes, kind: FieldType, num: uint64, str: bytes)

  /** The zero Field, which Err(nil) returns: the encoders skip it. */
  predicate IsZero(f: Field) {
    f.key == [] && f.kind.StringType? && f.str == []
  }

  function AsInt64(num: uint64): int64 {
    if num >= TWO_63 then num - TWO_64 else num
  }

  predicate IsNaN(bits: uint64) {
    bits / 0x10_0000_0000_0000 % 0x800 == 0x7FF && bits % 0x10_0000_0000_0000 != 0
  }

  /** The bits of +Inf and -Inf. */
  const PLUS_INF: uint64 := 0x7FF0_0000_0000_0000
  const MINUS_INF: uint64 := 0xFFF0_0000_0000_0000

  /** One call's data as the formatter sees it; textPrefix and jsonPrefix come
      from the profile and are empty without one. */
  datatype Record = Record(level: nat, logType: bytes, msg: bytes, file: bytes, line: int64,
                           fields: seq<bytes>, fieldsV: seq<Field>, textPrefix: bytes, jsonPrefix: bytes)

  /** `timestamped`: Config.TimestampFormat is set. floatText and fractionText
      stand for strconv.AppendFloat of a finite float and of a duration that is
      not a whole multiple of the unit. */
  datatype Format = Format(timestamped: bool, durationUnit: int64,
                           floatText: uint64 -> bytes, fractionText: (int64, int64) -> bytes)
  {
    /** strconv.AppendFloat writes JSON numbers for finite values. */
    ghost predicate Valid() {
      && (forall bits: uint64 :: !IsNaN(bits) && bits != PLUS_INF && bits != MINUS_INF ==> IsNumber(floatText(bits)))
      && (forall d: int64, unit: int64 :: unit > 0 && d % unit != 0 ==> IsNumber(fractionText(d, unit)))
    }
  }

  function LevelName(level: nat): bytes {
    if level == 0 then "DEBUG"
    else if level == 1 then "INFO"
    else if level == 2 then "WARN"
    else if level == 3 then "ERROR"
    else "UNKNOWN"
  }
}
