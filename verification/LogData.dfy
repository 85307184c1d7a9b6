/** One row of the logs table, as handed to the batch appender. */
module LogData {
  import opened Bytes
  import opened MsgPack

  datatype Row = Row(
    timestamp: Time,
    observedTimestamp: Time,
    severityNumber: byte,
    traceId: seq<byte>,
    spanId: seq<byte>,
    logAttrKeys: seq<Str>,
    logAttrValues: seq<Str>,
    resAttrKeys: seq<Str>,
    resAttrValues: seq<Str>,
    fields: LogFields)

  datatype LogFields = LogFields(
    scopeName: Str,
    scopeVersion: Str,
    severityText: Str,
    serviceName: Str,
    body: Str,
    bodyType: Str)
}
