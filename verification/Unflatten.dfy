/** Rebuilding attribute lists from the parallel key and value lists of a flat record. */
module Unflatten {
  import opened Bytes
  import opened MsgPack
  import opened FlatLogCodec
  import opened Flatten

  datatype LogRecordView = LogRecordView(
    timestamp: Time,
    observedTimestamp: Time,
    traceId: Str,
    spanId: Str,
    severityText: Str,
    severityNumber: byte,
    serviceName: Str,
    body: Str,
    bodyType: Str,
    scopeName: Str,
    scopeVersion: Str,
    logAttributes: seq<Attr>,
    resourceAttributes: seq<Attr>)

  /** One attribute per key; a key without a value gets the empty string, a value without a key is lost. */
  function Pair(keys: seq<Str>, values: seq<Str>): (attrs: seq<Attr>)
    ensures |attrs| == |keys|
  {
    seq(|keys|, i requires 0 <= i < |keys| => Attr(keys[i], if i < |values| then values[i] else []))
  }

  method PairUp(keys: seq<Str>, values: seq<Str>) returns (attrs: seq<Attr>)
    ensures attrs == Pair(keys, values)
  {
    attrs := [];
    for i := 0 to |keys|
      invariant attrs == Pair(keys, values)[..i]
    {
      var value := [];
      if i < |values| {
        value := values[i];
      }
      attrs := attrs + [Attr(keys[i], value)];
    }
  }

  function ViewOf(z: FlatLog): LogRecordView
  {
    LogRecordView(z.timestamp, z.observedTimestamp, z.traceId, z.spanId, z.severityText, z.severityNumber,
      z.serviceName,
                  z.body, z.bodyType, z.scopeName, z.scopeVersion, Pair(z.logAttrKeys, z.logAttrValues),
                  Pair(z.resAttrKeys, z.resAttrValues))
  }

  /** The view has the record's fields, and one attribute per key with the value at its place, if there is one. */
  predicate Shows(v: LogRecordView, z: FlatLog)
  {
    && v.timestamp == z.timestamp && v.observedTimestamp == z.observedTimestamp
    && v.traceId == z.traceId && v.spanId == z.spanId
    && v.severityText == z.severityText && v.severityNumber == z.severityNumber
    && v.serviceName == z.serviceName && v.body == z.body && v.bodyType == z.bodyType
    && v.scopeName == z.scopeName && v.scopeVersion == z.scopeVersion
    && Paired(v.logAttributes, z.logAttrKeys, z.logAttrValues)
    && Paired(v.resourceAttributes, z.resAttrKeys, z.resAttrValues)
  }

  predicate Paired(attrs: seq<Attr>, keys: seq<Str>, values: seq<Str>)
  {
    && |attrs| == |keys|
    && forall i :: 0 <= i < |keys| ==>
         attrs[i].key == keys[i] && attrs[i].value == if i < |values| then values[i] else []
  }

  lemma ViewShows(z: FlatLog)
    ensures Shows(ViewOf(z), z)
  {
  }

  method UnflattenLogRecords(flats: seq<FlatLog>) returns (views: seq<LogRecordView>)
    ensures |views| == |flats|
    ensures forall i :: 0 <= i < |flats| ==> views[i] == ViewOf(flats[i]) && Shows(views[i], flats[i])
  {
    hide Pair;
    views := [];
    for i := 0 to |flats|
      invariant |views| == i && forall k :: 0 <= k < i ==> views[k] == ViewOf(flats[k]) && Shows(views[k], flats[k])
    {
      var z := flats[i];
      ViewShows(z);
      var logAttributes := PairUp(z.logAttrKeys, z.logAttrValues);
      var resourceAttributes := PairUp(z.resAttrKeys, z.resAttrValues);
      views := views + [LogRecordView(
        z.timestamp, z.observedTimestamp, z.traceId, z.spanId, z.severityText, z.severityNumber, z.serviceName, z.body,
        z.bodyType, z.scopeName, z.scopeVersion, logAttributes, resourceAttributes)];
    }
  }

  /**
   Splitting and pairing are inverse on attribute lists, and on key and value lists exactly when these are as long.
   */
  lemma SplitAndPair(attrs: seq<Attr>, keys: seq<Str>, values: seq<Str>)
    ensures Pair(Keys(attrs), Values(attrs)) == attrs
    ensures Keys(Pair(keys, values)) == keys
    ensures Values(Pair(keys, values)) == values <==> |keys| == |values|
  {
    assert |Values(Pair(keys, values))| == |keys|;
  }

  /** What flattening made of a record's attributes, unflattening gives back. */
  lemma FlattenedAttributesReturn(resAttrs: seq<Attr>, scope: ScopeLogs, now: nat, l: LogRecord)
    ensures var v := ViewOf(FlatOf(RowFor(resAttrs, scope, now)(l)[0]));
            v.logAttributes == l.attrs && v.resourceAttributes == resAttrs && v.body == l.body &&
            v.serviceName == ServiceNameOf(resAttrs) && v.scopeName == scope.name && v.scopeVersion == scope.version
  {
    hide ServiceNameOf, FromNanos, IdString;
    SplitAndPair(l.attrs, [], []);
    SplitAndPair(resAttrs, [], []);
  }
}
