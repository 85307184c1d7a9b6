/**
 The pooled column batches and the two ways of inserting rows. A batch comes out of the pool in whatever state its
 last user left it; it is owned by one user at a time.
 */
module Storage {
  import opened Bytes
  import opened MsgPack
  import opened LogData
  import opened FlatLogCodec
  import opened Columns

  class ColumnBatch {
    var timestamps: seq<Time>
    var scopeNames: seq<Str>
    var scopeVersions: seq<Str>
    var traceIds: seq<Str>
    var spanIds: seq<Str>
    var observedTimestamps: seq<Time>
    var severityTexts: seq<Str>
    var severityNumbers: seq<byte>
    var serviceNames: seq<Str>
    var bodies: StrColumn
    var bodyTypes: seq<Str>
    var logAttrKeys: ArrColumn
    var logAttrValues: ArrColumn
    var resAttrKeys: ArrColumn
    var resAttrValues: ArrColumn
    /** Row capacity, read off the timestamp column. */
    var capacity: nat

    ghost function Contents(): Cols
      reads this
    {
      Cols(timestamps, scopeNames, scopeVersions, traceIds, spanIds, observedTimestamps, severityTexts, severityNumbers,
           serviceNames, bodies, bodyTypes, logAttrKeys, logAttrValues, resAttrKeys, resAttrValues)
    }

    constructor ()
      ensures Contents() == NO_ROWS && capacity == 0
    {
      timestamps, scopeNames, scopeVersions, traceIds, spanIds := [], [], [], [], [];
      observedTimestamps, severityTexts, severityNumbers, serviceNames, bodyTypes := [], [], [], [], [];
      bodies := NO_WORDS;
      logAttrKeys, logAttrValues, resAttrKeys, resAttrValues := NO_ARRAYS, NO_ARRAYS, NO_ARRAYS, NO_ARRAYS;
      capacity := 0;
    }

    /** Empties every column, whatever it held; capacity stays. */
    method Reset()
      modifies this
      ensures Contents() == NO_ROWS && capacity == old(capacity)
    {
      ResetPlain();
      bodies, bodyTypes := NO_WORDS, [];
      logAttrKeys, logAttrValues, resAttrKeys, resAttrValues := NO_ARRAYS, NO_ARRAYS, NO_ARRAYS, NO_ARRAYS;
    }

    method ResetPlain()
      modifies `timestamps, `scopeNames, `scopeVersions, `traceIds, `spanIds, `observedTimestamps, `severityTexts,
        `severityNumbers, `serviceNames
      ensures timestamps == [] && scopeNames == scopeVersions == traceIds == spanIds == [] && observedTimestamps == []
      ensures severityTexts == serviceNames == [] && severityNumbers == []
    {
      timestamps, scopeNames, scopeVersions, traceIds, spanIds := [], [], [], [], [];
      observedTimestamps, severityTexts, severityNumbers, serviceNames := [], [], [], [];
    }

    /** Allocates every column anew when the batch is too small, which also drops its rows. */
    method EnsureSize(targetRows: int)
      modifies this
      ensures Contents() == if old(capacity) >= targetRows then old(Contents()) else NO_ROWS
      ensures capacity == if old(capacity) >= targetRows then old(capacity) else targetRows
    {
      if capacity >= targetRows { return; }
      Reset();
      capacity := targetRows;
    }

    method AppendTimestamp(t: Time)
      modifies this`timestamps, this`capacity
      ensures timestamps == old(timestamps) + [t]
    {
      timestamps := timestamps + [t];
      if |timestamps| > capacity {
        var grown :| grown >= |timestamps|;  // the allocator decides how much to grow
        capacity := grown;
      }
    }

    /** The columns of plain values other than the ids, which the two insert paths fill from different sources. */
    method AppendPlain(r: Row)
      modifies `timestamps, `capacity, `scopeNames, `scopeVersions, `observedTimestamps, `severityTexts,
        `severityNumbers,
        `serviceNames
      ensures timestamps == old(timestamps) + [r.timestamp] && scopeNames == old(scopeNames) + [r.fields.scopeName]
      ensures scopeVersions == old(scopeVersions) + [r.fields.scopeVersion]
      ensures observedTimestamps == old(observedTimestamps) + [r.observedTimestamp]
      ensures severityTexts == old(severityTexts) + [r.fields.severityText]
      ensures severityNumbers == old(severityNumbers) + [r.severityNumber]
      ensures serviceNames == old(serviceNames) + [r.fields.serviceName]
    {
      AppendTimestamp(r.timestamp);
      scopeNames := scopeNames + [r.fields.scopeName];
      scopeVersions := scopeVersions + [r.fields.scopeVersion];
      observedTimestamps := observedTimestamps + [r.observedTimestamp];
      severityTexts := severityTexts + [r.fields.severityText];
      severityNumbers := severityNumbers + [r.severityNumber];
      serviceNames := serviceNames + [r.fields.serviceName];
    }

    /** The body columns and the columns of string arrays. */
    method AppendPacked(r: Row)
      modifies `bodies, `bodyTypes, `logAttrKeys, `logAttrValues, `resAttrKeys, `resAttrValues
      ensures bodies == AppendWord(old(bodies), r.fields.body) && bodyTypes == old(bodyTypes) + [r.fields.bodyType]
      ensures logAttrKeys == AppendArray(old(logAttrKeys), r.logAttrKeys)
      ensures logAttrValues == AppendArray(old(logAttrValues), r.logAttrValues)
      ensures resAttrKeys == AppendArray(old(resAttrKeys), r.resAttrKeys)
      ensures resAttrValues == AppendArray(old(resAttrValues), r.resAttrValues)
    {
      bodies := AppendWord(bodies, r.fields.body);
      bodyTypes := bodyTypes + [r.fields.bodyType];
      logAttrKeys := AppendArray(logAttrKeys, r.logAttrKeys);
      logAttrValues := AppendArray(logAttrValues, r.logAttrValues);
      resAttrKeys := AppendArray(resAttrKeys, r.resAttrKeys);
      resAttrValues := AppendArray(resAttrValues, r.resAttrValues);
    }
  }

  class BatchPool {
    const size: nat
    const rowLimit: int
    var items: seq<ColumnBatch>

    /** No batch is in the pool twice. */
    ghost predicate Valid()
      reads this
    {
      |items| <= size && forall i, j :: 0 <= i < j < |items| ==> items[i] != items[j]
    }

    ghost function Batches(): set<ColumnBatch>
      reads this
    {
      set b | b in items
    }

    constructor (size: nat, rowLimit: int)
      ensures Valid() && items == [] && this.size == size && this.rowLimit == rowLimit
    {
      this.size, this.rowLimit, items := size, rowLimit, [];
    }

    /** Hands out the oldest pooled batch, or a new one. Either way the pool no longer holds it. */
    method Get() returns (b: ColumnBatch)
      requires Valid()
      modifies this
      ensures Valid() && b !in items
      ensures if old(items) == [] then fresh(b) && items == [] else b == old(items)[0] && items == old(items)[1..]
    {
      if items != [] {
        b, items := items[0], items[1..];
      } else {
        b := new ColumnBatch();
      }
    }

    /** Takes a batch back unless it has grown too large or the pool is full. */
    method Put(b: ColumnBatch) returns (kept: bool)
      requires Valid() && b !in items
      modifies this
      ensures Valid()
      ensures kept <==> b.capacity <= rowLimit && |old(items)| < size
      ensures items == if kept then old(items) + [b] else old(items)
    {
      if b.capacity > rowLimit { return false; }
      kept := |items| < size;
      if kept {
        items := items + [b];
      }
    }
  }

  /** An insert that was attempted, and the database's answer. */
  datatype Attempt = Attempt(cols: Cols, ok: bool)

  class ClickHouseStore {
    const batchPool: BatchPool
    /** The column sets inserted into the logs table. */
    var logs: seq<Cols>
    ghost var attempts: seq<Attempt>

    constructor (poolSize: nat, rowLimit: int)
      ensures batchPool.Valid() && fresh(batchPool) && batchPool.items == [] && logs == []
      ensures attempts == []
    {
      batchPool := new BatchPool(poolSize, rowLimit);
      logs, attempts := [], [];
    }

    /** The connection may fail; of the database it is assumed that a failed insert has stored nothing. */
    method InsertRecords(b: ColumnBatch) returns (ok: bool)
      modifies this
      ensures attempts == old(attempts) + [Attempt(b.Contents(), ok)]
      ensures logs == if ok then old(logs) + [b.Contents()] else old(logs)
    {
      ok := *;
      attempts := attempts + [Attempt(b.Contents(), ok)];
      if ok {
        var cols := Cols(b.timestamps, b.scopeNames, b.scopeVersions, b.traceIds, b.spanIds, b.observedTimestamps,
                         b.severityTexts, b.severityNumbers, b.serviceNames, b.bodies, b.bodyTypes, b.logAttrKeys,
                         b.logAttrValues, b.resAttrKeys, b.resAttrValues);
        logs := logs + [cols];
      }
    }

    /** An appender on an empty batch, whatever the pool's history. */
    method FastInsert(preSize: int) returns (a: BatchAppender)
      requires batchPool.Valid()
      modifies batchPool, batchPool.Batches()
      ensures batchPool.Valid() && fresh(a) && a.store == this && a.Owns()
      ensures a.batch in old(batchPool.items) || fresh(a.batch)
      ensures batchPool.items == if old(batchPool.items) == [] then [] else old(batchPool.items)[1..]
      ensures a.batch.Contents() == NO_ROWS && a.batch.capacity >= preSize
    {
      var colBatch := batchPool.Get();
      colBatch.Reset();
      colBatch.EnsureSize(preSize);
      a := new BatchAppender(this, colBatch);
    }

    /**
     Inserts flat records as one set of columns. A record whose ids have the wrong length aborts before anything
     is inserted, possibly after its trace id was appended: the batch then goes back to the pool ragged. Otherwise one
     insert is attempted, and the result is the database's answer.
     */
    method BatchInsert(records: seq<FlatLog>) returns (ok: bool)
      requires batchPool.Valid()
      modifies this, batchPool, batchPool.Batches()
      ensures batchPool.Valid()
      ensures var good := forall z :: z in records ==> |z.traceId| == 32 && |z.spanId| == 16;
              && (!good ==> !ok)
              && attempts == if good && records != [] then old(attempts) + [Attempt(ColumnsOf(RowsOf(records)), ok)]
                             else old(attempts)
      ensures logs == if ok && records != [] then old(logs) + [ColumnsOf(RowsOf(records))] else old(logs)
      ensures records == [] ==> ok && batchPool.items == old(batchPool.items)
      ensures fresh(batchPool.Batches() - old(batchPool.Batches()))
    {
      hide ColumnsOf, RowOf, RowsOf, AppendRow, ColumnBatch.Contents;
      if |records| == 0 { return true; }
      var colBatch := batchPool.Get();
      colBatch.Reset();
      colBatch.EnsureSize(|records|);
      ghost var pooled := batchPool.items;
      assert ColumnsOf(RowsOf(records[..0])) == NO_ROWS by { assert RowsOf(records[..0]) == []; ColumnsOfNothing(); }
      for i := 0 to |records|
        invariant batchPool.items == pooled && batchPool.Valid() && colBatch !in pooled
        invariant logs == old(logs) && attempts == old(attempts)
        invariant colBatch.Contents() == ColumnsOf(RowsOf(records[..i]))
        invariant forall z :: z in records[..i] ==> GoodIds(z)
      {
        var record := records[i];
        assert record in records;
        ok := AppendRecord(colBatch, record);
        if !ok {
          var _ := batchPool.Put(colBatch);
          return;
        }
        assert records[..i + 1] == records[..i] + [record];
        RowsOfSnoc(records[..i], record);
      }
      assert records[..|records|] == records;
      ok := InsertRecords(colBatch);
      var _ := batchPool.Put(colBatch);
    }

    /** The body of the loop over records: the ids, either of which may abort, and then the other columns. */
    method AppendRecord(colBatch: ColumnBatch, record: FlatLog) returns (ok: bool)
      modifies colBatch
      ensures ok <==> |record.traceId| == 32 && |record.spanId| == 16
      ensures ok ==> colBatch.Contents() == AppendRow(old(colBatch.Contents()), RowOf(record))
      ensures !ok ==> colBatch.Contents() == if |record.traceId| == 32
        then old(colBatch.Contents()).(traceIds := old(colBatch.traceIds) + [record.traceId])
        else old(colBatch.Contents())
    {
      hide AppendWord, AppendArray;
      ok := AppendIds(colBatch, record);
      if !ok { return; }
      colBatch.AppendPlain(RowOf(record));
      colBatch.AppendPacked(RowOf(record));
    }

    method AppendIds(b: ColumnBatch, z: FlatLog) returns (ok: bool)
      modifies b`traceIds, b`spanIds
      ensures ok <==> GoodIds(z)
      ensures b.traceIds == if |z.traceId| == 32 then old(b.traceIds) + [z.traceId] else old(b.traceIds)
      ensures b.spanIds == if ok then old(b.spanIds) + [z.spanId] else old(b.spanIds)
    {
      if |z.traceId| != 32 { return false; }
      b.traceIds := b.traceIds + [z.traceId];
      if |z.spanId| != 16 { return false; }
      b.spanIds := b.spanIds + [z.spanId];
      ok := true;
    }
  }

  predicate GoodIds(z: FlatLog)
  {
    |z.traceId| == 32 && |z.spanId| == 16
  }

  lemma ColumnsOfNothing()
    ensures ColumnsOf([]) == NO_ROWS
  {
  }

  lemma ColumnsOfSnoc(rows: seq<Row>, r: Row)
    ensures ColumnsOf(rows + [r]) == AppendRow(ColumnsOf(rows), r)
  {
    AppendRowsSnoc(NO_ROWS, rows, r);
  }

  lemma RowsOfSnoc(zs: seq<FlatLog>, z: FlatLog)
    ensures ColumnsOf(RowsOf(zs + [z])) == AppendRow(ColumnsOf(RowsOf(zs)), RowOf(z))
  {
    hide ColumnsOf, AppendRow, RowOf;
    assert RowsOf(zs + [z]) == RowsOf(zs) + [RowOf(z)];
    ColumnsOfSnoc(RowsOf(zs), RowOf(z));
  }

  class BatchAppender {
    const store: ClickHouseStore
    const batch: ColumnBatch
    var flushed: bool

    /** The appender holds its batch until it is flushed. */
    ghost predicate Owns()
      reads this, store, store.batchPool
    {
      !flushed && batch !in store.batchPool.items
    }

    constructor (store: ClickHouseStore, batch: ColumnBatch)
      ensures this.store == store && this.batch == batch && !flushed
    {
      this.store, this.batch, flushed := store, batch, false;
    }

    /** Appends one row, under the appender's lock; ids are stored as lower-case hexadecimal digits. */
    method Append(r: Row)
      requires !flushed
      modifies batch
      ensures batch.Contents() == AppendRow(old(batch.Contents()), Stored(r))
      ensures |batch.traceIds| == |old(batch.traceIds)| + 1 && old(batch.traceIds) <= batch.traceIds
      ensures |batch.spanIds| == |old(batch.spanIds)| + 1 && old(batch.spanIds) <= batch.spanIds
      ensures SpellsHex(batch.traceIds[|old(batch.traceIds)|], r.traceId)
      ensures SpellsHex(batch.spanIds[|old(batch.spanIds)|], r.spanId)
    {
      hide AppendWord, AppendArray, Hex, SpellsHex;
      HexSpells(r.traceId);
      HexSpells(r.spanId);
      batch.AppendPlain(r);
      batch.traceIds := batch.traceIds + [Hex(r.traceId)];
      batch.spanIds := batch.spanIds + [Hex(r.spanId)];
      batch.AppendPacked(r);
    }

    /** One insert of the batch is attempted, and the batch goes back; the appender must not be used again. */
    method Flush() returns (ok: bool)
      requires Owns() && store.batchPool.Valid()
      modifies this, store, store.batchPool
      ensures flushed && store.batchPool.Valid()
      ensures store.batchPool.Batches() <= old(store.batchPool.Batches()) + {batch}
      ensures store.attempts == old(store.attempts) + [Attempt(batch.Contents(), ok)]
      ensures store.logs == if ok then old(store.logs) + [batch.Contents()] else old(store.logs)
    {
      ok := store.InsertRecords(batch);
      var _ := store.batchPool.Put(batch);
      flushed := true;
    }
  }

  /** The flat record a row corresponds to: equal fields, ids given in hexadecimal. */
  predicate Matching(r: Row, z: FlatLog)
  {
    && z.timestamp == r.timestamp && z.observedTimestamp == r.observedTimestamp && z.severityNumber == r.severityNumber
    && z.traceId == Hex(r.traceId) && z.spanId == Hex(r.spanId)
    && z.logAttrKeys == r.logAttrKeys && z.logAttrValues == r.logAttrValues
    && z.resAttrKeys == r.resAttrKeys && z.resAttrValues == r.resAttrValues
    && z.scopeName == r.fields.scopeName && z.scopeVersion == r.fields.scopeVersion
    && z.severityText == r.fields.severityText && z.serviceName == r.fields.serviceName
    && z.body == r.fields.body && z.bodyType == r.fields.bodyType
  }

  lemma MatchingRows(rows: seq<Row>, zs: seq<FlatLog>)
    requires |rows| == |zs| && forall i :: 0 <= i < |rows| ==> Matching(rows[i], zs[i])
    ensures StoredAll(rows) == RowsOf(zs)
  {
    hide Hex;
  }

  lemma StoredColumnsOfNothing()
    ensures ColumnsOf(StoredAll([])) == NO_ROWS
  {
    assert StoredAll([]) == [];
    ColumnsOfNothing();
  }

  lemma StoredColumnsOfSnoc(rows: seq<Row>, r: Row)
    ensures ColumnsOf(StoredAll(rows + [r])) == AppendRow(ColumnsOf(StoredAll(rows)), Stored(r))
  {
    hide ColumnsOf, AppendRow, Stored;
    assert StoredAll(rows + [r]) == StoredAll(rows) + [Stored(r)];
    ColumnsOfSnoc(StoredAll(rows), Stored(r));
  }

  /** A client of the fast path: any rows through a fresh appender leave the columns of those rows. */
  method AppendAll(store: ClickHouseStore, preSize: int, rows: seq<Row>) returns (a: BatchAppender)
    requires store.batchPool.Valid()
    modifies store.batchPool, store.batchPool.Batches()
    ensures store.batchPool.Valid() && fresh(a) && a.store == store && a.Owns()
    ensures a.batch.Contents() == ColumnsOf(StoredAll(rows))
  {
    hide ColumnsOf, AppendRow, Stored, StoredAll, SpellsHex;
    a := store.FastInsert(preSize);
    ghost var pooled := store.batchPool.items;
    assert ColumnsOf(StoredAll(rows[..0])) == NO_ROWS by {
      assert rows[..0] == [];
      StoredColumnsOfNothing();
    }
    for i := 0 to |rows|
      invariant fresh(a) && a.Owns() && store.batchPool.items == pooled && store.batchPool.Valid()
      invariant a.batch.Contents() == ColumnsOf(StoredAll(rows[..i]))
    {
      a.Append(rows[i]);
      assert rows[..i + 1] == rows[..i] + [rows[i]];
      StoredColumnsOfSnoc(rows[..i], rows[i]);
    }
    assert rows[..|rows|] == rows;
  }

  /**
   Both insert paths, on two stores with any pools. First a record with a bad span id makes a call abort after the trace
   id on each, which leaves ragged batches in the pools. Then the rows go through an appender of one store and the
   matching records through BatchInsert of the other. When both succeed, both have inserted the same fifteen columns,
   from which the rows can be read back; nothing else has been inserted. Only for no rows at all do they differ: the
   appender then inserts empty columns and BatchInsert nothing.
   */
  method InsertBothWays(fast: ClickHouseStore, slow: ClickHouseStore, bad: FlatLog, preSize: int, rows: seq<Row>,
                        zs: seq<FlatLog>) returns (okFast: bool, okSlow: bool)
    requires fast.batchPool.Valid() && slow.batchPool.Valid() && fast != slow && fast.batchPool != slow.batchPool
    requires |bad.traceId| == 32 && |bad.spanId| != 16
    requires |rows| == |zs| && forall i :: 0 <= i < |rows| ==> Matching(rows[i], zs[i])
    modifies fast, fast.batchPool, fast.batchPool.Batches(), slow, slow.batchPool, slow.batchPool.Batches()
    ensures fast.batchPool.Valid() && slow.batchPool.Valid()
    ensures |fast.logs| == |old(fast.logs)| + (if okFast then 1 else 0) && old(fast.logs) <= fast.logs
    ensures |slow.logs| == |old(slow.logs)| + (if okSlow && rows != [] then 1 else 0) && old(slow.logs) <= slow.logs
    ensures okFast && okSlow && rows != [] ==> fast.logs[|fast.logs| - 1] == slow.logs[|slow.logs| - 1]
    ensures okFast ==>
              var cols := fast.logs[|fast.logs| - 1];
              Rectangular(cols, |rows|) && forall i :: 0 <= i < |rows| ==> ReadRow(cols, |rows|, i) == Stored(rows[i])
  {
    hide ColumnsOf, ReadRow, Rectangular, Stored, Hex, RowOf, Matching;
    var aborted := fast.BatchInsert([bad]);
    assert bad in [bad] && !GoodIds(bad);
    aborted := slow.BatchInsert([bad]);
    var appender := AppendAll(fast, preSize, rows);
    okFast := appender.Flush();
    okSlow := slow.BatchInsert(zs);
    MatchingRows(rows, zs);
    ReadBack(StoredAll(rows));
  }
}
