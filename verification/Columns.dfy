/**
 The column layout of a batch: strings packed into one byte buffer with their positions, string arrays on top of
 that with cumulative offsets, and fifteen such columns in parallel. Reading a row back gives the row appended.
 */
module Columns {
  import opened Bytes
  import opened MsgPack
  import opened LogData
  import opened FlatLogCodec

  // ---- A string column

  /** Word i occupies bytes pos[i].0 to pos[i].1 of the buffer. */
  datatype StrColumn = StrColumn(buf: seq<byte>, pos: seq<(nat, nat)>)

  function AppendWord(c: StrColumn, s: Str): StrColumn
  {
    StrColumn(c.buf + s, c.pos + [(|c.buf|, |c.buf| + |s|)])
  }

  function AppendWords(c: StrColumn, ss: seq<Str>): StrColumn
  {
    if ss == [] then c else AppendWord(AppendWords(c, ss[..|ss| - 1]), ss[|ss| - 1])
  }

  /** The positions tile the buffer: each word begins where the one before ends. */
  predicate Tiled(c: StrColumn)
  {
    && (forall i :: 0 <= i < |c.pos| ==> c.pos[i].0 <= c.pos[i].1 <= |c.buf|)
    && (forall i :: 0 <= i < |c.pos| ==> c.pos[i].0 == if i == 0 then 0 else c.pos[i - 1].1)
    && |c.buf| == if c.pos == [] then 0 else c.pos[|c.pos| - 1].1
  }

  /** The words of a column, read through the positions. */
  function Words(c: StrColumn): (ss: seq<Str>)
    requires Tiled(c)
    ensures |ss| == |c.pos|
  {
    seq(|c.pos|, i requires 0 <= i < |c.pos| => c.buf[c.pos[i].0..c.pos[i].1])
  }

  lemma AppendWordReads(c: StrColumn, s: Str)
    requires Tiled(c)
    ensures Tiled(AppendWord(c, s)) && Words(AppendWord(c, s)) == Words(c) + [s]
  {
    var d := AppendWord(c, s);
    forall i | 0 <= i < |c.pos| ensures d.buf[d.pos[i].0..d.pos[i].1] == c.buf[c.pos[i].0..c.pos[i].1] {
      assert d.pos[i] == c.pos[i];
    }
    assert d.buf[|c.buf|..|c.buf| + |s|] == s;
  }

  lemma {:induction false} AppendWordsReads(c: StrColumn, ss: seq<Str>)
    requires Tiled(c)
    ensures Tiled(AppendWords(c, ss)) && Words(AppendWords(c, ss)) == Words(c) + ss
  {
    hide Tiled, Words, AppendWord;
    if ss != [] {
      var n := |ss| - 1;
      AppendWordsReads(c, ss[..n]);
      AppendWordReads(AppendWords(c, ss[..n]), ss[n]);
      assert ss == ss[..n] + [ss[n]];
    } else {
      assert Words(c) + ss == Words(c);
    }
  }

  // ---- A column of string arrays

  /** Row i holds the words offsets[i-1] to offsets[i]. */
  datatype ArrColumn = ArrColumn(data: StrColumn, offsets: seq<nat>)

  function AppendArray(c: ArrColumn, ss: seq<Str>): ArrColumn
  {
    var data := AppendWords(c.data, ss);
    ArrColumn(data, c.offsets + [|data.pos|])
  }

  predicate Laid(c: ArrColumn)
  {
    Tiled(c.data) && Cuts(c.offsets, |c.data.pos|)
  }

  /** The offsets never decrease and end at the number of words. */
  predicate Cuts(offsets: seq<nat>, n: nat)
  {
    && (forall i :: 0 <= i < |offsets| ==> Start(offsets, i) <= offsets[i] <= n)
    && n == Start(offsets, |offsets|)
  }

  function Start(offsets: seq<nat>, i: nat): nat
    requires i <= |offsets|
  {
    if i == 0 then 0 else offsets[i - 1]
  }

  function CutAt<T>(words: seq<T>, offsets: seq<nat>): (rows: seq<seq<T>>)
    requires Cuts(offsets, |words|)
    ensures |rows| == |offsets|
  {
    seq(|offsets|, i requires 0 <= i < |offsets| => words[Start(offsets, i)..offsets[i]])
  }

  function Arrays(c: ArrColumn): (rows: seq<seq<Str>>)
    requires Laid(c)
    ensures |rows| == |c.offsets|
  {
    CutAt(Words(c.data), c.offsets)
  }

  lemma CutsSnoc(offsets: seq<nat>, n: nat, k: nat)
    requires Cuts(offsets, n)
    ensures Cuts(offsets + [n + k], n + k)
    ensures forall i :: 0 <= i <= |offsets| ==> Start(offsets + [n + k], i) == Start(offsets, i)
  {
  }

  lemma CutSnoc<T>(words: seq<T>, offsets: seq<nat>, ss: seq<T>)
    requires Cuts(offsets, |words|)
    ensures Cuts(offsets + [|words| + |ss|], |words + ss|)
    ensures CutAt(words + ss, offsets + [|words| + |ss|]) == CutAt(words, offsets) + [ss]
  {
    hide Start;
    var more := offsets + [|words| + |ss|];
    CutsSnoc(offsets, |words|, |ss|);
    var a, b := CutAt(words + ss, more), CutAt(words, offsets) + [ss];
    forall i | 0 <= i < |more| ensures a[i] == b[i] {
      if i < |offsets| {
        SameSlice(words, ss, Start(offsets, i), offsets[i]);
      } else {
        assert (words + ss)[|words|..] == ss;
      }
    }
  }

  lemma SameSlice<T>(words: seq<T>, ss: seq<T>, lo: nat, hi: nat)
    requires lo <= hi <= |words|
    ensures (words + ss)[lo..hi] == words[lo..hi]
  {
  }

  lemma AppendArrayReads(c: ArrColumn, ss: seq<Str>)
    requires Laid(c)
    ensures Laid(AppendArray(c, ss)) && Arrays(AppendArray(c, ss)) == Arrays(c) + [ss]
  {
    hide Tiled, AppendWords, Cuts, CutAt;
    AppendWordsReads(c.data, ss);
    assert |Words(AppendWords(c.data, ss))| == |c.data.pos| + |ss|;
    CutSnoc(Words(c.data), c.offsets, ss);
  }

  // ---- The fifteen columns

  datatype Cols = Cols(
    timestamps: seq<Time>,
    scopeNames: seq<Str>,
    scopeVersions: seq<Str>,
    traceIds: seq<Str>,
    spanIds: seq<Str>,
    observedTimestamps: seq<Time>,
    severityTexts: seq<Str>,
    severityNumbers: seq<byte>,
    serviceNames: seq<Str>,
    bodies: StrColumn,
    bodyTypes: seq<Str>,
    logAttrKeys: ArrColumn,
    logAttrValues: ArrColumn,
    resAttrKeys: ArrColumn,
    resAttrValues: ArrColumn)

  const NO_WORDS := StrColumn([], [])
  const NO_ARRAYS := ArrColumn(NO_WORDS, [])
  const NO_ROWS := Cols([], [], [], [], [], [], [], [], [], NO_WORDS, [], NO_ARRAYS, NO_ARRAYS, NO_ARRAYS, NO_ARRAYS)

  /** A row whose ids are already in their stored form. */
  function AppendRow(c: Cols, r: Row): Cols
  {
    Cols(c.timestamps + [r.timestamp],
         c.scopeNames + [r.fields.scopeName],
         c.scopeVersions + [r.fields.scopeVersion],
         c.traceIds + [r.traceId],
         c.spanIds + [r.spanId],
         c.observedTimestamps + [r.observedTimestamp],
         c.severityTexts + [r.fields.severityText],
         c.severityNumbers + [r.severityNumber],
         c.serviceNames + [r.fields.serviceName],
         AppendWord(c.bodies, r.fields.body),
         c.bodyTypes + [r.fields.bodyType],
         AppendArray(c.logAttrKeys, r.logAttrKeys),
         AppendArray(c.logAttrValues, r.logAttrValues),
         AppendArray(c.resAttrKeys, r.resAttrKeys),
         AppendArray(c.resAttrValues, r.resAttrValues))
  }

  function ColumnsOf(rows: seq<Row>): Cols
  {
    AppendRows(NO_ROWS, rows)
  }

  function AppendRows(c: Cols, rows: seq<Row>): Cols
  {
    if rows == [] then c else AppendRow(AppendRows(c, rows[..|rows| - 1]), rows[|rows| - 1])
  }

  lemma AppendRowsSnoc(c: Cols, rows: seq<Row>, r: Row)
    ensures AppendRows(c, rows + [r]) == AppendRow(AppendRows(c, rows), r)
  {
    assert (rows + [r])[..|rows|] == rows;
  }

  /** All columns have `n` rows and the packed ones are laid out properly. */
  predicate Rectangular(c: Cols, n: nat)
  {
    && |c.timestamps| == |c.scopeNames| == |c.scopeVersions| == |c.traceIds| == |c.spanIds| == n
    && |c.observedTimestamps| == |c.severityTexts| == |c.severityNumbers| == |c.serviceNames| == |c.bodyTypes| == n
    && Tiled(c.bodies) && |c.bodies.pos| == n
    && Laid(c.logAttrKeys) && |c.logAttrKeys.offsets| == n && Laid(c.logAttrValues) && |c.logAttrValues.offsets| == n
    && Laid(c.resAttrKeys) && |c.resAttrKeys.offsets| == n && Laid(c.resAttrValues) && |c.resAttrValues.offsets| == n
  }

  /** Row `i`, read back through positions and offsets. */
  function ReadRow(c: Cols, n: nat, i: nat): Row
    requires Rectangular(c, n) && i < n
  {
    Row(c.timestamps[i], c.observedTimestamps[i], c.severityNumbers[i], c.traceIds[i], c.spanIds[i],
        Arrays(c.logAttrKeys)[i], Arrays(c.logAttrValues)[i], Arrays(c.resAttrKeys)[i], Arrays(c.resAttrValues)[i],
        LogFields(c.scopeNames[i], c.scopeVersions[i], c.severityTexts[i], c.serviceNames[i], Words(c.bodies)[i],
                  c.bodyTypes[i]))
  }

  lemma AppendRowReads(c: Cols, n: nat, r: Row)
    requires Rectangular(c, n)
    ensures var d := AppendRow(c, r);
            && Rectangular(d, n + 1) && ReadRow(d, n + 1, n) == r
            && forall i :: 0 <= i < n ==> ReadRow(d, n + 1, i) == ReadRow(c, n, i)
  {
    hide Tiled, Laid, Words, Arrays, AppendWord, AppendArray;
    AppendWordReads(c.bodies, r.fields.body);
    AppendArrayReads(c.logAttrKeys, r.logAttrKeys);
    AppendArrayReads(c.logAttrValues, r.logAttrValues);
    AppendArrayReads(c.resAttrKeys, r.resAttrKeys);
    AppendArrayReads(c.resAttrValues, r.resAttrValues);
  }

  /** The layout loses nothing: after any appends the columns are parallel and row i reads back as the i-th row. */
  lemma {:induction false} ReadBack(rows: seq<Row>)
    ensures Rectangular(ColumnsOf(rows), |rows|)
    ensures forall i :: 0 <= i < |rows| ==> ReadRow(ColumnsOf(rows), |rows|, i) == rows[i]
  {
    hide ReadRow, AppendRow;
    if rows == [] {
      assert Rectangular(NO_ROWS, 0);
    } else {
      hide Rectangular;
      var n := |rows| - 1;
      ReadBack(rows[..n]);
      AppendRowReads(ColumnsOf(rows[..n]), n, rows[n]);
    }
  }

  /** Different row sequences never share their columns. */
  lemma ColumnsDetermineRows(a: seq<Row>, b: seq<Row>)
    requires ColumnsOf(a) == ColumnsOf(b)
    ensures a == b
  {
    hide ReadRow, ColumnsOf;
    ReadBack(a);
    ReadBack(b);
    assert |a| == |ColumnsOf(a).timestamps| == |b|;
    forall i | 0 <= i < |a| ensures a[i] == b[i] {
      assert ReadRow(ColumnsOf(a), |a|, i) == a[i];
    }
  }

  // ---- Ids in hexadecimal

  function HexDigit(n: nat): byte
    requires n < 16
  {
    if n < 10 then 0x30 + n else 0x61 + n - 10
  }

  function Hex(id: seq<byte>): (s: Str)
    ensures |s| == 2 * |id|
  {
    if id == [] then [] else Hex(id[..|id| - 1]) + [HexDigit(id[|id| - 1] / 16), HexDigit(id[|id| - 1] % 16)]
  }

  predicate IsDigit(c: byte, n: nat)
    requires n < 16
  {
    c == "0123456789abcdef"[n] as int
  }

  /** Two lower-case hexadecimal digits per byte, the upper half first. */
  predicate SpellsHex(s: Str, id: seq<byte>)
  {
    && |s| == 2 * |id|
    && forall i :: 0 <= i < |id| ==> IsDigit(s[2 * i], id[i] / 16) && IsDigit(s[2 * i + 1], id[i] % 16)
  }

  lemma DigitInOrder(n: nat)
    requires n < 16
    ensures IsDigit(HexDigit(n), n)
  {
  }

  lemma SpellsMore(s: Str, id: seq<byte>, upper: byte, lower: byte, b: byte)
    requires SpellsHex(s, id) && IsDigit(upper, b / 16) && IsDigit(lower, b % 16)
    ensures SpellsHex(s + [upper, lower], id + [b])
  {
    hide IsDigit;
    forall i | 0 <= i < |id + [b]|
      ensures IsDigit((s + [upper, lower])[2 * i], (id + [b])[i] / 16)
      ensures IsDigit((s + [upper, lower])[2 * i + 1], (id + [b])[i] % 16)
    {
      assert i < |id| ==> IsDigit(s[2 * i], id[i] / 16) && IsDigit(s[2 * i + 1], id[i] % 16);
    }
  }

  lemma {:induction false} HexSpells(id: seq<byte>)
    ensures SpellsHex(Hex(id), id)
  {
    if id != [] {
      hide IsDigit, HexDigit, SpellsHex;
      var init, last := id[..|id| - 1], id[|id| - 1];
      HexSpells(init);
      DigitInOrder(last / 16);
      DigitInOrder(last % 16);
      SpellsMore(Hex(init), init, HexDigit(last / 16), HexDigit(last % 16), last);
      assert id == init + [last];
    }
  }

  lemma {:induction false} HexInjective(a: seq<byte>, b: seq<byte>)
    requires Hex(a) == Hex(b)
    ensures a == b
  {
    if a != [] && b != [] {
      var m, n := |a| - 1, |b| - 1;
      assert Hex(a)[2 * m..] == [HexDigit(a[m] / 16), HexDigit(a[m] % 16)];
      assert Hex(a)[..2 * m] == Hex(a[..m]) && Hex(b)[..2 * n] == Hex(b[..n]);
      HexInjective(a[..m], b[..n]);
      assert a == a[..m] + [a[m]] && b == b[..n] + [b[n]];
    }
  }

  /** The row with its ids as 32 and 16 lower-case hexadecimal digits. */
  function Stored(r: Row): Row
  {
    r.(traceId := Hex(r.traceId), spanId := Hex(r.spanId))
  }

  function StoredAll(rows: seq<Row>): (ss: seq<Row>)
    ensures |ss| == |rows| && forall i :: 0 <= i < |rows| ==> ss[i] == Stored(rows[i])
  {
    seq(|rows|, i requires 0 <= i < |rows| => Stored(rows[i]))
  }

  /** A flat record as a row in stored form. */
  function RowOf(z: FlatLog): Row
  {
    Row(z.timestamp, z.observedTimestamp, z.severityNumber, z.traceId, z.spanId, z.logAttrKeys, z.logAttrValues,
        z.resAttrKeys, z.resAttrValues,
        LogFields(z.scopeName, z.scopeVersion, z.severityText, z.serviceName, z.body, z.bodyType))
  }

  function RowsOf(zs: seq<FlatLog>): (rows: seq<Row>)
    ensures |rows| == |zs| && forall i :: 0 <= i < |zs| ==> rows[i] == RowOf(zs[i])
  {
    seq(|zs|, i requires 0 <= i < |zs| => RowOf(zs[i]))
  }
}
