/**
 * The gmgn save step (`save_to_database`): one upsert per record on the `gmgnkol` table, keyed by
 * `record.get('id', 0)`.  A record whose payload cannot be built (`float()` or `int()` raises) is
 * reported and skipped.  The table is a map from row id to row; a row that the upsert creates
 * receives the next autoincrement id, since the key is only used to look an existing row up.
 */
module GmgnStore {
  import opened Wrappers
  import opened PyNumbers
  import opened Windows
  import opened GmgnExtractor

  /** A `gmgnkol` row. */
  datatype GmgnEntry = GmgnEntry(
    period: nat,
    walletName: string,
    walletAddress: string,
    pnlPercentage: string,
    pnlUsd: Decimal,
    telegram: Option<string>,
    twitter: Option<string>,
    win: int,
    loss: int)

  /** The `update` payload: every column of the `create` payload except the wallet address. */
  datatype GmgnUpdate = GmgnUpdate(
    period: nat,
    walletName: string,
    pnlPercentage: string,
    pnlUsd: Decimal,
    telegram: Option<string>,
    twitter: Option<string>,
    win: int,
    loss: int)

  /** `float(record['pnl_usd'])`: a converted amount is kept, the fallback text is parsed. */
  function UsdValue(u: PnlUsd): Option<Decimal>
  {
    match u
    case Amount(d) => Some(d)
    case RawText(t) => ParseFloat(t)
  }

  /** The `create` payload; `None` when one of its conversions raises. */
  function CreatePayload(r: GmgnRecord): (p: Option<GmgnEntry>)
    ensures p.Some? <==> UsdValue(r.pnlUsd).Some? && ParseInt(r.win).Some? && ParseInt(r.loss).Some?
    ensures p.Some? ==> p.value.walletAddress == r.walletAddress && p.value.period == r.period
  {
    var usd, win, loss := UsdValue(r.pnlUsd), ParseInt(r.win), ParseInt(r.loss);
    if usd.None? || win.None? || loss.None? then None
    else Some(GmgnEntry(r.period, r.walletName, r.walletAddress, r.pnlPercentage, usd.value,
                        r.telegram, r.twitter, win.value, loss.value))
  }

  /** The `update` payload; `None` when one of its conversions raises. */
  function UpdatePayload(r: GmgnRecord): Option<GmgnUpdate>
  {
    var usd, win, loss := UsdValue(r.pnlUsd), ParseInt(r.win), ParseInt(r.loss);
    if usd.None? || win.None? || loss.None? then None
    else Some(GmgnUpdate(r.period, r.walletName, r.pnlPercentage, usd.value,
                         r.telegram, r.twitter, win.value, loss.value))
  }

  /** The update payload a create payload determines: the same columns, the address dropped. */
  function DropAddress(e: GmgnEntry): GmgnUpdate
  {
    GmgnUpdate(e.period, e.walletName, e.pnlPercentage, e.pnlUsd, e.telegram, e.twitter, e.win, e.loss)
  }

  /** An existing row after an update: the update's columns, the row's own address. */
  function ApplyUpdate(e: GmgnEntry, u: GmgnUpdate): (e': GmgnEntry)
    ensures e'.walletAddress == e.walletAddress
    ensures DropAddress(e') == u
  {
    GmgnEntry(u.period, u.walletName, e.walletAddress, u.pnlPercentage, u.pnlUsd, u.telegram, u.twitter, u.win, u.loss)
  }

  /** `record.get('id', 0)`. */
  function Key(r: GmgnRecord): int
  {
    r.id.GetOr(0)
  }

  /** The table: its rows by id, and the id the next created row receives. */
  datatype GmgnState = GmgnState(rows: map<int, GmgnEntry>, nextId: int)

  /** Every row id lies below the next autoincrement id. */
  predicate ValidState(s: GmgnState)
  {
    forall k :: k in s.rows ==> k < s.nextId
  }

  /** `upsert(where={'id': key}, create, update)`: update the row with that id, or create one. */
  function UpsertSpec(s: GmgnState, key: int, create: GmgnEntry, update: GmgnUpdate): (s': GmgnState)
    requires ValidState(s)
    ensures ValidState(s')
    ensures key in s.rows ==> s'.rows.Keys == s.rows.Keys && s'.nextId == s.nextId
    ensures key !in s.rows ==> s'.rows.Keys == s.rows.Keys + {s.nextId} && s.nextId !in s.rows && s'.nextId == s.nextId + 1
    ensures key in s.rows ==>
              s'.rows[key].walletAddress == s.rows[key].walletAddress && DropAddress(s'.rows[key]) == update
    ensures key !in s.rows ==> s'.rows[s.nextId] == create
    ensures forall k :: k in s.rows && k != key ==> s'.rows[k] == s.rows[k]
  {
    if key in s.rows then GmgnState(s.rows[key := ApplyUpdate(s.rows[key], update)], s.nextId)
    else GmgnState(s.rows[s.nextId := create], s.nextId + 1)
  }

  /** One iteration of the save loop: upsert the record, or leave the table alone when it raises. */
  function SaveRecord(s: GmgnState, r: GmgnRecord): (s': GmgnState)
    requires ValidState(s)
    ensures ValidState(s')
    ensures CreatePayload(r).None? ==> s' == s
    ensures CreatePayload(r).Some? ==>
              var create := CreatePayload(r).value;
              s' == UpsertSpec(s, Key(r), create, DropAddress(create))
  {
    match CreatePayload(r)
    case None => s
    case Some(create) =>
      UpdateMatchesCreate(r);
      UpsertSpec(s, Key(r), create, UpdatePayload(r).value)
  }

  /** The table after saving `data` in order. */
  function SaveSpec(s: GmgnState, data: seq<GmgnRecord>): (s': GmgnState)
    requires ValidState(s)
    ensures ValidState(s')
    decreases |data|
  {
    if data == [] then s else SaveRecord(SaveSpec(s, data[..|data| - 1]), data[|data| - 1])
  }

  /** The create payloads of the records that can be saved, in order. */
  function Creates(data: seq<GmgnRecord>): seq<GmgnEntry>
    decreases |data|
  {
    if data == [] then []
    else
      var front := Creates(data[..|data| - 1]);
      match CreatePayload(data[|data| - 1])
      case None => front
      case Some(e) => front + [e]
  }

  /** The gmgnkol table, which `save_to_database` updates record by record. */
  class GmgnTable {
    var rows: map<int, GmgnEntry>
    var nextId: int

    ghost predicate Valid()
      reads this
    {
      ValidState(State())
    }

    function State(): GmgnState
      reads this
    {
      GmgnState(rows, nextId)
    }

    /** An empty table whose autoincrement starts at 1. */
    constructor ()
      ensures Valid() && rows == map[] && nextId == 1
    {
      rows := map[];
      nextId := 1;
    }

    method Upsert(key: int, create: GmgnEntry, update: GmgnUpdate)
      requires Valid()
      modifies this
      ensures Valid()
      ensures State() == UpsertSpec(old(State()), key, create, update)
    {
      if key in rows {
        rows := rows[key := ApplyUpdate(rows[key], update)];
      } else {
        rows := rows[nextId := create];
        nextId := nextId + 1;
      }
    }

    /** `save_to_database`: every record upserted in order, failing ones skipped. */
    method SaveToDatabase(data: seq<GmgnRecord>)
      requires Valid()
      modifies this
      ensures Valid()
      ensures State() == SaveSpec(old(State()), data)
    {
      for i := 0 to |data|
        invariant Valid()
        invariant State() == SaveSpec(old(State()), data[..i])
      {
        assert data[..i + 1][..i] == data[..i];
        var r := data[i];
        var create := CreatePayload(r);
        if create.Some? {
          UpdateMatchesCreate(r);
          Upsert(Key(r), create.value, UpdatePayload(r).value);
        }
      }
      assert data[..|data|] == data;
    }
  }

  /** The update payload is the create payload minus the wallet address, and fails with it. */
  lemma UpdateMatchesCreate(r: GmgnRecord)
    ensures UpdatePayload(r).Some? <==> CreatePayload(r).Some?
    ensures CreatePayload(r).Some? ==> UpdatePayload(r).value == DropAddress(CreatePayload(r).value)
  {
  }

  /** A record with a converted amount and digit-string counts saves its columns as they are. */
  lemma CreatePayloadOfDigits(r: GmgnRecord, d: Decimal)
    requires r.pnlUsd == Amount(d)
    requires r.win != [] && AllDigits(r.win) && r.loss != [] && AllDigits(r.loss)
    ensures CreatePayload(r) == Some(GmgnEntry(r.period, r.walletName, r.walletAddress, r.pnlPercentage,
                                               d, r.telegram, r.twitter, DigitsValue(r.win), DigitsValue(r.loss)))
  {
    ParseIntOfDigits(r.win);
    ParseIntOfDigits(r.loss);
  }

  /** Records as extracted carry no id, so every upsert looks up row 0. */
  lemma ExtractedKeyIsZero(rows: seq<GmgnRow>, w: Window)
    ensures forall r :: r in ExtractRows(rows, w) ==> Key(r) == 0
  {
    ExtractRowsShape(rows, w);
  }

  /** No record in `data` carries an id. */
  predicate NoIds(data: seq<GmgnRecord>)
  {
    forall k :: 0 <= k < |data| ==> data[k].id.None?
  }

  /** Saving can be split anywhere: the second part is saved on top of the first part's result. */
  lemma {:induction false} SaveAppend(s: GmgnState, a: seq<GmgnRecord>, b: seq<GmgnRecord>)
    requires ValidState(s)
    ensures SaveSpec(s, a + b) == SaveSpec(SaveSpec(s, a), b)
    decreases |b|
  {
    if b == [] {
      assert a + b == a;
    } else {
      var b' := b[..|b| - 1];
      assert (a + b)[..|a + b| - 1] == a + b';
      SaveAppend(s, a, b');
    }
  }

  /** A record whose payload cannot be built leaves no trace: the batch goes on without it. */
  lemma SkipsUnsavable(s: GmgnState, a: seq<GmgnRecord>, r: GmgnRecord, b: seq<GmgnRecord>)
    requires ValidState(s) && CreatePayload(r).None?
    ensures SaveSpec(s, a + [r] + b) == SaveSpec(s, a + b)
  {
    SaveAppend(s, a + [r], b);
    SaveAppend(s, a, [r]);
    assert [r][..0] == [];
    SaveAppend(s, a, b);
  }

  /**
   * `s'` is `s` with the entries `es` added as new rows at the next ids, in order, and every row
   * of `s` kept as it was.
   */
  ghost predicate AddsRows(s: GmgnState, s': GmgnState, es: seq<GmgnEntry>)
  {
    && s'.nextId == s.nextId + |es|
    && (forall k :: k in s'.rows <==> k in s.rows || s.nextId <= k < s.nextId + |es|)
    && (forall k :: k in s.rows ==> s'.rows[k] == s.rows[k])
    && (forall i :: 0 <= i < |es| ==> s'.rows[s.nextId + i] == es[i])
  }

  lemma AddsOneMore(s: GmgnState, mid: GmgnState, es: seq<GmgnEntry>, e: GmgnEntry)
    requires ValidState(s) && ValidState(mid) && AddsRows(s, mid, es)
    requires mid.nextId !in mid.rows
    ensures AddsRows(s, GmgnState(mid.rows[mid.nextId := e], mid.nextId + 1), es + [e])
  {
    var s' := GmgnState(mid.rows[mid.nextId := e], mid.nextId + 1);
    var es' := es + [e];
    forall i | 0 <= i < |es'| ensures s'.rows[s.nextId + i] == es'[i] {
      if i < |es| {
        assert s.nextId + i in mid.rows;
      }
    }
    forall k | k in s.rows ensures s'.rows[k] == s.rows[k] {
      assert k in mid.rows && k < mid.nextId;
    }
  }

  /**
   * With no row 0 and records without ids, saving never updates: every savable record becomes a
   * new row at the next ids, in order, and the rows already there are kept unchanged.
   */
  lemma {:induction false} SaveInsertsOnly(s: GmgnState, data: seq<GmgnRecord>)
    requires ValidState(s) && 0 !in s.rows && s.nextId >= 1 && NoIds(data)
    ensures AddsRows(s, SaveSpec(s, data), Creates(data))
    decreases |data|
  {
    if data == [] {
      assert AddsRows(s, s, []);
    } else {
      var front := data[..|data| - 1];
      var r := data[|data| - 1];
      assert NoIds(front) by {
        assert forall k :: 0 <= k < |front| ==> front[k] == data[k];
      }
      SaveInsertsOnly(s, front);
      var mid := SaveSpec(s, front);
      assert 0 !in mid.rows by {
        assert 0 < s.nextId;
      }
      InsertStep(s, mid, Creates(front), r);
    }
  }

  /** One record saved onto a table without a row 0: it becomes a new row, or is skipped. */
  lemma InsertStep(s: GmgnState, mid: GmgnState, es: seq<GmgnEntry>, r: GmgnRecord)
    requires ValidState(s) && ValidState(mid) && AddsRows(s, mid, es) && 0 !in mid.rows && r.id.None?
    ensures CreatePayload(r).None? ==> SaveRecord(mid, r) == mid
    ensures CreatePayload(r).Some? ==> AddsRows(s, SaveRecord(mid, r), es + [CreatePayload(r).value])
  {
    if CreatePayload(r).Some? {
      AddsOneMore(s, mid, es, CreatePayload(r).value);
    }
  }

  /** Adding `es` and then `es` again adds the doubled list. */
  lemma AddsTwice(s: GmgnState, s1: GmgnState, s2: GmgnState, es: seq<GmgnEntry>)
    requires AddsRows(s, s1, es) && AddsRows(s1, s2, es)
    ensures AddsRows(s, s2, es + es)
  {
    var n := |es|;
    forall i | 0 <= i < |es + es| ensures s2.rows[s.nextId + i] == (es + es)[i] {
      if i < n {
        assert s.nextId + i in s1.rows;
      } else {
        assert s.nextId + i == s1.nextId + (i - n);
      }
    }
  }

  /**
   * Running the same save twice stores every savable record twice: the second run adds the same
   * entries again as new rows after the first run's.
   */
  lemma SaveTwiceDuplicates(s: GmgnState, data: seq<GmgnRecord>)
    requires ValidState(s) && 0 !in s.rows && s.nextId >= 1 && NoIds(data)
    ensures AddsRows(s, SaveSpec(SaveSpec(s, data), data), Creates(data) + Creates(data))
  {
    SaveInsertsOnly(s, data);
    var s1 := SaveSpec(s, data);
    assert 0 !in s1.rows;
    SaveInsertsOnly(s1, data);
    AddsTwice(s, s1, SaveSpec(s1, data), Creates(data));
  }

  /**
   * With a row 0 present, every savable record updates that row: afterwards it holds the last
   * savable record's columns under its original address, and no row is added.  Row 0 must
   * already be in the table: a table filled only through `save_to_database` never has one, since
   * the autoincrement ids it hands out start at 1.
   */
  lemma SaveOverwritesRowZero(s: GmgnState, data: seq<GmgnRecord>)
    requires ValidState(s) && 0 in s.rows && NoIds(data)
    ensures var s' := SaveSpec(s, data);
            && s'.rows.Keys == s.rows.Keys && s'.nextId == s.nextId
            && (forall k :: k in s.rows && k != 0 ==> s'.rows[k] == s.rows[k])
            && s'.rows[0].walletAddress == s.rows[0].walletAddress
            && (Creates(data) == [] ==> s'.rows[0] == s.rows[0])
            && (Creates(data) != [] ==> DropAddress(s'.rows[0]) == DropAddress(Creates(data)[|Creates(data)| - 1]))
  {
    SaveKeepsOtherRows(s, data);
    SaveRowZeroColumns(s, data);
  }

  /** With a row 0 present, saving adds no row and changes no row but row 0's columns. */
  lemma {:induction false} SaveKeepsOtherRows(s: GmgnState, data: seq<GmgnRecord>)
    requires ValidState(s) && 0 in s.rows && NoIds(data)
    ensures var s' := SaveSpec(s, data);
            && s'.rows.Keys == s.rows.Keys && s'.nextId == s.nextId
            && (forall k :: k in s.rows && k != 0 ==> s'.rows[k] == s.rows[k])
            && s'.rows[0].walletAddress == s.rows[0].walletAddress
    decreases |data|
  {
    if data != [] {
      var front := data[..|data| - 1];
      assert NoIds(front) by {
        assert forall k :: 0 <= k < |front| ==> front[k] == data[k];
      }
      SaveKeepsOtherRows(s, front);
      OverwriteStep(SaveSpec(s, front), data[|data| - 1]);
    }
  }

  /** With a row 0 present, row 0 ends up with the columns of the last savable record. */
  lemma {:induction false} SaveRowZeroColumns(s: GmgnState, data: seq<GmgnRecord>)
    requires ValidState(s) && 0 in s.rows && NoIds(data)
    ensures 0 in SaveSpec(s, data).rows
    ensures Creates(data) == [] ==> SaveSpec(s, data).rows[0] == s.rows[0]
    ensures Creates(data) != [] ==> DropAddress(SaveSpec(s, data).rows[0]) == DropAddress(Creates(data)[|Creates(data)| - 1])
    decreases |data|
  {
    if data != [] {
      var front := data[..|data| - 1];
      assert NoIds(front) by {
        assert forall k :: 0 <= k < |front| ==> front[k] == data[k];
      }
      var r := data[|data| - 1];
      var mid := SaveSpec(s, front);
      assert SaveSpec(s, data) == SaveRecord(mid, r);
      SaveRowZeroColumns(s, front);
      OverwriteStep(mid, r);
      CreatesLast(data);
      LastColumnsStep(s.rows[0], mid.rows[0], SaveRecord(mid, r).rows[0], Creates(front), CreatePayload(r), Creates(data));
    }
  }

  /** The savable records of a batch: those before its last record, then the last if savable. */
  lemma CreatesLast(data: seq<GmgnRecord>)
    requires data != []
    ensures var r := data[|data| - 1];
            Creates(data) == Creates(data[..|data| - 1]) + if CreatePayload(r).Some? then [CreatePayload(r).value] else []
  {
  }

  /**
   * Row 0 after one more record: its columns follow the last savable record so far, and stay the
   * original row's while there is none.
   */
  lemma LastColumnsStep(e0: GmgnEntry, before: GmgnEntry, after: GmgnEntry,
                        es: seq<GmgnEntry>, c: Option<GmgnEntry>, es': seq<GmgnEntry>)
    requires es == [] ==> before == e0
    requires es != [] ==> DropAddress(before) == DropAddress(es[|es| - 1])
    requires c.None? ==> after == before && es' == es
    requires c.Some? ==> DropAddress(after) == DropAddress(c.value) && es' == es + [c.value]
    ensures es' == [] ==> after == e0
    ensures es' != [] ==> DropAddress(after) == DropAddress(es'[|es'| - 1])
  {
  }

  /** One record saved onto a table with a row 0: it updates that row, or is skipped. */
  lemma OverwriteStep(mid: GmgnState, r: GmgnRecord)
    requires ValidState(mid) && 0 in mid.rows && r.id.None?
    ensures var t := SaveRecord(mid, r);
            && t.rows.Keys == mid.rows.Keys && t.nextId == mid.nextId
            && (forall k :: k in mid.rows && k != 0 ==> t.rows[k] == mid.rows[k])
            && t.rows[0].walletAddress == mid.rows[0].walletAddress
            && (CreatePayload(r).None? ==> t == mid)
            && (CreatePayload(r).Some? ==> DropAddress(t.rows[0]) == DropAddress(CreatePayload(r).value))
  {
    UpdateMatchesCreate(r);
  }
}
