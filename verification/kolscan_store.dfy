/**
 * The kolscan save step (`save_to_database`): the `kolleaderboard` table is cleared, then every
 * record is upserted keyed by its wallet address.  The table is a map from wallet address to
 * row; win and loss are not stored.
 */
module KolscanStore {
  import opened JsonValues
  import opened KolscanExtractor

  /** A `kolleaderboard` row. */
  datatype KolEntry = KolEntry(
    period: nat,
    walletName: string,
    walletAddress: string,
    pnlUsd: string,
    pnlSol: string,
    telegram: Json,
    twitter: Json)

  /** The `update` payload: every column of the `create` payload except the wallet address. */
  datatype KolUpdate = KolUpdate(
    period: nat,
    walletName: string,
    pnlUsd: string,
    pnlSol: string,
    telegram: Json,
    twitter: Json)

  function CreatePayload(r: KolRecord): (e: KolEntry)
    ensures e.walletAddress == r.walletAddress && e.period == r.period
  {
    KolEntry(r.period, r.walletName, r.walletAddress, r.pnlUsd, r.pnlSol, r.telegram, r.twitter)
  }

  function UpdatePayload(r: KolRecord): KolUpdate
  {
    KolUpdate(r.period, r.walletName, r.pnlUsd, r.pnlSol, r.telegram, r.twitter)
  }

  /** The update payload a create payload determines: the same columns, the address dropped. */
  function DropAddress(e: KolEntry): KolUpdate
  {
    KolUpdate(e.period, e.walletName, e.pnlUsd, e.pnlSol, e.telegram, e.twitter)
  }

  /** An existing row after an update: the update's columns, the row's own address. */
  function ApplyUpdate(e: KolEntry, u: KolUpdate): (e': KolEntry)
    ensures e'.walletAddress == e.walletAddress
    ensures DropAddress(e') == u
  {
    KolEntry(u.period, u.walletName, e.walletAddress, u.pnlUsd, u.pnlSol, u.telegram, u.twitter)
  }

  /** Every row is stored under its own wallet address. */
  predicate Keyed(m: map<string, KolEntry>)
  {
    forall a :: a in m ==> m[a].walletAddress == a
  }

  /** `upsert(where={'wallet_address': ...}, create, update)` for one record. */
  function UpsertSpec(m: map<string, KolEntry>, r: KolRecord): (m': map<string, KolEntry>)
    ensures m'.Keys == m.Keys + {r.walletAddress}
  {
    if r.walletAddress in m then m[r.walletAddress := ApplyUpdate(m[r.walletAddress], UpdatePayload(r))]
    else m[r.walletAddress := CreatePayload(r)]
  }

  /** The records upserted in order onto `m`. */
  function UpsertAll(m: map<string, KolEntry>, data: seq<KolRecord>): map<string, KolEntry>
    decreases |data|
  {
    if data == [] then m else UpsertSpec(UpsertAll(m, data[..|data| - 1]), data[|data| - 1])
  }

  /** The table after `save_to_database`: cleared, then every record upserted. */
  function Snapshot(data: seq<KolRecord>): map<string, KolEntry>
  {
    UpsertAll(map[], data)
  }

  /** The `kolleaderboard` table, which `save_to_database` clears and refills. */
  class KolTable {
    var entries: map<string, KolEntry>

    /** An empty table. */
    constructor ()
      ensures entries == map[]
    {
      entries := map[];
    }

    /** `delete_many()`. */
    method DeleteMany()
      modifies this
      ensures entries == map[]
    {
      entries := map[];
    }

    method Upsert(r: KolRecord)
      modifies this
      ensures entries == UpsertSpec(old(entries), r)
    {
      var key := r.walletAddress;
      if key in entries {
        entries := entries[key := ApplyUpdate(entries[key], UpdatePayload(r))];
      } else {
        entries := entries[key := CreatePayload(r)];
      }
    }

    /** `save_to_database`: clear the table, then upsert every record in order. */
    method SaveToDatabase(data: seq<KolRecord>)
      modifies this
      ensures entries == Snapshot(data)
    {
      DeleteMany();
      for i := 0 to |data|
        invariant entries == UpsertAll(map[], data[..i])
      {
        assert data[..i + 1][..i] == data[..i];
        Upsert(data[i]);
      }
      assert data[..|data|] == data;
    }
  }

  /** The update payload is the create payload minus the wallet address. */
  lemma UpdateMatchesCreate(r: KolRecord)
    ensures UpdatePayload(r) == DropAddress(CreatePayload(r))
  {
  }

  /**
   * On a keyed table an upsert amounts to storing the record's row under its address: updating
   * the existing row yields exactly the row creating it would.
   */
  lemma UpsertStores(m: map<string, KolEntry>, r: KolRecord)
    requires Keyed(m)
    ensures UpsertSpec(m, r) == m[r.walletAddress := CreatePayload(r)]
    ensures Keyed(UpsertSpec(m, r))
  {
    if r.walletAddress in m {
      var e := m[r.walletAddress];
      var e' := ApplyUpdate(e, UpdatePayload(r));
      assert e' == CreatePayload(r);
    }
  }

  /** Record `k` is the last one in `data` for address `a`. */
  predicate LastFor(data: seq<KolRecord>, k: int, a: string)
    requires 0 <= k < |data|
  {
    data[k].walletAddress == a && forall j :: k < j < |data| ==> data[j].walletAddress != a
  }

  /** Upserting onto a keyed table keeps it keyed and adds exactly the batch's addresses. */
  lemma UpsertAllKeys(m: map<string, KolEntry>, data: seq<KolRecord>)
    requires Keyed(m)
    ensures Keyed(UpsertAll(m, data))
    ensures forall a :: a in UpsertAll(m, data) <==> a in m || exists k :: 0 <= k < |data| && data[k].walletAddress == a
  {
    UpsertAllKeyed(m, data);
    UpsertAllDomain(m, data);
  }

  lemma {:induction false} UpsertAllKeyed(m: map<string, KolEntry>, data: seq<KolRecord>)
    requires Keyed(m)
    ensures Keyed(UpsertAll(m, data))
    decreases |data|
  {
    if data != [] {
      var front := data[..|data| - 1];
      UpsertAllKeyed(m, front);
      UpsertStores(UpsertAll(m, front), data[|data| - 1]);
    }
  }

  lemma {:induction false} UpsertAllDomain(m: map<string, KolEntry>, data: seq<KolRecord>)
    ensures forall a :: a in UpsertAll(m, data) <==> a in m || exists k :: 0 <= k < |data| && data[k].walletAddress == a
    decreases |data|
  {
    if data != [] {
      var n := |data| - 1;
      var front := data[..n];
      UpsertAllDomain(m, front);
      assert forall k :: 0 <= k < n ==> front[k] == data[k];
      forall a | a in UpsertAll(m, data) && a !in m && a != data[n].walletAddress
        ensures exists k :: 0 <= k < |data| && data[k].walletAddress == a
      {
        var k :| 0 <= k < n && front[k].walletAddress == a;
        assert data[k].walletAddress == a;
      }
    }
  }

  /** Upserting leaves the rows of the addresses the batch does not mention as they were. */
  lemma {:induction false} UpsertAllKeeps(m: map<string, KolEntry>, data: seq<KolRecord>, a: string)
    requires a in m
    requires forall k :: 0 <= k < |data| ==> data[k].walletAddress != a
    ensures a in UpsertAll(m, data) && UpsertAll(m, data)[a] == m[a]
    decreases |data|
  {
    if data != [] {
      var n := |data| - 1;
      assert forall k :: 0 <= k < n ==> data[..n][k] == data[k];
      UpsertAllKeeps(m, data[..n], a);
    }
  }

  /** Upserting onto a keyed table stores, for each address, the row of its last record. */
  lemma {:induction false} UpsertAllLastWins(m: map<string, KolEntry>, data: seq<KolRecord>, k: int)
    requires Keyed(m) && 0 <= k < |data| && LastFor(data, k, data[k].walletAddress)
    ensures data[k].walletAddress in UpsertAll(m, data)
    ensures UpsertAll(m, data)[data[k].walletAddress] == CreatePayload(data[k])
    decreases |data|
  {
    var n := |data| - 1;
    var front := data[..n];
    UpsertAllKeyed(m, front);
    UpsertStores(UpsertAll(m, front), data[n]);
    if k < n {
      assert forall j :: k < j < n ==> front[j] == data[j];
      assert LastFor(front, k, front[k].walletAddress);
      UpsertAllLastWins(m, front, k);
    }
  }

  /**
   * After a save the table holds exactly one row per distinct address of the batch, holding the
   * columns of that address's last record, its period included; whatever the table held before
   * is gone.
   */
  lemma SnapshotContents(data: seq<KolRecord>)
    ensures Keyed(Snapshot(data))
    ensures forall a :: a in Snapshot(data) <==> exists k :: 0 <= k < |data| && data[k].walletAddress == a
    ensures forall k :: 0 <= k < |data| && LastFor(data, k, data[k].walletAddress) ==>
              Snapshot(data)[data[k].walletAddress] == CreatePayload(data[k])
  {
    UpsertAllKeys(map[], data);
    forall k | 0 <= k < |data| && LastFor(data, k, data[k].walletAddress)
      ensures Snapshot(data)[data[k].walletAddress] == CreatePayload(data[k])
    {
      UpsertAllLastWins(map[], data, k);
    }
  }

  /** Upserting the same batch onto a table that already holds its snapshot changes nothing. */
  lemma UpsertSnapshotAgain(data: seq<KolRecord>)
    ensures UpsertAll(Snapshot(data), data) == Snapshot(data)
  {
    var s := Snapshot(data);
    SnapshotContents(data);
    UpsertAllKeys(s, data);
    var t := UpsertAll(s, data);
    forall a | a in t ensures t[a] == s[a] {
      var k := LastIndex(data, a);
      UpsertAllLastWins(s, data, k);
    }
  }

  /** The position of the last record for an address the batch mentions. */
  function LastIndex(data: seq<KolRecord>, a: string): (k: int)
    requires exists k :: 0 <= k < |data| && data[k].walletAddress == a
    ensures 0 <= k < |data| && LastFor(data, k, a)
    decreases |data|
  {
    if data[|data| - 1].walletAddress == a then |data| - 1
    else
      var front := data[..|data| - 1];
      var j :| 0 <= j < |data| && data[j].walletAddress == a;
      assert front[j] == data[j];
      LastIndex(front, a)
  }

  /**
   * When the batch ends with records that all carry period `p`, an address listed among them is
   * stored with period `p`, whatever the earlier records said about it.
   */
  lemma LaterRecordsDecidePeriod(front: seq<KolRecord>, tail: seq<KolRecord>, a: string, p: nat)
    requires forall r :: r in tail ==> r.period == p
    requires exists r :: r in tail && r.walletAddress == a
    ensures a in Snapshot(front + tail) && Snapshot(front + tail)[a].period == p
  {
    var all := front + tail;
    var r :| r in tail && r.walletAddress == a;
    var j :| 0 <= j < |tail| && tail[j] == r;
    assert all[|front| + j] == r;
    var k := LastIndex(all, a);
    assert all[k] == tail[k - |front|];
    SnapshotContents(all);
  }
}
