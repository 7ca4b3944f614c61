/**
 * The CVM daily fund report (INF_DIARIO): one row per fund and day with
 * the quota value. Both market-data scripts keep, per fund, the row of
 * the latest day, and both try a few monthly files until one loads.
 */
module Quotas {
  import opened Common

  /** One report row: the CNPJ_FUNDO cell as written, DT_COMPTC and VL_QUOTA. */
  datatype QuotaRow = QuotaRow(cnpj: string, day: Day, quota: Float)

  /**
   * `sort_values('DT_COMPTC').drop_duplicates(..., keep='last')` indexed by
   * key(CNPJ_FUNDO): per key, the row of the latest day. Among rows of one
   * key and one day the later row in the file is kept.
   */
  function Latest(rows: seq<QuotaRow>, key: string -> string): map<string, QuotaRow> {
    if rows == [] then map[]
    else
      var m := Latest(rows[..|rows| - 1], key);
      var r := rows[|rows| - 1];
      var k := key(r.cnpj);
      if k in m && r.day < m[k].day then m else m[k := r]
  }

  /** A key is indexed exactly when some row carries it. */
  lemma {:induction false} LatestKeys(rows: seq<QuotaRow>, key: string -> string, k: string)
    ensures k in Latest(rows, key) <==> exists i :: 0 <= i < |rows| && key(rows[i].cnpj) == k
  {
    if rows != [] {
      var init := rows[..|rows| - 1];
      LatestKeys(init, key, k);
      if exists i :: 0 <= i < |init| && key(init[i].cnpj) == k {
        var i :| 0 <= i < |init| && key(init[i].cnpj) == k;
        assert rows[i] == init[i];
      }
      if exists i :: 0 <= i < |rows| && key(rows[i].cnpj) == k {
        var i :| 0 <= i < |rows| && key(rows[i].cnpj) == k;
        if i < |init| {
          assert init[i] == rows[i];
        }
      }
    }
  }

  /** The row kept for a key is a row of that key, and no row of the key is later. */
  lemma {:induction false} LatestIsLatest(rows: seq<QuotaRow>, key: string -> string, k: string)
    requires k in Latest(rows, key)
    ensures Latest(rows, key)[k] in rows
    ensures key(Latest(rows, key)[k].cnpj) == k
    ensures forall i :: 0 <= i < |rows| && key(rows[i].cnpj) == k ==> rows[i].day <= Latest(rows, key)[k].day
  {
    var init := rows[..|rows| - 1];
    var m := Latest(init, key);
    var r := rows[|rows| - 1];
    if k in m {
      LatestIsLatest(init, key, k);
      assert m[k] in rows by {
        var j :| 0 <= j < |init| && init[j] == m[k];
        assert rows[j] == init[j];
      }
      forall i | 0 <= i < |rows| && key(rows[i].cnpj) == k
        ensures rows[i].day <= Latest(rows, key)[k].day
      {
        if i < |init| {
          assert init[i] == rows[i];
        }
      }
    } else {
      LatestKeys(init, key, k);
      assert forall i :: 0 <= i < |init| ==> init[i] == rows[i];
    }
  }

  /**
   * `for i in range(n): try: load month i; break / except: continue`:
   * the first of attempts i, i+1, ..., n-1 that loads.
   */
  function FirstLoad(loads: nat -> Option<seq<QuotaRow>>, i: nat, n: nat): Option<seq<QuotaRow>>
    decreases n - i
  {
    if i >= n then None
    else if loads(i).Some? then loads(i)
    else FirstLoad(loads, i + 1, n)
  }

  /** The file used is the first that loads; there is none only when every attempt fails. */
  lemma {:induction false} FirstLoadSpec(loads: nat -> Option<seq<QuotaRow>>, i: nat, n: nat)
    ensures FirstLoad(loads, i, n).None? <==> forall j :: i <= j < n ==> loads(j).None?
    ensures FirstLoad(loads, i, n).Some? ==>
      exists j :: i <= j < n && loads(j) == FirstLoad(loads, i, n) && forall h :: i <= h < j ==> loads(h).None?
    decreases n - i
  {
    if i < n && loads(i).None? {
      FirstLoadSpec(loads, i + 1, n);
      if FirstLoad(loads, i, n).Some? {
        var j :| i + 1 <= j < n && loads(j) == FirstLoad(loads, i + 1, n) && forall h :: i + 1 <= h < j ==> loads(h).None?;
        assert forall h :: i <= h < j ==> loads(h).None?;
      }
    }
  }
}
