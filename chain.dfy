/** The arithmetic of a reading and the forward cascade that an edit runs
    along the machine's chain of readings. */
module Chain {
  import opened Domain
  import opened Schema

  /** `entrada - salida - jackpots`. */
  function RawNeto(l: Lectura): Amount {
    l.entrada - l.salida - l.jackpots
  }

  /** The derivation law of the three derived columns, for a denomination. */
  predicate Derived(l: Lectura, den: Amount) {
    && l.netoFinal == RawNeto(l)
    && l.totalCreditos == l.netoFinal - l.netoInicial
    && l.totalRecaudo == l.totalCreditos * den
  }

  /** The columns an edit never writes. */
  predicate SameIdentity(a: Lectura, b: Lectura) {
    && a.sucursalId == b.sucursalId && a.maquinaId == b.maquinaId && a.userId == b.userId
    && a.fecha == b.fecha && a.confirmado == b.confirmado && a.fechaConfirmacion == b.fechaConfirmacion
    && a.cierreId == b.cierreId && a.createdAt == b.createdAt
  }

  /** The raw counters. */
  predicate SameCounters(a: Lectura, b: Lectura) {
    a.entrada == b.entrada && a.salida == b.salida && a.jackpots == b.jackpots
  }

  /** A row with the given carry-in and its derived columns recomputed from
      its own counters. The contract fixes every column of the result. */
  function Recompute(l: Lectura, netoInicial: Amount, den: Amount): (r: Lectura)
    ensures r.netoInicial == netoInicial && Derived(r, den)
    ensures SameIdentity(l, r) && SameCounters(l, r)
  {
    var netoFinal := RawNeto(l);
    var creditos := netoFinal - netoInicial;
    l.(netoInicial := netoInicial, netoFinal := netoFinal, totalCreditos := creditos, totalRecaudo := creditos * den)
  }

  /** Reading `k` belongs to machine `m` and is dated after day `d`. */
  predicate IsLater(rs: map<nat, Lectura>, m: nat, d: int, k: nat) {
    k in rs && rs[k].maquinaId == m && rs[k].fecha > d
  }

  ghost predicate Distinct(ids: seq<nat>) {
    forall i, j :: 0 <= i < j < |ids| ==> ids[i] != ids[j]
  }

  ghost predicate SortedByDate(rs: map<nat, Lectura>, ids: seq<nat>) {
    && (forall i :: 0 <= i < |ids| ==> ids[i] in rs)
    && (forall i, j :: 0 <= i < j < |ids| ==> rs[ids[i]].fecha <= rs[ids[j]].fecha)
  }

  /** Inserts `k` into a list kept in date order. */
  function InsertByDate(rs: map<nat, Lectura>, s: seq<nat>, k: nat): (r: seq<nat>)
    requires k in rs
    requires forall i :: 0 <= i < |s| ==> s[i] in rs
    ensures |r| == |s| + 1
    ensures forall x :: x in r <==> x in s || x == k
    ensures forall i :: 0 <= i < |r| ==> r[i] in rs
    decreases |s|
  {
    if s == [] then [k]
    else if rs[k].fecha < rs[s[0]].fecha then [k] + s
    else [s[0]] + InsertByDate(rs, s[1..], k)
  }

  /** Insertion keeps a list duplicate-free and in date order. */
  lemma {:induction false} InsertByDateKeepsOrder(rs: map<nat, Lectura>, s: seq<nat>, k: nat)
    requires k in rs && k !in s
    requires Distinct(s) && SortedByDate(rs, s)
    ensures Distinct(InsertByDate(rs, s, k)) && SortedByDate(rs, InsertByDate(rs, s, k))
    decreases |s|
  {
    var r := InsertByDate(rs, s, k);
    if s == [] {
    } else if rs[k].fecha < rs[s[0]].fecha {
      assert r == [k] + s;
      forall i, j | 0 <= i < j < |r| ensures r[i] != r[j] && rs[r[i]].fecha <= rs[r[j]].fecha {
        if i == 0 { assert r[j] == s[j - 1]; assert s[j - 1] in s; } else { assert r[i] == s[i - 1] && r[j] == s[j - 1]; }
      }
    } else {
      var tail := s[1..];
      assert forall i :: 0 <= i < |tail| ==> tail[i] == s[i + 1];
      assert s[0] !in tail by {
        forall j | 0 <= j < |tail| ensures tail[j] != s[0] { assert tail[j] == s[j + 1]; }
      }
      InsertByDateKeepsOrder(rs, tail, k);
      var t := InsertByDate(rs, tail, k);
      assert r == [s[0]] + t;
      forall x | x in t ensures x != s[0] && rs[s[0]].fecha <= rs[x].fecha {
        if x != k {
          assert x in tail;
          var j :| 0 <= j < |tail| && tail[j] == x;
          assert s[j + 1] == x;
        }
      }
      forall i, j | 0 <= i < j < |r| ensures r[i] != r[j] && rs[r[i]].fecha <= rs[r[j]].fecha {
        if i == 0 { assert r[j] == t[j - 1]; assert t[j - 1] in t; } else { assert r[i] == t[i - 1] && r[j] == t[j - 1]; }
      }
    }
  }

  /** The query of the cascade: the ids below `n` of every reading of machine
      `m` dated after day `d`, in any branch, in ascending date order. */
  function LaterByDate(rs: map<nat, Lectura>, m: nat, d: int, n: nat): (ids: seq<nat>)
    ensures forall k: nat :: k in ids <==> k < n && IsLater(rs, m, d, k)
    ensures Distinct(ids)
    ensures SortedByDate(rs, ids)
    decreases n
  {
    if n == 0 then []
    else
      var s := LaterByDate(rs, m, d, n - 1);
      if IsLater(rs, m, d, n - 1) then
        InsertByDateKeepsOrder(rs, s, n - 1);
        InsertByDate(rs, s, n - 1)
      else s
  }

  /** Under the unique (maquina_id, fecha) index the order is strict, so the
      list is the only date-ordered enumeration of the later readings. */
  lemma LaterByDateStrict(rs: map<nat, Lectura>, m: nat, d: int, n: nat)
    requires UniqueMaquinaFecha(rs)
    ensures var ids := LaterByDate(rs, m, d, n);
      forall i, j :: 0 <= i < j < |ids| ==> rs[ids[i]].fecha < rs[ids[j]].fecha
  {
    var ids := LaterByDate(rs, m, d, n);
    forall i, j | 0 <= i < j < |ids| ensures rs[ids[i]].fecha < rs[ids[j]].fecha {
      assert ids[i] in ids && ids[j] in ids;
      assert rs[ids[i]].maquinaId == m == rs[ids[j]].maquinaId;
    }
  }

  /** The foreach of the cascade: each row in turn gets the previous row's
      neto_final as its carry-in and has its derived columns recomputed. */
  function Cascade(rs: map<nat, Lectura>, ids: seq<nat>, prev: Amount, den: Amount): (out: map<nat, Lectura>)
    requires forall i :: 0 <= i < |ids| ==> ids[i] in rs
    ensures out.Keys == rs.Keys
    ensures forall k :: k in rs ==> SameIdentity(rs[k], out[k]) && SameCounters(rs[k], out[k])
    ensures forall k :: k in rs && k !in ids ==> out[k] == rs[k]
    decreases |ids|
  {
    if ids == [] then rs
    else
      var r := Recompute(rs[ids[0]], prev, den);
      Cascade(rs[ids[0] := r], ids[1..], r.netoFinal, den)
  }

  /** The value of `$prevNeto` when the foreach ends. */
  function CascadeLast(rs: map<nat, Lectura>, ids: seq<nat>, prev: Amount, den: Amount): Amount
    requires forall i :: 0 <= i < |ids| ==> ids[i] in rs
    decreases |ids|
  {
    if ids == [] then prev
    else
      var r := Recompute(rs[ids[0]], prev, den);
      CascadeLast(rs[ids[0] := r], ids[1..], r.netoFinal, den)
  }

  /** Every row of the walk is its old row recomputed with the previous row's
      (new) neto_final as carry-in; the first takes `prev`. */
  lemma {:induction false} CascadeAt(rs: map<nat, Lectura>, ids: seq<nat>, prev: Amount, den: Amount)
    requires forall i :: 0 <= i < |ids| ==> ids[i] in rs
    requires Distinct(ids)
    ensures var out := Cascade(rs, ids, prev, den);
      forall i :: 0 <= i < |ids| ==>
        out[ids[i]] == Recompute(rs[ids[i]], if i == 0 then prev else RawNeto(rs[ids[i - 1]]), den)
    decreases |ids|
  {
    if ids != [] {
      var r := Recompute(rs[ids[0]], prev, den);
      var rs' := rs[ids[0] := r];
      var tail := ids[1..];
      assert forall i :: 0 <= i < |tail| ==> tail[i] == ids[i + 1];
      assert Distinct(tail);
      CascadeAt(rs', tail, r.netoFinal, den);
      var out := Cascade(rs, ids, prev, den);
      assert out == Cascade(rs', tail, r.netoFinal, den);
      forall i | 0 <= i < |ids|
        ensures out[ids[i]] == Recompute(rs[ids[i]], if i == 0 then prev else RawNeto(rs[ids[i - 1]]), den)
      {
        if i == 0 {
          assert ids[0] !in tail by {
            forall j | 0 <= j < |tail| ensures tail[j] != ids[0] { assert tail[j] == ids[j + 1]; }
          }
        } else {
          assert tail[i - 1] == ids[i];
          assert rs'[ids[i]] == rs[ids[i]];
          if i > 1 {
            assert tail[i - 2] == ids[i - 1];
            assert rs'[ids[i - 1]] == rs[ids[i - 1]];
          }
        }
      }
    }
  }

  /** `$prevNeto` ends as the neto_final of the last row walked, or `prev`
      when there is none. */
  lemma {:induction false} CascadeLastIsLastRow(rs: map<nat, Lectura>, ids: seq<nat>, prev: Amount, den: Amount)
    requires forall i :: 0 <= i < |ids| ==> ids[i] in rs
    requires Distinct(ids)
    ensures CascadeLast(rs, ids, prev, den) ==
      if ids == [] then prev else Cascade(rs, ids, prev, den)[ids[|ids| - 1]].netoFinal
    decreases |ids|
  {
    if ids != [] {
      var r := Recompute(rs[ids[0]], prev, den);
      var rs' := rs[ids[0] := r];
      var tail := ids[1..];
      assert forall i :: 0 <= i < |tail| ==> tail[i] == ids[i + 1];
      assert Distinct(tail);
      CascadeLastIsLastRow(rs', tail, r.netoFinal, den);
      if tail == [] {
        assert Cascade(rs', tail, r.netoFinal, den) == rs';
      } else {
        assert tail[|tail| - 1] == ids[|ids| - 1];
      }
    }
  }

  /** The premises shared by the three lemmas about one edit: row `id` of a
      table whose keys are below `n` is replaced by `edited`, which keeps its
      machine and date. */
  ghost predicate EditPremise(rs: map<nat, Lectura>, n: nat, id: nat, edited: Lectura) {
    KeysBelow(rs, n) && UniqueMaquinaFecha(rs) && id in rs && SameIdentity(rs[id], edited)
  }

  /** The rows an edit walks: exactly the readings of the machine dated after
      the edited row, in any branch, strictly in date order. */
  lemma EditWalksLater(rs: map<nat, Lectura>, n: nat, id: nat, edited: Lectura)
    requires EditPremise(rs, n, id, edited)
    ensures
      var m, d := edited.maquinaId, edited.fecha;
      var rs1 := rs[id := edited];
      var ids := LaterByDate(rs1, m, d, n);
      && (forall k: nat :: k in ids <==> IsLater(rs, m, d, k))
      && (forall i, j :: 0 <= i < j < |ids| ==> rs[ids[i]].fecha < rs[ids[j]].fecha)
  {
    var m, d := edited.maquinaId, edited.fecha;
    var rs1 := rs[id := edited];
    assert UniqueMaquinaFecha(rs1);
    var ids := LaterByDate(rs1, m, d, n);
    assert !IsLater(rs1, m, d, id);
    assert forall k: nat :: k != id ==> (IsLater(rs1, m, d, k) <==> IsLater(rs, m, d, k));
    LaterByDateStrict(rs1, m, d, n);
    forall i, j | 0 <= i < j < |ids| ensures rs[ids[i]].fecha < rs[ids[j]].fecha {
      assert ids[i] in ids && ids[j] in ids;
    }
  }

  /** An edit keeps the table's keys, stores the edited row as given and
      leaves every row that is neither the edited one nor a later reading of
      its machine untouched. */
  lemma EditFrame(rs: map<nat, Lectura>, n: nat, id: nat, edited: Lectura, den: Amount)
    requires EditPremise(rs, n, id, edited)
    ensures
      var out := Edit(rs, n, id, edited, den);
      && out.Keys == rs.Keys
      && out[id] == edited
      && (forall k :: k in rs && k != id && !IsLater(rs, edited.maquinaId, edited.fecha, k) ==> out[k] == rs[k])
  {
    var m, d := edited.maquinaId, edited.fecha;
    var rs1 := rs[id := edited];
    var ids := LaterByDate(rs1, m, d, n);
    assert !IsLater(rs1, m, d, id);
    assert forall k: nat :: k != id ==> (IsLater(rs1, m, d, k) <==> IsLater(rs, m, d, k));
  }

  /** Along the walk the chain invariant holds: the first later row's
      neto_inicial is the edited row's neto_final and every other's is the
      previous row's neto_final; each walked row keeps its counters and
      satisfies the derivation law. */
  lemma EditCascadeChain(rs: map<nat, Lectura>, n: nat, id: nat, edited: Lectura, den: Amount)
    requires EditPremise(rs, n, id, edited)
    ensures
      var rs1 := rs[id := edited];
      var ids := LaterByDate(rs1, edited.maquinaId, edited.fecha, n);
      var out := Edit(rs, n, id, edited, den);
      && (forall i :: 0 <= i < |ids| ==>
            out[ids[i]].netoInicial == if i == 0 then edited.netoFinal else out[ids[i - 1]].netoFinal)
      && (forall i :: 0 <= i < |ids| ==>
            SameIdentity(rs1[ids[i]], out[ids[i]]) && SameCounters(rs1[ids[i]], out[ids[i]]) && Derived(out[ids[i]], den))
  {
    var rs1 := rs[id := edited];
    var ids := LaterByDate(rs1, edited.maquinaId, edited.fecha, n);
    var out := Cascade(rs1, ids, edited.netoFinal, den);
    CascadeAt(rs1, ids, edited.netoFinal, den);
    forall i | 0 <= i < |ids|
      ensures out[ids[i]].netoInicial == if i == 0 then edited.netoFinal else out[ids[i - 1]].netoFinal
      ensures Derived(out[ids[i]], den)
    {
      var q := if i == 0 then edited.netoFinal else RawNeto(rs1[ids[i - 1]]);
      assert out[ids[i]] == Recompute(rs1[ids[i]], q, den);
      if i > 0 {
        var p := if i - 1 == 0 then edited.netoFinal else RawNeto(rs1[ids[i - 2]]);
        assert out[ids[i - 1]] == Recompute(rs1[ids[i - 1]], p, den);
      }
    }
  }

  /** After the walk `$prevNeto`, which the edit writes to the machine's
      ultimo_neto_final, is the neto_final of the latest-dated later row, or the
      edited row's when no later row exists. */
  lemma EditCascadeLast(rs: map<nat, Lectura>, n: nat, id: nat, edited: Lectura, den: Amount)
    requires EditPremise(rs, n, id, edited)
    ensures
      var m, d := edited.maquinaId, edited.fecha;
      var rs1 := rs[id := edited];
      var ids := LaterByDate(rs1, m, d, n);
      var out := Edit(rs, n, id, edited, den);
      && EditLast(rs, n, id, edited, den) ==
           (if ids == [] then edited.netoFinal else out[ids[|ids| - 1]].netoFinal)
      && (ids != [] ==> forall k :: IsLater(rs, m, d, k) ==> rs[k].fecha <= out[ids[|ids| - 1]].fecha)
  {
    var m, d := edited.maquinaId, edited.fecha;
    var rs1 := rs[id := edited];
    var ids := LaterByDate(rs1, m, d, n);
    CascadeLastIsLastRow(rs1, ids, edited.netoFinal, den);
    if ids != [] {
      var last := ids[|ids| - 1];
      forall k | IsLater(rs, m, d, k) ensures rs[k].fecha <= rs1[last].fecha {
        assert k != id;
        assert IsLater(rs1, m, d, k);
        var i :| 0 <= i < |ids| && ids[i] == k;
        if i < |ids| - 1 {
          assert rs1[ids[i]].fecha <= rs1[ids[|ids| - 1]].fecha;
        }
      }
    }
  }

  /** Rewriting rows without touching their identity columns keeps the
      reading invariants and the foreign keys. */
  lemma IdentityKeepsInvariants(rs: map<nat, Lectura>, rs': map<nat, Lectura>, ms: map<nat, Maquina>, cierres: nat)
    requires rs'.Keys == rs.Keys
    requires forall k :: k in rs ==> SameIdentity(rs[k], rs'[k])
    requires UniqueMaquinaFecha(rs) && OnePendingPerPair(rs) && LecturasLinked(rs, ms, cierres)
    ensures UniqueMaquinaFecha(rs') && OnePendingPerPair(rs') && LecturasLinked(rs', ms, cierres)
  {
  }

  /** The table after an edit of row `id` and its cascade. */
  function Edit(rs: map<nat, Lectura>, n: nat, id: nat, edited: Lectura, den: Amount): map<nat, Lectura>
    requires id in rs
  {
    var rs1 := rs[id := edited];
    Cascade(rs1, LaterByDate(rs1, edited.maquinaId, edited.fecha, n), edited.netoFinal, den)
  }

  /** The machine's new ultimo_neto_final after that edit. */
  function EditLast(rs: map<nat, Lectura>, n: nat, id: nat, edited: Lectura, den: Amount): Amount
    requires id in rs
  {
    var rs1 := rs[id := edited];
    CascadeLast(rs1, LaterByDate(rs1, edited.maquinaId, edited.fecha, n), edited.netoFinal, den)
  }

  /** Rewriting a machine without touching its ndi keeps every table
      invariant. */
  lemma MachineEditKeepsValid(ms: map<nat, Maquina>, rs: map<nat, Lectura>, gs: map<nat, Gasto>, nc: nat,
                              nm: nat, nl: nat, ng: nat, m: nat, mq: Maquina)
    requires TablesValid(ms, rs, gs, nc, nm, nl, ng)
    requires m in ms && mq.ndi == ms[m].ndi
    ensures TablesValid(ms[m := mq], rs, gs, nc, nm, nl, ng)
  {
  }

  /** An edit with its cascade keeps every table invariant. */
  lemma EditKeepsValid(ms: map<nat, Maquina>, rs: map<nat, Lectura>, gs: map<nat, Gasto>, nc: nat,
                       nm: nat, nl: nat, ng: nat, id: nat, edited: Lectura, den: Amount)
    requires TablesValid(ms, rs, gs, nc, nm, nl, ng)
    requires id in rs && SameIdentity(rs[id], edited)
    ensures TablesValid(ms, Edit(rs, nl, id, edited, den), gs, nc, nm, nl, ng)
  {
    var rs1 := rs[id := edited];
    var out := Edit(rs, nl, id, edited, den);
    assert forall k :: k in rs ==> SameIdentity(rs[k], rs1[k]);
    assert forall k :: k in rs ==> SameIdentity(rs[k], out[k]);
    IdentityKeepsInvariants(rs, out, ms, nc);
  }
}
