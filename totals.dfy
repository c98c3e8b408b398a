/** The row selections, column aggregates and closing stamps that the two
    closing implementations and the batch confirmation are built from. */
module Totals {
  import opened Domain
  import opened Schema

  /** The `where` clauses used on lecturas_maquinas. A null branch id
      (`where sucursal_id = null`) matches no row. */
  datatype LecturaFilter =
    | PendingIn(sucursal: Option<nat>)   // sucursal_id = s, confirmado = 0
    | OpenIn(sucursal: Option<nat>)      // sucursal_id = s, cierre_id is null
    | InCierre(cierre: nat)              // cierre_id = c

  predicate MatchesLectura(f: LecturaFilter, l: Lectura) {
    match f
    case PendingIn(s) => s == Some(l.sucursalId) && !l.confirmado
    case OpenIn(s) => s == Some(l.sucursalId) && l.cierreId.None?
    case InCierre(c) => l.cierreId == Some(c)
  }

  /** The `where` clauses used on gastos. */
  datatype GastoFilter =
    | GastoOpenIn(sucursal: Option<nat>) // sucursal_id = s, cierre_id is null
    | Unclosed                           // cierre_id is null
    | GastoInCierre(cierre: nat)         // cierre_id = c

  predicate MatchesGasto(f: GastoFilter, g: Gasto) {
    match f
    case GastoOpenIn(s) => s == Some(g.sucursalId) && g.cierreId.None?
    case Unclosed => g.cierreId.None?
    case GastoInCierre(c) => g.cierreId == Some(c)
  }

  /** A query `get()` on lecturas_maquinas: the ids below `n` of the matching
      rows, in ascending id order. */
  function LecturaIds(rs: map<nat, Lectura>, f: LecturaFilter, n: nat): (ids: seq<nat>)
    ensures forall k: nat :: k in ids <==> k < n && k in rs && MatchesLectura(f, rs[k])
    ensures forall i, j :: 0 <= i < j < |ids| ==> ids[i] < ids[j]
    decreases n
  {
    if n == 0 then []
    else
      var s := LecturaIds(rs, f, n - 1);
      if n - 1 in rs && MatchesLectura(f, rs[n - 1]) then
        assert forall i :: 0 <= i < |s| ==> s[i] in s;
        s + [n - 1]
      else s
  }

  /** A query `get()` on gastos. */
  function GastoIds(gs: map<nat, Gasto>, f: GastoFilter, n: nat): (ids: seq<nat>)
    ensures forall k: nat :: k in ids <==> k < n && k in gs && MatchesGasto(f, gs[k])
    ensures forall i, j :: 0 <= i < j < |ids| ==> ids[i] < ids[j]
    decreases n
  {
    if n == 0 then []
    else
      var s := GastoIds(gs, f, n - 1);
      if n - 1 in gs && MatchesGasto(f, gs[n - 1]) then
        assert forall i :: 0 <= i < |s| ==> s[i] in s;
        s + [n - 1]
      else s
  }

  /** A query is empty exactly when no row matches. */
  lemma LecturaIdsEmpty(rs: map<nat, Lectura>, f: LecturaFilter, n: nat)
    requires KeysBelow(rs, n)
    ensures LecturaIds(rs, f, n) == [] <==> !exists k :: k in rs && MatchesLectura(f, rs[k])
  {
    var ids := LecturaIds(rs, f, n);
    if ids != [] {
      assert ids[0] in ids;
    }
  }

  lemma GastoIdsEmpty(gs: map<nat, Gasto>, f: GastoFilter, n: nat)
    requires KeysBelow(gs, n)
    ensures GastoIds(gs, f, n) == [] <==> !exists k :: k in gs && MatchesGasto(f, gs[k])
  {
    var ids := GastoIds(gs, f, n);
    if ids != [] {
      assert ids[0] in ids;
    }
  }

  /** A `where('sucursal_id', null)` filter selects no row. */
  lemma NullBranchSelectsNothing(rs: map<nat, Lectura>, gs: map<nat, Gasto>, nl: nat, ng: nat)
    ensures LecturaIds(rs, OpenIn(None), nl) == [] && GastoIds(gs, GastoOpenIn(None), ng) == []
  {
  }

  /** Collection `pluck` of a column over the selected rows. */
  function Recaudos(rs: map<nat, Lectura>, ids: seq<nat>): seq<Amount>
    requires forall i :: 0 <= i < |ids| ==> ids[i] in rs
  {
    seq(|ids|, i requires 0 <= i < |ids| => rs[ids[i]].totalRecaudo)
  }

  function LecturaCreated(rs: map<nat, Lectura>, ids: seq<nat>): seq<int>
    requires forall i :: 0 <= i < |ids| ==> ids[i] in rs
  {
    seq(|ids|, i requires 0 <= i < |ids| => rs[ids[i]].createdAt)
  }

  function LecturaFechas(rs: map<nat, Lectura>, ids: seq<nat>): seq<int>
    requires forall i :: 0 <= i < |ids| ==> ids[i] in rs
  {
    seq(|ids|, i requires 0 <= i < |ids| => rs[ids[i]].fecha)
  }

  function Valores(gs: map<nat, Gasto>, ids: seq<nat>): seq<Amount>
    requires forall i :: 0 <= i < |ids| ==> ids[i] in gs
  {
    seq(|ids|, i requires 0 <= i < |ids| => gs[ids[i]].valor)
  }

  function GastoCreated(gs: map<nat, Gasto>, ids: seq<nat>): seq<int>
    requires forall i :: 0 <= i < |ids| ==> ids[i] in gs
  {
    seq(|ids|, i requires 0 <= i < |ids| => gs[ids[i]].createdAt)
  }

  function GastoFechas(gs: map<nat, Gasto>, ids: seq<nat>): seq<int>
    requires forall i :: 0 <= i < |ids| ==> ids[i] in gs
  {
    seq(|ids|, i requires 0 <= i < |ids| => gs[ids[i]].fecha)
  }

  /** Collection `sum`. */
  function Sum(xs: seq<Amount>): Amount {
    if xs == [] then 0.0 else xs[0] + Sum(xs[1..])
  }

  /** Collection `min` of a column: null on an empty collection. */
  function MinOf(xs: seq<int>): (r: Option<int>)
    ensures r.None? <==> xs == []
    ensures r.Some? ==> r.value in xs && forall i :: 0 <= i < |xs| ==> r.value <= xs[i]
  {
    if xs == [] then None
    else
      var t := MinOf(xs[1..]);
      assert forall i :: 1 <= i < |xs| ==> xs[i] == xs[1..][i - 1];
      if t.None? || xs[0] <= t.value then Some(xs[0]) else t
  }

  /** Collection `max` of a column: null on an empty collection. */
  function MaxOf(xs: seq<int>): (r: Option<int>)
    ensures r.None? <==> xs == []
    ensures r.Some? ==> r.value in xs && forall i :: 0 <= i < |xs| ==> xs[i] <= r.value
  {
    if xs == [] then None
    else
      var t := MaxOf(xs[1..]);
      assert forall i :: 1 <= i < |xs| ==> xs[i] == xs[1..][i - 1];
      if t.None? || xs[0] >= t.value then Some(xs[0]) else t
  }

  /** `collect([a, b])->filter()->min()`: the smaller of the non-null values. */
  function MinPresent(a: Option<int>, b: Option<int>): (r: Option<int>)
    ensures r.None? <==> a.None? && b.None?
    ensures r == a || r == b
    ensures r.Some? ==> (a.Some? ==> r.value <= a.value) && (b.Some? ==> r.value <= b.value)
  {
    if a.None? then b
    else if b.None? then a
    else if a.value <= b.value then a else b
  }

  /** `collect([a, b])->filter()->max()`: the larger of the non-null values. */
  function MaxPresent(a: Option<int>, b: Option<int>): (r: Option<int>)
    ensures r.None? <==> a.None? && b.None?
    ensures r == a || r == b
    ensures r.Some? ==> (a.Some? ==> a.value <= r.value) && (b.Some? ==> b.value <= r.value)
  {
    if a.None? then b
    else if b.None? then a
    else if a.value >= b.value then a else b
  }

  /** The date window of a closing by business date is never inverted. */
  lemma WindowOrdered(lfechas: seq<int>, gfechas: seq<int>)
    requires lfechas != [] || gfechas != []
    ensures MinPresent(MinOf(lfechas), MinOf(gfechas)).Some?
    ensures MaxPresent(MaxOf(lfechas), MaxOf(gfechas)).Some?
    ensures MinPresent(MinOf(lfechas), MinOf(gfechas)).value <= MaxPresent(MaxOf(lfechas), MaxOf(gfechas)).value
  {
    var lo := MinPresent(MinOf(lfechas), MinOf(gfechas));
    if lo == MinOf(lfechas) {
      assert MinOf(lfechas).value <= lfechas[0] <= MaxOf(lfechas).value;
    } else {
      assert MinOf(gfechas).value <= gfechas[0] <= MaxOf(gfechas).value;
    }
  }

  /** `whereIn('id', ids)->update(['cierre_id' => c])` on lecturas_maquinas. */
  function StampLecturas(rs: map<nat, Lectura>, ids: seq<nat>, c: nat): map<nat, Lectura> {
    map k | k in rs :: if k in ids then rs[k].(cierreId := Some(c)) else rs[k]
  }

  /** `where('sucursal_id', s)->whereNull('cierre_id')->update(['cierre_id' => c])`. */
  function StampOpenLecturas(rs: map<nat, Lectura>, s: Option<nat>, c: nat): map<nat, Lectura> {
    map k | k in rs :: if MatchesLectura(OpenIn(s), rs[k]) then rs[k].(cierreId := Some(c)) else rs[k]
  }

  function StampGastos(gs: map<nat, Gasto>, ids: seq<nat>, c: nat): map<nat, Gasto> {
    map k | k in gs :: if k in ids then gs[k].(cierreId := Some(c)) else gs[k]
  }

  function StampOpenGastos(gs: map<nat, Gasto>, s: Option<nat>, c: nat): map<nat, Gasto> {
    map k | k in gs :: if MatchesGasto(GastoOpenIn(s), gs[k]) then gs[k].(cierreId := Some(c)) else gs[k]
  }

  /** Updating the selected ids and updating by predicate stamp the same rows:
      the set that is summed is the set that is stamped. */
  lemma StampByIdsIsStampByPredicate(rs: map<nat, Lectura>, gs: map<nat, Gasto>, s: Option<nat>, c: nat, nl: nat, ng: nat)
    requires KeysBelow(rs, nl) && KeysBelow(gs, ng)
    ensures StampLecturas(rs, LecturaIds(rs, OpenIn(s), nl), c) == StampOpenLecturas(rs, s, c)
    ensures StampGastos(gs, GastoIds(gs, GastoOpenIn(s), ng), c) == StampOpenGastos(gs, s, c)
  {
  }

  /** No row carries closing `c` yet. */
  ghost predicate Unused(rs: map<nat, Lectura>, gs: map<nat, Gasto>, c: nat) {
    (forall k :: k in rs ==> rs[k].cierreId != Some(c)) && (forall k :: k in gs ==> gs[k].cierreId != Some(c))
  }

  /** After stamping a fresh closing id on the branch's open rows, the rows
      carrying that id are exactly the rows that were open. */
  lemma {:induction false} StampedAreTheOpen(rs: map<nat, Lectura>, s: Option<nat>, c: nat, n: nat)
    requires forall k :: k in rs ==> rs[k].cierreId != Some(c)
    ensures LecturaIds(StampOpenLecturas(rs, s, c), InCierre(c), n) == LecturaIds(rs, OpenIn(s), n)
    decreases n
  {
    if n > 0 {
      StampedAreTheOpen(rs, s, c, n - 1);
    }
  }

  lemma {:induction false} StampedGastosAreTheOpen(gs: map<nat, Gasto>, s: Option<nat>, c: nat, n: nat)
    requires forall k :: k in gs ==> gs[k].cierreId != Some(c)
    ensures GastoIds(StampOpenGastos(gs, s, c), GastoInCierre(c), n) == GastoIds(gs, GastoOpenIn(s), n)
    decreases n
  {
    if n > 0 {
      StampedGastosAreTheOpen(gs, s, c, n - 1);
    }
  }

  /** Reconciliation: the totals summed over the open rows equal the totals
      of the rows that carry the new closing id afterwards. */
  lemma ClosingReconciles(rs: map<nat, Lectura>, gs: map<nat, Gasto>, s: Option<nat>, c: nat, nl: nat, ng: nat)
    requires Unused(rs, gs, c)
    ensures
      var rs' := StampOpenLecturas(rs, s, c);
      var gs' := StampOpenGastos(gs, s, c);
      && Sum(Recaudos(rs', LecturaIds(rs', InCierre(c), nl))) == Sum(Recaudos(rs, LecturaIds(rs, OpenIn(s), nl)))
      && Sum(Valores(gs', GastoIds(gs', GastoInCierre(c), ng))) == Sum(Valores(gs, GastoIds(gs, GastoOpenIn(s), ng)))
  {
    var rs' := StampOpenLecturas(rs, s, c);
    var gs' := StampOpenGastos(gs, s, c);
    StampedAreTheOpen(rs, s, c, nl);
    StampedGastosAreTheOpen(gs, s, c, ng);
    var lids := LecturaIds(rs, OpenIn(s), nl);
    var gids := GastoIds(gs, GastoOpenIn(s), ng);
    assert Recaudos(rs', lids) == Recaudos(rs, lids);
    assert Valores(gs', gids) == Valores(gs, gids);
  }

  /** At most once: after a closing no open row of the branch is left, and a
      row that already carried a closing keeps it. */
  lemma ClosingAbsorbsOnce(rs: map<nat, Lectura>, gs: map<nat, Gasto>, s: Option<nat>, c: nat, nl: nat, ng: nat)
    ensures LecturaIds(StampOpenLecturas(rs, s, c), OpenIn(s), nl) == []
    ensures GastoIds(StampOpenGastos(gs, s, c), GastoOpenIn(s), ng) == []
    ensures forall k :: k in rs && rs[k].cierreId.Some? ==> StampOpenLecturas(rs, s, c)[k] == rs[k]
    ensures forall k :: k in gs && gs[k].cierreId.Some? ==> StampOpenGastos(gs, s, c)[k] == gs[k]
  {
  }

  /** A closing of branch `s` changes no row of another branch and no row
      already closed; an absorbed row changes only in its cierre_id. */
  lemma StampTouchesOnlyOpen(rs: map<nat, Lectura>, gs: map<nat, Gasto>, s: Option<nat>, c: nat)
    ensures StampOpenLecturas(rs, s, c).Keys == rs.Keys && StampOpenGastos(gs, s, c).Keys == gs.Keys
    ensures forall k :: k in rs && (s != Some(rs[k].sucursalId) || rs[k].cierreId.Some?) ==> StampOpenLecturas(rs, s, c)[k] == rs[k]
    ensures forall k :: k in gs && (s != Some(gs[k].sucursalId) || gs[k].cierreId.Some?) ==> StampOpenGastos(gs, s, c)[k] == gs[k]
    ensures forall k :: k in rs && s == Some(rs[k].sucursalId) && rs[k].cierreId.None? ==> StampOpenLecturas(rs, s, c)[k] == rs[k].(cierreId := Some(c))
    ensures forall k :: k in gs && s == Some(gs[k].sucursalId) && gs[k].cierreId.None? ==> StampOpenGastos(gs, s, c)[k] == gs[k].(cierreId := Some(c))
  {
  }

  /** The columns the batch confirmation writes on one reading. */
  function Confirmed(l: Lectura, now: int): Lectura {
    l.(confirmado := true, fechaConfirmacion := Some(now))
  }

  /** The effect of confirming the branch's pending readings at `now`. */
  function ConfirmPending(rs: map<nat, Lectura>, s: Option<nat>, now: int): map<nat, Lectura> {
    map k | k in rs :: if MatchesLectura(PendingIn(s), rs[k]) then Confirmed(rs[k], now) else rs[k]
  }

  /** After a confirmation no reading of the branch is pending, so a second
      confirmation of the same branch finds nothing to do. */
  lemma ConfirmLeavesNothingPending(rs: map<nat, Lectura>, s: Option<nat>, now: int, n: nat)
    ensures LecturaIds(ConfirmPending(rs, s, now), PendingIn(s), n) == []
  {
  }

  /** Confirmation changes only the branch's pending rows, and of them only
      the two confirmation columns; every other column, and every reading of
      another branch or already confirmed, is left as it was. */
  lemma ConfirmTouchesOnlyPending(rs: map<nat, Lectura>, s: Option<nat>, now: int)
    ensures ConfirmPending(rs, s, now).Keys == rs.Keys
    ensures forall k :: k in rs && !MatchesLectura(PendingIn(s), rs[k]) ==> ConfirmPending(rs, s, now)[k] == rs[k]
    ensures forall k :: k in rs && MatchesLectura(PendingIn(s), rs[k]) ==>
      var c := ConfirmPending(rs, s, now)[k];
      c.confirmado && c.fechaConfirmacion == Some(now) && c.(confirmado := false, fechaConfirmacion := rs[k].fechaConfirmacion) == rs[k]
  {
  }

  /** The window of a closing by creation instant starts no later than the
      creation of any row it absorbs. */
  lemma CreatedWindowCovers(rs: map<nat, Lectura>, gs: map<nat, Gasto>, s: Option<nat>, c: nat, nl: nat, ng: nat, now: int)
    requires Unused(rs, gs, c)
    ensures
      var lids := LecturaIds(rs, OpenIn(s), nl);
      var gids := GastoIds(gs, GastoOpenIn(s), ng);
      var inicio := MinPresent(MinOf(LecturaCreated(rs, lids)), MinOf(GastoCreated(gs, gids))).GetOr(now);
      var rs' := StampLecturas(rs, lids, c);
      var gs' := StampGastos(gs, gids, c);
      && (forall k :: k in rs' && rs'[k].cierreId == Some(c) ==> inicio <= rs'[k].createdAt)
      && (forall k :: k in gs' && gs'[k].cierreId == Some(c) ==> inicio <= gs'[k].createdAt)
  {
    var lids := LecturaIds(rs, OpenIn(s), nl);
    var gids := GastoIds(gs, GastoOpenIn(s), ng);
    var lc, gc := LecturaCreated(rs, lids), GastoCreated(gs, gids);
    var inicio := MinPresent(MinOf(lc), MinOf(gc)).GetOr(now);
    var rs' := StampLecturas(rs, lids, c);
    var gs' := StampGastos(gs, gids, c);
    forall k | k in rs' && rs'[k].cierreId == Some(c) ensures inicio <= rs'[k].createdAt {
      assert k in lids;
      var i :| 0 <= i < |lids| && lids[i] == k;
      assert lc[i] == rs[k].createdAt;
    }
    forall k | k in gs' && gs'[k].cierreId == Some(c) ensures inicio <= gs'[k].createdAt {
      assert k in gids;
      var i :| 0 <= i < |gids| && gids[i] == k;
      assert gc[i] == gs[k].createdAt;
    }
  }

  /** The window of a closing by business date spans the date of every row
      it absorbs. */
  lemma BusinessWindowCovers(rs: map<nat, Lectura>, gs: map<nat, Gasto>, s: Option<nat>, c: nat, nl: nat, ng: nat)
    requires Unused(rs, gs, c) && KeysBelow(rs, nl) && KeysBelow(gs, ng)
    requires LecturaIds(rs, OpenIn(s), nl) != [] || GastoIds(gs, GastoOpenIn(s), ng) != []
    ensures
      var lids := LecturaIds(rs, OpenIn(s), nl);
      var gids := GastoIds(gs, GastoOpenIn(s), ng);
      var lf, gf := LecturaFechas(rs, lids), GastoFechas(gs, gids);
      var lo, hi := MinPresent(MinOf(lf), MinOf(gf)), MaxPresent(MaxOf(lf), MaxOf(gf));
      var rs' := StampOpenLecturas(rs, s, c);
      var gs' := StampOpenGastos(gs, s, c);
      && lo.Some? && hi.Some?
      && (forall k :: k in rs' && rs'[k].cierreId == Some(c) ==> StartOfDay(lo.value) <= StartOfDay(rs'[k].fecha) <= StartOfDay(hi.value))
      && (forall k :: k in gs' && gs'[k].cierreId == Some(c) ==> StartOfDay(lo.value) <= StartOfDay(gs'[k].fecha) <= StartOfDay(hi.value))
  {
    var lids := LecturaIds(rs, OpenIn(s), nl);
    var gids := GastoIds(gs, GastoOpenIn(s), ng);
    var lf, gf := LecturaFechas(rs, lids), GastoFechas(gs, gids);
    WindowOrdered(lf, gf);
    var lo, hi := MinPresent(MinOf(lf), MinOf(gf)), MaxPresent(MaxOf(lf), MaxOf(gf));
    var rs' := StampOpenLecturas(rs, s, c);
    var gs' := StampOpenGastos(gs, s, c);
    forall k | k in rs' && rs'[k].cierreId == Some(c)
      ensures StartOfDay(lo.value) <= StartOfDay(rs'[k].fecha) <= StartOfDay(hi.value)
    {
      assert k in lids;
      var i :| 0 <= i < |lids| && lids[i] == k;
      assert lf[i] == rs[k].fecha;
      StartOfDayMonotone(lo.value, rs[k].fecha);
      StartOfDayMonotone(rs[k].fecha, hi.value);
    }
    forall k | k in gs' && gs'[k].cierreId == Some(c)
      ensures StartOfDay(lo.value) <= StartOfDay(gs'[k].fecha) <= StartOfDay(hi.value)
    {
      assert k in gids;
      var i :| 0 <= i < |gids| && gids[i] == k;
      assert gf[i] == gs[k].fecha;
      StartOfDayMonotone(lo.value, gs[k].fecha);
      StartOfDayMonotone(gs[k].fecha, hi.value);
    }
  }

  lemma StartOfDayMonotone(a: int, b: int)
    requires a <= b
    ensures StartOfDay(a) <= StartOfDay(b)
  {
  }

  /** The table once the foreach has confirmed the rows listed in `done`. */
  function ConfirmAll(rs: map<nat, Lectura>, done: seq<nat>, now: int): map<nat, Lectura> {
    map k | k in rs :: if k in done then Confirmed(rs[k], now) else rs[k]
  }

  lemma ConfirmAllNone(rs: map<nat, Lectura>, now: int)
    ensures ConfirmAll(rs, [], now) == rs
  {
  }

  /** One turn of the foreach confirms one more row. */
  lemma ConfirmAllStep(rs: map<nat, Lectura>, ids: seq<nat>, i: nat, now: int)
    requires i < |ids| && ids[i] in rs
    ensures ConfirmAll(rs, ids[..i + 1], now) == ConfirmAll(rs, ids[..i], now)[ids[i] := Confirmed(rs[ids[i]], now)]
  {
    assert ids[..i + 1] == ids[..i] + [ids[i]];
  }

  /** Walking the whole selection confirms exactly the pending rows. */
  lemma ConfirmAllIsConfirmPending(rs: map<nat, Lectura>, s: Option<nat>, now: int, n: nat)
    requires KeysBelow(rs, n)
    ensures ConfirmAll(rs, LecturaIds(rs, PendingIn(s), n), now) == ConfirmPending(rs, s, now)
  {
  }

  /** Confirmation keeps every table invariant. */
  lemma ConfirmKeepsValid(ms: map<nat, Maquina>, rs: map<nat, Lectura>, gs: map<nat, Gasto>, nc: nat,
                          nm: nat, nl: nat, ng: nat, s: Option<nat>, now: int)
    requires TablesValid(ms, rs, gs, nc, nm, nl, ng)
    ensures TablesValid(ms, ConfirmPending(rs, s, now), gs, nc, nm, nl, ng)
  {
    var rs' := ConfirmPending(rs, s, now);
    assert forall k :: k in rs ==>
      (rs'[k].maquinaId == rs[k].maquinaId && rs'[k].sucursalId == rs[k].sucursalId &&
       rs'[k].fecha == rs[k].fecha && rs'[k].cierreId == rs[k].cierreId && (!rs'[k].confirmado ==> !rs[k].confirmado));
  }

  /** A closing with the next closing id keeps every table invariant. */
  lemma StampKeepsValid(ms: map<nat, Maquina>, rs: map<nat, Lectura>, gs: map<nat, Gasto>, nc: nat,
                        nm: nat, nl: nat, ng: nat, s: Option<nat>)
    requires TablesValid(ms, rs, gs, nc, nm, nl, ng)
    ensures TablesValid(ms, StampOpenLecturas(rs, s, nc), StampOpenGastos(gs, s, nc), nc + 1, nm, nl, ng)
  {
    var rs' := StampOpenLecturas(rs, s, nc);
    var gs' := StampOpenGastos(gs, s, nc);
    assert forall k :: k in rs ==>
      (rs'[k].maquinaId == rs[k].maquinaId && rs'[k].sucursalId == rs[k].sucursalId &&
       rs'[k].fecha == rs[k].fecha && rs'[k].confirmado == rs[k].confirmado);
  }

  /** The closing row CierreService::cerrarSucursal inserts for branch `s`:
      totals over the open rows and a window from their earliest creation
      instant (or `now`, when there is none) to `now`. */
  function ServiceCierre(rs: map<nat, Lectura>, gs: map<nat, Gasto>, s: nat, userId: nat,
                         observaciones: Option<string>, now: int, nl: nat, ng: nat): CierreCaja
  {
    var lids := LecturaIds(rs, OpenIn(Some(s)), nl);
    var gids := GastoIds(gs, GastoOpenIn(Some(s)), ng);
    var inicio := MinPresent(MinOf(LecturaCreated(rs, lids)), MinOf(GastoCreated(gs, gids))).GetOr(now);
    var recaudado := Sum(Recaudos(rs, lids));
    var gastado := Sum(Valores(gs, gids));
    CierreCaja(s, userId, inicio, now, recaudado, gastado, recaudado - gastado, observaciones)
  }

  /** The closing row CierreCajaController@store inserts: the same totals and
      a window from the first to the last business date of the open rows. */
  function CajaCierre(rs: map<nat, Lectura>, gs: map<nat, Gasto>, s: nat, userId: nat, nl: nat, ng: nat): CierreCaja
    requires LecturaIds(rs, OpenIn(Some(s)), nl) != [] || GastoIds(gs, GastoOpenIn(Some(s)), ng) != []
  {
    var lids := LecturaIds(rs, OpenIn(Some(s)), nl);
    var gids := GastoIds(gs, GastoOpenIn(Some(s)), ng);
    var lf, gf := LecturaFechas(rs, lids), GastoFechas(gs, gids);
    WindowOrdered(lf, gf);
    var recaudado := Sum(Recaudos(rs, lids));
    var gastado := Sum(Valores(gs, gids));
    CierreCaja(s, userId, StartOfDay(MinPresent(MinOf(lf), MinOf(gf)).value), StartOfDay(MaxPresent(MaxOf(lf), MaxOf(gf)).value),
               recaudado, gastado, recaudado - gastado, None)
  }

  /** A closing of branch `s` under a fresh id `c` reconciles: its totals are
      the totals of the rows that carry `c` afterwards, its net is collected
      minus spent, its window starts no later than any absorbed row was
      created, and no open row of the branch is left. */
  lemma ServiceClosingMeaning(rs: map<nat, Lectura>, gs: map<nat, Gasto>, s: nat, userId: nat,
                              observaciones: Option<string>, now: int, c: nat, nl: nat, ng: nat)
    requires Unused(rs, gs, c) && KeysBelow(rs, nl) && KeysBelow(gs, ng)
    ensures
      var cc := ServiceCierre(rs, gs, s, userId, observaciones, now, nl, ng);
      var rs' := StampLecturas(rs, LecturaIds(rs, OpenIn(Some(s)), nl), c);
      var gs' := StampGastos(gs, GastoIds(gs, GastoOpenIn(Some(s)), ng), c);
      && cc.totalRecaudado == Sum(Recaudos(rs', LecturaIds(rs', InCierre(c), nl)))
      && cc.totalGastos == Sum(Valores(gs', GastoIds(gs', GastoInCierre(c), ng)))
      && cc.totalCierre == cc.totalRecaudado - cc.totalGastos
      && LecturaIds(rs', OpenIn(Some(s)), nl) == [] && GastoIds(gs', GastoOpenIn(Some(s)), ng) == []
      && (forall k :: k in rs' && rs'[k].cierreId == Some(c) ==> cc.fechaInicio <= rs'[k].createdAt)
      && (forall k :: k in gs' && gs'[k].cierreId == Some(c) ==> cc.fechaInicio <= gs'[k].createdAt)
  {
    StampByIdsIsStampByPredicate(rs, gs, Some(s), c, nl, ng);
    ClosingReconciles(rs, gs, Some(s), c, nl, ng);
    ClosingAbsorbsOnce(rs, gs, Some(s), c, nl, ng);
    CreatedWindowCovers(rs, gs, Some(s), c, nl, ng, now);
  }

  /** The same for the controller's closing, whose window by business date
      is never inverted and spans the date of every absorbed row. */
  lemma CajaClosingMeaning(rs: map<nat, Lectura>, gs: map<nat, Gasto>, s: nat, userId: nat, c: nat, nl: nat, ng: nat)
    requires Unused(rs, gs, c) && KeysBelow(rs, nl) && KeysBelow(gs, ng)
    requires LecturaIds(rs, OpenIn(Some(s)), nl) != [] || GastoIds(gs, GastoOpenIn(Some(s)), ng) != []
    ensures
      var cc := CajaCierre(rs, gs, s, userId, nl, ng);
      var rs' := StampOpenLecturas(rs, Some(s), c);
      var gs' := StampOpenGastos(gs, Some(s), c);
      && cc.totalRecaudado == Sum(Recaudos(rs', LecturaIds(rs', InCierre(c), nl)))
      && cc.totalGastos == Sum(Valores(gs', GastoIds(gs', GastoInCierre(c), ng)))
      && cc.totalCierre == cc.totalRecaudado - cc.totalGastos
      && cc.fechaInicio <= cc.fechaFin
      && LecturaIds(rs', OpenIn(Some(s)), nl) == [] && GastoIds(gs', GastoOpenIn(Some(s)), ng) == []
      && (forall k :: k in rs' && rs'[k].cierreId == Some(c) ==> cc.fechaInicio <= StartOfDay(rs'[k].fecha) <= cc.fechaFin)
      && (forall k :: k in gs' && gs'[k].cierreId == Some(c) ==> cc.fechaInicio <= StartOfDay(gs'[k].fecha) <= cc.fechaFin)
  {
    var lids := LecturaIds(rs, OpenIn(Some(s)), nl);
    var gids := GastoIds(gs, GastoOpenIn(Some(s)), ng);
    WindowOrdered(LecturaFechas(rs, lids), GastoFechas(gs, gids));
    StartOfDayMonotone(MinPresent(MinOf(LecturaFechas(rs, lids)), MinOf(GastoFechas(gs, gids))).value,
                       MaxPresent(MaxOf(LecturaFechas(rs, lids)), MaxOf(GastoFechas(gs, gids))).value);
    ClosingReconciles(rs, gs, Some(s), c, nl, ng);
    ClosingAbsorbsOnce(rs, gs, Some(s), c, nl, ng);
    BusinessWindowCovers(rs, gs, Some(s), c, nl, ng);
  }

  /** The service's closing, which stamps the selected ids, keeps every
      table invariant. */
  lemma ServiceStampKeepsValid(ms: map<nat, Maquina>, rs: map<nat, Lectura>, gs: map<nat, Gasto>, nc: nat,
                               nm: nat, nl: nat, ng: nat, s: nat)
    requires TablesValid(ms, rs, gs, nc, nm, nl, ng)
    ensures TablesValid(ms, StampLecturas(rs, LecturaIds(rs, OpenIn(Some(s)), nl), nc),
                        StampGastos(gs, GastoIds(gs, GastoOpenIn(Some(s)), ng), nc), nc + 1, nm, nl, ng)
  {
    StampByIdsIsStampByPredicate(rs, gs, Some(s), nc, nl, ng);
    StampKeepsValid(ms, rs, gs, nc, nm, nl, ng, Some(s));
  }
}
