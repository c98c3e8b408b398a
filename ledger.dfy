/** The controller actions and the closing service, as methods of one
    object holding the four tables they read and write. */
module Ledger {
  import opened Domain
  import opened Schema
  import opened Chain
  import opened Totals
  import GastoPolicy

  /** The validated request of a reading store. */
  datatype LecturaInput = LecturaInput(
    sucursalId: nat,
    maquinaId: nat,
    fecha: int,
    entrada: Amount,
    salida: Option<Amount>,
    jackpots: Option<Amount>,
    netoInicial: Amount,
    netoFinal: Amount,
    totalCreditos: Amount,
    totalRecaudo: Amount)

  /** The validated request of a reading update (all four are required). */
  datatype LecturaEdit = LecturaEdit(netoInicial: Amount, entrada: Amount, salida: Amount, jackpots: Amount)

  /** The request of an expense store. */
  datatype GastoInput = GastoInput(
    sucursalId: nat,
    tipoGastoId: nat,
    proveedorId: nat,
    valor: Amount,
    descripcion: Option<string>)

  /** The request of an expense update. */
  datatype GastoEdit = GastoEdit(
    tipoGastoId: nat,
    proveedorId: nat,
    fecha: int,
    valor: Amount,
    descripcion: Option<string>)

  /** The request of a machine store or update. */
  datatype MaquinaInput = MaquinaInput(
    nombre: string,
    ndi: string,
    denominacion: Amount,
    sucursalId: nat,
    ultimoNetoFinal: Option<Amount>)

  /** The row a reading store inserts. The three derived columns are stored
      as the client sent them; only the carry-in is overridden, for cashiers,
      by the machine's last neto_final. */
  function NewLectura(u: User, m: Maquina, d: LecturaInput, now: int): (l: Lectura)
    ensures l.sucursalId == d.sucursalId && l.maquinaId == d.maquinaId && l.fecha == d.fecha && l.userId == u.id
    ensures l.salida == d.salida.GetOr(0.0) && l.jackpots == d.jackpots.GetOr(0.0) && l.entrada == d.entrada
    ensures l.netoInicial == if Cajero in u.roles then m.ultimoNetoFinal else d.netoInicial
    ensures l.netoFinal == d.netoFinal && l.totalCreditos == d.totalCreditos && l.totalRecaudo == d.totalRecaudo
    ensures l.confirmado <==> MasterAdmin in u.roles
    ensures l.fechaConfirmacion.Some? <==> l.confirmado
    ensures l.fechaConfirmacion.Some? ==> l.fechaConfirmacion.value == now
    ensures l.cierreId.None? && l.createdAt == now
  {
    var confirmado := MasterAdmin in u.roles;
    Lectura(
      d.sucursalId, d.maquinaId, u.id, d.fecha,
      d.entrada, d.salida.GetOr(0.0), d.jackpots.GetOr(0.0),
      if Cajero in u.roles then m.ultimoNetoFinal else d.netoInicial,
      d.netoFinal, d.totalCreditos, d.totalRecaudo,
      confirmado, if confirmado then Some(now) else None, None, now)
  }

  /** The counters of an edit applied to the stored row, before the carry-in
      and the derived columns are recomputed. */
  function WithCounters(l: Lectura, e: LecturaEdit): Lectura {
    l.(entrada := e.entrada, salida := e.salida, jackpots := e.jackpots)
  }

  /** The expense request rules: an existing type and provider and a value of
      at least 0.01. */
  predicate ValidGasto(dir: Directory, tipoGastoId: nat, proveedorId: nat, valor: Amount) {
    tipoGastoId in dir.tiposGasto && proveedorId in dir.proveedores && valor >= 0.01
  }

  /** The machine request rules; `except` is the machine being updated, which
      may keep its own ndi. */
  predicate ValidMaquina(ms: map<nat, Maquina>, dir: Directory, d: MaquinaInput, except: Option<nat>) {
    && 0 < |d.nombre| <= 255
    && 0 < |d.ndi| <= 255 && !NdiTaken(ms, d.ndi, except)
    && d.denominacion >= 1.0
    && d.sucursalId in dir.sucursales
    && (d.ultimoNetoFinal.Some? ==> d.ultimoNetoFinal.value >= 0.0)
  }

  /** The role guards of machine store, update and destroy on branch `s`: a
      casino administrator stays in the casino of `s` (strict comparison, so a
      null casino on one side only is a refusal) and a branch administrator in
      `s` itself (loose comparison, so a null branch passes for id 0). Other
      roles are not restricted. */
  function MayManage(u: User, dir: Directory, s: nat): (ok: bool)
    ensures ok <==>
      && (CasinoAdmin in u.roles ==> InCasino(dir, s, u.casinoId) || (u.casinoId.None? && s !in dir.sucursales))
      && (SucursalAdmin in u.roles ==> u.sucursalId == Some(s) || (u.sucursalId.None? && s == 0))
    ensures CasinoAdmin !in u.roles && SucursalAdmin !in u.roles ==> ok
  {
    (CasinoAdmin in u.roles ==> u.casinoId == CasinoOf(dir, s))
    && (SucursalAdmin in u.roles ==> IntCast(u.sucursalId) == s)
  }

  /** The role guard of a machine transfer: a casino administrator moves
      machines only between branches of the casino; a branch administrator
      (without the casino role) never transfers. */
  function MayTransfer(u: User, dir: Directory, from: nat, to: nat): (ok: bool)
    ensures ok && CasinoAdmin in u.roles ==> u.casinoId == CasinoOf(dir, from) == CasinoOf(dir, to)
    ensures SucursalAdmin in u.roles && CasinoAdmin !in u.roles ==> !ok
    ensures CasinoAdmin !in u.roles && SucursalAdmin !in u.roles ==> ok
  {
    if CasinoAdmin in u.roles then u.casinoId == CasinoOf(dir, from) && u.casinoId == CasinoOf(dir, to)
    else SucursalAdmin !in u.roles
  }

  /** A casino administrator who may transfer a machine between two existing
      branches has both in the casino, so the transfer never leaves it. */
  lemma TransferStaysInCasino(u: User, dir: Directory, from: nat, to: nat)
    requires CasinoAdmin in u.roles && MayTransfer(u, dir, from, to)
    requires from in dir.sucursales && to in dir.sucursales
    ensures InCasino(dir, from, u.casinoId) && InCasino(dir, to, u.casinoId)
    ensures dir.sucursales[from] == dir.sucursales[to]
  {
  }

  /** The foreach of the batch confirmation over the selected rows. */
  method ConfirmEach(rs0: map<nat, Lectura>, ids: seq<nat>, now: int) returns (rs: map<nat, Lectura>)
    requires forall i :: 0 <= i < |ids| ==> ids[i] in rs0
    requires forall i, j :: 0 <= i < j < |ids| ==> ids[i] < ids[j]
    ensures rs == ConfirmAll(rs0, ids, now)
  {
    rs := rs0;
    ConfirmAllNone(rs0, now);
    for i := 0 to |ids|
      invariant rs == ConfirmAll(rs0, ids[..i], now)
    {
      ConfirmAllStep(rs0, ids, i, now);
      assert ids[i] !in ids[..i];
      var l := rs[ids[i]];
      rs := rs[ids[i] := l.(confirmado := true, fechaConfirmacion := Some(now))];
    }
    assert ids[..|ids|] == ids;
  }

  /** The foreach of the cascade: each row in turn takes `prevNeto` as its
      carry-in and has its derived columns recomputed, and `prevNeto` moves
      on to the row's new neto_final. */
  method CascadeEach(rs0: map<nat, Lectura>, ids: seq<nat>, prev: Amount, den: Amount) returns (rs: map<nat, Lectura>, prevNeto: Amount)
    requires forall i :: 0 <= i < |ids| ==> ids[i] in rs0
    ensures rs == Cascade(rs0, ids, prev, den)
    ensures prevNeto == CascadeLast(rs0, ids, prev, den)
  {
    rs, prevNeto := rs0, prev;
    var i := 0;
    while i < |ids|
      invariant 0 <= i <= |ids|
      invariant rs.Keys == rs0.Keys
      invariant Cascade(rs, ids[i..], prevNeto, den) == Cascade(rs0, ids, prev, den)
      invariant CascadeLast(rs, ids[i..], prevNeto, den) == CascadeLast(rs0, ids, prev, den)
    {
      assert ids[i] in rs;
      var s := Recompute(rs[ids[i]], prevNeto, den);
      assert ids[i..][1..] == ids[i + 1..];
      rs := rs[ids[i] := s];
      prevNeto := s.netoFinal;
      i := i + 1;
    }
  }

  class Database {
    var maquinas: map<nat, Maquina>
    var lecturas: map<nat, Lectura>
    var gastos: map<nat, Gasto>
    var cierres: seq<CierreCaja>
    var nextMaquina: nat
    var nextLectura: nat
    var nextGasto: nat

    ghost predicate Valid()
      reads this
    {
      TablesValid(maquinas, lecturas, gastos, |cierres|, nextMaquina, nextLectura, nextGasto)
    }

    constructor ()
      ensures Valid()
      ensures maquinas == map[] && lecturas == map[] && gastos == map[] && cierres == []
    {
      maquinas := map[];
      lecturas := map[];
      gastos := map[];
      cierres := [];
      nextMaquina := 0;
      nextLectura := 0;
      nextGasto := 0;
    }

    // ---------------------------------------------------------------- readings

    /** LecturasController@store. */
    method StoreLectura(u: User, dir: Directory, d: LecturaInput, now: int) returns (r: Result<nat>)
      requires Valid()
      modifies this
      ensures Valid()
      ensures r.Failure? ==> unchanged(this)
      ensures r == Failure(NotFound) <==> d.maquinaId !in old(maquinas)
      ensures r == Failure(PendingExists) <==>
        d.maquinaId in old(maquinas) && HasPending(old(lecturas), d.maquinaId, d.sucursalId)
      ensures r == Failure(ConfirmedSameDate) <==>
        && d.maquinaId in old(maquinas) && !HasPending(old(lecturas), d.maquinaId, d.sucursalId)
        && HasConfirmedOn(old(lecturas), d.maquinaId, d.sucursalId, d.fecha)
      ensures r == Failure(Constraint) <==>
        && d.maquinaId in old(maquinas) && !HasPending(old(lecturas), d.maquinaId, d.sucursalId)
        && !HasConfirmedOn(old(lecturas), d.maquinaId, d.sucursalId, d.fecha)
        && (d.sucursalId !in dir.sucursales || HasLecturaOn(old(lecturas), d.maquinaId, d.fecha))
      ensures r.Failure? ==> r.error in {NotFound, PendingExists, ConfirmedSameDate, Constraint}
      ensures r.Success? ==>
        && r.value == old(nextLectura) && nextLectura == old(nextLectura) + 1
        && lecturas == old(lecturas)[r.value := NewLectura(u, old(maquinas)[d.maquinaId], d, now)]
        && maquinas == old(maquinas)[d.maquinaId := old(maquinas)[d.maquinaId].(ultimoNetoFinal := d.netoFinal)]
        && gastos == old(gastos) && cierres == old(cierres)
        && nextMaquina == old(nextMaquina) && nextGasto == old(nextGasto)
    {
      if d.maquinaId !in maquinas {
        return Failure(NotFound);
      }
      var m := maquinas[d.maquinaId];
      if HasPending(lecturas, d.maquinaId, d.sucursalId) {
        return Failure(PendingExists);
      }
      if HasConfirmedOn(lecturas, d.maquinaId, d.sucursalId, d.fecha) {
        return Failure(ConfirmedSameDate);
      }
      if d.sucursalId !in dir.sucursales || HasLecturaOn(lecturas, d.maquinaId, d.fecha) {
        return Failure(Constraint);
      }
      var l := NewLectura(u, m, d, now);
      var id := nextLectura;
      InsertKeepsLecturaInvariants(lecturas, id, l);
      lecturas := lecturas[id := l];
      nextLectura := nextLectura + 1;
      maquinas := maquinas[d.maquinaId := m.(ultimoNetoFinal := d.netoFinal)];
      r := Success(id);
    }

    /** LecturasController@update: the edited row is recomputed from the
        request, then every later reading of the machine, in date order,
        takes the previous row's neto_final as its carry-in; the machine's
        ultimo_neto_final ends as the last neto_final of the walk. */
    method UpdateLectura(u: User, id: nat, e: LecturaEdit) returns (st: Status)
      requires Valid()
      modifies this
      ensures Valid()
      ensures st.Fail? ==> unchanged(this)
      ensures st == Fail(NotFound) <==> id !in old(lecturas)
      ensures st == Fail(Forbidden) <==>
        id in old(lecturas) && old(lecturas)[id].confirmado && MasterAdmin !in u.roles
      ensures st.Fail? ==> st.error in {NotFound, Forbidden}
      ensures st.Ok? ==>
        var l := old(lecturas)[id];
        var den := old(maquinas)[l.maquinaId].denominacion;
        var edited := Recompute(WithCounters(l, e), e.netoInicial, den);
        && lecturas == Edit(old(lecturas), old(nextLectura), id, edited, den)
        && maquinas == old(maquinas)[l.maquinaId :=
             old(maquinas)[l.maquinaId].(ultimoNetoFinal := EditLast(old(lecturas), old(nextLectura), id, edited, den))]
        && gastos == old(gastos) && cierres == old(cierres)
        && nextMaquina == old(nextMaquina) && nextLectura == old(nextLectura) && nextGasto == old(nextGasto)
    {
      if id !in lecturas {
        return Fail(NotFound);
      }
      var l := lecturas[id];
      if l.confirmado && MasterAdmin !in u.roles {
        return Fail(Forbidden);
      }
      var mid := l.maquinaId;
      var den := maquinas[mid].denominacion;
      var edited := Recompute(WithCounters(l, e), e.netoInicial, den);
      ghost var rs0 := lecturas;
      var rs1 := lecturas[id := edited];
      var ids := LaterByDate(rs1, mid, l.fecha, nextLectura);
      var rs, prevNeto := CascadeEach(rs1, ids, edited.netoFinal, den);
      EditKeepsValid(maquinas, rs0, gastos, |cierres|, nextMaquina, nextLectura, nextGasto, id, edited, den);
      MachineEditKeepsValid(maquinas, rs, gastos, |cierres|, nextMaquina, nextLectura, nextGasto, mid,
                            maquinas[mid].(ultimoNetoFinal := prevNeto));
      lecturas := rs;
      maquinas := maquinas[mid := maquinas[mid].(ultimoNetoFinal := prevNeto)];
      st := Ok;
    }

    /** LecturasController@destroy: the row is removed and the machine's
        ultimo_neto_final falls back to the removed row's carry-in. The row's
        closing is not consulted. */
    method DestroyLectura(u: User, id: nat) returns (st: Status)
      requires Valid()
      modifies this
      ensures Valid()
      ensures st.Fail? ==> unchanged(this)
      ensures st == Fail(NotFound) <==> id !in old(lecturas)
      ensures st == Fail(Forbidden) <==>
        id in old(lecturas) && old(lecturas)[id].confirmado && MasterAdmin !in u.roles
      ensures st.Fail? ==> st.error in {NotFound, Forbidden}
      ensures st.Ok? ==>
        var l := old(lecturas)[id];
        && lecturas == old(lecturas) - {id}
        && maquinas == (if l.maquinaId in old(maquinas)
                        then old(maquinas)[l.maquinaId := old(maquinas)[l.maquinaId].(ultimoNetoFinal := l.netoInicial)]
                        else old(maquinas))
        && gastos == old(gastos) && cierres == old(cierres)
        && nextMaquina == old(nextMaquina) && nextLectura == old(nextLectura) && nextGasto == old(nextGasto)
    {
      if id !in lecturas {
        return Fail(NotFound);
      }
      var l := lecturas[id];
      if l.confirmado && MasterAdmin !in u.roles {
        return Fail(Forbidden);
      }
      lecturas := lecturas - {id};
      if l.maquinaId in maquinas {
        maquinas := maquinas[l.maquinaId := maquinas[l.maquinaId].(ultimoNetoFinal := l.netoInicial)];
      }
      st := Ok;
    }

    /** LecturasController@confirmarLecturas: master and casino
        administrators name an existing branch; everyone else confirms their
        own branch (none, when the user has no branch). */
    method ConfirmarLecturas(u: User, dir: Directory, reqSucursal: Option<nat>, now: int) returns (st: Status)
      requires Valid()
      modifies this
      ensures Valid()
      ensures st.Fail? ==> unchanged(this)
      ensures
        var admin := MasterAdmin in u.roles || CasinoAdmin in u.roles;
        var s := if admin then reqSucursal else u.sucursalId;
        && (st == Fail(Invalid) <==> admin && !(reqSucursal.Some? && reqSucursal.value in dir.sucursales))
        && (st == Fail(NothingToConfirm) <==>
              (!admin || (reqSucursal.Some? && reqSucursal.value in dir.sucursales)) &&
              LecturaIds(old(lecturas), PendingIn(s), old(nextLectura)) == [])
        && (st.Ok? ==> lecturas == ConfirmPending(old(lecturas), s, now))
      ensures st.Fail? ==> st.error in {Invalid, NothingToConfirm}
      ensures st.Ok? ==>
        && maquinas == old(maquinas) && gastos == old(gastos) && cierres == old(cierres)
        && nextMaquina == old(nextMaquina) && nextLectura == old(nextLectura) && nextGasto == old(nextGasto)
    {
      var s: Option<nat>;
      if MasterAdmin in u.roles || CasinoAdmin in u.roles {
        if !(reqSucursal.Some? && reqSucursal.value in dir.sucursales) {
          return Fail(Invalid);
        }
        s := reqSucursal;
      } else {
        s := u.sucursalId;
      }
      var ids := LecturaIds(lecturas, PendingIn(s), nextLectura);
      if ids == [] {
        return Fail(NothingToConfirm);
      }
      ghost var rs0 := lecturas;
      var rs := ConfirmEach(lecturas, ids, now);
      ConfirmAllIsConfirmPending(rs0, s, now, nextLectura);
      ConfirmKeepsValid(maquinas, rs0, gastos, |cierres|, nextMaquina, nextLectura, nextGasto, s, now);
      lecturas := rs;
      st := Ok;
    }

    // ---------------------------------------------------------------- closings

    /** CierreService::cerrarSucursal: one closing absorbs every open reading
        and expense of the branch, and the selected ids are stamped. */
    method CerrarSucursal(sucursalId: nat, userId: nat, observaciones: Option<string>, now: int) returns (r: Result<nat>)
      requires Valid()
      modifies this
      ensures Valid()
      ensures r.Failure? ==> unchanged(this) && r.error == NothingToClose
      ensures r.Failure? <==>
        && LecturaIds(old(lecturas), OpenIn(Some(sucursalId)), old(nextLectura)) == []
        && GastoIds(old(gastos), GastoOpenIn(Some(sucursalId)), old(nextGasto)) == []
      ensures r.Success? ==>
        && r.value == |old(cierres)|
        && |cierres| == r.value + 1 && cierres[..r.value] == old(cierres)
        && cierres[r.value] == ServiceCierre(old(lecturas), old(gastos), sucursalId, userId, observaciones, now, old(nextLectura), old(nextGasto))
        && lecturas == StampLecturas(old(lecturas), LecturaIds(old(lecturas), OpenIn(Some(sucursalId)), old(nextLectura)), r.value)
        && gastos == StampGastos(old(gastos), GastoIds(old(gastos), GastoOpenIn(Some(sucursalId)), old(nextGasto)), r.value)
        && maquinas == old(maquinas)
        && nextMaquina == old(nextMaquina) && nextLectura == old(nextLectura) && nextGasto == old(nextGasto)
    {
      var s := Some(sucursalId);
      var lids := LecturaIds(lecturas, OpenIn(s), nextLectura);
      var gids := GastoIds(gastos, GastoOpenIn(s), nextGasto);
      if lids == [] && gids == [] {
        return Failure(NothingToClose);
      }
      var cierre := ServiceCierre(lecturas, gastos, sucursalId, userId, observaciones, now, nextLectura, nextGasto);
      var c := |cierres|;
      ServiceStampKeepsValid(maquinas, lecturas, gastos, c, nextMaquina, nextLectura, nextGasto, sucursalId);
      cierres := cierres + [cierre];
      lecturas := StampLecturas(lecturas, lids, c);
      gastos := StampGastos(gastos, gids, c);
      r := Success(c);
    }

    /** CierreCajaController@store: the branch is the user's, or the
        request's when the user has none; the open rows are stamped by the
        same predicate that selected them. */
    method StoreCierreCaja(u: User, reqSucursal: Option<nat>) returns (r: Result<nat>)
      requires Valid()
      modifies this
      ensures Valid()
      ensures r.Failure? ==> unchanged(this) && r.error == NothingToClose
      ensures
        var s := if u.sucursalId.Some? then u.sucursalId else reqSucursal;
        && (r.Failure? <==>
              && LecturaIds(old(lecturas), OpenIn(s), old(nextLectura)) == []
              && GastoIds(old(gastos), GastoOpenIn(s), old(nextGasto)) == [])
        && (r.Success? ==>
              && s.Some? && r.value == |old(cierres)|
              && |cierres| == r.value + 1 && cierres[..r.value] == old(cierres)
              && cierres[r.value] == CajaCierre(old(lecturas), old(gastos), s.value, u.id, old(nextLectura), old(nextGasto))
              && lecturas == StampOpenLecturas(old(lecturas), s, r.value)
              && gastos == StampOpenGastos(old(gastos), s, r.value))
      ensures r.Success? ==>
        && maquinas == old(maquinas)
        && nextMaquina == old(nextMaquina) && nextLectura == old(nextLectura) && nextGasto == old(nextGasto)
    {
      var s := if u.sucursalId.Some? then u.sucursalId else reqSucursal;
      if s.None? {
        NullBranchSelectsNothing(lecturas, gastos, nextLectura, nextGasto);
        return Failure(NothingToClose);
      }
      var lids := LecturaIds(lecturas, OpenIn(s), nextLectura);
      var gids := GastoIds(gastos, GastoOpenIn(s), nextGasto);
      if lids == [] && gids == [] {
        return Failure(NothingToClose);
      }
      var cierre := CajaCierre(lecturas, gastos, s.value, u.id, nextLectura, nextGasto);
      var c := |cierres|;
      StampKeepsValid(maquinas, lecturas, gastos, c, nextMaquina, nextLectura, nextGasto, s);
      cierres := cierres + [cierre];
      lecturas := StampOpenLecturas(lecturas, s, c);
      gastos := StampOpenGastos(gastos, s, c);
      r := Success(c);
    }

    // ---------------------------------------------------------------- expenses

    /** GastosController@store: dated today; the branch is checked only by
        its foreign key. */
    method StoreGasto(u: User, dir: Directory, d: GastoInput, now: int) returns (r: Result<nat>)
      requires Valid()
      modifies this
      ensures Valid()
      ensures r.Failure? ==> unchanged(this)
      ensures r == Failure(Invalid) <==> !ValidGasto(dir, d.tipoGastoId, d.proveedorId, d.valor)
      ensures r == Failure(Constraint) <==> ValidGasto(dir, d.tipoGastoId, d.proveedorId, d.valor) && d.sucursalId !in dir.sucursales
      ensures r.Failure? ==> r.error in {Invalid, Constraint}
      ensures r.Success? ==>
        && r.value == old(nextGasto) && nextGasto == old(nextGasto) + 1
        && gastos == old(gastos)[r.value :=
             Gasto(d.sucursalId, d.tipoGastoId, d.proveedorId, u.id, DayOf(now), d.valor, d.descripcion, None, now)]
        && maquinas == old(maquinas) && lecturas == old(lecturas) && cierres == old(cierres)
        && nextMaquina == old(nextMaquina) && nextLectura == old(nextLectura)
    {
      if !ValidGasto(dir, d.tipoGastoId, d.proveedorId, d.valor) {
        return Failure(Invalid);
      }
      if d.sucursalId !in dir.sucursales {
        return Failure(Constraint);
      }
      var id := nextGasto;
      gastos := gastos[id := Gasto(d.sucursalId, d.tipoGastoId, d.proveedorId, u.id, DayOf(now), d.valor, d.descripcion, None, now)];
      nextGasto := nextGasto + 1;
      r := Success(id);
    }

    /** GastosController@update: authorised by the expense policy before the
        request is validated; only the five request columns change. */
    method UpdateGasto(u: User, dir: Directory, id: nat, e: GastoEdit) returns (st: Status)
      requires Valid()
      modifies this
      ensures Valid()
      ensures st.Fail? ==> unchanged(this)
      ensures st == Fail(NotFound) <==> id !in old(gastos)
      ensures st == Fail(Forbidden) <==> id in old(gastos) && !GastoPolicy.Update(u, dir, old(gastos)[id])
      ensures st == Fail(Invalid) <==>
        id in old(gastos) && GastoPolicy.Update(u, dir, old(gastos)[id]) && !ValidGasto(dir, e.tipoGastoId, e.proveedorId, e.valor)
      ensures st.Fail? ==> st.error in {NotFound, Forbidden, Invalid}
      ensures st.Ok? ==>
        && gastos == old(gastos)[id := old(gastos)[id].(tipoGastoId := e.tipoGastoId, proveedorId := e.proveedorId,
                                                         fecha := e.fecha, valor := e.valor, descripcion := e.descripcion)]
        && maquinas == old(maquinas) && lecturas == old(lecturas) && cierres == old(cierres)
        && nextMaquina == old(nextMaquina) && nextLectura == old(nextLectura) && nextGasto == old(nextGasto)
    {
      if id !in gastos {
        return Fail(NotFound);
      }
      var g := gastos[id];
      if !GastoPolicy.Update(u, dir, g) {
        return Fail(Forbidden);
      }
      if !ValidGasto(dir, e.tipoGastoId, e.proveedorId, e.valor) {
        return Fail(Invalid);
      }
      gastos := gastos[id := g.(tipoGastoId := e.tipoGastoId, proveedorId := e.proveedorId,
                                fecha := e.fecha, valor := e.valor, descripcion := e.descripcion)];
      st := Ok;
    }

    /** GastosController@destroy, authorised with the update ability. */
    method DestroyGasto(u: User, dir: Directory, id: nat) returns (st: Status)
      requires Valid()
      modifies this
      ensures Valid()
      ensures st.Fail? ==> unchanged(this)
      ensures st == Fail(NotFound) <==> id !in old(gastos)
      ensures st == Fail(Forbidden) <==> id in old(gastos) && !GastoPolicy.Update(u, dir, old(gastos)[id])
      ensures st.Fail? ==> st.error in {NotFound, Forbidden}
      ensures st.Ok? ==>
        && gastos == old(gastos) - {id}
        && maquinas == old(maquinas) && lecturas == old(lecturas) && cierres == old(cierres)
        && nextMaquina == old(nextMaquina) && nextLectura == old(nextLectura) && nextGasto == old(nextGasto)
    {
      if id !in gastos {
        return Fail(NotFound);
      }
      if !GastoPolicy.Update(u, dir, gastos[id]) {
        return Fail(Forbidden);
      }
      gastos := gastos - {id};
      st := Ok;
    }

    // ---------------------------------------------------------------- machines

    /** MaquinasController@store. */
    method StoreMaquina(u: User, dir: Directory, d: MaquinaInput) returns (r: Result<nat>)
      requires Valid()
      modifies this
      ensures Valid()
      ensures r.Failure? ==> unchanged(this)
      ensures r == Failure(Invalid) <==> !ValidMaquina(old(maquinas), dir, d, None)
      ensures r == Failure(Forbidden) <==> ValidMaquina(old(maquinas), dir, d, None) && !MayManage(u, dir, d.sucursalId)
      ensures r.Failure? ==> r.error in {Invalid, Forbidden}
      ensures r.Success? ==>
        && r.value == old(nextMaquina) && nextMaquina == old(nextMaquina) + 1
        && maquinas == old(maquinas)[r.value :=
             Maquina(d.ndi, d.nombre, d.sucursalId, d.denominacion, d.ultimoNetoFinal.GetOr(0.0), true)]
        && lecturas == old(lecturas) && gastos == old(gastos) && cierres == old(cierres)
        && nextLectura == old(nextLectura) && nextGasto == old(nextGasto)
    {
      if !ValidMaquina(maquinas, dir, d, None) {
        return Failure(Invalid);
      }
      if !MayManage(u, dir, d.sucursalId) {
        return Failure(Forbidden);
      }
      var id := nextMaquina;
      maquinas := maquinas[id := Maquina(d.ndi, d.nombre, d.sucursalId, d.denominacion, d.ultimoNetoFinal.GetOr(0.0), true)];
      nextMaquina := nextMaquina + 1;
      r := Success(id);
    }

    /** MaquinasController@update: the guards look at the machine's current
        branch, not the requested one. */
    method UpdateMaquina(u: User, dir: Directory, id: nat, d: MaquinaInput) returns (st: Status)
      requires Valid()
      modifies this
      ensures Valid()
      ensures st.Fail? ==> unchanged(this)
      ensures st == Fail(NotFound) <==> id !in old(maquinas)
      ensures st == Fail(Invalid) <==> id in old(maquinas) && !ValidMaquina(old(maquinas), dir, d, Some(id))
      ensures st == Fail(Forbidden) <==>
        id in old(maquinas) && ValidMaquina(old(maquinas), dir, d, Some(id)) && !MayManage(u, dir, old(maquinas)[id].sucursalId)
      ensures st.Fail? ==> st.error in {NotFound, Invalid, Forbidden}
      ensures st.Ok? ==>
        var m := old(maquinas)[id];
        && maquinas == old(maquinas)[id := m.(nombre := d.nombre, ndi := d.ndi, denominacion := d.denominacion,
                                              sucursalId := d.sucursalId, ultimoNetoFinal := d.ultimoNetoFinal.GetOr(m.ultimoNetoFinal))]
        && lecturas == old(lecturas) && gastos == old(gastos) && cierres == old(cierres)
        && nextMaquina == old(nextMaquina) && nextLectura == old(nextLectura) && nextGasto == old(nextGasto)
    {
      if id !in maquinas {
        return Fail(NotFound);
      }
      var m := maquinas[id];
      if !ValidMaquina(maquinas, dir, d, Some(id)) {
        return Fail(Invalid);
      }
      if !MayManage(u, dir, m.sucursalId) {
        return Fail(Forbidden);
      }
      maquinas := maquinas[id := m.(nombre := d.nombre, ndi := d.ndi, denominacion := d.denominacion,
                                    sucursalId := d.sucursalId, ultimoNetoFinal := d.ultimoNetoFinal.GetOr(m.ultimoNetoFinal))];
      st := Ok;
    }

    /** MaquinasController@toggle: `activa` defaults to false when absent; no
        role guard. */
    method ToggleMaquina(id: nat, activa: Option<bool>) returns (st: Status)
      requires Valid()
      modifies this
      ensures Valid()
      ensures st.Fail? ==> unchanged(this)
      ensures st == Fail(NotFound) <==> id !in old(maquinas)
      ensures st.Fail? ==> st.error == NotFound
      ensures st.Ok? ==>
        && maquinas == old(maquinas)[id := old(maquinas)[id].(activa := activa.GetOr(false))]
        && lecturas == old(lecturas) && gastos == old(gastos) && cierres == old(cierres)
        && nextMaquina == old(nextMaquina) && nextLectura == old(nextLectura) && nextGasto == old(nextGasto)
    {
      if id !in maquinas {
        return Fail(NotFound);
      }
      maquinas := maquinas[id := maquinas[id].(activa := activa.GetOr(false))];
      st := Ok;
    }

    /** MaquinasController@destroy: refused while the machine has readings. */
    method DestroyMaquina(u: User, dir: Directory, id: nat) returns (st: Status)
      requires Valid()
      modifies this
      ensures Valid()
      ensures st.Fail? ==> unchanged(this)
      ensures st == Fail(NotFound) <==> id !in old(maquinas)
      ensures st == Fail(Forbidden) <==> id in old(maquinas) && !MayManage(u, dir, old(maquinas)[id].sucursalId)
      ensures st == Fail(HasLecturas) <==>
        id in old(maquinas) && MayManage(u, dir, old(maquinas)[id].sucursalId) && MaquinaHasLecturas(old(lecturas), id)
      ensures st.Fail? ==> st.error in {NotFound, Forbidden, HasLecturas}
      ensures st.Ok? ==>
        && maquinas == old(maquinas) - {id}
        && lecturas == old(lecturas) && gastos == old(gastos) && cierres == old(cierres)
        && nextMaquina == old(nextMaquina) && nextLectura == old(nextLectura) && nextGasto == old(nextGasto)
    {
      if id !in maquinas {
        return Fail(NotFound);
      }
      if !MayManage(u, dir, maquinas[id].sucursalId) {
        return Fail(Forbidden);
      }
      if MaquinaHasLecturas(lecturas, id) {
        return Fail(HasLecturas);
      }
      maquinas := maquinas - {id};
      st := Ok;
    }

    /** MaquinasController@transfer: only the machine's branch changes; its
        readings keep the branch they were taken in. The `different:` rule
        names a request field rather than the current branch, so a transfer
        to the machine's own branch passes validation and changes nothing. */
    method TransferMaquina(u: User, dir: Directory, id: nat, nueva: nat) returns (st: Status)
      requires Valid()
      modifies this
      ensures Valid()
      ensures st.Fail? ==> unchanged(this)
      ensures st == Fail(NotFound) <==> id !in old(maquinas)
      ensures st == Fail(Invalid) <==> id in old(maquinas) && nueva !in dir.sucursales
      ensures st == Fail(Forbidden) <==>
        && id in old(maquinas) && nueva in dir.sucursales
        && !MayTransfer(u, dir, old(maquinas)[id].sucursalId, nueva)
      ensures st.Fail? ==> st.error in {NotFound, Invalid, Forbidden}
      ensures st.Ok? ==>
        && maquinas == old(maquinas)[id := old(maquinas)[id].(sucursalId := nueva)]
        && lecturas == old(lecturas) && gastos == old(gastos) && cierres == old(cierres)
        && nextMaquina == old(nextMaquina) && nextLectura == old(nextLectura) && nextGasto == old(nextGasto)
      ensures st.Ok? && nueva == old(maquinas)[id].sucursalId ==> maquinas == old(maquinas)
    {
      if id !in maquinas {
        return Fail(NotFound);
      }
      var m := maquinas[id];
      if nueva !in dir.sucursales {
        return Fail(Invalid);
      }
      if !MayTransfer(u, dir, m.sucursalId, nueva) {
        return Fail(Forbidden);
      }
      maquinas := maquinas[id := m.(sucursalId := nueva)];
      st := Ok;
    }
  }
}
