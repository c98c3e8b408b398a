/** Records of the casino cash ledger: machines (maquinas), meter readings
    (lecturas_maquinas), expenses (gastos) and cash closings (cierres_caja),
    plus the actor and the external tables the core only reads. */
module Domain {

  datatype Option<T> = None | Some(value: T) {
    /** PHP's `$x ?? default`. */
    function GetOr(default: T): T {
      if Some? then value else default
    }
  }

  /** A decimal(18,2) / decimal(12,2) column. The database's rounding of
      products to two places is not modelled. */
  type Amount = real

  /** The closed set of roles seeded for the application. */
  datatype Role = MasterAdmin | CasinoAdmin | SucursalAdmin | Cajero

  /** The authenticated user: a user may hold several roles, and `casino_id`
      and `sucursal_id` are nullable columns. */
  datatype User = User(id: nat, roles: set<Role>, casinoId: Option<nat>, sucursalId: Option<nat>)

  /** `hasAnyRole` over the four roles. */
  predicate HasAnyRole(u: User) {
    MasterAdmin in u.roles || CasinoAdmin in u.roles || SucursalAdmin in u.roles || Cajero in u.roles
  }

  /** Holding any of the four roles is holding some role. */
  lemma HasAnyRoleIsNonEmpty(u: User)
    ensures HasAnyRole(u) <==> u.roles != {}
  {
    if u.roles != {} {
      var r :| r in u.roles;
      match r
      case MasterAdmin =>
      case CasinoAdmin =>
      case SucursalAdmin =>
      case Cajero =>
    }
  }

  /** PHP's `(int)` cast of a nullable id: null becomes 0. A loose `==`
      between a nullable id and an integer id compares the same way. */
  function IntCast(x: Option<nat>): nat {
    x.GetOr(0)
  }

  /** Tables the core reads but never writes: each branch's casino, the
      expense types and the providers. */
  datatype Directory = Directory(sucursales: map<nat, nat>, tiposGasto: set<nat>, proveedores: set<nat>)

  /** `$sucursal->casino_id`, null when the branch does not exist. */
  function CasinoOf(dir: Directory, sucursalId: nat): Option<nat> {
    if sucursalId in dir.sucursales then Some(dir.sucursales[sucursalId]) else None
  }

  /** `Sucursal::where('id', s)->where('casino_id', c)->exists()`. */
  predicate InCasino(dir: Directory, sucursalId: nat, casinoId: Option<nat>) {
    casinoId.Some? && sucursalId in dir.sucursales && dir.sucursales[sucursalId] == casinoId.value
  }

  datatype Maquina = Maquina(
    ndi: string,
    nombre: string,
    sucursalId: nat,
    denominacion: Amount,
    ultimoNetoFinal: Amount,
    activa: bool)

  /** `fecha` is a calendar day; `createdAt` and `fechaConfirmacion` are instants. */
  datatype Lectura = Lectura(
    sucursalId: nat,
    maquinaId: nat,
    userId: nat,
    fecha: int,
    entrada: Amount,
    salida: Amount,
    jackpots: Amount,
    netoInicial: Amount,
    netoFinal: Amount,
    totalCreditos: Amount,
    totalRecaudo: Amount,
    confirmado: bool,
    fechaConfirmacion: Option<int>,
    cierreId: Option<nat>,
    createdAt: int)

  datatype Gasto = Gasto(
    sucursalId: nat,
    tipoGastoId: nat,
    proveedorId: nat,
    userId: nat,
    fecha: int,
    valor: Amount,
    descripcion: Option<string>,
    cierreId: Option<nat>,
    createdAt: int)

  /** A closing; its id is its index in the ledger's list of closings.
      `fechaInicio` and `fechaFin` are instants (a dateTime column). */
  datatype CierreCaja = CierreCaja(
    sucursalId: nat,
    userId: nat,
    fechaInicio: int,
    fechaFin: int,
    totalRecaudado: Amount,
    totalGastos: Amount,
    totalCierre: Amount,
    observaciones: Option<string>)

  datatype Error =
    | NotFound            // findOrFail / route-model binding: 404
    | Invalid             // request validation failed: 422
    | Forbidden           // role or policy refusal
    | PendingExists       // a pending reading already exists for the machine and branch
    | ConfirmedSameDate   // a confirmed reading already exists for the machine, branch and date
    | Constraint          // the database rejects the insert (foreign key or unique index)
    | NothingToConfirm    // no pending readings in the branch
    | NothingToClose      // no open readings or expenses in the branch
    | HasLecturas         // the machine still has readings

  datatype Result<T> = Success(value: T) | Failure(error: Error)

  datatype Status = Ok | Fail(error: Error)

  const SecondsPerDay: int := 86400

  /** The calendar day of an instant (time zones are not modelled). */
  function DayOf(t: int): int {
    t / SecondsPerDay
  }

  /** A calendar day written to a dateTime column: midnight of that day. */
  function StartOfDay(d: int): int {
    d * SecondsPerDay
  }
}
