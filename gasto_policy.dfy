/** The authorization policy for expenses, which the expense controller
    applies on update and destroy. */
module GastoPolicy {
  import opened Domain
  import LecturaPolicy

  function ViewAny(u: User): (ok: bool)
    ensures !ok
  {
    false
  }

  function View(u: User, g: Gasto): (ok: bool)
    ensures !ok
  {
    false
  }

  function Create(u: User): (ok: bool)
    ensures ok <==> u.roles != {}
  {
    HasAnyRoleIsNonEmpty(u);
    HasAnyRole(u)
  }

  /** Branch visibility; unlike the reading policy the branch comparison is
      done on `(int)` casts, so a null user branch compares as 0. */
  function CanSeeSucursal(u: User, dir: Directory, sucursalId: nat): (ok: bool)
    ensures ok ==> u.roles != {}
    ensures MasterAdmin in u.roles ==> ok
    ensures MasterAdmin !in u.roles && CasinoAdmin in u.roles ==> (ok <==> InCasino(dir, sucursalId, u.casinoId))
    ensures MasterAdmin !in u.roles && CasinoAdmin !in u.roles && u.roles != {} ==> (ok <==> IntCast(u.sucursalId) == sucursalId)
  {
    HasAnyRoleIsNonEmpty(u);
    if MasterAdmin in u.roles then true
    else if CasinoAdmin in u.roles then InCasino(dir, sucursalId, u.casinoId)
    else if SucursalAdmin in u.roles || Cajero in u.roles then IntCast(u.sucursalId) == sucursalId
    else false
  }

  function Update(u: User, dir: Directory, g: Gasto): bool {
    if g.cierreId.Some? && Cajero in u.roles then false
    else CanSeeSucursal(u, dir, g.sucursalId)
  }

  function Delete(u: User, dir: Directory, g: Gasto): bool {
    Update(u, dir, g)
  }

  function Restore(u: User, g: Gasto): (ok: bool)
    ensures !ok
  {
    false
  }

  function ForceDelete(u: User, g: Gasto): (ok: bool)
    ensures !ok
  {
    false
  }

  /** A cashier never edits a closed expense; in every other case update is
      branch visibility, so a permitted update always implies visibility. */
  lemma UpdateIsVisibilityUnlessClosedForCajero(u: User, dir: Directory, g: Gasto)
    ensures g.cierreId.Some? && Cajero in u.roles ==> !Update(u, dir, g)
    ensures !(g.cierreId.Some? && Cajero in u.roles) ==> (Update(u, dir, g) <==> CanSeeSucursal(u, dir, g.sucursalId))
    ensures Update(u, dir, g) ==> CanSeeSucursal(u, dir, g.sucursalId)
  {
  }

  lemma DeleteIsUpdate(u: User, dir: Directory, g: Gasto)
    ensures Delete(u, dir, g) == Update(u, dir, g)
  {
  }

  /** The two policies disagree on closed rows: a casino administrator may
      edit any closed reading, even of a branch outside the casino, but no
      closed expense of a branch outside the casino. */
  lemma PoliciesDisagreeOnClosedRows(u: User, dir: Directory, l: Lectura, g: Gasto)
    requires u.roles == {CasinoAdmin}
    requires l.cierreId.Some? && g.cierreId.Some?
    requires !InCasino(dir, g.sucursalId, u.casinoId)
    ensures LecturaPolicy.Update(u, dir, l) && !Update(u, dir, g)
  {
  }
}
