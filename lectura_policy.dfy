/** The registered authorization policy for readings, as standalone
    predicates over the user, the branch directory and the row. */
module LecturaPolicy {
  import opened Domain

  function ViewAny(u: User): (ok: bool)
    ensures !ok
  {
    false
  }

  function View(u: User, l: Lectura): (ok: bool)
    ensures !ok
  {
    false
  }

  /** Any of the four roles may create readings. */
  function Create(u: User): (ok: bool)
    ensures ok <==> u.roles != {}
  {
    HasAnyRoleIsNonEmpty(u);
    HasAnyRole(u)
  }

  /** Branch visibility. The roles are tested in order of privilege, so a user
      holding several roles is judged by the highest one. */
  function CanSeeSucursal(u: User, dir: Directory, sucursalId: nat): (ok: bool)
    ensures ok ==> u.roles != {}
    ensures ok ==> MasterAdmin in u.roles || InCasino(dir, sucursalId, u.casinoId) || u.sucursalId == Some(sucursalId)
    ensures MasterAdmin in u.roles ==> ok
    ensures MasterAdmin !in u.roles && CasinoAdmin in u.roles ==> (ok <==> InCasino(dir, sucursalId, u.casinoId))
    ensures MasterAdmin !in u.roles && CasinoAdmin !in u.roles && u.roles != {} ==> (ok <==> u.sucursalId == Some(sucursalId))
  {
    HasAnyRoleIsNonEmpty(u);
    if MasterAdmin in u.roles then true
    else if CasinoAdmin in u.roles then InCasino(dir, sucursalId, u.casinoId)
    else if SucursalAdmin in u.roles || Cajero in u.roles then u.sucursalId == Some(sucursalId)
    else false
  }

  function Update(u: User, dir: Directory, l: Lectura): bool {
    if l.cierreId.Some? then Cajero !in u.roles
    else CanSeeSucursal(u, dir, l.sucursalId)
  }

  function Delete(u: User, dir: Directory, l: Lectura): bool {
    Update(u, dir, l)
  }

  function Restore(u: User, l: Lectura): (ok: bool)
    ensures !ok
  {
    false
  }

  function ForceDelete(u: User, l: Lectura): (ok: bool)
    ensures !ok
  {
    false
  }

  /** On a closed reading only the cashier role matters: the answer does not
      depend on the row's branch, the user's scope or the directory. */
  lemma UpdateOnClosed(u: User, dir: Directory, l: Lectura, dir': Directory, s': nat)
    requires l.cierreId.Some?
    ensures Update(u, dir, l) <==> Cajero !in u.roles
    ensures Update(u, dir, l) == Update(u.(casinoId := None, sucursalId := None), dir', l.(sucursalId := s'))
  {
  }

  /** On an open reading the answer is branch visibility, role by role. */
  lemma UpdateOnOpen(u: User, dir: Directory, l: Lectura)
    requires l.cierreId.None?
    ensures u.roles == {MasterAdmin} ==> Update(u, dir, l)
    ensures u.roles == {CasinoAdmin} ==> (Update(u, dir, l) <==> InCasino(dir, l.sucursalId, u.casinoId))
    ensures u.roles == {SucursalAdmin} || u.roles == {Cajero} ==> (Update(u, dir, l) <==> u.sucursalId == Some(l.sucursalId))
    ensures u.roles == {} ==> !Update(u, dir, l)
  {
  }

  /** Delete answers exactly as update. */
  lemma DeleteIsUpdate(u: User, dir: Directory, l: Lectura)
    ensures Delete(u, dir, l) == Update(u, dir, l)
  {
  }
}
