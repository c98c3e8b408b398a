/** Table invariants that the database schema and the controllers keep. */
module Schema {
  import opened Domain

  /** The unique index on (maquina_id, fecha) of lecturas_maquinas. */
  ghost predicate UniqueMaquinaFecha(rs: map<nat, Lectura>) {
    forall j, k :: j in rs && k in rs && j != k && rs[j].maquinaId == rs[k].maquinaId ==> rs[j].fecha != rs[k].fecha
  }

  /** At most one pending (confirmado = 0) reading per (maquina_id, sucursal_id). */
  ghost predicate OnePendingPerPair(rs: map<nat, Lectura>) {
    forall j, k ::
      (j in rs && k in rs && !rs[j].confirmado && !rs[k].confirmado &&
       rs[j].maquinaId == rs[k].maquinaId && rs[j].sucursalId == rs[k].sucursalId) ==> j == k
  }

  /** The unique index on maquinas.ndi. */
  ghost predicate UniqueNdi(ms: map<nat, Maquina>) {
    forall j, k :: j in ms && k in ms && j != k ==> ms[j].ndi != ms[k].ndi
  }

  /** A cierre_id is null or names an existing closing. */
  predicate CierreExists(c: Option<nat>, cierres: nat) {
    c.Some? ==> c.value < cierres
  }

  ghost predicate KeysBelow<T>(m: map<nat, T>, next: nat) {
    forall k :: k in m ==> k < next
  }

  /** The foreign keys of readings: the machine exists and the closing exists. */
  ghost predicate LecturasLinked(rs: map<nat, Lectura>, ms: map<nat, Maquina>, cierres: nat) {
    forall k :: k in rs ==> rs[k].maquinaId in ms && CierreExists(rs[k].cierreId, cierres)
  }

  ghost predicate GastosLinked(gs: map<nat, Gasto>, cierres: nat) {
    forall k :: k in gs ==> CierreExists(gs[k].cierreId, cierres)
  }

  ghost predicate TablesValid(
    ms: map<nat, Maquina>, rs: map<nat, Lectura>, gs: map<nat, Gasto>, cierres: nat,
    nextMaquina: nat, nextLectura: nat, nextGasto: nat)
  {
    && KeysBelow(ms, nextMaquina) && KeysBelow(rs, nextLectura) && KeysBelow(gs, nextGasto)
    && LecturasLinked(rs, ms, cierres) && GastosLinked(gs, cierres)
    && UniqueMaquinaFecha(rs) && OnePendingPerPair(rs) && UniqueNdi(ms)
  }

  /** Some reading of the machine in the branch is pending. */
  predicate HasPending(rs: map<nat, Lectura>, maquinaId: nat, sucursalId: nat) {
    exists k :: k in rs && rs[k].maquinaId == maquinaId && rs[k].sucursalId == sucursalId && !rs[k].confirmado
  }

  /** Some reading of the machine in the branch on that day is confirmed. */
  predicate HasConfirmedOn(rs: map<nat, Lectura>, maquinaId: nat, sucursalId: nat, fecha: int) {
    exists k :: k in rs && rs[k].maquinaId == maquinaId && rs[k].sucursalId == sucursalId && rs[k].confirmado && rs[k].fecha == fecha
  }

  /** Some reading of the machine, in any branch, is dated that day. */
  predicate HasLecturaOn(rs: map<nat, Lectura>, maquinaId: nat, fecha: int) {
    exists k :: k in rs && rs[k].maquinaId == maquinaId && rs[k].fecha == fecha
  }

  /** `$maquina->lecturas()->exists()`. */
  predicate MaquinaHasLecturas(rs: map<nat, Lectura>, maquinaId: nat) {
    exists k :: k in rs && rs[k].maquinaId == maquinaId
  }

  /** Some machine other than `except` already uses the ndi. */
  predicate NdiTaken(ms: map<nat, Maquina>, ndi: string, except: Option<nat>) {
    exists k :: k in ms && ms[k].ndi == ndi && Some(k) != except
  }

  /** Inserting a reading that passed the pending, same-date and unique-index
      checks keeps both reading invariants. */
  lemma InsertKeepsLecturaInvariants(rs: map<nat, Lectura>, id: nat, l: Lectura)
    requires UniqueMaquinaFecha(rs) && OnePendingPerPair(rs)
    requires id !in rs
    requires !HasPending(rs, l.maquinaId, l.sucursalId)
    requires !HasLecturaOn(rs, l.maquinaId, l.fecha)
    ensures UniqueMaquinaFecha(rs[id := l]) && OnePendingPerPair(rs[id := l])
  {
  }
}
