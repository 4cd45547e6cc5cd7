/**
 * Which spaces the booking form offers an office: the queryset built at the
 * end of `nueva_reserva` in reservas/views.py.
 */
module Visibility {
  import opened Wrappers
  import opened Models

  /**
   * The filter of the queryset: an active space that is a common room
   * (sala, directorio or terraza), a visitor parking spot, or a parking spot
   * owned by the requesting office.
   */
  predicate Offered(e: Espacio, oficina: OficinaId)
    ensures Offered(e, oficina) && e.tipo == Estacionamiento ==>
      e.esEstacionamientoVisita || e.oficinaPropietaria == Some(oficina)
  {
    && e.activo
    && (|| e.tipo in {Sala, Directorio, Terraza}
        || (e.tipo == Estacionamiento && e.esEstacionamientoVisita)
        || (e.tipo == Estacionamiento && e.oficinaPropietaria == Some(oficina)))
  }

  /** The category-by-category reading of the filter. */
  lemma OfferedByTipo(e: Espacio, oficina: OficinaId)
    ensures Offered(e, oficina) <==>
      e.activo &&
      match e.tipo
      case Sala | Directorio | Terraza => true
      case Estacionamiento => e.esEstacionamientoVisita || e.oficinaPropietaria == Some(oficina)
      case Comedor => false
  {
  }

  /** Dining areas and inactive spaces are never offered; a common room that is active always is. */
  lemma OfferedEdges(e: Espacio, oficina: OficinaId)
    ensures e.tipo == Comedor ==> !Offered(e, oficina)
    ensures !e.activo ==> !Offered(e, oficina)
    ensures e.activo && e.tipo in {Sala, Directorio, Terraza} ==> Offered(e, oficina)
  {
  }

  /** A parking spot owned by one office is offered to another only when it is a visitor spot. */
  lemma OwnedParkingIsPrivate(e: Espacio, owner: OficinaId, other: OficinaId)
    requires e.tipo == Estacionamiento && e.oficinaPropietaria == Some(owner) && other != owner
    ensures Offered(e, other) <==> e.activo && e.esEstacionamientoVisita
    ensures e.activo ==> Offered(e, owner)
  {
  }

  /**
   * The queryset: the ids of the spaces in the table that the filter keeps.
   * It holds no dining room and no inactive space, a parking spot only when
   * it is a visitor spot or the office's own, every active common room,
   * and every active visitor spot or parking spot of the office's own.
   */
  function Disponibles(espacios: map<EspacioId, Espacio>, oficina: OficinaId): (ids: set<EspacioId>)
    ensures forall id :: id in ids ==> id in espacios && espacios[id].activo && espacios[id].tipo != Comedor
    ensures forall id :: id in ids && espacios[id].tipo == Estacionamiento ==>
      espacios[id].esEstacionamientoVisita || espacios[id].oficinaPropietaria == Some(oficina)
    ensures forall id :: id in espacios && espacios[id].activo && espacios[id].tipo in {Sala, Directorio, Terraza} ==> id in ids
    ensures forall id ::
      && id in espacios && espacios[id].activo && espacios[id].tipo == Estacionamiento
      && (espacios[id].esEstacionamientoVisita || espacios[id].oficinaPropietaria == Some(oficina))
      ==> id in ids
  {
    set id | id in espacios && Offered(espacios[id], oficina)
  }

  /** A freshly created space with default fields is offered exactly when it is a common room. */
  lemma NewSpaceOffered(nombre: string, tipo: Tipo, oficina: OficinaId)
    ensures Offered(NuevoEspacio(nombre, tipo), oficina) <==> tipo in {Sala, Directorio, Terraza}
  {
  }
}
