/**
 * The POST branch of `nueva_reserva` (reservas/views.py): one submitted
 * block checked against the reservation table and, when free, stored as one
 * new reservation.
 */
module Booking {
  import opened Wrappers
  import opened Strptime
  import opened Models
  import opened Blocks

  /** Second `t` lies in the half-open interval [a0, a1). */
  predicate Within(t: int, a0: int, a1: int)
  {
    a0 <= t < a1
  }

  /** The intervals [a0, a1) and [b0, b1) have a second in common. */
  ghost predicate ShareSecond(a0: int, a1: int, b0: int, b1: int)
  {
    exists t :: Within(t, a0, a1) && Within(t, b0, b1)
  }

  /** The comparison the conflict query makes: each interval starts before the other ends. */
  predicate Overlaps(a0: int, a1: int, b0: int, b1: int)
  {
    a0 < b1 && b0 < a1
  }

  /**
   * The comparison and the shared second agree on intervals that start
   * before they end. Sharing a second always passes the comparison, so two
   * rows that fail it share no second; the comparison is symmetric.
   */
  lemma OverlapsIsSharing(a0: int, a1: int, b0: int, b1: int)
    ensures ShareSecond(a0, a1, b0, b1) ==> Overlaps(a0, a1, b0, b1)
    ensures a0 < a1 && b0 < b1 ==> (Overlaps(a0, a1, b0, b1) <==> ShareSecond(a0, a1, b0, b1))
    ensures Overlaps(a0, a1, b0, b1) <==> Overlaps(b0, b1, a0, a1)
  {
    if a0 < a1 && b0 < b1 && Overlaps(a0, a1, b0, b1) {
      var t := if a0 < b0 then b0 else a0;
      assert Within(t, a0, a1) && Within(t, b0, b1);
    }
  }

  /**
   * The conflict query's filter applied to one stored row: same space, same
   * date, starting before the new block ends and ending after it starts. A
   * row of the same space and date that shares a second with the block
   * always passes it.
   */
  predicate Conflicts(r: Reserva, espacio: EspacioId, fecha: Fecha, inicio: Time, fin: Time)
    ensures r.espacio == espacio && r.fecha == fecha && ShareSecond(r.horaInicio, r.horaFin, inicio, fin) ==>
      Conflicts(r, espacio, fecha, inicio, fin)
  {
    r.espacio == espacio && r.fecha == fecha && r.horaInicio < fin && r.horaFin > inicio
  }

  /**
   * `.exists()` of the conflict query over the whole table, whoever made the
   * rows. When it finds nothing, no row of the space and date shares a
   * second with the block.
   */
  predicate HasConflict(rows: seq<Reserva>, espacio: EspacioId, fecha: Fecha, inicio: Time, fin: Time)
    ensures !HasConflict(rows, espacio, fecha, inicio, fin) ==>
      forall i :: 0 <= i < |rows| && rows[i].espacio == espacio && rows[i].fecha == fecha ==>
        !ShareSecond(rows[i].horaInicio, rows[i].horaFin, inicio, fin)
  {
    exists i :: 0 <= i < |rows| && Conflicts(rows[i], espacio, fecha, inicio, fin)
  }

  /** No two rows for the same space and date pass the overlap comparison. */
  ghost predicate NoOverlap(rows: seq<Reserva>)
  {
    forall i, j :: 0 <= i < j < |rows| && rows[i].espacio == rows[j].espacio && rows[i].fecha == rows[j].fecha ==>
      !Overlaps(rows[i].horaInicio, rows[i].horaFin, rows[j].horaInicio, rows[j].horaFin)
  }

  /** In a table without overlaps, no two rows of the same space and date share a second. */
  lemma NoOverlapIsDisjoint(rows: seq<Reserva>)
    requires NoOverlap(rows)
    ensures forall i, j :: 0 <= i < j < |rows| && rows[i].espacio == rows[j].espacio && rows[i].fecha == rows[j].fecha ==>
      !ShareSecond(rows[i].horaInicio, rows[i].horaFin, rows[j].horaInicio, rows[j].horaFin)
  {
    forall i, j | 0 <= i < j < |rows| && rows[i].espacio == rows[j].espacio && rows[i].fecha == rows[j].fecha
      ensures !ShareSecond(rows[i].horaInicio, rows[i].horaFin, rows[j].horaInicio, rows[j].horaFin)
    {
      OverlapsIsSharing(rows[i].horaInicio, rows[i].horaFin, rows[j].horaInicio, rows[j].horaFin);
    }
  }

  /**
   * For a stored row and a block that both start before they end, the row
   * conflicts exactly when it is on the same space and date and shares a
   * second with the block.
   */
  lemma ConflictIsOverlap(r: Reserva, espacio: EspacioId, fecha: Fecha, inicio: Time, fin: Time)
    ensures r.horaInicio < r.horaFin && inicio < fin ==>
      (Conflicts(r, espacio, fecha, inicio, fin) <==>
       r.espacio == espacio && r.fecha == fecha && ShareSecond(r.horaInicio, r.horaFin, inicio, fin))
  {
    OverlapsIsSharing(r.horaInicio, r.horaFin, inicio, fin);
  }

  /**
   * Rows that do not start before they end still block requests: an empty
   * 10:00-10:00 row blocks 09:00-11:00 and a reversed 11:00-09:00 row blocks
   * 08:00-12:00, though neither shares a second with the request.
   */
  lemma DegenerateRowsBlock(empty: Reserva, reversed: Reserva, espacio: EspacioId, fecha: Fecha)
    requires empty.espacio == espacio && empty.fecha == fecha
    requires empty.horaInicio == 10 * 3600 && empty.horaFin == 10 * 3600
    requires reversed.espacio == espacio && reversed.fecha == fecha
    requires reversed.horaInicio == 11 * 3600 && reversed.horaFin == 9 * 3600
    ensures Conflicts(empty, espacio, fecha, 9 * 3600, 11 * 3600)
    ensures !ShareSecond(empty.horaInicio, empty.horaFin, 9 * 3600, 11 * 3600)
    ensures Conflicts(reversed, espacio, fecha, 8 * 3600, 12 * 3600)
    ensures !ShareSecond(reversed.horaInicio, reversed.horaFin, 8 * 3600, 12 * 3600)
  {
  }

  /**
   * Blocks that are apart or only touch (one ends no later than the other
   * starts) do not conflict, even for a single stored row.
   */
  lemma SeparateDoNotConflict(r: Reserva, espacio: EspacioId, fecha: Fecha, inicio: Time, fin: Time)
    requires r.horaFin <= inicio || fin <= r.horaInicio
    ensures !Conflicts(r, espacio, fecha, inicio, fin)
    ensures !HasConflict([r], espacio, fecha, inicio, fin)
  {
    assert [r][0] == r;
  }

  /** The POST fields the branch reads; None where the field is absent. */
  datatype Peticion = Peticion(
    espacio: Option<EspacioId>,          // `espacio`, as the id Django converts it to
    fecha: Option<string>,               // `fecha`
    bloqueHorario: Option<string>,       // `bloque_horario`
    nombreVisitante: Option<string>,
    placaVisitante: Option<string>,
    empresaVisitante: Option<string>)

  /** Why a submission stored nothing. */
  datatype Rechazo =
    | BloqueMalformado        // ValueError from split or strptime at lines 87-89, raised outside the try
    | EspacioInexistente      // Espacio.objects.get raised, caught at line 129
    | FechaInvalida           // strptime of the date raised, caught at line 129
    | BloqueAusente           // no usable token: the times are unbound when the query is built, caught at line 129
    | Conflicto               // the conflict query found a row

  datatype Resultado = Creada(reserva: Reserva) | Rechazada(motivo: Rechazo)

  /**
   * What one POST does, in the order the code runs: the block token first
   * (outside the try), then the space lookup, the date, the block times
   * themselves, the conflict query and finally the insert. `oficina` is the
   * requesting office and `now` the clock reading `auto_now_add` stores.
   */
  function Decide(oficina: OficinaId, espacios: map<EspacioId, Espacio>, rows: seq<Reserva>, p: Peticion, now: int): (o: Resultado)
    ensures o.Creada? ==> o.reserva.espacio in espacios && ValidFecha(o.reserva.fecha)
    ensures o.Creada? ==> !HasConflict(rows, o.reserva.espacio, o.reserva.fecha, o.reserva.horaInicio, o.reserva.horaFin)
  {
    var bloque := ParseBlock(p.bloqueHorario);
    if bloque.Malformed? then Rechazada(BloqueMalformado)
    else if p.espacio.None? || p.espacio.value !in espacios then Rechazada(EspacioInexistente)
    else if p.fecha.None? || ParseDate(p.fecha.value).None? then Rechazada(FechaInvalida)
    else if bloque.NoBlock? then Rechazada(BloqueAusente)
    else
      var espacio, fecha := p.espacio.value, ParseDate(p.fecha.value).value;
      if HasConflict(rows, espacio, fecha, bloque.inicio, bloque.fin) then Rechazada(Conflicto)
      else
        Creada(Reserva(oficina, espacio, fecha, bloque.inicio, bloque.fin, now,
                       p.nombreVisitante.GetOr(""), p.placaVisitante.GetOr(""), p.empresaVisitante.GetOr("")))
  }

  /**
   * A submission creates a reservation exactly when the token reads as a
   * block, the space exists and the date parses, and no row for that space
   * and date overlaps the block. The new row carries the request's office,
   * space, date and times, the clock reading, and the visitor fields with ''
   * for the absent ones. Nothing about the space (active or not, whose
   * parking) or the order of the two times is checked.
   */
  lemma CreatedIff(oficina: OficinaId, espacios: map<EspacioId, Espacio>, rows: seq<Reserva>, p: Peticion, now: int)
    ensures Decide(oficina, espacios, rows, p, now).Creada? <==>
      && ParseBlock(p.bloqueHorario).Block?
      && p.espacio.Some? && p.espacio.value in espacios
      && p.fecha.Some? && ParseDate(p.fecha.value).Some?
      && !HasConflict(rows, p.espacio.value, ParseDate(p.fecha.value).value,
                      ParseBlock(p.bloqueHorario).inicio, ParseBlock(p.bloqueHorario).fin)
    ensures Decide(oficina, espacios, rows, p, now).Creada? ==>
      var r := Decide(oficina, espacios, rows, p, now).reserva;
      && r.oficina == oficina && r.espacio == p.espacio.value
      && Some(r.fecha) == ParseDate(p.fecha.value)
      && Block(r.horaInicio, r.horaFin) == ParseBlock(p.bloqueHorario)
      && r.fechaCreacion == now
      && r.nombreVisitante == (if p.nombreVisitante.Some? then p.nombreVisitante.value else "")
      && r.placaVisitante == (if p.placaVisitante.Some? then p.placaVisitante.value else "")
      && r.empresaVisitante == (if p.empresaVisitante.Some? then p.empresaVisitante.value else "")
  {
    var o := Decide(oficina, espacios, rows, p, now);
    var b := ParseBlock(p.bloqueHorario);
    if b.Malformed? {
      assert o == Rechazada(BloqueMalformado);
    } else if p.espacio.None? || p.espacio.value !in espacios {
      assert o == Rechazada(EspacioInexistente);
    } else if p.fecha.None? || ParseDate(p.fecha.value).None? {
      assert o == Rechazada(FechaInvalida);
    } else if b.NoBlock? {
      assert o == Rechazada(BloqueAusente);
    } else {
      var fecha := ParseDate(p.fecha.value).value;
      if HasConflict(rows, p.espacio.value, fecha, b.inicio, b.fin) {
        assert o == Rechazada(Conflicto);
      } else {
        assert o == Creada(Reserva(oficina, p.espacio.value, fecha, b.inicio, b.fin, now,
                                   p.nombreVisitante.GetOr(""), p.placaVisitante.GetOr(""), p.empresaVisitante.GetOr("")));
      }
    }
  }

  /**
   * Each rejection names its cause: the first malformed input in the order
   * the code meets them, or a conflicting row. Malformed input, an unknown
   * space and a conflict are the only causes.
   */
  lemma RejectionCauses(oficina: OficinaId, espacios: map<EspacioId, Espacio>, rows: seq<Reserva>, p: Peticion, now: int)
    ensures Decide(oficina, espacios, rows, p, now) == Rechazada(BloqueMalformado) <==> ParseBlock(p.bloqueHorario).Malformed?
    ensures Decide(oficina, espacios, rows, p, now) == Rechazada(EspacioInexistente) <==>
      !ParseBlock(p.bloqueHorario).Malformed? && (p.espacio.None? || p.espacio.value !in espacios)
    ensures Decide(oficina, espacios, rows, p, now) == Rechazada(FechaInvalida) <==>
      && !ParseBlock(p.bloqueHorario).Malformed? && p.espacio.Some? && p.espacio.value in espacios
      && (p.fecha.None? || ParseDate(p.fecha.value).None?)
    ensures Decide(oficina, espacios, rows, p, now) == Rechazada(BloqueAusente) <==>
      && ParseBlock(p.bloqueHorario).NoBlock? && p.espacio.Some? && p.espacio.value in espacios
      && p.fecha.Some? && ParseDate(p.fecha.value).Some?
    ensures Decide(oficina, espacios, rows, p, now) == Rechazada(Conflicto) <==>
      && ParseBlock(p.bloqueHorario).Block? && p.espacio.Some? && p.espacio.value in espacios
      && p.fecha.Some? && ParseDate(p.fecha.value).Some?
      && HasConflict(rows, p.espacio.value, ParseDate(p.fecha.value).value,
                     ParseBlock(p.bloqueHorario).inicio, ParseBlock(p.bloqueHorario).fin)
    ensures Decide(oficina, espacios, rows, p, now) == Rechazada(Conflicto) ==>
      exists i :: 0 <= i < |rows| && rows[i].espacio == p.espacio.value && Some(rows[i].fecha) == ParseDate(p.fecha.value)
  {
  }

  /** A token without a usable block never creates anything, whatever else was posted. */
  lemma MissingOrBadBlockRejected(oficina: OficinaId, espacios: map<EspacioId, Espacio>, rows: seq<Reserva>, p: Peticion, now: int)
    requires p.bloqueHorario.None? || '-' !in p.bloqueHorario.value || |Split(p.bloqueHorario.value, '-')| != 2
             || ParseTime(Split(p.bloqueHorario.value, '-')[0]).None?
             || ParseTime(Split(p.bloqueHorario.value, '-')[1]).None?
    ensures Decide(oficina, espacios, rows, p, now).Rechazada?
  {
  }

  /** A row of any office that overlaps the block on the same space and date blocks the submission. */
  lemma AnyOverlapBlocks(oficina: OficinaId, espacios: map<EspacioId, Espacio>, rows: seq<Reserva>, p: Peticion, now: int, k: nat)
    requires ParseBlock(p.bloqueHorario).Block? && p.fecha.Some? && ParseDate(p.fecha.value).Some?
    requires k < |rows| && p.espacio == Some(rows[k].espacio) && rows[k].espacio in espacios
    requires Some(rows[k].fecha) == ParseDate(p.fecha.value)
    requires Overlaps(rows[k].horaInicio, rows[k].horaFin, ParseBlock(p.bloqueHorario).inicio, ParseBlock(p.bloqueHorario).fin)
    ensures Decide(oficina, espacios, rows, p, now) == Rechazada(Conflicto)
  {
    var b := ParseBlock(p.bloqueHorario);
    assert Conflicts(rows[k], rows[k].espacio, rows[k].fecha, b.inicio, b.fin);
    RejectionCauses(oficina, espacios, rows, p, now);
  }

  /** A reservation created against a table without overlaps leaves it without overlaps. */
  lemma {:induction false} CreationKeepsNoOverlap(oficina: OficinaId, espacios: map<EspacioId, Espacio>, rows: seq<Reserva>, p: Peticion, now: int)
    requires NoOverlap(rows)
    ensures Decide(oficina, espacios, rows, p, now).Creada? ==>
      NoOverlap(rows + [Decide(oficina, espacios, rows, p, now).reserva])
  {
    var o := Decide(oficina, espacios, rows, p, now);
    if o.Creada? {
      var r, all := o.reserva, rows + [o.reserva];
      forall i, j | 0 <= i < j < |all| && all[i].espacio == all[j].espacio && all[i].fecha == all[j].fecha
        ensures !Overlaps(all[i].horaInicio, all[i].horaFin, all[j].horaInicio, all[j].horaFin)
      {
        if j == |rows| {
          assert all[i] == rows[i] && all[j] == r;
          assert !Conflicts(rows[i], r.espacio, r.fecha, r.horaInicio, r.horaFin);
        } else {
          assert all[i] == rows[i] && all[j] == rows[j];
        }
      }
    }
  }

  /** The request a form submits for the catalog entry `b`, on space `espacio` and date `fecha`. */
  function CatalogRequest(espacio: EspacioId, fecha: string, b: Bloque): Peticion
  {
    Peticion(Some(espacio), Some(fecha), Some(Token(b)), None, None, None)
  }

  /**
   * A block list laid out like each catalog category (see
   * `Blocks.CatalogWellFormed`): a block already booked on a space and date
   * is refused to a second request for it.
   */
  lemma CatalogBlockTakenOnce(oficina: OficinaId, espacios: map<EspacioId, Espacio>, existing: Reserva, fecha: string,
                              now: int, bs: seq<Bloque>, i: nat)
    requires EntriesParse(bs) && i < |bs|
    requires existing.espacio in espacios && ParseDate(fecha) == Some(existing.fecha)
    requires Reading(bs[i]) == Block(existing.horaInicio, existing.horaFin)
    ensures Decide(oficina, espacios, [existing], CatalogRequest(existing.espacio, fecha, bs[i]), now) == Rechazada(Conflicto)
  {
    var rows := [existing];
    assert rows[0] == existing;
    AnyOverlapBlocks(oficina, espacios, rows, CatalogRequest(existing.espacio, fecha, bs[i]), now, 0);
  }

  /** Two different blocks of an ordered block list do not conflict. */
  lemma OrderedBlocksDoNotConflict(bs: seq<Bloque>, i: nat, j: nat, r: Reserva)
    requires EntriesParse(bs) && Ordered(bs) && i < |bs| && j < |bs| && i != j
    requires Reading(bs[i]) == Block(r.horaInicio, r.horaFin)
    ensures !HasConflict([r], r.espacio, r.fecha, Reading(bs[j]).inicio, Reading(bs[j]).fin)
  {
    var bi, bj := Reading(bs[i]), Reading(bs[j]);
    assert bi.fin <= bj.inicio || bj.fin <= bi.inicio by {
      if i < j {
        assert Reading(bs[i]).fin <= Reading(bs[j]).inicio;
      } else {
        assert Reading(bs[j]).fin <= Reading(bs[i]).inicio;
      }
    }
    SeparateDoNotConflict(r, r.espacio, r.fecha, bj.inicio, bj.fin);
  }

  /**
   * In a block list laid out like each catalog category, two different
   * blocks never collide: with one of them booked on a space and date, a
   * request for another is created.
   */
  lemma CatalogBlocksCoexist(oficina: OficinaId, espacios: map<EspacioId, Espacio>, existing: Reserva, fecha: string,
                             now: int, bs: seq<Bloque>, i: nat, j: nat)
    requires EntriesParse(bs) && Ordered(bs) && i < |bs| && j < |bs| && i != j
    requires existing.espacio in espacios && ParseDate(fecha) == Some(existing.fecha)
    requires Reading(bs[i]) == Block(existing.horaInicio, existing.horaFin)
    ensures Decide(oficina, espacios, [existing], CatalogRequest(existing.espacio, fecha, bs[j]), now).Creada?
  {
    OrderedBlocksDoNotConflict(bs, i, j, existing);
    CreatedIff(oficina, espacios, [existing], CatalogRequest(existing.espacio, fecha, bs[j]), now);
  }

  /** A block that ends before it starts is stored all the same. */
  lemma ReversedBlockStored(oficina: OficinaId, espacios: map<EspacioId, Espacio>, espacio: EspacioId, fecha: string, now: int,
                            reversed: string)
    requires espacio in espacios && ParseDate(fecha).Some?
    requires reversed == "11:00-09:00"
    ensures var o := Decide(oficina, espacios, [], Peticion(Some(espacio), Some(fecha), Some(reversed), None, None, None), now);
            o.Creada? && o.reserva.horaInicio == 11 * 3600 && o.reserva.horaFin == 9 * 3600
  {
    var p := Peticion(Some(espacio), Some(fecha), Some(reversed), None, None, None);
    assert ParseBlock(p.bloqueHorario) == Block(11 * 3600, 9 * 3600) by {
      ReadToken(reversed, 11, 0, 9, 0);
    }
    CreatedIff(oficina, espacios, [], p, now);
  }

  /** The reservation table. */
  class Database {
    var espacios: map<EspacioId, Espacio>
    var reservas: seq<Reserva>

    constructor (espacios: map<EspacioId, Espacio>)
      ensures this.espacios == espacios && reservas == []
    {
      this.espacios := espacios;
      reservas := [];
    }

    /**
     * The POST branch of `nueva_reserva` for office `oficina` at clock
     * reading `now`: stores at most one reservation, exactly the one Decide
     * describes, and leaves every existing row and the space table as they
     * were.
     */
    method NuevaReserva(oficina: OficinaId, p: Peticion, now: int) returns (o: Resultado)
      modifies this`reservas
      ensures o == Decide(oficina, espacios, old(reservas), p, now)
      ensures reservas == if o.Creada? then old(reservas) + [o.reserva] else old(reservas)
      ensures old(NoOverlap(reservas)) ==> NoOverlap(reservas)
    {
      // lines 86-91: the block token, outside the try
      var bloque := ParseBlock(p.bloqueHorario);
      if bloque.Malformed? {
        return Rechazada(BloqueMalformado);
      }
      var nombre := p.nombreVisitante.GetOr("");
      var placa := p.placaVisitante.GetOr("");
      var empresa := p.empresaVisitante.GetOr("");
      // lines 99-130: the try
      if p.espacio.None? || p.espacio.value !in espacios {
        return Rechazada(EspacioInexistente);
      }
      var espacio := p.espacio.value;
      var fecha := if p.fecha.Some? then ParseDate(p.fecha.value) else None;
      if fecha.None? {
        return Rechazada(FechaInvalida);
      }
      if bloque.NoBlock? {
        return Rechazada(BloqueAusente);
      }
      var conflicto := HasConflict(reservas, espacio, fecha.value, bloque.inicio, bloque.fin);
      if conflicto {
        o := Rechazada(Conflicto);
      } else {
        var r := Reserva(oficina, espacio, fecha.value, bloque.inicio, bloque.fin, now, nombre, placa, empresa);
        assert Decide(oficina, espacios, reservas, p, now) == Creada(r);
        if NoOverlap(reservas) {
          CreationKeepsNoOverlap(oficina, espacios, reservas, p, now);
        }
        reservas := reservas + [r];
        o := Creada(r);
      }
    }
  }
}
