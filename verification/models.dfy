/**
 * The records of reservas/models.py: the space categories and a space's
 * fields with their defaults, the reservation record, and
 * `Reserva.duracion_horas`.
 */
module Models {
  import opened Wrappers
  import opened Strptime

  /** Primary keys of `Oficina` and `Espacio`. */
  type OficinaId = int
  type EspacioId = int

  /** The category of a space, one value per entry of `Espacio.TIPOS`. */
  datatype Tipo = Sala | Directorio | Terraza | Estacionamiento | Comedor

  /** The value stored in the `tipo` column for each category. */
  function Code(t: Tipo): string
  {
    match t
    case Sala => "sala"
    case Directorio => "directorio"
    case Terraza => "terraza"
    case Estacionamiento => "estacionamiento"
    case Comedor => "comedor"
  }

  /** The human-readable name of each category. */
  function Label(t: Tipo): string
  {
    match t
    case Sala => "Sala"
    case Directorio => "Directorio"
    case Terraza => "Terraza"
    case Estacionamiento => "Estacionamiento"
    case Comedor => "Comedor"
  }

  /** `Espacio.TIPOS`, the (value, label) choices of the `tipo` field. */
  const Tipos: seq<(string, string)> := [
    ("sala", "Sala"),
    ("directorio", "Directorio"),
    ("terraza", "Terraza"),
    ("estacionamiento", "Estacionamiento"),
    ("comedor", "Comedor")
  ]

  /** `tipo` is a CharField of at most 20 characters. */
  const TipoMaxLength: nat := 20

  /** The category a stored `tipo` value names, if it is one of the choices. */
  function TipoFromCode(code: string): (r: Option<Tipo>)
    ensures r.Some? ==> Code(r.value) == code
  {
    if code == "sala" then Some(Sala)
    else if code == "directorio" then Some(Directorio)
    else if code == "terraza" then Some(Terraza)
    else if code == "estacionamiento" then Some(Estacionamiento)
    else if code == "comedor" then Some(Comedor)
    else None
  }

  /**
   * The choices list and the enumeration agree: every category appears in
   * it once with its code and label, its codes are exactly the values
   * TipoFromCode accepts, and every code fits the column.
   */
  lemma TiposAreTheCategories()
    ensures |Tipos| == 5
    ensures forall t: Tipo :: (Code(t), Label(t)) in Tipos && |Code(t)| <= TipoMaxLength
    ensures forall t: Tipo :: TipoFromCode(Code(t)) == Some(t)
    ensures forall code :: TipoFromCode(code).Some? <==> exists i :: 0 <= i < |Tipos| && Tipos[i].0 == code
    ensures forall i, j :: 0 <= i < j < |Tipos| ==> Tipos[i].0 != Tipos[j].0
  {
    forall code
      ensures TipoFromCode(code).Some? <==> exists i :: 0 <= i < |Tipos| && Tipos[i].0 == code
    {
      if TipoFromCode(code).Some? {
        match TipoFromCode(code).value
        case Sala => assert Tipos[0].0 == code;
        case Directorio => assert Tipos[1].0 == code;
        case Terraza => assert Tipos[2].0 == code;
        case Estacionamiento => assert Tipos[3].0 == code;
        case Comedor => assert Tipos[4].0 == code;
      }
    }
  }

  /** A space. `horariosPersonalizados` is a JSON list; its entries are kept as text. */
  datatype Espacio = Espacio(
    nombre: string,
    tipo: Tipo,
    activo: bool,
    esEstacionamientoVisita: bool,
    oficinaPropietaria: Option<OficinaId>,
    horariosPersonalizados: seq<string>,
    usarHorariosPersonalizados: bool)

  /** A space created with only its name and category given: every other field takes its default. */
  function NuevoEspacio(nombre: string, tipo: Tipo): (e: Espacio)
    ensures e.nombre == nombre && e.tipo == tipo
    ensures e.activo
    ensures !e.esEstacionamientoVisita
    ensures e.oficinaPropietaria.None?
    ensures e.horariosPersonalizados == []
    ensures !e.usarHorariosPersonalizados
  {
    Espacio(nombre, tipo, true, false, None, [], false)
  }

  /**
   * A reservation row. `fechaCreacion` is the `auto_now_add` timestamp,
   * the clock reading at creation, in seconds.
   */
  datatype Reserva = Reserva(
    oficina: OficinaId,
    espacio: EspacioId,
    fecha: Fecha,
    horaInicio: Time,
    horaFin: Time,
    fechaCreacion: int,
    nombreVisitante: string,
    placaVisitante: string,
    empresaVisitante: string)

  /** `datetime.combine(day, t)`, with `day` a day number, as seconds since that numbering's origin. */
  function Combine(day: int, t: Time): int
  {
    day * SecondsPerDay + t
  }

  /**
   * `timedelta.seconds` of a difference of `delta` seconds: a timedelta is
   * normalised to whole days plus a seconds part in [0, 86400).
   */
  function TimedeltaSeconds(delta: int): (s: int)
    ensures 0 <= s < SecondsPerDay
    ensures (delta - s) % SecondsPerDay == 0
  {
    delta % SecondsPerDay
  }

  /**
   * `Reserva.duracion_horas`: both ends combined with today's date (`today`,
   * a day number standing for `date.today()`), subtracted, and the seconds
   * part of the difference cut to whole hours.
   */
  function DuracionHoras(r: Reserva, today: int): (h: nat)
    ensures h <= 23
  {
    TimedeltaSeconds(Combine(today, r.horaFin) - Combine(today, r.horaInicio)) / SecondsPerHour
  }

  /** When the end is not before the start, the whole hours between them, partial hours dropped. */
  lemma DuracionForward(r: Reserva, today: int)
    requires r.horaInicio <= r.horaFin
    ensures DuracionHoras(r, today) == (r.horaFin - r.horaInicio) / SecondsPerHour
  {
    assert Combine(today, r.horaFin) - Combine(today, r.horaInicio) == r.horaFin - r.horaInicio;
  }

  /** When the end is before the start, the difference wraps around midnight. */
  lemma DuracionWraps(r: Reserva, today: int)
    requires r.horaFin < r.horaInicio
    ensures DuracionHoras(r, today) == (r.horaFin - r.horaInicio + SecondsPerDay) / SecondsPerHour
  {
    assert Combine(today, r.horaFin) - Combine(today, r.horaInicio) == r.horaFin - r.horaInicio;
  }

  /** The result depends on the two times only, not on the date they are combined with. */
  lemma DuracionIgnoresDate(r: Reserva, today: int, other: int)
    ensures DuracionHoras(r, today) == DuracionHoras(r, other)
  {
    assert Combine(today, r.horaFin) - Combine(today, r.horaInicio) == r.horaFin - r.horaInicio;
    assert Combine(other, r.horaFin) - Combine(other, r.horaInicio) == r.horaFin - r.horaInicio;
  }

  /** A block shorter than an hour, equal ends included, counts zero hours. */
  lemma DuracionEmpty(r: Reserva, today: int)
    requires r.horaInicio <= r.horaFin < r.horaInicio + SecondsPerHour
    ensures DuracionHoras(r, today) == 0
  {
    DuracionForward(r, today);
  }

  /** 09:00 to 10:59 counts one hour; 23:00 to 01:00 counts two. */
  lemma DuracionExamples(r: Reserva, s: Reserva, today: int)
    requires r.horaInicio == 9 * 3600 && r.horaFin == 10 * 3600 + 59 * 60
    requires s.horaInicio == 23 * 3600 && s.horaFin == 1 * 3600
    ensures DuracionHoras(r, today) == 1
    ensures DuracionHoras(s, today) == 2
  {
    DuracionForward(r, today);
    DuracionWraps(s, today);
  }
}
