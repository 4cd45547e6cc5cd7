/**
 * Time blocks in reservas/views.py: the `bloque_horario` token a booking
 * form submits, how `nueva_reserva` reads it, and the fixed per-category
 * block catalog `horarios_bloques` the form is built from.
 */
module Blocks {
  import opened Wrappers
  import opened Strptime
  import opened Models

  /** What the opening lines of the POST branch make of the posted block token. */
  datatype BlockToken =
    | NoBlock                           // absent, empty or without '-': an error message, the times stay unbound
    | Malformed                         // split or strptime raised ValueError, outside any try
    | Block(inicio: Time, fin: Time)

  /**
   * Reads `"HH:MM-HH:MM"`: a token with a '-' must split into exactly two
   * pieces and each must be a `%H:%M` time. Nothing relates the two times.
   */
  function ParseBlock(token: Option<string>): (b: BlockToken)
    ensures b.NoBlock? <==> token.None? || '-' !in token.value
    ensures b.Block? <==>
      && token.Some? && '-' in token.value && |Split(token.value, '-')| == 2
      && ParseTime(Split(token.value, '-')[0]).Some? && ParseTime(Split(token.value, '-')[1]).Some?
    ensures b.Block? ==> Some(b.inicio) == ParseTime(Split(token.value, '-')[0])
    ensures b.Block? ==> Some(b.fin) == ParseTime(Split(token.value, '-')[1])
  {
    // an empty token is falsy in Python, and it has no '-' either
    if token.None? || '-' !in token.value then NoBlock
    else
      var parts := Split(token.value, '-');
      if |parts| != 2 then Malformed
      else
        match (ParseTime(parts[0]), ParseTime(parts[1]))
        case (Some(inicio), Some(fin)) => Block(inicio, fin)
        case _ => Malformed
  }

  /** The token that names the block from `inicio` to `fin`. */
  function BlockSpelling(inicio: Time, fin: Time): string
  {
    FormatTime(inicio) + "-" + FormatTime(fin)
  }

  /** Every pair of whole-minute times, written `HH:MM-HH:MM`, is read back as that block. */
  lemma ParseBlockSpelling(inicio: Time, fin: Time)
    requires inicio % 60 == 0 && fin % 60 == 0
    ensures ParseBlock(Some(BlockSpelling(inicio, fin))) == Block(inicio, fin)
  {
    var a, b := FormatTime(inicio), FormatTime(fin);
    assert '-' !in a && '-' !in b;
    SplitJoin([a, b], '-');
    assert Join([a, b], '-') == BlockSpelling(inicio, fin);
    ParseFormatTime(inicio);
    ParseFormatTime(fin);
  }

  /** A five-character `HH:MM` spelling of hour `h` and minute `m`. */
  predicate Spells(s: string, h: nat, m: nat)
  {
    && |s| == 5 && s[2] == ':'
    && IsDigit(s[0]) && IsDigit(s[1]) && IsDigit(s[3]) && IsDigit(s[4])
    && h == DigitValue(s[0]) * 10 + DigitValue(s[1]) && h <= 23
    && m == DigitValue(s[3]) * 10 + DigitValue(s[4]) && m <= 59
  }

  /** A five-character `HH:MM` string is read as the time it spells. */
  lemma ReadTime(s: string, h: nat, m: nat)
    requires Spells(s, h, m)
    ensures ParseTime(s) == Some(h * 3600 + m * 60)
    ensures '-' !in s
  {
    var hh, mm := s[..2], s[3..];
    NumberOfTwo(hh);
    NumberOfTwo(mm);
    assert s == Join([hh, mm], ':');
    SplitJoin([hh, mm], ':');
  }

  /** An eleven-character token `HH:MM-HH:MM` is read as the block it spells. */
  lemma ReadToken(token: string, h0: nat, m0: nat, h1: nat, m1: nat)
    requires |token| == 11 && token[5] == '-'
    requires Spells(token[..5], h0, m0) && Spells(token[6..], h1, m1)
    ensures ParseBlock(Some(token)) == Block(h0 * 3600 + m0 * 60, h1 * 3600 + m1 * 60)
  {
    ReadTime(token[..5], h0, m0);
    ReadTime(token[6..], h1, m1);
    assert token == Join([token[..5], token[6..]], '-');
    SplitJoin([token[..5], token[6..]], '-');
  }

  // ------------------------------------------------------------ the catalog

  /** One entry of `horarios_bloques`; `caption` holds its `label`. */
  datatype Bloque = Bloque(inicio: string, fin: string, caption: string)

  /** The `directorio` entry of `horarios_bloques`: two-hour blocks with breaks between them. */
  const DirectorioBloques: seq<Bloque> := [
    Bloque("08:00", "10:00", "8:00 AM - 10:00 AM"),
    Bloque("10:15", "12:15", "10:15 AM - 12:15 PM"),
    Bloque("13:00", "15:00", "1:00 PM - 3:00 PM"),
    Bloque("15:15", "17:15", "3:15 PM - 5:15 PM")
  ]

  /** The `sala` entry: back-to-back one-hour blocks. */
  const SalaBloques: seq<Bloque> := [
    Bloque("08:00", "09:00", "8:00 AM - 9:00 AM"),
    Bloque("09:00", "10:00", "9:00 AM - 10:00 AM"),
    Bloque("10:00", "11:00", "10:00 AM - 11:00 AM")
  ]

  /** The `terraza` entry: two-hour blocks, two in the morning and two in the afternoon. */
  const TerrazaBloques: seq<Bloque> := [
    Bloque("08:00", "10:00", "8:00 AM - 10:00 AM"),
    Bloque("10:00", "12:00", "10:00 AM - 12:00 PM"),
    Bloque("14:00", "16:00", "2:00 PM - 4:00 PM"),
    Bloque("16:00", "18:00", "4:00 PM - 6:00 PM")
  ]

  /** `horarios_bloques`: blocks for three categories; parking and dining have no entry. */
  const HorariosBloques: map<Tipo, seq<Bloque>> :=
    map[Directorio := DirectorioBloques, Sala := SalaBloques, Terraza := TerrazaBloques]

  /** The token a catalog entry is submitted as: `inicio-fin`. */
  function Token(b: Bloque): string
  {
    b.inicio + "-" + b.fin
  }

  /** How the booking path reads a catalog entry. */
  function Reading(b: Bloque): BlockToken
  {
    ParseBlock(Some(Token(b)))
  }

  /** Every entry is read as a block that starts before it ends. */
  ghost predicate EntriesParse(bs: seq<Bloque>)
  {
    forall i :: 0 <= i < |bs| ==> Reading(bs[i]).Block? && Reading(bs[i]).inicio < Reading(bs[i]).fin
  }

  /** Each entry ends no later than any later one starts: increasing and pairwise disjoint. */
  ghost predicate Ordered(bs: seq<Bloque>)
    requires EntriesParse(bs)
  {
    forall i, j :: 0 <= i < j < |bs| ==> Reading(bs[i]).fin <= Reading(bs[j]).inicio
  }

  /** Every entry is `hours` long. */
  ghost predicate Lasting(bs: seq<Bloque>, hours: nat)
    requires EntriesParse(bs)
  {
    forall i :: 0 <= i < |bs| ==> Reading(bs[i]).fin - Reading(bs[i]).inicio == hours * SecondsPerHour
  }

  /** Each entry starts where the previous one ends. */
  ghost predicate Contiguous(bs: seq<Bloque>)
    requires EntriesParse(bs)
  {
    forall i :: 0 < i < |bs| ==> Reading(bs[i - 1]).fin == Reading(bs[i]).inicio
  }

  /** A catalog entry whose two strings spell `h0:m0` and `h1:m1` is read as the block between them. */
  lemma ReadsAs(b: Bloque, h0: nat, m0: nat, h1: nat, m1: nat)
    requires Spells(b.inicio, h0, m0) && Spells(b.fin, h1, m1)
    ensures Reading(b) == Block(h0 * 3600 + m0 * 60, h1 * 3600 + m1 * 60)
  {
    var t := Token(b);
    assert t[..5] == b.inicio && t[6..] == b.fin;
    ReadToken(t, h0, m0, h1, m1);
  }

  /** Neighbouring entries in order put every earlier entry before every later one. */
  lemma {:induction false} NeighboursChain(bs: seq<Bloque>, i: nat, j: nat)
    requires EntriesParse(bs)
    requires forall k :: 0 < k < |bs| ==> Reading(bs[k - 1]).fin <= Reading(bs[k]).inicio
    requires i < j < |bs|
    ensures Reading(bs[i]).fin <= Reading(bs[j]).inicio
    decreases j
  {
    if i + 1 < j {
      NeighboursChain(bs, i, j - 1);
      assert Reading(bs[j - 1]).inicio < Reading(bs[j - 1]).fin;
    }
  }

  /** Neighbouring entries in order make the whole list ordered. */
  lemma OrderedByNeighbours(bs: seq<Bloque>)
    requires EntriesParse(bs)
    requires forall i :: 0 < i < |bs| ==> Reading(bs[i - 1]).fin <= Reading(bs[i]).inicio
    ensures Ordered(bs)
  {
    forall i, j | 0 <= i < j < |bs| ensures Reading(bs[i]).fin <= Reading(bs[j]).inicio {
      NeighboursChain(bs, i, j);
    }
  }

  // The catalog's strings read as numbers: (start hour, start minute, end hour, end minute) per entry.
  // The proofs below check each string against its row and then reason about the rows.

  type Clock = (nat, nat, nat, nat)

  ghost const DirectorioClock: seq<Clock> := [(8, 0, 10, 0), (10, 15, 12, 15), (13, 0, 15, 0), (15, 15, 17, 15)]
  ghost const SalaClock: seq<Clock> := [(8, 0, 9, 0), (9, 0, 10, 0), (10, 0, 11, 0)]
  ghost const TerrazaClock: seq<Clock> := [(8, 0, 10, 0), (10, 0, 12, 0), (14, 0, 16, 0), (16, 0, 18, 0)]

  predicate ClockValid(c: Clock)
  {
    c.0 <= 23 && c.1 <= 59 && c.2 <= 23 && c.3 <= 59
  }

  /** The block a clock row describes. */
  ghost function ClockBlock(c: Clock): BlockToken
    requires ClockValid(c)
  {
    Block(c.0 * 3600 + c.1 * 60, c.2 * 3600 + c.3 * 60)
  }

  /** Each catalog entry is read as the block its clock row describes. */
  ghost predicate ReadAsClock(bs: seq<Bloque>, clock: seq<Clock>)
  {
    |bs| == |clock| && forall i :: 0 <= i < |bs| ==> ClockValid(clock[i]) && Reading(bs[i]) == ClockBlock(clock[i])
  }

  /** Clock rows each `hours` long, each ending no later than the next one starts. */
  ghost predicate ClockOrdered(clock: seq<Clock>, hours: nat)
  {
    && (forall i :: 0 <= i < |clock| ==> clock[i].2 * 60 + clock[i].3 == clock[i].0 * 60 + clock[i].1 + hours * 60)
    && (forall i :: 0 < i < |clock| ==> clock[i - 1].2 * 60 + clock[i - 1].3 <= clock[i].0 * 60 + clock[i].1)
  }

  /** What is true of the clock rows is true of the blocks the catalog is read as. */
  lemma FromClock(bs: seq<Bloque>, clock: seq<Clock>, hours: nat)
    requires hours > 0 && ReadAsClock(bs, clock) && ClockOrdered(clock, hours)
    ensures EntriesParse(bs) && Ordered(bs) && Lasting(bs, hours)
    ensures (forall i :: 0 < i < |clock| ==> clock[i - 1].2 == clock[i].0 && clock[i - 1].3 == clock[i].1) ==> Contiguous(bs)
  {
    forall i | 0 <= i < |bs|
      ensures Reading(bs[i]).Block? && Reading(bs[i]).fin - Reading(bs[i]).inicio == hours * SecondsPerHour
    {
      ClockRowLength(clock[i], hours);
    }
    forall i | 0 < i < |bs|
      ensures Reading(bs[i - 1]).fin <= Reading(bs[i]).inicio
    {
      ClockRowsInOrder(clock[i - 1], clock[i]);
    }
    OrderedByNeighbours(bs);
  }

  /** A clock row `hours` long describes a block `hours` long. */
  lemma ClockRowLength(c: Clock, hours: nat)
    requires ClockValid(c) && c.2 * 60 + c.3 == c.0 * 60 + c.1 + hours * 60
    ensures ClockBlock(c).fin - ClockBlock(c).inicio == hours * SecondsPerHour
  {
    assert ClockBlock(c).fin == (c.2 * 60 + c.3) * 60;
    assert ClockBlock(c).inicio == (c.0 * 60 + c.1) * 60;
  }

  /** A clock row ending no later than the next starts describes a block ending no later than the next starts. */
  lemma ClockRowsInOrder(p: Clock, c: Clock)
    requires ClockValid(p) && ClockValid(c) && p.2 * 60 + p.3 <= c.0 * 60 + c.1
    ensures ClockBlock(p).fin <= ClockBlock(c).inicio
  {
    assert ClockBlock(p).fin == (p.2 * 60 + p.3) * 60;
    assert ClockBlock(c).inicio == (c.0 * 60 + c.1) * 60;
  }

  lemma DirectorioAt(i: nat)
    requires i < |DirectorioBloques|
    ensures i < |DirectorioClock| && ClockValid(DirectorioClock[i]) && Reading(DirectorioBloques[i]) == ClockBlock(DirectorioClock[i])
  {
    var b, c := DirectorioBloques[i], DirectorioClock[i];
    assert Spells(b.inicio, c.0, c.1) && Spells(b.fin, c.2, c.3) by {
      if i == 0 {} else if i == 1 {} else if i == 2 {} else {}
    }
    ReadsAs(b, c.0, c.1, c.2, c.3);
  }

  lemma SalaAt(i: nat)
    requires i < |SalaBloques|
    ensures i < |SalaClock| && ClockValid(SalaClock[i]) && Reading(SalaBloques[i]) == ClockBlock(SalaClock[i])
  {
    var b, c := SalaBloques[i], SalaClock[i];
    assert Spells(b.inicio, c.0, c.1) && Spells(b.fin, c.2, c.3) by {
      if i == 0 {} else if i == 1 {} else {}
    }
    ReadsAs(b, c.0, c.1, c.2, c.3);
  }

  lemma TerrazaAt(i: nat)
    requires i < |TerrazaBloques|
    ensures i < |TerrazaClock| && ClockValid(TerrazaClock[i]) && Reading(TerrazaBloques[i]) == ClockBlock(TerrazaClock[i])
  {
    var b, c := TerrazaBloques[i], TerrazaClock[i];
    assert Spells(b.inicio, c.0, c.1) && Spells(b.fin, c.2, c.3) by {
      if i == 0 {} else if i == 1 {} else if i == 2 {} else {}
    }
    ReadsAs(b, c.0, c.1, c.2, c.3);
  }

  lemma DirectorioReadAsClock()
    ensures ReadAsClock(DirectorioBloques, DirectorioClock)
  {
    forall i | 0 <= i < |DirectorioBloques|
      ensures ClockValid(DirectorioClock[i]) && Reading(DirectorioBloques[i]) == ClockBlock(DirectorioClock[i])
    {
      DirectorioAt(i);
    }
  }

  lemma SalaReadAsClock()
    ensures ReadAsClock(SalaBloques, SalaClock)
  {
    forall i | 0 <= i < |SalaBloques|
      ensures ClockValid(SalaClock[i]) && Reading(SalaBloques[i]) == ClockBlock(SalaClock[i])
    {
      SalaAt(i);
    }
  }

  lemma TerrazaReadAsClock()
    ensures ReadAsClock(TerrazaBloques, TerrazaClock)
  {
    forall i | 0 <= i < |TerrazaBloques|
      ensures ClockValid(TerrazaClock[i]) && Reading(TerrazaBloques[i]) == ClockBlock(TerrazaClock[i])
    {
      TerrazaAt(i);
    }
  }

  /** The directorio clock entries last two hours each and do not overlap. */
  lemma DirectorioClockOrdered()
    ensures ClockOrdered(DirectorioClock, 2)
  {
  }

  /** The sala clock entries last one hour each, each starting where the previous ends. */
  lemma SalaClockOrdered()
    ensures ClockOrdered(SalaClock, 1)
    ensures forall i :: 0 < i < |SalaClock| ==> SalaClock[i - 1].2 == SalaClock[i].0 && SalaClock[i - 1].3 == SalaClock[i].1
  {
  }

  /** The terraza clock entries last two hours each and do not overlap. */
  lemma TerrazaClockOrdered()
    ensures ClockOrdered(TerrazaClock, 2)
  {
  }

  /** The directorio blocks are read as four increasing, disjoint two-hour blocks. */
  lemma DirectorioWellFormed()
    ensures EntriesParse(DirectorioBloques)
    ensures Ordered(DirectorioBloques)
    ensures Lasting(DirectorioBloques, 2)
  {
    DirectorioReadAsClock();
    DirectorioClockOrdered();
    FromClock(DirectorioBloques, DirectorioClock, 2);
  }

  /** The sala blocks are read as back-to-back one-hour blocks. */
  lemma SalaWellFormed()
    ensures EntriesParse(SalaBloques)
    ensures Ordered(SalaBloques)
    ensures Lasting(SalaBloques, 1)
    ensures Contiguous(SalaBloques)
  {
    SalaReadAsClock();
    SalaClockOrdered();
    FromClock(SalaBloques, SalaClock, 1);
  }

  /** The terraza blocks are read as four increasing, disjoint two-hour blocks. */
  lemma TerrazaWellFormed()
    ensures EntriesParse(TerrazaBloques)
    ensures Ordered(TerrazaBloques)
    ensures Lasting(TerrazaBloques, 2)
  {
    TerrazaReadAsClock();
    TerrazaClockOrdered();
    FromClock(TerrazaBloques, TerrazaClock, 2);
  }

  /**
   * The whole catalog: entries exist for sala, directorio and terraza only,
   * and in each every token is accepted by the booking path as a block that
   * starts before it ends, the blocks increasing and pairwise disjoint.
   */
  lemma CatalogWellFormed()
    ensures HorariosBloques.Keys == {Directorio, Sala, Terraza}
    ensures forall t :: t in HorariosBloques ==> EntriesParse(HorariosBloques[t]) && Ordered(HorariosBloques[t])
  {
    forall t | t in HorariosBloques
      ensures EntriesParse(HorariosBloques[t]) && Ordered(HorariosBloques[t])
    {
      if t == Directorio {
        assert HorariosBloques[t] == DirectorioBloques;
        DirectorioWellFormed();
      } else if t == Sala {
        assert HorariosBloques[t] == SalaBloques;
        SalaWellFormed();
      } else {
        assert HorariosBloques[t] == TerrazaBloques;
        TerrazaWellFormed();
      }
    }
  }
}
