# Building reservations: the booking path

This project models the core of a Django application that offices in a
building use to reserve shared spaces. The shared spaces are meeting rooms
(`sala`), the boardroom (`directorio`), the terrace (`terraza`), parking
(`estacionamiento`) and the dining room (`comedor`). The model covers:

- the POST branch of the `nueva_reserva` view. It reads the submitted block
  token `HH:MM-HH:MM` and the date `YYYY-MM-DD`, looks up the space, and
  refuses a block that overlaps an existing reservation of the same space on
  the same day. Otherwise it stores the new reservation;
- the filter that decides which spaces an office is offered;
- the fixed catalog of time blocks per category (`horarios_bloques`);
- the `Espacio` and `Reserva` records, their category list and field
  defaults, and `Reserva.duracion_horas`.

Files:

- `wrappers.dfy`: the `Option` type.
- `strptime.dfy`: what Python's `str.split` and `datetime.strptime` do with
  the formats `%H:%M` and `%Y-%m-%d`. Times are seconds since midnight;
  dates are `Fecha(year, month, day)` values, checked against the Gregorian
  calendar.
- `models.dfy`: the categories, the `Espacio` and `Reserva` records, and
  the duration in hours.
- `blocks.dfy`: reading the block token, and the block catalog.
- `visibility.dfy`: which spaces an office is offered.
- `booking.dfy`: the booking decision as a function (`Decide`), with its
  properties. `Database.NuevaReserva` is the imperative view method that
  appends to the stored reservations.

The view's outcomes are modelled as values of `Resultado`: a created
reservation, or one of five rejections. One rejection is a failure the view
does not catch, so the request ends in an error:

- `BloqueMalformado`: a token with a `-` that does not split into two `%H:%M`
  times raises `ValueError` before the `try`.

The other four rejections each show an error message and re-display the
form. Three of them are exceptions caught by the `except Exception` of the
`try`:

- `EspacioInexistente`: the space lookup fails.
- `FechaInvalida`: the date does not parse.
- `BloqueAusente`: a missing token or one without `-` leaves the times
  unbound. The first use of them inside the `try` raises `NameError`. This
  happens only after the space and the date have been accepted.

The fourth raises nothing:

- `Conflicto`: the overlap query finds a row. The `if conflicto:` branch
  shows its message, and the view falls through to render the form.

The view checks nothing beyond these conditions. It does not check that a
block's start precedes its end, that the space is active or offered to the
office, or who owns a parking spot. `ReversedBlockStored` proves that a
block such as `11:00-09:00` is stored as submitted, and
`DegenerateRowsBlock` shows that such a stored row, or an empty one, still
blocks requests it shares no second with.

## Model

| member | source | states |
|---|---|---|
| Strptime.Split | reservas/views.py:87 | `str.split` on one character: the pieces contain no separator, and joining them with it gives back the input |
| Strptime.SplitJoin | reservas/views.py:87 | splitting pieces that contain no separator, joined with it, gives back exactly those pieces |
| Strptime.ParseTime | reservas/views.py:88-89 | a `%H:%M` time is a whole minute of the day (seconds are always zero) |
| Strptime.ParseTimeFields | reservas/views.py:88-89 | a string with one `:` is read as a time exactly when the piece before it is one or two digits worth at most 23 and the piece after it one or two digits worth at most 59; the time is that hour and minute |
| Strptime.ParseTimeOneColon | reservas/views.py:88-89 | a string read as a time has three to five characters, exactly one of them a `:` |
| Strptime.ShortHourAccepted | reservas/views.py:88-89 | a single-digit hour is accepted: `9:05` is five past nine |
| Strptime.HourTwentyFourRefused | reservas/views.py:88-89 | `24:00` is not a time |
| Strptime.MinuteSixtyRefused | reservas/views.py:88-89 | `12:60` is not a time |
| Strptime.ParseFormatTime | reservas/views.py:88-89 | every time of day written `HH:MM` is read back as that time truncated to the minute |
| Strptime.ParseDate | reservas/views.py:101 | a date accepted by `%Y-%m-%d` is a real calendar date: year 1..9999, month 1..12, day within the month (leap years included) |
| Strptime.ParseDateFields | reservas/views.py:101 | a string with two `-` is read as a date exactly when its pieces spell a four-digit year, a month of one or two digits from 1 to 12, and a day of one or two digits (or a space and a digit), and those numbers name a real date; the date is the one they name |
| Strptime.ParseDateTwoDashes | reservas/views.py:101 | a string read as a date holds exactly two `-` |
| Strptime.ShortMonthDayAccepted | reservas/views.py:101 | `2024-1-5` is accepted as the 5th of January 2024 |
| Strptime.SpacedDayAccepted | reservas/views.py:101 | `2024-01- 5` is accepted as the 5th of January 2024 |
| Strptime.MonthThirteenRefused | reservas/views.py:101 | `2024-13-01` is not a date |
| Strptime.NonLeapDayRefused | reservas/views.py:101 | `2023-02-29` is not a date, since 2023 is not a leap year |
| Strptime.ParseFormatFecha | reservas/views.py:101 | every valid date written `YYYY-MM-DD` is read back as that date |
| Models.TipoFromCode | reservas/models.py:14-20 | a stored category code is mapped to the category with that code |
| Models.TiposAreTheCategories | reservas/models.py:14-23 | the category list has five entries with distinct codes; each category's code and label are in it and its code fits the 20-character column; a code is accepted exactly when it is in the list, and it maps back to its category |
| Models.NuevoEspacio | reservas/models.py:22-46 | a new space is active, not visitor parking, has no owning office, an empty custom-schedule list and custom schedules switched off |
| Models.TimedeltaSeconds | reservas/models.py:70 | `timedelta.seconds` is the difference reduced to 0..86399, congruent to it modulo a day |
| Models.DuracionHoras | reservas/models.py:67-70 | the duration in whole hours is at most 23 |
| Models.DuracionForward | reservas/models.py:67-70 | when the end is not before the start, the duration is the whole hours between them |
| Models.DuracionWraps | reservas/models.py:67-70 | when the end is before the start, the duration counts forward across midnight |
| Models.DuracionIgnoresDate | reservas/models.py:68-69 | the duration does not depend on the day used to combine the times |
| Models.DuracionEmpty | reservas/models.py:67-70 | a block shorter than an hour whose end is not before its start, equal ends included, lasts zero hours |
| Models.DuracionExamples | reservas/models.py:67-70 | 09:00 to 10:59 lasts one hour; 23:00 to 01:00 lasts two |
| Blocks.ParseBlock | reservas/views.py:85-91 | no block is read exactly when the token is missing or has no `-`; a block is read exactly when the token splits at `-` into two pieces that are both `%H:%M` times, and its start and end are those times |
| Blocks.ParseBlockSpelling | reservas/views.py:86-89 | every pair of whole-minute times written `HH:MM-HH:MM` is read as that block, whatever their order |
| Blocks.ReadTime | reservas/views.py:88-89 | a five-character `HH:MM` string is read as the time of day it spells |
| Blocks.ReadToken | reservas/views.py:86-89 | an eleven-character token `HH:MM-HH:MM` is read as the block it spells |
| Blocks.ReadsAs | reservas/views.py:143-162 | a catalog entry is read, through the booking path, as the block its two strings spell |
| Blocks.NeighboursChain | reservas/views.py:143-162 | in a list whose neighbouring blocks are in order, every block ends no later than any later one starts |
| Blocks.OrderedByNeighbours | reservas/views.py:143-162 | a list of blocks whose neighbours are in order is increasing and pairwise disjoint |
| Blocks.FromClock | reservas/views.py:143-162 | order, length and contiguity of the clock rows carry over to the blocks the entries are read as |
| Blocks.DirectorioWellFormed | reservas/views.py:143-148 | the boardroom entries are read as four increasing, disjoint two-hour blocks |
| Blocks.SalaWellFormed | reservas/views.py:149-153 | the meeting-room entries are read as back-to-back one-hour blocks |
| Blocks.TerrazaWellFormed | reservas/views.py:155-160 | the terrace entries are read as four increasing, disjoint two-hour blocks |
| Blocks.CatalogWellFormed | reservas/views.py:142-161 | only sala, directorio and terraza have blocks; in each, every entry is accepted by the booking path as a block that starts before it ends, and the blocks are increasing and pairwise disjoint |
| Visibility.Offered | reservas/views.py:133-139 | a parking spot is offered only when it is visitor parking or the office's own |
| Visibility.OfferedByTipo | reservas/views.py:133-139 | per category: sala, directorio and terraza are offered when active; parking when active and either visitor parking or owned by the office; the dining room never |
| Visibility.OfferedEdges | reservas/views.py:133-139 | inactive spaces and the dining room are never offered; active common spaces always are |
| Visibility.OwnedParkingIsPrivate | reservas/views.py:136-137 | a parking spot owned by one office is offered to another office only when it is visitor parking, and always to its owner while active |
| Visibility.NewSpaceOffered | reservas/views.py:133-139 | a space created with the defaults is offered exactly when it is a common space |
| Visibility.Disponibles | reservas/views.py:133-139 | the offered ids hold no dining room and no inactive space, and a parking spot only when it is visitor parking or the office's own; every active common room, every active visitor parking spot and every active parking spot of the office's own is offered |
| Booking.OverlapsIsSharing | reservas/views.py:107-108 | sharing a second always passes the query's comparison; for intervals that start before they end, the comparison holds exactly when they share a second; it is symmetric |
| Booking.Conflicts | reservas/views.py:104-109 | a row of the same space and date that shares a second with the block always passes the query's filter |
| Booking.HasConflict | reservas/views.py:104-109 | when the query finds nothing, no row of the space and date shares a second with the block |
| Booking.NoOverlapIsDisjoint | reservas/views.py:104-124 | in a table without overlaps, no two rows of the same space and date share a second |
| Booking.DegenerateRowsBlock | reservas/views.py:104-109 | an empty 10:00-10:00 row blocks 09:00-11:00 and a reversed 11:00-09:00 row blocks 08:00-12:00, though neither shares a second with the request |
| Booking.Decide | reservas/views.py:82-130 | a created reservation is for an existing space, on a valid calendar date, and no stored row conflicts with it; `CreatedIff` and `RejectionCauses` state every outcome |
| Booking.ConflictIsOverlap | reservas/views.py:104-109 | for a stored row and a block that both start before they end, the row conflicts exactly when it is on the same space and date and shares a second with the block |
| Booking.SeparateDoNotConflict | reservas/views.py:107-108 | a block that ends no later than a stored one starts, or starts no earlier than it ends, does not conflict with it; touching blocks included |
| Booking.CreatedIff | reservas/views.py:82-126 | a reservation is created exactly when the block and date parse, the space exists and no stored row conflicts; the stored reservation carries the office, space, date, times, creation time and visitor fields (empty when not posted) |
| Booking.RejectionCauses | reservas/views.py:86-130 | each rejection happens exactly under its own condition, in the view's order: malformed token, missing space, bad date, missing block, then a conflict |
| Booking.MissingOrBadBlockRejected | reservas/views.py:86-91 | no request with a missing or unreadable block creates a reservation |
| Booking.AnyOverlapBlocks | reservas/views.py:104-112 | any stored row of the same space and date that overlaps the requested block causes a rejection for conflict |
| Booking.CreationKeepsNoOverlap | reservas/views.py:104-124 | if the stored reservations had no two overlapping on the same space and date, they still have none after a creation |
| Booking.CatalogBlockTakenOnce | reservas/views.py:104-112 | once a block of a category's list is booked on a space and date, a second request for that block there is refused for conflict |
| Booking.OrderedBlocksDoNotConflict | reservas/views.py:104-109 | two different blocks of an ordered block list never conflict with each other |
| Booking.CatalogBlocksCoexist | reservas/views.py:104-124 | with one block of a category's list booked on a space and date, a request for any other block of the list there is created |
| Booking.ReversedBlockStored | reservas/views.py:86-124 | a block whose end precedes its start, `11:00-09:00`, is stored as submitted: start 11:00, end 09:00 |
| Booking.Database.constructor | reservas/models.py:51-62 | a fresh store holds the given spaces and no reservations |
| Booking.Database.NuevaReserva | reservas/views.py:82-130 | the outcome is the booking decision on the stored state; a created reservation is appended and nothing else changes; a store with no overlapping reservations keeps that property |

## Left out

- Authentication, the session, redirects, flash messages and the form's template context are not modelled. This includes the office lookup on the logged-in user, `fecha_minima` and the message at line 91, which, when the space and the date are accepted, is followed by the `NameError` modelled as `BloqueAusente`.
- The other views and modules are not part of this model: `mis_reservas`, `admin_dashboard`, user import and listing, deletion and AJAX views, the admin site, URL routing and the management scripts.
- The `horarios_personalizados` JSON content is kept only as an uninterpreted list of strings, and `usar_horarios_personalizados` is only a flag. Nothing in the booking path reads them.
- Django turns the posted space id into an integer lookup. The model takes the id already as an integer, or as missing.
- Python's `\d` also matches non-ASCII decimal digits. The model accepts only ASCII digits.
- The current clock is a parameter: `fecha_creacion` is the `now` argument, and `date.today()` is the `today` argument of `Models.DuracionHoras`. Time zones and microseconds are not modelled.
- Database ids of reservations, `max_length` enforcement on text columns, and cascading deletes are not modelled.
- Booking.Database.NuevaReserva: the overlap query and the insert are one atomic step here. In the application two concurrent requests can both pass the query, so `CreationKeepsNoOverlap` does not hold under concurrency.
