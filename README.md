# Spa booking (mispagina) — a Dafny model

The system is a booking site for a spa. An Express/Mongoose server keeps
the services on offer and the customers' reservations. Browser scripts show
the catalogue, take bookings and manage the customer's own reservations.

This project models the following:

- **Reservation table.** This is the server side of the reservation routes. It is a `ReservationBook`
  class over an in-memory sequence of reservation records, with these
  operations:
  - *create*: 404 for an unknown service, then 400 for a slot held by a
    non-cancelled booking, then 500 when the schema refuses the record,
    otherwise 201 with a new `pendiente` record;
  - *update*: owner-only; the slot is re-checked only when the date or
    hour changes, and the record itself is excluded from that check;
  - *cancel*: owner-only; a logical delete to `cancelada`;
  - *available hours*: the fixed nine-slot day, minus the hours held by
    live bookings on that date.

  The invariant `WellFormed` holds when applied one at a time:
  - ids are fresh and distinct;
  - every hour is present;
  - at most one non-cancelled reservation holds each (fecha, hora).

  Every method keeps this invariant.
- **Schemas.** The `Reservation` and `Service` records, their enums
  (`estado`, `categoria`) and defaults. Each schema is a smart constructor
  returning `Ok` or the failing fields.
- **Catalogue queries.** List available, get by id, list by category.
- **Browser helpers.**
  - 24h→12h time formatting;
  - the two phone validators, the e-mail validator and the phone formatter;
  - the password-strength score;
  - category display names, the description excerpt, the category and
    search filters, the favourites toggle;
  - the upcoming/past split, the status badges and the action buttons;
  - the checks the forms make before any request;
  - the edit form and the catalogue page. Their page globals become
    classes (`EditForm`, `CataloguePage`). The edit form's hour list
    merges in the reservation's own hour and is then sorted.

Modelling choices:

- **Dates** are day numbers, meaning days since the epoch at UTC midnight.
  Instants are milliseconds. "Today at 00:00" is a parameter.
- **Ids** are natural numbers.
- **The caller** of a route is a parameter, standing for the verified token's user id.
- **Server responses, stored values and the clock** are parameters.
- **JavaScript's built-ins** are written out. `trim`, `toLowerCase`,
  `includes` and the default `sort` are in `Strings`; `parseInt` and `%`
  are in `ClientReservations`; `slice` with a negative end is
  `ClientMain.SliceEnd`.

Modules, one file each: `Wrappers`, `Strings`, `Models`, `ServiceRoutes`,
`ReservationRoutes`, `ClientMain`, `ClientAuth`, `ClientReservations`,
`ClientServices`.

## Model

| member | source | states |
|---|---|---|
| Models.ParseEstado | models/Reservation.js:26-28 | a string is accepted as an estado iff it is one of the four enum names, and parsing inverts naming |
| Models.EstadoRoundTrip | models/Reservation.js:26-28 | every estado's name parses back to it |
| Models.MakeReservation | models/Reservation.js:3-35 | the record is accepted iff hora is present and a given estado is in the enum; notas defaults to '', estado to pendiente, fechaCreacion to now; the given fields are stored as given |
| Models.ParseCategoria | models/Service.js:25-28 | a string is a categoria iff it is one of the five enum names |
| Models.CategoriaRoundTrip | models/Service.js:25-28 | every categoria's name parses back to it |
| Models.MakeService | models/Service.js:3-34 | accepted iff the trimmed nombre, descripcion, precio, duracion and an enum categoria are present; nombre is stored trimmed, imagen defaults to '/images/default-service.jpg', disponible to true |
| Models.ServiceNameTrimmed | models/Service.js:7 | a stored name is non-empty and trimming it again changes nothing |
| Strings.TrimIdempotent | models/Service.js:7 | `trim` is idempotent |
| ServiceRoutes.ListAvailable | routes/services.js:9 | the list endpoint returns exactly the services with disponible true |
| ServiceRoutes.ListByCategory | routes/services.js:34-37 | the category endpoint returns exactly the available services of that category |
| ServiceRoutes.ByCategoryRefinesAvailable | routes/services.js:34-37 | the category endpoint's result is the list endpoint's result filtered by category, so a subset of it; an unknown category gives nothing |
| ServiceRoutes.GetById | routes/services.js:20-23 | a service with that id is found iff one exists, and it is the first stored one with that id; otherwise 404 'Servicio no encontrado' |
| ServiceRoutes.GetByIdFindsUnavailableToo | routes/services.js:20-24 | with distinct ids, looking up a stored service returns it whatever its disponible flag |
| ReservationRoutes.SlotsAscending | routes/reservations.js:163-166 | the nine-slot day is strictly ascending |
| ReservationRoutes.AvailableSlots | routes/reservations.js:155-172 | an hour is offered iff it is one of the nine slots and no non-cancelled reservation on that date holds it; the result keeps the slots' order |
| ReservationRoutes.AvailabilityDetermined | routes/reservations.js:168-170 | any ascending list with exactly those members is the available list, so the order is fixed too |
| ReservationRoutes.AppendPreservesWellFormed | routes/reservations.js:38-57 | appending a fresh-id record for a free slot keeps one live reservation per slot and distinct ids |
| ReservationRoutes.MovePreservesWellFormed | routes/reservations.js:102-119 | moving a record to its own slot, or to one no other live record holds, keeps the invariant |
| ReservationRoutes.CancelPreservesWellFormed | routes/reservations.js:144-145 | cancelling any record keeps the invariant |
| ReservationRoutes.BookedHourWithdrawn | routes/reservations.js:158-170 | a live booking's hour is not offered for its date |
| ReservationRoutes.CancelledHourOfferedAgain | routes/reservations.js:144 | under the invariant, cancelling a live booking of a slot makes that hour available again |
| ReservationRoutes.OwnSlotNeverConflicts | routes/reservations.js:103-108 | under the invariant, the slot check that excludes the record itself never finds a conflict on the record's own slot |
| ReservationRoutes.OthersReservationNotFound | routes/reservations.js:92-99 | another user's reservation is never found by the owner-only lookup |
| ReservationRoutes.Conflicts | routes/reservations.js:38-42 | no ensures of its own: it is the conflict query itself (a non-cancelled record, other than the excluded id, on that fecha and hora), used by `FindConflict`, `Create`, `Update` and `AvailableSlots`; its meaning is carried by `BookedHourWithdrawn` and `OwnSlotNeverConflicts` |
| ReservationRoutes.OwnedIndex | routes/reservations.js:92-95 | the owner-only lookup finds the first record with that id belonging to the caller, and finds none iff no record has both |
| ReservationRoutes.ReservationBook.constructor | models/Reservation.js:37 | the store starts empty and well formed |
| ReservationRoutes.ReservationBook.FindConflict | routes/reservations.js:38-42 | the scan reports a conflict iff a non-cancelled record other than the excluded id holds (fecha, hora) |
| ReservationRoutes.ReservationBook.FindOwned | routes/reservations.js:92-95 | the scan returns the first record with that id and owner |
| ReservationRoutes.ReservationBook.Create | routes/reservations.js:27-71 | 404 for an unknown service before the slot check; 400 'Horario no disponible' for a held slot; 500 when hora is missing; a free, non-empty hour (any hour, not only the nine slots) of an existing service gets 201 and exactly one pendiente record owned by the caller is appended, with notas defaulting to '', and its hour leaves availability; on any refusal nothing changes |
| ReservationRoutes.ReservationBook.Update | routes/reservations.js:88-130 | 404 unless id and owner match; the slot is re-checked only when fecha or hora changed, excluding the record itself; on success only that record's fecha, hora and notas change; the invariant is kept |
| ReservationRoutes.ReservationBook.Cancel | routes/reservations.js:133-152 | 404 unless id and owner match; otherwise only that record's estado becomes cancelada, whatever it was; a second cancel changes nothing; the hour is offered again |
| ClientMain.CategoryName | public/js/main.js:162-171 | the five keys map to capitalised display names different from the key; any other string is returned unchanged |
| ClientMain.CategoryNamesDistinct | public/js/services.js:497-506 | distinct categories get distinct display names, and no display name is a category key |
| ClientMain.ValidateEmail | public/js/main.js:304-307 | no ensures of its own; `ValidateEmailMatchesPattern` proves it accepts exactly the strings matching the e-mail pattern (auth.js:246-249 is the same test) |
| ClientMain.ValidateEmailMatchesPattern | public/js/main.js:304-307 | the validator accepts exactly the strings matching `^[^\s@]+@[^\s@]+\.[^\s@]+$` |
| ClientMain.ValidEmailMatches | public/js/auth.js:246-249 | every accepted address splits as the pattern requires |
| ClientMain.MatchingEmailValid | public/js/auth.js:246-249 | every split the pattern allows is accepted |
| ClientMain.StripSeparators | public/js/main.js:312 | the cleaned number holds no whitespace, '-', '(' or ')' |
| ClientMain.StripSeparatorsOfConcat | public/js/main.js:312 | cleaning distributes over concatenation, so every other character is kept in order |
| ClientMain.StripSeparatorsOfClean | public/js/main.js:312 | a string without separators is kept as it is |
| ClientMain.StripSeparatorsIdempotent | public/js/main.js:312 | cleaning twice equals cleaning once |
| ClientMain.ValidatePhoneLoose | public/js/main.js:310-313 | a number is accepted iff, after cleaning, it is an optional '+' and 1 to 16 digits without a leading zero |
| ClientMain.PlainNumberPassesLoose | public/js/main.js:310-313 | every 1–16 digit string without a leading zero is accepted |
| ClientMain.FirstServices | public/js/main.js:85-90 | the shown list is a prefix of the services, of length min(limit, n), with the limit defaulting to 6 |
| ClientMain.NegativeLimitDropsFromBack | public/js/main.js:90 | a negative limit −k drops the last k services instead |
| ClientMain.NavigationFor | public/js/main.js:198-220 | logout and profile links are shown, and login hidden, iff the token and the stored user's id are both truthy |
| ClientMain.AlertIcon | public/js/main.js:240-254 | the check-circle icon iff the type is 'success' or omitted, otherwise the exclamation icon |
| ClientAuth.ValidatePhone | public/js/auth.js:251-254 | a number is accepted iff 10 to 15 digits remain once every non-digit is removed; so an accepted number has at least 10 characters, and a string of digits is accepted iff it has 10 to 15 of them; `FormatKeepsValidity`, `LeadingZeroOnlyHere` and `ShortNumberOnlyLoose` relate it to the formatter and to the shared script's rule |
| ClientAuth.ValidatePhoneIgnoresNonDigits | public/js/auth.js:252-253 | the verdict on any input equals the verdict on its digits alone |
| ClientAuth.FormatPhoneInput | public/js/auth.js:256-265 | exactly ten digits give '(ddd) ddd-dddd'; anything else is returned as it is |
| ClientAuth.FormatKeepsDigits | public/js/auth.js:256-265 | formatting keeps the digit sequence |
| ClientAuth.FormatIdempotent | public/js/auth.js:256-265 | formatting twice equals formatting once |
| ClientAuth.FormattedPassesLoose | public/js/main.js:310-313 | a formatted ten-digit number without a leading zero passes the shared script's rule as well |
| ClientAuth.FormatKeepsValidity | public/js/auth.js:251-265 | formatting never changes this page's phone verdict |
| ClientAuth.LeadingZeroExample | public/js/auth.js:251-254 | '0123456789' passes this page's rule but not the shared script's |
| ClientAuth.ShortNumberExample | public/js/main.js:310-313 | '12345' passes the shared script's rule but not this page's |
| ClientAuth.LeadingZeroOnlyHere | public/js/auth.js:251-254 | every 10–15 digit string with a leading zero passes only this page's rule |
| ClientAuth.ShortNumberOnlyLoose | public/js/main.js:310-313 | every 1–9 digit string without a leading zero passes only the shared rule |
| ClientAuth.PhoneRulesAgree | public/js/auth.js:251-254 | on 10–15 plain digits without a leading zero both rules accept |
| ClientAuth.LevelOf | public/js/auth.js:278 | weak iff the score is at most 2, medium iff 3, strong iff at least 4 |
| ClientAuth.CheckPasswordStrength | public/js/auth.js:267-280 | the score counts the five criteria met, so lies in 0..5, and the level is the score's level |
| ClientAuth.CountTrueMonotone | public/js/auth.js:268-274 | meeting more criteria never gives a lower score |
| ClientAuth.ScoreNeverDropsWhenTyping | public/js/auth.js:267-274 | appending a character never lowers the score |
| ClientAuth.StrengthExamples | public/js/auth.js:267-280 | 'Spa-2024' scores 5 (strong) and 'relax' scores 0 (weak) |
| ClientAuth.IsAuthenticated | public/js/auth.js:337-341 | no ensures of its own; `NavigationAgreesWithSession` proves it holds exactly when the navigation shows the signed-in links |
| ClientAuth.NavigationAgreesWithSession | public/js/auth.js:337-341 | the navigation shows the signed-in links iff `isAuthenticated` holds |
| ClientAuth.LoginCheck | public/js/auth.js:35-43 | sent iff the e-mail is valid and the password has at least 6 characters; the e-mail message iff the e-mail is invalid, the password message iff only the password is too short |
| ClientAuth.RegisterCheck | public/js/auth.js:98-121 | sent iff all five checks pass; each message is reported iff its check fails and every earlier one passes (name, e-mail, phone, password length, confirmation); every failure is an error alert |
| ClientAuth.RegisteredCredentialsPassLogin | public/js/auth.js:35-43 | credentials the registration form sends pass the login form's checks |
| ClientReservations.NatToString | public/js/reservations.js:428 | the decimal text of a number reads back as that number, without a leading zero |
| ClientReservations.ParseInt | public/js/reservations.js:425 | a string of digits parses to its decimal value |
| ClientReservations.Hour12 | public/js/reservations.js:427 | for a non-negative hour the 12-hour hour lies in 1..12 and agrees with it modulo 12 |
| ClientReservations.Hour12RoundTrip | public/js/reservations.js:426-427 | the 12-hour hour and the AM/PM suffix determine the 24-hour hour |
| ClientReservations.FormatTime | public/js/reservations.js:423-429 | no ensures of its own; `FormatTimeOfHour` and `FormatTimeOfHourOnly` give its result for every digit hour with and without minutes, and `FormatNoon`, `FormatSixPm`, `FormatMidnight` are instances (services.js:335-341 is the same function) |
| ClientReservations.FormatTimeOfHour | public/js/reservations.js:423-429 | for 'HH:MM' the result is (h mod 12, or 12) ':' MM then 'PM' iff h ≥ 12 |
| ClientReservations.FormatNoon | public/js/reservations.js:423-429 | '12:00' becomes '12:00 PM' |
| ClientReservations.FormatSixPm | public/js/services.js:335-341 | '18:00' becomes '6:00 PM' |
| ClientReservations.FormatMidnight | public/js/reservations.js:427 | '00:15' becomes '12:15 AM' |
| ClientReservations.FormatTimeOfHourOnly | public/js/reservations.js:424 | an hour with no ':' prints 'undefined' as its minutes |
| ClientReservations.UpcomingAsWritten | public/js/reservations.js:100 | no ensures of its own: the as-written upcoming test (booking's midnight not before the current instant, and not cancelled); `TodayListedAsPast` and `SplitsAgreeAwayFromToday` relate it to the corrected split |
| ClientReservations.PastAsWritten | public/js/reservations.js:101 | no ensures of its own: the as-written past test (booking's midnight before the current instant, or cancelled); same lemmas |
| ClientReservations.AsWrittenIsPartition | public/js/reservations.js:100-101 | as written, every reservation is upcoming or past and never both |
| ClientReservations.TodayListedAsPast | public/js/reservations.js:100-101 | as written, a live reservation for today viewed after midnight lands in the past list |
| ClientReservations.TodayListedAsPastExample | public/js/reservations.js:100-101 | a concrete reservation and instant exhibiting it |
| ClientReservations.SplitsAgreeAwayFromToday | public/js/reservations.js:100-101 | away from today the as-written split and the day-based split agree |
| ClientReservations.Upcoming | public/js/reservations.js:100 | the corrected, day-based split: exactly the live reservations dated today or later (the as-written instant test is `UpcomingAsWritten`) |
| ClientReservations.Past | public/js/reservations.js:101 | the corrected, day-based split: exactly the reservations dated before today or cancelled (the as-written instant test is `PastAsWritten`) |
| ClientReservations.SplitIsPartition | public/js/reservations.js:100-101 | every reservation is in exactly one list (as multisets), and cancelled ones are always past |
| ClientReservations.StatusBadge | public/js/reservations.js:130-147 | a badge is given iff the estado is one of the four names |
| ClientReservations.BadgesDistinct | public/js/reservations.js:130-147 | each of the four estados has a badge, with its own css class |
| ClientReservations.ShowsActions | public/js/reservations.js:187 | no ensures of its own: the buttons' condition (upcoming section and not cancelled); `ActionsOnExactlyUpcoming` proves it holds exactly on upcoming reservations |
| ClientReservations.ActionsOnExactlyUpcoming | public/js/reservations.js:187 | with the corrected split, the edit and cancel buttons appear exactly on upcoming reservations, never on past ones |
| ClientReservations.ScheduleCheck | public/js/reservations.js:304-322 | sent iff a date and an hour are given and the date is not before today; the date message iff no date, the hour message iff a date but no hour, the past-date message iff both but the date is before today |
| ClientReservations.ScheduleCheckFromToday | public/js/reservations.js:314-322 | with an hour given, a day passes iff it is today or later |
| ClientReservations.FallbackIsEmptyDay | public/js/reservations.js:273 | the fallback hours are the server's nine slots |
| ClientReservations.FindById | public/js/reservations.js:228 | the found reservation is the first listed one with that id; none is found only when no listed one has it |
| ClientReservations.EditForm.constructor | public/js/reservations.js:4 | the form starts closed |
| ClientReservations.EditForm.Open | public/js/reservations.js:227-245 | the form opens on the first listed reservation with that id; an unknown id changes nothing |
| ClientReservations.EditForm.Close | public/js/reservations.js:247-254 | the form is closed |
| ClientReservations.EditForm.TimeOptions | public/js/reservations.js:256-289 | the list always holds the reservation's hour; it is unchanged when the hour was there, otherwise exactly that hour is added and the list sorted; no list when the request fails |
| ClientReservations.EditForm.Submit | public/js/reservations.js:291-322 | nothing happens with the form closed; otherwise the date and hour checks decide |
| Strings.Sort | public/js/reservations.js:279 | the sorted list is ordered and a permutation of its input |
| Strings.ContainsAt | public/js/services.js:556 | `includes` holds iff the text occurs at some position |
| ClientServices.Excerpt | public/js/services.js:144 | up to 100 characters unchanged; longer ones become the first 100 followed by '...' |
| ClientServices.ExcerptIdempotent | public/js/services.js:144 | cutting an excerpt again changes nothing |
| ClientServices.ShownByCategory | public/js/services.js:177-191 | a card is shown iff the button is 'all' or the card's category is the button's |
| ClientServices.CategoryButtonMatchesEndpoint | public/js/services.js:183-189 | over the list endpoint's cards, 'all' shows every card and a category button shows exactly the category endpoint's answer, in order |
| ClientServices.SearchResults | public/js/services.js:549-562 | a card is shown iff the lower-cased query occurs in its lower-cased name or shown description |
| ClientServices.EmptySearchShowsAll | public/js/services.js:549-562 | the empty query shows every card |
| ClientServices.SearchIgnoresCase | public/js/services.js:543 | the query's case makes no difference |
| ClientServices.SearchFindsNamePart | public/js/services.js:553-556 | typing any part of a service's name keeps its card |
| ClientServices.Position | public/js/services.js:568 | the first index of the id, and none iff it is absent |
| ClientServices.Toggled | public/js/services.js:570-576 | an absent id is added once, a present one loses one occurrence (as multisets) |
| ClientServices.ToggleFlipsMembership | public/js/services.js:567-576 | on a list without duplicates the toggle flips the id's membership, leaves other ids alone and keeps it duplicate-free |
| ClientServices.ToggleTwiceRestores | public/js/services.js:567-576 | toggling an absent id twice gives back the original list |
| ClientServices.ToggleFavorite | public/js/services.js:565-580 | the list becomes the toggled list, with 'Eliminado de favoritos'/'info' when the id was present and 'Agregado a favoritos'/'success' otherwise |
| ClientServices.LoadedTimes | public/js/services.js:297-321 | the server's answer, or on any failure the server's nine slots |
| ClientServices.ReservationCheck | public/js/services.js:344-379 | no selected service is reported first; otherwise the date and hour checks decide |
| ClientServices.CataloguePage.constructor | public/js/services.js:3-4 | no services and no current service at first |
| ClientServices.CataloguePage.Load | public/js/services.js:15-31 | the services become the endpoint's answer, or the sample list on failure |
| ClientServices.CataloguePage.Select | public/js/services.js:217-221 | the current service becomes the first shown one with that id (as `openServiceModal`, and `quickReserve` once signed in); an unknown id changes nothing |
| ClientServices.CataloguePage.Submit | public/js/services.js:344-379 | the booking form's checks on the current service |

## Left out

- Database I/O (`findById`, `findOne`, `find`, `save`, `populate`) is replaced by a sequence of records. `populate` only shapes the reply, so replies carry the record itself.
- Concurrent requests can interleave between the slot check and `save`. The invariant is stated for requests applied one at a time only.
- Token verification, password hashing, sessions and the authentication routes and user model are not part of this model. The caller's id is a parameter.
- `GET /mis-reservas` (the caller's reservations sorted by date and hour) is not part of this model. The order comes from the database's sort, and the browser only lists what it returns.
- Date parsing, time zones and ISO-string slicing are out: dates are day numbers, and "changed" in update is plain inequality.
- Each stored fecha is taken as UTC midnight. The start of today is a parameter.
- A malformed id raises a cast error, which the routes turn into 500. The model has no malformed ids.
- The server accepts any non-empty hora, not only the nine slots, and the model keeps that.
- Floating point is out: the `Math.ceil` day difference with its 'Mañana'/'En n días' labels, the strength bar's width and the seeding script's averages.
- `toLowerCase` is ASCII-only here. Strings are sequences of characters, not UTF-16 code units.
- ClientMain.CategoryName: keys inherited from `Object.prototype` (such as 'toString') are treated like unknown keys.
- ClientReservations.ParseInt: models decimal digits only. A '0x' prefix and the rounding of very long digit strings are out.
- ClientMain.NavigationFor: a stored user that parses to `null` (which makes the browser throw) is not modelled.
- Which `validatePhone` is in force on the registration page depends on script order. The model takes the page's own definition (`ClientAuth.ValidatePhone`).
- DOM rendering, modals, animations, `fetch` and storage are out. Server answers, stored favourites and the page's sample services are parameters.
- The edit form loads its hours and fills the select asynchronously. `TimeOptions` returns the list instead.
- `quickReserve`'s redirect of a signed-out visitor to the login page is not modelled. `CataloguePage.Select` covers only its selection of the service.
- The option HTML of `populateTimeOptions` and the sample service data are out.
- The seeding script and the server wiring are I/O only.
- ClientServices.SearchResults and ShownByCategory: each filter is modelled alone. On the page the last one applied sets each card's visibility.

## Findings

| source | as written | input that shows it | evidently intended | confidence | as-written member | corrected member |
|---|---|---|---|---|---|---|
| public/js/reservations.js:100-101 | a reservation is upcoming when `new Date(r.fecha) >= new Date()`, comparing the booking's midnight with the current instant | a pendiente reservation for today (day 20000) viewed at 10:00 that day | today's bookings are upcoming: the '¡Hoy!' indicator at lines 150-152 is only drawn for upcoming cards | medium, not executed | ClientReservations.UpcomingAsWritten, ClientReservations.PastAsWritten, ClientReservations.TodayListedAsPast | ClientReservations.Upcoming, ClientReservations.Past, ClientReservations.SplitIsPartition |
