# Dispatch core of the KIPOLIS emergency backend, modelled in Dafny

KIPOLIS takes "panic" events from victims' phones and connects them with field responders (police, medics).
This project models its dispatch core as operations over an in-memory store.
The store holds an incident table, a responder table, a user table and an audit log.
Each table is a sequence of rows in scan order.
The model covers:

- **The incident service.** It creates an incident behind the profile guard (NIK, blood type and address must be present). It also covers the victim's own lookups, breadcrumb updates capped at 30, cancellation as a false alarm, the assigned-responder report, and the nearest-responder query.
- **The responder's incident controller.** It covers the nearby-incident query, acceptance, the location ping that feeds the responder trail (capped at 50), and resolution.
- **The command-centre service.** It covers the dashboard counters with the deployment rate, the live incident list, the three nearest deployable responders of an incident, and manual dispatch.
- **The victim's incident controller.** Each handler is a function from the caller, the request and the tables to the reply and the new incident table.
- **The auth service.** It covers victim OTP login with auto-registration, responder registration, and responder login with device binding and attempt counting.
- **The middleware.** It covers the Bearer-token check that attaches the caller to the request, and the client-type check.
- **The entities.** These are the incident and responder records, their documented statuses and defaults, and the responder's name-upper-casing save listener.

File layout:

- `sequences.dfy` holds the query building blocks: first match, WHERE, ORDER BY as a stable insertion sort proved sorted and a permutation, LIMIT/OFFSET, and JavaScript's `slice(-n)`.
- `trail.dfy` holds the bounded-trail operation and its properties.
- `strings.dfy` holds `split`, `join`, `startsWith` and ASCII upper-casing.
- `lifecycle.dfy` holds the incident status transitions as the code drives them.
- `exclusivity.dfy` runs concrete scenarios on a fresh store to show what the write paths do not guard.

Distances are two uninterpreted functions (`Metric`).
- The geodesic one is in metres. It decides radius tests and is reported to callers.
- The planar `<->` one orders candidates.

Times are integer milliseconds and coordinates are reals.
JWT verification, bcrypt hashing and bcrypt comparison are function parameters.

### Gaps in the code's guards

- **No assignment on creation.** `createIncident` saves the incident and stops at the TODO "Find and assign nearest responder" (`backend/src/services/incident.service.ts:62`). The panic handler returns the nearest police responder but never assigns it (`VictimIncidents.TriggerPanicButton`).
- **The profile guard reads fields the user entity does not declare.** `createIncident` refuses a user without a truthy `nik`, `blood_type` and `address` (`backend/src/services/incident.service.ts:40`). The user entity (`backend/src/entities/User.ts:10-122`) declares none of these three columns, so a loaded user never has them. As written, every creation is refused with the SECURITY_ERROR message, and so is every panic. The model keeps the three fields on `Entities.User` as optional values so that the guard can be stated (`Incidents.ProfileComplete`, `Incidents.CreateResult`); a user auto-registered by OTP login has none of them (`Auth.NewCitizen`).
- **Nothing stops one responder from being bound to two incidents.** Acceptance does not look at the responder at all. Manual dispatch reads the responder's status and then writes it, as two separate steps. `Exclusivity.DoubleAccept` shows one responder holding two incidents.
- **`on_the_way` is not a documented status.** The entity documents six incident statuses (`backend/src/entities/Incident.ts:52-60`), including `acknowledged` and `dispatched`. Acceptance and dispatch both write `on_the_way`, which is not among them (`Entities.OnTheWayUndocumented`). Nothing in this core writes `acknowledged`, `dispatched` or `expired` (`Lifecycle.Next`).
- **Terminal statuses are not final.** Dispatch accepts an incident in any status, so a resolved incident reopens (`Exclusivity.DispatchReopensResolved`). Resolution checks only that the caller is the assigned responder, so a cancelled incident becomes resolved (`Exclusivity.ResolveAfterCancel`).
- **Errors are plain messages.** The services throw `Error` with a message (`backend/src/services/console.service.ts:126`, `:130`). The model gives each such message its own error value. The controllers answer these errors with 500.

## Model

| member | source | states |
|---|---|---|
| Entities.OnTheWayUndocumented | backend/src/entities/Incident.ts:52-62 | `on_the_way`, which the code writes, is not among the six documented incident statuses |
| Entities.NewResponder | backend/src/services/auth.service.ts:108-117 | a registered responder starts `off_duty`, active, with no login attempts, no incidents handled, no device and no position |
| Entities.HandleNameCase | backend/src/entities/Responder.ts:221-227 | the save listener changes only the name: same length, an empty name stays empty, no lower-case letter is left, and non-letters are kept |
| Entities.HandleNameCaseIdempotent | backend/src/entities/Responder.ts:221-227 | running the listener on every save is the same as running it once |
| Strings.Split | backend/src/middleware/auth.middleware.ts:22 | `split(" ")` yields at least one field; no field holds the separator; the first field is a prefix followed by the separator or the end |
| Strings.JoinSplit | backend/src/middleware/auth.middleware.ts:22 | splitting loses nothing: joining the fields back restores the header |
| Trail.AppendBounded | backend/src/services/incident.service.ts:163-168 | push then `slice(-cap)` keeps min(old length + 1, cap) entries, the new one last, as a suffix of old ++ [new] |
| Trail.AppendEachKeepsLast | backend/src/services/incident.service.ts:163-168 | any number of one-by-one pushes leave exactly the last `cap` of old ++ all new points |
| Trail.AppendEachBounded | backend/src/services/incident.service.ts:163-168 | a trail within the cap stays within the cap however many points arrive |
| Database.SetResponderStatus | backend/src/controllers/responder/incident.controller.ts:104-106 | `update(id, {status})` sets the status of every row with that id and changes no other row |
| Lifecycle.Next | backend/src/entities/Incident.ts:52-62 | cancel, accept and breadcrumb updates need `active`; dispatch and resolve never refuse; no operation produces `acknowledged`, `dispatched` or `expired`, and none returns to `active` |
| Lifecycle.TerminalStatusesReopen | backend/src/services/console.service.ts:121-142 | dispatch leaves `resolved` and `false_alarm`; resolution leaves `expired`; cancellation refuses non-active incidents |
| Lifecycle.ResponseTimeMinutes | backend/src/controllers/responder/incident.controller.ts:205-209 | created_at + minutes · 60000 = now, so the time is non-negative when now is not earlier |
| Lifecycle.Cancelled | backend/src/services/incident.service.ts:191-195 | cancellation sets `false_alarm`, resolved now, with the fixed note, and nothing else |
| Lifecycle.Accepted | backend/src/controllers/responder/incident.controller.ts:96-99 | acceptance sets `on_the_way`, the caller as responder and the acceptance time, and nothing else |
| Lifecycle.DispatchedTo | backend/src/services/console.service.ts:133-137 | dispatch sets the responder, `on_the_way` and the dispatch time, and nothing else |
| Lifecycle.NotesOrDefault | backend/src/controllers/responder/incident.controller.ts:214 | truthy notes are kept; otherwise "Resolved by responder" |
| Lifecycle.ResolvedAt | backend/src/controllers/responder/incident.controller.ts:205-216 | resolution sets `resolved`, resolved now, the notes and the response time in minutes since creation, and nothing else |
| Incidents.CreateResult | backend/src/services/incident.service.ts:30-54 | creation succeeds iff the user exists and has a complete profile; the incident is `active` and `high`, unassigned, with breadcrumbs stored as given (uncapped) or empty, and trigger type `manual` unless given |
| Incidents.CreateIncident | backend/src/services/incident.service.ts:17-66 | on success the incident table gains exactly the new incident; on failure nothing changes |
| Incidents.IncidentPos | backend/src/services/incident.service.ts:105-116 | the first row with the id, owned by the user when a user id is truthy; none iff no row matches |
| Incidents.GetIncidentById | backend/src/services/incident.service.ts:105-119 | with a user id, only an incident of that user is returned |
| Incidents.GetUserActiveIncident | backend/src/services/incident.service.ts:124-137 | the user's `active` incident with the latest creation time; none iff the user has no active incident |
| Incidents.WithBreadcrumb | backend/src/services/incident.service.ts:162-174 | at most 30 breadcrumbs, the new one last, and the coordinates move to it; nothing else changes |
| Incidents.BreadcrumbResult | backend/src/services/incident.service.ts:152-174 | refused for a missing, foreign or non-active incident, that is, iff the `LocationUpdate` transition refuses its status; otherwise only that row gets the breadcrumb and its status stays |
| Incidents.UpdateBreadcrumbs | backend/src/services/incident.service.ts:142-175 | the stored table becomes the BreadcrumbResult table, or stays unchanged with its error |
| Incidents.CancelResult | backend/src/services/incident.service.ts:180-195 | succeeds iff the user's incident is exactly `active`; then only that row becomes a false alarm resolved now |
| Incidents.CancelIncident | backend/src/services/incident.service.ts:180-198 | the stored table becomes the CancelResult table, or stays unchanged with its error |
| Sequences.Window | backend/src/services/incident.service.ts:212-213 | `skip` then `take` in order, with `take: 0` keeping everything after the offset |
| Incidents.Mine | backend/src/services/incident.service.ts:209 | exactly the user's incidents |
| Incidents.GetUserIncidentHistory | backend/src/services/incident.service.ts:203-217 | the page is the OFFSET/`take` window of the user's incidents listed newest first, each as often as stored (`take: 0` keeps all); total counts all of them |
| Incidents.GetIncidentResponder | backend/src/services/incident.service.ts:222-289 | refused for a foreign incident; `searching` with nothing else iff no responder is assigned; otherwise the incident's status and `eta \|\| null`; the responder's view iff its row exists; the distance iff that row has both current coordinates, equal to the geodesic km from the incident's coordinates |
| Incidents.FindNearestResponder | backend/src/services/incident.service.ts:294-335 | an available, active, located responder of the type, within maxKm·1000 m, that no candidate precedes in the planar order, with its geodesic km; none iff no candidate |
| Http.FloatOr | backend/src/controllers/responder/incident.controller.ts:170 | `speed \|\| 0`: the value when truthy, else the default |
| ResponderIncidents.RadiusOrDefault | backend/src/controllers/responder/incident.controller.ts:22-34 | the radius is 5000 m only when the parameter is absent |
| ResponderIncidents.NearbyOf | backend/src/controllers/responder/incident.controller.ts:36-52 | exactly the active incidents within the radius, each once, in non-decreasing distance, each with its distance |
| ResponderIncidents.GetNearbyIncidents | backend/src/controllers/responder/incident.controller.ts:20-58 | 400 iff a coordinate is falsy; otherwise exactly the active incidents within the radius, each once, in non-decreasing distance, each with its distance |
| ResponderIncidents.ActiveIncidentPos | backend/src/controllers/responder/incident.controller.ts:84-86 | the row with the id and status `active`; none iff there is none |
| ResponderIncidents.AcceptIncident | backend/src/controllers/responder/incident.controller.ts:73-117 | 401 without a caller and 404 unless active, both with no change; otherwise the incident is Accepted and every row of the caller goes `on_the_way`, whatever its prior status |
| ResponderIncidents.Moved | backend/src/controllers/responder/incident.controller.ts:142-157 | a ping sets the current coordinates, the ping time and the point, and nothing else |
| ResponderIncidents.MoveResponder | backend/src/controllers/responder/incident.controller.ts:145-157 | the caller's rows move and all other rows are unchanged |
| ResponderIncidents.HeadingTo | backend/src/controllers/responder/incident.controller.ts:160-162 | the first incident bound to the responder with status `on_the_way`; none iff there is none |
| ResponderIncidents.WithTrailPoint | backend/src/controllers/responder/incident.controller.ts:164-176 | at most 50 trail points, the new one last; nothing else changes |
| ResponderIncidents.TrackTrail | backend/src/controllers/responder/incident.controller.ts:159-177 | only the incident the responder is heading to gains the point; with none, nothing changes |
| ResponderIncidents.UpdateLocation | backend/src/controllers/responder/incident.controller.ts:132-184 | 400 with no change without a caller or a truthy coordinate; otherwise the responder moves and the trail gains the point stamped now with `speed \|\| 0` |
| ResponderIncidents.AssignedPos | backend/src/controllers/responder/incident.controller.ts:196-198 | the row with the id whose responder is the caller; none iff there is none |
| ResponderIncidents.Released | backend/src/controllers/responder/incident.controller.ts:219-222 | the responder is `available` with exactly one more incident handled, and nothing else changes |
| ResponderIncidents.ReleaseResponder | backend/src/controllers/responder/incident.controller.ts:218-222 | the caller's rows are released and all other rows are unchanged |
| ResponderIncidents.ResolveIncident | backend/src/controllers/responder/incident.controller.ts:190-228 | 404 with no change unless the caller is the incident's responder; otherwise the incident is ResolvedAt whatever its status, and the caller is released |
| ResponderIncidents.ReleaseCountsOne | backend/src/controllers/responder/incident.controller.ts:219-222 | with unique ids exactly the responder's row changes, to `available` with one more incident handled |
| Console.DeploymentRate | backend/src/services/console.service.ts:69 | 0 with no responders; otherwise rate · total = (total − available) · 100, and the rate lies between 0 and 100 |
| Console.StatsSummary | backend/src/services/console.service.ts:17-70 | each counter counts its WHERE clause (both ends of `Between` included); online ≤ total; active + responding ≤ all incidents; the rate is DeploymentRate of the counters |
| Console.GetLiveIncidents | backend/src/services/console.service.ts:83-91 | exactly the `active` and `on_the_way` incidents, each once, newest first |
| Console.Nearest | backend/src/services/console.service.ts:155-173 | min(3, deployable) responders, each deployable and none listed twice, in planar order, none farther than a deployable responder left out |
| Console.Suggestions | backend/src/services/console.service.ts:155-179 | the suggestions are exactly the Nearest responders, each with its geodesic distance in km |
| Console.GetIncidentIntelligence | backend/src/services/console.service.ts:147-182 | an error iff the incident is unknown; otherwise the incident, with the Nearest responders to its current coordinates (which breadcrumbs move) and their distances |
| Console.TopAreNearest | backend/src/services/console.service.ts:155-173 | what LIMIT 3 keeps of the sorted candidates is deployable and no farther than any candidate it drops |
| Console.ManualDispatch | backend/src/services/console.service.ts:121-142 | fails with no change when the incident or the responder is missing or the responder is not `available`; otherwise the incident, in any status, is DispatchedTo and only the responder's row becomes `busy` |
| Console.SetStatusOfOne | backend/src/services/console.service.ts:139-141 | with unique ids a status update by id rewrites exactly that row |
| VictimIncidents.NearestViewOf | backend/src/controllers/victim/incident.controller.ts:69-74 | `nearest_responder` is null iff no responder was found; otherwise its id, name, type and km |
| VictimIncidents.TriggerPanicButton | backend/src/controllers/victim/incident.controller.ts:15-85 | 401 and 400 create nothing; 201 iff creation succeeds, with the incident appended unassigned and the nearest police responder within 50 km reported |
| VictimIncidents.PanicAtZeroLatitudeRefused | backend/src/controllers/victim/incident.controller.ts:36-42 | a latitude of exactly 0 is answered 400 and nothing is stored |
| VictimIncidents.UpdateLocation | backend/src/controllers/victim/incident.controller.ts:206-247 | 401, then 400, then the service's breadcrumb update with the time now; a refusal is 500 with no change |
| VictimIncidents.LocationUpdateStampsNow | backend/src/controllers/victim/incident.controller.ts:228-233 | after a 200 the incident's last breadcrumb is the sent point stamped now, and at most 30 are kept |
| VictimIncidents.ResponderOf | backend/src/entities/Incident.ts:132-137 | the responder relation is the row the responder id names, if any |
| VictimIncidents.GetActiveIncident | backend/src/controllers/victim/incident.controller.ts:91-139 | 401; 404 iff the user has no active incident; else the newest active one with its id, severity, coordinates, creation time and ETA, and the id, name, type and status of its responder iff that row exists |
| VictimIncidents.GetIncident | backend/src/controllers/victim/incident.controller.ts:144-191 | 401; 404 iff no incident with the id belongs to the caller; else that incident's id, status, severity, coordinates, breadcrumbs, trigger type, creation time, ETA and acknowledged, dispatched and resolved times, and the id, name, type, badge number and status of its responder iff that row exists |
| VictimIncidents.CancelIncident | backend/src/controllers/victim/incident.controller.ts:253-280 | 401; a service refusal is 500 with no change; else 200 with the cancellation applied |
| VictimIncidents.GetResponderInfo | backend/src/controllers/victim/incident.controller.ts:341-368 | 401; a service refusal is 500; else 200 with the service's report |
| VictimIncidents.IntOr | backend/src/controllers/victim/incident.controller.ts:289-290 | `parseInt(v) \|\| d` is the default when unparseable or 0, else the parsed value |
| VictimIncidents.HistoryPaging | backend/src/controllers/victim/incident.controller.ts:289-290 | limit 10 and offset 0 unless given as non-zero integers; the limit is never 0 |
| VictimIncidents.HistoryOf | backend/src/controllers/victim/incident.controller.ts:300-325 | the page is the paging window of the caller's incidents listed newest first; it holds min(limit, total − offset) of them for a positive limit; total counts all of them; the paging is echoed; each entry carries its incident's id, status, severity, coordinates, creation and resolution times, and the name and type of its responder iff that row exists |
| VictimIncidents.GetIncidentHistory | backend/src/controllers/victim/incident.controller.ts:286-335 | 401; a negative limit or offset is 500; otherwise 200 with HistoryOf the caller under the paging, whose limit is positive |
| VictimIncidents.DefaultHistoryPage | backend/src/controllers/victim/incident.controller.ts:289-304 | without paging parameters the page is the first ten (or fewer) of the caller's incidents listed newest first |
| Auth.CitizenName | backend/src/services/auth.service.ts:55 | "Citizen_" followed by the last min(4, length) characters of the phone |
| Auth.NewCitizen | backend/src/services/auth.service.ts:53-57 | an auto-registered user is `active`, named CitizenName, with no profile fields and no attempts |
| Auth.UserByPhone | backend/src/services/auth.service.ts:49 | the first user with the phone; none iff there is none |
| Auth.VictimLogin | backend/src/services/auth.service.ts:48-97 | an unknown phone is registered before the OTP check; a wrong OTP outside the test environment logs LOGIN_FAILED_OTP and fails; success clears attempts, stamps the login, logs REGISTER or LOGIN and issues a victim token |
| Auth.ResponderByBadge | backend/src/services/auth.service.ts:103 | the first responder with the badge number; none iff there is none |
| Auth.RegisterResponder | backend/src/services/auth.service.ts:102-129 | a taken badge fails with no change; a phone already on file violates the unique phone column (`backend/src/entities/Responder.ts:24`), so the save throws before the audit entry and nothing changes; otherwise exactly the new responder is appended (`off_duty`, active, name upper-cased, the given phone) and the registration is logged; the store keeps responder ids and phones unique |
| Auth.ResponderByIdentifier | backend/src/services/auth.service.ts:135-140 | the first responder whose badge or phone is the identifier; none iff there is none |
| Auth.LoggedIn | backend/src/services/auth.service.ts:161-169 | a bound device is kept and an unbound one is set to the presented device; attempts 0 and login stamped |
| Auth.ResponderLogin | backend/src/services/auth.service.ts:134-183 | a device mismatch is logged and fails without touching attempts; a wrong password adds exactly one attempt; success saves LoggedIn, logs DEVICE_BOUND if it bound, then LOGIN |
| Auth.BindingIsPermanent | backend/src/services/auth.service.ts:161-169 | a successful login never rebinds a bound account, and repeating it changes nothing more |
| Middleware.BearerToken | backend/src/middleware/auth.middleware.ts:14-22 | a token exists iff the header starts with "Bearer "; it is the text after the prefix up to the next space |
| Middleware.BearerRoundTrip | backend/src/middleware/auth.middleware.ts:22 | a header built from a space-free token yields that token |
| Middleware.AuthMiddleware | backend/src/middleware/auth.middleware.ts:10-41 | 401 with the request untouched without a token or when verification fails; otherwise the caller is exactly the decoded id, type and role |
| Middleware.Authorize | backend/src/middleware/auth.middleware.ts:47-61 | the chain continues iff a caller with an allowed type is attached; otherwise 403 |
| Middleware.AuthorizeMonotone | backend/src/middleware/auth.middleware.ts:51 | allowing more types never refuses a caller that was allowed |
| Middleware.CallerId | backend/src/controllers/victim/incident.controller.ts:17 | `req.user?.id` is present iff a caller with an id is attached |
| Middleware.GuardedRoute | backend/src/api/v1/responder/incidents.routes.ts:17-18 | handlers behind both middlewares run iff the token verifies to an allowed type, and then see exactly its claims; otherwise 401 or 403 |
| Exclusivity.DoubleAccept | backend/src/controllers/responder/incident.controller.ts:84-106 | one responder accepts two active incidents in a row, and both end `on_the_way` bound to it |
| Exclusivity.DispatchReopensResolved | backend/src/services/console.service.ts:121-142 | dispatching an available responder to a resolved incident succeeds and reopens it |
| Exclusivity.ResolveAfterCancel | backend/src/controllers/responder/incident.controller.ts:196-222 | a false alarm bound to the caller is resolved, and the responder is released with one more incident handled |

## Left out

- PostGIS geodesy is left out. `ST_Distance`, `ST_DWithin` and `<->` are the two uninterpreted metrics. The `location` point columns are written as ordinary fields. A failed incident-point update is swallowed by the service; the model assumes the write succeeds.
- Float formatting is left out: `toFixed` for response time, deployment rate and distances.
- The average-response-time and regional SQL aggregates of the dashboard are left out, as are the hourly trend and the responder map. They are SQL aggregates or plain selects with no rule.
- Concurrency is left out. Every handler runs alone, from its read to its last write, so read-then-write races between requests are not modelled; the gaps shown in `exclusivity.dfy` are sequential ones.
- Crypto is left out. JWT signing and verification, bcrypt hashing and bcrypt comparison are parameters; a token is its claims.
- NaN is left out: `parseFloat` of non-numeric text is a real, and `parseInt` failing is `None`.
- IP addresses, audit `details` and request metadata are not modelled.
- Incident and responder fields that no operation here writes are left out: audio, photos, notes, operator and region ids, vehicle, metadata, timestamps such as `updated_at`.
- Console.GetLiveIncidents: returns the incident rows. The user and responder rows the query joins in are not attached; the responder of each row is what `VictimIncidents.ResponderOf` finds.
- Decimal columns come back from the driver as strings, so the coordinate check in getIncidentResponder rejects only null; the model tests presence.
- ResponderIncidents.UpdateLocation: the trail point's speed is the parsed number. When the body sends speed as text, the system stores the text unparsed.
- ResponderIncidents.ResolveIncident: takes the caller's id as present. Without a caller id the query drops the responder condition; that path is not modelled.
- Entities.HandleNameCase: upper-cases ASCII letters only. Unicode case mapping is not modelled.
- Auth.RegisterResponder: the badge number is a string. A missing badge, which the query would drop from its WHERE clause, is not modelled.
- Auth.ResponderLogin: the presented device is a string. An absent device id is not modelled.
- VictimIncidents.GetIncidentHistory: a negative limit or offset is answered 500, because the database rejects a negative LIMIT or OFFSET. The model does not carry that error further.
- Time zones are left out. "Today" in the dashboard starts at a given instant.
