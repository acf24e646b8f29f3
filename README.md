# CarList sales service — a Dafny model

The sales service of CarList keeps a replica of the vehicle catalog pushed by Core (`car_view`) and
a ledger of sales (`sales`), one row per car. A buyer reserves a car with `purchase`. This locks
the price and hands out a payment code valid for fifteen minutes. The payment gateway then calls
`handlePaymentWebhook` with `PAID` or `CANCELED`. A paid sale is announced to Core, and a canceled
one puts the car back on sale. The model covers:

- `SalesServiceImpl` (`SalesServices`): `purchase` and `handlePaymentWebhook` are imperative
  methods over the two repository objects. Each is proved against a specification function over
  the stores' contents (`PurchaseSpec`, `WebhookSpec`), and the lemmas about the state machine are
  stated on those functions. `listAvailable`/`listSold` are the price-ordered sold-flag queries.
- `Sale` (`Sales`): the status enum, the entity with nullable fields, and the stored row. It also
  states what the table guarantees: `car_id` unique, `payment_code` unique, the `NOT NULL` columns,
  `buyer_cpf` at most 11 characters and `locked_price` within `DECIMAL(12,2)`.
- `Car` (`Cars`): the constructor and the guarded mutators `update` and `markAsSold`.
- The repositories (`Repositories`) as objects over maps of rows. `save` on the sale repository
  refuses a row that breaks a column constraint, and nothing is written then.
- `CarSyncServiceImpl.upsert` (`CarSync`).
- `SecurityConfig.extractAuthoritiesFromRolesClaims` (`Security`): the normalisation of the
  `roles`/`role` claims.
- The bean-validation constraints of `CarSellRequest` (`Dto`), and the other request and response
  records.

Some conventions stand in for Java types:

- Instants are integer seconds and prices integer cents.
- A Java exception becomes an `Error`: `IllegalArgumentException` is `NotFound` or `BadRequest`,
  and `IllegalStateException` is `Conflict`. A constraint violation raised by the database is
  `StorageRejected`.
- `Instant.now()` and `UUID.randomUUID()` are parameters (`now`, `code`).
- The notification to Core is an event appended to a ghost log.

`java.lang.String`'s `trim`, `isBlank`, `startsWith` and `toUpperCase` are modelled in `JavaText`.
`toUpperCase` is modelled for a default locale without language-specific rules, and only as far
as it decides equality with `PAID` or `CANCELED`: the characters whose upper case is made of ASCII
letters are mapped exactly, including the sharp s and the Latin ligatures that expand into two or
three letters.

The model makes these behaviours of the code explicit:

- A `CANCELED` webhook on a paid sale reopens it. A `PAID` webhook arriving after `CANCELED`
  marks the sale paid and notifies Core, but the car stays unsold in the catalog and is listed as
  available (`LatePaymentAfterCancel`).
- Every status other than `PAID` or `CANCELED` is rejected, but only after both lookups. An
  unknown payment code is therefore `NotFound` whatever the status.
- `locked_price` is `DECIMAL(12,2)` while the car's price is `DECIMAL(15,2)`. A car priced at
  10^10 or more can never be reserved for the first time (`PurchaseRejectedOnlyForUnfitPrice`).
- A `PAID` webhook carrying a CPF longer than 11 characters breaks the `buyer_cpf` column. In
  the code the update is written at commit, after Core has already been notified, and then
  fails. The model refuses the row at `save`, before notifying, so in the model nothing changes
  and nobody is notified (`WebhookPaidEffects`).
- A role claim made only of control characters such as U+0000 is not blank for `isBlank`. It
  still trims to nothing and grants no authority (`ControlCharacterRoleGrantsNothing`).
- De-duplication runs after prefixing, so `admin` and `ROLE_admin` collapse into one authority.
- The service relies on every stored sale carrying a payment code (`CodesAssigned`, part of
  its invariant). `purchase` always sets one before saving, so a ledger written only by the
  service keeps it; a ledger holding rows with a null code is outside the model.
- A sale that is reserved again keeps its id, its locked price and any earlier buyer CPF and
  sale instant.

## Model

| member | source | states |
|---|---|---|
| JavaText.IsWhitespace | src/main/java/br/com/fiap/soat7/infra/config/security/SecurityConfig.java:64 | `Character.isWhitespace`: the Unicode space separators other than the non-breaking ones, the line and paragraph separators, U+0009..U+000D and U+001C..U+001F |
| JavaText.IsBlank | src/main/java/br/com/fiap/soat7/infra/config/security/SecurityConfig.java:64-71 | `String.isBlank`: every character is white space in the sense of `isWhitespace` |
| JavaText.StartsWith | src/main/java/br/com/fiap/soat7/infra/config/security/SecurityConfig.java:72 | `String.startsWith`: the prefix is no longer than the string and equals its first characters |
| JavaText.Trim | src/main/java/br/com/fiap/soat7/infra/config/security/SecurityConfig.java:70 | `String.trim` drops the characters at or below U+0020 from both ends: the result is no longer, holds only characters of the input, starts and ends above U+0020, and is empty exactly when every character is at or below U+0020 |
| JavaText.TrimIsMiddle | src/main/java/br/com/fiap/soat7/infra/config/security/SecurityConfig.java:70 | the trimmed string is one contiguous middle part of the input, with only characters at or below U+0020 before and after it |
| JavaText.TrimIdempotent | src/main/java/br/com/fiap/soat7/infra/config/security/SecurityConfig.java:70 | trimming twice is trimming once |
| JavaText.TrimKeepsBlank | src/main/java/br/com/fiap/soat7/infra/config/security/SecurityConfig.java:64-71 | a blank string stays blank once trimmed, so a `role` claim the fallback drops as blank would also be dropped by the filter: the fallback never drops a role the filter would keep |
| JavaText.UpperOf | src/main/java/br/com/fiap/soat7/usecase/services/impl/SalesServiceImpl.java:90 | a–z, ı and ſ become their capitals, ß and the ligatures U+FB00..U+FB06 expand into two or three capitals starting with SS, ST, FF, FI or FL, every other character is kept |
| JavaText.UpperCase | src/main/java/br/com/fiap/soat7/usecase/services/impl/SalesServiceImpl.java:90 | `String.toUpperCase` character by character: never shorter, at most three times longer, and the same length with each character upper-cased when no character expands |
| JavaText.UpperCaseMatches | src/main/java/br/com/fiap/soat7/usecase/services/impl/SalesServiceImpl.java:90 | for a word of ASCII capitals that no sharp s or ligature expands into (such as `PAID` or `CANCELED`), the upper-cased status equals the word exactly when it has the word's length and each character is that capital, its lower-case letter, or (for I and S) the dotless i or long s |
| Sales.Ordinal | src/main/java/br/com/fiap/soat7/data/domain/Sale.java:24-29 | `Status.ordinal()`: the declaration position, below four |
| Sales.StatusValues | src/main/java/br/com/fiap/soat7/data/domain/Sale.java:24-29 | the four statuses, each once, each at its ordinal |
| Sales.LedgerInvariant | src/main/java/br/com/fiap/soat7/data/domain/Sale.java:15-68 | what the table enforces: one row per car id, each non-null payment code in one row, `locked_price` and `buyer_cpf` within their columns, and distinct ids below the next generated one |
| Sales.FindByCode | src/main/java/br/com/fiap/soat7/adapter/repositories/SaleRepository.java:16 | the row `findByPaymentCode` finds holds the code; none is found exactly when no row holds it |
| Sales.FindByCodeUnique | src/main/java/br/com/fiap/soat7/data/domain/Sale.java:16 | under the unique payment-code index, the lookup by a row's payment code returns that row |
| Sales.Sale.Pending | src/main/java/br/com/fiap/soat7/data/domain/Sale.java:31-71 | the row a save stores: under the entity's own id, or the next generated id when it has none, with the entity's car id, status, locked price, expiry, payment code, CPF and sale instant |
| Sales.Sale.Load | src/main/java/br/com/fiap/soat7/data/domain/Sale.java:31-71 | the entity the repository materialises holds the stored row's id and columns |
| Sales.Sale.constructor | src/main/java/br/com/fiap/soat7/data/domain/Sale.java:21 | `new Sale()` has every field null |
| Cars.Car.Empty | src/main/java/br/com/fiap/soat7/data/domain/Car.java:15 | the no-argument car: no id, unsold |
| Cars.Car.constructor | src/main/java/br/com/fiap/soat7/data/domain/Car.java:41-49 | a new car holds the given attributes, has no id, is unsold and is stamped with the current instant |
| Cars.Car.Load | src/main/java/br/com/fiap/soat7/data/domain/Car.java:18-39 | the entity the repository materialises holds the stored row's columns |
| Cars.Car.Update | src/main/java/br/com/fiap/soat7/data/domain/Car.java:51-62 | refused (`Conflict`, nothing changed) exactly when the car is sold; otherwise the five attributes are the new ones, `updatedAt` is now, and the id and sold flag are kept |
| Cars.Car.MarkAsSold | src/main/java/br/com/fiap/soat7/data/domain/Car.java:64-69 | refused exactly when already sold; afterwards the car is sold and every other field is unchanged |
| Cars.MarkAsSoldTwice | src/main/java/br/com/fiap/soat7/data/domain/Car.java:64-69 | a second `markAsSold` always fails |
| Cars.UpdateAfterSale | src/main/java/br/com/fiap/soat7/data/domain/Car.java:51-69 | once a car is marked sold every update is refused, and every field but `sold` keeps its old value |
| Repositories.CheapestExists | src/main/java/br/com/fiap/soat7/adapter/repositories/CarRepository.java:10-11 | any non-empty set of stored cars has a cheapest member, so the ordered query can always pick the next car |
| Repositories.CarRepository.FindById | src/main/java/br/com/fiap/soat7/adapter/repositories/CarRepository.java:8 | empty exactly when no car has the id; otherwise a fresh entity holding the stored row |
| Repositories.CarRepository.Save | src/main/java/br/com/fiap/soat7/adapter/repositories/CarRepository.java:8 | the entity's row is stored under its id and nothing else changes |
| Repositories.CarRepository.FindBySoldOrderByPriceAsc | src/main/java/br/com/fiap/soat7/adapter/repositories/CarRepository.java:10-11 | every stored car with the given sold flag, each once, exactly as stored, and ascending by price |
| Repositories.ListingGrows | src/main/java/br/com/fiap/soat7/adapter/repositories/CarRepository.java:10-11 | appending a cheapest remaining car keeps the partial listing sorted, made of stored matching cars, free of repeats and covering every matching car not still remaining |
| Repositories.AdmittedKeepsLedger | src/main/java/br/com/fiap/soat7/data/domain/Sale.java:15-16 | writing a row the table accepts keeps car ids and payment codes unique and the columns within their limits |
| Repositories.SaleRepository.LockByCarId | src/main/java/br/com/fiap/soat7/adapter/repositories/SaleRepository.java:18-20 | empty exactly when the car has no sale; otherwise a fresh entity holding its row |
| Repositories.SaleRepository.FindByPaymentCode | src/main/java/br/com/fiap/soat7/adapter/repositories/SaleRepository.java:16 | empty exactly when no row holds the code; otherwise a fresh entity holding the row with that code |
| Repositories.SaleRepository.Save | src/main/java/br/com/fiap/soat7/data/domain/Sale.java:31-71 | accepted exactly when the `NOT NULL` columns are set, an insert does not duplicate a car id, the payment code is unused by other rows, and CPF and locked price fit their columns; an accepted insert gets the next id; a refused save writes nothing; the table's guarantees are kept |
| Dto.Violations | src/main/java/br/com/fiap/soat7/data/domain/dto/CarSellRequest.java:7-14 | the validator's report: one violation per failing constraint, `@NotBlank` and `@Pattern` on buyerCpf and `@NotNull` on soldAt |
| Dto.ElevenDigitsNotBlank | src/main/java/br/com/fiap/soat7/data/domain/dto/CarSellRequest.java:8-9 | a CPF matching `\d{11}` always satisfies `@NotBlank` |
| Dto.ValidIff | src/main/java/br/com/fiap/soat7/data/domain/dto/CarSellRequest.java:7-14 | a request has no violation exactly when buyerCpf is eleven ASCII digits and soldAt is present |
| Dto.ViolationsByField | src/main/java/br/com/fiap/soat7/data/domain/dto/CarSellRequest.java:7-14 | buyerCpf is reported exactly when it breaks `@NotBlank` or `@Pattern`, and soldAt exactly when it is null |
| Dto.BlankCpfRejected | src/main/java/br/com/fiap/soat7/data/domain/dto/CarSellRequest.java:8-10 | a blank CPF breaks both `@NotBlank` and the pattern |
| Dto.ShortCpfRejected | src/main/java/br/com/fiap/soat7/data/domain/dto/CarSellRequest.java:9-10 | a three-digit CPF breaks only the pattern |
| Dto.MissingSoldAtRejected | src/main/java/br/com/fiap/soat7/data/domain/dto/CarSellRequest.java:12-13 | a null soldAt breaks `@NotNull` |
| SalesServices.StatusKey | src/main/java/br/com/fiap/soat7/usecase/services/impl/SalesServiceImpl.java:90 | a null status becomes the empty key; the key is `PAID` (or `CANCELED`) exactly when the status spells that word in any mix of cases |
| SalesServices.StatusKeyOfOutcomes | src/main/java/br/com/fiap/soat7/usecase/services/impl/SalesServiceImpl.java:90 | `PAID` and `CANCELED` are their own keys |
| SalesServices.SaleToReserve | src/main/java/br/com/fiap/soat7/usecase/services/impl/SalesServiceImpl.java:49-56 | the locked sale of the car when there is one; otherwise a new AVAILABLE sale for the car at its price, with the next generated id and no expiry, code, CPF or sale instant |
| SalesServices.Reserve | src/main/java/br/com/fiap/soat7/usecase/services/impl/SalesServiceImpl.java:71-73 | the reserved sale has status RESERVED, expires fifteen minutes after `now` (so it is active at `now`), holds the new code, and keeps its id, car, locked price, CPF and sale instant |
| SalesServices.PurchaseSpec | src/main/java/br/com/fiap/soat7/usecase/services/impl/SalesServiceImpl.java:44-85 | `NotFound` exactly for an unknown car; `Conflict` exactly when the car's sale is paid or holds an unexpired reservation; a failure changes nothing; a success flags the car sold and reserves the sale for fifteen minutes under the new code, reusing the stored sale (same id, locked price, CPF, sale instant) or inserting one at the car's price with the next id, and answers with that sale; the store invariants are kept |
| SalesServices.PurchaseSucceeds | src/main/java/br/com/fiap/soat7/usecase/services/impl/SalesServiceImpl.java:70-84 | when nothing refuses it, purchase stores the reserved sale and the sold car and answers with the saved id, code and expiry |
| SalesServices.PurchaseRejectedOnlyForUnfitPrice | src/main/java/br/com/fiap/soat7/usecase/services/impl/SalesServiceImpl.java:51-77 | with an unused code the database refuses a purchase exactly when it inserts a new sale whose price does not fit `locked_price` |
| SalesServices.ReserveTwiceConflicts | src/main/java/br/com/fiap/soat7/usecase/services/impl/SalesServiceImpl.java:63-68 | a second purchase before the reservation expires is a `Conflict` |
| SalesServices.ExpiredReservationReclaimed | src/main/java/br/com/fiap/soat7/usecase/services/impl/SalesServiceImpl.java:63-73 | after expiry the car can be reserved again, on the same sale row with its locked price and the new code |
| SalesServices.PurchaseConflicts | src/main/java/br/com/fiap/soat7/usecase/services/impl/SalesServiceImpl.java:59-68 | a paid sale or an unexpired reservation makes purchase a `Conflict` that changes nothing |
| SalesServices.PurchaseStorageRejected | src/main/java/br/com/fiap/soat7/usecase/services/impl/SalesServiceImpl.java:75 | a reserved row the table refuses makes purchase fail with both stores unchanged |
| SalesServices.StoredSaleAdmitsUnusedCode | src/main/java/br/com/fiap/soat7/usecase/services/impl/SalesServiceImpl.java:71-75 | re-reserving an existing sale under a code no sale holds gives a row the table accepts |
| SalesServices.PaidSale | src/main/java/br/com/fiap/soat7/usecase/services/impl/SalesServiceImpl.java:102-105 | the paid sale has status PAID, no expiry, the request's CPF and as sale instant the event's when given and `now` otherwise, and keeps its id, car, code and locked price |
| SalesServices.CanceledSale | src/main/java/br/com/fiap/soat7/usecase/services/impl/SalesServiceImpl.java:115-116 | the canceled sale has status CANCELED and no expiry, and keeps every other column |
| SalesServices.SettledRowKeepsLedger | src/main/java/br/com/fiap/soat7/usecase/services/impl/SalesServiceImpl.java:101-122 | rewriting a sale in place with the same id, car, code and price is accepted exactly when the CPF fits, and then keeps ids and codes unique |
| SalesServices.WebhookSpec | src/main/java/br/com/fiap/soat7/usecase/services/impl/SalesServiceImpl.java:89-125 | `NotFound` exactly when no sale with a stored car holds the code; `BadRequest` exactly when one does and the status is neither `PAID` nor `CANCELED` in any case; failures change nothing and send nothing; at most one notification; the store invariants are kept |
| SalesServices.WebhookUnknownCodeNotFound | src/main/java/br/com/fiap/soat7/usecase/services/impl/SalesServiceImpl.java:92-93 | an unknown payment code is `NotFound` whatever the status |
| SalesServices.WebhookMissingCarNotFound | src/main/java/br/com/fiap/soat7/usecase/services/impl/SalesServiceImpl.java:94-95 | a sale whose car is not in the catalog is `NotFound` |
| SalesServices.WebhookRepeatIsNoop | src/main/java/br/com/fiap/soat7/usecase/services/impl/SalesServiceImpl.java:97-99 | `PAID` on a paid sale, or `CANCELED` on a canceled one, succeeds and changes nothing |
| SalesServices.WebhookPaidEffects | src/main/java/br/com/fiap/soat7/usecase/services/impl/SalesServiceImpl.java:101-112 | `PAID` on an unpaid sale succeeds exactly when the CPF fits its column; it then stores the CPF and the event instant (or now), clears the reservation, leaves the catalog alone and sends exactly one event for the sale |
| SalesServices.WebhookCanceledEffects | src/main/java/br/com/fiap/soat7/usecase/services/impl/SalesServiceImpl.java:114-122 | `CANCELED` on a sale not canceled succeeds, clears the reservation, flags the car unsold and notifies nobody |
| SalesServices.WebhookDependsOnKey | src/main/java/br/com/fiap/soat7/usecase/services/impl/SalesServiceImpl.java:90 | two notifications that differ only in the spelling of a status with the same upper-cased key have the same effect |
| SalesServices.WebhookIdempotent | src/main/java/br/com/fiap/soat7/usecase/services/impl/SalesServiceImpl.java:97-99 | a webhook that succeeded, delivered again, changes nothing and sends nothing |
| SalesServices.WebhookStatusAnyCase | src/main/java/br/com/fiap/soat7/usecase/services/impl/SalesServiceImpl.java:90 | any spelling of `paid` that upper-cases to `PAID` behaves as `PAID` |
| SalesServices.ReservedCodeLocates | src/main/java/br/com/fiap/soat7/usecase/services/impl/SalesServiceImpl.java:73 | after a purchase, the code it hands out finds the reserved sale |
| SalesServices.PaidCarNotPurchasable | src/main/java/br/com/fiap/soat7/usecase/services/impl/SalesServiceImpl.java:59-61 | once the reservation is paid, any later purchase of the car is a `Conflict` |
| SalesServices.CanceledCarPurchasable | src/main/java/br/com/fiap/soat7/usecase/services/impl/SalesServiceImpl.java:114-122 | a canceled reservation frees the car at once; the next purchase reuses the sale with the new code and flags the car sold again |
| SalesServices.CancelAfterPurchase | src/main/java/br/com/fiap/soat7/usecase/services/impl/SalesServiceImpl.java:114-122 | `CANCELED` for a fresh reservation succeeds, unsells the car, marks the same sale row canceled and leaves a different unused code unused |
| SalesServices.LatePaymentAfterCancel | src/main/java/br/com/fiap/soat7/usecase/services/impl/SalesServiceImpl.java:101-122 | `PAID` after `CANCELED` marks the sale paid and notifies Core while the car stays unsold |
| SalesServices.SalesServiceImpl.constructor | src/main/java/br/com/fiap/soat7/usecase/services/impl/SalesServiceImpl.java:22-29 | the service over two stores that satisfy the invariant, with no notification sent |
| SalesServices.SalesServiceImpl.ListAvailable | src/main/java/br/com/fiap/soat7/usecase/services/impl/SalesServiceImpl.java:32-35 | every unsold car, each once, cheapest first |
| SalesServices.SalesServiceImpl.ListSold | src/main/java/br/com/fiap/soat7/usecase/services/impl/SalesServiceImpl.java:37-40 | every sold car, each once, cheapest first |
| SalesServices.SalesServiceImpl.Purchase | src/main/java/br/com/fiap/soat7/usecase/services/impl/SalesServiceImpl.java:44-85 | the result and the new contents of both stores are those of `PurchaseSpec`, and the invariant is kept |
| SalesServices.SalesServiceImpl.ReserveSale | src/main/java/br/com/fiap/soat7/usecase/services/impl/SalesServiceImpl.java:71-84 | the reservation step of purchase: result and new stores are those `PurchaseSpec` gives for a car that is neither paid nor actively reserved, and the invariant is kept |
| SalesServices.SalesServiceImpl.RecordPayment | src/main/java/br/com/fiap/soat7/usecase/services/impl/SalesServiceImpl.java:101-112 | the `PAID` branch succeeds exactly when the CPF fits its column; then the sale row becomes the paid row (status, CPF, sale instant, no reservation) and exactly one `SoldEvent` for it is appended to the log; when refused, the stores and the log are untouched |
| SalesServices.SalesServiceImpl.RecordCancellation | src/main/java/br/com/fiap/soat7/usecase/services/impl/SalesServiceImpl.java:114-122 | the `CANCELED` branch always succeeds: the sale row becomes the canceled row and the car is unsold again, the rest of both stores unchanged, and the invariant is kept |
| SalesServices.SalesServiceImpl.HandlePaymentWebhook | src/main/java/br/com/fiap/soat7/usecase/services/impl/SalesServiceImpl.java:89-125 | the outcome, the new stores and the events appended to the notification log are those of `WebhookSpec`, and the invariant is kept |
| CarSync.SyncedRow | src/main/java/br/com/fiap/soat7/usecase/services/impl/CarSyncServiceImpl.java:26-33 | the row upsert stores: the request's id and attributes, unsold, stamped with the service's clock |
| CarSync.Upserted | src/main/java/br/com/fiap/soat7/usecase/services/impl/CarSyncServiceImpl.java:21-35 | the catalog gains the request's id if new; that car is unsold and stamped now; every other car is unchanged |
| CarSync.UpsertAddsOne | src/main/java/br/com/fiap/soat7/usecase/services/impl/CarSyncServiceImpl.java:23-24 | a car not yet replicated adds exactly one row |
| CarSync.UpsertAddsNoneWhenPresent | src/main/java/br/com/fiap/soat7/usecase/services/impl/CarSyncServiceImpl.java:23-24 | a replicated car is overwritten in place |
| CarSync.UpsertStoresRequest | src/main/java/br/com/fiap/soat7/usecase/services/impl/CarSyncServiceImpl.java:26-31 | the stored car carries the request's id, brand, model, year, color and price |
| CarSync.UpsertIdempotent | src/main/java/br/com/fiap/soat7/usecase/services/impl/CarSyncServiceImpl.java:21-35 | pushing a request twice equals pushing it once at the later instant |
| CarSync.UpsertIgnoresRequestTimestamp | src/main/java/br/com/fiap/soat7/usecase/services/impl/CarSyncServiceImpl.java:32 | the request's own `updatedAt` has no effect |
| CarSync.UpsertReopensSoldCar | src/main/java/br/com/fiap/soat7/usecase/services/impl/CarSyncServiceImpl.java:33 | a sold car pushed again is back on sale at the pushed price |
| CarSync.UpsertKeepsKeyed | src/main/java/br/com/fiap/soat7/usecase/services/impl/CarSyncServiceImpl.java:26 | the catalog stays keyed by car id |
| CarSync.CarSyncServiceImpl.Upsert | src/main/java/br/com/fiap/soat7/usecase/services/impl/CarSyncServiceImpl.java:21-35 | the catalog afterwards is `Upserted` of the catalog before |
| Security.RawRoles | src/main/java/br/com/fiap/soat7/infra/config/security/SecurityConfig.java:60-67 | a non-empty `roles` list is used as it is; otherwise at most one name, the `role` claim, and never a blank one |
| Security.TrimmedNonBlank | src/main/java/br/com/fiap/soat7/infra/config/security/SecurityConfig.java:70-71 | trimming and filtering keeps no more names than given, and none of them blank |
| Security.Kept | src/main/java/br/com/fiap/soat7/infra/config/security/SecurityConfig.java:70-71 | one entry after trim and filter: at most one name, the trimmed entry, never blank |
| Security.TrimmedNonBlankMembers | src/main/java/br/com/fiap/soat7/infra/config/security/SecurityConfig.java:70-71 | the names kept are exactly the trimmed entries that are not blank |
| Security.Prefixed | src/main/java/br/com/fiap/soat7/infra/config/security/SecurityConfig.java:72 | the result starts with `ROLE_`; a name that already does is kept verbatim, any other gets the prefix |
| Security.PrefixedAll | src/main/java/br/com/fiap/soat7/infra/config/security/SecurityConfig.java:72 | the prefix step over the list: same length, each name prefixed in place |
| Security.PrefixedAllMembers | src/main/java/br/com/fiap/soat7/infra/config/security/SecurityConfig.java:72 | the prefixed list holds exactly the prefixed names |
| Security.Distinct | src/main/java/br/com/fiap/soat7/infra/config/security/SecurityConfig.java:73 | `distinct()` keeps the same elements, each once, and never lengthens the list |
| Security.DistinctKeepsFirstOccurrenceOrder | src/main/java/br/com/fiap/soat7/infra/config/security/SecurityConfig.java:73 | `distinct()` lists the elements in the order of their first occurrences |
| Security.ExtractAuthorities | src/main/java/br/com/fiap/soat7/infra/config/security/SecurityConfig.java:58-76 | every authority starts with `ROLE_`, none repeats, there are no more than the raw role names, and an authority is granted exactly when it is the prefixed form of a kept name |
| Security.ExtractFromRoles | src/main/java/br/com/fiap/soat7/infra/config/security/SecurityConfig.java:60-62 | a non-empty `roles` list decides alone; the `role` claim is ignored |
| Security.RoleFallback | src/main/java/br/com/fiap/soat7/infra/config/security/SecurityConfig.java:62-71 | without roles, the `role` claim grants exactly one authority when it is non-blank once trimmed, and none otherwise |
| Security.ControlCharacterRoleGrantsNothing | src/main/java/br/com/fiap/soat7/infra/config/security/SecurityConfig.java:64-71 | a `role` of U+0000 passes the blank test yet grants nothing |
| Security.NameAndPrefixedNameCollapse | src/main/java/br/com/fiap/soat7/infra/config/security/SecurityConfig.java:72-73 | a name and its `ROLE_` form yield a single authority |
| Security.TrimmedNonBlankAppend | src/main/java/br/com/fiap/soat7/infra/config/security/SecurityConfig.java:70-71 | trimming and filtering a list with one more entry appends exactly what that entry alone keeps |
| Security.BlankRoleEntryIgnored | src/main/java/br/com/fiap/soat7/infra/config/security/SecurityConfig.java:70-71 | an entry that trims to blank adds no authority |

## Left out

- The HTTP call that notifies Core (`notifyCoreCarSold`) is left out. Its `WebClient` request and
  its asynchronous subscription are I/O, so the model appends the `CarSoldEvent` to a ghost log
  instead.
- `@Transactional`, the pessimistic lock of `lockByCarId` and the `@Version` column are left out.
  They concern concurrent callers, and each call is modelled as one atomic step.
- JPA writes an update at commit, after the notification has been triggered, so a `PAID` update
  that the database refuses would still have notified Core. The model checks the row at `save`,
  before notifying, and is in that respect stricter than the code.
- `purchase` reads the clock twice (the expiry check and the new expiry). The model uses one
  instant, `now`.
- The controllers, the exception handler, the JWT decoding, the RSA key loading and the
  `WebClient` configuration are outside the modelled core.
- `SaleRepository.findByStatusOrderByLockedPriceAsc` is left out: nothing in the core calls it.
- `CarSyncRequest` fields are modelled as non-null. The length limits of the `car_view` columns
  and the precision of `price` are not checked on save, because the catalog is filled only by Core.
- The queries return `CarRow` values rather than managed `Car` entities. Callers of
  `listAvailable`/`listSold` only read them.
- Repositories.SaleRepository.Save: demands that an updated entity still carry the car id of the
  row it was loaded from. The service never changes a loaded sale's car id, and JPA would
  otherwise update a different row.
- JavaText.UpperCase: covers only the mappings that decide equality with an upper-case ASCII
  word. Other characters are kept as they are. Java maps each of them either to itself or to
  something holding a non-ASCII character, and in the second case the kept character is itself
  non-ASCII, so the comparison with `PAID` and `CANCELED` comes out the same.
- JavaText.UpperOf: keeps every character other than a–z, ı, ſ, ß and the ligatures U+FB00..U+FB06.
  Java upper-cases many of them (é becomes É) or expands them (U+0149 becomes U+02BC followed by
  N). Each such result holds a non-ASCII character, as the kept character does, so equality with
  `PAID` or `CANCELED` is decided the same way; the exact upper case is not modelled.
- SalesServices.StatusKey: assumes a default locale other than Turkish, Azeri or Lithuanian.
  Under tr or az `paid` upper-cases to `PAİD` and is refused as a bad status; under lt a dotted
  i followed by U+0307 upper-cases to a plain I. Length-changing special casings other than the
  sharp s and the Latin ligatures are not modelled; they cannot produce `PAID` or `CANCELED`.
- Repositories.SaleRepository.FindByPaymentCode: when several rows hold a null payment code,
  a lookup by a null code makes Spring Data throw `IncorrectResultSizeDataAccessException`; the
  model returns one of those rows. Within the service no stored sale has a null code
  (`CodesAssigned`), so a null code finds nothing there.
- Repositories.SaleRepository.Save: a refused insert leaves the next generated id unchanged,
  while a database may consume an identity value for it. Ids are compared only for equality, so
  no proved property depends on the gap.
- Cars.Car.Update: the catalog attributes are modelled as non-null values, in `update` as in the
  constructor (Car.java:41-62). Java accepts null arguments there, and the `NOT NULL` columns of
  `car_view` would refuse them at save.
- Security.ExtractAuthorities: returns the authority names; wrapping each in a
  `SimpleGrantedAuthority` is left out. A null entry inside the `roles` list makes `String::trim`
  throw `NullPointerException`; `Claims` holds only non-null names, so that failure is not
  modelled.
- The `BigDecimal` scale of prices is modelled as integer cents. The model does not capture
  prices with more than two decimals.
