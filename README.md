# buttons — a verified model of the button CRUD core

The buttons service stores UI buttons. Each has a name, an optional description, a type, a status, and audit fields. The service exposes them over a small REST API. This project models the service's core layers in Dafny, one module per layer.

- **Kotlin** (`kotlin.dfy`) holds the runtime pieces the core depends on:
  - `kotlin.Result`, where a failure is tagged IllegalArgumentException or other;
  - nullable values (`Option`);
  - `String.isBlank` over `Char.isWhitespace`;
  - the wrap-around of `Int` and `Long`;
  - Kotlin's integer division, which rounds toward zero.
- **Entity** (`entity.dfy`) is the `Button` entity: a class whose ten `var` fields the mutators `activate`, `deactivate`, `updateInfo`, `changeType` and `softDelete` overwrite in place.
  - Each mutator is specified by a pure transition function on a snapshot `ButtonState`.
  - The lifecycle properties are proved about those functions and about `Replay` over any sequence of mutations. The name rule is kept, identification and creation audit never change, and soft deletion is permanent.
  - The constructor's `init` check is the same `IsValidName` rule in `Construct`, the constructor and `Button.Create`.
- **Infrastructure** (`repository.dfy`) is `InMemoryButtonRepository`, a class with a `map<Uuid, Button>` field and its eight operations.
  - The invariant `Valid()` says every stored button carries its own key as its id.
  - `save` gives a button without id a fresh identifier and writes it into that same object.
  - `findAll` and `findByActiveStatus` are loops over the keys. Each is proved to list every selected entry exactly once.
- **UseCase** (`usecases.dfy`) holds `CreateButtonUseCase` (duplicate-name check, construction, save) and `GetButtonUseCase`, four read-only delegations wrapped in `Success`.
- **DomainDto** (`domaindto.dfy`) holds `ButtonDto`, its conversions in both directions, and the command validators.
- **RequestDto** (`requestdto.dfy`) holds the request validators: the name rule, the status-string rule, and page/size bounds.
- **ResponseDto** (`responsedto.dfy`) holds the response mappers and the page-count arithmetic of `PagedButtonResponseDto.of`, computed in Kotlin `Int`/`Long`.
- **Controller** (`controller.dfy`) maps each result variant of the use cases to an HTTP status and body. It also holds the four handlers. Each handler's contract speaks of the repository its own use case holds.

The wall clock is the parameter `now`. `UUID.randomUUID()` becomes a choice of any identifier that is not yet a key.

## Model

| member | source | states |
|---|---|---|
| Kotlin.WrapInt | apps/service_api/src/main/kotlin/org/drakejin/buttons/dto/ButtonResponseDto.kt:152 | `Long.toInt()`: the result is an Int congruent to the input modulo 2^32, and equal to it when it already fits |
| Kotlin.WrapLong | apps/service_api/src/main/kotlin/org/drakejin/buttons/dto/ButtonResponseDto.kt:152 | Long arithmetic: the result is a Long congruent to the input modulo 2^64, and equal to it when it fits |
| Kotlin.TruncDiv | apps/service_api/src/main/kotlin/org/drakejin/buttons/dto/ButtonResponseDto.kt:152 | Kotlin `/` rounds toward zero: the remainder is smaller than the divisor in magnitude and has the sign of the dividend |
| Kotlin.IsWhitespace | entity/src/main/kotlin/org/drakejin/buttons/entity/Button.kt:53 | `Char.isWhitespace` as a fixed set of Java whitespace and Unicode space characters; no ASCII letter or digit is whitespace |
| Kotlin.IsBlank | entity/src/main/kotlin/org/drakejin/buttons/entity/Button.kt:53 | `isBlank`: every character is whitespace; the empty string is blank, and a string containing an ASCII letter or digit is not |
| Entity.IsValidName | entity/src/main/kotlin/org/drakejin/buttons/entity/Button.kt:52-55 | the init check: not blank and at most 100 characters; a valid name has between 1 and 100 characters |
| Entity.ButtonState.IsDeleted | entity/src/main/kotlin/org/drakejin/buttons/entity/Button.kt:115 | deleted iff deletedAt is present, on a snapshot of the fields |
| Entity.ButtonState.IsActive | entity/src/main/kotlin/org/drakejin/buttons/entity/Button.kt:120 | active iff status is ACTIVE and the button is not deleted, on a snapshot |
| Entity.Construct | entity/src/main/kotlin/org/drakejin/buttons/entity/Button.kt:19-55 | construction succeeds iff the name is not blank and has at most 100 characters, else IllegalArgument; every field is the argument or its default; isActive iff status ACTIVE and no deletedAt |
| Entity.ConstructDefaults | entity/src/main/kotlin/org/drakejin/buttons/entity/Button.kt:21-50 | with all defaults a new button has no id, no description, type DEFAULT, status ACTIVE, no deletedAt, so it is active and not deleted |
| Entity.Activated | entity/src/main/kotlin/org/drakejin/buttons/entity/Button.kt:60-65 | status ACTIVE and audit fields set; id, name, description, type, creation audit and deletedAt unchanged; active iff not soft-deleted |
| Entity.Deactivated | entity/src/main/kotlin/org/drakejin/buttons/entity/Button.kt:70-75 | status INACTIVE and audit fields set; every other field unchanged; never active afterwards |
| Entity.InfoUpdated | entity/src/main/kotlin/org/drakejin/buttons/entity/Button.kt:80-89 | fails with IllegalArgument iff the new name is invalid; otherwise only name, description, updatedAt and updatedBy change |
| Entity.TypeChanged | entity/src/main/kotlin/org/drakejin/buttons/entity/Button.kt:94-99 | only type, updatedAt and updatedBy change; activity is unchanged |
| Entity.SoftDeleted | entity/src/main/kotlin/org/drakejin/buttons/entity/Button.kt:104-110 | status DELETED, deletedAt present and equal to updatedAt, updatedBy the actor; deleted and not active whatever the prior status |
| Entity.ReplayKeepsInvariant | entity/src/main/kotlin/org/drakejin/buttons/entity/Button.kt:52-110 | after any sequence of mutators the name rule still holds and id, createdAt and createdBy are unchanged |
| Entity.SoftDeleteIsPermanent | entity/src/main/kotlin/org/drakejin/buttons/entity/Button.kt:60-120 | no mutator clears deletedAt: once deleted, a button stays deleted and inactive after any mutations, activate included |
| Entity.SoftDeletePermanentStep | entity/src/main/kotlin/org/drakejin/buttons/entity/Button.kt:60-110 | a single mutation of a deleted state leaves it deleted |
| Entity.Button.constructor | entity/src/main/kotlin/org/drakejin/buttons/entity/Button.kt:19-51 | for a valid name, the new object's fields are exactly those of Construct |
| Entity.Button.Create | entity/src/main/kotlin/org/drakejin/buttons/entity/Button.kt:19-55 | the constructor with its init check: a fresh valid button with Construct's fields, or Construct's failure |
| Entity.Button.IsDeleted | entity/src/main/kotlin/org/drakejin/buttons/entity/Button.kt:115 | deleted iff deletedAt is present, read from the object |
| Entity.Button.IsActive | entity/src/main/kotlin/org/drakejin/buttons/entity/Button.kt:120 | active iff status is ACTIVE and the button is not deleted, read from the object |
| Entity.Button.Activate | entity/src/main/kotlin/org/drakejin/buttons/entity/Button.kt:60-65 | the new state is Activated of the old one and the name rule still holds; returns the receiver |
| Entity.Button.Deactivate | entity/src/main/kotlin/org/drakejin/buttons/entity/Button.kt:70-75 | the new state is Deactivated of the old one and the name rule still holds; returns the receiver |
| Entity.Button.UpdateInfo | entity/src/main/kotlin/org/drakejin/buttons/entity/Button.kt:80-89 | the new state is InfoUpdated of the old one and the name rule still holds; on an invalid name it fails and no field is written |
| Entity.Button.ChangeType | entity/src/main/kotlin/org/drakejin/buttons/entity/Button.kt:94-99 | the new state is TypeChanged of the old one and the name rule still holds; returns the receiver |
| Entity.Button.SoftDelete | entity/src/main/kotlin/org/drakejin/buttons/entity/Button.kt:104-110 | the new state is SoftDeleted of the old one and the name rule still holds; returns the receiver |
| Infrastructure.DistinctCardinality | apps/service_api/src/main/kotlin/org/drakejin/buttons/infrastructure/InMemoryButtonRepository.kt:20-22 | a key sequence without repetitions has as many elements as the set it covers |
| Infrastructure.EnumeratesLength | apps/service_api/src/main/kotlin/org/drakejin/buttons/infrastructure/InMemoryButtonRepository.kt:20-22 | a listing of the selected entries, each once, has exactly as many elements as there are selected keys |
| Infrastructure.Bound | apps/service_api/src/main/kotlin/org/drakejin/buttons/infrastructure/InMemoryButtonRepository.kt:39 | there is always an identifier that is not yet a key, so a fresh id can be chosen |
| Infrastructure.InMemoryButtonRepository.constructor | apps/service_api/src/main/kotlin/org/drakejin/buttons/infrastructure/InMemoryButtonRepository.kt:18 | starts empty and valid |
| Infrastructure.InMemoryButtonRepository.FindAll | apps/service_api/src/main/kotlin/org/drakejin/buttons/infrastructure/InMemoryButtonRepository.kt:20-22 | returns every stored button exactly once, as many as there are entries; the map is not changed |
| Infrastructure.InMemoryButtonRepository.FindById | apps/service_api/src/main/kotlin/org/drakejin/buttons/infrastructure/InMemoryButtonRepository.kt:24-26 | the entry at the id, or none exactly when the id is absent |
| Infrastructure.InMemoryButtonRepository.FindByName | apps/service_api/src/main/kotlin/org/drakejin/buttons/infrastructure/InMemoryButtonRepository.kt:28-30 | none iff no stored button has the name; otherwise a stored button with exactly that name |
| Infrastructure.InMemoryButtonRepository.FindByActiveStatus | apps/service_api/src/main/kotlin/org/drakejin/buttons/infrastructure/InMemoryButtonRepository.kt:32-34 | returns exactly the stored active buttons, each once, as many as there are active entries; every returned button is stored and active |
| Infrastructure.InMemoryButtonRepository.Save | apps/service_api/src/main/kotlin/org/drakejin/buttons/infrastructure/InMemoryButtonRepository.kt:36-49 | a button without id gets an id not yet a key, written into that object; an id is kept; the button is stored under its id, every other entry is unchanged, no other field changes, the invariant holds |
| Infrastructure.InMemoryButtonRepository.DeleteById | apps/service_api/src/main/kotlin/org/drakejin/buttons/infrastructure/InMemoryButtonRepository.kt:51-53 | true iff the id was present; afterwards it is absent and every other entry is unchanged |
| Infrastructure.InMemoryButtonRepository.ExistsById | apps/service_api/src/main/kotlin/org/drakejin/buttons/infrastructure/InMemoryButtonRepository.kt:55-57 | true iff the id is a key |
| Infrastructure.InMemoryButtonRepository.ExistsByName | apps/service_api/src/main/kotlin/org/drakejin/buttons/infrastructure/InMemoryButtonRepository.kt:59-61 | true iff some stored button has exactly that name |
| UseCase.CreateButtonUseCase.constructor | domains/src/main/kotlin/org/drakejin/buttons/domain/usecase/CreateButtonUseCase.kt:14-16 | holds the given repository |
| UseCase.CreateButtonUseCase.Execute | domains/src/main/kotlin/org/drakejin/buttons/domain/usecase/CreateButtonUseCase.kt:28-57 | description defaults to none and type to DEFAULT; succeeds iff no stored button has the name and the name is valid; a failure is IllegalArgument and leaves the map unchanged; a success is a new ACTIVE button with the given fields, createdBy == updatedBy, a fresh id, found under that id, and the map gains exactly one entry; distinct names stay distinct |
| UseCase.GetButtonUseCase.constructor | domains/src/main/kotlin/org/drakejin/buttons/domain/usecase/GetButtonUseCase.kt:12-14 | holds the given repository |
| UseCase.GetButtonUseCase.ExecuteById | domains/src/main/kotlin/org/drakejin/buttons/domain/usecase/GetButtonUseCase.kt:22-29 | always a success; it carries the entry at the id, or none for an unknown id |
| UseCase.GetButtonUseCase.ExecuteAll | domains/src/main/kotlin/org/drakejin/buttons/domain/usecase/GetButtonUseCase.kt:36-43 | always a success listing every stored button once |
| UseCase.GetButtonUseCase.ExecuteByActiveStatus | domains/src/main/kotlin/org/drakejin/buttons/domain/usecase/GetButtonUseCase.kt:50-57 | always a success listing exactly the active stored buttons, each of them active |
| UseCase.GetButtonUseCase.ExecuteByName | domains/src/main/kotlin/org/drakejin/buttons/domain/usecase/GetButtonUseCase.kt:65-72 | always a success; none iff no stored button has the name |
| DomainDto.From | domains/src/main/kotlin/org/drakejin/buttons/domain/dto/ButtonDto.kt:31-44 | copies all ten fields; the DTO's isActive and isDeleted agree with the entity's |
| DomainDto.ButtonDto.IsDeleted | domains/src/main/kotlin/org/drakejin/buttons/domain/dto/ButtonDto.kt:69 | deleted iff deletedAt is present, the same formula as the entity |
| DomainDto.ButtonDto.IsActive | domains/src/main/kotlin/org/drakejin/buttons/domain/dto/ButtonDto.kt:74 | active iff status is ACTIVE and not deleted, the same formula as the entity |
| DomainDto.ButtonDto.ToEntity | domains/src/main/kotlin/org/drakejin/buttons/domain/dto/ButtonDto.kt:51-64 | fails with IllegalArgument iff the name is invalid; otherwise a new valid entity that converts back to this same DTO |
| DomainDto.EntityRoundTrip | domains/src/main/kotlin/org/drakejin/buttons/domain/dto/ButtonDto.kt:31-64 | converting a valid entity to a DTO and back gives a new entity with the same ten field values |
| DomainDto.NewCreateButtonCommand | domains/src/main/kotlin/org/drakejin/buttons/domain/dto/ButtonDto.kt:80-90 | constructs iff the name is not blank and at most 100 long, else IllegalArgument |
| DomainDto.NewUpdateButtonCommand | domains/src/main/kotlin/org/drakejin/buttons/domain/dto/ButtonDto.kt:95-106 | constructs iff the name is not blank and at most 100 long, else IllegalArgument |
| RequestDto.StatusNamesNotBlank | apps/service_api/src/main/kotlin/org/drakejin/buttons/dto/ButtonRequestDto.kt:44-45 | none of the accepted status strings is blank |
| RequestDto.NewCreateButtonRequest | apps/service_api/src/main/kotlin/org/drakejin/buttons/dto/ButtonRequestDto.kt:9-19 | valid iff the name is not blank and at most 100 long, else IllegalArgument |
| RequestDto.CreateRequestDefaults | apps/service_api/src/main/kotlin/org/drakejin/buttons/dto/ButtonRequestDto.kt:11-12 | the defaults are no description and type DEFAULT |
| RequestDto.NewUpdateButtonRequest | apps/service_api/src/main/kotlin/org/drakejin/buttons/dto/ButtonRequestDto.kt:24-34 | the same name rule as the create request |
| RequestDto.NewChangeButtonStatusRequest | apps/service_api/src/main/kotlin/org/drakejin/buttons/dto/ButtonRequestDto.kt:39-49 | accepts exactly "ACTIVE", "INACTIVE" and "DELETED" |
| RequestDto.NewSearchButtonRequest | apps/service_api/src/main/kotlin/org/drakejin/buttons/dto/ButtonRequestDto.kt:61-78 | valid iff page >= 0, 1 <= size <= 100, and the status is absent or one of the three names |
| RequestDto.SearchRequestDefaults | apps/service_api/src/main/kotlin/org/drakejin/buttons/dto/ButtonRequestDto.kt:62-67 | the defaults (page 0, size 20, no filters) form a valid request |
| ResponseDto.From | apps/service_api/src/main/kotlin/org/drakejin/buttons/dto/ButtonResponseDto.kt:30-45 | copies the ten entity fields; isActive and isDeleted are the entity's, and an active view is ACTIVE and not deleted |
| ResponseDto.FromList | apps/service_api/src/main/kotlin/org/drakejin/buttons/dto/ButtonResponseDto.kt:50-52 | keeps length and order: element i is the view of button i |
| ResponseDto.CreateFrom | apps/service_api/src/main/kotlin/org/drakejin/buttons/dto/ButtonResponseDto.kt:59-82 | copies id, name, description, type, status, createdAt and createdBy; the message is "Button created successfully" |
| ResponseDto.UpdateFrom | apps/service_api/src/main/kotlin/org/drakejin/buttons/dto/ButtonResponseDto.kt:87-110 | copies id, name, description, type, status, updatedAt and updatedBy; the message is "Button updated successfully" |
| ResponseDto.DeleteFrom | apps/service_api/src/main/kotlin/org/drakejin/buttons/dto/ButtonResponseDto.kt:115-130 | copies id and deletedAt; deletedBy is the last updater; the message is "Button deleted successfully" |
| ResponseDto.TotalPages | apps/service_api/src/main/kotlin/org/drakejin/buttons/dto/ButtonResponseDto.kt:152 | the page count in Kotlin Int/Long arithmetic, for every input: size 0 gives 1; when totalElements + size fits in a Long, only the final truncation to Int remains and the count is (totalElements + size - 1) / size |
| ResponseDto.LongQuotientExact | apps/service_api/src/main/kotlin/org/drakejin/buttons/dto/ButtonResponseDto.kt:152 | when totalElements + size fits in a Long, no Long step wraps and the truncating quotient equals the Euclidean one |
| ResponseDto.QuotientBelow | apps/service_api/src/main/kotlin/org/drakejin/buttons/dto/ButtonResponseDto.kt:152 | a non-negative dividend divided by a positive size gives a quotient between 0 and the dividend, so it fits in a Long |
| ResponseDto.TruncDivOfNatural | apps/service_api/src/main/kotlin/org/drakejin/buttons/dto/ButtonResponseDto.kt:152 | Kotlin division and Dafny division agree on a non-negative dividend and a positive divisor |
| ResponseDto.CeilingBounds | apps/service_api/src/main/kotlin/org/drakejin/buttons/dto/ButtonResponseDto.kt:152 | (t + s - 1) / s is the fewest pages of s elements that hold t elements; it is 0 iff t is 0 |
| ResponseDto.TotalPagesIsCeiling | apps/service_api/src/main/kotlin/org/drakejin/buttons/dto/ButtonResponseDto.kt:152 | without overflow and for size > 0, totalPages is the ceiling of totalElements / size: (totalPages - 1) * size < totalElements <= totalPages * size, and 0 pages iff no elements |
| ResponseDto.Of | apps/service_api/src/main/kotlin/org/drakejin/buttons/dto/ButtonResponseDto.kt:146-163 | content is the converted list; first iff page 0; last iff page >= totalPages - 1 in Int arithmetic; empty iff no buttons |
| ResponseDto.EmptyListingIsLast | apps/service_api/src/main/kotlin/org/drakejin/buttons/dto/ButtonResponseDto.kt:152-160 | with no elements and size > 0 there are 0 pages and last holds exactly for pages >= -1 |
| ResponseDto.ZeroSizeIsOnePage | apps/service_api/src/main/kotlin/org/drakejin/buttons/dto/ButtonResponseDto.kt:152-160 | size 0 gives one page, and last holds exactly for pages >= 0 |
| Controller.GetAllButtonsResponse | apps/service_api/src/main/kotlin/org/drakejin/buttons/controller/ButtonController.kt:33-54 | 200 with success and the converted list iff the result is a success; otherwise 500 with success false and no data |
| Controller.GetButtonByIdResponse | apps/service_api/src/main/kotlin/org/drakejin/buttons/controller/ButtonController.kt:62-91 | status in {200, 404, 500}: 200 with the view iff a button was found, 404 "NOT_FOUND" iff none was, 500 "INTERNAL_SERVER_ERROR" on failure |
| Controller.GetActiveButtonsResponse | apps/service_api/src/main/kotlin/org/drakejin/buttons/controller/ButtonController.kt:99-120 | the same response as the getAllButtons mapping, for every result |
| Controller.CreateButtonResponse | apps/service_api/src/main/kotlin/org/drakejin/buttons/controller/ButtonController.kt:134-161 | status in {201, 400, 500}: 201 with the creation view iff success, 400 "BAD_REQUEST" iff an IllegalArgument failure, otherwise 500 "INTERNAL_SERVER_ERROR" |
| Controller.ButtonController.constructor | apps/service_api/src/main/kotlin/org/drakejin/buttons/controller/ButtonController.kt:23-26 | holds the two use cases |
| Controller.ButtonController.GetAllButtons | apps/service_api/src/main/kotlin/org/drakejin/buttons/controller/ButtonController.kt:31-55 | over the in-memory repository: always 200 with success, and the data is the converted list of some enumeration of every stored button, one entry each |
| Controller.ButtonController.GetButtonById | apps/service_api/src/main/kotlin/org/drakejin/buttons/controller/ButtonController.kt:60-92 | over the in-memory repository: 200 with the stored button's view iff the id is stored, else 404 "NOT_FOUND"; never 500 |
| Controller.ButtonController.GetActiveButtons | apps/service_api/src/main/kotlin/org/drakejin/buttons/controller/ButtonController.kt:97-121 | over the in-memory repository: always 200 with success, and the data is the converted list of some enumeration of exactly the active stored buttons, one entry per active button; every listed view is active |
| Controller.ButtonController.CreateButton | apps/service_api/src/main/kotlin/org/drakejin/buttons/controller/ButtonController.kt:126-164 | for a request that passed its checks: 201 iff the name was not yet stored, otherwise 400 "BAD_REQUEST" with the map unchanged, never 500; on 201 the map gains exactly one button under a fresh id and the body is that button's creation view, with the request's name, description, type and creator and status ACTIVE |

## Left out

- Concurrency: the ConcurrentHashMap's thread safety, and the race between `existsByName` and `save` in the create use case. The model is sequential.
- Clock reads become the parameter `now`. The create use case's two default clock reads, for createdAt and updatedAt, are modelled as one `now`, so the model has createdAt == updatedAt.
- `UUID.randomUUID()` is modelled as any identifier that is not yet a key. The model never produces a collision. A real collision would overwrite an entry.
- `Uuid` and `Timestamp` are unbounded integers. Only equality and copying matter to the core.
- Exception messages are left out. A failure carries only its kind: IllegalArgumentException or other.
- The controller's `message`, `timestamp` and `path` fields are left out. `SuccessResponseDto` and `ErrorResponseDto` are modelled as a body that is either an envelope (success flag and data) or an error code.
- `GetButtonUseCase` catch paths: the in-memory repository never throws, so these failures cannot happen in the model. The controller's fold functions still handle every failure.
- `CreateButtonUseCase` catch of unexpected exceptions: the only exception the modelled steps raise is the constructor's IllegalArgumentException.
- `Char.isWhitespace` is a fixed list of the Java whitespace and Unicode space-separator characters. Strings are sequences of code points, not UTF-16 units, so `name.length` counts characters.
- The `ButtonRepository` interface is not modelled separately. The use cases hold the in-memory repository directly, and its eight methods are the interface's.
- JPA annotations, including the description column length of 500, which no code checks.
- Jackson serialization, Spring wiring, HTTP framing, `ValidationDto`, `ButtonConfiguration` and `ButtonsApplication`.
- Controller.ButtonController.constructor: does not require the two use cases to share one repository. The application's configuration injects a single repository into both, but the controller itself does not demand it, so the model proves no property that combines a create with a later read.
- Handler-level request validation by the HTTP layer: `CreateButton` takes a request that already passed `NewCreateButtonRequest`'s check.
- ResponseDto.TotalPagesIsCeiling: states the ceiling only when totalElements + size does not overflow Long and the quotient fits in Int. `TotalPages` and `Of` themselves model the wrap-around and truncating division for every input.
- ResponseDto.Of: `last` is stated as page >= totalPages - 1 computed in Int, not as a page-range property, because the source compares with the raw Int difference.
