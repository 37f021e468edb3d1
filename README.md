# Device registry: a Dafny model

This project models the core of a small HTTP registry of devices. A device
has an id, a name, a brand and a creation timestamp. The model covers:

- the device table the repository exposes, held in memory as a map from id
  to row plus the ids in insertion order and a counter for fresh ids
  (`Repository.DeviceRepository`);
- the seven service operations as methods and functions on a class that
  holds that table (`Service.DeviceService`);
- the `@NotBlank` validation of a request body (`Dto`);
- the global exception handler that turns exceptions into `ApiError` bodies
  (`Exceptions`);
- the controller's routes, the status each answers with on success, and
  which routes validate their body (`Controller`).

`Controller.DeviceController.Handle` puts these together for one request:
the `@Valid` check, then the service call, then the reply. Its contract
shows the main result. Through HTTP, a PUT that succeeds always stores a
non-blank name and brand, although the service's full update is unguarded.
More broadly, a table that holds no blank rows never gets one through any
route. Three client methods (`NotFoundScenario`, `LifecycleScenario` and
`UpdateScenario`) check the integration tests' expectations against these
contracts. `LifecycleScenario` chains `shouldCreateDevice`,
`shouldRetrieveDeviceById` and `shouldDeleteDevice` into one sequence,
which no single test does; the second half of `UpdateScenario`, a PUT with a blank name, is an extra
case of this model that no integration test covers.

Modelling decisions:

- Java `null` is `Option.None`. A thrown exception is `Result.Failure`.
- `Device` is a value. The service reads a row, updates its fields and
  saves it. With a value there is no aliasing to track.
- `save` follows the JPA rules. A device without an id is inserted under a
  fresh id. A device whose id has a row replaces that row. In both cases a
  null `name` or `brand` is refused (`nullable = false`) and nothing
  changes.
- A device whose id has no row is also refused (`StaleRow`). This is
  the behaviour of Hibernate 6.6 and later when merging such an entity. The service never
  does this, because it saves only rows it has just read.
- `deleteById` on an absent id does nothing. This is the behaviour of
  Spring Data 3.
- Ids are handed out from a counter that only grows. This proves that a new
  id is fresh; the concrete numbers are not modelled.
- `createdAt` is whatever auditing supplies when a row is inserted. That is
  the parameter `audit`, and it may be `None`, because no entity listener
  is declared. Updates never change it. The service unit test asserts a non-null
  `createdAt` after `addDevice`
  (`DeviceServiceTest.java:49`), but only against a mocked save. The
  entity declares `@CreatedDate` (`Device.java:28-29`) with no entity
  listener, so the code does not guarantee the value, and the model does
  not promise one.
- A failed `@Valid` check raises `MethodArgumentNotValidException`. Its
  problem detail is Spring's fixed text `"Invalid request content."`, and
  that detail is what the handler puts in the error message. The per-field
  messages ("Device name is required", "Device brand is required") travel
  in the exception but never reach the body.
- The 404 message is `"Device with id " + decimal(id) + " not found"`.
  `Strings.Decimal` is the `%d` rendering. `Strings.ParseDecimal` reads it
  back, which proves different ids give different messages.

## Model

| member | source | states |
|---|---|---|
| `Strings.IndexOfNonWhitespace` | src/main/java/com/example/deviceregistryapi/service/DeviceService.java:124-127 | the index it returns is the first non-whitespace position: everything before is whitespace, and the character there is not |
| `Strings.BlankIffAllWhitespace` | src/main/java/com/example/deviceregistryapi/dto/DeviceRequestDTO.java:9-12 | a string is blank exactly when every character is whitespace, so the empty string is blank |
| `Strings.DigitsValueOf` | src/main/java/com/example/deviceregistryapi/service/DeviceService.java:43 | the digits `%d` prints for a natural number are non-empty decimal digits without a leading zero, and their value is that number |
| `Strings.DecimalRoundTrip` | src/main/java/com/example/deviceregistryapi/service/DeviceService.java:43 | reading back the `%d` text of any id, negative ones included, gives that id |
| `Strings.DecimalInjective` | src/main/java/com/example/deviceregistryapi/service/DeviceService.java:43 | two ids with the same `%d` text are equal |
| `Dto.Violations` | src/main/java/com/example/deviceregistryapi/dto/DeviceRequestDTO.java:9-12 | each invalid field contributes its own message and only then; the list is empty exactly when the request is valid |
| `Dto.WhitespaceOnlyIsBlank` | src/main/java/com/example/deviceregistryapi/dto/DeviceRequestDTO.java:9-12 | null, empty and whitespace-only values all fail `@NotBlank`, with one message per field |
| `Repository.RowsOf` | src/main/java/com/example/deviceregistryapi/repository/DeviceRepository.java:10 | the rows named by a sequence of ids, position by position |
| `Repository.Without` | src/main/java/com/example/deviceregistryapi/repository/DeviceRepository.java:10 | removing an id from the insertion order keeps every other id and drops that one |
| `Repository.Slice` | src/main/java/com/example/deviceregistryapi/repository/DeviceRepository.java:10 | a page holds results `page*size` to `page*size+size-1`, as far as they exist, in their original order |
| `Repository.WithBrand` | src/main/java/com/example/deviceregistryapi/repository/DeviceRepository.java:11 | the brand filter keeps exactly the rows whose brand equals the query |
| `Repository.WithBrandCount` | src/main/java/com/example/deviceregistryapi/repository/DeviceRepository.java:11 | over distinct ids, the filtered rows number exactly the ids whose row has that brand |
| `Repository.WithoutUnique` | src/main/java/com/example/deviceregistryapi/repository/DeviceRepository.java:10 | taking an id out of the insertion order keeps it duplicate-free and removes exactly one position, or none when the id is absent |
| `Repository.UniqueIdsCount` | src/main/java/com/example/deviceregistryapi/repository/DeviceRepository.java:10 | a duplicate-free id sequence has as many distinct ids as positions |
| `Repository.DeviceRepository.constructor` | src/main/java/com/example/deviceregistryapi/repository/DeviceRepository.java:10 | a new store is valid and empty |
| `Repository.DeviceRepository.Table` | src/main/java/com/example/deviceregistryapi/repository/DeviceRepository.java:10 | an unsorted scan lists the rows in insertion order, each row carrying its own key as id |
| `Repository.DeviceRepository.OrderKeys` | src/main/java/com/example/deviceregistryapi/repository/DeviceRepository.java:10 | the insertion order names exactly the stored ids |
| `Repository.DeviceRepository.TableSize` | src/main/java/com/example/deviceregistryapi/repository/DeviceRepository.java:10 | the scan has one position per stored row |
| `Repository.DeviceRepository.TableRows` | src/main/java/com/example/deviceregistryapi/repository/DeviceRepository.java:10 | the scan holds every stored row and nothing else |
| `Repository.DeviceRepository.FindById` | src/main/java/com/example/deviceregistryapi/service/DeviceService.java:41-43 | present exactly when the id has a row, and then that row, whose id is the one asked for; reads only |
| `Repository.DeviceRepository.FindAll` | src/main/java/com/example/deviceregistryapi/service/DeviceService.java:53-55 | the page's k-th element is the row at position `page*size+k` of the insertion order; the total is the number of rows |
| `Repository.DeviceRepository.FindAllByBrand` | src/main/java/com/example/deviceregistryapi/repository/DeviceRepository.java:11 | only stored rows of that brand, as one page of the filtered scan with the page length that implies; the total is the number of matching rows, whatever the page |
| `Repository.DeviceRepository.Save` | src/main/java/com/example/deviceregistryapi/model/Device.java:18-26 | an id-less device goes in under a fresh id with the audit timestamp and is appended to the order; a device with a stored id replaces only that row; a null name or brand, or an unknown id, changes nothing |
| `Repository.DeviceRepository.DeleteById` | src/main/java/com/example/deviceregistryapi/service/DeviceService.java:92-94 | removes the row with that id and no other, present or not; afterwards the id is not found |
| `Repository.DeviceRepository.DeleteAll` | src/test/java/com/example/deviceregistryapi/integration/DeviceControllerIntegrationTest.java:35-38 | empties the table without reusing ids |
| `Exceptions.Handle` | src/main/java/com/example/deviceregistryapi/exception/GlobalExceptionHandler.java:16-62 | NotFound gives 404 "Not Found" and IllegalArgument 400 "Bad Request", both with the message passed through; a validation failure gives 400 "Bad Request" with the problem detail; anything else gives 500 "Internal Server Error" with a fixed message; the body's status always equals the response's |
| `Exceptions.UnexpectedTextHidden` | src/main/java/com/example/deviceregistryapi/exception/GlobalExceptionHandler.java:52-62 | the reply to an unexpected exception does not depend on its text |
| `Service.NotFoundMessageInjective` | src/main/java/com/example/deviceregistryapi/service/DeviceService.java:43 | the NotFound message determines the id |
| `Service.PatchFields` | src/main/java/com/example/deviceregistryapi/service/DeviceService.java:124-129 | a partial update keeps `id` and `createdAt`; each field either keeps its old value or takes a non-blank one, so a non-blank field stays non-blank |
| `Service.PatchIgnoresBlankRequest` | src/main/java/com/example/deviceregistryapi/service/DeviceService.java:124-129 | a request whose fields are both null or blank leaves the row as it was |
| `Service.PatchIdempotent` | src/main/java/com/example/deviceregistryapi/service/DeviceService.java:124-129 | applying a partial update twice gives the row of applying it once |
| `Service.UpdateVersusPatch` | src/main/java/com/example/deviceregistryapi/service/DeviceService.java:74-75 | the full update keeps `id` and `createdAt` and stores a blank value, where the partial update keeps the old one; on a valid request the two give the same row |
| `Service.Views` | src/main/java/com/example/deviceregistryapi/service/DeviceService.java:56-60 | a projected page has the same total and, position by position, the view of each row |
| `Service.DeviceService.AddDevice` | src/main/java/com/example/deviceregistryapi/service/DeviceService.java:28-31 | inserts exactly one row under an id no row held, with the request's name and brand and the audit timestamp, and returns its view; a null field makes the store refuse and nothing changes |
| `Service.DeviceService.GetDeviceById` | src/main/java/com/example/deviceregistryapi/service/DeviceService.java:40-45 | succeeds exactly when the id has a row, with that row's view; otherwise fails NotFound with "Device with id <id> not found"; reads only |
| `Service.DeviceService.ListAllDevices` | src/main/java/com/example/deviceregistryapi/service/DeviceService.java:53-61 | one page of views of the table in insertion order, with the total number of rows |
| `Service.DeviceService.UpdateDevice` | src/main/java/com/example/deviceregistryapi/service/DeviceService.java:70-85 | an absent id fails NotFound with no change; otherwise both fields take the request's values, blank or not, `id` and `createdAt` stay, and no other row changes; a null field makes the store refuse |
| `Service.DeviceService.DeleteDevice` | src/main/java/com/example/deviceregistryapi/service/DeviceService.java:92-94 | no existence check: the row goes if present, nothing else changes, and `GetDeviceById` on that id then fails NotFound |
| `Service.DeviceService.GetDevicesByBrand` | src/main/java/com/example/deviceregistryapi/service/DeviceService.java:103-111 | the k-th element is the view of the k-th row of the requested page of the brand-filtered scan, in insertion order; every element is the view of a stored row of that brand; the total is the number of rows of that brand |
| `Service.DeviceService.PartialUpdateDevice` | src/main/java/com/example/deviceregistryapi/service/DeviceService.java:120-139 | an absent id fails NotFound with no change; otherwise only non-null, non-blank values are taken into that row, and no other row changes |
| `Controller.SuccessStatus` | src/main/java/com/example/deviceregistryapi/controller/DeviceController.java:30-103 | POST answers 201, DELETE 204, and the other five routes 200 |
| `Controller.ErrorReply` | src/main/java/com/example/deviceregistryapi/exception/GlobalExceptionHandler.java:16-62 | an error reply carries an `ApiError` whose status is the reply's, at least 400 |
| `Controller.InvalidBodyReply` | src/main/java/com/example/deviceregistryapi/controller/DeviceController.java:32 | an invalid body gets 400 "Bad Request" with the validation problem detail |
| `Controller.Reply` | src/main/java/com/example/deviceregistryapi/controller/DeviceController.java:30-103 | a normal result is the body under a 2xx status, 201 exactly for POST and 204 exactly for DELETE; an exception gives an error body whose status is the reply's, at least 400, and a NotFound becomes a 404 carrying its message |
| `Controller.DeviceController.Handle` | src/main/java/com/example/deviceregistryapi/controller/DeviceController.java:30-103 | POST and PUT bodies are validated first, and an invalid one gives 400 with no change; PATCH is not validated; reads change nothing; POST appends one fresh id to the order; DELETE always gives 204 and drops only that id from the order; PUT and PATCH keep the order, and PATCH answers 200 with the patched row's view; a valid PUT on a stored id answers 200 with the request's fields and the old `createdAt`; a successful PUT stores non-blank values; no route brings a blank row into a table without one |

## Left out

- HTTP wiring, JSON (de)serialisation, the page envelope's JSON shape and the parsing of path and query parameters are not modelled. Routes arrive already matched, and page sizes are positive. A malformed body, a missing `brand` parameter and a non-numeric id are not modelled either; all of them fail before the controller method runs.
- The database is an in-memory table. The driver, transactions, the sequence behind `GenerationType.AUTO` and concurrent requests are not modelled. Each operation is atomic and runs alone.
- Ids are unbounded integers. The 64-bit range of `Long` is not modelled.
- Wall-clock time is a parameter: `now` for `ApiError.timestamp` and `audit` for `createdAt`. Timestamps are an abstract type.
- Logging in the exception handler is left out.
- Scan order: the controller passes Spring's `Pageable` through unchanged, and besides `page` and `size` it carries any `sort` request parameter the client sends (`GET /api/v1/devices?sort=name,desc` orders by name). Sorting is not modelled: `Route.ListAll` and `Route.SearchByBrand` have no sort, and every request is taken as unsorted. Without a sort the database promises no order, so the model returns rows in insertion order, which is what the integration test that lists two devices relies on.
- Repository.WithBrand: compares brands by exact string equality. The database compares with SQL `=` under its collation, which may ignore case or trailing spaces; that is not modelled.
- Strings.Decimal: assumes ASCII digits. `String.format` uses the default locale, and `%d` prints that locale's digits; the NotFound message under a locale with other digits is not modelled.
- Strings.IsWhitespace: stands for both `Character.isWhitespace` (behind `String.isBlank`) and the `trim` of `@NotBlank`. It is their common ASCII part: TAB to CR, U+001C to U+001F, and SPACE. The two Java rules disagree outside it, so a control character such as U+0000 is blank for `@NotBlank` but not for `isBlank`, and Unicode spaces such as U+2003 are the other way round. The model does not capture that gap. One consequence: in the program a PATCH name such as "\u0000" passes the service's `isBlank` guard and is stored, although `@NotBlank` would reject it. So `Controller.DeviceController.Handle`'s promise that no route brings a blank row into a table without one holds only under this shared whitespace set.
- Dto.Violations: the messages come out name first. The validator promises no order.
- `DeviceRegistryApiApplication.java` (application start-up and the auditing switch) is not part of this model. Only its effect, that `createdAt` may or may not be filled, is kept.
