/**
 * `controller/DeviceController.java`: the routes under `/api/v1/devices`,
 * the body validation `@Valid` asks for, the status each route answers
 * with, and the translation of exceptions by the global handler.
 */
module Controller {
  import opened Wrappers
  import opened Strings
  import opened Model
  import opened Dto
  import opened Exceptions
  import opened Repository
  import opened Service

  /**
   * A request already matched to its route, with its path, query and body
   * values; a pageable route's `sort` parameter is not modelled (unsorted).
   */
  datatype Route =
    | Create(body: DeviceRequest)                          // POST   /api/v1/devices
    | GetById(id: Id)                                      // GET    /api/v1/devices/{id}
    | ListAll(page: nat, size: nat)                        // GET    /api/v1/devices
    | Update(id: Id, body: DeviceRequest)                  // PUT    /api/v1/devices/{id}
    | PartialUpdate(id: Id, body: DeviceRequest)           // PATCH  /api/v1/devices/{id}
    | Delete(id: Id)                                       // DELETE /api/v1/devices/{id}
    | SearchByBrand(brand: string, page: nat, size: nat)   // GET    /api/v1/devices/search

  /** Pageable routes carry a positive page size. */
  predicate WellFormed(route: Route) {
    (route.ListAll? ==> route.size > 0) && (route.SearchByBrand? ==> route.size > 0)
  }

  /**
   * The status of a route that completes normally: `@ResponseStatus(CREATED)`
   * on POST, `@ResponseStatus(NO_CONTENT)` on DELETE, 200 otherwise.
   */
  function SuccessStatus(route: Route): (status: int)
    ensures status == 201 <==> route.Create?
    ensures status == 204 <==> route.Delete?
    ensures status == 200 <==> !route.Create? && !route.Delete?
  {
    match route
    case Create(_) => 201
    case Delete(_) => 204
    case _ => 200
  }

  /** Whether the route's `@RequestBody` is marked `@Valid`. */
  predicate ValidatesBody(route: Route) {
    route.Create? || route.Update?
  }

  /** Spring's problem detail for a failed `@Valid` check. */
  const INVALID_REQUEST_CONTENT := "Invalid request content."

  datatype ResponseBody =
    | DeviceBody(device: DeviceResponse)
    | PageBody(page: Page<DeviceResponse>)
    | ErrorBody(error: ApiError)
    | NoContent

  datatype Response = Response(status: int, body: ResponseBody)

  /** The response to a thrown exception, through `GlobalExceptionHandler`. */
  function ErrorReply(ex: Exception, now: Timestamp): (resp: Response)
    ensures resp.body.ErrorBody? && resp.body.error.status == resp.status && 400 <= resp.status
  {
    var e := Exceptions.Handle(ex, now);
    Response(e.status, ErrorBody(e.body))
  }

  /** The response to a body that fails the `@Valid` check: 400, before any service call. */
  function InvalidBodyReply(body: DeviceRequest, now: Timestamp): (resp: Response)
    requires !IsValid(body)
    ensures resp.status == 400 && resp.body.ErrorBody?
    ensures resp.body.error == ApiError(now, 400, "Bad Request", INVALID_REQUEST_CONTENT)
  {
    ErrorReply(ArgumentNotValid(Violations(body), INVALID_REQUEST_CONTENT), now)
  }

  /**
   * The response carrying a service result: a 2xx status with the result as
   * body, or an error body whose status is the reply's; a NotFound keeps
   * its message and becomes a 404.
   */
  function Reply(route: Route, r: Result<ResponseBody, Exception>, now: Timestamp): (resp: Response)
    ensures r.Success? ==> resp.body == r.value && resp.status in {200, 201, 204}
    ensures r.Success? ==> (resp.status == 201 <==> route.Create?) && (resp.status == 204 <==> route.Delete?)
    ensures r.Failure? ==> resp.body.ErrorBody? && resp.body.error.status == resp.status && resp.status >= 400
    ensures r.Failure? && r.error.ResourceNotFound? ==>
              resp.status == 404 && resp.body.error.message == r.error.message
  {
    match r
    case Success(b) => Response(SuccessStatus(route), b)
    case Failure(e) => ErrorReply(e, now)
  }

  function AsDevice(r: Result<DeviceResponse, Exception>): Result<ResponseBody, Exception> {
    match r
    case Success(v) => Success(DeviceBody(v))
    case Failure(e) => Failure(e)
  }

  /** No stored row has a null or blank name or brand. */
  ghost predicate NoBlankRows(repo: DeviceRepository)
    reads repo
  {
    forall k :: k in repo.rows ==> NotBlank(repo.rows[k].name) && NotBlank(repo.rows[k].brand)
  }

  class DeviceController {
    const service: DeviceService

    constructor (service: DeviceService)
      ensures this.service == service
    {
      this.service := service;
    }

    ghost predicate Valid()
      reads service.repo
    {
      service.Valid()
    }

    /**
     * One HTTP request: the `@Valid` check for POST and PUT, then the
     * service call, then the success status or the exception handler's
     * reply. `audit` is what auditing supplies for a new row, `now` the
     * handler's clock.
     */
    method Handle(route: Route, audit: Option<Timestamp>, now: Timestamp) returns (resp: Response)
      requires Valid() && WellFormed(route)
      modifies service.repo
      ensures Valid()
      // an invalid POST or PUT body: 400 and no change
      ensures ValidatesBody(route) && !IsValid(route.body) ==>
                resp == InvalidBodyReply(route.body, now) && unchanged(service.repo)
      // the status of a normal reply is the route's; the body of an error reply repeats its status
      ensures !resp.body.ErrorBody? ==> resp.status == SuccessStatus(route)
      ensures resp.body.ErrorBody? ==> resp.body.error.status == resp.status && resp.status >= 400
      // the read-only routes leave the table alone and answer from it
      ensures route.GetById? ==>
                unchanged(service.repo)
                && resp == Reply(route, AsDevice(service.GetDeviceById(route.id)), now)
      ensures route.ListAll? ==>
                unchanged(service.repo)
                && resp == Response(200, PageBody(service.ListAllDevices(route.page, route.size)))
      ensures route.SearchByBrand? ==>
                unchanged(service.repo)
                && resp == Response(200, PageBody(service.GetDevicesByBrand(route.brand, route.page, route.size)))
      // DELETE always answers 204 and removes that row, if any
      ensures route.Delete? ==>
                resp == Response(204, NoContent)
                && service.repo.rows == old(service.repo.rows) - {route.id}
                && service.repo.order == Without(old(service.repo.order), route.id)
                && service.repo.nextId == old(service.repo.nextId)
      // a valid POST stores one new row with the request's fields
      ensures route.Create? && IsValid(route.body) ==>
                && resp.status == 201 && resp.body.DeviceBody?
                && resp.body.device.id.Some?
                && var k := resp.body.device.id.value;
                && k !in old(service.repo.rows) && old(service.repo.nextId) <= k
                && service.repo.order == old(service.repo.order) + [k]
                && service.repo.rows == old(service.repo.rows)[k := Device(Some(k), route.body.name, route.body.brand, audit)]
                && resp.body.device == DeviceResponse(Some(k), route.body.name, route.body.brand, audit)
      // a PUT that succeeds has stored non-blank values, though the service does not check
      ensures route.Update? && resp.status == 200 ==>
                && route.id in old(service.repo.rows)
                && service.repo.rows == old(service.repo.rows)[route.id := Overwrite(old(service.repo.rows)[route.id], route.body)]
                && service.repo.order == old(service.repo.order) && service.repo.nextId == old(service.repo.nextId)
                && NotBlank(service.repo.rows[route.id].name) && NotBlank(service.repo.rows[route.id].brand)
      ensures route.Update? && IsValid(route.body) && route.id in old(service.repo.rows) ==>
                resp.status == 200 && resp.body.DeviceBody?
                && resp.body.device == DeviceResponse(Some(route.id), route.body.name, route.body.brand,
                                                      old(service.repo.rows)[route.id].createdAt)
      ensures route.Update? && IsValid(route.body) && route.id !in old(service.repo.rows) ==>
                resp == ErrorReply(ResourceNotFound(NotFoundMessage(route.id)), now) && unchanged(service.repo)
      // PATCH takes any body; only usable fields change the row
      ensures route.PartialUpdate? && route.id in old(service.repo.rows) ==>
                service.repo.rows == old(service.repo.rows)[route.id := Patch(old(service.repo.rows)[route.id], route.body)]
                && service.repo.order == old(service.repo.order) && service.repo.nextId == old(service.repo.nextId)
                && resp == Response(200, DeviceBody(ToResponse(service.repo.rows[route.id])))
      ensures route.PartialUpdate? && route.id !in old(service.repo.rows) ==>
                resp == ErrorReply(ResourceNotFound(NotFoundMessage(route.id)), now) && unchanged(service.repo)
      // through HTTP, a table without blank rows never gets one
      ensures old(NoBlankRows(service.repo)) ==> NoBlankRows(service.repo)
    {
      if ValidatesBody(route) && !IsValid(route.body) {
        return InvalidBodyReply(route.body, now);
      }
      match route
      case Create(body) =>
        var r := service.AddDevice(body, audit);
        resp := Reply(route, AsDevice(r), now);
      case GetById(id) =>
        resp := Reply(route, AsDevice(service.GetDeviceById(id)), now);
      case ListAll(page, size) =>
        resp := Reply(route, Success(PageBody(service.ListAllDevices(page, size))), now);
      case Update(id, body) =>
        var r := service.UpdateDevice(id, body);
        resp := Reply(route, AsDevice(r), now);
      case PartialUpdate(id, body) =>
        ghost var before := service.repo.rows;
        var r := service.PartialUpdateDevice(id, body);
        if id in before {
          PatchFields(before[id], body);
        }
        resp := Reply(route, AsDevice(r), now);
      case Delete(id) =>
        service.DeleteDevice(id);
        resp := Reply(route, Success(NoContent), now);
      case SearchByBrand(brand, page, size) =>
        resp := Reply(route, Success(PageBody(service.GetDevicesByBrand(brand, page, size))), now);
    }
  }

  /** The integration test for an unknown id: 404 and the id in the message. */
  method NotFoundScenario(now: Timestamp)
  {
    var repo := new DeviceRepository();
    var service := new DeviceService(repo);
    var controller := new DeviceController(service);
    var missing := controller.Handle(GetById(1), None, now);
    assert NotFoundMessage(1) == "Device with id 1 not found";
    assert missing == Response(404, ErrorBody(ApiError(now, 404, "Not Found", "Device with id 1 not found")));
  }

  /**
   * `shouldCreateDevice`, `shouldRetrieveDeviceById` and `shouldDeleteDevice`
   * chained into one sequence: create, read back, delete, then NotFound.
   */
  method LifecycleScenario(audit: Timestamp, now: Timestamp)
  {
    var repo := new DeviceRepository();
    var service := new DeviceService(repo);
    var controller := new DeviceController(service);
    var request := DeviceRequest(Some("iPhone 16"), Some("Apple"));
    assert IsValid(request) by {
      assert IndexOfNonWhitespace("iPhone 16") == 0;
      assert IndexOfNonWhitespace("Apple") == 0;
    }
    var created := controller.Handle(Create(request), Some(audit), now);
    assert created.status == 201;
    var id := created.body.device.id.value;
    assert created.body.device == DeviceResponse(Some(id), Some("iPhone 16"), Some("Apple"), Some(audit));

    var fetched := controller.Handle(GetById(id), None, now);
    assert fetched == Response(200, DeviceBody(created.body.device));

    var deleted := controller.Handle(Delete(id), None, now);
    assert deleted.status == 204;
    var gone := controller.Handle(GetById(id), None, now);
    assert gone == Response(404, ErrorBody(ApiError(now, 404, "Not Found", NotFoundMessage(id))));
  }

  /** PATCH with a null brand keeps the brand; PUT with a blank name is refused. */
  method UpdateScenario(audit: Timestamp, now: Timestamp)
  {
    var repo := new DeviceRepository();
    var service := new DeviceService(repo);
    var controller := new DeviceController(service);
    var saved := repo.Save(NewDevice(Some("iPhone 16"), Some("Apple")), Some(audit));
    var id := saved.value.id.value;

    var patch := DeviceRequest(Some("iPhone 16 Pro"), None);
    assert NotBlank(patch.name) by { assert IndexOfNonWhitespace("iPhone 16 Pro") == 0; }
    var patched := controller.Handle(PartialUpdate(id, patch), None, now);
    assert patched.status == 200;
    assert repo.rows[id] == Device(Some(id), Some("iPhone 16 Pro"), Some("Apple"), Some(audit));

    var blank := DeviceRequest(Some(" "), Some("Apple"));
    assert !IsValid(blank) by { assert IndexOfNonWhitespace(" ") == 1; }
    var rejected := controller.Handle(Update(id, blank), None, now);
    assert rejected.status == 400;
    assert repo.rows[id].name == Some("iPhone 16 Pro");
  }
}
