/**
 * `service/DeviceService.java`: the seven registry operations over the
 * device table, and the field rules of the two updates.
 */
module Service {
  import opened Wrappers
  import opened Strings
  import opened Model
  import opened Dto
  import opened Exceptions
  import opened Repository

  /** `String.format("Device with id %d not found", id)`. */
  function NotFoundMessage(id: Id): string {
    "Device with id " + Decimal(id) + " not found"
  }

  /** Different ids never share a NotFound message: the id reads back from it. */
  lemma NotFoundMessageInjective(a: Id, b: Id)
    requires NotFoundMessage(a) == NotFoundMessage(b)
    ensures a == b
  {
    var ma, mb := NotFoundMessage(a), NotFoundMessage(b);
    assert ma[15 .. |ma| - 10] == Decimal(a);
    assert mb[15 .. |mb| - 10] == Decimal(b);
    DecimalInjective(a, b);
  }

  /** A refused `save` escapes the service as an unexpected exception. */
  function StoreFailure(e: StoreError): Exception {
    match e
    case NullColumn(column) => Unexpected("not-null column " + column + " would hold null")
    case StaleRow(id) => Unexpected("no row for the entity's id " + Decimal(id))
  }

  /** The full update's two setter calls: both fields replaced, whatever they hold. */
  function Overwrite(d: Device, req: DeviceRequest): Device {
    d.(name := req.name, brand := req.brand)
  }

  /** The partial update's guarded setters: only non-null, non-blank values are taken. */
  function Patch(d: Device, req: DeviceRequest): Device {
    d.(name := if NotBlank(req.name) then req.name else d.name,
       brand := if NotBlank(req.brand) then req.brand else d.brand)
  }

  /** A partial update never touches `id` or `createdAt` and never brings in a blank value. */
  lemma PatchFields(d: Device, req: DeviceRequest)
    ensures Patch(d, req).id == d.id && Patch(d, req).createdAt == d.createdAt
    ensures Patch(d, req).name == d.name || NotBlank(Patch(d, req).name)
    ensures Patch(d, req).brand == d.brand || NotBlank(Patch(d, req).brand)
    ensures NotBlank(d.name) ==> NotBlank(Patch(d, req).name)
    ensures NotBlank(d.brand) ==> NotBlank(Patch(d, req).brand)
  {
  }

  /** A partial update with nothing usable in it leaves the row as it was. */
  lemma PatchIgnoresBlankRequest(d: Device, req: DeviceRequest)
    requires !NotBlank(req.name) && !NotBlank(req.brand)
    ensures Patch(d, req) == d
  {
  }

  /** Applying the same partial update twice gives the row of applying it once. */
  lemma PatchIdempotent(d: Device, req: DeviceRequest)
    ensures Patch(Patch(d, req), req) == Patch(d, req)
  {
  }

  /**
   * The asymmetry of the two updates: given a blank name, the full update
   * stores it and the partial update keeps the old one. On a valid
   * request the two agree.
   */
  lemma UpdateVersusPatch(d: Device, req: DeviceRequest)
    ensures Overwrite(d, req).id == d.id && Overwrite(d, req).createdAt == d.createdAt
    ensures req.name.Some? && IsBlank(req.name.value) ==>
              Overwrite(d, req).name == req.name && Patch(d, req).name == d.name
    ensures req.brand.Some? && IsBlank(req.brand.value) ==>
              Overwrite(d, req).brand == req.brand && Patch(d, req).brand == d.brand
    ensures IsValid(req) ==> Overwrite(d, req) == Patch(d, req)
  {
  }

  /** `Page.map(DeviceResponseDTO::new)`: the same page, row by row projected. */
  function Views(p: Page<Device>): (q: Page<DeviceResponse>)
    ensures q.total == p.total && |q.content| == |p.content|
    ensures forall k :: 0 <= k < |p.content| ==> q.content[k] == ToResponse(p.content[k])
  {
    Page(seq(|p.content|, k requires 0 <= k < |p.content| => ToResponse(p.content[k])), p.total)
  }

  /** `DeviceService`, over the repository it was built with. */
  class DeviceService {
    const repo: DeviceRepository

    constructor (repo: DeviceRepository)
      ensures this.repo == repo
    {
      this.repo := repo;
    }

    ghost predicate Valid()
      reads repo
    {
      repo.Valid()
    }

    /**
     * `addDevice`: one new row under a fresh id, holding the request's name
     * and brand and the audit timestamp; the view of that row comes back.
     * A null field makes the store refuse the insert.
     */
    method AddDevice(req: DeviceRequest, audit: Option<Timestamp>) returns (r: Result<DeviceResponse, Exception>)
      requires Valid()
      modifies repo
      ensures Valid()
      ensures req.name.None? || req.brand.None? ==>
                r.Failure? && r.error.Unexpected? && unchanged(repo)
      ensures req.name.Some? && req.brand.Some? ==>
                && r.Success? && r.value.id.Some?
                && var k := r.value.id.value;
                && k !in old(repo.rows) && old(repo.nextId) <= k
                && repo.rows == old(repo.rows)[k := Device(Some(k), req.name, req.brand, audit)]
                && repo.order == old(repo.order) + [k]
                && r.value == DeviceResponse(Some(k), req.name, req.brand, audit)
    {
      var saved := repo.Save(NewDevice(req.name, req.brand), audit);
      match saved
      case Failure(e) => r := Failure(StoreFailure(e));
      case Success(d) => r := Success(ToResponse(d));
    }

    /** `getDeviceById`: the view of the stored row, or NotFound; nothing changes. */
    function GetDeviceById(id: Id): (r: Result<DeviceResponse, Exception>)
      reads repo
      requires Valid()
      ensures r.Success? <==> id in repo.rows
      ensures r.Success? ==> r.value == ToResponse(repo.rows[id]) && r.value.id == Some(id)
      ensures r.Failure? ==> r.error == ResourceNotFound(NotFoundMessage(id))
    {
      match repo.FindById(id)
      case None => Failure(ResourceNotFound(NotFoundMessage(id)))
      case Some(d) => Success(ToResponse(d))
    }

    /** `listAllDevices`: the views of one page of the table, in insertion order. */
    function ListAllDevices(page: nat, size: nat): (p: Page<DeviceResponse>)
      reads repo
      requires Valid() && size > 0
      ensures p.total == |repo.rows|
      ensures |p.content| == PageLength(|repo.rows|, page, size)
      ensures forall k :: 0 <= k < |p.content| ==>
                page * size + k < |repo.order|
                && p.content[k] == ToResponse(repo.rows[repo.order[page * size + k]])
    {
      Views(repo.FindAll(page, size))
    }

    /**
     * `updateDevice`: NotFound and no save for an absent id; otherwise both
     * fields take the request's values, blank or not, `id` and `createdAt`
     * stay, and no other row changes. A null field makes the store refuse.
     */
    method UpdateDevice(id: Id, req: DeviceRequest) returns (r: Result<DeviceResponse, Exception>)
      requires Valid()
      modifies repo
      ensures Valid()
      ensures id !in old(repo.rows) ==>
                r == Failure(ResourceNotFound(NotFoundMessage(id))) && unchanged(repo)
      ensures id in old(repo.rows) && (req.name.None? || req.brand.None?) ==>
                r.Failure? && r.error.Unexpected? && unchanged(repo)
      ensures id in old(repo.rows) && req.name.Some? && req.brand.Some? ==>
                && repo.rows == old(repo.rows)[id := Overwrite(old(repo.rows)[id], req)]
                && repo.order == old(repo.order) && repo.nextId == old(repo.nextId)
                && r == Success(DeviceResponse(Some(id), req.name, req.brand, old(repo.rows)[id].createdAt))
    {
      var found := repo.FindById(id);
      if found.None? {
        return Failure(ResourceNotFound(NotFoundMessage(id)));
      }
      var device := Overwrite(found.value, req);
      // auditing fills `createdAt` on inserts only, so no audit value is involved here
      var saved := repo.Save(device, None);
      match saved
      case Failure(e) => r := Failure(StoreFailure(e));
      case Success(d) => r := Success(ToResponse(d));
    }

    /** `deleteDevice`: no existence check; afterwards the id is not found. */
    method DeleteDevice(id: Id)
      requires Valid()
      modifies repo
      ensures Valid()
      ensures repo.rows == old(repo.rows) - {id}
      ensures repo.order == Without(old(repo.order), id) && repo.nextId == old(repo.nextId)
      ensures GetDeviceById(id) == Failure(ResourceNotFound(NotFoundMessage(id)))
    {
      repo.DeleteById(id);
    }

    /**
     * `getDevicesByBrand`: the views of one page of the rows of that brand;
     * the total counts every matching row, whatever the page.
     */
    function GetDevicesByBrand(brand: string, page: nat, size: nat): (p: Page<DeviceResponse>)
      reads repo
      requires Valid() && size > 0
      ensures p.total == |KeysWithBrand(repo.rows.Keys, repo.rows, brand)|
      ensures |p.content| == PageLength(p.total, page, size)
      ensures |p.content| == |Slice(WithBrand(repo.Table(), brand), page, size)|
      ensures forall k :: 0 <= k < |p.content| ==>
                p.content[k] == ToResponse(Slice(WithBrand(repo.Table(), brand), page, size)[k])
      ensures forall k :: 0 <= k < |p.content| ==>
                && p.content[k].brand == Some(brand)
                && p.content[k].id.Some? && p.content[k].id.value in repo.rows
                && p.content[k] == ToResponse(repo.rows[p.content[k].id.value])
    {
      var q := repo.FindAllByBrand(brand, page, size);
      assert forall k :: 0 <= k < |q.content| ==> q.content[k] in q.content;
      Views(q)
    }

    /**
     * `partialUpdateDevice`: NotFound and no save for an absent id;
     * otherwise only non-null, non-blank request values are taken, and no
     * other row changes.
     */
    method PartialUpdateDevice(id: Id, req: DeviceRequest) returns (r: Result<DeviceResponse, Exception>)
      requires Valid()
      modifies repo
      ensures Valid()
      ensures id !in old(repo.rows) ==>
                r == Failure(ResourceNotFound(NotFoundMessage(id))) && unchanged(repo)
      ensures id in old(repo.rows) ==>
                && repo.rows == old(repo.rows)[id := Patch(old(repo.rows)[id], req)]
                && repo.order == old(repo.order) && repo.nextId == old(repo.nextId)
                && r == Success(ToResponse(repo.rows[id]))
    {
      var found := repo.FindById(id);
      if found.None? {
        return Failure(ResourceNotFound(NotFoundMessage(id)));
      }
      var device := Patch(found.value, req);
      var saved := repo.Save(device, None);
      match saved
      case Failure(e) => r := Failure(StoreFailure(e));
      case Success(d) => r := Success(ToResponse(d));
    }
  }
}
