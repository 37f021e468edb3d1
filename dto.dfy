/**
 * The request and response shapes (`dto/DeviceRequestDTO.java`,
 * `dto/DeviceResponseDTO.java`) and the `@NotBlank` validation of a request.
 */
module Dto {
  import opened Wrappers
  import opened Strings
  import opened Model

  /** `DeviceRequestDTO(name, brand)`; either field may be null. */
  datatype DeviceRequest = DeviceRequest(name: Option<string>, brand: Option<string>)

  /** `DeviceResponseDTO(id, name, brand, createdAt)`. */
  datatype DeviceResponse = DeviceResponse(
    id: Option<Id>,
    name: Option<string>,
    brand: Option<string>,
    createdAt: Option<Timestamp>)

  /** The `DeviceResponseDTO(Device)` constructor: a field-for-field copy. */
  function ToResponse(d: Device): DeviceResponse {
    DeviceResponse(d.id, d.name, d.brand, d.createdAt)
  }

  const NAME_REQUIRED := "Device name is required"
  const BRAND_REQUIRED := "Device brand is required"

  /** `@NotBlank`: not null and holding at least one non-whitespace character. */
  predicate NotBlank(s: Option<string>) {
    s.Some? && !IsBlank(s.value)
  }

  /** What `@Valid` checks on a request body. */
  predicate IsValid(req: DeviceRequest) {
    NotBlank(req.name) && NotBlank(req.brand)
  }

  /** The messages of the violated `@NotBlank` constraints, one per invalid field. */
  function Violations(req: DeviceRequest): (errs: seq<string>)
    ensures NAME_REQUIRED in errs <==> !NotBlank(req.name)
    ensures BRAND_REQUIRED in errs <==> !NotBlank(req.brand)
    ensures forall m :: m in errs ==> m == NAME_REQUIRED || m == BRAND_REQUIRED
    ensures |errs| == (if NotBlank(req.name) then 0 else 1) + (if NotBlank(req.brand) then 0 else 1)
    ensures errs == [] <==> IsValid(req)
  {
    (if NotBlank(req.name) then [] else [NAME_REQUIRED])
    + (if NotBlank(req.brand) then [] else [BRAND_REQUIRED])
  }

  /** Whitespace-only text is blank exactly as the empty string is, null included. */
  lemma WhitespaceOnlyIsBlank(s: string)
    requires forall i :: 0 <= i < |s| ==> IsWhitespace(s[i])
    ensures !NotBlank(Some(s)) && !NotBlank(Some("")) && !NotBlank(None)
    ensures Violations(DeviceRequest(Some(s), Some(s))) == [NAME_REQUIRED, BRAND_REQUIRED]
  {
    BlankIffAllWhitespace(s);
  }
}
