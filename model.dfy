/** The persisted device record (`model/Device.java`). */
module Model {
  import opened Wrappers

  /** An audit timestamp (`LocalDateTime`); the model never looks inside one. */
  type Timestamp(==, !new)

  /** Device ids are `Long`s issued by the store. */
  type Id = int

  /**
   * A device row. Every field is a nullable Java reference: `id` and
   * `createdAt` stay `None` until the store fills them, and `name` and
   * `brand` may be `None` in an entity that has not been saved.
   */
  datatype Device = Device(
    id: Option<Id>,
    name: Option<string>,
    brand: Option<string>,
    createdAt: Option<Timestamp>)

  /** `new Device(name, brand)`: only the two given fields are set. */
  function NewDevice(name: Option<string>, brand: Option<string>): Device {
    Device(None, name, brand, None)
  }
}
