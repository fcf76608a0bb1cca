/** The payload the learning platform receives for a paid order. */
module PlatformModels {
  import opened Wrappers

  /** One purchased course. */
  datatype Course = Course(name: string, subjectDesignation: string, cost: int, months: int)

  /** The order; `classNumber` is sent under the JSON name `class`. */
  datatype PlatformPayload = PlatformPayload(
    courses: seq<Course>,
    firstName: string,
    lastName: Option<string>,
    email: string,
    phone: string,
    classNumber: int,
    amount: int)
}
