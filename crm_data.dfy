/** The values the CRM's API hands over, and the client record the service builds
    from a lead and its contact. */
module CrmData {
  import opened Wrappers
  import opened PyText

  /** A JSON scalar: an integer, a string or `null`. */
  datatype Scalar = SInt(i: int) | SStr(s: string) | SNull
  {
    /** Python truthiness. */
    predicate Truthy()
    {
      match this
      case SInt(i) => i != 0
      case SStr(s) => s != ""
      case SNull => false
    }

    /** Python `str(x)`, as used in error messages. */
    function Str(): string
    {
      match this
      case SInt(i) => Decimal(i)
      case SStr(s) => s
      case SNull => "None"
    }
  }

  /** A flattened custom-field value: one scalar, or a list of them. */
  datatype Flat = Single(v: Scalar) | Multi(vs: seq<Scalar>)
  {
    /** Python truthiness (a list is truthy when it is not empty). */
    predicate Truthy()
    {
      match this
      case Single(v) => v.Truthy()
      case Multi(vs) => vs != []
    }
  }

  /** The client record: the lead's id and price, its flattened grade, subject,
      direction and purchased-course fields, and the contact's name, phone and email.
      An absent entry of the flattened map is `None`. */
  datatype ClientData = ClientData(
    leadId: Option<int>,
    price: int,
    classEnumId: Option<Flat>,
    subjectsEnumIds: seq<Scalar>,
    directionEnumId: Option<Flat>,
    purchasedCourseEnumIds: seq<Scalar>,
    contactName: string,
    contactPhone: Option<string>,
    contactEmail: Option<string>)
}
