/** The part of the CRM client that reads the records the API returns: a lead's
    custom fields flattened into an `id → value` dictionary, and the client record
    built from a lead and its contact. The HTTP calls that fetch them are not part
    of this model. */
module AmoCrmClient {
  import opened Wrappers
  import opened Settings
  import opened CrmData

  /** One entry of a custom field's `values`: which of the keys `enum_id` and
      `value` it has, and what they hold (`Some(SNull)` for a JSON `null`). */
  datatype FieldValue = FieldValue(enumId: Option<Scalar>, value: Option<Scalar>)

  /** A lead custom field: its `field_id` (`SNull` when absent) and its `values`
      (empty when absent). */
  datatype LeadField = LeadField(fieldId: Scalar, values: seq<FieldValue>)

  /** A lead: `id`, `price` and `custom_fields_values`, each possibly absent. */
  datatype Lead = Lead(id: Option<int>, price: Option<int>, customFields: seq<LeadField>)

  /** A contact custom field: its `field_code` and, for each entry of `values`,
      what `.get("value")` returns. */
  datatype ContactField = ContactField(fieldCode: Option<string>, values: seq<Option<string>>)

  /** A contact: `name` and `custom_fields_values`. */
  datatype Contact = Contact(name: Option<string>, customFields: seq<ContactField>)

  // ------------------------------------------------------------------
  // Flattening custom fields

  /** `[v.get("enum_id") for v in values if "enum_id" in v]`. */
  function EnumIds(values: seq<FieldValue>): (ids: seq<Scalar>)
    ensures |ids| <= |values|
    ensures ids == [] <==> forall i | 0 <= i < |values| :: values[i].enumId.None?
  {
    if |values| == 0 then []
    else (if values[0].enumId.Some? then [values[0].enumId.value] else []) + EnumIds(values[1..])
  }

  /** `[v.get("value") for v in values if "value" in v]`. */
  function PlainValues(values: seq<FieldValue>): (vs: seq<Scalar>)
    ensures |vs| <= |values|
    ensures vs == [] <==> forall i | 0 <= i < |values| :: values[i].value.None?
  {
    if |values| == 0 then []
    else (if values[0].value.Some? then [values[0].value.value] else []) + PlainValues(values[1..])
  }

  /** Both comprehensions keep the order of the values: they distribute over
      concatenation. */
  lemma {:induction false} ComprehensionsConcat(a: seq<FieldValue>, b: seq<FieldValue>)
    ensures EnumIds(a + b) == EnumIds(a) + EnumIds(b)
    ensures PlainValues(a + b) == PlainValues(a) + PlainValues(b)
  {
    if |a| > 0 {
      assert (a + b)[0] == a[0];
      assert (a + b)[1..] == a[1..] + b;
      ComprehensionsConcat(a[1..], b);
    } else {
      assert a + b == b;
    }
  }

  /** What one field writes into the dictionary, if anything: nothing for a falsy
      id or empty values; for one value its `enum_id` before its `value`, and
      nothing when it has neither; for several values their enum ids when any has
      one, else their plain values. */
  function FieldEntry(field: LeadField): (e: Option<(Scalar, Flat)>)
    ensures e.Some? ==> e.value.0 == field.fieldId && field.fieldId.Truthy() && |field.values| > 0
  {
    var values := field.values;
    if !field.fieldId.Truthy() || |values| == 0 then None
    else if |values| == 1 then
      if values[0].enumId.Some? then Some((field.fieldId, Single(values[0].enumId.value)))
      else if values[0].value.Some? then Some((field.fieldId, Single(values[0].value.value)))
      else None
    else
      var enumIds := EnumIds(values);
      if enumIds != [] then Some((field.fieldId, Multi(enumIds)))
      else Some((field.fieldId, Multi(PlainValues(values))))
  }

  /** A field with a single value writes its `enum_id` when it has one, else its
      `value`, and nothing when it has neither key. */
  lemma SingleValueEntry(field: LeadField)
    requires field.fieldId.Truthy() && |field.values| == 1
    ensures var v := field.values[0];
      && (FieldEntry(field).Some? <==> v.enumId.Some? || v.value.Some?)
      && (v.enumId.Some? ==> FieldEntry(field) == Some((field.fieldId, Single(v.enumId.value))))
      && (v.enumId.None? && v.value.Some? ==> FieldEntry(field) == Some((field.fieldId, Single(v.value.value))))
  {
  }

  /** A field with several values always writes a list: the enum ids when some
      value has one (plain values of the others are dropped), else the plain
      values, which is empty when no value has either key. */
  lemma MultiValueEntry(field: LeadField)
    requires field.fieldId.Truthy() && |field.values| > 1
    ensures FieldEntry(field).Some? && FieldEntry(field).value.1.Multi?
    ensures (exists i | 0 <= i < |field.values| :: field.values[i].enumId.Some?) ==>
              FieldEntry(field).value.1.vs == EnumIds(field.values)
    ensures (forall i | 0 <= i < |field.values| :: field.values[i].enumId.None?) ==>
              FieldEntry(field).value.1.vs == PlainValues(field.values)
    ensures (forall i | 0 <= i < |field.values| :: field.values[i].enumId.None? && field.values[i].value.None?) ==>
              FieldEntry(field).value.1.vs == []
  {
  }

  /** The dictionary after the first `n` fields: each field's entry, a later one
      replacing an earlier one with the same id. */
  function Parsed(fields: seq<LeadField>, n: nat): map<Scalar, Flat>
    requires n <= |fields|
  {
    if n == 0 then map[]
    else
      var m := Parsed(fields, n - 1);
      match FieldEntry(fields[n - 1])
      case None => m
      case Some((id, v)) => m[id := v]
  }

  /** The dictionary's keys are the ids of the fields that write an entry. */
  lemma {:induction false} ParsedKeys(fields: seq<LeadField>, n: nat, id: Scalar)
    requires n <= |fields|
    ensures id in Parsed(fields, n) <==>
              exists i | 0 <= i < n :: FieldEntry(fields[i]).Some? && FieldEntry(fields[i]).value.0 == id
  {
    if n > 0 {
      ParsedKeys(fields, n - 1, id);
    }
  }

  /** An id maps to the entry of the last field that writes it. */
  lemma {:induction false} ParsedLastWins(fields: seq<LeadField>, n: nat, i: nat)
    requires i < n <= |fields| && FieldEntry(fields[i]).Some?
    requires forall j | i < j < n ::
               FieldEntry(fields[j]).None? || FieldEntry(fields[j]).value.0 != FieldEntry(fields[i]).value.0
    ensures FieldEntry(fields[i]).value.0 in Parsed(fields, n)
    ensures Parsed(fields, n)[FieldEntry(fields[i]).value.0] == FieldEntry(fields[i]).value.1
  {
    if n - 1 > i {
      ParsedLastWins(fields, n - 1, i);
    }
  }

  /** The three fields of the client's own example read as the example says: a
      plain value, an enum id, and a list of enum ids. */
  lemma ParsedExample()
    ensures var fields := [
              LeadField(SInt(123), [FieldValue(None, Some(SStr("test_value")))]),
              LeadField(SInt(456), [FieldValue(Some(SInt(789)), None)]),
              LeadField(SInt(999), [FieldValue(Some(SInt(111)), None), FieldValue(Some(SInt(222)), None)])];
            var m := Parsed(fields, 3);
            && m.Keys == {SInt(123), SInt(456), SInt(999)}
            && m[SInt(123)] == Single(SStr("test_value"))
            && m[SInt(456)] == Single(SInt(789))
            && m[SInt(999)] == Multi([SInt(111), SInt(222)])
  {
    var vs := [FieldValue(Some(SInt(111)), None), FieldValue(Some(SInt(222)), None)];
    assert EnumIds(vs) == [SInt(111), SInt(222)] by {
      assert vs[1..][1..] == [];
    }
  }

  /** `_parse_custom_fields`: fill the dictionary field by field. */
  method ParseCustomFields(fields: seq<LeadField>) returns (result: map<Scalar, Flat>)
    ensures result == Parsed(fields, |fields|)
  {
    result := map[];
    for i := 0 to |fields|
      invariant result == Parsed(fields, i)
    {
      var field := fields[i];
      var fieldId := field.fieldId;
      var values := field.values;
      if !fieldId.Truthy() || |values| == 0 {
        continue;
      }
      if |values| == 1 {
        var valueData := values[0];
        if valueData.enumId.Some? {
          result := result[fieldId := Single(valueData.enumId.value)];
        } else if valueData.value.Some? {
          result := result[fieldId := Single(valueData.value.value)];
        }
      } else {
        var enumIds := EnumIds(values);
        if enumIds != [] {
          result := result[fieldId := Multi(enumIds)];
        } else {
          result := result[fieldId := Multi(PlainValues(values))];
        }
      }
    }
  }

  // ------------------------------------------------------------------
  // Client record

  /** `lead_custom_fields.get(field_id)`. */
  function Lookup(m: map<Scalar, Flat>, fieldId: int): (r: Option<Flat>)
    ensures r.Some? <==> SInt(fieldId) in m
    ensures r.Some? ==> r.value == m[SInt(fieldId)]
  {
    if SInt(fieldId) in m then Some(m[SInt(fieldId)]) else None
  }

  /** The value of a multi-select field, forced into a list: a list stays as it is,
      a truthy scalar becomes a one-element list, and a falsy or missing value the
      empty list. */
  function AsList(f: Option<Flat>): (ids: seq<Scalar>)
    ensures f.Some? && f.value.Multi? ==> ids == f.value.vs
    ensures f.Some? && f.value.Single? ==> |ids| <= 1 && (ids == [] <==> !f.value.v.Truthy())
    ensures f.Some? && f.value.Single? && ids != [] ==> ids[0] == f.value.v
    ensures f.None? ==> ids == []
  {
    match f
    case None => []
    case Some(Multi(vs)) => vs
    case Some(Single(v)) => if v.Truthy() then [v] else []
  }

  /** A contact field with this code and at least one value. */
  predicate Coded(field: ContactField, code: string)
  {
    field.fieldCode == Some(code) && |field.values| > 0
  }

  /** The first value of the last field with this code and some value, or `None`
      when there is none. */
  function LastCoded(fields: seq<ContactField>, code: string): Option<string>
  {
    if |fields| == 0 then None
    else if Coded(fields[|fields| - 1], code) then fields[|fields| - 1].values[0]
    else LastCoded(fields[..|fields| - 1], code)
  }

  /** The last field with the code decides, even when its first value is `None`
      and an earlier field had one. */
  lemma {:induction false} LastCodedAt(fields: seq<ContactField>, code: string, i: int)
    requires 0 <= i < |fields| && Coded(fields[i], code)
    requires forall j | i < j < |fields| :: !Coded(fields[j], code)
    ensures LastCoded(fields, code) == fields[i].values[0]
  {
    if i < |fields| - 1 {
      var p := fields[..|fields| - 1];
      assert forall j | i < j < |p| :: p[j] == fields[j];
      LastCodedAt(p, code, i);
    }
  }

  /** Without a field with the code the value is `None`. */
  lemma {:induction false} LastCodedNone(fields: seq<ContactField>, code: string)
    requires forall j | 0 <= j < |fields| :: !Coded(fields[j], code)
    ensures LastCoded(fields, code).None?
  {
    if |fields| > 0 {
      var p := fields[..|fields| - 1];
      assert forall j | 0 <= j < |p| :: p[j] == fields[j];
      LastCodedNone(p, code);
    }
  }

  const PhoneCode := "PHONE"
  const EmailCode := "EMAIL"

  /** `extract_lead_data`: the lead's id and price, its grade, subjects, direction
      and purchased courses from the flattened fields (subjects and courses forced
      into lists), and the contact's name, phone and email. */
  method ExtractLeadData(ids: LeadFieldIds, lead: Lead, contact: Contact) returns (data: ClientData)
    ensures data.leadId == lead.id
    ensures data.price == lead.price.GetOr(0)
    ensures data.classEnumId == Lookup(Parsed(lead.customFields, |lead.customFields|), ids.classField)
    ensures data.subjectsEnumIds ==
              AsList(Lookup(Parsed(lead.customFields, |lead.customFields|), ids.subjectsField))
    ensures data.directionEnumId == Lookup(Parsed(lead.customFields, |lead.customFields|), ids.directionField)
    ensures data.purchasedCourseEnumIds ==
              AsList(Lookup(Parsed(lead.customFields, |lead.customFields|), ids.purchasedCourseField))
    ensures data.contactName == contact.name.GetOr("")
    ensures data.contactPhone == LastCoded(contact.customFields, PhoneCode)
    ensures data.contactEmail == LastCoded(contact.customFields, EmailCode)
  {
    var leadCustomFields := ParseCustomFields(lead.customFields);
    var price := lead.price.GetOr(0);
    var classEnumId := Lookup(leadCustomFields, ids.classField);
    var subjectsEnumIds := AsList(Lookup(leadCustomFields, ids.subjectsField));
    var directionEnumId := Lookup(leadCustomFields, ids.directionField);
    var purchasedCourseEnumIds := AsList(Lookup(leadCustomFields, ids.purchasedCourseField));
    var contactName := contact.name.GetOr("");
    var contactPhone: Option<string> := None;
    var contactEmail: Option<string> := None;
    var fields := contact.customFields;
    for i := 0 to |fields|
      invariant contactPhone == LastCoded(fields[..i], PhoneCode)
      invariant contactEmail == LastCoded(fields[..i], EmailCode)
    {
      var field := fields[i];
      var fieldCode := field.fieldCode;
      var values := field.values;
      assert fields[..i + 1][..i] == fields[..i];
      if fieldCode == Some(PhoneCode) && |values| > 0 {
        contactPhone := values[0];
      } else if fieldCode == Some(EmailCode) && |values| > 0 {
        contactEmail := values[0];
      }
    }
    assert fields[..|fields|] == fields;
    data := ClientData(lead.id, price, classEnumId, subjectsEnumIds, directionEnumId,
                       purchasedCourseEnumIds, contactName, contactPhone, contactEmail);
  }
}
