# amocrm-payment-webhook, modelled in Dafny

The service receives the webhook of the CRM's "Invoices/purchases" catalog when an invoice is added or changed. If the invoice is paid, it posts the order to a learning platform:

- which courses were bought;
- for which subjects;
- for which grade;
- who the student is;
- the total.

This project models the decision logic on that path, leaving out the network. It covers five parts.

- **Reading the webhook body** (module `WebhookProcessor`, file `webhook_processor.dfy`).
  - The decoded body is a sequence of `(key, values)` pairs. The model detects the event type and checks the payment status from the `BILL_STATUS` slot.
  - It pulls out three values, each from a custom-field slot located by its `[code]` key:
    - the lead id, from a `/leads/detail/N` link;
    - the invoice lines, a positional array probed until an index has no description;
    - the `BILL_PRICE` total.
  - Finally it decides the outcome: ignore the webhook, reject it, or process the payment.
- **Enumeration tables** (`SubjectMapping`). These are the exact-match tables from CRM enum ids to subject designations, subject names, grade numbers and course names. The ids are configuration values (`Settings`), so they are a parameter.
- **Building the order** (`PayloadMapper`):
  - it validates the client record in a fixed order;
  - it pairs invoice lines with subjects by position;
  - it splits the contact's name;
  - it assembles the `PlatformPayload` (`PlatformModels`).
- **Reading CRM records** (`AmoCrmClient`). This flattens a lead's custom fields into an `id → value` dictionary and picks the phone and email out of the contact.
- **Payment notes** (`NoteParser`). This recognises payment-system notes and extracts the order number and the amount text from them.

The modules `Wrappers` (`Option`, `Result`), `PyText` (the Python string primitives the code relies on) and `CrmData` (JSON scalars and the client record) are shared.

The imperative parts of the code are methods with loops and proved invariants:

- the item probing loop: `ExtractItems` / `ExtractSlotItems`;
- the course loop: `BuildCourses`;
- the custom-field loop: `ParseCustomFields`;
- the phone and email loop: `ExtractLeadData`.

Each is proved equal to a specification function. The properties of the source are proved about those functions:

- first match wins;
- the last write wins;
- order is kept;
- round trips hold;
- the order in which errors are checked.

## Model

| member | source | states |
|---|---|---|
| WebhookProcessor.GetFirst | app/services/webhook_processor.py:234-236 | `parsed_data.get(key, [])` returns the values of the first (with distinct keys: the only) entry with that key |
| WebhookProcessor.GetMissing | app/services/webhook_processor.py:234-236 | a key that no entry has gets the default `[]` |
| WebhookProcessor.DetectEventType | app/services/webhook_processor.py:133-137 | `add` if and only if some key starts with `catalogs[add][0]`, even when `update` keys are present too; `update` if and only if there is no `add` key and some key starts with `catalogs[update][0]`; otherwise none |
| WebhookProcessor.PrefixesExclusive | app/services/webhook_processor.py:133-136 | no key starts with both prefixes, so `add` takes precedence only in a body that mixes the two |
| WebhookProcessor.CodeKeyHasSlot | app/services/webhook_processor.py:151-154 | every key that passes the two substring tests has at least four `[`, so `key.split("[")[4]` never raises |
| WebhookProcessor.SlotOfCodeKeyShape | app/services/webhook_processor.py:217-221 | the slot of a code key is `[` followed by text without `[`, never empty, so the "ITEMS not found" test after a hit never fires |
| WebhookProcessor.SlotOfCodeKey | app/services/webhook_processor.py:153-154 | the slot of `…[custom_fields]<slot>[code]` is `<slot>` (for example `[3]`), and that key is a code key |
| WebhookProcessor.FirstCodeFrom | app/services/webhook_processor.py:150-152 | the scan stops at the first entry, in order, that is a code key whose first value is the code, or at the end |
| WebhookProcessor.FirstCodeFound | app/services/webhook_processor.py:150-152 | any entry that is the first to name the code is the one the scan stops at |
| WebhookProcessor.IsPaid | app/services/webhook_processor.py:150-173 | without a `BILL_STATUS` entry the invoice is unpaid; otherwise it is paid if and only if the `[values][0][enum]` of the FIRST such entry's slot has the first value `1371080` exactly; later entries are ignored |
| WebhookProcessor.FirstReadingFrom | app/services/webhook_processor.py:189-206 | the scan passes over code entries whose reading fails and stops at the first one that yields a value |
| WebhookProcessor.FirstReadingFound | app/services/webhook_processor.py:268-286 | any entry that is the first with a successful reading is the one the scan stops at |
| WebhookProcessor.FirstReading | app/services/webhook_processor.py:189-206 | `None` if and only if no code entry of the body yields a value; otherwise the value of the first that does |
| WebhookProcessor.LinkDigits | app/services/webhook_processor.py:199-201 | the group of `/leads/detail/(\d+)` is a non-empty digit run ending at a non-digit or at the end of the link (greedy `\d+`) |
| WebhookProcessor.LinkAttempts | app/services/webhook_processor.py:199 | at each position the regular expression matches if and only if the path occurs there followed by a digit, and its value is then that digit run |
| WebhookProcessor.LinkLeadId | app/services/webhook_processor.py:199-201 | `None` if and only if the regular expression matches nowhere; otherwise the value of the digits at the leftmost match position |
| WebhookProcessor.LinkLeadIdAt | app/services/webhook_processor.py:199-201 | the leftmost match position decides the lead id |
| WebhookProcessor.LinkRoundTrip | app/services/webhook_processor.py:199-201 | a link `/leads/detail/<n>…` whose digits are followed by a non-digit or nothing yields `n` |
| WebhookProcessor.ExtractLeadId | app/services/webhook_processor.py:187-206 | `None` if and only if no `LINK_TO_LEAD` slot has a matching link; otherwise the lead id of the first slot that does, since slots without a link or a match are passed over |
| WebhookProcessor.ExtractAmount | app/services/webhook_processor.py:266-286 | `int()` of the first `BILL_PRICE` slot value that parses; 0 when none parses |
| WebhookProcessor.ElementIdMissing | app/services/webhook_processor.py:177-180 | a body without `catalogs[T][0][id]` has no catalog element id |
| WebhookProcessor.ElementIdUnparseable | app/services/webhook_processor.py:177-185 | a first `catalogs[T][0][id]` entry with no values, or whose first value fails `int()`, gives no element id |
| WebhookProcessor.ElementIdRoundTrip | app/services/webhook_processor.py:175-185 | the first `catalogs[T][0][id]` entry holding `str(n)` as its first value gives the element id `n`; further values are ignored |
| WebhookProcessor.ItemKeyInjective | app/services/webhook_processor.py:228-232 | two item keys of one slot are equal only if they have the same index and the same attribute |
| WebhookProcessor.DescriptionKeysCount | app/services/webhook_processor.py:228-230 | the description keys of `n` indices are `n` distinct keys |
| WebhookProcessor.ProbeBound | app/services/webhook_processor.py:227-239 | while every probe has found a description, no more indices than entries have been probed, which is why `while True` ends |
| WebhookProcessor.StopFrom | app/services/webhook_processor.py:227-239 | the first index at or after a given one whose description is missing, within the body's size |
| WebhookProcessor.StopByBound | app/services/webhook_processor.py:227-239 | probing stops at index `len(parsed_data)` at the latest |
| WebhookProcessor.ProbeCount | app/services/webhook_processor.py:227-239 | the number of indices probed: every index before it has a description, it itself has none, and it is at most the body's size |
| WebhookProcessor.ProbeCountAt | app/services/webhook_processor.py:238-239 | the first index without a description is the probe count |
| WebhookProcessor.Probes | app/services/webhook_processor.py:226-258 | the probes of indices 0 … n-1, one per index and in index order |
| WebhookProcessor.Lines | app/services/webhook_processor.py:241-256 | the lines kept from the probes are never more than the indices probed |
| WebhookProcessor.ProbeStep | app/services/webhook_processor.py:241-258 | one more probe appends its line when price and quantity parse (missing ones count as 0) and otherwise leaves the lines unchanged, so probing continues past a bad line |
| WebhookProcessor.ItemsOfSlot | app/services/webhook_processor.py:213-219 | the lines come from the slot of the FIRST `ITEMS` code entry |
| WebhookProcessor.ItemsNoSlot | app/services/webhook_processor.py:221-223 | without an `ITEMS` code entry there are no lines |
| WebhookProcessor.ExtractSlotItems | app/services/webhook_processor.py:226-258 | the probing loop returns exactly the lines of the probes up to the first index without a description, in index order |
| WebhookProcessor.ExtractItems | app/services/webhook_processor.py:208-264 | `_extract_items` returns exactly the lines of the first `ITEMS` slot |
| WebhookProcessor.ItemsFormGet | app/services/webhook_processor.py:234-236 | in a body built from lines, each attribute key of each line reads back its own value |
| WebhookProcessor.ItemsRoundTrip | app/services/webhook_processor.py:213-258 | a body holding an `ITEMS` slot with `lines` yields exactly `lines`, whatever the descriptions, prices and quantities |
| WebhookProcessor.ProcessCatalogWebhook | app/services/webhook_processor.py:37-59 | the checks in order: `ignored/not_catalog_event` if and only if there is no event type; `ignored/not_paid` if and only if unpaid; the lead-id `ValueError` if and only if paid and the lead id is missing or 0; the items `ValueError` if and only if paid with a lead and no lines; and the payment proceeds exactly otherwise, with the element id, lead id, lines and amount the extractors give |
| SubjectMapping.Tabulate | app/config/subject_mapping.py:16-32 | a dict literal: its keys are exactly the listed ids, and every value is a listed value |
| SubjectMapping.TabulateLaterWins | app/config/subject_mapping.py:16-32 | an entry whose id does not come again later in the literal is what the id maps to |
| SubjectMapping.TabulateDistinct | app/config/subject_mapping.py:107-117 | with distinct ids the literal has as many entries as lines |
| SubjectMapping.FindDistinct | app/config/subject_mapping.py:133-138 | with distinct ids, looking up the k-th id of a literal finds the k-th value |
| SubjectMapping.SetOfSeqSize | app/config/subject_mapping.py:16-32 | a repeated id leaves fewer entries than lines |
| SubjectMapping.Find | app/config/subject_mapping.py:87-94 | `id in mapping` then `mapping[id]`: found if and only if the id is an integer key of the table |
| SubjectMapping.SubjectMappingTable | app/config/subject_mapping.py:6-32 | the designation table's keys are exactly the 15 configured subject ids |
| SubjectMapping.SubjectNameTable | app/config/subject_mapping.py:48-64 | the display-name table's keys are exactly the same 15 ids as the designation table's |
| SubjectMapping.GetSubjectNameById | app/config/subject_mapping.py:35-69 | defined exactly on the configured subject ids; any other id raises `Неизвестный ID предмета: <id>` |
| SubjectMapping.MapSubjectToDesignation | app/config/subject_mapping.py:72-94 | defined exactly on the configured subject ids; on any other id both ways out of the `try` end in the id-only error |
| SubjectMapping.SubjectDesignations | app/config/subject_mapping.py:16-32 | with distinct ids the designation table has 15 entries and the k-th subject id maps to the k-th designation (`MATH_PROF_SASHA` → `maths2`, `MATH_OGE` → `maths-oge`, …) |
| SubjectMapping.SubjectNames | app/config/subject_mapping.py:48-69 | with distinct ids the display-name table has 15 entries and the k-th subject id maps to the k-th name |
| SubjectMapping.LastSubjectWins | app/config/subject_mapping.py:31 | whatever the configuration, the last subject of the literal keeps its designation |
| SubjectMapping.UnknownSubjectMessage | app/config/subject_mapping.py:87-92 | an unknown subject id raises `Маппинг для предмета с ID <id> не найден` |
| SubjectMapping.DuplicateSubjectIdCollapses | app/config/subject_mapping.py:16-32 | two subjects configured with the same id leave fewer than 15 entries |
| SubjectMapping.ClassMappingTable | app/config/subject_mapping.py:97-117 | the grade table's keys are exactly the 9 configured grade ids |
| SubjectMapping.MapClassToNumber | app/config/subject_mapping.py:120-138 | defined exactly on the configured grade ids, with a grade between 6 and 11 |
| SubjectMapping.ClassNumbers | app/config/subject_mapping.py:107-117 | with distinct ids the table has 9 entries and the k-th grade id maps to the k-th number: 5-6 → 6, 7…11 → themselves |
| SubjectMapping.CompressedGrades | app/config/subject_mapping.py:114-116 | younger than 9th grade → 8, university → 11, not a student → 11 |
| SubjectMapping.UnknownClassMessage | app/config/subject_mapping.py:135-136 | an unknown grade id raises `Маппинг для класса с ID <id> не найден` |
| SubjectMapping.CourseNameTable | app/config/subject_mapping.py:141-166 | the course table's keys are exactly the 14 configured course ids |
| SubjectMapping.MapCourseToName | app/config/subject_mapping.py:169-187 | defined exactly on the 14 course ids |
| SubjectMapping.CourseNames | app/config/subject_mapping.py:151-166 | with distinct ids the table has 14 entries and the k-th course id maps to the k-th name |
| SubjectMapping.UnknownCourseMessage | app/config/subject_mapping.py:184-185 | an unknown course id raises `Маппинг для курса с ID <id> не найден` |
| PayloadMapper.Survivors | app/services/mapper.py:110-117 | the indices of the items with a description, increasing and complete |
| PayloadMapper.CoursesOfFailureStays | app/services/mapper.py:119 | once a subject lookup has raised, the rest of the pairs are not processed |
| PayloadMapper.CoursesOfSucceeds | app/services/mapper.py:110-128 | the pairs succeed if and only if every item WITH a description has a known subject; an item without a description never has its subject looked up |
| PayloadMapper.CoursesOfFails | app/services/mapper.py:115-119 | a failure is the id-only error of the first kept item whose subject is unknown |
| PayloadMapper.CoursesOfContents | app/services/mapper.py:110-128 | the k-th course is built from the k-th kept pair: its description as name, its subject's designation, its price as cost and its quantity as months; order is kept |
| PayloadMapper.BuiltCourses | app/services/mapper.py:102-141 | unequal lengths raise the count error before anything else; a success has between 1 and `len(items)` courses |
| PayloadMapper.BuiltCoursesNoCourses | app/services/mapper.py:138-139 | with equal lengths and known subjects, the courses are built if and only if some item has a description; otherwise the "no course" error |
| PayloadMapper.BuildCourses | app/services/mapper.py:84-141 | the loop of `_build_courses` returns exactly `BuiltCourses`: the count error for unequal lengths, else the courses of the kept pairs in item order, the first unknown subject of a kept item, or the "no course" error |
| PayloadMapper.ParseName | app/services/mapper.py:143-164 | an empty name gives `("Клиент", None)`; a non-empty name of whitespace only fails on `parts[0]`; otherwise the first name is a non-empty word without whitespace and the last name, if any, is non-empty and starts with a non-space |
| PayloadMapper.StripAllSpace | app/services/mapper.py:157 | `strip()` leaves nothing if and only if the name is all whitespace |
| PayloadMapper.ParseNameJoin | app/services/mapper.py:157-160 | first name, a whitespace run and last name put back together give the stripped name |
| PayloadMapper.ParseNameRoundTrip | app/services/mapper.py:157-160 | `first + " " + last`, for a first name without whitespace and a last name without whitespace at either end, splits into `(first, last)` |
| PayloadMapper.ClassNumber | app/services/mapper.py:55 | `map_class_to_number(class_enum_id)` succeeds only on a single configured grade id, with a grade between 6 and 11 |
| PayloadMapper.MapToPlatformPayload | app/services/mapper.py:37-82 | the errors in order, the first failing one deciding: class missing, subjects empty, phone missing, email missing, unknown grade, unsplittable name, course errors; on success the payload carries these courses, the grade number, the name parts, email and phone unchanged, and the INPUT amount |
| AmoCrmClient.EnumIds | app/services/amocrm_client.py:151 | the enum ids of the values that have one, never more than the values, and empty if and only if no value has one |
| AmoCrmClient.PlainValues | app/services/amocrm_client.py:155 | the plain values of the values that have one, never more than the values, and empty if and only if no value has one |
| AmoCrmClient.ComprehensionsConcat | app/services/amocrm_client.py:151-155 | both comprehensions keep the order of the values |
| AmoCrmClient.FieldEntry | app/services/amocrm_client.py:138-155 | a field writes an entry only under its own, truthy id and only when it has values |
| AmoCrmClient.SingleValueEntry | app/services/amocrm_client.py:144-149 | a single value writes its `enum_id` before its `value`, and nothing when it has neither key |
| AmoCrmClient.MultiValueEntry | app/services/amocrm_client.py:150-155 | several values always write a list: the enum ids when any value has one, otherwise the plain values, which is empty when no value has either key |
| AmoCrmClient.ParsedKeys | app/services/amocrm_client.py:137-155 | an id is in the dictionary if and only if some field writes an entry for it |
| AmoCrmClient.ParsedLastWins | app/services/amocrm_client.py:147-155 | an id maps to the entry of the LAST field that writes it |
| AmoCrmClient.ParsedExample | tests/test_amocrm_client/test_amocrm_client.py:80-90 | the three example fields give a plain value, an enum id and the list of two enum ids |
| AmoCrmClient.ParseCustomFields | app/services/amocrm_client.py:125-157 | the loop returns exactly `Parsed`: each field's entry written in turn, so a later field with the same id replaces an earlier one and fields that write nothing leave the dictionary unchanged |
| AmoCrmClient.Lookup | app/services/amocrm_client.py:190-193 | `dict.get(id)`: the value under the id, or `None` |
| AmoCrmClient.AsList | app/services/amocrm_client.py:195-199 | a list stays as it is; a truthy scalar becomes a one-element list; a falsy or missing value becomes `[]` |
| AmoCrmClient.LastCodedAt | app/services/amocrm_client.py:206-213 | the LAST contact field with the code and some value decides, even when its value is missing |
| AmoCrmClient.LastCodedNone | app/services/amocrm_client.py:203-204 | without such a field phone or email is `None` |
| AmoCrmClient.ExtractLeadData | app/services/amocrm_client.py:159-234 | the record: the lead's `id`, its `price` or 0, the grade and direction as flattened, subjects and purchased courses forced into lists, the contact's name or `""`, and phone and email from the contact-field loop |
| NoteParser.IsPaymentNote | app/services/note_parser.py:6-41 | no text is no payment; otherwise a payment note if and only if the lower-cased text contains one of the five markers, or the text contains `✓` and the lower-cased text `заказ` or `order` |
| NoteParser.AnyMarker | app/services/note_parser.py:34-36 | the marker loop returns true if and only if some marker occurs |
| NoteParser.PaidAnywhereCounts | app/services/note_parser.py:29-36 | any text containing `paid` in any letter case is a payment note |
| NoteParser.NotPaidCounts | app/services/note_parser.py:28-36 | "Не оплачено" ("not paid") counts as a payment note, because it contains the marker `оплачено` |
| NoteParser.CheckMarkRule | app/services/note_parser.py:38-39 | "✓ Заказ оплачен" has no marker but counts through the check-mark rule |
| NoteParser.KeywordMatchSound | app/services/note_parser.py:94-95 | a keyword match has the shape of `word\s*sign?\s*(\d+)`, with a greedy digit group |
| NoteParser.KeywordMatchComplete | app/services/note_parser.py:94-95 | wherever the keyword pattern can match, the model matches, with the same group |
| NoteParser.AmountMatchSound | app/services/note_parser.py:62-63 | an amount match has the shape of the bracketed or bare amount pattern |
| NoteParser.AmountMatchComplete | app/services/note_parser.py:62-63 | wherever the amount pattern can match, the model matches, with the same group |
| NoteParser.NumberEndComplete | app/services/note_parser.py:62-63 | the greedy `\d+(?:\.\d+)?` ends where any number followed by neither a digit nor a fraction ends |
| NoteParser.Search | app/services/note_parser.py:98-101 | `re.search` finds the leftmost match position |
| NoteParser.SearchFirstAt | app/services/note_parser.py:99 | the first position where the pattern matches is the result |
| NoteParser.FirstPatternMatch | app/services/note_parser.py:98-101 | the pattern loop uses the first pattern that matches anywhere |
| NoteParser.FirstGroup | app/services/note_parser.py:98-103 | `None` if and only if no pattern matches; a keyword group is a non-empty digit run, an amount group a number |
| NoteParser.ExtractOrderNumber | app/services/note_parser.py:77-103 | no text gives `None`; otherwise `None` if and only if neither pattern matches; a result is a non-empty digit run |
| NoteParser.ExtractPaymentAmount | app/services/note_parser.py:44-74 | no text gives `None`; otherwise `None` if and only if neither pattern matches; a result is a decimal number text |
| NoteParser.OrderKeywordPrecedence | app/services/note_parser.py:93-101 | `заказ` wins over `order` wherever they occur: the `order` pattern is used only when the `заказ` one matches nowhere |
| NoteParser.AmountBracketPrecedence | app/services/note_parser.py:61-72 | the bracketed amount wins over a bare amount wherever they occur |
| NoteParser.CaseInsensitive | app/services/note_parser.py:32-101 | upper and lower case make no difference to any of the three operations |
| NoteParser.SameGroups | app/services/note_parser.py:99-101 | matching the lower-cased text cuts the same group out of it as out of the text |
| NoteParser.EnglishOrderNumber | tests/test_note_parser/test_note_parser.py:98-101 | "Order #12345 paid" has order number "12345" |
| NoteParser.BankNote | tests/test_note_parser/test_note_parser.py:93-96 | the bank's note "Заказ №5432345 [8490.00 RUB]\n✓ Платёж получен" has order number "5432345"; it is also a payment note and has amount text "8490.00", as the tests at lines 9-12 and 56-59 of the same file expect |

## Behaviours worth noting

These follow from the code as written, and the model keeps each of them.

- Course descriptions are not trimmed (app/services/mapper.py:111-117). A description made only of whitespace is kept as a course; only the empty description is skipped (`PayloadMapper.Kept`).
- An unknown subject always raises the message with only the id (app/config/subject_mapping.py:87-92). The message with the subject's display name is raised inside the `try` and always replaced by the `except` clause. It could not be reached anyway, because the display-name table has the same keys as the designation table.
- A paid invoice without a lead id or without lines raises `ValueError` (app/services/webhook_processor.py:55-59). It is not ignored. `ProcessCatalogWebhook` models this as `Rejected`.
- The payload documents the grade as 1 to 11 (`description="Класс ученика (1-11)"`, app/models/platform.py:23). The grade table yields only 6 to 11 (app/config/subject_mapping.py:107-117), which is inside that range.
- A catalog element id that does not parse gives `None`, like a missing one (app/services/webhook_processor.py:182-185; `WebhookProcessor.ElementIdUnparseable`).
- The `float()` conversion in `extract_payment_amount` cannot fail, because the matched group is always a decimal number (`NoteParser.ExtractPaymentAmount`). So the `continue` after `ValueError` never runs, and the model stops at the first pattern that matches.

## Left out

- The HTTP calls are not modelled: fetching the lead and contact, and posting to the platform with its HMAC signature. The model takes the records they return as parameters. `_process_payment` is reduced to the `Proceed` outcome of `ProcessCatalogWebhook`, which carries the arguments it would receive.
- URL-decoding of the body (`unquote_plus`, `parse_qs`) is not modelled. The model starts from the decoded `(key, values)` pairs.
  - `Get` returns the first entry with a key. With the distinct keys a dict has, that is its only entry.
- Logging is not modelled, and neither is the JSON response shape beyond the outcome.
- Pydantic's validation of `PlatformPayload` is not modelled. The payload is a plain datatype.
- The environment loading of the configuration ids is not modelled. The ids are a `Config` parameter, and their distinctness is a precondition only of the lemmas that count table entries.
- PyText.ParseInt: models `int()` as an optional sign followed by ASCII decimal digits. Python's `int()` also accepts surrounding whitespace, `_` between digits and non-ASCII decimal digits; the model treats those strings as failing to parse.
- PyText.Lower: lower-cases only the Latin and Russian alphabets; other characters are treated as unchanged.
- NoteParser.Search: `re.IGNORECASE` is modelled by matching the lower-cased text. `\d` and `\s` are modelled on ASCII digits and Python's whitespace set. `\d` in a Python `str` pattern also matches non-ASCII decimal digits.
- NoteParser.ExtractPaymentAmount: stops at the numeric text; the `float()` conversion is not modelled.
- Contact field values are modelled as a string or absent (`AmoCrmClient.ContactField`). Other JSON types in a contact's `value` are not represented.
- AmoCrmClient.ExtractLeadData: a `custom_fields_values` of JSON `null` is treated as an empty list. Iterating `None` would raise instead.
- Invoice items reach the mapper with integer prices and quantities when present (`PayloadMapper.OrderItem`). The `int()` conversion of a non-integer value, and `str()` of a non-string description, are not modelled.
- PayloadMapper.ClassNumber: a grade value that is a list raises `TypeError` (a list cannot be a dict key). It is modelled as the error `ClassIdIsList`, without the exception's type hierarchy.
- WebhookProcessor.LinkDigits: `\d` is modelled as an ASCII digit (`PyText.IsDigit`). In Python `\d` matches any Unicode decimal digit and `int()` accepts those digits. A link ending in `/leads/detail/١٢٣` gives lead id 123 in Python and no lead id in the model, so `ProcessCatalogWebhook` rejects it. A link ending in `/leads/detail/12٣` gives 123 in Python and 12 in the model.
- WebhookProcessor.LinkAttempts: for the same reason, the model reports no match at a position where the path is followed by a non-ASCII decimal digit, and `WebhookProcessor.LinkMatchesAt` is false there. Python's regular expression matches at such a position.
- AmoCrmClient.FieldValue: a custom-field value is a `CrmData.Scalar`, which is an integer, a string or `null`. JSON booleans (checkbox fields) and floats are not represented. In Python, dictionary lookups treat `True` as equal to `1` and `2.0` as equal to `2`; `SubjectMapping.Find` and `AmoCrmClient.Lookup` do not model that.
- AmoCrmClient.Lead: `price` is an integer or absent. A JSON `"price": null` makes `lead.get("price", 0)` return `None`. The model cannot express this, and `AmoCrmClient.ExtractLeadData` gives 0 for an absent price.
