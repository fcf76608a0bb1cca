/** The catalog webhook of the CRM's "invoices/purchases" catalog: reading the
    decoded form body, deciding whether the event is a paid invoice, and pulling
    out the linked lead, the invoice lines and the total. */
module WebhookProcessor {
  import opened Wrappers
  import opened PyText

  /** The decoded form body: `(key, values)` pairs in insertion order. */
  type Form = seq<(string, seq<string>)>

  // ------------------------------------------------------------------
  // Lookup

  /** `parsed_data.get(key, [])`: the values of the first entry with key `key`. */
  function Get(f: Form, key: string): seq<string>
  {
    if |f| == 0 then []
    else if f[0].0 == key then f[0].1
    else Get(f[1..], key)
  }

  /** `Get` finds the first entry with the key, and nothing when there is none. */
  lemma {:induction false} GetFirst(f: Form, key: string, i: int)
    requires 0 <= i < |f| && f[i].0 == key
    requires forall j | 0 <= j < i :: f[j].0 != key
    ensures Get(f, key) == f[i].1
  {
    if i > 0 {
      GetFirst(f[1..], key, i - 1);
    }
  }

  lemma {:induction false} GetMissing(f: Form, key: string)
    requires forall j | 0 <= j < |f| :: f[j].0 != key
    ensures Get(f, key) == []
  {
    if |f| > 0 {
      GetMissing(f[1..], key);
    }
  }

  // ------------------------------------------------------------------
  // Event type

  datatype EventType = Add | Update
  {
    function Name(): string
    {
      if Add? then "add" else "update"
    }
  }

  /** `catalogs[T][0]`: every key of an event of type `T` starts with it. */
  function ElementPrefix(t: EventType): string
  {
    "catalogs[" + t.Name() + "][0]"
  }

  /** `catalogs[T][0][custom_fields]`. */
  function CustomFields(t: EventType): string
  {
    ElementPrefix(t) + "[custom_fields]"
  }

  predicate SomeKeyStartsWith(f: Form, p: string)
  {
    exists i | 0 <= i < |f| :: StartsWith(f[i].0, p)
  }

  /** `_detect_event_type`: `add` when any key belongs to an `add` event, even if
      `update` keys are present too; else `update` when one belongs to an `update`
      event; else no catalog event. */
  function DetectEventType(f: Form): (r: Option<EventType>)
    ensures r == Some(Add) <==> SomeKeyStartsWith(f, ElementPrefix(Add))
    ensures r == Some(Update) <==>
              !SomeKeyStartsWith(f, ElementPrefix(Add)) && SomeKeyStartsWith(f, ElementPrefix(Update))
    ensures r.Some? ==> SomeKeyStartsWith(f, ElementPrefix(r.value))
  {
    if SomeKeyStartsWith(f, ElementPrefix(Add)) then Some(Add)
    else if SomeKeyStartsWith(f, ElementPrefix(Update)) then Some(Update)
    else None
  }

  /** A key can belong to at most one event type, so the precedence of `add` only
      matters for a body that mixes both. */
  lemma PrefixesExclusive(key: string)
    ensures !(StartsWith(key, ElementPrefix(Add)) && StartsWith(key, ElementPrefix(Update)))
  {
    if StartsWith(key, ElementPrefix(Add)) {
      assert key[9] == ElementPrefix(Add)[9] == 'a';
      assert |key| >= 10 && ElementPrefix(Update)[9] == 'u';
    }
  }

  // ------------------------------------------------------------------
  // Custom-field slots

  /** A key naming the code of a custom field of the event. */
  predicate IsCodeKey(key: string, t: EventType)
  {
    Contains(key, CustomFields(t)) && Contains(key, "[code]")
  }

  /** An entry that is a `[code]` key whose first value is `code`. */
  predicate NamesCode(entry: (string, seq<string>), t: EventType, code: string)
  {
    IsCodeKey(entry.0, t) && |entry.1| > 0 && entry.1[0] == code
  }

  /** Four distinct occurrences of `c`, in increasing order, count at least four. */
  lemma CountFour(s: string, c: char, a: int, b: int, d: int, e: int)
    requires 0 <= a < b < d < e < |s|
    requires s[a] == c && s[b] == c && s[d] == c && s[e] == c
    ensures Count(s, c) >= 4
  {
    assert s == s[..b] + s[b..d] + s[d..e] + s[e..];
    CountConcat(s[..b], s[b..d], c);
    CountConcat(s[..b] + s[b..d], s[d..e], c);
    CountConcat(s[..b] + s[b..d] + s[d..e], s[e..], c);
    assert s[..b][a] == c && s[b..d][0] == c && s[d..e][0] == c && s[e..][0] == c;
  }

  /** The positions of `[` in `catalogs[T][0][custom_fields]`. */
  function PrefixBrackets(t: EventType): (int, int, int)
  {
    (8, 10 + |t.Name()|, 13 + |t.Name()|)
  }

  /** Three ordered occurrences of `c` and a fourth one elsewhere count at least four. */
  lemma CountFourAny(s: string, c: char, a: int, b: int, d: int, e: int)
    requires 0 <= a < b < d < |s| && 0 <= e < |s| && e != a && e != b && e != d
    requires s[a] == c && s[b] == c && s[d] == c && s[e] == c
    ensures Count(s, c) >= 4
  {
    if e < a {
      CountFour(s, c, e, a, b, d);
    } else if e < b {
      CountFour(s, c, a, e, b, d);
    } else if e < d {
      CountFour(s, c, a, b, e, d);
    } else {
      CountFour(s, c, a, b, d, e);
    }
  }

  /** The three `[` of `catalogs[<name>][0][custom_fields]`, none of which opens `[co`
      when the name does not start with `c`. */
  lemma PrefixBracketsOf(n: string)
    requires |n| > 0 && n[0] != 'c'
    ensures var cf := "catalogs[" + n + "][0]" + "[custom_fields]";
      && 15 + |n| < |cf|
      && cf[8] == '[' && cf[9] == n[0]
      && cf[10 + |n|] == '[' && cf[11 + |n|] == '0'
      && cf[13 + |n|] == '[' && cf[15 + |n|] == 'u'
  {
  }

  /** The three `[` of `catalogs[T][0][custom_fields]`, none of which opens `[co`. */
  lemma PrefixBracketsShape(t: EventType)
    ensures var cf := CustomFields(t);
      var (a, b, d) := PrefixBrackets(t);
      && 0 <= a < b < d && d + 2 < |cf|
      && cf[a] == '[' && cf[b] == '[' && cf[d] == '['
      && cf[a + 1] != 'c' && cf[b + 1] != 'c' && cf[d + 2] != 'o'
  {
    PrefixBracketsOf(t.Name());
  }

  /** Where `catalogs[T][0][custom_fields]` occurs at `i`, the key has its three `[`
      at `i` plus the offsets `PrefixBrackets(t)`. */
  lemma PrefixBracketsAt(key: string, t: EventType, i: int)
    requires OccursAt(key, CustomFields(t), i)
    ensures var (a, b, d) := PrefixBrackets(t);
      && 0 <= i + a < i + b < i + d && i + d + 2 < |key|
      && key[i + a] == '[' && key[i + b] == '[' && key[i + d] == '['
      && key[i + a + 1] != 'c' && key[i + b + 1] != 'c' && key[i + d + 2] != 'o'
  {
    var cf := CustomFields(t);
    var (a, b, d) := PrefixBrackets(t);
    PrefixBracketsShape(t);
    var w := key[i..i + |cf|];
    assert key[i + a] == w[a] && key[i + a + 1] == w[a + 1];
    assert key[i + b] == w[b] && key[i + b + 1] == w[b + 1];
    assert key[i + d] == w[d] && key[i + d + 2] == w[d + 2];
  }

  /** Where `[code]` occurs at `j`, the key reads `[co` there. */
  lemma CodeMarkAt(key: string, j: int)
    requires OccursAt(key, "[code]", j)
    ensures j + 2 < |key| && key[j] == '[' && key[j + 1] == 'c' && key[j + 2] == 'o'
  {
    var v := key[j..j + 6];
    assert v == "[code]";
    assert key[j] == v[0] && key[j + 1] == v[1] && key[j + 2] == v[2];
  }

  /** A `[code]` key has at least four `[`, so `key.split("[")[4]` exists: the three
      of the custom-fields prefix and the one opening `[code]`, which cannot be one
      of them because they are followed by other letters. */
  lemma CodeKeyHasSlot(key: string, t: EventType)
    requires IsCodeKey(key, t)
    ensures Count(key, '[') >= 4
  {
    var i :| 0 <= i <= |key| - |CustomFields(t)| && OccursAt(key, CustomFields(t), i);
    var j :| 0 <= j <= |key| - 6 && OccursAt(key, "[code]", j);
    PrefixBracketsAt(key, t, i);
    CodeMarkAt(key, j);
    var (a, b, d) := PrefixBrackets(t);
    CountFourAny(key, '[', i + a, i + b, i + d, j);
  }

  /** The slot index of a `[code]` key: `"[" +` its fifth `[`-separated piece. A key
      with fewer pieces would raise `IndexError`; no code key has fewer (see
      `SlotOfCodeKeyShape`), so the model gives such keys the empty slot. */
  function SlotOf(key: string): string
  {
    var parts := Split(key, '[');
    if |parts| > 4 then "[" + parts[4] else ""
  }

  /** The slot of a code key is `[` followed by text without `[`; in particular it is
      never empty, so the "slot not found" test after a successful search never fires. */
  lemma SlotOfCodeKeyShape(key: string, t: EventType)
    requires IsCodeKey(key, t)
    ensures SlotShaped(SlotOf(key))
  {
    CodeKeyHasSlot(key, t);
    var parts := Split(key, '[');
    var r := "[" + parts[4];
    assert r[1..] == parts[4];
  }

  /** What a slot index looks like: `[` followed by text without `[`, such as `[3]`. */
  predicate SlotShaped(slot: string)
  {
    |slot| > 0 && slot[0] == '[' && '[' !in slot[1..]
  }

  /** `catalogs[T][0][custom_fields]<slot>[code]`. */
  function CodeKey(t: EventType, slot: string): string
  {
    CustomFields(t) + slot + "[code]"
  }

  /** Four pieces without `[` joined by three `[` hold three `[`. */
  lemma ThreeBrackets(p: string, q: string, r: string, w: string)
    requires '[' !in p && '[' !in q && '[' !in r && '[' !in w
    ensures Count(p + "[" + q + "[" + r + "[" + w, '[') == 3
  {
    assert Count("[", '[') == 1;
    CountConcat(p, "[", '[');
    CountConcat(p + "[", q, '[');
    CountConcat(p + "[" + q, "[", '[');
    CountConcat(p + "[" + q + "[", r, '[');
    CountConcat(p + "[" + q + "[" + r, "[", '[');
    CountConcat(p + "[" + q + "[" + r + "[", w, '[');
  }

  /** `catalogs[T][0][custom_fields]` holds three `[`. */
  lemma CustomFieldsBrackets(t: EventType)
    ensures Count(CustomFields(t), '[') == 3
  {
    var n := t.Name();
    assert CustomFields(t) == "catalogs" + "[" + (n + "]") + "[" + "0]" + "[" + "custom_fields]";
    ThreeBrackets("catalogs", n + "]", "0]", "custom_fields]");
  }

  /** The code key of a slot is a code key. */
  lemma CodeKeyIsCodeKey(t: EventType, slot: string)
    ensures IsCodeKey(CodeKey(t, slot), t)
  {
    var cf := CustomFields(t);
    var key := CodeKey(t, slot);
    assert OccursAt(key, cf, 0) by { assert key[..|cf|] == cf; }
    var j := |key| - 6;
    assert OccursAt(key, "[code]", j) by { assert key[j..] == "[code]"; }
  }

  /** `x + ("[" + r) + ("[" + y)` splits as `x`'s pieces, then `r`, then `y`'s pieces. */
  lemma SplitTwoBrackets(x: string, r: string, y: string)
    requires '[' !in r
    ensures Split(x + (['['] + r) + (['['] + y), '[') == Split(x, '[') + [r] + Split(y, '[')
  {
    assert x + (['['] + r) + (['['] + y) == x + ['['] + r + ['['] + y;
    SplitAppend(x, '[', r);
    SplitNone(r, '[');
    SplitAppend(x + ['['] + r, '[', y);
  }

  /** After a prefix with three `[`, a slot followed by text that opens with `[` is the
      fifth piece. */
  lemma SlotAfterPrefix(x: string, slot: string, y: string)
    requires Count(x, '[') == 3 && SlotShaped(slot) && |y| > 0 && y[0] == '['
    ensures SlotOf(x + slot + y) == slot
  {
    assert x + slot + y == x + (['['] + slot[1..]) + (['['] + y[1..]);
    SplitTwoBrackets(x, slot[1..], y[1..]);
    assert Split(x + slot + y, '[')[4] == slot[1..];
  }

  /** The slot of the code key of a slot is that slot. */
  lemma SlotOfCodeKey(t: EventType, slot: string)
    requires SlotShaped(slot)
    ensures IsCodeKey(CodeKey(t, slot), t)
    ensures SlotOf(CodeKey(t, slot)) == slot
  {
    CodeKeyIsCodeKey(t, slot);
    CustomFieldsBrackets(t);
    SlotAfterPrefix(CustomFields(t), slot, "[code]");
  }

  /** The key of a value of a slot, `…[custom_fields]<slot>[values][0][<part>]`. */
  function SlotValueKey(t: EventType, slot: string, part: string): string
  {
    CustomFields(t) + slot + "[values][0][" + part + "]"
  }

  // ------------------------------------------------------------------
  // Payment status

  const BillStatus := "BILL_STATUS"
  const LinkToLead := "LINK_TO_LEAD"
  const BillPrice := "BILL_PRICE"
  const ItemsCode := "ITEMS"

  /** The index of the first entry at or after `from` that names `code`, or `|f|`:
      a `for` loop over the body that stops at its first hit. */
  function FirstCodeFrom(f: Form, t: EventType, code: string, from: nat): (k: nat)
    requires from <= |f|
    ensures from <= k <= |f|
    ensures forall j | from <= j < k :: !NamesCode(f[j], t, code)
    ensures k < |f| ==> NamesCode(f[k], t, code)
    decreases |f| - from
  {
    if from == |f| || NamesCode(f[from], t, code) then from else FirstCodeFrom(f, t, code, from + 1)
  }

  /** Entry `i` is the first entry naming `code`. */
  predicate FirstCodeAt(f: Form, t: EventType, code: string, i: int)
  {
    0 <= i < |f| && NamesCode(f[i], t, code) && forall j | 0 <= j < i :: !NamesCode(f[j], t, code)
  }

  /** The enum id of the "Paid" status. */
  const PaidEnum := "1371080"

  /** The status slot says "Paid": its `[values][0][enum]` has first value `1371080`. */
  predicate StatusPaid(f: Form, t: EventType, slot: string)
  {
    var e := Get(f, SlotValueKey(t, slot, "enum"));
    |e| > 0 && e[0] == PaidEnum
  }

  /** The first entry naming `code` is the one the scan stops at. */
  lemma FirstCodeFound(f: Form, t: EventType, code: string)
    ensures forall i | FirstCodeAt(f, t, code, i) :: FirstCodeFrom(f, t, code, 0) == i
  {
    var k := FirstCodeFrom(f, t, code, 0);
    forall i | FirstCodeAt(f, t, code, i) ensures k == i {
    }
  }

  /** `_is_paid`: the first `BILL_STATUS` code entry decides; later ones are never
      read, and a body without one is unpaid. */
  function IsPaid(f: Form, t: EventType): (paid: bool)
    ensures (forall i | 0 <= i < |f| :: !NamesCode(f[i], t, BillStatus)) ==> !paid
    ensures forall i | FirstCodeAt(f, t, BillStatus, i) :: paid <==> StatusPaid(f, t, SlotOf(f[i].0))
  {
    FirstCodeFound(f, t, BillStatus);
    var k := FirstCodeFrom(f, t, BillStatus, 0);
    k < |f| && StatusPaid(f, t, SlotOf(f[k].0))
  }

  // ------------------------------------------------------------------
  // Slot values read with a scan that moves on past failures

  /** How a locator reads the `[values][0][value]` of the slot it found. */
  datatype Reader = LeadLink | Integer
  {
    /** Nothing when the value is missing; else the lead id in the link, or `int()`. */
    function Read(vs: seq<string>): Option<int>
    {
      if |vs| == 0 then None
      else if LeadLink? then LinkLeadId(vs[0])
      else ParseInt(vs[0])
    }
  }

  /** What entry `i` yields: when it names `code`, its slot's value read by `reader`. */
  function SlotReading(f: Form, t: EventType, code: string, reader: Reader, i: int): Option<int>
    requires 0 <= i < |f|
  {
    if NamesCode(f[i], t, code) then reader.Read(Get(f, SlotValueKey(t, SlotOf(f[i].0), "value")))
    else None
  }

  /** The index of the first entry at or after `from` that yields a reading, or `|f|`. */
  function FirstReadingFrom(f: Form, t: EventType, code: string, reader: Reader, from: nat): (k: nat)
    requires from <= |f|
    ensures from <= k <= |f|
    ensures forall j | from <= j < k :: SlotReading(f, t, code, reader, j).None?
    ensures k < |f| ==> SlotReading(f, t, code, reader, k).Some?
    decreases |f| - from
  {
    if from == |f| || SlotReading(f, t, code, reader, from).Some? then from
    else FirstReadingFrom(f, t, code, reader, from + 1)
  }

  /** Entry `i` is the first entry that yields a reading. */
  predicate FirstReadingAt(f: Form, t: EventType, code: string, reader: Reader, i: int)
  {
    0 <= i < |f| && SlotReading(f, t, code, reader, i).Some?
    && forall j | 0 <= j < i :: SlotReading(f, t, code, reader, j).None?
  }

  /** The first entry that yields a reading is the one the scan stops at. */
  lemma FirstReadingFound(f: Form, t: EventType, code: string, reader: Reader)
    ensures forall i | FirstReadingAt(f, t, code, reader, i) :: FirstReadingFrom(f, t, code, reader, 0) == i
  {
    var k := FirstReadingFrom(f, t, code, reader, 0);
    forall i | FirstReadingAt(f, t, code, reader, i) ensures k == i {
    }
  }

  /** The first reading in body order, if any entry yields one. */
  function FirstReading(f: Form, t: EventType, code: string, reader: Reader): (r: Option<int>)
    ensures r.None? <==> forall i | 0 <= i < |f| :: SlotReading(f, t, code, reader, i).None?
    ensures forall i | FirstReadingAt(f, t, code, reader, i) :: r == SlotReading(f, t, code, reader, i)
  {
    FirstReadingFound(f, t, code, reader);
    var k := FirstReadingFrom(f, t, code, reader, 0);
    if k < |f| then SlotReading(f, t, code, reader, k) else None
  }

  // ------------------------------------------------------------------
  // Lead id

  const LeadPath := "/leads/detail/"

  /** Where `re.search(r"/leads/detail/(\d+)", s)` could match: the path at `p`
      followed by at least one digit. */
  predicate LinkMatchesAt(s: string, p: int)
  {
    OccursAt(s, LeadPath, p) && p + |LeadPath| < |s| && IsDigit(s[p + |LeadPath|])
  }

  /** The digits after the path at `p`: the greedy `\d+`. */
  function LinkDigits(s: string, p: int): (ds: string)
    requires LinkMatchesAt(s, p)
    ensures |ds| > 0 && AllDigits(ds)
    ensures p + |LeadPath| + |ds| <= |s|
    ensures p + |LeadPath| + |ds| == |s| || !IsDigit(s[p + |LeadPath| + |ds|])
  {
    var rest := s[p + |LeadPath|..];
    var n := LeadingDigits(rest);
    assert rest[0] == s[p + |LeadPath|];
    assert n < |rest| ==> rest[n] == s[p + |LeadPath| + n];
    rest[..n]
  }

  /** The outcome of matching at each position of `s`. */
  function LinkAttempts(s: string): (xs: seq<Option<int>>)
    ensures |xs| == |s| + 1
    ensures forall p | 0 <= p <= |s| :: xs[p].Some? <==> LinkMatchesAt(s, p)
    ensures forall p | 0 <= p <= |s| && LinkMatchesAt(s, p) :: xs[p].value == DigitsValue(LinkDigits(s, p))
  {
    seq(|s| + 1, p requires 0 <= p <= |s| =>
      if LinkMatchesAt(s, p) then Some(DigitsValue(LinkDigits(s, p))) else None)
  }

  /** The lead id of a link: the number after the leftmost `/leads/detail/` that a
      digit follows, or `None`. */
  function LinkLeadId(s: string): (r: Option<int>)
    ensures r.None? <==> forall p | 0 <= p <= |s| :: !LinkMatchesAt(s, p)
    ensures r.Some? ==> exists p | 0 <= p <= |s| :: LinkMatchesAt(s, p)
                          && (forall q | 0 <= q < p :: !LinkMatchesAt(s, q))
                          && r.value == DigitsValue(LinkDigits(s, p))
  {
    var xs := LinkAttempts(s);
    var k := FirstSomeFrom(xs, 0);
    if k <= |s| then xs[k] else None
  }

  /** The leftmost match position decides the lead id. */
  lemma LinkLeadIdAt(s: string, p: int)
    requires 0 <= p <= |s| && LinkMatchesAt(s, p)
    requires forall q | 0 <= q < p :: !LinkMatchesAt(s, q)
    ensures LinkLeadId(s) == Some(DigitsValue(LinkDigits(s, p)))
  {
    var xs := LinkAttempts(s);
    assert FirstSomeFrom(xs, 0) == p;
  }

  /** `_extract_lead_id`: the lead id of the first `LINK_TO_LEAD` slot whose link
      yields one; a slot without a link, or whose link does not match, is passed over. */
  function ExtractLeadId(f: Form, t: EventType): (r: Option<int>)
    ensures r.None? <==> forall i | 0 <= i < |f| :: SlotReading(f, t, LinkToLead, LeadLink, i).None?
    ensures forall i | FirstReadingAt(f, t, LinkToLead, LeadLink, i)
              :: r == SlotReading(f, t, LinkToLead, LeadLink, i)
  {
    FirstReading(f, t, LinkToLead, LeadLink)
  }

  // ------------------------------------------------------------------
  // Amount and element id

  /** `_extract_amount`: `int()` of the first `BILL_PRICE` slot value that parses;
      slots whose value is missing or does not parse are passed over; else 0. */
  function ExtractAmount(f: Form, t: EventType): (amount: int)
    ensures (forall i | 0 <= i < |f| :: SlotReading(f, t, BillPrice, Integer, i).None?) ==> amount == 0
    ensures forall i | FirstReadingAt(f, t, BillPrice, Integer, i)
              :: Some(amount) == SlotReading(f, t, BillPrice, Integer, i)
  {
    FirstReading(f, t, BillPrice, Integer).GetOr(0)
  }

  /** `catalogs[T][0][id]`. */
  function ElementIdKey(t: EventType): string
  {
    ElementPrefix(t) + "[id]"
  }

  /** `_extract_catalog_element_id`: `int()` of the first value of the element id,
      or `None` when it is missing or does not parse. */
  function ExtractCatalogElementId(f: Form, t: EventType): Option<int>
  {
    var ids := Get(f, ElementIdKey(t));
    if |ids| == 0 then None else ParseInt(ids[0])
  }

  /** A body without the element id key has no element id. */
  lemma ElementIdMissing(f: Form, t: EventType)
    requires forall j | 0 <= j < |f| :: f[j].0 != ElementIdKey(t)
    ensures ExtractCatalogElementId(f, t).None?
  {
    GetMissing(f, ElementIdKey(t));
  }

  /** A first `catalogs[T][0][id]` entry with no values, or whose first value fails
      `int()`, gives no element id: the `ValueError` is caught. */
  lemma ElementIdUnparseable(f: Form, t: EventType, i: int)
    requires 0 <= i < |f| && f[i].0 == ElementIdKey(t)
    requires forall j | 0 <= j < i :: f[j].0 != ElementIdKey(t)
    requires |f[i].1| == 0 || ParseInt(f[i].1[0]).None?
    ensures ExtractCatalogElementId(f, t).None?
  {
    GetFirst(f, ElementIdKey(t), i);
  }

  /** The first `catalogs[T][0][id]` entry holding `str(n)` (any further values
      ignored) gives the element id `n`. */
  lemma ElementIdRoundTrip(f: Form, t: EventType, i: int, n: int, more: seq<string>)
    requires 0 <= i < |f| && f[i] == (ElementIdKey(t), [Decimal(n)] + more)
    requires forall j | 0 <= j < i :: f[j].0 != ElementIdKey(t)
    ensures ExtractCatalogElementId(f, t) == Some(n)
  {
    GetFirst(f, ElementIdKey(t), i);
    ParseIntDecimal(n);
  }

  // ------------------------------------------------------------------
  // Invoice lines

  /** An invoice line as `_extract_items` builds it. */
  datatype InvoiceLine = InvoiceLine(description: string, unitPrice: int, quantity: int)

  /** `…[custom_fields]<slot>[values][<i>][value][<attr>]`. */
  function ItemKey(t: EventType, slot: string, i: nat, attr: string): string
  {
    CustomFields(t) + slot + "[values][" + NatDecimal(i) + "][value][" + attr + "]"
  }

  /** What probing index `i` of the item slot finds: the end of the lines, a line
      whose price or quantity does not parse, or a line. */
  datatype Probe = Stop | Skip | Line(line: InvoiceLine)

  /** `int(vs[0]) if vs else 0`, with `None` for a `ValueError`. */
  function IntOrZero(vs: seq<string>): Option<int>
  {
    if |vs| == 0 then Some(0) else ParseInt(vs[0])
  }

  /** One iteration of the probing loop: no description ends it; otherwise the
      line, unless its price or quantity fails `int()`. */
  function ReadItem(f: Form, t: EventType, slot: string, i: nat): Probe
  {
    var description := Get(f, ItemKey(t, slot, i, "description"));
    if |description| == 0 then Stop
    else
      var price := IntOrZero(Get(f, ItemKey(t, slot, i, "unit_price")));
      var quantity := IntOrZero(Get(f, ItemKey(t, slot, i, "quantity")));
      if price.None? || quantity.None? then Skip
      else Line(InvoiceLine(description[0], price.value, quantity.value))
  }

  /** A key `Get` finds values for is the key of some entry. */
  lemma {:induction false} GetPresent(f: Form, key: string)
    requires |Get(f, key)| > 0
    ensures key in KeySet(f)
  {
    if f[0].0 != key {
      GetPresent(f[1..], key);
      assert KeySet(f[1..]) <= KeySet(f);
    }
  }

  /** The keys of the body. */
  function KeySet(f: Form): (keys: set<string>)
    ensures |keys| <= |f|
    ensures forall j | 0 <= j < |f| :: f[j].0 in keys
  {
    if |f| == 0 then {} else {f[0].0} + KeySet(f[1..])
  }

  lemma PrefixCancel(p: string, u: string, v: string)
    requires p + u == p + v
    ensures u == v
  {
    assert u == (p + u)[|p|..];
    assert v == (p + v)[|p|..];
  }

  lemma Regroup(p: string, x: string, m: string, a: string, e: string)
    ensures p + x + m + a + e == p + (x + (m + a + e))
  {
  }

  /** The digit run at the start of `x + y`, when `y` does not start with a digit, is `x`. */
  lemma DigitsThenOther(x: string, y: string)
    requires AllDigits(x) && (|y| == 0 || !IsDigit(y[0]))
    ensures (x + y)[..LeadingDigits(x + y)] == x
  {
    assert forall m | 0 <= m < |x| :: (x + y)[m] == x[m];
    if |y| > 0 {
      assert (x + y)[|x|] == y[0];
    } else {
      assert x + y == x;
    }
  }

  /** `"][value][" + a + "]"` determines `a`. */
  lemma AttrCancel(m: string, a: string, b: string, e: string)
    requires m + a + e == m + b + e
    ensures a == b
  {
    assert a == (m + a + e)[|m|..|m| + |a|];
    assert |a| == |b|;
    assert b == (m + b + e)[|m|..|m| + |b|];
  }

  /** Equal keys of one slot have equal indices and attributes: the index is the
      digit run after `[values][`. */
  lemma ItemKeyInjective(t: EventType, slot: string, i: nat, a: string, j: nat, b: string)
    requires ItemKey(t, slot, i, a) == ItemKey(t, slot, j, b)
    ensures i == j && a == b
  {
    var p := CustomFields(t) + slot + "[values][";
    var x, y := NatDecimal(i), NatDecimal(j);
    NatDecimalDigits(i);
    NatDecimalDigits(j);
    Regroup(p, x, "][value][", a, "]");
    Regroup(p, y, "][value][", b, "]");
    PrefixCancel(p, x + ("][value][" + a + "]"), y + ("][value][" + b + "]"));
    DigitsThenOther(x, "][value][" + a + "]");
    DigitsThenOther(y, "][value][" + b + "]");
    DecimalInjective(i, j);
    PrefixCancel(x, "][value][" + a + "]", "][value][" + b + "]");
    AttrCancel("][value][", a, b, "]");
  }

  /** The description keys of indices `0 .. n-1`. */
  function DescriptionKeys(t: EventType, slot: string, n: nat): (keys: set<string>)
    ensures forall i | 0 <= i < n :: ItemKey(t, slot, i, "description") in keys
  {
    if n == 0 then {} else DescriptionKeys(t, slot, n - 1) + {ItemKey(t, slot, n - 1, "description")}
  }

  lemma {:induction false} DescriptionKeysOnly(t: EventType, slot: string, n: nat, key: string)
    requires key in DescriptionKeys(t, slot, n)
    ensures exists i | 0 <= i < n :: key == ItemKey(t, slot, i, "description")
  {
    if key != ItemKey(t, slot, n - 1, "description") {
      DescriptionKeysOnly(t, slot, n - 1, key);
    }
  }

  /** `n` indices give `n` distinct description keys. */
  lemma {:induction false} DescriptionKeysCount(t: EventType, slot: string, n: nat)
    ensures |DescriptionKeys(t, slot, n)| == n
  {
    if n > 0 {
      var last := ItemKey(t, slot, n - 1, "description");
      DescriptionKeysCount(t, slot, n - 1);
      if last in DescriptionKeys(t, slot, n - 1) {
        DescriptionKeysOnly(t, slot, n - 1, last);
        var i :| 0 <= i < n - 1 && last == ItemKey(t, slot, i, "description");
        ItemKeyInjective(t, slot, i, "description", n - 1, "description");
      }
    }
  }

  /** The description keys probed so far are keys of the body. */
  lemma {:induction false} DescriptionKeysPresent(f: Form, t: EventType, slot: string, n: nat)
    requires forall i | 0 <= i < n :: ReadItem(f, t, slot, i) != Stop
    ensures DescriptionKeys(t, slot, n) <= KeySet(f)
  {
    if n > 0 {
      DescriptionKeysPresent(f, t, slot, n - 1);
      assert ReadItem(f, t, slot, n - 1) != Stop;
      GetPresent(f, ItemKey(t, slot, n - 1, "description"));
    }
  }

  /** While every probe so far found a description, fewer indices than entries have
      been probed: the description keys are distinct keys of the body. This is why
      the `while True` loop ends. */
  lemma ProbeBound(f: Form, t: EventType, slot: string, n: nat)
    requires forall i | 0 <= i < n :: ReadItem(f, t, slot, i) != Stop
    ensures n <= |f|
  {
    DescriptionKeysPresent(f, t, slot, n);
    DescriptionKeysCount(t, slot, n);
    SubsetSize(DescriptionKeys(t, slot, n), KeySet(f));
  }

  lemma SubsetSize<T>(a: set<T>, b: set<T>)
    requires a <= b
    ensures |a| <= |b|
  {
    assert b == a + (b - a);
  }

  /** The first index at or after `i`, and before `|f|`, whose probe stops, or `|f|`. */
  function StopFrom(f: Form, t: EventType, slot: string, i: nat): (n: nat)
    requires i <= |f|
    ensures i <= n <= |f|
    ensures forall j | i <= j < n :: ReadItem(f, t, slot, j) != Stop
    ensures n < |f| ==> ReadItem(f, t, slot, n) == Stop
    decreases |f| - i
  {
    if i == |f| || ReadItem(f, t, slot, i) == Stop then i else StopFrom(f, t, slot, i + 1)
  }

  /** Probing stops by index `|f|` at the latest. */
  lemma StopByBound(f: Form, t: EventType, slot: string, n: nat)
    requires n <= |f|
    requires forall j | 0 <= j < n :: ReadItem(f, t, slot, j) != Stop
    requires n < |f| ==> ReadItem(f, t, slot, n) == Stop
    ensures ReadItem(f, t, slot, n) == Stop
  {
    if ReadItem(f, t, slot, n) != Stop {
      ProbeBound(f, t, slot, n + 1);
    }
  }

  /** The number of indices probed before the one without a description. */
  function ProbeCount(f: Form, t: EventType, slot: string): (n: nat)
    ensures n <= |f|
    ensures forall j | 0 <= j < n :: ReadItem(f, t, slot, j) != Stop
    ensures ReadItem(f, t, slot, n) == Stop
  {
    var n := StopFrom(f, t, slot, 0);
    StopByBound(f, t, slot, n);
    n
  }

  /** The probes of indices `0 .. n-1`. */
  function Probes(f: Form, t: EventType, slot: string, n: nat): (ps: seq<Probe>)
    ensures |ps| == n
    ensures forall m | 0 <= m < n :: ps[m] == ReadItem(f, t, slot, m)
  {
    seq(n, m requires 0 <= m < n => ReadItem(f, t, slot, m))
  }

  /** The lines among the probes, in order. */
  function Lines(ps: seq<Probe>): (lines: seq<InvoiceLine>)
    ensures |lines| <= |ps|
  {
    if |ps| == 0 then []
    else (if ps[0].Line? then [ps[0].line] else []) + Lines(ps[1..])
  }

  lemma {:induction false} LinesConcat(a: seq<Probe>, b: seq<Probe>)
    ensures Lines(a + b) == Lines(a) + Lines(b)
  {
    if |a| > 0 {
      assert (a + b)[0] == a[0];
      assert (a + b)[1..] == a[1..] + b;
      LinesConcat(a[1..], b);
    } else {
      assert a + b == b;
    }
  }

  /** The lines of the body: none without an `ITEMS` slot; else those of the probes
      of its first slot. */
  function Items(f: Form, t: EventType): seq<InvoiceLine>
  {
    var k := FirstCodeFrom(f, t, ItemsCode, 0);
    if k == |f| then []
    else
      var slot := SlotOf(f[k].0);
      Lines(Probes(f, t, slot, ProbeCount(f, t, slot)))
  }

  lemma ItemsOfSlot(f: Form, t: EventType, k: int)
    requires FirstCodeAt(f, t, ItemsCode, k)
    ensures Items(f, t) == Lines(Probes(f, t, SlotOf(f[k].0), ProbeCount(f, t, SlotOf(f[k].0))))
  {
    FirstCodeFound(f, t, ItemsCode);
  }

  lemma ItemsNoSlot(f: Form, t: EventType)
    requires forall j | 0 <= j < |f| :: !NamesCode(f[j], t, ItemsCode)
    ensures Items(f, t) == []
  {
  }

  /** One more probe: the lines so far gain this probe's line, if it has one. */
  lemma ProbeStep(f: Form, t: EventType, slot: string, i: nat)
    ensures ReadItem(f, t, slot, i).Line? ==>
              Lines(Probes(f, t, slot, i + 1)) == Lines(Probes(f, t, slot, i)) + [ReadItem(f, t, slot, i).line]
    ensures !ReadItem(f, t, slot, i).Line? ==>
              Lines(Probes(f, t, slot, i + 1)) == Lines(Probes(f, t, slot, i))
  {
    var p := ReadItem(f, t, slot, i);
    assert Probes(f, t, slot, i + 1) == Probes(f, t, slot, i) + [p];
    LinesConcat(Probes(f, t, slot, i), [p]);
    assert [p][1..] == [];
  }

  /** A probe that stops at or before the probe count is the count's own. */
  lemma ProbeCountAt(f: Form, t: EventType, slot: string, i: nat)
    requires i <= ProbeCount(f, t, slot)
    requires ReadItem(f, t, slot, i) == Stop
    ensures i == ProbeCount(f, t, slot)
  {
  }

  /** `_extract_items`: find the first `ITEMS` slot, then probe its lines. */
  method ExtractItems(f: Form, t: EventType) returns (items: seq<InvoiceLine>)
    ensures items == Items(f, t)
  {
    var slot: Option<string> := None;
    var k := 0;
    for i := 0 to |f|
      invariant slot.None?
      invariant forall j | 0 <= j < i :: !NamesCode(f[j], t, ItemsCode)
    {
      var (key, values) := f[i];
      if IsCodeKey(key, t) && |values| > 0 && values[0] == ItemsCode {
        slot := Some(SlotOf(key));
        k := i;
        break;
      }
    }
    if slot.None? {
      ItemsNoSlot(f, t);
      return [];
    }
    ItemsOfSlot(f, t, k);
    items := ExtractSlotItems(f, t, slot.value);
  }

  /** The probing loop of `_extract_items`: indices 0, 1, 2, … until one has no
      description, keeping the lines whose price and quantity parse. */
  method ExtractSlotItems(f: Form, t: EventType, slot: string) returns (items: seq<InvoiceLine>)
    ensures items == Lines(Probes(f, t, slot, ProbeCount(f, t, slot)))
  {
    items := [];
    ghost var n := ProbeCount(f, t, slot);
    var itemIndex := 0;
    while true
      invariant itemIndex <= n
      invariant items == Lines(Probes(f, t, slot, itemIndex))
      decreases n - itemIndex
    {
      var description := Get(f, ItemKey(t, slot, itemIndex, "description"));
      var unitPrice := Get(f, ItemKey(t, slot, itemIndex, "unit_price"));
      var quantity := Get(f, ItemKey(t, slot, itemIndex, "quantity"));
      if |description| == 0 {
        ProbeCountAt(f, t, slot, itemIndex);
        break;
      }
      var price := IntOrZero(unitPrice);
      var count := IntOrZero(quantity);
      ProbeStep(f, t, slot, itemIndex);
      if price.Some? && count.Some? {
        items := items + [InvoiceLine(description[0], price.value, count.value)];
      }
      itemIndex := itemIndex + 1;
    }
  }

  // ------------------------------------------------------------------
  // Round trips: bodies built from known values read back as those values

  /** The attributes of an invoice line, in the order the body lists them. */
  function LineAttr(k: int): string
  {
    if k == 0 then "description" else if k == 1 then "unit_price" else "quantity"
  }

  /** The form value of attribute `k` of a line. */
  function LineValue(line: InvoiceLine, k: int): string
  {
    if k == 0 then line.description
    else if k == 1 then Decimal(line.unitPrice)
    else Decimal(line.quantity)
  }

  /** The body of an `ITEMS` field in slot `slot` holding `lines`: its code entry,
      then the three attribute entries of each line. */
  function ItemsForm(t: EventType, slot: string, lines: seq<InvoiceLine>): (f: Form)
    ensures |f| == 1 + 3 * |lines|
  {
    [(CodeKey(t, slot), [ItemsCode])]
      + seq(3 * |lines|, e requires 0 <= e < 3 * |lines| =>
              (ItemKey(t, slot, e / 3, LineAttr(e % 3)), [LineValue(lines[e / 3], e % 3)]))
  }

  /** A code key is not the key of an item attribute. */
  lemma CodeKeyNotItemKey(t: EventType, slot: string, i: nat, a: string)
    ensures CodeKey(t, slot) != ItemKey(t, slot, i, a)
  {
    var p := CustomFields(t) + slot;
    assert CodeKey(t, slot)[|p| + 1] == 'c';
    assert ItemKey(t, slot, i, a)[|p| + 1] == 'v';
  }

  /** Entry `1 + e` of an items body is the only one with its key before index `|lines|`. */
  lemma ItemsFormKey(t: EventType, slot: string, lines: seq<InvoiceLine>, j: int, i: nat, k: int)
    requires 0 <= j < |ItemsForm(t, slot, lines)| && 0 <= k < 3
    requires ItemsForm(t, slot, lines)[j].0 == ItemKey(t, slot, i, LineAttr(k))
    ensures j == 1 + 3 * i + k
  {
    var f := ItemsForm(t, slot, lines);
    if j == 0 {
      CodeKeyNotItemKey(t, slot, i, LineAttr(k));
    } else {
      var e := j - 1;
      assert f[j].0 == ItemKey(t, slot, e / 3, LineAttr(e % 3));
      ItemKeyInjective(t, slot, e / 3, LineAttr(e % 3), i, LineAttr(k));
      assert e % 3 == k;
    }
  }

  /** Each attribute of each line reads back. */
  lemma ItemsFormGet(t: EventType, slot: string, lines: seq<InvoiceLine>, i: nat, k: int)
    requires i < |lines| && 0 <= k < 3
    ensures Get(ItemsForm(t, slot, lines), ItemKey(t, slot, i, LineAttr(k))) == [LineValue(lines[i], k)]
  {
    var f := ItemsForm(t, slot, lines);
    var key := ItemKey(t, slot, i, LineAttr(k));
    var e := 1 + 3 * i + k;
    assert (e - 1) / 3 == i && (e - 1) % 3 == k;
    forall j | 0 <= j < e
      ensures f[j].0 != key
    {
      if f[j].0 == key {
        ItemsFormKey(t, slot, lines, j, i, k);
      }
    }
    GetFirst(f, key, e);
  }

  /** Every line of an items body is probed back unchanged. */
  lemma ItemsFormLine(t: EventType, slot: string, lines: seq<InvoiceLine>, i: nat)
    requires i < |lines|
    ensures ReadItem(ItemsForm(t, slot, lines), t, slot, i) == Line(lines[i])
  {
    ItemsFormGet(t, slot, lines, i, 0);
    ItemsFormGet(t, slot, lines, i, 1);
    ItemsFormGet(t, slot, lines, i, 2);
    ParseIntDecimal(lines[i].unitPrice);
    ParseIntDecimal(lines[i].quantity);
  }

  /** The index after the last line has no description, so probing stops there. */
  lemma ItemsFormStop(t: EventType, slot: string, lines: seq<InvoiceLine>)
    ensures ReadItem(ItemsForm(t, slot, lines), t, slot, |lines|) == Stop
  {
    var f := ItemsForm(t, slot, lines);
    var key := ItemKey(t, slot, |lines|, LineAttr(0));
    forall j | 0 <= j < |f|
      ensures f[j].0 != key
    {
      if f[j].0 == key {
        ItemsFormKey(t, slot, lines, j, |lines|, 0);
      }
    }
    GetMissing(f, key);
  }

  /** The lines of probes that are all lines. */
  lemma {:induction false} LinesOfLines(ps: seq<Probe>, lines: seq<InvoiceLine>)
    requires |ps| == |lines|
    requires forall m | 0 <= m < |ps| :: ps[m] == Line(lines[m])
    ensures Lines(ps) == lines
  {
    if |ps| > 0 {
      LinesOfLines(ps[1..], lines[1..]);
    }
  }

  /** Reading the lines of an items body gives back exactly the lines it was built
      from, in order, whatever their descriptions, prices and quantities. */
  lemma ItemsRoundTrip(t: EventType, slot: string, lines: seq<InvoiceLine>)
    requires SlotShaped(slot)
    ensures Items(ItemsForm(t, slot, lines), t) == lines
  {
    var f := ItemsForm(t, slot, lines);
    SlotOfCodeKey(t, slot);
    assert FirstCodeAt(f, t, ItemsCode, 0);
    ItemsOfSlot(f, t, 0);
    var n := ProbeCount(f, t, slot);
    if n < |lines| {
      ItemsFormLine(t, slot, lines, n);
    }
    ItemsFormStop(t, slot, lines);
    ProbeCountAt(f, t, slot, |lines|);
    forall m | 0 <= m < |lines|
      ensures Probes(f, t, slot, |lines|)[m] == Line(lines[m])
    {
      ItemsFormLine(t, slot, lines, m);
    }
    LinesOfLines(Probes(f, t, slot, |lines|), lines);
  }

  /** After the path at the start, the greedy `\d+` takes exactly the digit run `ds`. */
  lemma LinkDigitsAtStart(ds: string, rest: string)
    requires |ds| > 0 && AllDigits(ds)
    requires |rest| == 0 || !IsDigit(rest[0])
    ensures LinkMatchesAt(LeadPath + ds + rest, 0)
    ensures LinkDigits(LeadPath + ds + rest, 0) == ds
  {
    var s := LeadPath + ds + rest;
    assert s[..|LeadPath|] == LeadPath;
    assert s[|LeadPath|] == ds[0];
    assert s[|LeadPath|..] == ds + rest;
    DigitsThenOther(ds, rest);
  }

  /** A link that starts with `/leads/detail/<n>` yields `n`, whatever follows the
      digits, as long as it is not another digit. */
  lemma LinkRoundTrip(n: nat, rest: string)
    requires |rest| == 0 || !IsDigit(rest[0])
    ensures LinkLeadId(LeadPath + NatDecimal(n) + rest) == Some(n)
  {
    NatDecimalDigits(n);
    LinkDigitsAtStart(NatDecimal(n), rest);
    LinkLeadIdAt(LeadPath + NatDecimal(n) + rest, 0);
  }

  // ------------------------------------------------------------------
  // The webhook as a whole

  /** What `process_catalog_webhook` does with a body, short of the payment itself:
      ignore it with a reason, reject it with the message of its `ValueError`, or
      process the payment of the lead with these lines and this total. */
  datatype Outcome =
    | Ignored(reason: string)
    | Rejected(message: string)
    | Proceed(catalogElementId: Option<int>, leadId: int, items: seq<InvoiceLine>, amount: int)

  const NoLeadMessage := "Не удалось извлечь lead_id из webhook"
  const NoItemsMessage := "Не удалось извлечь позиции счета из webhook"

  /** `process_catalog_webhook` up to the call of `_process_payment`: the checks in
      their order, each with its own outcome. A payment is processed only for a paid
      invoice of a catalog event with a non-zero lead id and at least one line. */
  method ProcessCatalogWebhook(f: Form) returns (o: Outcome)
    ensures DetectEventType(f).None? <==> o == Ignored("not_catalog_event")
    ensures DetectEventType(f).Some? ==>
              var t := DetectEventType(f).value;
              var lead := ExtractLeadId(f, t);
              (o == Ignored("not_paid") <==> !IsPaid(f, t))
              && (o == Rejected(NoLeadMessage) <==> IsPaid(f, t) && (lead.None? || lead.value == 0))
              && (o == Rejected(NoItemsMessage) <==>
                    IsPaid(f, t) && lead.Some? && lead.value != 0 && Items(f, t) == [])
              && (o.Proceed? <==> IsPaid(f, t) && lead.Some? && lead.value != 0 && Items(f, t) != [])
              && (o.Proceed? ==>
                    o == Proceed(ExtractCatalogElementId(f, t), lead.value, Items(f, t), ExtractAmount(f, t)))
  {
    var eventType := DetectEventType(f);
    if eventType.None? {
      return Ignored("not_catalog_event");
    }
    var t := eventType.value;
    if !IsPaid(f, t) {
      return Ignored("not_paid");
    }
    var catalogElementId := ExtractCatalogElementId(f, t);
    var leadId := ExtractLeadId(f, t);
    var items := ExtractItems(f, t);
    var amount := ExtractAmount(f, t);
    if leadId.None? || leadId.value == 0 {
      return Rejected(NoLeadMessage);
    }
    if |items| == 0 {
      return Rejected(NoItemsMessage);
    }
    return Proceed(catalogElementId, leadId.value, items, amount);
  }
}
