/** Recognising the payment notes that payment systems leave on a CRM lead, and
    reading the order number and the amount out of them. The regular expressions
    are matched with `re.IGNORECASE`, which the model expresses by matching the
    lower-cased text against lower-case patterns. */
module NoteParser {
  import opened Wrappers
  import opened PyText

  // ------------------------------------------------------------------
  // Index-based helpers over one text

  predicate AllSpaceIn(s: string, a: int, b: int)
    requires 0 <= a <= b <= |s|
  {
    forall i | a <= i < b :: IsSpace(s[i])
  }

  predicate AllDigitsIn(s: string, a: int, b: int)
    requires 0 <= a <= b <= |s|
  {
    forall i | a <= i < b :: IsDigit(s[i])
  }

  /** The end of the whitespace run (`\s*`, greedy) that starts at `q`. */
  function SpacesFrom(s: string, q: int): (r: int)
    requires 0 <= q <= |s|
    ensures q <= r <= |s| && AllSpaceIn(s, q, r)
    ensures r < |s| ==> !IsSpace(s[r])
  {
    var n := LeadingSpaces(s[q..]);
    assert forall i | q <= i < q + n :: s[i] == s[q..][i - q];
    q + n
  }

  /** A whitespace run that stops at a non-space character is the greedy one. */
  lemma SpacesFromExact(s: string, q: int, i: int)
    requires 0 <= q <= i < |s| && AllSpaceIn(s, q, i) && !IsSpace(s[i])
    ensures SpacesFrom(s, q) == i
  {
  }

  /** A digit run that stops at a non-digit character is the greedy one. */
  lemma DigitsFromExact(s: string, q: int, i: int)
    requires 0 <= q <= i <= |s| && AllDigitsIn(s, q, i) && (i < |s| ==> !IsDigit(s[i]))
    ensures DigitsFrom(s, q) == i
  {
  }

  /** The end of the digit run (`\d*`, greedy) that starts at `q`. */
  function DigitsFrom(s: string, q: int): (r: int)
    requires 0 <= q <= |s|
    ensures q <= r <= |s| && AllDigitsIn(s, q, r)
    ensures r < |s| ==> !IsDigit(s[r])
  {
    var n := LeadingDigits(s[q..]);
    assert forall i | q <= i < q + n :: s[i] == s[q..][..n][i - q];
    q + n
  }

  /** `s[a..b]` is a decimal number `\d+(?:\.\d+)?`. */
  predicate NumeralIn(s: string, a: int, b: int)
    requires 0 <= a <= b <= |s|
  {
    a < b
    && (AllDigitsIn(s, a, b)
        || exists d | a < d < b - 1 :: s[d] == '.' && AllDigitsIn(s, a, d) && AllDigitsIn(s, d + 1, b))
  }

  // ------------------------------------------------------------------
  // The two families of regular expressions

  /** The bounds of capture group 1 in the text. */
  datatype Span = Span(start: nat, end: nat)

  /** A successful `re.search`: where the match starts and where its group is. */
  datatype Found = Found(pos: nat, group: Span)

  datatype Pattern =
      /** `word\s*sign?\s*(\d+)` */
    | Keyword(word: string, sign: char)
      /** `\[(\d+(?:\.\d+)?)\s*(?:u1|u2|...)\]` when bracketed, else
          `(\d+(?:\.\d+)?)\s*(?:u1|u2|...)` */
    | Amount(bracketed: bool, units: seq<string>)

  /** One of the alternatives `units` occurs at `i`, followed by `]` when `close`. */
  predicate UnitAt(s: string, i: int, units: seq<string>, close: bool)
  {
    exists k | 0 <= k < |units| ::
      OccursAt(s, units[k], i) && (close ==> OccursAt(s, "]", i + |units[k]|))
  }

  /** Between the keyword's end `q` and the digits at `c`: whitespace, at most one
      `sign`, whitespace. */
  predicate KeywordGap(s: string, q: int, c: int, sign: char)
    requires 0 <= q <= c <= |s|
  {
    exists i, j | q <= i <= j <= c ::
      AllSpaceIn(s, q, i) && (j == i || (j == i + 1 && s[i] == sign)) && AllSpaceIn(s, j, c)
  }

  /** Every alternative is non-empty and starts with a character that cannot
      continue a number or a whitespace run. */
  predicate UnitsWellFormed(units: seq<string>)
  {
    forall k | 0 <= k < |units| ::
      |units[k]| > 0 && !IsSpace(units[k][0]) && !IsDigit(units[k][0]) && units[k][0] != '.'
  }

  /** The end of the number `\d+(?:\.\d+)?` that starts at `k`, matched greedily,
      or `k` when no digit starts there. */
  function NumberEnd(s: string, k: int): (m: int)
    requires 0 <= k <= |s|
    ensures k <= m <= |s|
    ensures m > k <==> k < |s| && IsDigit(s[k])
    ensures m > k ==> NumeralIn(s, k, m)
  {
    var d := DigitsFrom(s, k);
    if d == k then k
    else if d + 1 < |s| && s[d] == '.' && IsDigit(s[d + 1]) then
      var m := DigitsFrom(s, d + 1);
      assert s[d] == '.' && AllDigitsIn(s, k, d) && AllDigitsIn(s, d + 1, m);
      m
    else d
  }

  /** The greedy number ends exactly where any number followed by neither a digit
      nor `.` ends. */
  lemma NumberEndComplete(s: string, k: int, m: int)
    requires 0 <= k <= m < |s| && NumeralIn(s, k, m)
    requires !IsDigit(s[m]) && s[m] != '.'
    ensures NumberEnd(s, k) == m
  {
    var d := DigitsFrom(s, k);
    if !AllDigitsIn(s, k, m) {
      var dot :| k < dot < m - 1 && s[dot] == '.' && AllDigitsIn(s, k, dot) && AllDigitsIn(s, dot + 1, m);
      assert d == dot;
      assert DigitsFrom(s, dot + 1) == m;
    }
  }

  /** `word\s*sign?\s*(\d+)` at `p`, each quantifier greedy. */
  function KeywordMatchAt(s: string, word: string, sign: char, p: nat): (r: Option<Span>)
    requires p < |s|
    ensures r.Some? ==> p + |word| <= r.value.start < r.value.end <= |s|
    ensures r.Some? ==> AllDigitsIn(s, r.value.start, r.value.end)
  {
    if !OccursAt(s, word, p) then None
    else
      var a := SpacesFrom(s, p + |word|);
      var b := if a < |s| && s[a] == sign then a + 1 else a;
      var c := SpacesFrom(s, b);
      var e := DigitsFrom(s, c);
      if e == c then None else Some(Span(c, e))
  }

  /** `\[?(\d+(?:\.\d+)?)\s*(?:units)\]?` at `p`, each quantifier greedy. */
  function AmountMatchAt(s: string, bracketed: bool, units: seq<string>, p: nat): (r: Option<Span>)
    requires p < |s|
    ensures r.Some? ==> p <= r.value.start < r.value.end <= |s|
    ensures r.Some? ==> NumeralIn(s, r.value.start, r.value.end)
  {
    if bracketed && s[p] != '[' then None
    else
      var k := if bracketed then p + 1 else p;
      var m := NumberEnd(s, k);
      if m == k then None
      else if UnitAt(s, SpacesFrom(s, m), units, bracketed) then Some(Span(k, m))
      else None
  }

  /** Whether the pattern matches at `p`, and where its group is. Each quantifier
      is greedy; the soundness and completeness lemmas below show that this is
      exactly where the regular expression matches. */
  function MatchAt(s: string, pat: Pattern, p: nat): (r: Option<Span>)
    requires p < |s|
    ensures r.Some? ==> p <= r.value.start < r.value.end <= |s|
  {
    match pat
    case Keyword(word, sign) => KeywordMatchAt(s, word, sign, p)
    case Amount(bracketed, units) => AmountMatchAt(s, bracketed, units, p)
  }

  /** A group is a digit run for a keyword pattern and a number for an amount
      pattern. */
  lemma MatchAtGroup(s: string, pat: Pattern, p: nat)
    requires p < |s| && MatchAt(s, pat, p).Some?
    ensures var Span(a, b) := MatchAt(s, pat, p).value;
      && (pat.Keyword? ==> AllDigitsIn(s, a, b))
      && (pat.Amount? ==> NumeralIn(s, a, b))
  {
  }

  /** Soundness for a keyword pattern: the match has the shape the regular
      expression describes, and the group is the whole digit run. */
  lemma KeywordMatchSound(s: string, word: string, sign: char, p: nat)
    requires p < |s| && KeywordMatchAt(s, word, sign, p).Some?
    ensures var Span(c, e) := KeywordMatchAt(s, word, sign, p).value;
      && OccursAt(s, word, p)
      && KeywordGap(s, p + |word|, c, sign)
      && (e < |s| ==> !IsDigit(s[e]))
  {
    var q := p + |word|;
    var a := SpacesFrom(s, q);
    var b := if a < |s| && s[a] == sign then a + 1 else a;
    var c := SpacesFrom(s, b);
    assert q <= a <= b <= c && AllSpaceIn(s, q, a)
      && (b == a || (b == a + 1 && s[a] == sign)) && AllSpaceIn(s, b, c);
  }

  /** Soundness for an amount pattern: the match has the shape the regular
      expression describes. */
  lemma AmountMatchSound(s: string, bracketed: bool, units: seq<string>, p: nat)
    requires p < |s| && AmountMatchAt(s, bracketed, units, p).Some?
    ensures var Span(k, m) := AmountMatchAt(s, bracketed, units, p).value;
      && k == (if bracketed then p + 1 else p)
      && (bracketed ==> s[p] == '[')
      && exists i | m <= i <= |s| :: AllSpaceIn(s, m, i) && UnitAt(s, i, units, bracketed)
  {
    var m := AmountMatchAt(s, bracketed, units, p).value.end;
    var i := SpacesFrom(s, m);
    assert AllSpaceIn(s, m, i) && UnitAt(s, i, units, bracketed);
  }

  /** A gap `\s*sign?\s*` that ends before a digit is the one the greedy quantifiers
      find, when the sign is neither whitespace nor a digit. */
  lemma GapGreedy(s: string, q: int, c: int, sign: char)
    requires 0 <= q <= c < |s| && KeywordGap(s, q, c, sign) && IsDigit(s[c])
    requires !IsSpace(sign) && !IsDigit(sign)
    ensures var a := SpacesFrom(s, q);
      SpacesFrom(s, if a < |s| && s[a] == sign then a + 1 else a) == c
  {
    var i, j :| q <= i <= j <= c && AllSpaceIn(s, q, i)
      && (j == i || (j == i + 1 && s[i] == sign)) && AllSpaceIn(s, j, c);
    if j == i + 1 {
      SpacesFromExact(s, q, i);
    } else {
      assert AllSpaceIn(s, q, c);
      SpacesFromExact(s, q, c);
    }
    SpacesFromExact(s, j, c);
  }

  /** Once the gap after the keyword is known to end at `c`, the match is the digit
      run at `c`, if there is one. */
  lemma KeywordMatchAtGap(s: string, word: string, sign: char, p: nat, c: int)
    requires p < |s| && OccursAt(s, word, p)
    requires var a := SpacesFrom(s, p + |word|);
      SpacesFrom(s, if a < |s| && s[a] == sign then a + 1 else a) == c
    requires c < |s| && IsDigit(s[c])
    ensures KeywordMatchAt(s, word, sign, p) == Some(Span(c, DigitsFrom(s, c)))
  {
    assert DigitsFrom(s, c) != c;
  }

  /** Completeness for a keyword pattern: wherever the regular expression can match,
      the greedy matcher matches too, and its group is the maximal digit run. */
  lemma KeywordMatchComplete(s: string, word: string, sign: char, p: nat, c: nat)
    requires p < |s| && OccursAt(s, word, p) && p + |word| <= c < |s|
    requires !IsSpace(sign) && !IsDigit(sign)
    requires KeywordGap(s, p + |word|, c, sign) && IsDigit(s[c])
    ensures KeywordMatchAt(s, word, sign, p) == Some(Span(c, DigitsFrom(s, c)))
  {
    GapGreedy(s, p + |word|, c, sign);
    KeywordMatchAtGap(s, word, sign, p, c);
  }

  /** Completeness for an amount pattern: wherever the regular expression can match,
      the greedy matcher matches too, with the same group. */
  lemma AmountMatchComplete(s: string, bracketed: bool, units: seq<string>, p: nat, m: nat, i: nat)
    requires UnitsWellFormed(units)
    requires p < |s| && (bracketed ==> s[p] == '[')
    requires (if bracketed then p + 1 else p) <= m <= i <= |s|
    requires NumeralIn(s, if bracketed then p + 1 else p, m)
    requires AllSpaceIn(s, m, i) && UnitAt(s, i, units, bracketed)
    ensures AmountMatchAt(s, bracketed, units, p) == Some(Span(if bracketed then p + 1 else p, m))
  {
    var k := if bracketed then p + 1 else p;
    var u :| 0 <= u < |units| && OccursAt(s, units[u], i)
      && (bracketed ==> OccursAt(s, "]", i + |units[u]|));
    assert i < |s| && s[i] == units[u][0] by {
      assert s[i..i + |units[u]|][0] == units[u][0];
    }
    assert m < |s| && !IsDigit(s[m]) && s[m] != '.' by {
      if m < i { assert IsSpace(s[m]); }
    }
    NumberEndComplete(s, k, m);
    SpacesFromExact(s, m, i);
  }

  /** The outcome of trying the pattern at each position of the text. */
  function Attempts(s: string, pat: Pattern): (ms: seq<Option<Span>>)
    ensures |ms| == |s|
    ensures forall q | 0 <= q < |s| :: ms[q] == MatchAt(s, pat, q)
  {
    seq(|s|, q requires 0 <= q < |s| => MatchAt(s, pat, q))
  }

  /** `re.search`: the match at the leftmost position where the pattern matches. */
  function Search(s: string, pat: Pattern): (r: Option<Found>)
    ensures r.Some? ==>
      && r.value.pos < |s| && MatchAt(s, pat, r.value.pos) == Some(r.value.group)
      && forall q | 0 <= q < r.value.pos :: MatchAt(s, pat, q).None?
    ensures r.None? <==> forall q | 0 <= q < |s| :: MatchAt(s, pat, q).None?
  {
    var ms := Attempts(s, pat);
    var i := FirstSomeFrom(ms, 0);
    if i < |ms| then Some(Found(i, ms[i].value)) else None
  }

  /** The loop over a list of patterns with early return: the index of the first
      pattern that matches anywhere, or `|pats|`. */
  function FirstMatchingPattern(s: string, pats: seq<Pattern>): (k: nat)
    ensures k <= |pats|
    ensures forall j | 0 <= j < k :: Search(s, pats[j]).None?
    ensures k < |pats| ==> Search(s, pats[k]).Some?
  {
    if |pats| == 0 then 0
    else if Search(s, pats[0]).Some? then 0
    else
      assert forall j | 1 <= j < |pats| :: pats[j] == pats[1..][j - 1];
      1 + FirstMatchingPattern(s, pats[1..])
  }

  /** The leftmost match of the first pattern that matches anywhere. */
  function FirstPatternMatch(s: string, pats: seq<Pattern>): (r: Option<Found>)
    ensures r.None? <==> forall k | 0 <= k < |pats| :: Search(s, pats[k]).None?
    ensures r.Some? ==> r == Search(s, pats[FirstMatchingPattern(s, pats)])
  {
    var k := FirstMatchingPattern(s, pats);
    if k < |pats| then Search(s, pats[k]) else None
  }

  // ------------------------------------------------------------------
  // Lower-casing leaves numbers alone

  /** A character that lower-cases to a digit, `.` or `✓` is that character. */
  lemma LowerCharFixed(c: char)
    ensures (IsDigit(LowerChar(c)) || LowerChar(c) == '.' || LowerChar(c) == '✓') ==> LowerChar(c) == c
    ensures LowerChar(LowerChar(c)) == LowerChar(c)
  {
  }

  /** Where the lower-cased text holds a number, the text holds the same number. */
  lemma SameNumber(t: string, a: int, b: int)
    requires 0 <= a <= b <= |t|
    requires forall i | a <= i < b :: IsDigit(Lower(t)[i]) || Lower(t)[i] == '.'
    ensures t[a..b] == Lower(t)[a..b]
  {
    forall i | a <= i < b ensures t[i] == Lower(t)[i] {
      LowerCharFixed(t[i]);
    }
  }

  /** `lower()` is idempotent. */
  lemma LowerIdempotent(t: string)
    ensures Lower(Lower(t)) == Lower(t)
  {
    forall i | 0 <= i < |t| ensures Lower(Lower(t))[i] == Lower(t)[i] {
      LowerCharFixed(t[i]);
    }
  }

  /** The group of a match, cut out of the original text. */
  function Group(t: string, f: Found): string
    requires f.group.start <= f.group.end <= |t|
  {
    t[f.group.start..f.group.end]
  }

  // ------------------------------------------------------------------
  // The three operations

  const PaymentMarkers: seq<string> :=
    ["платёж получен", "платеж получен", "payment received", "оплачено", "paid"]

  const OrderPatterns: seq<Pattern> := [Keyword("заказ", '№'), Keyword("order", '#')]

  const AmountPatterns: seq<Pattern> :=
    [Amount(true, ["rub", "руб", "₽"]), Amount(false, ["rub", "руб", "рублей", "₽"])]

  /** The loop over the markers with early return. */
  function AnyMarker(s: string, markers: seq<string>): (b: bool)
    ensures b <==> exists k | 0 <= k < |markers| :: Contains(s, markers[k])
  {
    if |markers| == 0 then false
    else if Contains(s, markers[0]) then true
    else
      assert forall k | 1 <= k < |markers| :: markers[k] == markers[1..][k - 1];
      AnyMarker(s, markers[1..])
  }

  /** `is_payment_note`: no text is no payment; otherwise a payment marker anywhere
      in the lower-cased text, or a check mark together with an order keyword. */
  function IsPaymentNote(note: Option<string>): (b: bool)
    ensures (note.None? || note == Some("")) ==> !b
    ensures note.Some? && note.value != "" ==>
      var lower := Lower(note.value);
      (b <==> (exists k | 0 <= k < |PaymentMarkers| :: Contains(lower, PaymentMarkers[k]))
              || (Contains(note.value, "✓") && (Contains(lower, "заказ") || Contains(lower, "order"))))
  {
    match note
    case None => false
    case Some(text) =>
      if text == "" then false
      else
        var lower := Lower(text);
        if AnyMarker(lower, PaymentMarkers) then true
        else Contains(text, "✓") && (Contains(lower, "заказ") || Contains(lower, "order"))
  }

  /** The group of the leftmost match of the first pattern that matches the
      lower-cased text anywhere, cut out of the text itself. */
  function FirstGroup(text: string, pats: seq<Pattern>): (r: Option<string>)
    ensures r.None? <==> forall k | 0 <= k < |pats| :: Search(Lower(text), pats[k]).None?
    ensures r.Some? && (forall k | 0 <= k < |pats| :: pats[k].Keyword?) ==>
      |r.value| > 0 && AllDigits(r.value)
    ensures r.Some? && (forall k | 0 <= k < |pats| :: pats[k].Amount?) ==>
      NumeralIn(r.value, 0, |r.value|)
  {
    var lower := Lower(text);
    match FirstPatternMatch(lower, pats)
    case None => None
    case Some(f) =>
      var k := FirstMatchingPattern(lower, pats);
      var Span(a, b) := f.group;
      MatchAtGroup(lower, pats[k], f.pos);
      GroupIsNumber(text, pats[k], a, b);
      Some(text[a..b])
  }

  /** What a group of the lower-cased text is, the same slice of the text is. */
  lemma GroupIsNumber(text: string, pat: Pattern, a: int, b: int)
    requires 0 <= a < b <= |text|
    requires pat.Keyword? ==> AllDigitsIn(Lower(text), a, b)
    requires pat.Amount? ==> NumeralIn(Lower(text), a, b)
    ensures pat.Keyword? ==> AllDigits(text[a..b])
    ensures pat.Amount? ==> NumeralIn(text[a..b], 0, b - a)
  {
    var lower := Lower(text);
    if pat.Amount? && !AllDigitsIn(lower, a, b) {
      var d :| a < d < b - 1 && lower[d] == '.' && AllDigitsIn(lower, a, d) && AllDigitsIn(lower, d + 1, b);
    }
    SameNumber(text, a, b);
    if pat.Amount? {
      NumeralShift(lower, a, b);
    } else {
      assert forall i | 0 <= i < b - a :: text[a..b][i] == lower[a + i];
    }
  }

  /** `extract_order_number`: the digits after the leftmost `заказ`, or failing
      that after the leftmost `order`. */
  function ExtractOrderNumber(note: Option<string>): (r: Option<string>)
    ensures (note.None? || note == Some("")) ==> r.None?
    ensures r.Some? ==> |r.value| > 0 && AllDigits(r.value)
    ensures note.Some? && note.value != "" ==>
      (r.None? <==> forall k | 0 <= k < |OrderPatterns| :: Search(Lower(note.value), OrderPatterns[k]).None?)
  {
    match note
    case None => None
    case Some(text) => if text == "" then None else FirstGroup(text, OrderPatterns)
  }

  /** `extract_payment_amount` up to the float conversion: the numeric text of the
      leftmost bracketed amount, or failing that of the leftmost bare amount. */
  function ExtractPaymentAmount(note: Option<string>): (r: Option<string>)
    ensures (note.None? || note == Some("")) ==> r.None?
    ensures r.Some? ==> NumeralIn(r.value, 0, |r.value|)
    ensures note.Some? && note.value != "" ==>
      (r.None? <==> forall k | 0 <= k < |AmountPatterns| :: Search(Lower(note.value), AmountPatterns[k]).None?)
  {
    match note
    case None => None
    case Some(text) =>
      if text == "" then None
      else
        assert forall k | 0 <= k < |AmountPatterns| :: AmountPatterns[k].Amount?;
        FirstGroup(text, AmountPatterns)
  }

  /** A number found inside a text is a number on its own. */
  lemma NumeralShift(s: string, a: int, b: int)
    requires 0 <= a <= b <= |s| && NumeralIn(s, a, b)
    ensures NumeralIn(s[a..b], 0, b - a)
  {
    var t := s[a..b];
    if !AllDigitsIn(s, a, b) {
      var d :| a < d < b - 1 && s[d] == '.' && AllDigitsIn(s, a, d) && AllDigitsIn(s, d + 1, b);
      assert t[d - a] == '.' && AllDigitsIn(t, 0, d - a) && AllDigitsIn(t, d - a + 1, b - a);
    }
  }

  // ------------------------------------------------------------------
  // Properties

  /** A keyword whose first letter is nowhere in the text matches nowhere. */
  lemma KeywordAbsent(s: string, word: string, sign: char)
    requires |word| > 0 && word[0] !in s
    ensures Search(s, Keyword(word, sign)).None?
  {
    forall q | 0 <= q < |s| ensures !OccursAt(s, word, q) {
      if q + |word| <= |s| {
        assert s[q..q + |word|][0] == s[q];
        assert s[q] in s;
      }
    }
  }

  /** Any text containing `paid`, in any letter case, counts as a payment note,
      including one that says the order is unpaid. */
  lemma PaidAnywhereCounts(t: string)
    requires Contains(Lower(t), "paid")
    ensures IsPaymentNote(Some(t))
  {
    assert PaymentMarkers[4] == "paid";
  }

  /** "Не оплачено" ("not paid") counts as a payment note, because it contains the
      marker "оплачено". */
  lemma NotPaidCounts()
    ensures IsPaymentNote(Some("Не оплачено"))
  {
    var lower := Lower("Не оплачено");
    assert lower == "не оплачено";
    assert OccursAt(lower, PaymentMarkers[3], 3);
  }

  /** The check-mark rule on its own: "✓ Заказ оплачен" has none of the markers
      ("оплачен" is not "оплачено") but has a check mark and `заказ`. */
  lemma CheckMarkRule()
    ensures IsPaymentNote(Some("✓ Заказ оплачен"))
  {
    var lower := Lower("✓ Заказ оплачен");
    assert lower == "✓ заказ оплачен";
    assert OccursAt(lower, "заказ", 2);
    assert OccursAt("✓ Заказ оплачен", "✓", 0);
  }

  /** Upper and lower case make no difference to any of the three operations. */
  lemma CaseInsensitive(t: string)
    ensures IsPaymentNote(Some(Lower(t))) == IsPaymentNote(Some(t))
    ensures ExtractOrderNumber(Some(Lower(t))) == ExtractOrderNumber(Some(t))
    ensures ExtractPaymentAmount(Some(Lower(t))) == ExtractPaymentAmount(Some(t))
  {
    PaymentNoteLower(t);
    OrderNumberLower(t);
    AmountLower(t);
  }

  /** A check mark is unaffected by lower-casing. */
  lemma CheckMarkLower(t: string)
    ensures Contains(Lower(t), "✓") == Contains(t, "✓")
  {
    var lower := Lower(t);
    forall i | 0 <= i <= |t| - 1 ensures OccursAt(lower, "✓", i) == OccursAt(t, "✓", i) {
      if 0 <= i < |t| {
        LowerCharFixed(t[i]);
        assert lower[i..i + 1] == [lower[i]] && t[i..i + 1] == [t[i]];
      }
    }
  }

  lemma PaymentNoteLower(t: string)
    ensures IsPaymentNote(Some(Lower(t))) == IsPaymentNote(Some(t))
  {
    LowerIdempotent(t);
    CheckMarkLower(t);
  }

  lemma OrderNumberLower(t: string)
    ensures ExtractOrderNumber(Some(Lower(t))) == ExtractOrderNumber(Some(t))
  {
    if t != "" {
      SameGroups(t, OrderPatterns);
    }
  }

  lemma AmountLower(t: string)
    ensures ExtractPaymentAmount(Some(Lower(t))) == ExtractPaymentAmount(Some(t))
  {
    if t != "" {
      SameGroups(t, AmountPatterns);
    }
  }

  /** The group `FirstGroup` returns is the slice of the text at the first match of
      the lower-cased text. */
  lemma GroupSlice(text: string, pats: seq<Pattern>)
    requires FirstPatternMatch(Lower(text), pats).Some?
    ensures var g := FirstPatternMatch(Lower(text), pats).value.group;
      && g.start <= g.end <= |text|
      && FirstGroup(text, pats) == Some(text[g.start..g.end])
  {
  }

  /** Every character of a digit run or a number is a digit or `.`. */
  lemma NumberChars(r: string)
    requires AllDigits(r) || NumeralIn(r, 0, |r|)
    ensures forall i | 0 <= i < |r| :: IsDigit(r[i]) || r[i] == '.'
  {
    if !AllDigits(r) && !AllDigitsIn(r, 0, |r|) {
      var d :| 0 < d < |r| - 1 && r[d] == '.' && AllDigitsIn(r, 0, d) && AllDigitsIn(r, d + 1, |r|);
    }
  }

  /** A group found with patterns of one kind is made of digits and `.`. */
  lemma GroupChars(text: string, pats: seq<Pattern>)
    requires (forall k | 0 <= k < |pats| :: pats[k].Keyword?)
             || (forall k | 0 <= k < |pats| :: pats[k].Amount?)
    requires FirstGroup(text, pats).Some?
    ensures var r := FirstGroup(text, pats).value;
      forall i | 0 <= i < |r| :: IsDigit(r[i]) || r[i] == '.'
  {
    NumberChars(FirstGroup(text, pats).value);
  }

  /** What holds of every character of a slice holds of the text between its ends. */
  lemma SliceChars(s: string, a: int, b: int)
    requires 0 <= a <= b <= |s|
    requires forall j | 0 <= j < b - a :: IsDigit(s[a..b][j]) || s[a..b][j] == '.'
    ensures forall i | a <= i < b :: IsDigit(s[i]) || s[i] == '.'
  {
    forall i | a <= i < b ensures IsDigit(s[i]) || s[i] == '.' {
      assert s[a..b][i - a] == s[i];
    }
  }

  /** Matching the lower-cased text cuts the same group out of it as out of the text. */
  lemma SameGroups(t: string, pats: seq<Pattern>)
    requires (forall k | 0 <= k < |pats| :: pats[k].Keyword?)
             || (forall k | 0 <= k < |pats| :: pats[k].Amount?)
    ensures FirstGroup(Lower(t), pats) == FirstGroup(t, pats)
  {
    LowerIdempotent(t);
    var lower := Lower(t);
    if FirstPatternMatch(lower, pats).Some? {
      var g := FirstPatternMatch(lower, pats).value.group;
      GroupSlice(t, pats);
      assert FirstPatternMatch(Lower(lower), pats) == FirstPatternMatch(lower, pats);
      GroupSlice(lower, pats);
      GroupChars(lower, pats);
      SliceChars(lower, g.start, g.end);
      SameNumber(t, g.start, g.end);
    }
  }

  /** `заказ` wins over `order` wherever the two occur: the `order` pattern is used
      only when the `заказ` pattern matches nowhere. */
  lemma OrderKeywordPrecedence(t: string)
    requires t != ""
    ensures var lower := Lower(t);
      ExtractOrderNumber(Some(t)) ==
        match Search(lower, OrderPatterns[0])
        case Some(f) => Some(t[f.group.start..f.group.end])
        case None =>
          match Search(lower, OrderPatterns[1])
          case Some(f) => Some(t[f.group.start..f.group.end])
          case None => None
  {
  }

  /** The bracketed amount wins over a bare amount wherever the two occur. */
  lemma AmountBracketPrecedence(t: string)
    requires t != ""
    ensures var lower := Lower(t);
      ExtractPaymentAmount(Some(t)) ==
        match Search(lower, AmountPatterns[0])
        case Some(f) => Some(t[f.group.start..f.group.end])
        case None =>
          match Search(lower, AmountPatterns[1])
          case Some(f) => Some(t[f.group.start..f.group.end])
          case None => None
  {
  }

  /** `re.search` stops at the first position where the pattern matches. */
  lemma SearchFirstAt(s: string, pat: Pattern, p: nat)
    requires p < |s| && MatchAt(s, pat, p).Some?
    requires forall q | 0 <= q < p :: MatchAt(s, pat, q).None?
    ensures Search(s, pat) == Some(Found(p, MatchAt(s, pat, p).value))
  {
    FirstSomeAt(Attempts(s, pat), 0, p);
  }

  /** When the patterns before `k` match nowhere and pattern `k` matches, its
      leftmost group is the result. */
  lemma FirstGroupAt(t: string, pats: seq<Pattern>, k: nat, f: Found)
    requires k < |pats| && forall j | 0 <= j < k :: Search(Lower(t), pats[j]).None?
    requires Search(Lower(t), pats[k]) == Some(f)
    ensures f.group.start <= f.group.end <= |t|
    ensures FirstGroup(t, pats) == Some(t[f.group.start..f.group.end])
  {
    assert FirstMatchingPattern(Lower(t), pats) == k;
  }

  // ------------------------------------------------------------------
  // The notes of the unit tests, worked through

  /** "Order #12345 paid" has order number "12345": nothing matches `заказ`, and
      `order` matches at the start. */
  lemma EnglishOrderNumber(t: string)
    requires t == "Order #12345 paid"
    ensures ExtractOrderNumber(Some(t)) == Some("12345")
  {
    EnglishFound(t);
    FirstGroupAt(t, OrderPatterns, 1, Found(0, Span(7, 12)));
    EnglishSlice(t);
  }

  lemma EnglishFound(t: string)
    requires t == "Order #12345 paid"
    ensures Search(Lower(t), OrderPatterns[0]).None?
    ensures Search(Lower(t), OrderPatterns[1]) == Some(Found(0, Span(7, 12)))
  {
    EnglishLower(t);
    EnglishSearches(Lower(t));
  }

  lemma EnglishSlice(t: string)
    requires t == "Order #12345 paid"
    ensures t[7..12] == "12345"
  {
  }

  lemma EnglishLower(t: string)
    requires t == "Order #12345 paid"
    ensures Lower(t) == "order #12345 paid"
  {
  }

  lemma EnglishSearches(s: string)
    requires s == "order #12345 paid"
    ensures Search(s, OrderPatterns[0]).None?
    ensures Search(s, OrderPatterns[1]) == Some(Found(0, Span(7, 12)))
  {
    KeywordAbsent(s, "заказ", '№');
    EnglishMatch(s);
    SearchFirstAt(s, OrderPatterns[1], 0);
  }

  lemma EnglishMatch(s: string)
    requires s == "order #12345 paid"
    ensures MatchAt(s, OrderPatterns[1], 0) == Some(Span(7, 12))
  {
    assert OccursAt(s, "order", 0);
    SpacesFromExact(s, 5, 6);
    SpacesFromExact(s, 7, 7);
    DigitsFromExact(s, 7, 12);
  }

  /** The bank's note "Заказ №5432345 [8490.00 RUB]\n✓ Платёж получен" is a payment
      note with order number "5432345" and amount "8490.00". */
  lemma BankNote(t: string)
    requires t == "Заказ №5432345 " + "[8490.00 RUB]\n" + "✓ Платёж получен"
    ensures IsPaymentNote(Some(t))
    ensures ExtractOrderNumber(Some(t)) == Some("5432345")
    ensures ExtractPaymentAmount(Some(t)) == Some("8490.00")
  {
    BankLower(t);
    BankOrderSearch(Lower(t));
    FirstGroupAt(t, OrderPatterns, 0, Found(0, Span(7, 14)));
    BankAmountSearch(Lower(t));
    FirstGroupAt(t, AmountPatterns, 0, Found(15, Span(16, 23)));
    BankSlices(t);
  }

  lemma BankLower(t: string)
    requires t == "Заказ №5432345 " + "[8490.00 RUB]\n" + "✓ Платёж получен"
    ensures Lower(t) == "заказ №5432345 " + "[8490.00 rub]\n" + "✓ платёж получен"
    ensures IsPaymentNote(Some(t))
  {
    LowerConcat("Заказ №5432345 " + "[8490.00 RUB]\n", "✓ Платёж получен");
    LowerConcat("Заказ №5432345 ", "[8490.00 RUB]\n");
    assert Lower("Заказ №5432345 ") == "заказ №5432345 ";
    assert Lower("[8490.00 RUB]\n") == "[8490.00 rub]\n";
    assert Lower("✓ Платёж получен") == "✓ платёж получен";
    BankMarker(Lower(t));
  }

  lemma BankMarker(s: string)
    requires s == "заказ №5432345 " + "[8490.00 rub]\n" + "✓ платёж получен"
    ensures OccursAt(s, PaymentMarkers[0], 31)
  {
  }

  /** `lower()` works character by character, so it distributes over `+`. */
  lemma LowerConcat(a: string, b: string)
    ensures Lower(a + b) == Lower(a) + Lower(b)
  {
  }

  lemma BankSlices(t: string)
    requires t == "Заказ №5432345 " + "[8490.00 RUB]\n" + "✓ Платёж получен"
    ensures t[7..14] == "5432345" && t[16..23] == "8490.00"
  {
  }

  lemma BankOrderSearch(s: string)
    requires s == "заказ №5432345 " + "[8490.00 rub]\n" + "✓ платёж получен"
    ensures Search(s, OrderPatterns[0]) == Some(Found(0, Span(7, 14)))
  {
    assert OccursAt(s, "заказ", 0);
    SpacesFromExact(s, 5, 6);
    SpacesFromExact(s, 7, 7);
    DigitsFromExact(s, 7, 14);
    assert MatchAt(s, OrderPatterns[0], 0) == Some(Span(7, 14));
    SearchFirstAt(s, OrderPatterns[0], 0);
  }

  lemma BankAmountSearch(s: string)
    requires s == "заказ №5432345 " + "[8490.00 rub]\n" + "✓ платёж получен"
    ensures Search(s, AmountPatterns[0]) == Some(Found(15, Span(16, 23)))
  {
    BankAmountMatch(s);
    BankNoEarlierBracket(s);
    BracketAbsent(s, AmountPatterns[0].units, 15);
    SearchFirstAt(s, AmountPatterns[0], 15);
  }

  lemma BankNoEarlierBracket(s: string)
    requires s == "заказ №5432345 " + "[8490.00 rub]\n" + "✓ платёж получен"
    ensures |s| == 45 && forall q | 0 <= q < 15 :: s[q] != '['
  {
  }

  lemma BankAmountMatch(s: string)
    requires s == "заказ №5432345 " + "[8490.00 rub]\n" + "✓ платёж получен"
    ensures MatchAt(s, AmountPatterns[0], 15) == Some(Span(16, 23))
  {
    assert s[20] == '.' && AllDigitsIn(s, 16, 20) && AllDigitsIn(s, 21, 23);
    NumberEndComplete(s, 16, 23);
    SpacesFromExact(s, 23, 24);
    var units := AmountPatterns[0].units;
    assert OccursAt(s, units[0], 24) && OccursAt(s, "]", 24 + |units[0]|);
  }

  /** A bracketed amount cannot start where there is no `[`. */
  lemma BracketAbsent(s: string, units: seq<string>, p: nat)
    requires p <= |s| && forall q | 0 <= q < p :: s[q] != '['
    ensures forall q | 0 <= q < p :: MatchAt(s, Amount(true, units), q).None?
  {
  }
}
