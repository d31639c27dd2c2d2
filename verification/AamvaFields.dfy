/**
 * parseAamvaFields: cutting driver-licence barcode text into its element-ID fields (Annex D of the AAMVA
 * DL/ID Card Design Standard), with a printer that the parser undoes.
 */
module AamvaFields {
  import opened Text
  import opened Sorting

  const AAMVA_CODES := ["DCS", "DAC", "DAD", "DBB", "DBA", "DAQ", "DAG", "DAI", "DAJ", "DAK", "DCG", "DBC", "DCT",
                        "DAA", "DAB", "DAF", "DCF"]

  datatype Hit = Hit(code: string, start: nat)

  // ---- string operations of the source ----

  /** `raw.replace(/\r/g, '')` */
  function RemoveReturns(s: string): string {
    if s == "" then "" else (if s[0] == '\r' then "" else [s[0]]) + RemoveReturns(s[1..])
  }

  predicate At(text: string, code: string, i: nat) {
    i + |code| <= |text| && text[i..i + |code|] == code
  }

  /** `text.slice(a, b)` for offsets that are not negative. */
  function Slice(text: string, a: nat, b: nat): string {
    var end := if b < |text| then b else |text|;
    if a < end then text[a..end] else ""
  }

  /** `.replace(/^\n+/, '')` */
  function StripNewlines(s: string): string {
    if s != "" && s[0] == '\n' then StripNewlines(s[1..]) else s
  }

  /** `.split('\n')[0]` */
  function FirstLine(s: string): string {
    if s == "" || s[0] == '\n' then "" else [s[0]] + FirstLine(s[1..])
  }

  // ---- the two loops, as functions ----

  /** What one code's `indexOf` loop pushes: after each occurrence the search goes on behind it. */
  function Occurrences(text: string, code: string, from: nat): seq<Hit>
    decreases |text| - from
  {
    if from >= |text| then []
    else if At(text, code, from) then [Hit(code, from)] + Occurrences(text, code, from + 3)
    else Occurrences(text, code, from + 1)
  }

  function AllOccurrences(text: string, codes: seq<string>): seq<Hit> {
    if codes == [] then []
    else AllOccurrences(text, codes[..|codes| - 1]) + Occurrences(text, codes[|codes| - 1], 0)
  }

  function CompareStarts(a: Hit, b: Hit): int {
    a.start - b.start
  }

  function HitsOf(text: string): seq<Hit> {
    Sort(AllOccurrences(text, AAMVA_CODES), CompareStarts)
  }

  /** The value behind the i-th hit: up to the next hit, first line, trimmed. */
  function ValueAt(text: string, hits: seq<Hit>, i: nat): string
    requires i < |hits|
  {
    var end := if i + 1 < |hits| then hits[i + 1].start else |text|;
    Trim(FirstLine(StripNewlines(Slice(text, hits[i].start + 3, end))))
  }

  /** `if (value && !fields[code]) fields[code] = value` */
  function Keep(fields: map<string, string>, code: string, value: string): map<string, string> {
    if value != "" && code !in fields then fields[code := value] else fields
  }

  function FieldsUpTo(text: string, hits: seq<Hit>, n: nat): map<string, string>
    requires n <= |hits|
  {
    if n == 0 then map[] else Keep(FieldsUpTo(text, hits, n - 1), hits[n - 1].code, ValueAt(text, hits, n - 1))
  }

  function FieldsOf(text: string): map<string, string> {
    FieldsUpTo(text, HitsOf(text), |HitsOf(text)|)
  }

  /** What the parser makes of a reader's text. */
  function ParsedFields(raw: string): map<string, string> {
    FieldsOf(RemoveReturns(raw))
  }

  // ---- the loops as the program runs them ----

  method IndexOf(text: string, code: string, from: nat) returns (at: int)
    requires from <= |text|
    ensures at == -1 ==> forall i: nat :: from <= i ==> !At(text, code, i)
    ensures at != -1 ==> from <= at && At(text, code, at) && forall i: nat :: from <= i < at ==> !At(text, code, i)
  {
    for i := from to |text| + 1
      invariant forall k: nat :: from <= k < i ==> !At(text, code, k)
    {
      if i + |code| <= |text| && text[i..i + |code|] == code {
        return i;
      }
    }
    at := -1;
  }

  method ParseAamvaFields(raw: string) returns (fields: map<string, string>)
    ensures fields == ParsedFields(raw)
  {
    hide RemoveReturns, Sort, AllOccurrences, ValueAt;
    var text := RemoveReturns(raw);
    var hits := CollectHits(text);
    hits := Sort(hits, CompareStarts);
    fields := map[];
    for i := 0 to |hits|
      invariant fields == FieldsUpTo(text, hits, i)
    {
      hide HitsOf;
      var value := ValueAt(text, hits, i);
      if value != "" && hits[i].code !in fields {
        fields := fields[hits[i].code := value];
      }
    }
  }

  method CollectHits(text: string) returns (hits: seq<Hit>)
    ensures hits == AllOccurrences(text, AAMVA_CODES)
  {
    hits := [];
    for c := 0 to |AAMVA_CODES|
      invariant hits == AllOccurrences(text, AAMVA_CODES[..c])
    {
      var code := AAMVA_CODES[c];
      ghost var before := hits;
      NextCode(text, c);
      hide *;
      var from: nat := 0;
      while from < |text|
        invariant from <= |text|
        invariant hits + Occurrences(text, code, from) == before + Occurrences(text, code, 0)
      {
        var at := IndexOf(text, code, from);
        if at == -1 {
          NoMoreOccurrences(text, code, from);
          break;
        }
        NextOccurrence(text, code, from, at);
        ConcatAssociative(hits, [Hit(code, at)], Occurrences(text, code, at + 3));
        hits := hits + [Hit(code, at)];
        from := at + 3;
      }
      NoneFromEnd(text, code, from);
    }
    assert AAMVA_CODES[..|AAMVA_CODES|] == AAMVA_CODES;
  }

  lemma NextCode(text: string, c: nat)
    requires c < |AAMVA_CODES|
    ensures |AAMVA_CODES[c]| == 3
    ensures AllOccurrences(text, AAMVA_CODES[..c + 1])
      == AllOccurrences(text, AAMVA_CODES[..c]) + Occurrences(text, AAMVA_CODES[c], 0)
  {
    hide Occurrences;
    CodesHaveLength3(AAMVA_CODES[c]);
    assert AAMVA_CODES[..c + 1][..c] == AAMVA_CODES[..c];
  }

  lemma NoneFromEnd(text: string, code: string, from: nat)
    ensures from >= |text| ==> Occurrences(text, code, from) == []
  {
  }

  lemma CodesHaveLength3(code: string)
    requires code in AAMVA_CODES
    ensures |code| == 3
  {
  }

  lemma {:induction false} NoMoreOccurrences(text: string, code: string, from: nat)
    requires forall i: nat :: from <= i ==> !At(text, code, i)
    ensures Occurrences(text, code, from) == []
    decreases |text| - from
  {
    if from < |text| {
      NoMoreOccurrences(text, code, from + 1);
    }
  }

  lemma {:induction false} NextOccurrence(text: string, code: string, from: nat, at: nat)
    requires |code| == 3 && from <= at && At(text, code, at)
    requires forall i: nat :: from <= i < at ==> !At(text, code, i)
    ensures Occurrences(text, code, from) == [Hit(code, at)] + Occurrences(text, code, at + 3)
    decreases at - from
  {
    if from < at {
      NextOccurrence(text, code, from + 1, at);
    }
  }

  // ---- printing records, one per line ----

  datatype Record = Record(code: string, value: string)

  function Line(r: Record): string {
    r.code + r.value + "\n"
  }

  function Print(records: seq<Record>): string {
    if records == [] then "" else Print(records[..|records| - 1]) + Line(records[|records| - 1])
  }

  /** Where the k-th record starts. */
  function Offset(header: string, records: seq<Record>, k: nat): nat
    requires k <= |records|
  {
    |header + Print(records[..k])|
  }

  predicate OneLine(s: string) {
    forall i :: 0 <= i < |s| ==> s[i] != '\n'
  }

  /** Records as a card has them: known codes, and values of one line. */
  predicate ProperRecords(records: seq<Record>) {
    forall k :: 0 <= k < |records| ==> records[k].code in AAMVA_CODES && OneLine(records[k].value)
  }

  predicate IsStart(header: string, records: seq<Record>, i: nat) {
    exists k :: 0 <= k < |records| && i == Offset(header, records, k)
  }

  /** Every occurrence that the search finds, `header` coming before the records, is where a record starts. */
  ghost predicate FoundOnlyAtStarts(header: string, records: seq<Record>) {
    forall code: string, h: Hit :: code in AAMVA_CODES && h in Occurrences(header + Print(records), code, 0) ==>
      IsStart(header, records, h.start)
  }

  /** The records' hits, in their order. */
  function RecordHits(header: string, records: seq<Record>): (hits: seq<Hit>)
    ensures |hits| == |records|
    ensures forall k :: 0 <= k < |records| ==> hits[k] == Hit(records[k].code, Offset(header, records, k))
  {
    seq(|records|, k requires 0 <= k < |records| => Hit(records[k].code, Offset(header, records, k)))
  }

  /** For each code the first record whose value is not blank, trimmed. */
  function FirstValues(records: seq<Record>): map<string, string> {
    if records == [] then map[]
    else Keep(FirstValues(records[..|records| - 1]), records[|records| - 1].code, Trim(records[|records| - 1].value))
  }

  predicate IsFirstValue(records: seq<Record>, code: string, k: nat)
    requires k < |records|
  {
    && records[k].code == code && Trim(records[k].value) != ""
    && (forall j :: 0 <= j < k && records[j].code == code ==> Trim(records[j].value) == "")
  }

  /** In words: a code has a field exactly when some record of it is not blank; the first such gives the value. */
  lemma {:induction false} FirstValuesMeaning(records: seq<Record>, code: string)
    ensures code in FirstValues(records)
      <==> exists k :: 0 <= k < |records| && records[k].code == code && Trim(records[k].value) != ""
    ensures forall k :: 0 <= k < |records| && IsFirstValue(records, code, k) ==>
      code in FirstValues(records) && FirstValues(records)[code] == Trim(records[k].value)
  {
    hide Trim;
    if records != [] {
      var n := |records| - 1;
      var front := records[..n];
      FirstValuesMeaning(front, code);
      assert forall k :: 0 <= k < n ==> front[k] == records[k];
      assert FirstValues(records) == Keep(FirstValues(front), records[n].code, Trim(records[n].value));
      hide FirstValues;
      assert forall k :: 0 <= k < n ==> IsFirstValue(front, code, k) == IsFirstValue(records, code, k);
    }
  }

  lemma {:induction false} PrintSplit(records: seq<Record>, k: nat)
    requires k <= |records|
    ensures exists rest :: Print(records) == Print(records[..k]) + rest
    ensures |Print(records[..k])| <= |Print(records)|
  {
    if k < |records| {
      var n := |records| - 1;
      PrintSplit(records[..n], k);
      assert records[..n][..k] == records[..k];
      var rest :| Print(records[..n]) == Print(records[..k]) + rest;
      assert Print(records) == Print(records[..k]) + (rest + Line(records[n]));
    } else {
      assert records[..k] == records;
      assert Print(records) == Print(records[..k]) + "";
    }
  }

  lemma Middle(header: string, before: string, line: string, rest: string)
    ensures var text := header + (before + line + rest);
      && |header + (before + line)| == |header + before| + |line| <= |text|
      && text[|header + before|..|header + (before + line)|] == line
  {
    hide *;
    var text, n := header + (before + line + rest), |header + before|;
    forall i | 0 <= i < |line|
      ensures text[n + i] == line[i]
    {
      assert (before + line + rest)[|before| + i] == (before + line)[|before| + i] == line[i];
    }
  }

  /** The text at the k-th record: its line, and where the next record starts. */
  lemma LineAt(header: string, records: seq<Record>, k: nat)
    requires k < |records|
    ensures var text := header + Print(records);
      && Offset(header, records, k + 1) == Offset(header, records, k) + |Line(records[k])|
      && Offset(header, records, k + 1) <= |text|
      && text[Offset(header, records, k)..Offset(header, records, k + 1)] == Line(records[k])
  {
    NextPrint(records, k);
    PrintSplit(records, k + 1);
    hide Print, Line;
    var rest :| Print(records) == Print(records[..k + 1]) + rest;
    Middle(header, Print(records[..k]), Line(records[k]), rest);
  }

  lemma NextPrint(records: seq<Record>, k: nat)
    requires k < |records|
    ensures Print(records[..k + 1]) == Print(records[..k]) + Line(records[k])
  {
    assert records[..k + 1][..k] == records[..k];
  }

  // ---- the hits of printed records ----

  predicate NoRepeat(hits: seq<Hit>) {
    forall i, j :: 0 <= i < j < |hits| ==> hits[i] != hits[j]
  }

  predicate StartsIncrease(hits: seq<Hit>) {
    forall i, j :: 0 <= i < j < |hits| ==> hits[i].start < hits[j].start
  }

  lemma {:induction false} OccurrencesSound(text: string, code: string, from: nat)
    requires |code| == 3
    ensures var hits := Occurrences(text, code, from);
      && StartsIncrease(hits)
      && (forall h :: h in hits ==> h.code == code && from <= h.start && At(text, code, h.start))
    decreases |text| - from
  {
    if from < |text| {
      if At(text, code, from) {
        OccurrencesSound(text, code, from + 3);
      } else {
        OccurrencesSound(text, code, from + 1);
      }
    }
  }

  /** Every occurrence is found, or overlapped by a found one that starts before it. */
  lemma {:induction false} FoundOrOverlapped(text: string, code: string, from: nat, i: nat) returns (h: Hit)
    requires |code| == 3 && from <= i && At(text, code, i)
    ensures h in Occurrences(text, code, from) && h.start <= i < h.start + 3
    decreases |text| - from
  {
    if At(text, code, from) {
      if i < from + 3 {
        h := Hit(code, from);
      } else {
        h := FoundOrOverlapped(text, code, from + 3, i);
      }
    } else {
      h := FoundOrOverlapped(text, code, from + 1, i);
    }
  }

  /** Found occurrences of one code do not overlap. */
  lemma {:induction false} FoundApart(text: string, code: string, from: nat, g: Hit, h: Hit)
    requires |code| == 3 && g in Occurrences(text, code, from) && h in Occurrences(text, code, from)
    requires g.start < h.start
    ensures g.start + 3 <= h.start
    decreases |text| - from
  {
    OccurrencesSound(text, code, from + 3);
    OccurrencesSound(text, code, from + 1);
    if At(text, code, from) {
      if g != Hit(code, from) {
        FoundApart(text, code, from + 3, g, h);
      }
    } else {
      FoundApart(text, code, from + 1, g, h);
    }
  }

  lemma {:induction false} AllOccurrencesMembers(text: string, codes: seq<string>)
    requires forall c :: 0 <= c < |codes| ==> |codes[c]| == 3
    requires forall c, d :: 0 <= c < d < |codes| ==> codes[c] != codes[d]
    ensures var hits := AllOccurrences(text, codes);
      && NoRepeat(hits)
      && (forall h :: h in hits <==> h.code in codes && h in Occurrences(text, h.code, 0))
  {
    if codes != [] {
      var n := |codes| - 1;
      AllOccurrencesMembers(text, codes[..n]);
      OccurrencesSound(text, codes[n], 0);
      assert codes == codes[..n] + [codes[n]];
    }
  }

  lemma CodesAreDistinct()
    ensures forall c :: 0 <= c < |AAMVA_CODES| ==> |AAMVA_CODES[c]| == 3
    ensures forall c, d :: 0 <= c < d < |AAMVA_CODES| ==> AAMVA_CODES[c] != AAMVA_CODES[d]
  {
    forall c, d | 0 <= c < d < |AAMVA_CODES|
      ensures AAMVA_CODES[c] != AAMVA_CODES[d]
    {
      assert AAMVA_CODES[c][1] != AAMVA_CODES[d][1] || AAMVA_CODES[c][2] != AAMVA_CODES[d][2];
    }
  }

  lemma SameMultisetNoRepeat(a: seq<Hit>, b: seq<Hit>)
    requires multiset(a) == multiset(b) && NoRepeat(a)
    ensures NoRepeat(b)
  {
    forall i, j | 0 <= i < j < |b|
      ensures b[i] != b[j]
    {
      if b[i] == b[j] {
        TwiceInMultiset(b, i, j);
        OnceInMultiset(a, b[i]);
      }
    }
  }

  lemma TwiceInMultiset(hits: seq<Hit>, i: nat, j: nat)
    requires i < j < |hits| && hits[i] == hits[j]
    ensures multiset(hits)[hits[i]] >= 2
  {
    assert hits == hits[..j] + ([hits[j]] + hits[j + 1..]);
    assert hits[..j][i] == hits[i];
    assert hits[i] in multiset(hits[..j]);
  }

  lemma {:induction false} OnceInMultiset(hits: seq<Hit>, hit: Hit)
    requires NoRepeat(hits)
    ensures multiset(hits)[hit] <= 1
  {
    if hits != [] {
      var n := |hits| - 1;
      OnceInMultiset(hits[..n], hit);
      assert hits == hits[..n] + [hits[n]];
      assert hits[n] !in hits[..n];
      assert hits[n] !in multiset(hits[..n]);
    }
  }

  lemma AllHits(text: string)
    ensures NoRepeat(HitsOf(text)) && Sorted(HitsOf(text), CompareStarts)
    ensures forall h :: h in HitsOf(text) <==> h.code in AAMVA_CODES && h in Occurrences(text, h.code, 0)
  {
    hide Occurrences, AllOccurrences, Sort, Sorted, NoRepeat;
    var all := AllOccurrences(text, AAMVA_CODES);
    CodesAreDistinct();
    AllOccurrencesMembers(text, AAMVA_CODES);
    ConsistentStarts();
    SortIsStable(all, Hit("", 0), CompareStarts);
    SortKeepsItems(all, CompareStarts);
    SameMultisetNoRepeat(all, HitsOf(text));
  }

  lemma ConsistentStarts()
    ensures Consistent(CompareStarts)
  {
  }

  /** The sorted hits: exactly the occurrences found, strictly by start. */
  lemma HitsOfMembers(text: string)
    ensures StartsIncrease(HitsOf(text))
    ensures forall h :: h in HitsOf(text) <==> h.code in AAMVA_CODES && h in Occurrences(text, h.code, 0)
  {
    hide Occurrences, HitsOf;
    AllHits(text);
    var hits := HitsOf(text);
    forall i, j | 0 <= i < j < |hits|
      ensures hits[i].start < hits[j].start
    {
      assert CompareStarts(hits[i], hits[j]) <= 0;
      assert hits[i] in hits && hits[j] in hits;
      OneCodePerStart(text, hits[i], hits[j]);
    }
  }

  lemma OneCodePerStart(text: string, a: Hit, b: Hit)
    requires a.code in AAMVA_CODES && a in Occurrences(text, a.code, 0)
    requires b.code in AAMVA_CODES && b in Occurrences(text, b.code, 0)
    ensures a.start == b.start ==> a == b
  {
    hide Occurrences;
    CodesHaveLength3(a.code);
    CodesHaveLength3(b.code);
    OccurrencesSound(text, a.code, 0);
    OccurrencesSound(text, b.code, 0);
  }

  lemma {:induction false} IncreasingHitsUnique(a: seq<Hit>, b: seq<Hit>)
    requires StartsIncrease(a) && StartsIncrease(b)
    requires forall h :: h in a <==> h in b
    ensures a == b
  {
    assert (a != [] ==> a[0] in b) && (b != [] ==> b[0] in a);
    if a != [] && b != [] {
      var m, n := |a| - 1, |b| - 1;
      SameLast(a, b, m, n);
      ShorterHits(a, b, m, n);
      IncreasingHitsUnique(a[..m], b[..n]);
      hide *;
      assert a == a[..m] + [a[m]];
      assert b == b[..n] + [b[n]];
    }
  }

  lemma SameLast(a: seq<Hit>, b: seq<Hit>, m: nat, n: nat)
    requires StartsIncrease(a) && StartsIncrease(b) && |a| == m + 1 && |b| == n + 1
    requires forall h :: h in a <==> h in b
    ensures a[m] == b[n]
  {
    assert a[m] in b && b[n] in a;
    var i :| 0 <= i <= n && b[i] == a[m];
    var j :| 0 <= j <= m && a[j] == b[n];
  }

  lemma NotBeforeLast(a: seq<Hit>, m: nat, h: Hit)
    requires StartsIncrease(a) && |a| == m + 1
    ensures h in a[..m] <==> h in a && h != a[m]
  {
    assert h in a <==> h in a[..m] || h == a[m] by {
      hide *;
      assert a == a[..m] + [a[m]];
    }
  }

  lemma ShorterHits(a: seq<Hit>, b: seq<Hit>, m: nat, n: nat)
    requires StartsIncrease(a) && StartsIncrease(b) && |a| == m + 1 && |b| == n + 1
    requires a[m] == b[n]
    requires forall h :: h in a <==> h in b
    ensures forall h :: h in a[..m] <==> h in b[..n]
  {
    forall h
      ensures h in a[..m] <==> h in b[..n]
    {
      NotBeforeLast(a, m, h);
      NotBeforeLast(b, n, h);
    }
  }

  lemma {:induction false} OffsetsIncrease(header: string, records: seq<Record>, j: nat, k: nat)
    requires j < k <= |records|
    requires forall i :: 0 <= i < |records| ==> |records[i].code| == 3
    ensures Offset(header, records, j) + 4 <= Offset(header, records, k)
    decreases k
  {
    LineAt(header, records, k - 1);
    if j < k - 1 {
      OffsetsIncrease(header, records, j, k - 1);
    }
  }

  lemma RecordCodes(records: seq<Record>)
    requires ProperRecords(records)
    ensures forall k :: 0 <= k < |records| ==>
      records[k].code in AAMVA_CODES && |records[k].code| == 3 && OneLine(records[k].value)
  {
    forall k | 0 <= k < |records|
      ensures |records[k].code| == 3
    {
      CodesHaveLength3(records[k].code);
    }
  }

  lemma CodeAtOffset(header: string, records: seq<Record>, k: nat)
    requires k < |records| && |records[k].code| == 3
    ensures Offset(header, records, k) + 3 <= |header + Print(records)|
    ensures var at := Offset(header, records, k);
      (header + Print(records))[at..at + 3] == records[k].code
  {
    var text, at, end := header + Print(records), Offset(header, records, k), Offset(header, records, k + 1);
    LineAt(header, records, k);
    assert text[at..at + 3] == text[at..end][..3] == records[k].code;
  }

  lemma RecordIsHit(header: string, records: seq<Record>, k: nat)
    requires ProperRecords(records) && FoundOnlyAtStarts(header, records) && k < |records|
    ensures Hit(records[k].code, Offset(header, records, k)) in Occurrences(header + Print(records), records[k].code, 0)
  {
    hide Print, Offset, Occurrences, AAMVA_CODES;
    var text, code, at := header + Print(records), records[k].code, Offset(header, records, k);
    RecordCodes(records);
    CodeAtOffset(header, records, k);
    var h := FoundOrOverlapped(text, code, 0, at);
    OccurrencesSound(text, code, 0);
    var i :| 0 <= i < |records| && h.start == Offset(header, records, i);
    if i < k {
      OffsetsIncrease(header, records, i, k);
    } else if i > k {
      OffsetsIncrease(header, records, k, i);
    }
  }

  lemma HitIsRecord(header: string, records: seq<Record>, h: Hit)
    requires ProperRecords(records) && FoundOnlyAtStarts(header, records)
    requires h.code in AAMVA_CODES && h in Occurrences(header + Print(records), h.code, 0)
    ensures exists k :: 0 <= k < |records| && h == Hit(records[k].code, Offset(header, records, k))
  {
    hide Print, Offset, Occurrences, AAMVA_CODES;
    CodesHaveLength3(h.code);
    OccurrencesSound(header + Print(records), h.code, 0);
    var k :| 0 <= k < |records| && h.start == Offset(header, records, k);
    RecordCodes(records);
    CodeAtOffset(header, records, k);
    assert h == Hit(records[k].code, Offset(header, records, k));
  }

  lemma RecordHitsMembers(header: string, records: seq<Record>, h: Hit)
    requires ProperRecords(records) && FoundOnlyAtStarts(header, records)
    ensures h in HitsOf(header + Print(records)) <==> h in RecordHits(header, records)
  {
    hide FoundOnlyAtStarts, ProperRecords, Print, Offset, Occurrences, HitsOf, AAMVA_CODES;
    var expected := RecordHits(header, records);
    HitsOfMembers(header + Print(records));
    RecordCodes(records);
    if h in expected {
      var k :| 0 <= k < |expected| && expected[k] == h;
      RecordIsHit(header, records, k);
    }
    if h in HitsOf(header + Print(records)) {
      HitIsRecord(header, records, h);
      var k :| 0 <= k < |records| && h == Hit(records[k].code, Offset(header, records, k));
      assert expected[k] == h;
    }
  }

  /** The hits found in printed records are the records exactly when every found occurrence is where a record starts. */
  lemma HitsAreRecords(header: string, records: seq<Record>)
    requires ProperRecords(records)
    ensures HitsOf(header + Print(records)) == RecordHits(header, records) <==> FoundOnlyAtStarts(header, records)
  {
    hide Print, Offset, Occurrences, HitsOf, ProperRecords, AAMVA_CODES;
    var text := header + Print(records);
    var hits, expected := HitsOf(text), RecordHits(header, records);
    HitsOfMembers(text);
    if FoundOnlyAtStarts(header, records) {
      RecordCodes(records);
      forall i, j | 0 <= i < j < |expected|
        ensures expected[i].start < expected[j].start
      {
        OffsetsIncrease(header, records, i, j);
      }
      forall h
        ensures h in hits <==> h in expected
      {
        RecordHitsMembers(header, records, h);
      }
      IncreasingHitsUnique(hits, expected);
    } else {
      var code, h :| code in AAMVA_CODES && h in Occurrences(text, code, 0) && !IsStart(header, records, h.start);
      CodesHaveLength3(code);
      OccurrencesSound(text, code, 0);
      assert h in hits;
      assert h !in expected;
    }
  }

  // ---- the values of printed records ----

  lemma {:induction false} FirstLineOfLine(s: string)
    requires OneLine(s)
    ensures FirstLine(s + "\n") == s
  {
    if s != "" {
      FirstLineOfLine(s[1..]);
      assert (s + "\n")[1..] == s[1..] + "\n";
    }
  }

  lemma ValueOfLine(value: string)
    requires OneLine(value)
    ensures FirstLine(StripNewlines(value + "\n")) == value
  {
    if value == "" {
      assert StripNewlines("\n") == StripNewlines("") == "";
    } else {
      assert StripNewlines(value + "\n") == value + "\n";
      FirstLineOfLine(value);
    }
  }

  lemma TailOfSlice(text: string, at: nat, end: nat, code: string, value: string)
    requires at <= end <= |text| && |code| == 3 && text[at..end] == code + value + "\n"
    ensures Slice(text, at + 3, end) == value + "\n"
  {
    assert text[at + 3..end] == text[at..end][3..];
    assert (code + value + "\n")[3..] == value + "\n";
  }

  lemma ValueRegion(header: string, records: seq<Record>, k: nat)
    requires k < |records| && |records[k].code| == 3
    ensures var text := header + Print(records);
      Slice(text, Offset(header, records, k) + 3, Offset(header, records, k + 1)) == records[k].value + "\n"
    ensures k + 1 == |records| ==> Offset(header, records, k + 1) == |header + Print(records)|
  {
    LineAt(header, records, k);
    if k + 1 == |records| {
      assert records[..k + 1] == records;
    }
    var text, at, end := header + Print(records), Offset(header, records, k), Offset(header, records, k + 1);
    hide Print, Offset, Slice;
    TailOfSlice(text, at, end, records[k].code, records[k].value);
  }

  lemma ValueOfRecord(header: string, records: seq<Record>, k: nat)
    requires ProperRecords(records) && k < |records|
    ensures ValueAt(header + Print(records), RecordHits(header, records), k) == Trim(records[k].value)
  {
    hide ProperRecords, Print, Offset, Slice, StripNewlines, FirstLine, Trim, AAMVA_CODES;
    RecordCodes(records);
    ValueRegion(header, records, k);
    ValueOfLine(records[k].value);
  }

  lemma {:induction false} FieldsOfRecords(header: string, records: seq<Record>, n: nat)
    requires ProperRecords(records) && n <= |records|
    ensures FieldsUpTo(header + Print(records), RecordHits(header, records), n) == FirstValues(records[..n])
    decreases n
  {
    hide ProperRecords, ValueAt, Print, Offset, Trim;
    if n > 0 {
      FieldsOfRecords(header, records, n - 1);
      ValueOfRecord(header, records, n - 1);
      assert records[..n][..n - 1] == records[..n - 1];
    }
  }

  // ---- carriage returns ----

  predicate NoReturn(s: string) {
    forall i :: 0 <= i < |s| ==> s[i] != '\r'
  }

  /** The text as readers send it: cut into pieces anywhere, with a carriage return between any two. */
  predicate SentAs(raw: string, text: string, pieces: seq<string>) {
    raw == Join(pieces, "\r") && text == Join(pieces, "")
  }

  lemma {:induction false} RemoveReturnsConcat(a: string, b: string)
    ensures RemoveReturns(a + b) == RemoveReturns(a) + RemoveReturns(b)
  {
    if a == "" {
      assert a + b == b;
    } else {
      RemoveReturnsConcat(a[1..], b);
      RestOfConcat(a, b);
      ConcatAssociative(if a[0] == '\r' then "" else [a[0]], RemoveReturns(a[1..]), RemoveReturns(b));
    }
  }

  lemma OneReturn()
    ensures RemoveReturns("\r") == "" && RemoveReturns("") == ""
  {
    var one := "\r";
    assert one[1..] == "";
  }

  lemma {:induction false} NoReturns(s: string)
    requires NoReturn(s)
    ensures RemoveReturns(s) == s
  {
    if s != "" {
      NoReturns(s[1..]);
      assert [s[0]] + s[1..] == s;
    }
  }

  /** A carriage return anywhere in the text leaves the parsed fields as they were. */
  lemma ReturnChangesNothing(a: string, b: string)
    ensures ParsedFields(a + "\r" + b) == ParsedFields(a + b)
  {
    hide FieldsOf;
    RemoveReturnsConcat(a + "\r", b);
    RemoveReturnsConcat(a, "\r");
    RemoveReturnsConcat(a, b);
    OneReturn();
    hide RemoveReturns;
    assert RemoveReturns(a) + "" == RemoveReturns(a);
  }

  /** However many returns are inserted, the parser sees the text. */
  lemma {:induction false} SentTextComesBack(raw: string, text: string, pieces: seq<string>)
    requires SentAs(raw, text, pieces) && NoReturn(text)
    ensures RemoveReturns(raw) == text
    decreases |pieces|
  {
    if pieces == [] {
    } else if |pieces| == 1 {
      NoReturns(text);
    } else {
      var first, rest := pieces[0], pieces[1..];
      SplitText(first, Join(rest, ""));
      SentTextComesBack(Join(rest, "\r"), Join(rest, ""), rest);
      NoReturns(first);
      RemoveReturnsConcat(first + "\r", Join(rest, "\r"));
      RemoveReturnsConcat(first, "\r");
      OneReturn();
      hide RemoveReturns;
      assert first + "" == first;
    }
  }

  lemma SplitText(a: string, b: string)
    requires NoReturn(a + "" + b)
    ensures NoReturn(a) && NoReturn(b)
  {
    var s := a + "" + b;
    assert forall i :: 0 <= i < |a| ==> a[i] == s[i];
    assert forall i :: 0 <= i < |b| ==> b[i] == s[|a| + i];
  }

  /**
   * Round trip: records printed one per line behind any header come back as the first non-blank value of each
   * code, trimmed, whatever carriage returns the reader adds, when the search finds codes only at their starts.
   */
  lemma ParseUndoesPrint(raw: string, header: string, records: seq<Record>, pieces: seq<string>)
    requires ProperRecords(records) && FoundOnlyAtStarts(header, records)
    requires NoReturn(header + Print(records)) && SentAs(raw, header + Print(records), pieces)
    ensures ParsedFields(raw) == FirstValues(records)
  {
    hide ProperRecords, FoundOnlyAtStarts, NoReturn, SentAs, FieldsOf, Print;
    SentTextComesBack(raw, header + Print(records), pieces);
    FoundFieldsAre(header, records);
  }

  lemma FoundFieldsAre(header: string, records: seq<Record>)
    requires ProperRecords(records) && FoundOnlyAtStarts(header, records)
    ensures FieldsOf(header + Print(records)) == FirstValues(records)
  {
    hide ProperRecords, FoundOnlyAtStarts;
    HitsAreRecords(header, records);
    FieldsOfRecords(header, records, |records|);
    assert records[..|records|] == records;
  }

  // ---- where the search goes wrong ----

  /** No code starts in the header, not even one that runs into the first record. */
  ghost predicate CleanHeader(header: string, records: seq<Record>) {
    forall code: string, i: nat :: code in AAMVA_CODES && i < |header| ==> !At(header + Print(records), code, i)
  }

  /** No code occurs in the record behind its start, not even across the end of its own, but for `DAD` in `DADAD`. */
  ghost predicate PlainRecord(r: Record) {
    forall code: string, i: nat :: code in AAMVA_CODES && 0 < i && At(r.code + r.value, code, i) ==>
      r.code == "DAD" && code == "DAD" && i == 2
  }

  lemma CodeLetters(code: string)
    requires code in AAMVA_CODES
    ensures |code| == 3 && code[0] == 'D' && code[1] in {'A', 'B', 'C'} && (code[2] == 'D' <==> code == "DAD")
    ensures OneLine(code)
  {
  }

  lemma AtInLine(text: string, off: nat, body: string, code: string, d: nat)
    requires |code| == 3 && OneLine(code) && d <= |body|
    requires off + |body| + 1 <= |text| && text[off..off + |body| + 1] == body + "\n"
    ensures At(text, code, off + d) <==> At(body, code, d)
    ensures At(text, code, off + d) ==> d + 3 <= |body|
  {
    hide *;
    var line := text[off..off + |body| + 1];
    assert forall j :: 0 <= j < |line| ==> text[off + j] == line[j];
    assert line[|body|] == '\n' && forall j :: 0 <= j < |body| ==> line[j] == body[j];
    AtByLetters(text, code, off + d);
    AtByLetters(body, code, d);
    NewlineNotIn(code);
  }

  lemma NewlineNotIn(code: string)
    requires OneLine(code) && |code| == 3
    ensures code[0] != '\n' && code[1] != '\n' && code[2] != '\n'
  {
  }

  lemma AtByLetters(text: string, code: string, i: nat)
    requires |code| == 3
    ensures At(text, code, i)
      <==> i + 3 <= |text| && text[i] == code[0] && text[i + 1] == code[1] && text[i + 2] == code[2]
  {
    if i + 3 <= |text| {
      var part := text[i..i + 3];
      assert part[0] == text[i] && part[1] == text[i + 1] && part[2] == text[i + 2];
      assert part == code <==> part[0] == code[0] && part[1] == code[1] && part[2] == code[2];
    }
  }

  /** Occurrences within a record's line are those in its code and value. */
  lemma AtInRecord(header: string, records: seq<Record>, k: nat, code: string, i: nat)
    requires ProperRecords(records) && k < |records| && code in AAMVA_CODES
    requires Offset(header, records, k) <= i < Offset(header, records, k + 1)
    ensures var body, d := records[k].code + records[k].value, i - Offset(header, records, k);
      && (At(header + Print(records), code, i) <==> At(body, code, d))
      && (At(header + Print(records), code, i) ==> i + 4 <= Offset(header, records, k + 1))
  {
    hide *;
    BodyAt(header, records, k);
    CodeLetters(code);
    AtInLine(header + Print(records), Offset(header, records, k), records[k].code + records[k].value, code,
             i - Offset(header, records, k));
  }

  lemma BodyAt(header: string, records: seq<Record>, k: nat)
    requires k < |records|
    ensures var text, off := header + Print(records), Offset(header, records, k);
      var body := records[k].code + records[k].value;
      && Offset(header, records, k + 1) == off + |body| + 1 <= |text|
      && text[off..off + |body| + 1] == body + "\n"
  {
    hide *;
    LineAt(header, records, k);
    LineIs(records[k], records[k].code + records[k].value);
  }

  lemma LineIs(r: Record, body: string)
    requires body == r.code + r.value
    ensures Line(r) == body + "\n" && |Line(r)| == |body| + 1
  {
  }

  /** Every position behind the header is in some record's line. */
  lemma {:induction false} RecordAt(header: string, records: seq<Record>, i: nat, n: nat) returns (k: nat)
    requires n <= |records| && |header| <= i < Offset(header, records, n)
    ensures k < n && Offset(header, records, k) <= i < Offset(header, records, k + 1)
    decreases n
  {
    if n > 0 {
      k := n - 1;
      if i < Offset(header, records, k) {
        k := RecordAt(header, records, i, k);
      }
    }
  }

  lemma RecordStartIsFound(header: string, records: seq<Record>, k: nat)
    requires ProperRecords(records) && CleanHeader(header, records) && k < |records|
    ensures Hit(records[k].code, Offset(header, records, k)) in Occurrences(header + Print(records), records[k].code, 0)
  {
    hide Print, Offset, Occurrences, ProperRecords, AAMVA_CODES;
    var text, code, off := header + Print(records), records[k].code, Offset(header, records, k);
    RecordCodes(records);
    CodeAtOffset(header, records, k);
    var h := FoundOrOverlapped(text, code, 0, off);
    OccurrencesSound(text, code, 0);
    if h.start < off {
      LineBefore(header, records, k, h.start);
      var m := RecordAt(header, records, h.start, k);
      AtInRecord(header, records, m, code, h.start);
      if m + 1 < k {
        OffsetsIncrease(header, records, m + 1, k);
      }
    }
  }

  lemma LineBefore(header: string, records: seq<Record>, k: nat, i: nat)
    requires k <= |records|
    ensures |header| <= Offset(header, records, k) <= |header + Print(records)|
  {
    PrintSplit(records, k);
  }

  ghost predicate AllPlain(records: seq<Record>) {
    forall k :: 0 <= k < |records| ==> PlainRecord(records[k])
  }

  /** The search finds codes only at record starts exactly when the header is clean and every record is plain. */
  lemma PlainIffFoundAtStarts(header: string, records: seq<Record>)
    requires ProperRecords(records)
    ensures FoundOnlyAtStarts(header, records) <==> CleanHeader(header, records) && AllPlain(records)
  {
    hide Print, Offset, Occurrences, ProperRecords, AAMVA_CODES, CleanHeader, PlainRecord, FoundOnlyAtStarts;
    if FoundOnlyAtStarts(header, records) {
      FoundMeansClean(header, records);
      forall k | 0 <= k < |records|
        ensures PlainRecord(records[k])
      {
        FoundMeansPlain(header, records, k);
      }
    }
    if CleanHeader(header, records) && AllPlain(records) {
      PlainMeansFound(header, records);
    }
  }

  lemma FoundMeansClean(header: string, records: seq<Record>)
    requires FoundOnlyAtStarts(header, records)
    ensures CleanHeader(header, records)
  {
    hide Print, Occurrences, AAMVA_CODES, At;
    var text := header + Print(records);
    forall code: string, i: nat | code in AAMVA_CODES && i < |header|
      ensures !At(text, code, i)
    {
      if At(text, code, i) {
        CodesHaveLength3(code);
        var h := FoundOrOverlapped(text, code, 0, i);
      }
    }
  }

  lemma FoundMeansPlain(header: string, records: seq<Record>, k: nat)
    requires ProperRecords(records) && FoundOnlyAtStarts(header, records) && k < |records|
    ensures PlainRecord(records[k])
  {
    hide Print, Offset, Occurrences, ProperRecords, AAMVA_CODES;
    var body := records[k].code + records[k].value;
    forall code: string, i: nat | code in AAMVA_CODES && 0 < i && At(body, code, i)
      ensures records[k].code == "DAD" && code == "DAD" && i == 2
    {
      OverlapInRecord(header, records, k, code, i);
    }
  }

  lemma OverlapInRecord(header: string, records: seq<Record>, k: nat, code: string, i: nat)
    requires ProperRecords(records) && FoundOnlyAtStarts(header, records) && k < |records|
    requires code in AAMVA_CODES && 0 < i && At(records[k].code + records[k].value, code, i)
    ensures records[k].code == "DAD" && code == "DAD" && i == 2
  {
    hide Print, Offset, Occurrences, ProperRecords, AAMVA_CODES;
    var text, off := header + Print(records), Offset(header, records, k);
    RecordCodes(records);
    CodeLetters(code);
    BodyAt(header, records, k);
    AtInRecord(header, records, k, code, off + i);
    var h := FoundOrOverlapped(text, code, 0, off + i);
    OccurrencesSound(text, code, 0);
    assert IsStart(header, records, h.start);
    hide FoundOnlyAtStarts, At;
    var m :| 0 <= m < |records| && h.start == Offset(header, records, m);
    StartInLine(header, records, k, m);
    CodeAtOffset(header, records, k);
    SelfOverlap(text, code, off, i);
  }

  lemma StartInLine(header: string, records: seq<Record>, k: nat, m: nat)
    requires ProperRecords(records) && k < |records| && m < |records|
    requires Offset(header, records, k) < Offset(header, records, m) + 4
    requires Offset(header, records, m) < Offset(header, records, k + 1)
    ensures m == k
  {
    hide Print, Offset, ProperRecords;
    RecordCodes(records);
    if m < k {
      OffsetsIncrease(header, records, m, k);
    } else if k + 1 < m {
      OffsetsIncrease(header, records, k + 1, m);
    }
  }

  lemma SelfOverlap(text: string, code: string, off: nat, i: nat)
    requires code in AAMVA_CODES && At(text, code, off) && At(text, code, off + i) && 0 < i < 3
    ensures code == "DAD" && i == 2
  {
    CodeLetters(code);
    hide AAMVA_CODES, At;
    AtByLetters(text, code, off);
    AtByLetters(text, code, off + i);
  }

  lemma PlainMeansFound(header: string, records: seq<Record>)
    requires ProperRecords(records) && CleanHeader(header, records)
    requires AllPlain(records)
    ensures FoundOnlyAtStarts(header, records)
  {
    hide Print, Offset, Occurrences, ProperRecords, AAMVA_CODES, PlainRecord;
    forall code: string, h: Hit | code in AAMVA_CODES && h in Occurrences(header + Print(records), code, 0)
      ensures IsStart(header, records, h.start)
    {
      FoundAtStart(header, records, code, h);
    }
  }

  lemma FoundAtStart(header: string, records: seq<Record>, code: string, h: Hit)
    requires ProperRecords(records) && CleanHeader(header, records)
    requires AllPlain(records)
    requires code in AAMVA_CODES && h in Occurrences(header + Print(records), code, 0)
    ensures IsStart(header, records, h.start)
  {
    hide Print, Offset, Occurrences, ProperRecords, AAMVA_CODES;
    var text := header + Print(records);
    RecordCodes(records);
    CodeLetters(code);
    OccurrencesSound(text, code, 0);
    WholeText(header, records);
    var k := RecordAt(header, records, h.start, |records|);
    AtInRecord(header, records, k, code, h.start);
    if h.start != Offset(header, records, k) {
      assert PlainRecord(records[k]);
      RecordStartIsFound(header, records, k);
      FoundApart(text, code, 0, Hit(code, Offset(header, records, k)), h);
    }
  }

  lemma WholeText(header: string, records: seq<Record>)
    ensures Offset(header, records, |records|) == |header + Print(records)|
  {
    assert records[..|records|] == records;
  }

  // ---- a value never holds a code ----

  predicate InsideAt(part: string, whole: string, q: nat) {
    q + |part| <= |whole| && whole[q..q + |part|] == part
  }

  lemma InsideInside(a: string, b: string, c: string, p: nat, q: nat)
    requires InsideAt(a, b, p) && InsideAt(b, c, q)
    ensures InsideAt(a, c, q + p)
  {
    var middle := c[q..q + |b|];
    assert middle == b;
    assert forall j :: 0 <= j < |a| ==> c[q + p + j] == middle[p + j] == b[p + j] == a[j];
  }

  lemma {:induction false} TrimInside(s: string) returns (q: nat)
    ensures InsideAt(Trim(s), s, q)
  {
    q := |s| - |TrimStart(s)|;
    SuffixOf(s);
    assert InsideAt(TrimStart(s), s, q);
    InsideInside(Trim(s), TrimStart(s), s, 0, q);
  }

  lemma {:induction false} SuffixOf(s: string)
    ensures s[|s| - |TrimStart(s)|..] == TrimStart(s)
  {
    if s != "" && IsSpace(s[0]) {
      SuffixOf(s[1..]);
      assert s[|s| - |TrimStart(s)|..] == s[1..][|s| - 1 - |TrimStart(s)|..];
    }
  }

  lemma {:induction false} FirstLineInside(s: string)
    ensures InsideAt(FirstLine(s), s, 0)
  {
    if s != "" && s[0] != '\n' {
      FirstLineInside(s[1..]);
      assert s == [s[0]] + s[1..];
    }
  }

  lemma {:induction false} StripInside(s: string) returns (q: nat)
    ensures InsideAt(StripNewlines(s), s, q)
  {
    q := 0;
    if s != "" && s[0] == '\n' {
      q := StripInside(s[1..]);
      InsideInside(StripNewlines(s), s[1..], s, q, 1);
      q := q + 1;
    }
  }

  function ValueIn(region: string): string {
    Trim(FirstLine(StripNewlines(region)))
  }

  lemma ValueInRegion(region: string) returns (q: nat)
    ensures InsideAt(ValueIn(region), region, q)
  {
    var stripped := StripNewlines(region);
    var line := FirstLine(stripped);
    q := StripInside(region);
    FirstLineInside(stripped);
    var p := TrimInside(line);
    hide Trim, FirstLine, StripNewlines, InsideAt;
    InsideInside(Trim(line), line, stripped, p, 0);
    InsideInside(Trim(line), stripped, region, p, q);
    q := q + p;
  }

  /** A value is a part of the text behind its hit and before the next one. */
  lemma ValueInside(text: string, hits: seq<Hit>, i: nat) returns (q: nat)
    requires i < |hits| && ValueAt(text, hits, i) != ""
    ensures hits[i].start + 3 <= q && InsideAt(ValueAt(text, hits, i), text, q)
    ensures i + 1 < |hits| ==> q + |ValueAt(text, hits, i)| <= hits[i + 1].start
  {
    var from, end := hits[i].start + 3, if i + 1 < |hits| then hits[i + 1].start else |text|;
    var region := Slice(text, from, end);
    assert ValueAt(text, hits, i) == ValueIn(region);
    assert ValueIn("") == "" by {
      assert FirstLine(StripNewlines("")) == "" && Trim("") == "";
    }
    assert InsideAt(region, text, from) && from + |region| <= end;
    hide ValueAt, ValueIn, Slice;
    var p := ValueInRegion(region);
    InsideInside(ValueIn(region), region, text, p, from);
    q := from + p;
  }

  lemma FieldFromHit(text: string, hits: seq<Hit>, n: nat, field: string) returns (i: nat)
    requires n <= |hits| && field in FieldsUpTo(text, hits, n)
    ensures i < n && hits[i].code == field && ValueAt(text, hits, i) == FieldsUpTo(text, hits, n)[field]
    ensures ValueAt(text, hits, i) != ""
  {
    hide ValueAt;
    if field in FieldsUpTo(text, hits, n - 1) {
      i := FieldFromHit(text, hits, n - 1, field);
    } else {
      i := n - 1;
    }
  }

  lemma NextHitBefore(hits: seq<Hit>, i: nat, h: Hit)
    requires StartsIncrease(hits) && i < |hits| && h in hits && hits[i].start < h.start
    ensures i + 1 < |hits| && hits[i + 1].start <= h.start
  {
    var j :| 0 <= j < |hits| && hits[j] == h;
  }

  lemma FoundIsHit(text: string, code: string, h: Hit)
    requires code in AAMVA_CODES && h in Occurrences(text, code, 0)
    ensures h in HitsOf(text) && h.code == code && At(text, code, h.start)
  {
    hide Occurrences, HitsOf, AAMVA_CODES, At;
    CodesHaveLength3(code);
    OccurrencesSound(text, code, 0);
    HitsOfMembers(text);
  }

  lemma FieldsAre(text: string)
    ensures FieldsOf(text) == FieldsUpTo(text, HitsOf(text), |HitsOf(text)|)
  {
  }

  lemma CodeInside(code: string, v: string, text: string, d: nat, q: nat)
    requires At(v, code, d) && InsideAt(v, text, q)
    ensures At(text, code, q + d) && d + |code| <= |v|
  {
    InsideInside(code, v, text, d, q);
  }

  /** No field's value holds a code of the list: the parser cuts every value at the next code in it. */
  lemma ValuesHoldNoCode(text: string, field: string, code: string, d: nat)
    requires field in FieldsOf(text) && code in AAMVA_CODES
    ensures !At(FieldsOf(text)[field], code, d)
  {
    hide *;
    FieldsAre(text);
    var hits := HitsOf(text);
    HitsOfMembers(text);
    var i := FieldFromHit(text, hits, |hits|, field);
    var v := ValueAt(text, hits, i);
    var q := ValueInside(text, hits, i);
    CodesHaveLength3(code);
    if At(v, code, d) {
      CodeInside(code, v, text, d, q);
      var h := FoundOrOverlapped(text, code, 0, q + d);
      FoundIsHit(text, code, h);
      NextHitBefore(hits, i, h);
    }
  }

  // ---- which records come back ----

  predicate ComeBack(fields: map<string, string>, records: seq<Record>) {
    forall k :: 0 <= k < |records| ==> records[k].code in fields && fields[records[k].code] == records[k].value
  }

  predicate NoOtherFields(fields: map<string, string>, records: seq<Record>) {
    forall code :: code in fields ==> exists k :: 0 <= k < |records| && records[k].code == code
  }

  predicate OnePerCode(records: seq<Record>) {
    forall j, k :: 0 <= j < k < |records| ==> records[j].code != records[k].code
  }

  predicate Trimmed(records: seq<Record>) {
    forall k :: 0 <= k < |records| ==> records[k].value != "" && Trim(records[k].value) == records[k].value
  }

  lemma {:induction false} PlainRecordsComeBack(header: string, records: seq<Record>)
    requires ProperRecords(records) && OnePerCode(records) && Trimmed(records)
    requires CleanHeader(header, records) && AllPlain(records)
    ensures var fields := FieldsOf(header + Print(records));
      ComeBack(fields, records) && NoOtherFields(fields, records)
  {
    hide ProperRecords, CleanHeader, AllPlain, FieldsOf, Print;
    PlainIffFoundAtStarts(header, records);
    FoundFieldsAre(header, records);
    forall k | 0 <= k < |records|
      ensures records[k].code in FirstValues(records) && FirstValues(records)[records[k].code] == records[k].value
    {
      FirstValuesMeaning(records, records[k].code);
      assert IsFirstValue(records, records[k].code, k);
    }
    forall code | code in FirstValues(records)
      ensures exists k :: 0 <= k < |records| && records[k].code == code
    {
      FirstValuesMeaning(records, code);
    }
  }

  lemma {:induction false} NoCodeInValue(header: string, records: seq<Record>, k: nat, code: string, d: nat)
    requires ProperRecords(records) && k < |records| && code in AAMVA_CODES
    requires ComeBack(FieldsOf(header + Print(records)), records)
    ensures !At(records[k].code + records[k].value, code, d + 3)
  {
    var r := records[k];
    RecordCodes(records);
    hide ProperRecords, AAMVA_CODES, FieldsOf, At, Print;
    CodesHaveLength3(code);
    ValuesHoldNoCode(header + Print(records), r.code, code, d);
    AtBehind(r.code, r.value, code, d);
  }

  lemma AtBehind(front: string, value: string, code: string, d: nat)
    requires |front| == 3 && |code| == 3
    ensures At(front + value, code, d + 3) <==> At(value, code, d)
  {
    hide *;
    AtByLetters(value, code, d);
    AtByLetters(front + value, code, d + 3);
  }

  lemma OnlyDadEndsInD(r: Record, code: string, i: nat)
    requires r.code in AAMVA_CODES && code in AAMVA_CODES && 0 < i < 3
    ensures At(r.code + r.value, code, i) ==> r.code == "DAD" && i == 2
  {
    CodeLetters(r.code);
    CodeLetters(code);
    hide AAMVA_CODES, At;
    AtByLetters(r.code + r.value, code, i);
  }

  /** A value that comes back holds no code, so a record can only fail to be plain across the end of a `DAD`. */
  lemma {:induction false} NotPlainAcrossDad(header: string, records: seq<Record>, k: nat, code: string, i: nat)
    requires ProperRecords(records) && k < |records| && code in AAMVA_CODES && 0 < i
    requires ComeBack(FieldsOf(header + Print(records)), records)
    ensures At(records[k].code + records[k].value, code, i) ==> records[k].code == "DAD" && i == 2
  {
    if i < 3 {
      OnlyDadEndsInD(records[k], code, i);
    } else {
      NoCodeInValue(header, records, k, code, i - 3);
    }
  }

  /** A code across the end of `DAD` leaves that record without a value, and no other hit gives it one. */
  lemma {:induction false} DadIsLost(header: string, records: seq<Record>, k: nat, code: string)
    requires ProperRecords(records) && OnePerCode(records) && Trimmed(records) && CleanHeader(header, records)
    requires k < |records| && records[k].code == "DAD" && code in AAMVA_CODES && code != "DAD"
    requires At(records[k].code + records[k].value, code, 2)
    ensures !ComeBack(FieldsOf(header + Print(records)), records)
  {
    hide Print, Offset, Occurrences, ProperRecords, AAMVA_CODES, HitsOf, At, StartsIncrease, ValueAt;
    var text, off := header + Print(records), Offset(header, records, k);
    var hits := HitsOf(text);
    HitsOfMembers(text);
    RecordCodes(records);
    BodyAt(header, records, k);
    AtInRecord(header, records, k, code, off + 2);
    var h := HitAcrossDad(header, records, k, code);
    if ComeBack(FieldsOf(text), records) {
      var i := FieldFromHit(text, hits, |hits|, "DAD");
      DadHitIsRecord(header, records, k, code, hits[i]);
      NextHitBefore(hits, i, h);
      EmptyBefore(text, hits, i);
    }
  }

  lemma EmptyBefore(text: string, hits: seq<Hit>, i: nat)
    requires i + 1 < |hits| && hits[i + 1].start <= hits[i].start + 3
    ensures ValueAt(text, hits, i) == ""
  {
    assert Slice(text, hits[i].start + 3, hits[i + 1].start) == "";
    assert FirstLine(StripNewlines("")) == "" && Trim("") == "";
  }

  lemma HitAcrossDad(header: string, records: seq<Record>, k: nat, code: string) returns (h: Hit)
    requires ProperRecords(records) && k < |records| && records[k].code == "DAD"
    requires code in AAMVA_CODES && code != "DAD" && At(header + Print(records), code, Offset(header, records, k) + 2)
    ensures h in HitsOf(header + Print(records)) && h.start == Offset(header, records, k) + 2
  {
    hide Print, Offset, Occurrences, ProperRecords, AAMVA_CODES, HitsOf, At;
    var text, off := header + Print(records), Offset(header, records, k);
    RecordCodes(records);
    CodeLetters(code);
    CodeAtOffset(header, records, k);
    h := FoundOrOverlapped(text, code, 0, off + 2);
    FoundIsHit(text, code, h);
    AtByLetters(text, code, h.start);
    AtByLetters(text, "DAD", off);
    assert At(text, "DAD", off) by {
      IsAt(text, "DAD", off);
    }
    OnlyCode(text, code, off, h.start);
  }

  lemma IsAt(text: string, code: string, i: nat)
    requires i + |code| <= |text| && text[i..i + |code|] == code
    ensures At(text, code, i)
  {
  }

  lemma OnlyCode(text: string, code: string, off: nat, i: nat)
    requires code in AAMVA_CODES && code != "DAD" && At(text, "DAD", off) && At(text, code, i)
    ensures i != off && i != off + 1
  {
    CodeLetters(code);
    hide AAMVA_CODES, At;
    AtByLetters(text, code, i);
    AtByLetters(text, "DAD", off);
    assert code == [code[0], code[1], code[2]];
  }

  lemma {:induction false} DadHitIsRecord(header: string, records: seq<Record>, k: nat, code: string, h: Hit)
    requires ProperRecords(records) && OnePerCode(records) && CleanHeader(header, records)
    requires ComeBack(FieldsOf(header + Print(records)), records)
    requires k < |records| && records[k].code == "DAD" && code in AAMVA_CODES && code != "DAD"
    requires At(header + Print(records), code, Offset(header, records, k) + 2)
    requires h in HitsOf(header + Print(records)) && h.code == "DAD"
    ensures h.start == Offset(header, records, k)
  {
    hide Print, Offset, Occurrences, ProperRecords, HitsOf, At, FieldsOf, ComeBack;
    var text := header + Print(records);
    HitsOfMembers(text);
    CodeLetters("DAD");
    OccurrencesSound(text, "DAD", 0);
    WholeText(header, records);
    assert At(text, "DAD", h.start);
    HitFits(text, h.start);
    var m := RecordAt(header, records, h.start, |records|);
    AtInRecord(header, records, m, "DAD", h.start);
    RecordCodes(records);
    if h.start > Offset(header, records, m) {
      NotPlainAcrossDad(header, records, m, "DAD", h.start - Offset(header, records, m));
    } else {
      CodeAtOffset(header, records, m);
      AtIs(text, "DAD", h.start);
    }
    assert m == k;
    if h.start != Offset(header, records, k) {
      NotTwoCodes(text, code, "DAD", h.start);
    }
  }

  lemma AtIs(text: string, code: string, i: nat)
    requires At(text, code, i)
    ensures i + |code| <= |text| && text[i..i + |code|] == code
  {
  }

  lemma HitFits(text: string, i: nat)
    requires At(text, "DAD", i)
    ensures i < |text|
  {
  }

  lemma NotTwoCodes(text: string, a: string, b: string, i: nat)
    requires At(text, a, i) && At(text, b, i) && |a| == |b|
    ensures a == b
  {
  }

  /**
   * Round trip for one trimmed, non-blank record per code behind a header in which no code starts: the records
   * come back exactly when they are plain, and then there are no other fields.
   */
  lemma {:induction false} DistinctRecordsComeBack(raw: string, header: string, records: seq<Record>,
                                                   pieces: seq<string>)
    requires ProperRecords(records) && OnePerCode(records) && Trimmed(records) && CleanHeader(header, records)
    requires NoReturn(header + Print(records)) && SentAs(raw, header + Print(records), pieces)
    ensures var fields := ParsedFields(raw);
      && (ComeBack(fields, records) <==> AllPlain(records))
      && (AllPlain(records) ==> NoOtherFields(fields, records))
  {
    hide ProperRecords, OnePerCode, Trimmed, CleanHeader, FieldsOf, Print, RemoveReturns, ComeBack, NoReturn, SentAs;
    SentTextComesBack(raw, header + Print(records), pieces);
    if AllPlain(records) {
      PlainRecordsComeBack(header, records);
    } else {
      var k :| 0 <= k < |records| && !PlainRecord(records[k]);
      var code, i: nat :| code in AAMVA_CODES && 0 < i && At(records[k].code + records[k].value, code, i)
        && !(records[k].code == "DAD" && code == "DAD" && i == 2);
      if ComeBack(FieldsOf(header + Print(records)), records) {
        NotPlainAcrossDad(header, records, k, code, i);
        DadIsLost(header, records, k, code);
      }
    }
  }

  // ---- two middle names ----

  const BARBARA_TEXT := "DADBARBARA\nDBA20300101\n"

  lemma BarbaraLetters()
    ensures var t := BARBARA_TEXT;
      && |t| == 23
      && t[0] == 'D' && t[1] == 'A' && t[2] == 'D' && t[3] == 'B' && t[4] == 'A'
      && t[11] == 'D' && t[12] == 'B' && t[13] == 'A'
      && forall i :: 0 <= i < |t| && t[i] == 'D' ==> i == 0 || i == 2 || i == 11
  {
  }

  lemma BarbaraHas(code: string, i: nat)
    requires code in AAMVA_CODES && At(BARBARA_TEXT, code, i)
    ensures (code == "DAD" && i == 0) || (code == "DBA" && (i == 2 || i == 11))
  {
    CodeLetters(code);
    BarbaraLetters();
    hide AAMVA_CODES, BARBARA_TEXT, At;
    AtByLetters(BARBARA_TEXT, code, i);
    assert code == [code[0], code[1], code[2]];
    assert i == 0 || i == 2 || i == 11;
  }

  lemma BarbaraAt(code: string, i: nat)
    requires (code == "DAD" && i == 0) || (code == "DBA" && (i == 2 || i == 11))
    ensures At(BARBARA_TEXT, code, i) && code in AAMVA_CODES
  {
    BarbaraLetters();
    hide BARBARA_TEXT, At;
    AtByLetters(BARBARA_TEXT, code, i);
    assert AAMVA_CODES[2] == "DAD" && AAMVA_CODES[4] == "DBA";
  }

  lemma BarbaraHits()
    ensures HitsOf(BARBARA_TEXT) == [Hit("DAD", 0), Hit("DBA", 2), Hit("DBA", 11)]
  {
    hide HitsOf, Occurrences, At, AAMVA_CODES, BARBARA_TEXT;
    var text, expected := BARBARA_TEXT, [Hit("DAD", 0), Hit("DBA", 2), Hit("DBA", 11)];
    HitsOfMembers(text);
    forall h
      ensures h in HitsOf(text) <==> h in expected
    {
      if h in HitsOf(text) {
        CodesHaveLength3(h.code);
        OccurrencesSound(text, h.code, 0);
        BarbaraHas(h.code, h.start);
      }
      BarbaraAt("DAD", 0);
      BarbaraAt("DBA", 2);
      BarbaraFinds("DAD", 0);
      BarbaraFinds("DBA", 2);
      BarbaraFinds("DBA", 11);
    }
    IncreasingHitsUnique(HitsOf(text), expected);
  }

  lemma BarbaraFinds(code: string, i: nat)
    requires (code == "DAD" && i == 0) || (code == "DBA" && (i == 2 || i == 11))
    ensures Hit(code, i) in Occurrences(BARBARA_TEXT, code, 0)
  {
    hide Occurrences, At, AAMVA_CODES, BARBARA_TEXT;
    BarbaraAt(code, i);
    CodesHaveLength3(code);
    var h := FoundOrOverlapped(BARBARA_TEXT, code, 0, i);
    OccurrencesSound(BARBARA_TEXT, code, 0);
    BarbaraHas(code, h.start);
  }

  /** The middle name Barbara is lost, and the rest of it is taken for the expiry date, which is then ignored. */
  lemma BarbaraIsLost()
    ensures Print([Record("DAD", "BARBARA"), Record("DBA", "20300101")]) == BARBARA_TEXT
    ensures FieldsOf(BARBARA_TEXT) == map["DBA" := "RBARA"]
  {
    hide *;
    BarbaraPrinted();
    BarbaraHits();
    BarbaraFields(HitsOf(BARBARA_TEXT));
    FieldsAre(BARBARA_TEXT);
  }

  lemma BarbaraPrinted()
    ensures Print([Record("DAD", "BARBARA"), Record("DBA", "20300101")]) == BARBARA_TEXT
  {
    var a, b := Record("DAD", "BARBARA"), Record("DBA", "20300101");
    PrintTwo(a, b);
    hide Print;
    assert Line(a) == "DADBARBARA\n";
    assert Line(b) == "DBA20300101\n";
  }

  lemma PrintOne(r: Record)
    ensures Print([r]) == Line(r)
  {
    assert [r][..0] == [];
    assert Print([r]) == "" + Line(r);
  }

  lemma PrintTwo(a: Record, b: Record)
    ensures Print([a, b]) == Line(a) + Line(b)
  {
    assert [a, b][..1] == [a];
    PrintOne(a);
  }

  lemma BarbaraFields(hits: seq<Hit>)
    requires hits == [Hit("DAD", 0), Hit("DBA", 2), Hit("DBA", 11)]
    ensures FieldsUpTo(BARBARA_TEXT, hits, |hits|) == map["DBA" := "RBARA"]
  {
    var text := BARBARA_TEXT;
    BarbaraValues(text, hits);
    hide ValueAt, BARBARA_TEXT;
    assert FieldsUpTo(text, hits, 1) == map[];
    assert FieldsUpTo(text, hits, 2) == map["DBA" := "RBARA"];
    assert FieldsUpTo(text, hits, 3) == map["DBA" := "RBARA"];
  }

  lemma BarbaraValues(text: string, hits: seq<Hit>)
    requires text == BARBARA_TEXT && hits == [Hit("DAD", 0), Hit("DBA", 2), Hit("DBA", 11)]
    ensures ValueAt(text, hits, 0) == "" && ValueAt(text, hits, 1) == "RBARA"
  {
    EmptyBefore(text, hits, 0);
    assert Slice(text, 5, 11) == "RBARA" + "\n";
    ValueOfLine("RBARA");
    assert Trim("RBARA") == "RBARA";
  }

  /** The middle name Adam comes back, although `DADADAM` holds `DAD` twice: the search goes on behind the first. */
  lemma AdamComesBack()
    ensures PlainRecord(Record("DAD", "ADAM"))
    ensures ComeBack(ParsedFields("DADADAM\n"), [Record("DAD", "ADAM")])
  {
    var r, text := Record("DAD", "ADAM"), "DADADAM\n";
    assert AllPlain([r]) && OnePerCode([r]) && CleanHeader("", [r]) by {
      AdamIsPlain();
      hide PlainRecord;
    }
    hide *;
    AdamIsProper(r);
    AdamPrinted(r);
    PlainlySent(text);
    DistinctRecordsComeBack(text, "", [r], [text]);
    AdamIsPlain();
  }

  lemma AdamIsProper(r: Record)
    requires r == Record("DAD", "ADAM")
    ensures ProperRecords([r]) && Trimmed([r])
  {
    var value := "ADAM";
    assert Trim(value) == value;
  }

  lemma AdamPrinted(r: Record)
    requires r == Record("DAD", "ADAM")
    ensures "" + Print([r]) == "DADADAM\n" && NoReturn("" + Print([r]))
  {
    PrintOne(r);
    hide Print;
    assert Line(r) == "DADADAM\n";
  }

  lemma PlainlySent(text: string)
    ensures SentAs(text, text, [text])
  {
  }

  lemma AdamIsPlain()
    ensures PlainRecord(Record("DAD", "ADAM"))
  {
    var body := "DADADAM";
    assert "DAD" + "ADAM" == body;
    forall code: string, i: nat | code in AAMVA_CODES && 0 < i && At(body, code, i)
      ensures code == "DAD" && i == 2
    {
      CodeLetters(code);
      AtByLetters(body, code, i);
      assert code == [code[0], code[1], code[2]];
      assert i == 2 || i == 4;
    }
  }

  // ---- each code, and values across line breaks ----

  /** The element IDs the source lists. */
  predicate IsListedCode(code: string) {
    code in {"DCS", "DAC", "DAD", "DBB", "DBA", "DAQ", "DAG", "DAI", "DAJ", "DAK", "DCG", "DBC", "DCT", "DAA", "DAB",
             "DAF", "DCF"}
  }

  lemma ListedCodes(code: string)
    ensures code in AAMVA_CODES <==> IsListedCode(code)
  {
  }

  lemma DigitsArePlain(code: string, value: string)
    requires code in AAMVA_CODES && AllDigits(value)
    ensures PlainRecord(Record(code, value))
  {
    var body := code + value;
    forall other: string, i: nat | other in AAMVA_CODES && 0 < i
      ensures !At(body, other, i)
    {
      NoCodeInDigits(code, value, other, i);
    }
  }

  lemma NoCodeInDigits(code: string, value: string, other: string, i: nat)
    requires code in AAMVA_CODES && other in AAMVA_CODES && AllDigits(value) && 0 < i
    ensures !At(code + value, other, i)
  {
    CodeLetters(code);
    CodeLetters(other);
    hide AAMVA_CODES, At;
    var body := code + value;
    AtByLetters(body, other, i);
    assert forall j :: 3 <= j < |body| ==> body[j] == value[j - 3];
    assert body[1] == code[1] && body[2] == code[2];
  }

  lemma DigitsAreProper(code: string, value: string)
    requires code in AAMVA_CODES && AllDigits(value) && value != ""
    ensures ProperRecords([Record(code, value)]) && Trimmed([Record(code, value)])
  {
    SpaceExamples(value[0]);
    SpaceExamples(value[|value| - 1]);
    TrimOf("", value, "");
    assert "" + value + "" == value;
    hide AAMVA_CODES, Trim, IsSpace;
  }

  /** Every listed code of a card is read: a record of digits comes back under its code. */
  lemma EveryListedCodeIsRead(code: string, value: string)
    requires IsListedCode(code) && AllDigits(value) && value != ""
    ensures ParsedFields(code + value + "\n") == map[code := value]
  {
    var r, text := Record(code, value), code + value + "\n";
    ListedCodes(code);
    DigitsArePlain(code, value);
    DigitsAreProper(code, value);
    PlainlySent(text);
    CodeLetters(code);
    assert NoReturn(text) && AllPlain([r]) && OnePerCode([r]) && CleanHeader("", [r]) by {
      hide PlainRecord;
    }
    PrintOne(r);
    assert Line(r) == text && "" + Print([r]) == text;
    hide *;
    DistinctRecordsComeBack(text, "", [r], [text]);
    OneField(ParsedFields(text), r);
  }

  lemma OneField(fields: map<string, string>, r: Record)
    requires ComeBack(fields, [r]) && NoOtherFields(fields, [r])
    ensures fields == map[r.code := r.value]
  {
    assert [r][0] == r;
  }

  lemma {:induction false} NewlinesStripped(newlines: string, line: string)
    requires forall i :: 0 <= i < |newlines| ==> newlines[i] == '\n'
    requires line != "" && line[0] != '\n'
    ensures StripNewlines(newlines + line) == line
  {
    if newlines == "" {
      assert newlines + line == line;
    } else {
      RestOfConcat(newlines, line);
      NewlinesStripped(newlines[1..], line);
    }
  }

  lemma {:induction false} FirstLineOf(line: string, rest: string)
    requires OneLine(line) && (rest == "" || rest[0] == '\n')
    ensures FirstLine(line + rest) == line
  {
    if line == "" {
      assert line + rest == rest;
    } else {
      RestOfConcat(line, rest);
      FirstLineOf(line[1..], rest);
    }
  }

  /** A value may stand lines below its code, and ends with its line. */
  lemma ValueAcrossNewlines(newlines: string, line: string, rest: string)
    requires forall i :: 0 <= i < |newlines| ==> newlines[i] == '\n'
    requires line != "" && OneLine(line) && (rest == "" || rest[0] == '\n')
    ensures ValueIn(newlines + (line + rest)) == Trim(line)
  {
    assert (line + rest)[0] == line[0];
    NewlinesStripped(newlines, line + rest);
    FirstLineOf(line, rest);
  }
}
