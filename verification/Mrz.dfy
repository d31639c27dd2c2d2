/**
 * Machine-readable zones: the passport book's two lines (TD3, section 4.2.2 of ICAO Doc 9303-4) and the
 * identity card's three (TD1, section 4.2.2 of Doc 9303-5), with printers that the parser undoes.
 */
module Mrz {
  import opened Wrappers
  import opened Text

  datatype Kind = MrzPassport | MrzId

  datatype Names = Names(lastName: Option<string>, firstName: Option<string>, middleName: Option<string>)

  datatype Document = Document(kind: Kind, names: Names, idType: string, idNumber: Option<string>,
                               idCountry: Option<string>, nationality: Option<string>, dateOfBirth: Option<string>,
                               idExpiry: Option<string>, gender: Option<string>)

  // ---- string operations of the source ----

  /** `s.slice(a, b)` for offsets that are not negative. */
  function Slice(s: string, a: nat, b: nat): string {
    var end := if b < |s| then b else |s|;
    if a < end then s[a..end] else ""
  }

  /** `.replace(/</g, '')` */
  function DropFillers(s: string): string {
    if s == "" then "" else (if s[0] == '<' then "" else [s[0]]) + DropFillers(s[1..])
  }

  /** `.replace(/</g, ' ')` */
  function FillersToSpaces(s: string): (r: string)
    ensures |r| == |s|
    ensures forall i :: 0 <= i < |s| ==> r[i] == if s[i] == '<' then ' ' else s[i]
  {
    seq(|s|, i requires 0 <= i < |s| => if s[i] == '<' then ' ' else s[i])
  }

  /** `.replace(/\s+/g, '')` */
  function DropSpaces(s: string): string {
    if s == "" then "" else (if IsSpace(s[0]) then "" else [s[0]]) + DropSpaces(s[1..])
  }

  /** `.replace(/\r/g, '\n')` */
  function ReturnsToNewlines(s: string): (r: string)
    ensures |r| == |s|
    ensures forall i :: 0 <= i < |s| ==> r[i] == if s[i] == '\r' then '\n' else s[i]
  {
    seq(|s|, i requires 0 <= i < |s| => if s[i] == '\r' then '\n' else s[i])
  }

  /** `.split(separator)` for a one-character separator. */
  function Split(s: string, separator: char): (parts: seq<string>)
    ensures |parts| >= 1
  {
    if s == "" then [""]
    else
      var rest := Split(s[1..], separator);
      if s[0] == separator then [""] + rest else [[s[0]] + rest[0]] + rest[1..]
  }

  function TrimAll(parts: seq<string>): seq<string> {
    if parts == [] then [] else [Trim(parts[0])] + TrimAll(parts[1..])
  }

  /** `.filter(Boolean)` on strings. */
  function NonEmpty(parts: seq<string>): (r: seq<string>)
    ensures |r| <= |parts|
  {
    if parts == [] then [] else (if parts[0] == "" then [] else [parts[0]]) + NonEmpty(parts[1..])
  }

  function PadEnd(s: string, n: nat): (r: string)
    ensures |r| == if |s| < n then n else |s|
    ensures s <= r
    ensures forall i :: |s| <= i < |r| ==> r[i] == '<'
    decreases n - |s|
  {
    if |s| < n then PadEnd(s + "<", n) else s
  }

  /** A string's truth value: `''` becomes undefined. */
  function Truthy(s: string): Option<string> {
    if s == "" then None else Some(s)
  }

  // ---- titleCaseName, mrzDate, mrzSex ----

  predicate IsWordBreak(c: char) {
    IsSpace(c) || c == '-'
  }

  /** `.split(/[\s-]+/).filter(Boolean)`: the maximal runs of other characters. */
  function Words(s: string): seq<string>
    decreases |s|
  {
    if s == "" then []
    else if IsWordBreak(s[0]) then Words(s[1..])
    else [FirstWord(s)] + Words(s[|FirstWord(s)|..])
  }

  function FirstWord(s: string): (w: string)
    ensures w <= s
    ensures s != "" && !IsWordBreak(s[0]) ==> w != ""
  {
    if s == "" || IsWordBreak(s[0]) then "" else [s[0]] + FirstWord(s[1..])
  }

  function Capitalize(part: string): string {
    if part == "" then "" else [UpperChar(part[0])] + part[1..]
  }

  function CapitalizeAll(parts: seq<string>): (r: seq<string>)
    ensures |r| == |parts|
  {
    if parts == [] then [] else [Capitalize(parts[0])] + CapitalizeAll(parts[1..])
  }

  /** The parts hold no white space, so the source's last replacement finds only the single joining spaces. */
  function TitleCaseName(value: string): string {
    Join(CapitalizeAll(Words(Lower(Trim(value)))), " ")
  }

  function MrzDate(yymmdd: string): Option<string> {
    if |yymmdd| != 6 || !AllDigits(yymmdd) then None
    else
      var yy := NumberOf(yymmdd[..2]);
      var century := if yy <= 30 then 2000 else 1900;
      Some(Digits(century + yy, 4) + "-" + yymmdd[2..4] + "-" + yymmdd[4..6])
  }

  function MrzSex(raw: string): Option<string> {
    if raw == "M" then Some("male") else if raw == "F" then Some("female") else None
  }

  // ---- parseMrzNames and the two layouts ----

  /** The position of the first `<<` at or after `from`. */
  function DoubleFiller(s: string, from: nat): (r: Option<nat>)
    requires from <= |s|
    ensures r.Some? ==> from <= r.value && r.value + 2 <= |s| && s[r.value] == '<' && s[r.value + 1] == '<'
    ensures r.Some? ==> forall i :: from <= i < r.value ==> !(s[i] == '<' && s[i + 1] == '<')
    ensures r.None? ==> forall i :: from <= i < |s| - 1 ==> !(s[i] == '<' && s[i + 1] == '<')
    decreases |s| - from
  {
    if from + 2 > |s| then None
    else if s[from] == '<' && s[from + 1] == '<' then Some(from)
    else DoubleFiller(s, from + 1)
  }

  /** The first two parts of `.split('<<')`; a missing second part reads as empty. */
  function SplitNames(field: string): (string, string) {
    match DoubleFiller(field, 0)
    case None => (field, "")
    case Some(i) =>
      var rest := field[i + 2..];
      match DoubleFiller(rest, 0)
      case None => (field[..i], rest)
      case Some(j) => (field[..i], rest[..j])
  }

  function ParseMrzNames(field: string): Names {
    var (surname, given) := SplitNames(field);
    var lastName := Trim(FillersToSpaces(surname));
    var givens := NonEmpty(TrimAll(Split(given, '<')));
    Names(if lastName != "" then Some(TitleCaseName(lastName)) else None,
          if givens != [] then Some(TitleCaseName(givens[0])) else None,
          if |givens| > 1 then Some(TitleCaseName(Join(givens[1..], " "))) else None)
  }

  function ParseMrzTd3(line1: string, line2: string): Option<Document> {
    if |line1| < 44 || |line2| < 44 then None
    else
      var names := ParseMrzNames(line1[5..]);
      if names.lastName.None? && names.firstName.None? then None
      else
        var issuer := DropFillers(Slice(line1, 2, 5));
        var nationality := DropFillers(Slice(line2, 10, 13));
        Some(Document(MrzPassport, names, "passport", Truthy(DropFillers(Slice(line2, 0, 9))),
                      Truthy(if issuer != "" then issuer else nationality), Truthy(nationality),
                      MrzDate(Slice(line2, 13, 19)), MrzDate(Slice(line2, 21, 27)), MrzSex(Slice(line2, 20, 21))))
  }

  function ParseMrzTd1(line1: string, line2: string, line3: string): Option<Document> {
    var names := ParseMrzNames(line3);
    if names.lastName.None? && names.firstName.None? then None
    else
      var nationality := DropFillers(Slice(line2, 15, 18));
      Some(Document(MrzId, names, "national_id", Truthy(DropFillers(Slice(line1, 5, 14))),
                    Truthy(nationality), Truthy(nationality),
                    MrzDate(Slice(line2, 0, 6)), MrzDate(Slice(line2, 8, 14)), MrzSex(Slice(line2, 7, 8))))
  }

  // ---- parseMrz ----

  predicate IsLetter(c: char) {
    'A' <= c <= 'Z'
  }

  predicate IsMrzChar(c: char) {
    IsLetter(c) || IsDigit(c) || c == '<'
  }

  predicate AllMrz(s: string) {
    forall i :: 0 <= i < |s| ==> IsMrzChar(s[i])
  }

  predicate AllLettersOrFiller(s: string) {
    forall i :: 0 <= i < |s| ==> IsLetter(s[i]) || s[i] == '<'
  }

  /** `/^[A-Z0-9<]{20,}$/` */
  predicate IsMrzLine(s: string) {
    |s| >= 20 && AllMrz(s)
  }

  /** Trim and upper-case each line, and keep those that look like MRZ lines. */
  function KeepMrzLines(lines: seq<string>): seq<string> {
    if lines == [] then [] else KeepMrzLine(Upper(Trim(lines[0]))) + KeepMrzLines(lines[1..])
  }

  function KeepMrzLine(line: string): seq<string> {
    if IsMrzLine(line) then [line] else []
  }

  function MrzLines(raw: string): seq<string> {
    KeepMrzLines(Split(ReturnsToNewlines(raw), '\n'))
  }

  /** `/^(P[A-Z<][A-Z]{3}[A-Z<]{39})([A-Z0-9<]{44})$/` */
  predicate IsCompactTd3(s: string) {
    && |s| == 88 && s[0] == 'P' && (IsLetter(s[1]) || s[1] == '<')
    && IsLetter(s[2]) && IsLetter(s[3]) && IsLetter(s[4])
    && AllLettersOrFiller(s[5..44]) && AllMrz(s[44..])
  }

  function ParseMrz(raw: string): Option<Document> {
    var lines := MrzLines(raw);
    if |lines| < 2 then
      var compact := Upper(DropSpaces(raw));
      if IsCompactTd3(compact) then ParseMrzTd3(compact[..44], compact[44..]) else None
    else if |lines[0]| > 0 && lines[0][0] == 'P' && |lines[1]| >= 44 then
      ParseMrzTd3(PadEnd(lines[0], 44)[..44], PadEnd(lines[1], 44)[..44])
    else if |lines[0]| > 0 && lines[0][0] in {'A', 'C', 'I'} && |lines| >= 3 then
      ParseMrzTd1(lines[0], lines[1], lines[2])
    else None
  }

  // ---- what is printed ----

  datatype Day = Day(year: nat, month: nat, day: nat)

  datatype Sex = Male | Female | Unspecified

  /** The holder's data that both layouts carry; names in words, surname first. */
  datatype Holder = Holder(surname: seq<string>, given: seq<string>, number: string, issuer: string,
                           nationality: string, birth: Day, sex: Sex, expiry: Day)

  /** The characters the parser does not read: type, check digits and optional data. */
  datatype Fill = Fill(subtype: char, numberCheck: char, birthCheck: char, expiryCheck: char,
                       optional: string, last: string)

  predicate IsWord(s: string) {
    s != "" && forall i :: 0 <= i < |s| ==> IsLetter(s[i])
  }

  predicate AreWords(words: seq<string>) {
    forall i :: 0 <= i < |words| ==> IsWord(words[i])
  }

  predicate NoFiller(s: string) {
    forall i :: 0 <= i < |s| ==> IsLetter(s[i]) || IsDigit(s[i])
  }

  predicate IsCode(s: string) {
    |s| <= 3 && forall i :: 0 <= i < |s| ==> IsLetter(s[i])
  }

  predicate IsDay(d: Day) {
    d.year <= 9999 && d.month <= 99 && d.day <= 99
  }

  predicate Printable(h: Holder, width: nat) {
    && h.surname != [] && AreWords(h.surname) && AreWords(h.given) && |NameField(h)| <= width
    && |h.number| <= 9 && NoFiller(h.number)
    && IsCode(h.issuer) && IsCode(h.nationality) && IsDay(h.birth) && IsDay(h.expiry)
  }

  predicate IsFill(f: Fill, optional: nat, last: nat) {
    && (IsLetter(f.subtype) || f.subtype == '<')
    && IsMrzChar(f.numberCheck) && IsMrzChar(f.birthCheck) && IsMrzChar(f.expiryCheck)
    && |f.optional| == optional && AllMrz(f.optional) && |f.last| == last && AllMrz(f.last)
  }

  /** Surname words, `<<`, given names, each separated by `<`. */
  function NameField(h: Holder): string {
    Join(h.surname, "<") + (if h.given == [] then "" else "<<" + Join(h.given, "<"))
  }

  function PrintDay(d: Day): string {
    Digits(d.year % 100, 2) + Digits(d.month, 2) + Digits(d.day, 2)
  }

  function PrintSex(sex: Sex): string {
    match sex
    case Male => "M"
    case Female => "F"
    case Unspecified => "<"
  }

  function Td3Line1(h: Holder, f: Fill): string {
    "P" + [f.subtype] + PadEnd(h.issuer, 3) + PadEnd(NameField(h), 39)
  }

  function Td3Line2(h: Holder, f: Fill): string {
    PadEnd(h.number, 9) + [f.numberCheck] + PadEnd(h.nationality, 3) + PrintDay(h.birth) + [f.birthCheck]
      + PrintSex(h.sex) + PrintDay(h.expiry) + [f.expiryCheck] + f.optional + f.last
  }

  function Td1Line1(kind: char, h: Holder, f: Fill): string {
    [kind] + [f.subtype] + PadEnd(h.issuer, 3) + PadEnd(h.number, 9) + [f.numberCheck] + f.optional
  }

  function Td1Line2(h: Holder, f: Fill): string {
    PrintDay(h.birth) + [f.birthCheck] + PrintSex(h.sex) + PrintDay(h.expiry) + [f.expiryCheck]
      + PadEnd(h.nationality, 3) + f.last
  }

  function Td1Line3(h: Holder): string {
    PadEnd(NameField(h), 30)
  }

  // ---- what is expected back ----

  /** A printed word in title case. */
  function TitleWord(word: string): string {
    if word == "" then "" else [word[0]] + Lower(word[1..])
  }

  function TitleWords(words: seq<string>): (r: seq<string>)
    ensures |r| == |words|
  {
    if words == [] then [] else [TitleWord(words[0])] + TitleWords(words[1..])
  }

  function ExpectedNames(h: Holder): Names {
    Names(Some(Join(TitleWords(h.surname), " ")),
          if h.given == [] then None else Some(TitleWord(h.given[0])),
          if |h.given| <= 1 then None else Some(Join(TitleWords(h.given[1..]), " ")))
  }

  /** The year two printed digits are read as. */
  function CenturyRule(year: nat): nat {
    var yy := year % 100;
    if yy <= 30 then 2000 + yy else 1900 + yy
  }

  function ExpectedDay(d: Day): string {
    Digits(CenturyRule(d.year), 4) + "-" + Digits(d.month, 2) + "-" + Digits(d.day, 2)
  }

  function ExpectedSex(sex: Sex): Option<string> {
    match sex
    case Male => Some("male")
    case Female => Some("female")
    case Unspecified => None
  }

  function ExpectedPassport(h: Holder): Document {
    Document(MrzPassport, ExpectedNames(h), "passport", Truthy(h.number),
             Truthy(if h.issuer != "" then h.issuer else h.nationality), Truthy(h.nationality),
             Some(ExpectedDay(h.birth)), Some(ExpectedDay(h.expiry)), ExpectedSex(h.sex))
  }

  function ExpectedId(h: Holder): Document {
    Document(MrzId, ExpectedNames(h), "national_id", Truthy(h.number), Truthy(h.nationality), Truthy(h.nationality),
             Some(ExpectedDay(h.birth)), Some(ExpectedDay(h.expiry)), ExpectedSex(h.sex))
  }

  /** The century rule gives a date's own year back exactly for 1931 to 2030. */
  lemma CenturyRuleExact(year: nat)
    ensures CenturyRule(year) == year <==> 1931 <= year <= 2030
    ensures CenturyRule(1930) == 2030 && CenturyRule(2031) == 1931
  {
  }

  // ---- names: splitting undoes joining ----

  function Fillers(k: nat): (s: string)
    ensures |s| == k && forall i :: 0 <= i < k ==> s[i] == '<'
  {
    seq(k, _ => '<')
  }

  lemma {:induction false} PadEndIs(s: string, n: nat)
    ensures PadEnd(s, n) == s + Fillers(if |s| < n then n - |s| else 0)
    decreases n - |s|
  {
    if |s| < n {
      PadEndIs(s + "<", n);
      assert (s + "<") + Fillers(n - |s| - 1) == s + Fillers(n - |s|);
    }
  }

  /** No `<<` inside, and a letter at each end. */
  predicate IsPlainField(s: string) {
    && s != "" && IsLetter(s[0]) && IsLetter(s[|s| - 1])
    && AllLettersOrFiller(s)
    && forall i :: 0 <= i < |s| - 1 ==> !(s[i] == '<' && s[i + 1] == '<')
  }

  lemma {:induction false} JoinIsPlain(words: seq<string>)
    requires words != [] && AreWords(words)
    ensures IsPlainField(Join(words, "<"))
  {
    if |words| > 1 {
      var first, rest := words[0], Join(words[1..], "<");
      JoinIsPlain(words[1..]);
      var s := first + "<" + rest;
      assert s[|s| - 1] == rest[|rest| - 1];
      forall i | 0 <= i < |s|
        ensures IsLetter(s[i]) || s[i] == '<'
        ensures i < |s| - 1 ==> !(s[i] == '<' && s[i + 1] == '<')
      {
        if i > |first| {
          assert s[i] == rest[i - |first| - 1];
        }
      }
    }
  }

  /** Behind a plain field the first `<<` is the one that follows it. */
  lemma DoubleFillerAfter(s: string, t: string)
    requires IsPlainField(s)
    requires t == "" || t == "<" || (|t| >= 2 && t[0] == '<' && t[1] == '<')
    ensures DoubleFiller(s + t, 0) == if |t| >= 2 then Some(|s|) else None
  {
    var joined := s + t;
    assert forall i :: 0 <= i < |s| ==> joined[i] == s[i];
    assert forall i :: 0 <= i < |t| ==> joined[|s| + i] == t[i];
    hide DoubleFiller, AllLettersOrFiller;
    var at := DoubleFiller(joined, 0);
    assert at.Some? ==> at.value >= |s| - 1;
  }

  lemma DoubleFillerOfFillers(k: nat)
    ensures DoubleFiller(Fillers(k), 0) == if k >= 2 then Some(0) else None
  {
  }

  /** The two parts the names split into: the fields, each perhaps with one filler of the padding left. */
  lemma SplitNamesOf(surname: string, given: string, k: nat)
    requires IsPlainField(surname) && (given == "" || IsPlainField(given))
    ensures var field := surname + (if given == "" then "" else "<<" + given) + Fillers(k);
      var (first, second) := SplitNames(field);
      (first == surname || first == surname + "<") && (second == given || second == given + "<")
  {
    if given == "" {
      assert surname + "" + Fillers(k) == surname + Fillers(k);
      assert k == 0 ==> Fillers(k) == "";
      assert k == 1 ==> Fillers(k) == "<";
      DoubleFillerAfter(surname, Fillers(k));
      if k >= 2 {
        assert (surname + Fillers(k))[|surname| + 2..] == Fillers(k - 2);
        DoubleFillerOfFillers(k - 2);
        assert k == 2 ==> Fillers(k - 2) == "";
        assert k == 3 ==> Fillers(k - 2) == "<";
      }
    } else {
      var tail := "<<" + given + Fillers(k);
      assert surname + ("<<" + given) + Fillers(k) == surname + tail;
      DoubleFillerAfter(surname, tail);
      assert (surname + tail)[|surname| + 2..] == given + Fillers(k);
      assert k == 0 ==> Fillers(k) == "";
      assert k == 1 ==> Fillers(k) == "<";
      DoubleFillerAfter(given, Fillers(k));
    }
  }

  lemma {:induction false} SplitOfWord(word: string, separator: char)
    requires forall i :: 0 <= i < |word| ==> word[i] != separator
    ensures Split(word, separator) == [word]
  {
    if word != "" {
      SplitOfWord(word[1..], separator);
      assert [word[0]] + word[1..] == word;
    }
  }

  /** Splitting at a separator splits the two sides. */
  lemma {:induction false} SplitConcat(a: string, b: string, separator: char)
    ensures Split(a + ([separator] + b), separator) == Split(a, separator) + Split(b, separator)
  {
    if a == "" {
      assert a + ([separator] + b) == [separator] + b;
      assert ([separator] + b)[1..] == b;
    } else {
      SplitConcat(a[1..], b, separator);
      RestOfConcat(a, [separator] + b);
      RestOfConcat(Split(a[1..], separator), Split(b, separator));
      if a[0] == separator {
        ConcatAssociative([""], Split(a[1..], separator), Split(b, separator));
      } else {
        ConcatAssociative([[a[0]] + Split(a[1..], separator)[0]], Split(a[1..], separator)[1..], Split(b, separator));
      }
    }
  }

  lemma {:induction false} SplitOfJoin(words: seq<string>)
    requires words != [] && AreWords(words)
    ensures Split(Join(words, "<"), '<') == words
  {
    SplitOfWord(words[0], '<');
    if |words| > 1 {
      SplitOfJoin(words[1..]);
      SplitConcat(words[0], Join(words[1..], "<"), '<');
      ConcatAssociative(words[0], "<", Join(words[1..], "<"));
    }
  }

  lemma TrimPlain(s: string)
    requires s != "" && !IsSpace(s[0]) && !IsSpace(s[|s| - 1])
    ensures Trim(s) == s && Trim(s + " ") == s
  {
    assert TrimStart(s + " ") == s + " ";
    assert (s + " ")[..|s|] == s;
    assert TrimEnd(s + " ") == TrimEnd(s) == s;
  }

  lemma {:induction false} TrimmedWords(words: seq<string>)
    requires AreWords(words)
    ensures TrimAll(words) == words && TrimAll(words + [""]) == words + [""]
    ensures NonEmpty(words) == words && NonEmpty(words + [""]) == words
  {
    if words == [] {
      assert Trim("") == "";
    } else {
      TrimPlain(words[0]);
      TrimmedWords(words[1..]);
      assert (words + [""])[1..] == words[1..] + [""];
    }
  }

  /** Given names come back as the words printed. */
  lemma GivensOf(given: seq<string>, part: string)
    requires AreWords(given)
    requires part == Join(given, "<") || part == Join(given, "<") + "<"
    ensures NonEmpty(TrimAll(Split(part, '<'))) == given
  {
    var joined := Join(given, "<");
    TrimmedWords(given);
    assert Split("", '<') == [""];
    if given != [] {
      SplitOfJoin(given);
      SplitConcat(joined, "", '<');
      assert joined + (['<'] + "") == joined + "<";
    } else {
      SplitConcat("", "", '<');
      assert "" + (['<'] + "") == "<";
      assert TrimAll([""]) == [""] && NonEmpty([""]) == [];
      assert TrimAll(["", ""]) == ["", ""] && NonEmpty(["", ""]) == [];
    }
  }

  lemma {:induction false} SpacedJoin(words: seq<string>)
    requires AreWords(words)
    ensures FillersToSpaces(Join(words, "<")) == Join(words, " ")
  {
    if |words| == 1 {
      assert FillersToSpaces(words[0]) == words[0];
    } else if |words| > 1 {
      SpacedJoin(words[1..]);
      var rest := Join(words[1..], "<");
      var s := words[0] + "<" + rest;
      assert FillersToSpaces(s) == words[0] + " " + FillersToSpaces(rest);
    }
  }

  /** What separates words for title case. */
  predicate IsBreak(separator: string) {
    separator == " " || separator == "-"
  }

  lemma {:induction false} JoinEnds(words: seq<string>, separator: string)
    requires words != [] && AreWords(words)
    ensures var s := Join(words, separator);
      s != "" && !IsSpace(s[0]) && !IsSpace(s[|s| - 1])
  {
    if |words| > 1 {
      JoinEnds(words[1..], separator);
      var rest := Join(words[1..], separator);
      var s := words[0] + separator + rest;
      assert s[|s| - 1] == rest[|rest| - 1];
    }
  }

  function LowerAll(words: seq<string>): (r: seq<string>)
    ensures |r| == |words|
    ensures forall i :: 0 <= i < |words| ==> r[i] == Lower(words[i])
  {
    seq(|words|, i requires 0 <= i < |words| => Lower(words[i]))
  }

  lemma {:induction false} LowerOfJoin(words: seq<string>, separator: string)
    requires IsBreak(separator)
    ensures Lower(Join(words, separator)) == Join(LowerAll(words), separator)
  {
    if |words| > 1 {
      LowerOfJoin(words[1..], separator);
      assert LowerAll(words)[1..] == LowerAll(words[1..]);
      var rest := Join(words[1..], separator);
      assert Lower(words[0] + separator + rest) == Lower(words[0]) + separator + Lower(rest);
    }
  }

  predicate NoBreaks(s: string) {
    forall i :: 0 <= i < |s| ==> !IsWordBreak(s[i])
  }

  lemma {:induction false} FirstWordIs(word: string, rest: string)
    requires NoBreaks(word) && (rest == "" || IsWordBreak(rest[0]))
    ensures FirstWord(word + rest) == word
  {
    if word == "" {
      assert word + rest == rest;
    } else {
      FirstWordIs(word[1..], rest);
      assert (word + rest)[1..] == word[1..] + rest;
    }
  }

  lemma {:induction false} WordsOfJoin(words: seq<string>, separator: string)
    requires IsBreak(separator)
    requires forall i :: 0 <= i < |words| ==> words[i] != "" && NoBreaks(words[i])
    ensures Words(Join(words, separator)) == words
  {
    if |words| == 1 {
      FirstWordIs(words[0], "");
      assert words[0] + "" == words[0];
      assert words[0][|words[0]|..] == "";
    } else if |words| > 1 {
      var rest := separator + Join(words[1..], separator);
      WordsOfJoin(words[1..], separator);
      FirstWordIs(words[0], rest);
      var s := words[0] + rest;
      assert s == Join(words, separator);
      hide IsSpace, Join;
      assert s[|words[0]|..] == rest && rest[1..] == Join(words[1..], separator);
    }
  }

  lemma {:induction false} CapitalizedLower(words: seq<string>)
    requires AreWords(words)
    ensures CapitalizeAll(LowerAll(words)) == TitleWords(words)
  {
    if words != [] {
      CapitalizedLower(words[1..]);
      assert LowerAll(words)[1..] == LowerAll(words[1..]);
      assert Lower(words[0])[1..] == Lower(words[0][1..]);
    }
  }

  /** Title case of words between blanks or hyphens: each keeps its first letter and lowers the rest, blanks between. */
  lemma TitleCaseOfWords(words: seq<string>, separator: string)
    requires words != [] && AreWords(words) && IsBreak(separator)
    ensures TitleCaseName(Join(words, separator)) == Join(TitleWords(words), " ")
  {
    JoinEnds(words, separator);
    TrimPlain(Join(words, separator));
    LowerOfJoin(words, separator);
    forall i | 0 <= i < |words|
      ensures LowerAll(words)[i] != "" && NoBreaks(LowerAll(words)[i])
    {
    }
    WordsOfJoin(LowerAll(words), separator);
    CapitalizedLower(words);
  }

  /** The names read from a printed field are the printed names in title case. */
  lemma NamesComeBack(h: Holder, width: nat)
    requires Printable(h, width)
    ensures ParseMrzNames(PadEnd(NameField(h), width)) == ExpectedNames(h)
  {
    hide TitleCaseName, SplitNames, Trim, Words, FirstWord;
    var surname, given := Join(h.surname, "<"), Join(h.given, "<");
    var k := width - |NameField(h)|;
    JoinIsPlain(h.surname);
    if h.given != [] {
      JoinIsPlain(h.given);
    }
    PadEndIs(NameField(h), width);
    SplitNamesOf(surname, given, k);
    var (first, second) := SplitNames(PadEnd(NameField(h), width));
    GivensOf(h.given, second);
    SpacedJoin(h.surname);
    JoinEnds(h.surname, " ");
    TrimPlain(Join(h.surname, " "));
    assert FillersToSpaces(surname + "<") == FillersToSpaces(surname) + " ";
    TitleCaseOfWords(h.surname, " ");
    if h.given != [] {
      TitleCaseOfWords(h.given[..1], " ");
      assert h.given[..1] == [h.given[0]];
      assert TitleWords([h.given[0]]) == [TitleWord(h.given[0])];
      if |h.given| > 1 {
        TitleCaseOfWords(h.given[1..], " ");
      }
    }
  }

  // ---- the columns ----

  lemma {:induction false} DropFillersOf(s: string, k: nat)
    requires NoFiller(s)
    ensures DropFillers(s + Fillers(k)) == s
  {
    if s != "" {
      DropFillersOf(s[1..], k);
      assert (s + Fillers(k))[1..] == s[1..] + Fillers(k);
      assert [s[0]] + s[1..] == s;
    } else {
      assert "" + Fillers(k) == Fillers(k);
      OnlyFillers(k);
    }
  }

  lemma {:induction false} OnlyFillers(k: nat)
    ensures DropFillers(Fillers(k)) == ""
  {
    if k > 0 {
      assert Fillers(k)[1..] == Fillers(k - 1);
      OnlyFillers(k - 1);
    }
  }

  lemma ColumnComesBack(s: string, n: nat)
    requires NoFiller(s) && |s| <= n
    ensures |PadEnd(s, n)| == n && AllMrz(PadEnd(s, n)) && DropFillers(PadEnd(s, n)) == s
  {
    PadEndIs(s, n);
    DropFillersOf(s, n - |s|);
  }

  lemma DayComesBack(d: Day)
    requires IsDay(d)
    ensures |PrintDay(d)| == 6 && AllMrz(PrintDay(d)) && MrzDate(PrintDay(d)) == Some(ExpectedDay(d))
  {
    var s := PrintDay(d);
    assert s[..2] == Digits(d.year % 100, 2) && s[2..4] == Digits(d.month, 2) && s[4..6] == Digits(d.day, 2);
    assert Pow10(2) == 100;
    NumberOfDigits(d.year % 100, 2);
  }

  lemma SexComesBack(sex: Sex)
    ensures |PrintSex(sex)| == 1 && AllMrz(PrintSex(sex)) && MrzSex(PrintSex(sex)) == ExpectedSex(sex)
  {
  }

  lemma NameFieldIsMrz(h: Holder, width: nat)
    requires Printable(h, width)
    ensures |PadEnd(NameField(h), width)| == width && AllLettersOrFiller(PadEnd(NameField(h), width))
  {
    JoinIsPlain(h.surname);
    if h.given != [] {
      JoinIsPlain(h.given);
    }
    PadEndIs(NameField(h), width);
  }

  /** The columns of a passport's second line, and of its first. */
  lemma PassportColumns(number: string, c1: char, nation: string, birth: string, c2: char, sex: string, expiry: string,
                        c3: char, optional: string, last: string)
    requires |number| == 9 && |nation| == 3 && |birth| == 6 && |sex| == 1 && |expiry| == 6
    requires |optional| == 14 && |last| == 2
    requires AllMrz(number) && AllMrz(nation) && AllMrz(birth) && AllMrz(sex) && AllMrz(expiry)
    requires AllMrz(optional) && AllMrz(last)
    requires IsMrzChar(c1) && IsMrzChar(c2) && IsMrzChar(c3)
    ensures var line := number + [c1] + nation + birth + [c2] + sex + expiry + [c3] + optional + last;
      && |line| == 44 && AllMrz(line)
      && Slice(line, 0, 9) == number && Slice(line, 10, 13) == nation && Slice(line, 13, 19) == birth
      && Slice(line, 20, 21) == sex && Slice(line, 21, 27) == expiry
  {
    hide IsMrzChar;
  }

  lemma NameLineColumns(subtype: char, issuer: string, names: string)
    requires |issuer| == 3 && AllMrz(issuer) && |names| == 39 && AllMrz(names) && IsMrzChar(subtype)
    ensures var line := "P" + [subtype] + issuer + names;
      |line| == 44 && AllMrz(line) && line[0] == 'P' && line[5..] == names && Slice(line, 2, 5) == issuer
  {
  }

  lemma Td3Columns(h: Holder, f: Fill)
    requires Printable(h, 39) && IsFill(f, 14, 2)
    ensures var line1, line2 := Td3Line1(h, f), Td3Line2(h, f);
      && |line1| == 44 && AllMrz(line1) && line1[0] == 'P' && line1[5..] == PadEnd(NameField(h), 39)
      && Slice(line1, 2, 5) == PadEnd(h.issuer, 3)
      && |line2| == 44 && AllMrz(line2)
      && Slice(line2, 0, 9) == PadEnd(h.number, 9) && Slice(line2, 10, 13) == PadEnd(h.nationality, 3)
      && Slice(line2, 13, 19) == PrintDay(h.birth) && Slice(line2, 20, 21) == PrintSex(h.sex)
      && Slice(line2, 21, 27) == PrintDay(h.expiry)
  {
    ColumnComesBack(h.issuer, 3);
    ColumnComesBack(h.number, 9);
    ColumnComesBack(h.nationality, 3);
    NamesAreMrz(h, 39);
    DayComesBack(h.birth);
    DayComesBack(h.expiry);
    SexComesBack(h.sex);
    hide PadEnd, NameField, PrintDay, PrintSex, Slice, AllMrz;
    NameLineColumns(f.subtype, PadEnd(h.issuer, 3), PadEnd(NameField(h), 39));
    PassportColumns(PadEnd(h.number, 9), f.numberCheck, PadEnd(h.nationality, 3), PrintDay(h.birth), f.birthCheck,
                    PrintSex(h.sex), PrintDay(h.expiry), f.expiryCheck, f.optional, f.last);
  }

  lemma NamesAreMrz(h: Holder, width: nat)
    requires Printable(h, width)
    ensures |PadEnd(NameField(h), width)| == width && AllMrz(PadEnd(NameField(h), width))
  {
    NameFieldIsMrz(h, width);
  }

  /** Reading the two printed lines of a passport gives the holder's data, up to title case and the century rule. */
  lemma Td3RoundTrip(h: Holder, f: Fill)
    requires Printable(h, 39) && IsFill(f, 14, 2)
    ensures ParseMrzTd3(Td3Line1(h, f), Td3Line2(h, f)) == Some(ExpectedPassport(h))
  {
    hide Td3Line1, Td3Line2, Slice, PadEnd, NameField, PrintDay, PrintSex, ParseMrzNames, MrzDate, MrzSex, DropFillers;
    Td3Columns(h, f);
    NamesComeBack(h, 39);
    ColumnComesBack(h.issuer, 3);
    ColumnComesBack(h.number, 9);
    ColumnComesBack(h.nationality, 3);
    DayComesBack(h.birth);
    DayComesBack(h.expiry);
    SexComesBack(h.sex);
  }

  /** The columns of an identity card's first two lines. */
  lemma CardColumns(kind: char, subtype: char, issuer: string, number: string, c1: char, optional: string)
    requires |issuer| == 3 && |number| == 9 && |optional| == 15 && AllMrz(issuer) && AllMrz(number) && AllMrz(optional)
    requires IsMrzChar(kind) && IsMrzChar(subtype) && IsMrzChar(c1)
    ensures var line := [kind] + [subtype] + issuer + number + [c1] + optional;
      |line| == 30 && AllMrz(line) && line[0] == kind && Slice(line, 5, 14) == number
  {
    hide IsMrzChar;
  }

  lemma CardDayColumns(birth: string, c2: char, sex: string, expiry: string, c3: char, nation: string, last: string)
    requires |birth| == 6 && |sex| == 1 && |expiry| == 6 && |nation| == 3 && |last| == 12
    requires AllMrz(birth) && AllMrz(sex) && AllMrz(expiry) && AllMrz(nation) && AllMrz(last)
    requires IsMrzChar(c2) && IsMrzChar(c3)
    ensures var line := birth + [c2] + sex + expiry + [c3] + nation + last;
      && |line| == 30 && AllMrz(line)
      && Slice(line, 0, 6) == birth && Slice(line, 7, 8) == sex
      && Slice(line, 8, 14) == expiry && Slice(line, 15, 18) == nation
  {
    hide IsMrzChar;
  }

  lemma Td1Columns(kind: char, h: Holder, f: Fill)
    requires kind in {'A', 'C', 'I'} && Printable(h, 30) && IsFill(f, 15, 12)
    ensures var line1, line2, line3 := Td1Line1(kind, h, f), Td1Line2(h, f), Td1Line3(h);
      && |line1| == 30 && AllMrz(line1) && line1[0] == kind && Slice(line1, 5, 14) == PadEnd(h.number, 9)
      && |line2| == 30 && AllMrz(line2)
      && Slice(line2, 0, 6) == PrintDay(h.birth) && Slice(line2, 7, 8) == PrintSex(h.sex)
      && Slice(line2, 8, 14) == PrintDay(h.expiry) && Slice(line2, 15, 18) == PadEnd(h.nationality, 3)
      && |line3| == 30 && AllMrz(line3)
  {
    ColumnComesBack(h.issuer, 3);
    ColumnComesBack(h.number, 9);
    ColumnComesBack(h.nationality, 3);
    NamesAreMrz(h, 30);
    DayComesBack(h.birth);
    DayComesBack(h.expiry);
    SexComesBack(h.sex);
    hide PadEnd, NameField, PrintDay, PrintSex, Slice, AllMrz;
    CardColumns(kind, f.subtype, PadEnd(h.issuer, 3), PadEnd(h.number, 9), f.numberCheck, f.optional);
    CardDayColumns(PrintDay(h.birth), f.birthCheck, PrintSex(h.sex), PrintDay(h.expiry), f.expiryCheck,
                   PadEnd(h.nationality, 3), f.last);
  }

  /** Likewise the three lines of an identity card; the country is read from the nationality. */
  lemma Td1RoundTrip(kind: char, h: Holder, f: Fill)
    requires kind in {'A', 'C', 'I'} && Printable(h, 30) && IsFill(f, 15, 12)
    ensures ParseMrzTd1(Td1Line1(kind, h, f), Td1Line2(h, f), Td1Line3(h)) == Some(ExpectedId(h))
  {
    hide Td1Line1, Td1Line2, Slice, PadEnd, NameField, PrintDay, PrintSex, ParseMrzNames, MrzDate, MrzSex, DropFillers;
    Td1Columns(kind, h, f);
    NamesComeBack(h, 30);
    ColumnComesBack(h.number, 9);
    ColumnComesBack(h.nationality, 3);
    DayComesBack(h.birth);
    DayComesBack(h.expiry);
    SexComesBack(h.sex);
  }

  /** The country read from a card is the issuer printed on it exactly when that is also the holder's nationality. */
  lemma CardCountry(kind: char, h: Holder, f: Fill)
    requires kind in {'A', 'C', 'I'} && Printable(h, 30) && IsFill(f, 15, 12)
    ensures var parsed := ParseMrzTd1(Td1Line1(kind, h, f), Td1Line2(h, f), Td1Line3(h));
      parsed.Some? && (parsed.value.idCountry == Truthy(h.issuer) <==> h.issuer == h.nationality)
  {
    hide ParseMrzTd1, Td1Line1, Td1Line2, Td1Line3;
    Td1RoundTrip(kind, h, f);
  }

  // ---- from the reader's text to the lines ----

  /** Line ends as readers send them: any run of carriage returns and newlines. */
  predicate IsLineEnd(s: string) {
    forall i :: 0 <= i < |s| ==> s[i] == '\n' || s[i] == '\r'
  }

  lemma {:induction false} KeepMrzLinesConcat(a: seq<string>, b: seq<string>)
    ensures KeepMrzLines(a + b) == KeepMrzLines(a) + KeepMrzLines(b)
  {
    hide Trim, Upper, KeepMrzLine;
    if a == [] {
      assert a + b == b;
    } else {
      KeepMrzLinesConcat(a[1..], b);
      assert (a + b)[1..] == a[1..] + b && (a + b)[0] == a[0];
    }
  }

  /** A line end separates the lines before it from those after it. */
  lemma MrzLinesConcat(a: string, end: char, b: string)
    requires end == '\n' || end == '\r'
    ensures MrzLines(a + ([end] + b)) == MrzLines(a) + MrzLines(b)
  {
    hide Split, KeepMrzLines;
    var first, second := ReturnsToNewlines(a), ReturnsToNewlines(b);
    assert ReturnsToNewlines(a + ([end] + b)) == first + (['\n'] + second);
    SplitConcat(first, second, '\n');
    KeepMrzLinesConcat(Split(first, '\n'), Split(second, '\n'));
  }

  /** A line as a reader sends it: the characters in letters of either case, with blanks around them. */
  datatype Sent = Sent(before: string, body: string, after: string)

  function TextOf(sent: Sent): string {
    sent.before + sent.body + sent.after
  }

  predicate NoLineEnd(s: string) {
    forall i :: 0 <= i < |s| ==> s[i] != '\n' && s[i] != '\r'
  }

  predicate Sends(sent: Sent, line: string) {
    && AllSpace(sent.before) && AllSpace(sent.after) && NoLineEnd(sent.before) && NoLineEnd(sent.after)
    && |sent.body| == |line|
    && (forall i :: 0 <= i < |line| ==>
          sent.body[i] == line[i] || ('a' <= sent.body[i] <= 'z' && UpperChar(sent.body[i]) == line[i]))
  }

  lemma OneLineAlone(text: string)
    requires NoLineEnd(text)
    ensures MrzLines(text) == KeepMrzLine(Upper(Trim(text)))
  {
    hide Split, Trim, Upper, KeepMrzLine;
    assert ReturnsToNewlines(text) == text;
    SplitOfWord(text, '\n');
    assert KeepMrzLines([text]) == KeepMrzLine(Upper(Trim(text))) + KeepMrzLines([]);
    assert KeepMrzLine(Upper(Trim(text))) + [] == KeepMrzLine(Upper(Trim(text)));
  }

  lemma SentLineIsKept(sent: Sent, line: string)
    requires IsMrzLine(line) && Sends(sent, line)
    ensures NoLineEnd(TextOf(sent)) && MrzLines(TextOf(sent)) == [line]
  {
    SentBody(sent, line);
    TrimOf(sent.before, sent.body, sent.after);
    OneLineAlone(TextOf(sent));
  }

  lemma SentBody(sent: Sent, line: string)
    requires IsMrzLine(line) && Sends(sent, line)
    ensures Upper(sent.body) == line && NoLineEnd(TextOf(sent))
    ensures sent.body != "" && !IsSpace(sent.body[0]) && !IsSpace(sent.body[|sent.body| - 1])
  {
    var body, n := sent.body, |sent.body|;
    forall i | 0 <= i < n
      ensures UpperChar(body[i]) == line[i] && !IsSpace(body[i]) && body[i] != '\n' && body[i] != '\r'
    {
      assert IsMrzChar(line[i]);
      SpaceExamples(body[i]);
    }
    hide IsSpace;
    var text := TextOf(sent);
    assert Upper(body) == line;
    forall i | 0 <= i < |text|
      ensures text[i] != '\n' && text[i] != '\r'
    {
      if i < |sent.before| {
        assert text[i] == sent.before[i];
      } else if i < |sent.before| + n {
        assert text[i] == body[i - |sent.before|];
      } else {
        assert text[i] == sent.after[i - |sent.before| - n];
      }
    }
  }

  /** Lines that are too short, or hold another character, are no zone lines and are passed over. */
  lemma NoiseIsDropped(noise: string)
    requires NoLineEnd(noise)
    requires |Trim(noise)| < 20 || exists i :: 0 <= i < |Trim(noise)| && !IsMrzChar(UpperChar(Trim(noise)[i]))
    ensures MrzLines(noise) == []
  {
    OneLineAlone(noise);
    var trimmed := Trim(noise);
    if i :| 0 <= i < |trimmed| && !IsMrzChar(UpperChar(trimmed[i])) {
      assert !IsMrzChar(Upper(trimmed)[i]);
    }
  }

  lemma PlainlySent(line: string)
    ensures Sends(Sent("", line, ""), line) && TextOf(Sent("", line, "")) == line
  {
    assert "" + line + "" == line;
  }

  lemma NothingIsNotKept()
    ensures MrzLines("") == []
  {
    assert Split(ReturnsToNewlines(""), '\n') == [""];
    assert Trim("") == "" && Upper("") == "";
  }

  lemma {:induction false} LineEndsAreDropped(end: string, rest: string)
    requires IsLineEnd(end)
    ensures MrzLines(end + rest) == MrzLines(rest)
  {
    hide MrzLines;
    if end == "" {
      assert end + rest == rest;
    } else {
      LineEndsAreDropped(end[1..], rest);
      MrzLinesConcat("", end[0], end[1..] + rest);
      assert "" + ([end[0]] + (end[1..] + rest)) == [end[0]] + (end[1..] + rest);
      RestOfConcat(end, rest);
      ConcatAssociative([end[0]], end[1..], rest);
      NothingIsNotKept();
    }
  }

  /** A text with no line end in it, then a line end, then the rest: their zone lines one after the other. */
  lemma LineThenRest(text: string, end: string, rest: string)
    requires IsLineEnd(end) && (end != "" || rest == "")
    ensures MrzLines(text + end + rest) == MrzLines(text) + MrzLines(rest)
  {
    hide MrzLines;
    NothingIsNotKept();
    if end == "" {
      assert text + end + rest == text;
      assert MrzLines(text) + [] == MrzLines(text);
    } else {
      MrzLinesConcat(text, end[0], end[1..] + rest);
      RestOfConcat(end, rest);
      ConcatAssociative([end[0]], end[1..], rest);
      ConcatAssociative(text, end, rest);
      LineEndsAreDropped(end[1..], rest);
    }
  }

  lemma TwoTexts(text1: string, end1: string, text2: string, end2: string)
    requires IsLineEnd(end1) && end1 != "" && IsLineEnd(end2)
    ensures MrzLines(text1 + end1 + text2 + end2) == MrzLines(text1) + MrzLines(text2)
  {
    hide MrzLines, IsLineEnd;
    LineThenRest(text2, end2, "");
    NothingIsNotKept();
    assert text2 + end2 + "" == text2 + end2 && MrzLines(text2) + [] == MrzLines(text2);
    LineThenRest(text1, end1, text2 + end2);
    assert text1 + end1 + (text2 + end2) == text1 + end1 + text2 + end2;
  }

  /**
   * Round trip through parseMrz: a printed passport, with whatever line ends, blanks around the lines and
   * letter case the reader sends.
   */
  lemma PassportRoundTrip(h: Holder, f: Fill, sent1: Sent, end1: string, sent2: Sent, end2: string)
    requires Printable(h, 39) && IsFill(f, 14, 2)
    requires Sends(sent1, Td3Line1(h, f)) && Sends(sent2, Td3Line2(h, f))
    requires IsLineEnd(end1) && end1 != "" && IsLineEnd(end2)
    ensures ParseMrz(TextOf(sent1) + end1 + TextOf(sent2) + end2) == Some(ExpectedPassport(h))
  {
    hide Td3Line1, Td3Line2, MrzLines, ParseMrzTd3, Slice, PadEnd, IsLineEnd, Sends, TextOf, Printable, IsFill;
    var line1, line2 := Td3Line1(h, f), Td3Line2(h, f);
    Td3Columns(h, f);
    SentLineIsKept(sent1, line1);
    SentLineIsKept(sent2, line2);
    TwoTexts(TextOf(sent1), end1, TextOf(sent2), end2);
    assert PadEnd(line1, 44)[..44] == line1 && PadEnd(line2, 44)[..44] == line2;
    Td3RoundTrip(h, f);
  }

  /** The fillers at the end of the first line may be missing, and more may follow the second line. */
  lemma RaggedPassport(h: Holder, f: Fill, n: nat, more: string)
    requires Printable(h, 39) && IsFill(f, 14, 2) && AllMrz(more)
    requires 20 <= n <= 44 && forall i :: n <= i < |Td3Line1(h, f)| ==> Td3Line1(h, f)[i] == '<'
    requires n <= |Td3Line1(h, f)|
    ensures ParseMrz(Td3Line1(h, f)[..n] + "\n" + (Td3Line2(h, f) + more)) == Some(ExpectedPassport(h))
  {
    hide Td3Line1, Td3Line2, MrzLines, ParseMrzTd3, Slice, IsLineEnd, Sends, TextOf, Printable, IsFill;
    var line1, line2 := Td3Line1(h, f), Td3Line2(h, f);
    Td3Columns(h, f);
    AllMrzConcat(line2, more);
    PlainlySent(line1[..n]);
    PlainlySent(line2 + more);
    SentLineIsKept(Sent("", line1[..n], ""), line1[..n]);
    SentLineIsKept(Sent("", line2 + more, ""), line2 + more);
    LineEnds();
    TwoTexts(line1[..n], "\n", line2 + more, "");
    var text := line1[..n] + "\n" + (line2 + more);
    assert text + "" == text;
    assert PadEnd(line1[..n], 44)[..44] == line1;
    assert PadEnd(line2 + more, 44)[..44] == line2;
    Td3RoundTrip(h, f);
  }

  lemma LineEnds()
    ensures IsLineEnd("\n") && IsLineEnd("")
  {
  }

  lemma ThreeTexts(text1: string, end1: string, text2: string, end2: string, text3: string, end3: string)
    requires IsLineEnd(end1) && end1 != "" && IsLineEnd(end2) && end2 != "" && IsLineEnd(end3)
    ensures MrzLines(text1 + end1 + text2 + end2 + text3 + end3) == MrzLines(text1) + MrzLines(text2) + MrzLines(text3)
  {
    hide MrzLines, IsLineEnd;
    var rest := text2 + end2 + text3 + end3;
    TwoTexts(text2, end2, text3, end3);
    LineThenRest(text1, end1, rest);
    assert text1 + end1 + rest == text1 + end1 + text2 + end2 + text3 + end3;
    ConcatAssociative(MrzLines(text1), MrzLines(text2), MrzLines(text3));
  }

  /** Round trip through parseMrz: a printed identity card. */
  lemma IdCardRoundTrip(kind: char, h: Holder, f: Fill, sent1: Sent, end1: string, sent2: Sent, end2: string,
                        sent3: Sent, end3: string)
    requires kind in {'A', 'C', 'I'} && Printable(h, 30) && IsFill(f, 15, 12)
    requires Sends(sent1, Td1Line1(kind, h, f)) && Sends(sent2, Td1Line2(h, f)) && Sends(sent3, Td1Line3(h))
    requires IsLineEnd(end1) && end1 != "" && IsLineEnd(end2) && end2 != "" && IsLineEnd(end3)
    ensures ParseMrz(TextOf(sent1) + end1 + TextOf(sent2) + end2 + TextOf(sent3) + end3) == Some(ExpectedId(h))
  {
    hide Td1Line1, Td1Line2, Td1Line3, MrzLines, ParseMrzTd1, Slice, PadEnd, IsLineEnd, Sends, TextOf;
    hide Printable, IsFill;
    Td1Columns(kind, h, f);
    SentLineIsKept(sent1, Td1Line1(kind, h, f));
    SentLineIsKept(sent2, Td1Line2(h, f));
    SentLineIsKept(sent3, Td1Line3(h));
    ThreeTexts(TextOf(sent1), end1, TextOf(sent2), end2, TextOf(sent3), end3);
    Td1RoundTrip(kind, h, f);
  }

  /** Zones of other documents are refused, as are cards of two lines and passports with a short second line. */
  lemma OtherZonesAreRefused(line1: string, line2: string)
    requires IsMrzLine(line1) && IsMrzLine(line2)
    requires line1[0] == 'P' ==> |line2| < 44
    ensures ParseMrz(line1 + "\n" + line2) == None
  {
    hide MrzLines, IsMrzLine;
    PlainlySent(line1);
    PlainlySent(line2);
    SentLineIsKept(Sent("", line1, ""), line1);
    SentLineIsKept(Sent("", line2, ""), line2);
    LineEnds();
    TwoTexts(line1, "\n", line2, "");
    var text := line1 + "\n" + line2;
    assert text + "" == text;
  }

  /** Three lines are a card only when the first starts with A, C or I. */
  lemma OtherCardsAreRefused(line1: string, line2: string, line3: string)
    requires IsMrzLine(line1) && IsMrzLine(line2) && IsMrzLine(line3)
    requires line1[0] !in {'A', 'C', 'I'} && (line1[0] == 'P' ==> |line2| < 44)
    ensures ParseMrz(line1 + "\n" + line2 + "\n" + line3) == None
  {
    hide MrzLines, IsMrzLine;
    PlainlySent(line1);
    PlainlySent(line2);
    PlainlySent(line3);
    SentLineIsKept(Sent("", line1, ""), line1);
    SentLineIsKept(Sent("", line2, ""), line2);
    SentLineIsKept(Sent("", line3, ""), line3);
    LineEnds();
    ThreeTexts(line1, "\n", line2, "\n", line3, "");
    var text := line1 + "\n" + line2 + "\n" + line3;
    assert text + "" == text;
  }

  /** An empty column gives nothing; the country is the issuer, or for want of one the nationality. */
  lemma PassportColumnsRead(h: Holder, f: Fill)
    requires Printable(h, 39) && IsFill(f, 14, 2)
    ensures var parsed := ParseMrzTd3(Td3Line1(h, f), Td3Line2(h, f));
      && parsed.Some?
      && parsed.value.idNumber == (if h.number == "" then None else Some(h.number))
      && parsed.value.nationality == (if h.nationality == "" then None else Some(h.nationality))
      && parsed.value.idCountry == (if h.issuer != "" then Some(h.issuer)
                                    else if h.nationality != "" then Some(h.nationality) else None)
  {
    hide ParseMrzTd3, Td3Line1, Td3Line2;
    Td3RoundTrip(h, f);
  }

  // ---- the single-line paste ----

  lemma {:induction false} SpreadOfItself(s: string)
    requires AllMrz(s)
    ensures SpreadOf(s, s)
  {
    if s != "" {
      SpaceExamples(s[0]);
      assert IsMrzChar(s[0]);
      SpreadOfItself(s[1..]);
    }
  }

  lemma AtMostOneLine(raw: string)
    requires forall i :: 0 <= i < |raw| ==> raw[i] != '\n' && raw[i] != '\r'
    ensures |MrzLines(raw)| <= 1
  {
    assert ReturnsToNewlines(raw) == raw;
    SplitOfWord(raw, '\n');
    assert KeepMrzLines([]) == [];
  }

  /** The text with blanks inserted anywhere and letters in either case. */
  predicate SpreadOf(raw: string, text: string) {
    if raw == "" then text == ""
    else if IsSpace(raw[0]) then SpreadOf(raw[1..], text)
    else text != "" && UpperChar(raw[0]) == text[0] && SpreadOf(raw[1..], text[1..])
  }

  lemma {:induction false} SpreadComesBack(raw: string, text: string)
    requires SpreadOf(raw, text)
    ensures Upper(DropSpaces(raw)) == text
  {
    hide IsSpace, UpperChar;
    if raw != "" {
      if IsSpace(raw[0]) {
        SpreadComesBack(raw[1..], text);
        assert "" + DropSpaces(raw[1..]) == DropSpaces(raw[1..]);
      } else {
        SpreadComesBack(raw[1..], text[1..]);
        assert DropSpaces(raw) == [raw[0]] + DropSpaces(raw[1..]);
        hide *;
        UpperOfCons(raw[0], DropSpaces(raw[1..]));
        assert [text[0]] + text[1..] == text;
      }
    }
  }

  lemma UpperOfCons(c: char, s: string)
    ensures Upper([c] + s) == [UpperChar(c)] + Upper(s)
  {
  }

  /** Pasted as one line, blanks anywhere, a passport reads the same exactly when its issuer fills three letters. */
  lemma CompactPassport(h: Holder, f: Fill, raw: string)
    requires Printable(h, 39) && IsFill(f, 14, 2)
    requires NoLineEnd(raw) && SpreadOf(raw, Td3Line1(h, f) + Td3Line2(h, f))
    ensures ParseMrz(raw) == if |h.issuer| == 3 then Some(ExpectedPassport(h)) else None
  {
    hide MrzLines, ParseMrzTd3, DropSpaces, Td3Line1, Td3Line2, ExpectedPassport, IsCompactTd3, Printable, IsFill;
    hide Slice, PadEnd, NameField, PrintDay, PrintSex, SpreadOf;
    AtMostOneLine(raw);
    SpreadComesBack(raw, Td3Line1(h, f) + Td3Line2(h, f));
    Td3Columns(h, f);
    CompactHalves(Td3Line1(h, f), Td3Line2(h, f));
    CompactForm(h, f);
    Td3RoundTrip(h, f);
  }

  const EXAMPLE_HOLDER :=
    Holder(["MUSTERMANN"], ["ERIKA"], "C01X00T47", "D", "UTO", Day(1964, 8, 12), Female, Day(2027, 2, 28))
  const EXAMPLE_FILL := Fill('<', '6', '9', '4', "<<<<<<<<<<<<<<", "<2")

  /** A passport issued by "D" reads from its two lines and is lost when the same characters are pasted as one. */
  lemma OneLetterIssuerIsLost()
    ensures var line1, line2 := Td3Line1(EXAMPLE_HOLDER, EXAMPLE_FILL), Td3Line2(EXAMPLE_HOLDER, EXAMPLE_FILL);
      && ParseMrz(line1 + line2) == None
      && ParseMrz(line1 + "\n" + line2 + "") == Some(ExpectedPassport(EXAMPLE_HOLDER))
  {
    var h, f := EXAMPLE_HOLDER, EXAMPLE_FILL;
    ExampleIsPrintable();
    hide Printable, IsFill, ParseMrz, Td3Line1, Td3Line2, PadEnd, NameField, Slice, DropSpaces, SpreadOf;
    var line1, line2 := Td3Line1(h, f), Td3Line2(h, f);
    Td3Columns(h, f);
    AllMrzConcat(line1, line2);
    SpreadOfItself(line1 + line2);
    CompactPassport(h, f, line1 + line2);
    PlainlySent(line1);
    PlainlySent(line2);
    PassportRoundTrip(h, f, Sent("", line1, ""), "\n", Sent("", line2, ""), "");
  }

  const EXAMPLE_CARD_FILL := Fill('<', '6', '9', '4', "<<<<<<<<<<<<<<<", "<<<<<<<<<<<2")

  /** The same holder's card, issued by "D", reads as issued by the nationality, "UTO". */
  lemma CardIssuerIsLost()
    ensures var h, f := EXAMPLE_HOLDER, EXAMPLE_CARD_FILL;
      var parsed := ParseMrzTd1(Td1Line1('I', h, f), Td1Line2(h, f), Td1Line3(h));
      parsed.Some? && parsed.value.idCountry == Some("UTO") && h.issuer == "D"
  {
    var h, f := EXAMPLE_HOLDER, EXAMPLE_CARD_FILL;
    CardIsPrintable();
    hide Printable, IsFill, ParseMrzTd1, Td1Line1, Td1Line2, Td1Line3;
    Td1RoundTrip('I', h, f);
  }

  lemma CardIsPrintable()
    ensures Printable(EXAMPLE_HOLDER, 30) && IsFill(EXAMPLE_CARD_FILL, 15, 12)
  {
    ExampleIsPrintable();
    assert |NameField(EXAMPLE_HOLDER)| == 17 by {
      assert Join(["MUSTERMANN"], "<") == "MUSTERMANN" && Join(["ERIKA"], "<") == "ERIKA";
    }
  }

  lemma AllMrzConcat(a: string, b: string)
    requires AllMrz(a) && AllMrz(b)
    ensures AllMrz(a + b)
    ensures forall i :: 0 <= i < |a + b| ==> (a + b)[i] != '\n' && (a + b)[i] != '\r'
  {
    var joined := a + b;
    assert forall i :: 0 <= i < |a| ==> joined[i] == a[i];
    assert forall i :: 0 <= i < |b| ==> joined[|a| + i] == b[i];
  }

  lemma ExampleIsPrintable()
    ensures Printable(EXAMPLE_HOLDER, 39) && IsFill(EXAMPLE_FILL, 14, 2)
  {
    var surname, given := "MUSTERMANN", "ERIKA";
    assert IsWord(surname) && IsWord(given);
    assert Join([surname], "<") == surname && Join([given], "<") == given;
  }

  lemma CompactHalves(line1: string, line2: string)
    requires |line1| == 44 && AllMrz(line1) && AllMrz(line2)
    ensures var compact := line1 + line2;
      Upper(compact) == compact && compact[..44] == line1 && compact[44..] == line2
  {
  }

  lemma CompactForm(h: Holder, f: Fill)
    requires Printable(h, 39) && IsFill(f, 14, 2)
    ensures IsCompactTd3(Td3Line1(h, f) + Td3Line2(h, f)) <==> |h.issuer| == 3
  {
    hide Td3Line1, Td3Line2, PadEnd, NameField, Slice;
    var line1, line2 := Td3Line1(h, f), Td3Line2(h, f);
    var compact := line1 + line2;
    Td3Columns(h, f);
    NameFieldIsMrz(h, 39);
    IssuerColumns(h, f);
    assert compact[..44] == line1 && compact[44..] == line2;
    assert compact[5..44] == line1[5..];
    assert forall i :: 0 <= i < 5 ==> compact[i] == line1[i];
  }

  lemma IssuerColumns(h: Holder, f: Fill)
    requires Printable(h, 39)
    ensures var line1 := Td3Line1(h, f);
      |line1| >= 5 && line1[1] == f.subtype
      && ((IsLetter(line1[2]) && IsLetter(line1[3]) && IsLetter(line1[4])) <==> |h.issuer| == 3)
  {
    var issuer := PadEnd(h.issuer, 3);
    PadEndIs(h.issuer, 3);
    var line1 := Td3Line1(h, f);
    assert line1[1] == f.subtype;
    assert line1[2] == issuer[0] && line1[3] == issuer[1] && line1[4] == issuer[2];
  }

  // ---- the specimens of Doc 9303 ----

  const SPECIMEN :=
    Holder(["ERIKSSON"], ["ANNA", "MARIA"], "L898902C3", "UTO", "UTO", Day(1974, 8, 12), Female, Day(2012, 4, 15))
  const SPECIMEN_FILL := Fill('<', '6', '2', '9', "ZE184226B<<<<<", "10")
  const CARD_SPECIMEN := SPECIMEN.(number := "D23145890")
  const CARD_SPECIMEN_FILL := Fill('<', '7', '2', '9', "<<<<<<<<<<<<<<<", "<<<<<<<<<<<6")

  const SPECIMEN_NAMES := Names(Some("Eriksson"), Some("Anna"), Some("Maria"))

  lemma SpecimenNameField()
    ensures NameField(SPECIMEN) == "ERIKSSON<<ANNA<MARIA" && AreWords(SPECIMEN.surname) && AreWords(SPECIMEN.given)
  {
    var anna, maria := "ANNA", "MARIA";
    assert IsWord("ERIKSSON") && IsWord(anna) && IsWord(maria);
    assert [anna, maria][1..] == [maria];
    assert Join([anna, maria], "<") == "ANNA<MARIA";
  }

  lemma SpecimensArePrintable()
    ensures Printable(SPECIMEN, 39) && IsFill(SPECIMEN_FILL, 14, 2)
    ensures Printable(CARD_SPECIMEN, 30) && IsFill(CARD_SPECIMEN_FILL, 15, 12)
  {
    SpecimenNameField();
    hide NameField, AreWords;
    assert NameField(CARD_SPECIMEN) == NameField(SPECIMEN) by {
      SameNames(SPECIMEN, CARD_SPECIMEN);
    }
  }

  lemma SameNames(a: Holder, b: Holder)
    requires a.surname == b.surname && a.given == b.given
    ensures NameField(a) == NameField(b) && ExpectedNames(a) == ExpectedNames(b)
  {
  }

  lemma SpecimenDays()
    ensures PrintDay(Day(1974, 8, 12)) == "740812" && PrintDay(Day(2012, 4, 15)) == "120415"
    ensures ExpectedDay(Day(1974, 8, 12)) == "1974-08-12" && ExpectedDay(Day(2012, 4, 15)) == "2012-04-15"
  {
    SpecimenDigits();
    hide Digits;
    assert "74" + "08" + "12" == "740812" && "12" + "04" + "15" == "120415";
    assert "1974" + "-" + "08" + "-" + "12" == "1974-08-12" && "2012" + "-" + "04" + "-" + "15" == "2012-04-15";
  }

  lemma SpecimenDigits()
    ensures Digits(74, 2) == "74" && Digits(8, 2) == "08" && Digits(12, 2) == "12" && Digits(4, 2) == "04"
    ensures Digits(15, 2) == "15" && Digits(1974, 4) == "1974" && Digits(2012, 4) == "2012"
  {
  }

  lemma TitleAnna()
    ensures TitleWord("ANNA") == "Anna"
  {
    assert "ANNA"[1..] == "NNA" && Lower("NNA") == "nna";
  }

  lemma TitleMaria()
    ensures TitleWord("MARIA") == "Maria"
  {
    assert "MARIA"[1..] == "ARIA" && Lower("ARIA") == "aria";
  }

  lemma LowerConcat(a: string, b: string)
    ensures Lower(a + b) == Lower(a) + Lower(b)
  {
  }

  lemma LowerRiksson()
    ensures Lower("RIK" + "SSON") == "rik" + "sson"
  {
    LowerConcat("RIK", "SSON");
    assert Lower("RIK") == "rik";
    assert Lower("SSON") == "sson";
    hide *;
  }

  lemma TitleEriksson()
    ensures TitleWord("ERIKSSON") == "Eriksson"
  {
    LowerRiksson();
    hide Lower;
    assert "ERIKSSON"[1..] == "RIK" + "SSON";
    assert ['E'] + ("rik" + "sson") == "Eriksson";
  }

  lemma SpecimenExpectedNames()
    ensures ExpectedNames(SPECIMEN) == SPECIMEN_NAMES
  {
    TitleAnna();
    TitleMaria();
    TitleEriksson();
    hide TitleWord;
    assert ["ANNA", "MARIA"][1..] == ["MARIA"];
    assert TitleWords(["ERIKSSON"]) == ["Eriksson"] && TitleWords(["MARIA"]) == ["Maria"];
  }

  /** The specimens, column by column. */
  const PASSPORT_LINE_1 := "P" + "<" + "UTO" + ("ERIKSSON<<ANNA<MARIA" + "<<<<<<<<<<<<<<<<<<<")
  const PASSPORT_LINE_2 :=
    "L898902C3" + "6" + "UTO" + "740812" + "2" + "F" + "120415" + "9" + "ZE184226B<<<<<" + "10"
  const CARD_LINE_1 := "I" + "<" + "UTO" + "D23145890" + "7" + "<<<<<<<<<<<<<<<"
  const CARD_LINE_2 := "740812" + "2" + "F" + "120415" + "9" + "UTO" + "<<<<<<<<<<<6"
  const CARD_LINE_3 := "ERIKSSON<<ANNA<MARIA" + "<<<<<<<<<<"

  lemma SpecimenColumns()
    ensures PadEnd("UTO", 3) == "UTO" && PadEnd("L898902C3", 9) == "L898902C3" && PadEnd("D23145890", 9) == "D23145890"
    ensures PadEnd("ERIKSSON<<ANNA<MARIA", 39) == "ERIKSSON<<ANNA<MARIA" + "<<<<<<<<<<<<<<<<<<<"
    ensures PadEnd("ERIKSSON<<ANNA<MARIA", 30) == "ERIKSSON<<ANNA<MARIA" + "<<<<<<<<<<"
  {
    PadEndIs("ERIKSSON<<ANNA<MARIA", 39);
    PadEndIs("ERIKSSON<<ANNA<MARIA", 30);
    assert Fillers(19) == "<<<<<<<<<<<<<<<<<<<" && Fillers(10) == "<<<<<<<<<<";
  }

  lemma SpecimenPassportLines()
    ensures Td3Line1(SPECIMEN, SPECIMEN_FILL) == PASSPORT_LINE_1
    ensures Td3Line2(SPECIMEN, SPECIMEN_FILL) == PASSPORT_LINE_2
  {
    SpecimenNameField();
    SpecimenDays();
    SpecimenColumns();
    hide NameField, PrintDay, PadEnd;
  }

  /** The passport of Appendix B to Doc 9303-4 is read as it is printed there. */
  lemma PassportSpecimen()
    ensures ParseMrz(PASSPORT_LINE_1 + "\n" + PASSPORT_LINE_2)
      == Some(Document(MrzPassport, SPECIMEN_NAMES, "passport", Some("L898902C3"), Some("UTO"), Some("UTO"),
                       Some("1974-08-12"), Some("2012-04-15"), Some("female")))
  {
    SpecimensArePrintable();
    SpecimenPassportLines();
    SpecimenDays();
    SpecimenExpectedNames();
    hide Td3Line1, Td3Line2, ParseMrz, Printable, IsFill, ExpectedNames, ExpectedDay, Sends;
    hide PASSPORT_LINE_1, PASSPORT_LINE_2;
    var line1, line2 := Td3Line1(SPECIMEN, SPECIMEN_FILL), Td3Line2(SPECIMEN, SPECIMEN_FILL);
    PlainlySent(line1);
    PlainlySent(line2);
    LineEnds();
    PassportRoundTrip(SPECIMEN, SPECIMEN_FILL, Sent("", line1, ""), "\n", Sent("", line2, ""), "");
    assert line1 + "\n" + line2 + "" == line1 + "\n" + line2;
  }

  lemma SpecimenCardLines()
    ensures Td1Line1('I', CARD_SPECIMEN, CARD_SPECIMEN_FILL) == CARD_LINE_1
    ensures Td1Line2(CARD_SPECIMEN, CARD_SPECIMEN_FILL) == CARD_LINE_2
    ensures Td1Line3(CARD_SPECIMEN) == CARD_LINE_3
  {
    SpecimenNameField();
    SameNames(SPECIMEN, CARD_SPECIMEN);
    SpecimenDays();
    SpecimenColumns();
    hide NameField, PrintDay, PadEnd;
  }

  /** The card of Appendix B to Doc 9303-5 is read as it is printed there. */
  lemma CardSpecimen()
    ensures ParseMrz(CARD_LINE_1 + "\n" + CARD_LINE_2 + "\n" + CARD_LINE_3)
      == Some(Document(MrzId, SPECIMEN_NAMES, "national_id", Some("D23145890"), Some("UTO"), Some("UTO"),
                       Some("1974-08-12"), Some("2012-04-15"), Some("female")))
  {
    SpecimensArePrintable();
    SpecimenCardLines();
    SpecimenDays();
    SpecimenExpectedNames();
    SameNames(SPECIMEN, CARD_SPECIMEN);
    hide Td1Line1, Td1Line2, Td1Line3, ParseMrz, Printable, IsFill, ExpectedNames, ExpectedDay, Sends;
    hide CARD_LINE_1, CARD_LINE_2, CARD_LINE_3;
    var h, f := CARD_SPECIMEN, CARD_SPECIMEN_FILL;
    var line1, line2, line3 := Td1Line1('I', h, f), Td1Line2(h, f), Td1Line3(h);
    PlainlySent(line1);
    PlainlySent(line2);
    PlainlySent(line3);
    LineEnds();
    IdCardRoundTrip('I', h, f, Sent("", line1, ""), "\n", Sent("", line2, ""), "\n", Sent("", line3, ""), "");
    assert line1 + "\n" + line2 + "\n" + line3 + "" == line1 + "\n" + line2 + "\n" + line3;
  }

  /** Two lines are a passport exactly when both are long enough and some name can be read. */
  lemma WhenPassportIsRead(line1: string, line2: string)
    ensures ParseMrzTd3(line1, line2).Some?
      <==> && |line1| >= 44 && |line2| >= 44
           && (ParseMrzNames(line1[5..]).lastName.Some? || ParseMrzNames(line1[5..]).firstName.Some?)
  {
    hide ParseMrzNames;
  }

  /** Sex and dates that are not as they should be are left out. */
  lemma UnreadableParts(raw: string)
    ensures MrzSex(raw).Some? <==> raw == "M" || raw == "F"
    ensures MrzDate(raw).Some? <==> |raw| == 6 && AllDigits(raw)
  {
  }
}
