/** `parseAlfabank`: the multi-line card-operation notice and the `;`-joined
    record built from it.

    The notice looks like

        Карта 1234
        <any line>
        <operation type>
        <operation result>
        Сумма:500.00 RUB
        Остаток:1500.00 RUB
        На время:12:00:00
        <place>
        01.02.2021 12:00:00

    The first line only has to end with "Карта " and the card number; the
    last line only has to start with the date and time. */
module Alfabank {
  import opened Text
  import opened Regex

  /** The notice's regular expression, one piece per atom, in four segments
      (multi-line mode, so each `$\n^` is a line break). */
  const HeadPattern: seq<Piece> := [
    Lit("Карта "), Plus(DigitOrDot), Lit("\n"),     // card_num
    Star(NotNewline), Lit("\n"),                    // the skipped line
    Star(NotNewline), Lit("\n"),                    // op_type
    Star(NotNewline)                                // op_result
  ]

  const SumsPattern: seq<Piece> := [
    Lit("\nСумма:"), Plus(DigitOrDot), Lit(" "), Plus(Word),      // amount, currency
    Lit("\nОстаток:"), Plus(DigitOrDot), Lit(" "), Plus(Word)     // the balance, not captured
  ]

  const PlacePattern: seq<Piece> := [
    Lit("\nНа время:"), Mask("##:##:##"), Lit("\n"),              // unnamed group 1
    Star(NotCrLf), Lit("\n")                                      // place
  ]

  const DatePattern: seq<Piece> := [
    Mask("##"), Lit("."), Mask("##"), Lit("."), Mask("####"),      // day, month, year
    Lit(" "), Mask("##:##:##")                                     // datetime
  ]

  const CardPattern: seq<Piece> := HeadPattern + SumsPattern + PlacePattern + DatePattern

  /** Every part of one notice, including the parts the record does not use. */
  datatype Notice = Notice(
    card: string,
    header: string,
    opType: string,
    opResult: string,
    amount: string,
    currency: string,
    balance: string,
    balanceCurrency: string,
    clock: string,
    place: string,
    day: string,
    month: string,
    year: string,
    time: string)

  function HeadCaptures(n: Notice): seq<string> {
    ["Карта ", n.card, "\n", n.header, "\n", n.opType, "\n", n.opResult]
  }

  function SumsCaptures(n: Notice): seq<string> {
    ["\nСумма:", n.amount, " ", n.currency, "\nОстаток:", n.balance, " ", n.balanceCurrency]
  }

  function PlaceCaptures(n: Notice): seq<string> {
    ["\nНа время:", n.clock, "\n", n.place, "\n"]
  }

  function DateCaptures(n: Notice): seq<string> {
    [n.day, ".", n.month, ".", n.year, " ", n.time]
  }

  /** What each piece of CardPattern takes when the notice is n. */
  function Captures(n: Notice): seq<string> {
    HeadCaptures(n) + SumsCaptures(n) + PlaceCaptures(n) + DateCaptures(n)
  }

  /** The text of notice n as the bank writes it. */
  function NoticeText(n: Notice): string {
    Concat(Captures(n))
  }

  /** The named groups (and the uncaptured parts) read off a match. */
  function FromCaptures(caps: seq<string>): Notice
    requires |caps| == |CardPattern|
  {
    Notice(caps[1], caps[3], caps[5], caps[7], caps[9], caps[11], caps[13], caps[15],
           caps[17], caps[19], caps[21], caps[23], caps[25], caps[27])
  }

  predicate HeadWellFormed(n: Notice) {
    && |n.card| >= 1 && All(n.card, DigitOrDot)
    && All(n.header, NotNewline)
    && All(n.opType, NotNewline)
    && All(n.opResult, NotNewline)
  }

  predicate SumsWellFormed(n: Notice) {
    && |n.amount| >= 1 && All(n.amount, DigitOrDot)
    && |n.currency| >= 1 && All(n.currency, Word)
    && |n.balance| >= 1 && All(n.balance, DigitOrDot)
    && |n.balanceCurrency| >= 1 && All(n.balanceCurrency, Word)
  }

  predicate PlaceWellFormed(n: Notice) {
    FitsMask(n.clock, "##:##:##") && All(n.place, NotCrLf)
  }

  predicate DateWellFormed(n: Notice) {
    && FitsMask(n.day, "##")
    && FitsMask(n.month, "##")
    && FitsMask(n.year, "####")
    && FitsMask(n.time, "##:##:##")
  }

  /** The character classes the template imposes on each part. */
  predicate WellFormed(n: Notice) {
    HeadWellFormed(n) && SumsWellFormed(n) && PlaceWellFormed(n) && DateWellFormed(n)
  }

  /** A well-formed notice n stands in txt at position p. */
  ghost predicate NoticeAt(txt: string, p: nat, n: Notice) {
    var t := NoticeText(n);
    WellFormed(n) && p + |t| <= |txt| && txt[p..p + |t|] == t
  }

  /** `re.search` over the notice pattern: the leftmost notice in txt. */
  function FindNotice(txt: string): (r: Option<Notice>)
    ensures r.Some? ==> WellFormed(r.value)
  {
    match Search(CardPattern, txt)
    case None => None
    case Some((p, caps)) =>
      MatchedNotice(caps, MatchSeq(CardPattern, txt[p..]).value.1);
      Some(FromCaptures(caps))
  }

  /** The date field: year, month and day joined by '-', a space, then the time. */
  function TransactionTime(n: Notice): string {
    n.year + "-" + n.month + "-" + n.day + " " + n.time
  }

  /** The seven record fields: SUM, CURRENCY, OBJECT, ACCOUNT, DATE, COMMENT and an empty one. */
  function Fields(n: Notice): seq<string> {
    ["-" + n.amount, n.currency, n.place, n.card, TransactionTime(n), n.opResult + " " + n.opType, ""]
  }

  function Record(n: Notice): string {
    Join(Fields(n), ';')
  }

  /** `parseAlfabank(txt)`: the record of the leftmost notice, or None. */
  function ParseAlfabank(txt: string): Option<string> {
    match FindNotice(txt)
    case None => None
    case Some(n) => Some(Record(n))
  }

  // ---------------------------------------------------------------------------
  // The pattern and the notice text

  lemma HeadRead(caps: seq<string>, rest: string, n: Notice)
    requires Decomposes(HeadPattern, caps, rest)
    requires n.card == caps[1] && n.header == caps[3] && n.opType == caps[5] && n.opResult == caps[7]
    ensures HeadCaptures(n) == caps && HeadWellFormed(n)
  {
    forall i | 0 <= i < |HeadPattern| ensures Accepts(HeadPattern[i], caps[i], Concat(caps[i + 1..]) + rest) {
    }
  }

  lemma SumsRead(caps: seq<string>, rest: string, n: Notice)
    requires Decomposes(SumsPattern, caps, rest)
    requires n.amount == caps[1] && n.currency == caps[3] && n.balance == caps[5] && n.balanceCurrency == caps[7]
    ensures SumsCaptures(n) == caps && SumsWellFormed(n)
  {
    forall i | 0 <= i < |SumsPattern| ensures Accepts(SumsPattern[i], caps[i], Concat(caps[i + 1..]) + rest) {
    }
  }

  lemma PlaceRead(caps: seq<string>, rest: string, n: Notice)
    requires Decomposes(PlacePattern, caps, rest)
    requires n.clock == caps[1] && n.place == caps[3]
    ensures PlaceCaptures(n) == caps && PlaceWellFormed(n)
  {
    forall i | 0 <= i < |PlacePattern| ensures Accepts(PlacePattern[i], caps[i], Concat(caps[i + 1..]) + rest) {
    }
  }

  lemma DateRead(caps: seq<string>, rest: string, n: Notice)
    requires Decomposes(DatePattern, caps, rest)
    requires n.day == caps[0] && n.month == caps[2] && n.year == caps[4] && n.time == caps[6]
    ensures DateCaptures(n) == caps && DateWellFormed(n)
  {
    forall i | 0 <= i < |DatePattern| ensures Accepts(DatePattern[i], caps[i], Concat(caps[i + 1..]) + rest) {
    }
  }

  /** Whatever the pattern matches spells a well-formed notice. */
  lemma MatchedNotice(caps: seq<string>, rest: string)
    requires Decomposes(CardPattern, caps, rest)
    ensures Captures(FromCaptures(caps)) == caps
    ensures WellFormed(FromCaptures(caps))
  {
    var c1, c2, c3, c4 := caps[..8], caps[8..16], caps[16..21], caps[21..];
    assert caps == c1 + c2 + c3 + c4;
    var r3 := Concat(c4) + rest;
    var r2 := Concat(c3) + r3;
    var r1 := Concat(c2) + r2;
    DecomposesAppend(HeadPattern + SumsPattern + PlacePattern, DatePattern, c1 + c2 + c3, c4, rest);
    DecomposesAppend(HeadPattern + SumsPattern, PlacePattern, c1 + c2, c3, r3);
    DecomposesAppend(HeadPattern, SumsPattern, c1, c2, r2);
    var n := FromCaptures(caps);
    HeadRead(c1, r1, n);
    SumsRead(c2, r2, n);
    PlaceRead(c3, r3, n);
    DateRead(c4, rest, n);
  }

  lemma HeadDecomposes(n: Notice, rest: string)
    requires HeadWellFormed(n) && rest != [] && rest[0] == '\n'
    ensures Decomposes(HeadPattern, HeadCaptures(n), rest)
  {
    ChainedDecomposes(HeadPattern, HeadCaptures(n), rest);
  }

  lemma SumsDecomposes(n: Notice, rest: string)
    requires SumsWellFormed(n) && rest != [] && rest[0] == '\n'
    ensures Decomposes(SumsPattern, SumsCaptures(n), rest)
  {
    ChainedDecomposes(SumsPattern, SumsCaptures(n), rest);
  }

  lemma PlaceDecomposes(n: Notice, rest: string)
    requires PlaceWellFormed(n)
    ensures Decomposes(PlacePattern, PlaceCaptures(n), rest)
  {
    ChainedDecomposes(PlacePattern, PlaceCaptures(n), rest);
  }

  lemma DateDecomposes(n: Notice, rest: string)
    requires DateWellFormed(n)
    ensures Decomposes(DatePattern, DateCaptures(n), rest)
  {
    ChainedDecomposes(DatePattern, DateCaptures(n), rest);
  }

  /** The template takes the text of every well-formed notice, whatever follows it. */
  lemma NoticeDecomposes(n: Notice, rest: string)
    requires WellFormed(n)
    ensures Decomposes(CardPattern, Captures(n), rest)
  {
    var c1, c2, c3, c4 := HeadCaptures(n), SumsCaptures(n), PlaceCaptures(n), DateCaptures(n);
    var r3 := Concat(c4) + rest;
    var r2 := Concat(c3) + r3;
    var r1 := Concat(c2) + r2;
    assert Concat(c2) == c2[0] + Concat(c2[1..]);
    assert Concat(c3) == c3[0] + Concat(c3[1..]);
    DateDecomposes(n, rest);
    PlaceDecomposes(n, r3);
    SumsDecomposes(n, r2);
    HeadDecomposes(n, r1);
    DecomposesAppend(HeadPattern, SumsPattern, c1, c2, r2);
    DecomposesAppend(HeadPattern + SumsPattern, PlacePattern, c1 + c2, c3, r3);
    DecomposesAppend(HeadPattern + SumsPattern + PlacePattern, DatePattern, c1 + c2 + c3, c4, rest);
  }

  /** Decoding the text of a notice gives the notice back. */
  lemma NoticeRoundTrip(n: Notice, rest: string)
    requires WellFormed(n)
    ensures FindNotice(NoticeText(n) + rest) == Some(n)
  {
    var txt := NoticeText(n) + rest;
    var t := NoticeText(n);
    NoticeDecomposes(n, rest);
    assert txt[0..|t|] == t && txt[|t|..] == rest;
    assert MatchesAt(CardPattern, txt, 0, Captures(n));
    SearchFinds(CardPattern, txt, 0, Captures(n));
    CapturesInverse(n);
  }

  /** A match of the pattern at p is exactly a well-formed notice at p. */
  lemma NoticeAtIff(txt: string, p: nat, caps: seq<string>)
    requires |caps| == |CardPattern|
    ensures MatchesAt(CardPattern, txt, p, caps) <==>
      Captures(FromCaptures(caps)) == caps && NoticeAt(txt, p, FromCaptures(caps))
  {
    var n := FromCaptures(caps);
    if MatchesAt(CardPattern, txt, p, caps) {
      MatchedNotice(caps, txt[p + |Concat(caps)|..]);
    }
    if Captures(n) == caps && NoticeAt(txt, p, n) {
      NoticeDecomposes(n, txt[p + |NoticeText(n)|..]);
    }
  }

  /** FindNotice returns the leftmost well-formed notice in txt. */
  lemma FindNoticeLeftmost(txt: string, n: Notice)
    ensures FindNotice(txt) == Some(n) <==>
      exists p: nat :: NoticeAt(txt, p, n) && forall q: nat, m :: q < p ==> !NoticeAt(txt, q, m)
  {
    if FindNotice(txt) == Some(n) {
      FindNoticeSound(txt, n);
    }
    if exists p: nat :: NoticeAt(txt, p, n) && forall q: nat, m :: q < p ==> !NoticeAt(txt, q, m) {
      var p: nat :| NoticeAt(txt, p, n) && forall q: nat, m :: q < p ==> !NoticeAt(txt, q, m);
      FindNoticeComplete(txt, p, n);
    }
  }

  lemma FindNoticeSound(txt: string, n: Notice)
    requires FindNotice(txt) == Some(n)
    ensures exists p: nat :: NoticeAt(txt, p, n) && forall q: nat, m :: q < p ==> !NoticeAt(txt, q, m)
  {
    var (p, caps) := Search(CardPattern, txt).value;
    assert n == FromCaptures(caps);
    SearchReported(CardPattern, txt, p, caps);
    NoticeAtIff(txt, p, caps);
    forall q: nat, m | q < p ensures !NoticeAt(txt, q, m) {
      NoticeAtMatches(txt, q, m);
    }
  }

  lemma NoticeAtMatches(txt: string, p: nat, n: Notice)
    ensures NoticeAt(txt, p, n) <==> MatchesAt(CardPattern, txt, p, Captures(n))
  {
    CapturesInverse(n);
    NoticeAtIff(txt, p, Captures(n));
  }

  lemma CapturesInverse(n: Notice)
    ensures FromCaptures(Captures(n)) == n
  {
  }

  lemma FindNoticeComplete(txt: string, p: nat, n: Notice)
    requires NoticeAt(txt, p, n) && forall q: nat, m :: q < p ==> !NoticeAt(txt, q, m)
    ensures FindNotice(txt) == Some(n)
  {
    NoticeAtIff(txt, p, Captures(n));
    assert FromCaptures(Captures(n)) == n;
    forall q: nat, cs | q < p ensures !MatchesAt(CardPattern, txt, q, cs) {
      if MatchesAt(CardPattern, txt, q, cs) {
        NoticeAtIff(txt, q, cs);
      }
    }
    SearchFinds(CardPattern, txt, p, Captures(n));
  }

  lemma FindNoticeNone(txt: string)
    ensures FindNotice(txt).None? <==> forall p: nat, n :: !NoticeAt(txt, p, n)
  {
    SearchNone(CardPattern, txt);
    forall p: nat, n | NoticeAt(txt, p, n) ensures MatchesAt(CardPattern, txt, p, Captures(n)) {
      NoticeAtIff(txt, p, Captures(n));
    }
    if Search(CardPattern, txt).Some? {
      var (p, caps) := Search(CardPattern, txt).value;
      SearchReported(CardPattern, txt, p, caps);
      NoticeAtIff(txt, p, caps);
    }
  }

  /** Notice n stands at p and no notice starts before p. */
  ghost predicate FirstNoticeAt(txt: string, p: nat, n: Notice) {
    NoticeAt(txt, p, n) && forall q: nat, m :: q < p ==> !NoticeAt(txt, q, m)
  }

  /** parseAlfabank returns the record of the leftmost notice in the text. */
  lemma ParseAlfabankLeftmost(txt: string, r: string)
    ensures ParseAlfabank(txt) == Some(r) <==> exists p: nat, n :: FirstNoticeAt(txt, p, n) && r == Record(n)
  {
    if ParseAlfabank(txt) == Some(r) {
      var n := FindNotice(txt).value;
      FindNoticeLeftmost(txt, n);
      var p: nat :| NoticeAt(txt, p, n) && forall q: nat, m :: q < p ==> !NoticeAt(txt, q, m);
      assert FirstNoticeAt(txt, p, n);
    }
    if exists p: nat, n :: FirstNoticeAt(txt, p, n) && r == Record(n) {
      var p: nat, n :| FirstNoticeAt(txt, p, n) && r == Record(n);
      FindNoticeLeftmost(txt, n);
    }
  }

  /** parseAlfabank returns None exactly when the text holds no notice. */
  lemma ParseAlfabankNone(txt: string)
    ensures ParseAlfabank(txt).None? <==> forall p: nat, n :: !NoticeAt(txt, p, n)
  {
    FindNoticeNone(txt);
  }

  // ---------------------------------------------------------------------------
  // The record

  /** The date field is YYYY-MM-DD HH:MM:SS with the notice's year, month, day and time in place. */
  lemma TransactionTimeShape(n: Notice)
    requires DateWellFormed(n)
    ensures FitsMask(TransactionTime(n), "####-##-## ##:##:##")
    ensures var t := TransactionTime(n);
      t[..4] == n.year && t[5..7] == n.month && t[8..10] == n.day && t[11..] == n.time
  {
    TransactionTimeMask(n);
    TransactionTimeSlices(n);
  }

  lemma TransactionTimeMask(n: Notice)
    requires DateWellFormed(n)
    ensures FitsMask(TransactionTime(n), "####-##-## ##:##:##")
  {
    var t1 := n.year + "-";
    var t2 := t1 + n.month;
    var t3 := t2 + "-";
    var t4 := t3 + n.day;
    var t5 := t4 + " ";
    assert "####" + "-" == "####-";
    assert "####-" + "##" == "####-##";
    assert "####-##" + "-" == "####-##-";
    assert "####-##-" + "##" == "####-##-##";
    assert "####-##-##" + " " == "####-##-## ";
    assert "####-##-## " + "##:##:##" == "####-##-## ##:##:##";
    FitsMaskAppend(n.year, "-", "####", "-");
    FitsMaskAppend(t1, n.month, "####-", "##");
    FitsMaskAppend(t2, "-", "####-##", "-");
    FitsMaskAppend(t3, n.day, "####-##-", "##");
    FitsMaskAppend(t4, " ", "####-##-##", " ");
    FitsMaskAppend(t5, n.time, "####-##-## ", "##:##:##");
  }

  lemma TransactionTimeSlices(n: Notice)
    requires DateWellFormed(n)
    ensures var t := TransactionTime(n);
      t[..4] == n.year && t[5..7] == n.month && t[8..10] == n.day && t[11..] == n.time
  {
    var t1 := n.year + "-";
    var t2 := t1 + n.month;
    var t3 := t2 + "-";
    var t4 := t3 + n.day;
    var t5 := t4 + " ";
    var t := t5 + n.time;
    assert t == TransactionTime(n);
    assert |t1| == 5 && |t3| == 8 && |t5| == 11;
    assert t1[..4] == n.year && t2[5..7] == n.month && t4[8..10] == n.day && t[11..] == n.time;
    SliceOfAppend(t1, n.month, 0, 4);
    SliceOfAppend(t2, "-", 0, 4);
    SliceOfAppend(t2, "-", 5, 7);
    SliceOfAppend(t3, n.day, 0, 4);
    SliceOfAppend(t3, n.day, 5, 7);
    SliceOfAppend(t4, " ", 0, 4);
    SliceOfAppend(t4, " ", 5, 7);
    SliceOfAppend(t4, " ", 8, 10);
    SliceOfAppend(t5, n.time, 0, 4);
    SliceOfAppend(t5, n.time, 5, 7);
    SliceOfAppend(t5, n.time, 8, 10);
  }

  lemma FieldsAvoidSemicolon(n: Notice)
    requires WellFormed(n)
    ensures ';' !in Fields(n)[0] && ';' !in Fields(n)[1] && ';' !in Fields(n)[3] && ';' !in Fields(n)[4]
    ensures ';' !in Fields(n)[6]
    ensures Count(Fields(n)[0], ';') == 0 && Count(Fields(n)[1], ';') == 0
    ensures Count(Fields(n)[3], ';') == 0 && Count(Fields(n)[4], ';') == 0
  {
    ClassAvoids(n.amount, DigitOrDot, ';');
    ClassAvoids(n.currency, Word, ';');
    ClassAvoids(n.card, DigitOrDot, ';');
    TransactionTimeShape(n);
    MaskAvoids(TransactionTime(n), "####-##-## ##:##:##", ';');
    CountNone(Fields(n)[0], ';');
    CountNone(Fields(n)[1], ';');
    CountNone(Fields(n)[3], ';');
    CountNone(Fields(n)[4], ';');
  }

  /** With no ';' in the free-text lines, the record splits on ';' into exactly the seven fields:
      signed amount, currency, place, card, date, comment (result, then type) and an empty one. */
  lemma RecordSplits(n: Notice)
    requires WellFormed(n)
    requires ';' !in n.place && ';' !in n.opType && ';' !in n.opResult
    ensures var f := Split(Record(n), ';');
      && |f| == 7
      && f[0] == "-" + n.amount
      && f[1] == n.currency
      && f[2] == n.place
      && f[3] == n.card
      && f[4] == n.year + "-" + n.month + "-" + n.day + " " + n.time
      && f[5] == n.opResult + " " + n.opType
      && f[6] == ""
  {
    FieldsAvoidSemicolon(n);
    var fs := Fields(n);
    assert ';' !in fs[5];
    SplitJoin(fs, ';');
  }

  /** The record holds seven fields plus one per ';' in the place, operation type and result lines. */
  lemma RecordFieldCount(n: Notice)
    requires WellFormed(n)
    ensures |Split(Record(n), ';')| == 7 + Count(n.place, ';') + Count(n.opType, ';') + Count(n.opResult, ';')
  {
    var fs := Fields(n);
    FieldsAvoidSemicolon(n);
    SplitCount(Record(n), ';');
    CountJoin(fs, ';');
    CountAppend(n.opResult, " ", ';');
    CountAppend(n.opResult + " ", n.opType, ';');
    assert Count(" ", ';') == 0;
    assert fs[7..] == [];
    CountAllFrom(fs, 6, ';');
    CountAllFrom(fs, 5, ';');
    CountAllFrom(fs, 4, ';');
    CountAllFrom(fs, 3, ';');
    CountAllFrom(fs, 2, ';');
    CountAllFrom(fs, 1, ';');
    CountAllFrom(fs, 0, ';');
    assert fs[0..] == fs;
  }

  /** The record is one line: no field of a well-formed notice holds a line break. */
  lemma RecordOneLine(n: Notice)
    requires WellFormed(n)
    ensures '\n' !in Record(n)
  {
    var fs := Fields(n);
    ClassAvoids(n.amount, DigitOrDot, '\n');
    ClassAvoids(n.currency, Word, '\n');
    ClassAvoids(n.place, NotCrLf, '\n');
    ClassAvoids(n.card, DigitOrDot, '\n');
    TransactionTimeShape(n);
    MaskAvoids(TransactionTime(n), "####-##-## ##:##:##", '\n');
    ClassAvoids(n.opResult, NotNewline, '\n');
    ClassAvoids(n.opType, NotNewline, '\n');
    assert fs[5] == n.opResult + " " + n.opType;
    JoinAvoids(fs, ';', '\n');
  }

  /** The record always ends with the separator of its empty last field. */
  lemma RecordEndsWithSemicolon(n: Notice)
    ensures |Record(n)| >= 1 && Record(n)[|Record(n)| - 1] == ';'
  {
    var fs := Fields(n);
    assert fs == fs[..6] + [""];
    JoinSnoc(fs[..6], "", ';');
  }

  /** The first field is '-' followed by the amount, whatever the free-text lines hold. */
  lemma AmountFieldFirst(n: Notice)
    requires WellFormed(n)
    ensures var f0 := Split(Record(n), ';')[0];
      |f0| >= 2 && f0[0] == '-' && f0[1..] == n.amount && All(f0[1..], DigitOrDot)
  {
    FieldsAvoidSemicolon(n);
    var fs := Fields(n);
    var s := Record(n);
    var f := fs[0];
    assert s == f + [';'] + Join(fs[1..], ';');
    assert s[..|f|] == f;
    assert s[|f|] == ';';
    assert IndexOf(s, ';') == |f|;
    assert Split(s, ';')[0] == f;
  }

  // ---------------------------------------------------------------------------
  // Examples

  /** The payment notice of the examples below. */
  predicate IsPaymentNotice(n: Notice) {
    n == Notice("1234", "...", "Оплата товаров/услуг", "Успешно", "500.00", "RUB", "1500.00", "RUB",
                "12:00:00", "MAGAZIN", "01", "02", "2021", "12:00:00")
  }

  lemma PaymentNoticeWellFormed(n: Notice)
    requires IsPaymentNotice(n)
    ensures WellFormed(n)
    ensures ';' !in n.place && ';' !in n.opType && ';' !in n.opResult
  {
    PaymentHead(n);
    PaymentSums(n);
    PaymentPlaceAndDate(n);
  }

  lemma PaymentHead(n: Notice)
    requires IsPaymentNotice(n)
    ensures HeadWellFormed(n)
  {
  }

  lemma PaymentSums(n: Notice)
    requires IsPaymentNotice(n)
    ensures SumsWellFormed(n)
  {
  }

  lemma PaymentPlaceAndDate(n: Notice)
    requires IsPaymentNotice(n)
    ensures PlaceWellFormed(n) && DateWellFormed(n)
  {
  }

  lemma PaymentNoticeFields(n: Notice)
    requires IsPaymentNotice(n)
    ensures Fields(n)
      == ["-500.00", "RUB", "MAGAZIN", "1234", "2021-02-01 12:00:00", "Успешно Оплата товаров/услуг", ""]
  {
    assert TransactionTime(n) == "2021-02-01 12:00:00";
    assert n.opResult + " " + n.opType == "Успешно Оплата товаров/услуг";
    assert "-" + n.amount == "-500.00";
  }

  /** A card payment at MAGAZIN: the record's comment puts the result before the operation type. */
  lemma ExampleRecord(n: Notice, rest: string)
    requires IsPaymentNotice(n)
    ensures ParseAlfabank(NoticeText(n) + rest)
      == Some(Join(["-500.00", "RUB", "MAGAZIN", "1234", "2021-02-01 12:00:00", "Успешно Оплата товаров/услуг", ""], ';'))
  {
    PaymentNoticeWellFormed(n);
    NoticeRoundTrip(n, rest);
    PaymentNoticeFields(n);
  }

  /** A notice dated 31 April. */
  predicate IsLateAprilNotice(n: Notice) {
    n == Notice("4276.55", "", "Покупка", "Успешно", "10", "RUB", "0", "RUB",
                "23:59:59", "KIOSK", "31", "04", "2021", "23:59:59")
  }

  lemma LateAprilNoticeWellFormed(n: Notice)
    requires IsLateAprilNotice(n)
    ensures WellFormed(n)
  {
    LateAprilHead(n);
    LateAprilSums(n);
    LateAprilPlaceAndDate(n);
  }

  lemma LateAprilHead(n: Notice)
    requires IsLateAprilNotice(n)
    ensures HeadWellFormed(n)
  {
  }

  lemma LateAprilSums(n: Notice)
    requires IsLateAprilNotice(n)
    ensures SumsWellFormed(n)
  {
  }

  lemma LateAprilPlaceAndDate(n: Notice)
    requires IsLateAprilNotice(n)
    ensures PlaceWellFormed(n) && DateWellFormed(n)
  {
  }

  lemma LateAprilNoticeDate(n: Notice)
    requires IsLateAprilNotice(n)
    ensures Fields(n)[4] == "2021-04-31 23:59:59"
  {
    assert TransactionTime(n) == "2021-04-31 23:59:59";
  }

  /** No calendar check: a notice dated 31 April is read, and its date field says 2021-04-31. */
  lemma ExampleNoCalendarCheck(n: Notice, rest: string)
    requires IsLateAprilNotice(n)
    ensures ParseAlfabank(NoticeText(n) + rest) == Some(Record(n))
    ensures Fields(n)[4] == "2021-04-31 23:59:59"
  {
    LateAprilNoticeWellFormed(n);
    NoticeRoundTrip(n, rest);
    LateAprilNoticeDate(n);
  }

  /** A notice whose place line holds a ';'. */
  predicate IsSemicolonNotice(n: Notice) {
    n == Notice("1234", "", "Покупка", "Успешно", "10", "RUB", "0", "RUB",
                "10:00:00", "OOO;ROMASHKA", "01", "02", "2021", "10:00:00")
  }

  lemma SemicolonNoticeWellFormed(n: Notice)
    requires IsSemicolonNotice(n)
    ensures WellFormed(n)
  {
    SemicolonHead(n);
    SemicolonSums(n);
    SemicolonPlaceAndDate(n);
  }

  lemma SemicolonNoticeCounts(n: Notice)
    requires IsSemicolonNotice(n)
    ensures Count(n.place, ';') == 1 && Count(n.opType, ';') == 0 && Count(n.opResult, ';') == 0
  {
    SemicolonCount();
    SemicolonNoticeOperation(n);
    CountNone(n.opType, ';');
    CountNone(n.opResult, ';');
  }

  lemma SemicolonNoticeOperation(n: Notice)
    requires IsSemicolonNotice(n)
    ensures ';' !in n.opType && ';' !in n.opResult
  {
  }

  lemma SemicolonHead(n: Notice)
    requires IsSemicolonNotice(n)
    ensures HeadWellFormed(n)
  {
  }

  lemma SemicolonSums(n: Notice)
    requires IsSemicolonNotice(n)
    ensures SumsWellFormed(n)
  {
  }

  lemma SemicolonPlaceAndDate(n: Notice)
    requires IsSemicolonNotice(n)
    ensures PlaceWellFormed(n) && DateWellFormed(n)
  {
  }

  lemma SemicolonCount()
    ensures Count("OOO;ROMASHKA", ';') == 1
  {
    assert "OOO;ROMASHKA" == "OOO" + (";" + "ROMASHKA");
    CountNone("OOO", ';');
    CountNone("ROMASHKA", ';');
    CountAppend(";", "ROMASHKA", ';');
    CountAppend("OOO", ";ROMASHKA", ';');
  }

  /** A ';' in the place line gives the record an eighth field, so the later fields shift. */
  lemma ExampleSemicolonInPlace(n: Notice, rest: string)
    requires IsSemicolonNotice(n)
    ensures var r := ParseAlfabank(NoticeText(n) + rest);
      r.Some? && |Split(r.value, ';')| == 8
  {
    SemicolonNoticeWellFormed(n);
    SemicolonNoticeCounts(n);
    NoticeRoundTrip(n, rest);
    RecordFieldCount(n);
  }
}
