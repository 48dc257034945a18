/** The Citibank alert parser: four sentence-style templates tried in a fixed
    order (purchase, debit, transfer order, credit); the first one found
    anywhere in the text is rendered by `result`, and the empty string means
    none was found. */
module Citialert {
  import opened Text
  import opened Regex

  // ---------------------------------------------------------------------------
  // Templates and alerts

  datatype Template = Purchase | Debit | Transfer | Credit

  /** The order in which the templates are tried. */
  const Order: seq<Template> := [Purchase, Debit, Transfer, Credit]

  /** One alert as a template reads it: the named groups plus the whitespace
      runs the template skips (`pad` is what `\s*` or ` ?` takes before the
      account number, `gap`, `opening` and `closing` are `\s+` runs, and
      `lineGap` is the whitespace after the operation line). */
  datatype Alert =
    | PurchaseAlert(summ: string, currency: string, pad: string, account: string, gap: string,
                    operation: string, lineGap: string, date: string)
    | DebitAlert(summ: string, currency: string, pad: string, account: string, gap: string,
                 operation: string, lineGap: string, date: string)
    | TransferAlert(opening: string, pad: string, account: string, gap: string, date: string,
                    closing: string, summ: string, currency: string)
    | CreditAlert(pad: string, account: string, summ: string, currency: string, gap: string,
                  operation: string, lineGap: string, date: string)

  function TemplateOf(a: Alert): Template {
    match a
    case PurchaseAlert(_, _, _, _, _, _, _, _) => Purchase
    case DebitAlert(_, _, _, _, _, _, _, _) => Debit
    case TransferAlert(_, _, _, _, _, _, _, _) => Transfer
    case CreditAlert(_, _, _, _, _, _, _, _) => Credit
  }

  /** The end shared by the purchase, debit and credit templates:
      `\s+<intro>(?P<operation>.*?)\s*$\s+<dateLabel>(?P<date>\d\d/\d\d/\d\d\d\d)`. */
  function OperationTail(intro: string, dateLabel: string): seq<Piece> {
    [Plus(Space), Lit(intro), LazyLine, LineGap, Lit(dateLabel), Mask("##/##/####")]
  }

  const PurchaseHead: seq<Piece> :=
    [Lit("Покупка на сумму "), Plus(DigitOrDot), Lit(" "), Plus(Word),
     Lit(" была произведена по Вашему счету **"), Star(Space), Plus(Digit)]

  const PurchaseLabel: string := "Торговая точка: "
  const OperationDateLabel: string := "Дата операции: "

  const DebitHead: seq<Piece> :=
    [Plus(DigitOrDot), Lit(" "), Plus(Word), Lit(" было списано с Вашего счета **"), Opt(' '), Plus(Digit)]

  const OperationLabel: string := "Операция: "

  const TransferHead: seq<Piece> :=
    [Lit("поручение по переводу денежных средств исполнено:"), Plus(Space), Lit("Со счета **"),
     Opt(' '), Plus(Digit)]

  const TransferTail: seq<Piece> :=
    [Plus(Space), Lit("Дата: "), Mask("##/##/####"), Plus(Space), Lit("Сумма: "), Plus(DigitOrDot),
     Lit(" "), Plus(Word)]

  const CreditHead: seq<Piece> :=
    [Lit("на ваш счет **"), Opt(' '), Plus(Digit), Lit(" была зачислена сумма: "), Plus(DigitOrDot),
     Lit(" "), Plus(Word)]

  const DateLabel: string := "Дата: "

  function HeadOf(t: Template): seq<Piece> {
    match t
    case Purchase => PurchaseHead
    case Debit => DebitHead
    case Transfer => TransferHead
    case Credit => CreditHead
  }

  function TailOf(t: Template): seq<Piece> {
    match t
    case Purchase => OperationTail(PurchaseLabel, OperationDateLabel)
    case Debit => OperationTail(OperationLabel, OperationDateLabel)
    case Transfer => TransferTail
    case Credit => OperationTail(OperationLabel, DateLabel)
  }

  /** The regular expression of template t, piece by piece. */
  function PatternOf(t: Template): seq<Piece> {
    HeadOf(t) + TailOf(t)
  }

  function HeadCaptures(a: Alert): seq<string> {
    match a
    case PurchaseAlert(summ, currency, pad, account, _, _, _, _) =>
      ["Покупка на сумму ", summ, " ", currency, " была произведена по Вашему счету **", pad, account]
    case DebitAlert(summ, currency, pad, account, _, _, _, _) =>
      [summ, " ", currency, " было списано с Вашего счета **", pad, account]
    case TransferAlert(opening, pad, account, _, _, _, _, _) =>
      ["поручение по переводу денежных средств исполнено:", opening, "Со счета **", pad, account]
    case CreditAlert(pad, account, summ, currency, _, _, _, _) =>
      ["на ваш счет **", pad, account, " была зачислена сумма: ", summ, " ", currency]
  }

  function OperationCaptures(intro: string, dateLabel: string, gap: string, operation: string, lineGap: string,
                             date: string): seq<string> {
    [gap, intro, operation, lineGap, dateLabel, date]
  }

  function TailCaptures(a: Alert): seq<string> {
    match a
    case PurchaseAlert(_, _, _, _, gap, operation, lineGap, date) =>
      OperationCaptures(PurchaseLabel, OperationDateLabel, gap, operation, lineGap, date)
    case DebitAlert(_, _, _, _, gap, operation, lineGap, date) =>
      OperationCaptures(OperationLabel, OperationDateLabel, gap, operation, lineGap, date)
    case TransferAlert(_, _, _, gap, date, closing, summ, currency) =>
      [gap, "Дата: ", date, closing, "Сумма: ", summ, " ", currency]
    case CreditAlert(_, _, _, _, gap, operation, lineGap, date) =>
      OperationCaptures(OperationLabel, DateLabel, gap, operation, lineGap, date)
  }

  /** What each piece of the alert's template takes. */
  function Captures(a: Alert): seq<string> {
    HeadCaptures(a) + TailCaptures(a)
  }

  /** The text of alert a as the bank writes it. */
  function AlertText(a: Alert): string {
    Concat(Captures(a))
  }

  /** The alert read off a match of template t. */
  function FromCaptures(t: Template, caps: seq<string>): Alert
    requires |caps| == |PatternOf(t)|
  {
    match t
    case Purchase => PurchaseAlert(caps[1], caps[3], caps[5], caps[6], caps[7], caps[9], caps[10], caps[12])
    case Debit => DebitAlert(caps[0], caps[2], caps[4], caps[5], caps[6], caps[8], caps[9], caps[11])
    case Transfer => TransferAlert(caps[1], caps[3], caps[4], caps[5], caps[7], caps[8], caps[10], caps[12])
    case Credit => CreditAlert(caps[1], caps[2], caps[4], caps[6], caps[7], caps[9], caps[10], caps[12])
  }

  predicate Run(s: string, k: Class) {
    |s| >= 1 && All(s, k)
  }

  /** The operation line as `(.*?)\s*$` leaves it: one line, no trailing whitespace. */
  predicate OperationLine(s: string) {
    All(s, NotNewline) && (s == [] || !IsSpace(s[|s| - 1]))
  }

  /** The whitespace after the operation line: at least one line break. */
  predicate LineBreak(s: string) {
    All(s, Space) && '\n' in s
  }

  predicate OptionalSpace(s: string) {
    s == "" || s == " "
  }

  predicate HeadWellFormed(a: Alert) {
    match a
    case PurchaseAlert(summ, currency, pad, account, _, _, _, _) =>
      Run(summ, DigitOrDot) && Run(currency, Word) && All(pad, Space) && Run(account, Digit)
    case DebitAlert(summ, currency, pad, account, _, _, _, _) =>
      Run(summ, DigitOrDot) && Run(currency, Word) && OptionalSpace(pad) && Run(account, Digit)
    case TransferAlert(opening, pad, account, _, _, _, _, _) =>
      Run(opening, Space) && OptionalSpace(pad) && Run(account, Digit)
    case CreditAlert(pad, account, summ, currency, _, _, _, _) =>
      OptionalSpace(pad) && Run(account, Digit) && Run(summ, DigitOrDot) && Run(currency, Word)
  }

  predicate OperationWellFormed(gap: string, operation: string, lineGap: string, date: string) {
    Run(gap, Space) && OperationLine(operation) && LineBreak(lineGap) && FitsMask(date, "##/##/####")
  }

  predicate TailWellFormed(a: Alert) {
    match a
    case TransferAlert(_, _, _, gap, date, closing, summ, currency) =>
      Run(gap, Space) && FitsMask(date, "##/##/####") && Run(closing, Space)
      && Run(summ, DigitOrDot) && Run(currency, Word)
    case _ => OperationWellFormed(a.gap, a.operation, a.lineGap, a.date)
  }

  /** The captures of a are what their groups can take. */
  predicate WellFormed(a: Alert) {
    HeadWellFormed(a) && TailWellFormed(a)
  }

  /** What follows an alert: the transfer template ends in `\w+`, which takes every word character after it. */
  predicate Bounded(a: Alert, rest: string) {
    a.TransferAlert? ==> rest == [] || !IsWordChar(rest[0])
  }

  /** A well-formed alert a stands in txt at position p. */
  ghost predicate AlertAt(txt: string, p: nat, a: Alert) {
    var t := AlertText(a);
    WellFormed(a) && p + |t| <= |txt| && txt[p..p + |t|] == t && Bounded(a, txt[p + |t|..])
  }

  /** One `re.search` with template t: the leftmost alert of that template, or None. */
  function Find(t: Template, txt: string): (r: Option<Alert>)
    ensures r.Some? ==> WellFormed(r.value) && TemplateOf(r.value) == t
  {
    match Search(PatternOf(t), txt)
    case None => None
    case Some((p, caps)) =>
      MatchedAlert(t, caps, MatchSeq(PatternOf(t), txt[p..]).value.1);
      Some(FromCaptures(t, caps))
  }

  // ---------------------------------------------------------------------------
  // `result` and the dispatch

  /** `result(op_type, summ, currency, account, category)`. */
  function Result(opType: string, summ: string, currency: string, account: string, category: string): string {
    "Тип: " + opType + "; Сумма: " + summ + " " + currency + "; Счёт: " + account + "; Категория: " + category
  }

  const TransferCategory: string := "автоплатёж"

  /** The line rendered for a matched alert: its label, amount, currency, account and category. */
  function Summary(a: Alert): string {
    match a
    case PurchaseAlert(summ, currency, _, account, _, operation, _, _) =>
      Result("покупка", summ, currency, account, operation)
    case DebitAlert(summ, currency, _, account, _, operation, _, _) =>
      Result("списание", summ, currency, account, operation)
    case TransferAlert(_, _, account, _, _, _, summ, currency) =>
      Result("списание", summ, currency, account, TransferCategory)
    case CreditAlert(_, account, summ, currency, _, operation, _, _) =>
      Result("зачисление", summ, currency, account, operation)
  }

  /** The first template of ts that finds an alert in txt, and that alert. */
  function FirstMatch(ts: seq<Template>, txt: string): Option<Alert> {
    if ts == [] then None
    else match Find(ts[0], txt)
      case Some(a) => Some(a)
      case None => FirstMatch(ts[1..], txt)
  }

  /** `parseCitialert(txt)`. */
  function ParseCitialert(txt: string): string {
    match FirstMatch(Order, txt)
    case None => ""
    case Some(a) => Summary(a)
  }

  // ---------------------------------------------------------------------------
  // Reading a match

  lemma PurchaseHeadRead(caps: seq<string>, rest: string, a: Alert)
    requires Decomposes(PurchaseHead, caps, rest) && a.PurchaseAlert?
    requires a.summ == caps[1] && a.currency == caps[3] && a.pad == caps[5] && a.account == caps[6]
    ensures HeadCaptures(a) == caps && HeadWellFormed(a)
  {
    forall i | 0 <= i < |PurchaseHead| ensures Accepts(PurchaseHead[i], caps[i], Concat(caps[i + 1..]) + rest) {
    }
  }

  lemma DebitHeadRead(caps: seq<string>, rest: string, a: Alert)
    requires Decomposes(DebitHead, caps, rest) && a.DebitAlert?
    requires a.summ == caps[0] && a.currency == caps[2] && a.pad == caps[4] && a.account == caps[5]
    ensures HeadCaptures(a) == caps && HeadWellFormed(a)
  {
    forall i | 0 <= i < |DebitHead| ensures Accepts(DebitHead[i], caps[i], Concat(caps[i + 1..]) + rest) {
    }
  }

  lemma TransferHeadRead(caps: seq<string>, rest: string, a: Alert)
    requires Decomposes(TransferHead, caps, rest) && a.TransferAlert?
    requires a.opening == caps[1] && a.pad == caps[3] && a.account == caps[4]
    ensures HeadCaptures(a) == caps && HeadWellFormed(a)
  {
    forall i | 0 <= i < |TransferHead| ensures Accepts(TransferHead[i], caps[i], Concat(caps[i + 1..]) + rest) {
    }
  }

  lemma CreditHeadRead(caps: seq<string>, rest: string, a: Alert)
    requires Decomposes(CreditHead, caps, rest) && a.CreditAlert?
    requires a.pad == caps[1] && a.account == caps[2] && a.summ == caps[4] && a.currency == caps[6]
    ensures HeadCaptures(a) == caps && HeadWellFormed(a)
  {
    forall i | 0 <= i < |CreditHead| ensures Accepts(CreditHead[i], caps[i], Concat(caps[i + 1..]) + rest) {
    }
  }

  lemma OperationTailRead(intro: string, dateLabel: string, caps: seq<string>, rest: string)
    requires Decomposes(OperationTail(intro, dateLabel), caps, rest)
    ensures caps == OperationCaptures(intro, dateLabel, caps[0], caps[2], caps[3], caps[5])
    ensures OperationWellFormed(caps[0], caps[2], caps[3], caps[5])
  {
    var ps := OperationTail(intro, dateLabel);
    forall i | 0 <= i < |ps| ensures Accepts(ps[i], caps[i], Concat(caps[i + 1..]) + rest) {
    }
  }

  lemma TransferTailRead(caps: seq<string>, rest: string, a: Alert)
    requires Decomposes(TransferTail, caps, rest) && a.TransferAlert?
    requires a.gap == caps[0] && a.date == caps[2] && a.closing == caps[3] && a.summ == caps[5] && a.currency == caps[7]
    ensures TailCaptures(a) == caps && TailWellFormed(a) && Bounded(a, rest)
  {
    forall i | 0 <= i < |TransferTail| ensures Accepts(TransferTail[i], caps[i], Concat(caps[i + 1..]) + rest) {
    }
    assert caps[8..] == [];
  }

  lemma TailRead(t: Template, caps: seq<string>, rest: string, a: Alert)
    requires Decomposes(TailOf(t), caps, rest) && TemplateOf(a) == t
    requires t != Transfer ==> a.gap == caps[0] && a.operation == caps[2] && a.lineGap == caps[3] && a.date == caps[5]
    requires t == Transfer ==>
      a.gap == caps[0] && a.date == caps[2] && a.closing == caps[3] && a.summ == caps[5] && a.currency == caps[7]
    ensures TailCaptures(a) == caps && TailWellFormed(a) && Bounded(a, rest)
  {
    match t
    case Purchase => OperationTailRead(PurchaseLabel, OperationDateLabel, caps, rest);
    case Debit => OperationTailRead(OperationLabel, OperationDateLabel, caps, rest);
    case Transfer => TransferTailRead(caps, rest, a);
    case Credit => OperationTailRead(OperationLabel, DateLabel, caps, rest);
  }

  /** Whatever template t matches spells a well-formed alert of that template. */
  lemma MatchedAlert(t: Template, caps: seq<string>, rest: string)
    requires Decomposes(PatternOf(t), caps, rest)
    ensures var a := FromCaptures(t, caps);
      Captures(a) == caps && WellFormed(a) && TemplateOf(a) == t && Bounded(a, rest)
  {
    var k := |HeadOf(t)|;
    MatchedHead(t, caps, rest);
    MatchedTail(t, caps, rest);
    assert caps == caps[..k] + caps[k..];
  }

  lemma MatchedHead(t: Template, caps: seq<string>, rest: string)
    requires Decomposes(PatternOf(t), caps, rest)
    ensures var a := FromCaptures(t, caps);
      HeadCaptures(a) == caps[..|HeadOf(t)|] && HeadWellFormed(a) && TemplateOf(a) == t
  {
    var k := |HeadOf(t)|;
    var c1, c2 := caps[..k], caps[k..];
    assert caps == c1 + c2;
    DecomposesAppend(HeadOf(t), TailOf(t), c1, c2, rest);
    var a := FromCaptures(t, caps);
    match t
    case Purchase => PurchaseHeadRead(c1, Concat(c2) + rest, a);
    case Debit => DebitHeadRead(c1, Concat(c2) + rest, a);
    case Transfer => TransferHeadRead(c1, Concat(c2) + rest, a);
    case Credit => CreditHeadRead(c1, Concat(c2) + rest, a);
  }

  lemma MatchedTail(t: Template, caps: seq<string>, rest: string)
    requires Decomposes(PatternOf(t), caps, rest)
    ensures var a := FromCaptures(t, caps);
      TailCaptures(a) == caps[|HeadOf(t)|..] && TailWellFormed(a) && Bounded(a, rest)
  {
    var k := |HeadOf(t)|;
    var c1, c2 := caps[..k], caps[k..];
    assert caps == c1 + c2;
    DecomposesAppend(HeadOf(t), TailOf(t), c1, c2, rest);
    TailRead(t, c2, rest, FromCaptures(t, caps));
  }

  lemma HeadDecomposes(a: Alert, rest: string)
    requires HeadWellFormed(a) && rest != [] && IsSpace(rest[0])
    ensures Decomposes(HeadOf(TemplateOf(a)), HeadCaptures(a), rest)
  {
    match a
    case PurchaseAlert(_, _, _, _, _, _, _, _) => PurchaseHeadDecomposes(a, rest);
    case DebitAlert(_, _, _, _, _, _, _, _) => DebitHeadDecomposes(a, rest);
    case TransferAlert(_, _, _, _, _, _, _, _) => TransferHeadDecomposes(a, rest);
    case CreditAlert(_, _, _, _, _, _, _, _) => CreditHeadDecomposes(a, rest);
  }

  lemma PurchaseHeadDecomposes(a: Alert, rest: string)
    requires a.PurchaseAlert? && HeadWellFormed(a) && rest != [] && IsSpace(rest[0])
    ensures Decomposes(PurchaseHead, HeadCaptures(a), rest)
  {
    ChainedDecomposes(PurchaseHead, HeadCaptures(a), rest);
  }

  lemma DebitHeadDecomposes(a: Alert, rest: string)
    requires a.DebitAlert? && HeadWellFormed(a) && rest != [] && IsSpace(rest[0])
    ensures Decomposes(DebitHead, HeadCaptures(a), rest)
  {
    ChainedDecomposes(DebitHead, HeadCaptures(a), rest);
  }

  lemma TransferHeadDecomposes(a: Alert, rest: string)
    requires a.TransferAlert? && HeadWellFormed(a) && rest != [] && IsSpace(rest[0])
    ensures Decomposes(TransferHead, HeadCaptures(a), rest)
  {
    ChainedDecomposes(TransferHead, HeadCaptures(a), rest);
  }

  lemma CreditHeadDecomposes(a: Alert, rest: string)
    requires a.CreditAlert? && HeadWellFormed(a) && rest != [] && IsSpace(rest[0])
    ensures Decomposes(CreditHead, HeadCaptures(a), rest)
  {
    ChainedDecomposes(CreditHead, HeadCaptures(a), rest);
  }

  lemma TailDecomposes(a: Alert, rest: string)
    requires TailWellFormed(a) && Bounded(a, rest)
    ensures Decomposes(TailOf(TemplateOf(a)), TailCaptures(a), rest)
  {
    match a
    case PurchaseAlert(_, _, _, _, gap, operation, lineGap, date) =>
      OperationTailDecomposes(PurchaseLabel, OperationDateLabel, gap, operation, lineGap, date, rest);
    case DebitAlert(_, _, _, _, gap, operation, lineGap, date) =>
      OperationTailDecomposes(OperationLabel, OperationDateLabel, gap, operation, lineGap, date, rest);
    case TransferAlert(_, _, _, _, _, _, _, _) => TransferTailDecomposes(a, rest);
    case CreditAlert(_, _, _, _, gap, operation, lineGap, date) =>
      OperationTailDecomposes(OperationLabel, DateLabel, gap, operation, lineGap, date, rest);
  }

  lemma OperationTailDecomposes(intro: string, dateLabel: string, gap: string, operation: string, lineGap: string,
                                date: string, rest: string)
    requires |intro| >= 1 && !IsSpace(intro[0]) && |dateLabel| >= 1 && !IsSpace(dateLabel[0])
    requires OperationWellFormed(gap, operation, lineGap, date)
    ensures Decomposes(OperationTail(intro, dateLabel), OperationCaptures(intro, dateLabel, gap, operation, lineGap, date), rest)
  {
    ChainedDecomposes(OperationTail(intro, dateLabel), OperationCaptures(intro, dateLabel, gap, operation, lineGap, date), rest);
  }

  lemma TransferTailDecomposes(a: Alert, rest: string)
    requires a.TransferAlert? && TailWellFormed(a) && Bounded(a, rest)
    ensures Decomposes(TransferTail, TailCaptures(a), rest)
  {
    ChainedDecomposes(TransferTail, TailCaptures(a), rest);
  }

  /** The template of a well-formed alert takes exactly its text. */
  lemma AlertDecomposes(a: Alert, rest: string)
    requires WellFormed(a) && Bounded(a, rest)
    ensures Decomposes(PatternOf(TemplateOf(a)), Captures(a), rest)
  {
    var t := TemplateOf(a);
    var c1, c2 := HeadCaptures(a), TailCaptures(a);
    TailDecomposes(a, rest);
    assert Concat(c2) == c2[0] + Concat(c2[1..]);
    HeadDecomposes(a, Concat(c2) + rest);
    DecomposesAppend(HeadOf(t), TailOf(t), c1, c2, rest);
  }

  lemma CapturesInverse(a: Alert)
    ensures |Captures(a)| == |PatternOf(TemplateOf(a))|
    ensures FromCaptures(TemplateOf(a), Captures(a)) == a
  {
  }

  // ---------------------------------------------------------------------------
  // One template

  /** Decoding the text of an alert with its own template gives the alert back. */
  lemma AlertRoundTrip(a: Alert, rest: string)
    requires WellFormed(a) && Bounded(a, rest)
    ensures Find(TemplateOf(a), AlertText(a) + rest) == Some(a)
  {
    var ps := PatternOf(TemplateOf(a));
    var txt := AlertText(a) + rest;
    var t := AlertText(a);
    AlertDecomposes(a, rest);
    assert txt[0..|t|] == t && txt[|t|..] == rest;
    assert MatchesAt(ps, txt, 0, Captures(a));
    SearchFinds(ps, txt, 0, Captures(a));
    CapturesInverse(a);
  }

  /** A match of template t at p is exactly a well-formed alert of that template at p. */
  lemma AlertAtIff(t: Template, txt: string, p: nat, caps: seq<string>)
    requires |caps| == |PatternOf(t)|
    ensures MatchesAt(PatternOf(t), txt, p, caps) <==>
      Captures(FromCaptures(t, caps)) == caps && AlertAt(txt, p, FromCaptures(t, caps))
  {
    if MatchesAt(PatternOf(t), txt, p, caps) {
      MatchIsAlert(t, txt, p, caps);
    }
    if Captures(FromCaptures(t, caps)) == caps && AlertAt(txt, p, FromCaptures(t, caps)) {
      AlertIsMatch(txt, p, FromCaptures(t, caps));
    }
  }

  lemma MatchIsAlert(t: Template, txt: string, p: nat, caps: seq<string>)
    requires |caps| == |PatternOf(t)| && MatchesAt(PatternOf(t), txt, p, caps)
    ensures Captures(FromCaptures(t, caps)) == caps && AlertAt(txt, p, FromCaptures(t, caps))
  {
    var rest := txt[p + |Concat(caps)|..];
    var a := FromCaptures(t, caps);
    MatchedAlert(t, caps, rest);
    assert AlertText(a) == Concat(caps);
  }

  lemma AlertIsMatch(txt: string, p: nat, a: Alert)
    requires AlertAt(txt, p, a)
    ensures MatchesAt(PatternOf(TemplateOf(a)), txt, p, Captures(a))
  {
    var caps := Captures(a);
    var n := |Concat(caps)|;
    var rest := txt[p + n..];
    assert AlertText(a) == Concat(caps);
    AlertDecomposes(a, rest);
    MatchesAtIntro(PatternOf(TemplateOf(a)), txt, p, caps, rest);
  }

  lemma AlertAtMatches(txt: string, p: nat, a: Alert)
    ensures AlertAt(txt, p, a) <==> MatchesAt(PatternOf(TemplateOf(a)), txt, p, Captures(a))
  {
    CapturesInverse(a);
    AlertAtIff(TemplateOf(a), txt, p, Captures(a));
  }

  /** Alert a of template t stands at p and no alert of t starts before p. */
  ghost predicate FirstAlertAt(t: Template, txt: string, p: nat, a: Alert) {
    TemplateOf(a) == t && AlertAt(txt, p, a)
    && forall q: nat, b :: q < p && TemplateOf(b) == t ==> !AlertAt(txt, q, b)
  }

  /** Find(t, ·) returns the leftmost alert of template t. */
  lemma FindLeftmost(t: Template, txt: string, a: Alert)
    ensures Find(t, txt) == Some(a) <==> exists p: nat :: FirstAlertAt(t, txt, p, a)
  {
    if Find(t, txt) == Some(a) {
      FindSound(t, txt, a);
    }
    if exists p: nat :: FirstAlertAt(t, txt, p, a) {
      var p: nat :| FirstAlertAt(t, txt, p, a);
      FindComplete(t, txt, p, a);
    }
  }

  lemma FindSound(t: Template, txt: string, a: Alert)
    requires Find(t, txt) == Some(a)
    ensures exists p: nat :: FirstAlertAt(t, txt, p, a)
  {
    var (p, caps) := Search(PatternOf(t), txt).value;
    assert a == FromCaptures(t, caps);
    SearchReported(PatternOf(t), txt, p, caps);
    AlertAtIff(t, txt, p, caps);
    forall q: nat, b | q < p && TemplateOf(b) == t ensures !AlertAt(txt, q, b) {
      AlertAtMatches(txt, q, b);
    }
    assert FirstAlertAt(t, txt, p, a);
  }

  lemma FindComplete(t: Template, txt: string, p: nat, a: Alert)
    requires FirstAlertAt(t, txt, p, a)
    ensures Find(t, txt) == Some(a)
  {
    AlertAtMatches(txt, p, a);
    CapturesInverse(a);
    forall q: nat, cs | q < p ensures !MatchesAt(PatternOf(t), txt, q, cs) {
      if MatchesAt(PatternOf(t), txt, q, cs) {
        AlertAtIff(t, txt, q, cs);
      }
    }
    SearchFinds(PatternOf(t), txt, p, Captures(a));
  }

  /** Find(t, ·) returns None exactly when the text holds no alert of template t. */
  lemma FindNone(t: Template, txt: string)
    ensures Find(t, txt).None? <==> forall p: nat, a :: TemplateOf(a) == t ==> !AlertAt(txt, p, a)
  {
    SearchNone(PatternOf(t), txt);
    forall p: nat, a | TemplateOf(a) == t && AlertAt(txt, p, a)
      ensures MatchesAt(PatternOf(t), txt, p, Captures(a))
    {
      AlertAtMatches(txt, p, a);
    }
    if Search(PatternOf(t), txt).Some? {
      var (p, caps) := Search(PatternOf(t), txt).value;
      SearchReported(PatternOf(t), txt, p, caps);
      AlertAtIff(t, txt, p, caps);
    }
  }

  // ---------------------------------------------------------------------------
  // The ordered dispatch

  /** Position of template t in Order. */
  function Rank(t: Template): (i: nat)
    ensures i < |Order| && Order[i] == t
  {
    match t
    case Purchase => 0
    case Debit => 1
    case Transfer => 2
    case Credit => 3
  }

  /** The searches of txt, one per template. */
  function Searches(txt: string): Template -> Option<Alert> {
    t => Find(t, txt)
  }

  /** The dispatch over any search: the first template of ts whose search finds something. */
  function FirstOf(ts: seq<Template>, find: Template -> Option<Alert>): Option<Alert> {
    if ts == [] then None
    else if find(ts[0]).Some? then find(ts[0])
    else FirstOf(ts[1..], find)
  }

  /** FirstMatch is the dispatch over the searches of txt. */
  lemma {:induction false} FirstMatchIsFirstOf(ts: seq<Template>, txt: string)
    ensures FirstMatch(ts, txt) == FirstOf(ts, Searches(txt))
  {
    if ts != [] {
      assert Searches(txt)(ts[0]) == Find(ts[0], txt);
      FirstMatchIsFirstOf(ts[1..], txt);
    }
  }

  /** The template whose result FirstOf returns: every search before it finds nothing. */
  lemma {:induction false} FirstOfIndex(ts: seq<Template>, find: Template -> Option<Alert>) returns (i: nat)
    requires FirstOf(ts, find).Some?
    ensures i < |ts| && find(ts[i]) == FirstOf(ts, find)
    ensures forall j :: 0 <= j < i ==> find(ts[j]).None?
  {
    if find(ts[0]).Some? {
      i := 0;
    } else {
      var k := FirstOfIndex(ts[1..], find);
      i := k + 1;
      forall j | 0 <= j < i ensures find(ts[j]).None? {
        if j > 0 {
          assert ts[j] == ts[1..][j - 1];
        }
      }
    }
  }

  /** A search that finds something after searches that find nothing decides FirstOf. */
  lemma {:induction false} FirstOfAt(ts: seq<Template>, find: Template -> Option<Alert>, i: nat)
    requires i < |ts| && find(ts[i]).Some?
    requires forall j :: 0 <= j < i ==> find(ts[j]).None?
    ensures FirstOf(ts, find) == find(ts[i])
    decreases i
  {
    if i > 0 {
      assert find(ts[0]).None?;
      forall j | 0 <= j < i - 1 ensures find(ts[1..][j]).None? {
        assert ts[1..][j] == ts[j + 1];
      }
      assert ts[1..][i - 1] == ts[i];
      FirstOfAt(ts[1..], find, i - 1);
    }
  }

  /** FirstOf finds nothing exactly when no search finds anything. */
  lemma {:induction false} FirstOfNone(ts: seq<Template>, find: Template -> Option<Alert>)
    ensures FirstOf(ts, find).None? <==> forall i :: 0 <= i < |ts| ==> find(ts[i]).None?
  {
    if ts != [] {
      FirstOfNone(ts[1..], find);
      if find(ts[0]).None? {
        forall i | 1 <= i < |ts| ensures ts[i] == ts[1..][i - 1] {
        }
      }
    }
  }

  /** FirstMatch returns what the first template of ts that finds anything finds. */
  lemma FirstMatchFirst(ts: seq<Template>, txt: string, a: Alert)
    ensures FirstMatch(ts, txt) == Some(a) <==>
      exists i :: 0 <= i < |ts| && Find(ts[i], txt) == Some(a) && forall j :: 0 <= j < i ==> Find(ts[j], txt).None?
  {
    if FirstMatch(ts, txt) == Some(a) {
      var i := FirstMatchIndex(ts, txt);
    }
    if exists i :: 0 <= i < |ts| && Find(ts[i], txt) == Some(a) && forall j :: 0 <= j < i ==> Find(ts[j], txt).None? {
      var i :| 0 <= i < |ts| && Find(ts[i], txt) == Some(a) && forall j :: 0 <= j < i ==> Find(ts[j], txt).None?;
      FirstMatchAt(ts, txt, i);
    }
  }

  /** The template of ts whose result FirstMatch returns: none before it finds anything. */
  lemma FirstMatchIndex(ts: seq<Template>, txt: string) returns (i: nat)
    requires FirstMatch(ts, txt).Some?
    ensures i < |ts| && Find(ts[i], txt) == FirstMatch(ts, txt)
    ensures forall j :: 0 <= j < i ==> Find(ts[j], txt).None?
  {
    var f := Searches(txt);
    FirstMatchIsFirstOf(ts, txt);
    i := FirstOfIndex(ts, f);
    assert f(ts[i]) == Find(ts[i], txt);
    forall j | 0 <= j < i ensures Find(ts[j], txt).None? {
      assert f(ts[j]) == Find(ts[j], txt);
    }
  }

  /** A template that finds something after templates that find nothing decides FirstMatch. */
  lemma FirstMatchAt(ts: seq<Template>, txt: string, i: nat)
    requires i < |ts| && Find(ts[i], txt).Some?
    requires forall j :: 0 <= j < i ==> Find(ts[j], txt).None?
    ensures FirstMatch(ts, txt) == Find(ts[i], txt)
  {
    var f := Searches(txt);
    FirstMatchIsFirstOf(ts, txt);
    forall j | 0 <= j < i ensures f(ts[j]).None? {
      assert f(ts[j]) == Find(ts[j], txt);
    }
    assert f(ts[i]) == Find(ts[i], txt);
    FirstOfAt(ts, f, i);
  }

  /** FirstMatch returns None exactly when no template of ts finds anything. */
  lemma FirstMatchNone(ts: seq<Template>, txt: string)
    ensures FirstMatch(ts, txt).None? <==> forall i :: 0 <= i < |ts| ==> Find(ts[i], txt).None?
  {
    var f := Searches(txt);
    FirstMatchIsFirstOf(ts, txt);
    FirstOfNone(ts, f);
    forall i | 0 <= i < |ts| ensures f(ts[i]) == Find(ts[i], txt) {
    }
  }

  /** Alert a is what the dispatch picks in txt: the leftmost alert of its template,
      and no alert at all of any template tried before it. */
  ghost predicate Chosen(txt: string, a: Alert) {
    && (exists p: nat :: FirstAlertAt(TemplateOf(a), txt, p, a))
    && forall q: nat, b :: Rank(TemplateOf(b)) < Rank(TemplateOf(a)) ==> !AlertAt(txt, q, b)
  }

  /** The first template in Order that finds an alert decides the output. */
  lemma FirstMatchChosen(txt: string, a: Alert)
    ensures FirstMatch(Order, txt) == Some(a) <==> Chosen(txt, a)
  {
    if FirstMatch(Order, txt) == Some(a) {
      FirstMatchIsChosen(txt, a);
    }
    if Chosen(txt, a) {
      ChosenIsFirstMatch(txt, a);
    }
  }

  lemma FindNoneAll(txt: string)
    ensures forall u: Template :: Find(u, txt).None? <==> forall p: nat, b :: TemplateOf(b) == u ==> !AlertAt(txt, p, b)
  {
    forall u: Template ensures Find(u, txt).None? <==> forall p: nat, b :: TemplateOf(b) == u ==> !AlertAt(txt, p, b) {
      FindNone(u, txt);
    }
  }

  lemma FirstMatchIsChosen(txt: string, a: Alert)
    requires FirstMatch(Order, txt) == Some(a)
    ensures Chosen(txt, a)
  {
    var i := FirstMatchIndex(Order, txt);
    RankOfOrder(i);
    FindLeftmost(Order[i], txt, a);
    forall q: nat, b | Rank(TemplateOf(b)) < i ensures !AlertAt(txt, q, b) {
      var u := TemplateOf(b);
      assert Find(Order[Rank(u)], txt).None?;
      FindNone(u, txt);
    }
  }

  lemma RankOfOrder(j: nat)
    requires j < |Order|
    ensures Rank(Order[j]) == j
  {
  }

  lemma EarlierFindsNothing(txt: string, a: Alert, u: Template)
    requires Chosen(txt, a) && Rank(u) < Rank(TemplateOf(a))
    ensures Find(u, txt).None?
  {
    FindNone(u, txt);
  }

  lemma ChosenIsFirstMatch(txt: string, a: Alert)
    requires Chosen(txt, a)
    ensures FirstMatch(Order, txt) == Some(a)
  {
    var i := Rank(TemplateOf(a));
    FindLeftmost(TemplateOf(a), txt, a);
    forall j | 0 <= j < i ensures Find(Order[j], txt).None? {
      RankOfOrder(j);
      EarlierFindsNothing(txt, a, Order[j]);
    }
    FirstMatchAt(Order, txt, i);
  }

  /** parseCitialert returns the empty string exactly when the text holds no alert of any template. */
  lemma ParseCitialertEmpty(txt: string)
    ensures ParseCitialert(txt) == "" <==> forall p: nat, a :: !AlertAt(txt, p, a)
  {
    FirstMatchNone(Order, txt);
    FindNoneAll(txt);
    if FirstMatch(Order, txt).Some? {
      SummaryNonEmpty(FirstMatch(Order, txt).value);
    }
    if forall i :: 0 <= i < |Order| ==> Find(Order[i], txt).None? {
      forall p: nat, a ensures !AlertAt(txt, p, a) {
        assert Find(Order[Rank(TemplateOf(a))], txt).None?;
      }
    }
  }

  /** A non-empty output is the summary of the alert the dispatch picks. */
  lemma ParseCitialertChosen(txt: string, s: string)
    requires s != ""
    ensures ParseCitialert(txt) == s <==> exists a :: Chosen(txt, a) && s == Summary(a)
  {
    if ParseCitialert(txt) == s {
      var a := FirstMatch(Order, txt).value;
      FirstMatchChosen(txt, a);
    }
    if exists a :: Chosen(txt, a) && s == Summary(a) {
      var a :| Chosen(txt, a) && s == Summary(a);
      FirstMatchChosen(txt, a);
    }
  }

  // ---------------------------------------------------------------------------
  // Reading `result` back

  /** The five arguments of `result`. */
  datatype Entry = Entry(opType: string, summ: string, currency: string, account: string, category: string)

  /** `Тип: ([^;]+); Сумма: ([0-9.]+) (\w+); Счёт: (\d+); Категория: (.*)` over the whole line. */
  const ResultPattern: seq<Piece> := ResultHead + ResultTail

  const ResultHead: seq<Piece> := [Lit("Тип: "), Plus(NotSemicolon), Lit("; Сумма: "), Plus(DigitOrDot), Lit(" ")]

  const ResultTail: seq<Piece> := [Plus(Word), Lit("; Счёт: "), Plus(Digit), Lit("; Категория: "), Star(AnyChar)]

  function ReadResult(s: string): Option<Entry> {
    match MatchSeq(ResultPattern, s)
    case None => None
    case Some((caps, _)) => Some(Entry(caps[1], caps[3], caps[5], caps[7], caps[9]))
  }

  /** The arguments `result` can be asked to render and read back. */
  predicate Renderable(e: Entry) {
    Run(e.opType, NotSemicolon) && Run(e.summ, DigitOrDot) && Run(e.currency, Word) && Run(e.account, Digit)
  }

  function ResultCaptures(e: Entry): seq<string> {
    ["Тип: ", e.opType, "; Сумма: ", e.summ, " ", e.currency, "; Счёт: ", e.account, "; Категория: ", e.category]
  }

  lemma ResultSpelled(e: Entry)
    ensures Concat(ResultCaptures(e)) == Result(e.opType, e.summ, e.currency, e.account, e.category)
  {
    var c := ResultCaptures(e);
    assert c[10..] == [];
    ConcatFrom(c, 9);
    ConcatFrom(c, 8);
    ConcatFrom(c, 7);
    ConcatFrom(c, 6);
    ConcatFrom(c, 5);
    ConcatFrom(c, 4);
    ConcatFrom(c, 3);
    ConcatFrom(c, 2);
    ConcatFrom(c, 1);
    ConcatFrom(c, 0);
    assert c[0..] == c;
  }

  /** Every line `result` renders reads back as its five arguments. */
  lemma ResultRoundTrip(e: Entry)
    requires Renderable(e)
    ensures ReadResult(Result(e.opType, e.summ, e.currency, e.account, e.category)) == Some(e)
  {
    var c := ResultCaptures(e);
    ResultDecomposes(e);
    ResultSpelled(e);
    MatchSeqExact(ResultPattern, c, "");
    assert Concat(c) + "" == Concat(c);
  }

  lemma ResultDecomposes(e: Entry)
    requires Renderable(e)
    ensures Decomposes(ResultPattern, ResultCaptures(e), "")
  {
    var c := ResultCaptures(e);
    var c1, c2 := ResultHeadCaptures(e), ResultTailCaptures(e);
    assert c == c1 + c2;
    ResultTailDecomposes(e);
    ResultHeadDecomposes(e, Concat(c2) + "");
    DecomposesAppend(ResultHead, ResultTail, c1, c2, "");
  }

  function ResultHeadCaptures(e: Entry): seq<string> {
    ["Тип: ", e.opType, "; Сумма: ", e.summ, " "]
  }

  function ResultTailCaptures(e: Entry): seq<string> {
    [e.currency, "; Счёт: ", e.account, "; Категория: ", e.category]
  }

  lemma ResultHeadDecomposes(e: Entry, rest: string)
    requires Renderable(e)
    ensures Decomposes(ResultHead, ResultHeadCaptures(e), rest)
  {
    ChainedDecomposes(ResultHead, ResultHeadCaptures(e), rest);
  }

  lemma ResultTailDecomposes(e: Entry)
    requires Renderable(e)
    ensures Decomposes(ResultTail, ResultTailCaptures(e), "")
  {
    ChainedDecomposes(ResultTail, ResultTailCaptures(e), "");
  }

  /** Every line `result` renders is non-empty: it starts with the type tag. */
  lemma SummaryNonEmpty(a: Alert)
    ensures |Summary(a)| > 5 && Summary(a)[..5] == "Тип: "
  {
  }

  /** Label of each template. */
  function Label(t: Template): string {
    match t
    case Purchase => "покупка"
    case Debit => "списание"
    case Transfer => "списание"
    case Credit => "зачисление"
  }

  /** The category: the operation line, or the fixed category of a transfer order. */
  function Category(a: Alert): string {
    if a.TransferAlert? then TransferCategory else a.operation
  }

  /** The summary of a well-formed alert reads back as its template's label, then its amount,
      currency and account, then the category. */
  lemma SummaryReads(a: Alert)
    requires WellFormed(a)
    ensures ReadResult(Summary(a)) == Some(Entry(Label(TemplateOf(a)), a.summ, a.currency, a.account, Category(a)))
  {
    var e := Entry(Label(TemplateOf(a)), a.summ, a.currency, a.account, Category(a));
    LabelRun(TemplateOf(a));
    SummaryRuns(a);
    ResultRoundTrip(e);
    SummaryIsResult(a);
  }

  lemma LabelRun(t: Template)
    ensures Run(Label(t), NotSemicolon)
  {
  }

  lemma SummaryRuns(a: Alert)
    requires WellFormed(a)
    ensures Run(a.summ, DigitOrDot) && Run(a.currency, Word) && Run(a.account, Digit)
  {
  }

  /** Every template renders its label, the alert's amount, currency and account, and the category. */
  lemma SummaryIsResult(a: Alert)
    ensures Summary(a) == Result(Label(TemplateOf(a)), a.summ, a.currency, a.account, Category(a))
  {
  }

  /** The date group never reaches the output: changing it changes nothing. */
  lemma SummaryIgnoresDate(a: Alert, d: string)
    requires WellFormed(a) && FitsMask(d, "##/##/####")
    ensures WellFormed(a.(date := d)) && Summary(a.(date := d)) == Summary(a)
  {
  }

  /** A non-empty output reads back as the label of the chosen alert's template and that alert's
      amount, currency, account and category. */
  lemma ParseCitialertReads(txt: string)
    requires ParseCitialert(txt) != ""
    ensures exists a :: && Chosen(txt, a)
                        && ReadResult(ParseCitialert(txt))
                           == Some(Entry(Label(TemplateOf(a)), a.summ, a.currency, a.account, Category(a)))
  {
    var a := FirstMatch(Order, txt).value;
    FirstMatchChosen(txt, a);
    SummaryReads(a);
  }

  /** Template order beats text order: once a purchase alert stands anywhere in the text,
      the output is a purchase, whatever other alerts come before it. */
  lemma PurchaseWins(txt: string, p: nat, a: Alert)
    requires AlertAt(txt, p, a) && a.PurchaseAlert?
    ensures ParseCitialert(txt) != ""
    ensures ReadResult(ParseCitialert(txt)).Some? && ReadResult(ParseCitialert(txt)).value.opType == "покупка"
  {
    FindNone(Purchase, txt);
    var b := Find(Purchase, txt).value;
    FirstMatchFirst(Order, txt, b);
    assert Order[0] == Purchase;
    SummaryReads(b);
  }

  /** A purchase at MAGAZIN charged to account 1234. */
  predicate IsMagazinPurchase(a: Alert) {
    a == PurchaseAlert("1500.00", "RUB", " ", "1234", "\n", "MAGAZIN", "\n", "01/02/2021")
  }

  lemma MagazinPurchaseWellFormed(a: Alert)
    requires IsMagazinPurchase(a)
    ensures WellFormed(a)
  {
    assert HeadWellFormed(a);
    assert TailWellFormed(a);
  }

  lemma ExamplePurchase(a: Alert, rest: string)
    requires IsMagazinPurchase(a)
    ensures ParseCitialert(AlertText(a) + rest) == Result("покупка", "1500.00", "RUB", "1234", "MAGAZIN")
  {
    MagazinPurchaseWellFormed(a);
    AlertRoundTrip(a, rest);
    FirstMatchFirst(Order, AlertText(a) + rest, a);
    assert Order[0] == Purchase;
  }
}
