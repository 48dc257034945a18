/** The part of Python's `re.search` the notification templates rely on.

    A template is a sequence of pieces; each piece is one regex atom with its
    quantifier. In every template of this model each greedy quantifier is
    followed by a character outside its class, with two exceptions: the `\s*`
    of the idiom `\s*$\s+`, which is followed by `\s` and is therefore taken
    together with it as one piece (`LineGap`), and a `\w+` that ends a
    template, which is followed only by the text after the match (a match
    there needs that text to start outside the class). So the regex engine
    never has a second way to extend a match at a given position: how much
    each piece takes is decided by the characters that follow it. `Accepts` states that
    local rule, `MatchSeq` computes it, and `Search` tries start positions
    from the left, as `re.search` does. */
module Regex {
  import opened Text

  datatype Piece =
    | Lit(text: string)    // the literal text
    | Plus(k: Class)       // k+   (greedy)
    | Star(k: Class)       // k*   (greedy)
    | Opt(ch: char)        // ch?  (greedy)
    | Mask(shape: string)  // fixed width: '#' is \d, any other character stands for itself
    | LazyLine             // (.*?) when followed by \s*$\s+ : the rest of the line without trailing \s
    | LineGap              // \s*$\s+ : a maximal run of \s that crosses a line end

  predicate FitsMask(s: string, shape: string) {
    |s| == |shape| && forall i :: 0 <= i < |s| ==> if shape[i] == '#' then IsDigit(s[i]) else s[i] == shape[i]
  }

  lemma {:induction false} FitsMaskAppend(a: string, b: string, m1: string, m2: string)
    requires |a| == |m1|
    ensures FitsMask(a + b, m1 + m2) <==> FitsMask(a, m1) && FitsMask(b, m2)
  {
    if FitsMask(a, m1) && FitsMask(b, m2) {
      forall i | 0 <= i < |a + b|
        ensures if (m1 + m2)[i] == '#' then IsDigit((a + b)[i]) else (a + b)[i] == (m1 + m2)[i]
      {
        if i >= |a| {
          assert (a + b)[i] == b[i - |a|] && (m1 + m2)[i] == m2[i - |a|];
        }
      }
    }
    if FitsMask(a + b, m1 + m2) {
      forall i | 0 <= i < |a| ensures if m1[i] == '#' then IsDigit(a[i]) else a[i] == m1[i] {
        assert (a + b)[i] == a[i] && (m1 + m2)[i] == m1[i];
      }
      forall i | 0 <= i < |b| ensures if m2[i] == '#' then IsDigit(b[i]) else b[i] == m2[i] {
        assert (a + b)[i + |a|] == b[i] && (m1 + m2)[i + |a|] == m2[i];
      }
    }
  }

  /** A character that is neither a digit nor in the shape never occurs in text that fits it. */
  lemma MaskAvoids(s: string, shape: string, c: char)
    requires FitsMask(s, shape) && c !in shape && !IsDigit(c)
    ensures c !in s
  {
    forall i | 0 <= i < |s| ensures s[i] != c {
      if shape[i] != '#' {
        assert shape[i] in shape;
      }
    }
  }

  /** A character outside class k never occurs in a run of k. */
  lemma ClassAvoids(s: string, k: Class, c: char)
    requires All(s, k) && !In(c, k)
    ensures c !in s
  {
  }

  /** Length of the current line: the text before the first '\n'. */
  function LineLen(s: string): nat {
    Span(s, NotNewline)
  }

  /** s without its trailing \s characters: the shortest prefix after which only \s remains. */
  function TrimEnd(s: string): (t: string)
    ensures t <= s
    ensures All(s[|t|..], Space)
    ensures t == [] || !IsSpace(t[|t| - 1])
  {
    if s != [] && IsSpace(s[|s| - 1]) then
      var t := TrimEnd(s[..|s| - 1]);
      assert s[|t|..] == s[..|s| - 1][|t|..] + [s[|s| - 1]];
      t
    else s
  }

  /** Piece p takes exactly c when the text after c is next. */
  predicate Accepts(p: Piece, c: string, next: string) {
    match p
    case Lit(t) => c == t
    case Plus(k) => |c| >= 1 && All(c, k) && (next == [] || !In(next[0], k))
    case Star(k) => All(c, k) && (next == [] || !In(next[0], k))
    case Opt(ch) => c == [ch] || (c == [] && (next == [] || next[0] != ch))
    case Mask(shape) => FitsMask(c, shape)
    case LazyLine =>
      All(c, NotNewline) && (c == [] || !IsSpace(c[|c| - 1])) && All(next[..LineLen(next)], Space)
    case LineGap => All(c, Space) && '\n' in c && (next == [] || !IsSpace(next[0]))
  }

  /** One piece at the front of s: the text it takes and what remains. */
  function MatchPiece(p: Piece, s: string): (r: Option<(string, string)>)
    ensures r.Some? ==> s == r.value.0 + r.value.1 && Accepts(p, r.value.0, r.value.1)
  {
    match p
    case Lit(t) =>
      if t <= s then Some((t, s[|t|..])) else None
    case Plus(k) =>
      var n := Span(s, k);
      if n >= 1 then Some((s[..n], s[n..])) else None
    case Star(k) =>
      var n := Span(s, k);
      Some((s[..n], s[n..]))
    case Opt(ch) =>
      if |s| >= 1 && s[0] == ch then Some((s[..1], s[1..])) else Some(([], s))
    case Mask(shape) =>
      if |shape| <= |s| && FitsMask(s[..|shape|], shape) then Some((s[..|shape|], s[|shape|..])) else None
    case LazyLine =>
      var line := s[..LineLen(s)];
      var c := TrimEnd(line);
      LazyLineSound(s, c);
      Some((c, s[|c|..]))
    case LineGap =>
      var n := Span(s, Space);
      if '\n' in s[..n] then Some((s[..n], s[n..])) else None
  }

  lemma {:induction false} LazyLineSound(s: string, c: string)
    requires c == TrimEnd(s[..LineLen(s)])
    ensures s == c + s[|c|..]
    ensures Accepts(LazyLine, c, s[|c|..])
  {
    var n := LineLen(s);
    var w := s[..n][|c|..];
    LineParts(s, n, c);
    LineEndsHere(w, s[n..]);
  }

  /** The trimmed line, the blank end of the line, and the rest of the text. */
  lemma LineParts(s: string, n: nat, c: string)
    requires n == LineLen(s) && c == TrimEnd(s[..n])
    ensures s == c + s[|c|..] && s[|c|..] == s[..n][|c|..] + s[n..]
    ensures All(c, NotNewline) && All(s[..n][|c|..], NotNewline) && All(s[..n][|c|..], Space)
    ensures s[n..] == [] || s[n..][0] == '\n'
  {
    var line := s[..n];
    var w := line[|c|..];
    assert line == c + w;
    assert s == line + s[n..];
    assert s[|c|..] == w + s[n..];
    AllAppend(c, w, NotNewline);
    assert s[n..] != [] ==> s[n..][0] == s[n];
  }

  /** A blank run followed by a line break (or nothing) is the whole current line. */
  lemma LineEndsHere(w: string, after: string)
    requires All(w, NotNewline) && All(w, Space)
    requires after == [] || after[0] == '\n'
    ensures (w + after)[..LineLen(w + after)] == w
  {
    SpanOfRun(w, after, NotNewline);
    assert (w + after)[..|w|] == w;
  }

  /** A piece takes exactly what it accepts. */
  lemma MatchPieceExact(p: Piece, c: string, next: string)
    requires Accepts(p, c, next)
    ensures MatchPiece(p, c + next) == Some((c, next))
  {
    var s := c + next;
    assert s[..|c|] == c && s[|c|..] == next;
    match p
    case Lit(t) =>
    case Plus(k) =>
      SpanOfRun(c, next, k);
    case Star(k) =>
      SpanOfRun(c, next, k);
    case Opt(ch) =>
    case Mask(shape) =>
    case LazyLine =>
      SpanAfterRun(c, next, NotNewline);
      var w := next[..LineLen(next)];
      assert s[..LineLen(s)] == c + w;
      TrimEndOfBlank(c, w);
    case LineGap =>
      SpanOfRun(c, next, Space);
  }

  /** Trailing \s is all that TrimEnd removes. */
  lemma {:induction false} TrimEndOfBlank(c: string, w: string)
    requires All(w, Space)
    requires c == [] || !IsSpace(c[|c| - 1])
    ensures TrimEnd(c + w) == c
  {
    if w == [] {
      assert c + w == c;
    } else {
      var s := c + w;
      assert s[..|s| - 1] == c + w[..|w| - 1];
      TrimEndOfBlank(c, w[..|w| - 1]);
    }
  }

  /** caps[i] is what pattern piece ps[i] takes when rest is left after the last piece. */
  predicate Decomposes(ps: seq<Piece>, caps: seq<string>, rest: string) {
    |caps| == |ps| &&
    forall i {:trigger ps[i]} :: 0 <= i < |ps| ==> Accepts(ps[i], caps[i], Concat(caps[i + 1..]) + rest)
  }

  lemma DecomposesCons(ps: seq<Piece>, caps: seq<string>, rest: string)
    requires |ps| >= 1 && |caps| == |ps|
    ensures Decomposes(ps, caps, rest) <==>
      Accepts(ps[0], caps[0], Concat(caps[1..]) + rest) && Decomposes(ps[1..], caps[1..], rest)
  {
    assert forall i :: 1 <= i < |ps| ==> caps[i + 1..] == caps[1..][i..];
  }

  lemma DecomposesPrepend(ps: seq<Piece>, c: string, cs: seq<string>, rest: string)
    requires |ps| >= 1
    requires Accepts(ps[0], c, Concat(cs) + rest) && Decomposes(ps[1..], cs, rest)
    ensures Decomposes(ps, [c] + cs, rest)
    ensures Concat([c] + cs) + rest == c + (Concat(cs) + rest)
  {
    var caps := [c] + cs;
    assert caps[1..] == cs;
    DecomposesCons(ps, caps, rest);
  }

  /** Matches the whole pattern at the front of s: the captures of every piece and what remains. */
  function MatchSeq(ps: seq<Piece>, s: string): (r: Option<(seq<string>, string)>)
    ensures r.Some? ==> s == Concat(r.value.0) + r.value.1 && Decomposes(ps, r.value.0, r.value.1)
  {
    if ps == [] then Some(([], s))
    else
      match MatchPiece(ps[0], s)
      case None => None
      case Some((c, next)) =>
        match MatchSeq(ps[1..], next)
        case None => None
        case Some((cs, rest)) =>
          DecomposesPrepend(ps, c, cs, rest);
          Some(([c] + cs, rest))
  }

  /** A decomposition along ps1 + ps2 is one along ps1 followed by one along ps2. */
  lemma {:induction false} DecomposesAppend(ps1: seq<Piece>, ps2: seq<Piece>, c1: seq<string>, c2: seq<string>, rest: string)
    requires |c1| == |ps1| && |c2| == |ps2|
    ensures Decomposes(ps1 + ps2, c1 + c2, rest) <==>
      Decomposes(ps1, c1, Concat(c2) + rest) && Decomposes(ps2, c2, rest)
  {
    var ps, caps := ps1 + ps2, c1 + c2;
    forall i | 0 <= i < |ps1|
      ensures ps[i] == ps1[i] && caps[i] == c1[i]
      ensures Concat(caps[i + 1..]) + rest == Concat(c1[i + 1..]) + (Concat(c2) + rest)
    {
      assert caps[i + 1..] == c1[i + 1..] + c2;
      ConcatAppend(c1[i + 1..], c2);
    }
    forall i | |ps1| <= i < |ps|
      ensures ps[i] == ps2[i - |ps1|] && caps[i] == c2[i - |ps1|]
      ensures caps[i + 1..] == c2[i - |ps1| + 1..]
    {
    }
    if Decomposes(ps1, c1, Concat(c2) + rest) && Decomposes(ps2, c2, rest) {
      forall i | 0 <= i < |ps| ensures Accepts(ps[i], caps[i], Concat(caps[i + 1..]) + rest) {
        if i >= |ps1| {
          var j := i - |ps1|;
          assert Accepts(ps2[j], c2[j], Concat(c2[j + 1..]) + rest);
        }
      }
    }
    if Decomposes(ps, caps, rest) {
      forall j | 0 <= j < |ps2| ensures Accepts(ps2[j], c2[j], Concat(c2[j + 1..]) + rest) {
        assert Accepts(ps[j + |ps1|], caps[j + |ps1|], Concat(caps[j + |ps1| + 1..]) + rest);
      }
    }
  }

  /** The matcher finds a decomposition exactly when one exists, and then that one. */
  lemma {:induction false} MatchSeqExact(ps: seq<Piece>, caps: seq<string>, rest: string)
    requires Decomposes(ps, caps, rest)
    ensures MatchSeq(ps, Concat(caps) + rest) == Some((caps, rest))
  {
    if ps != [] {
      DecomposesCons(ps, caps, rest);
      var next := Concat(caps[1..]) + rest;
      assert Concat(caps) + rest == caps[0] + next;
      MatchPieceExact(ps[0], caps[0], next);
      assert MatchPiece(ps[0], Concat(caps) + rest) == Some((caps[0], next));
      MatchSeqExact(ps[1..], caps[1..], rest);
      assert MatchSeq(ps[1..], next) == Some((caps[1..], rest));
      assert [caps[0]] + caps[1..] == caps;
    } else {
      assert Concat(caps) + rest == rest;
    }
  }

  /** A text decomposes along a pattern in at most one way. */
  lemma DecompositionUnique(ps: seq<Piece>, caps1: seq<string>, rest1: string, caps2: seq<string>, rest2: string)
    requires Decomposes(ps, caps1, rest1) && Decomposes(ps, caps2, rest2)
    requires Concat(caps1) + rest1 == Concat(caps2) + rest2
    ensures caps1 == caps2 && rest1 == rest2
  {
    MatchSeqExact(ps, caps1, rest1);
    MatchSeqExact(ps, caps2, rest2);
  }

  /** The pattern matches txt at position p with captures caps (the `re` notion of a match). */
  ghost predicate MatchesAt(ps: seq<Piece>, txt: string, p: nat, caps: seq<string>) {
    var n := |Concat(caps)|;
    p + n <= |txt| && txt[p..p + n] == Concat(caps) && Decomposes(ps, caps, txt[p + n..])
  }

  /** A decomposition of the text after p, read off at p, is a match at p. */
  lemma MatchesAtIntro(ps: seq<Piece>, txt: string, p: nat, caps: seq<string>, rest: string)
    requires p + |Concat(caps)| <= |txt| && txt[p..p + |Concat(caps)|] == Concat(caps)
    requires rest == txt[p + |Concat(caps)|..] && Decomposes(ps, caps, rest)
    ensures MatchesAt(ps, txt, p, caps)
  {
  }

  lemma {:induction false} MatchesAtIff(ps: seq<Piece>, txt: string, p: nat, caps: seq<string>)
    requires p <= |txt|
    ensures MatchesAt(ps, txt, p, caps) <==> MatchSeq(ps, txt[p..]).Some? && MatchSeq(ps, txt[p..]).value.0 == caps
  {
    var n := |Concat(caps)|;
    if MatchesAt(ps, txt, p, caps) {
      assert txt[p..] == Concat(caps) + txt[p + n..];
      MatchSeqExact(ps, caps, txt[p + n..]);
    }
    if MatchSeq(ps, txt[p..]).Some? && MatchSeq(ps, txt[p..]).value.0 == caps {
      var rest := MatchSeq(ps, txt[p..]).value.1;
      assert txt[p..] == Concat(caps) + rest;
      assert txt[p..p + n] == txt[p..][..n];
      assert txt[p + n..] == rest;
    }
  }

  /** Start positions from..|txt| in order; the first one at which the pattern matches. */
  function SearchFrom(ps: seq<Piece>, txt: string, from: nat): (r: Option<(nat, seq<string>)>)
    requires from <= |txt|
    ensures r.Some? ==> from <= r.value.0 <= |txt| && MatchSeq(ps, txt[r.value.0..]).Some?
    ensures r.Some? ==> MatchSeq(ps, txt[r.value.0..]).value.0 == r.value.1
    decreases |txt| - from
  {
    var m := MatchSeq(ps, txt[from..]);
    if m.Some? then Some((from, m.value.0))
    else if from == |txt| then None
    else SearchFrom(ps, txt, from + 1)
  }

  /** No start position before the reported one matches: a match at q means one is found at or before q. */
  lemma {:induction false} SearchFromFirst(ps: seq<Piece>, txt: string, from: nat, q: nat)
    requires from <= q <= |txt|
    requires MatchSeq(ps, txt[q..]).Some?
    ensures SearchFrom(ps, txt, from).Some? && SearchFrom(ps, txt, from).value.0 <= q
    decreases q - from
  {
    if q > from && MatchSeq(ps, txt[from..]).None? {
      SearchFromFirst(ps, txt, from + 1, q);
    }
  }

  /** Python's `re.search(pattern, txt)`: the leftmost match, if any. */
  function Search(ps: seq<Piece>, txt: string): Option<(nat, seq<string>)> {
    SearchFrom(ps, txt, 0)
  }

  /** The position Search reports is the leftmost one at which the pattern matches. */
  lemma SearchLeftmost(ps: seq<Piece>, txt: string, p: nat, caps: seq<string>)
    ensures Search(ps, txt) == Some((p, caps)) <==>
      MatchesAt(ps, txt, p, caps) && forall q: nat, cs :: q < p ==> !MatchesAt(ps, txt, q, cs)
  {
    if Search(ps, txt) == Some((p, caps)) {
      SearchReported(ps, txt, p, caps);
    }
    if MatchesAt(ps, txt, p, caps) && forall q: nat, cs :: q < p ==> !MatchesAt(ps, txt, q, cs) {
      SearchFinds(ps, txt, p, caps);
    }
  }

  lemma {:induction false} SearchReported(ps: seq<Piece>, txt: string, p: nat, caps: seq<string>)
    requires Search(ps, txt) == Some((p, caps))
    ensures MatchesAt(ps, txt, p, caps)
    ensures forall q: nat, cs :: q < p ==> !MatchesAt(ps, txt, q, cs)
  {
    MatchesAtIff(ps, txt, p, caps);
    forall q: nat, cs | q < p ensures !MatchesAt(ps, txt, q, cs) {
      if MatchesAt(ps, txt, q, cs) {
        MatchesAtIff(ps, txt, q, cs);
        SearchFromFirst(ps, txt, 0, q);
      }
    }
  }

  lemma {:induction false} SearchFinds(ps: seq<Piece>, txt: string, p: nat, caps: seq<string>)
    requires MatchesAt(ps, txt, p, caps)
    requires forall q: nat, cs :: q < p ==> !MatchesAt(ps, txt, q, cs)
    ensures Search(ps, txt) == Some((p, caps))
  {
    MatchesAtIff(ps, txt, p, caps);
    forall q | 0 <= q < p ensures MatchSeq(ps, txt[q..]).None? {
      if MatchSeq(ps, txt[q..]).Some? {
        MatchesAtIff(ps, txt, q, MatchSeq(ps, txt[q..]).value.0);
      }
    }
    SearchFromAt(ps, txt, 0, p);
  }

  /** A match at p with none in from..p-1 is what SearchFrom reports. */
  lemma {:induction false} SearchFromAt(ps: seq<Piece>, txt: string, from: nat, p: nat)
    requires from <= p <= |txt|
    requires MatchSeq(ps, txt[p..]).Some?
    requires forall q :: from <= q < p ==> MatchSeq(ps, txt[q..]).None?
    ensures SearchFrom(ps, txt, from) == Some((p, MatchSeq(ps, txt[p..]).value.0))
    decreases p - from
  {
    if from < p {
      SearchFromAt(ps, txt, from + 1, p);
    }
  }

  /** Search finds nothing exactly when the pattern matches at no position. */
  lemma SearchNone(ps: seq<Piece>, txt: string)
    ensures Search(ps, txt).None? <==> forall p: nat, cs :: !MatchesAt(ps, txt, p, cs)
  {
    if Search(ps, txt).None? {
      forall p: nat, cs ensures !MatchesAt(ps, txt, p, cs) {
        if MatchesAt(ps, txt, p, cs) {
          MatchesAtIff(ps, txt, p, cs);
          SearchFromFirst(ps, txt, 0, p);
        }
      }
    } else {
      var (p, caps) := Search(ps, txt).value;
      MatchesAtIff(ps, txt, p, caps);
    }
  }

  /** A piece whose extent depends on the character after it. */
  predicate LooksAhead(p: Piece) {
    !p.Lit? && !p.Mask?
  }

  /** A piece accepts by looking at no more than the start of the next capture. */
  lemma AcceptsExtend(p: Piece, c: string, d: string, e: string)
    requires Accepts(p, c, d)
    requires LooksAhead(p) ==> d != []
    requires p.LazyLine? ==> '\n' in d
    ensures Accepts(p, c, d + e)
  {
    if p.LazyLine? {
      assert Span(d, NotNewline) < |d| by {
        var j :| 0 <= j < |d| && d[j] == '\n';
        var n := Span(d, NotNewline);
        if n > j {
          assert d[..n][j] == d[j];
        }
      }
      SpanStopsInPrefix(d, e, NotNewline);
      assert (d + e)[..LineLen(d + e)] == d[..LineLen(d)];
    }
  }

  /** Each capture is accepted given only the capture after it (rest after the last one). */
  ghost predicate Chained(ps: seq<Piece>, caps: seq<string>, rest: string) {
    |caps| == |ps| &&
    (forall i :: 0 <= i < |ps| - 1 ==>
       Accepts(ps[i], caps[i], caps[i + 1])
       && (LooksAhead(ps[i]) ==> caps[i + 1] != [])
       && (ps[i].LazyLine? ==> '\n' in caps[i + 1])) &&
    (|ps| >= 1 ==> Accepts(ps[|ps| - 1], caps[|ps| - 1], rest))
  }

  /** Captures that fit together pairwise form a decomposition. */
  lemma ChainedDecomposes(ps: seq<Piece>, caps: seq<string>, rest: string)
    requires Chained(ps, caps, rest)
    ensures Decomposes(ps, caps, rest)
  {
    forall i | 0 <= i < |ps| ensures Accepts(ps[i], caps[i], Concat(caps[i + 1..]) + rest) {
      if i == |ps| - 1 {
        assert caps[i + 1..] == [];
        assert Concat(caps[i + 1..]) + rest == rest;
      } else {
        assert caps[i + 1..][1..] == caps[i + 2..];
        assert Concat(caps[i + 1..]) + rest == caps[i + 1] + (Concat(caps[i + 2..]) + rest);
        AcceptsExtend(ps[i], caps[i], caps[i + 1], Concat(caps[i + 2..]) + rest);
      }
    }
  }
}
