/** Strings, the character classes the notification templates use, and
    Python's `sep.join(fields)` / `s.split(sep)` on a one-character separator. */
module Text {

  datatype Option<+T> = None | Some(value: T)

  /** The character classes of the templates. The patterns are compiled by
      Python 2's `re` without the UNICODE flag, so `\d`, `\w` and `\s` have
      their ASCII meaning. */
  datatype Class =
    | DigitOrDot    // [0-9.]
    | Digit         // \d
    | Word          // \w
    | Space         // \s
    | NotNewline    // .
    | NotCrLf       // [^\r\n]
    | NotSemicolon  // [^;]
    | AnyChar

  predicate IsDigit(c: char) {
    '0' <= c <= '9'
  }

  predicate IsWordChar(c: char) {
    IsDigit(c) || 'a' <= c <= 'z' || 'A' <= c <= 'Z' || c == '_'
  }

  /** Space, tab, newline, carriage return, vertical tab and form feed. */
  predicate IsSpace(c: char) {
    c == ' ' || c == '\t' || c == '\n' || c == '\r' || c == '\U{000B}' || c == '\U{000C}'
  }

  predicate In(c: char, k: Class) {
    match k
    case DigitOrDot => IsDigit(c) || c == '.'
    case Digit => IsDigit(c)
    case Word => IsWordChar(c)
    case Space => IsSpace(c)
    case NotNewline => c != '\n'
    case NotCrLf => c != '\n' && c != '\r'
    case NotSemicolon => c != ';'
    case AnyChar => true
  }

  /** Every character of s is in class k. */
  predicate All(s: string, k: Class) {
    forall i :: 0 <= i < |s| ==> In(s[i], k)
  }

  /** A concatenation is in class k exactly when both parts are. */
  lemma AllAppend(x: string, y: string, k: Class)
    ensures All(x + y, k) <==> All(x, k) && All(y, k)
  {
    if All(x + y, k) {
      assert forall i :: 0 <= i < |x| ==> x[i] == (x + y)[i];
      assert forall i :: 0 <= i < |y| ==> y[i] == (x + y)[|x| + i];
    }
  }

  /** A slice that lies inside the first part of a concatenation. */
  lemma SliceOfAppend(x: string, y: string, i: nat, j: nat)
    requires i <= j <= |x|
    ensures (x + y)[i..j] == x[i..j]
  {
  }

  /** Length of the longest prefix of s inside class k: how far a greedy `k*` reaches. */
  function Span(s: string, k: Class): (n: nat)
    ensures n <= |s|
    ensures All(s[..n], k)
    ensures n < |s| ==> !In(s[n], k)
  {
    if s == [] || !In(s[0], k) then 0
    else
      var n := 1 + Span(s[1..], k);
      assert forall i :: 1 <= i < n ==> s[..n][i] == s[1..][..n - 1][i - 1];
      n
  }

  /** The three properties of Span determine it. */
  lemma SpanUnique(s: string, k: Class, n: nat)
    requires n <= |s| && All(s[..n], k) && (n < |s| ==> !In(s[n], k))
    ensures Span(s, k) == n
  {
  }

  /** A run of class k followed by a character outside k (or by nothing) is exactly what `k*` takes. */
  lemma SpanOfRun(x: string, y: string, k: Class)
    requires All(x, k)
    requires y == [] || !In(y[0], k)
    ensures Span(x + y, k) == |x|
  {
    assert (x + y)[..|x|] == x;
    SpanUnique(x + y, k, |x|);
  }

  /** A run of class k at the front of the text adds its length to the span. */
  lemma SpanAfterRun(x: string, y: string, k: Class)
    requires All(x, k)
    ensures Span(x + y, k) == |x| + Span(y, k)
  {
    var n := Span(y, k);
    var s := x + y;
    assert s[..|x| + n] == x + y[..n];
    assert |x| + n < |s| ==> s[|x| + n] == y[n];
    SpanUnique(s, k, |x| + n);
  }

  /** When the run already stops inside x, text appended after x is never reached. */
  lemma SpanStopsInPrefix(x: string, y: string, k: Class)
    requires Span(x, k) < |x|
    ensures Span(x + y, k) == Span(x, k)
  {
    var n := Span(x, k);
    assert (x + y)[..n] == x[..n];
    assert (x + y)[n] == x[n];
    SpanUnique(x + y, k, n);
  }

  /** The parts joined end to end. */
  function Concat(parts: seq<string>): string {
    if parts == [] then "" else parts[0] + Concat(parts[1..])
  }

  lemma {:induction false} ConcatAppend(a: seq<string>, b: seq<string>)
    ensures Concat(a + b) == Concat(a) + Concat(b)
  {
    if a == [] {
      assert a + b == b;
    } else {
      assert (a + b)[1..] == a[1..] + b;
      ConcatAppend(a[1..], b);
    }
  }

  lemma ConcatFrom(parts: seq<string>, i: nat)
    requires i < |parts|
    ensures Concat(parts[i..]) == parts[i] + Concat(parts[i + 1..])
  {
    assert parts[i..][1..] == parts[i + 1..];
  }

  /** Python's `sep.join(fields)`. */
  function Join(fields: seq<string>, sep: char): string {
    if |fields| == 0 then ""
    else if |fields| == 1 then fields[0]
    else fields[0] + [sep] + Join(fields[1..], sep)
  }

  /** Index of the first occurrence of sep in s, or |s| if there is none. */
  function IndexOf(s: string, sep: char): (i: nat)
    ensures i <= |s|
    ensures sep !in s[..i]
    ensures i < |s| ==> s[i] == sep
  {
    if s == [] then 0
    else if s[0] == sep then 0
    else
      var i := 1 + IndexOf(s[1..], sep);
      assert s[..i] == [s[0]] + s[1..][..i - 1];
      i
  }

  /** Python's `s.split(sep)` with an explicit one-character separator. */
  function Split(s: string, sep: char): (fields: seq<string>)
    ensures |fields| >= 1
    decreases |s|
  {
    var i := IndexOf(s, sep);
    if i == |s| then [s] else [s[..i]] + Split(s[i + 1..], sep)
  }

  /** Number of occurrences of c in s. */
  function Count(s: string, c: char): nat {
    if s == [] then 0 else (if s[0] == c then 1 else 0) + Count(s[1..], c)
  }

  /** Splitting a join gives the fields back when no field holds the separator. */
  lemma {:induction false} SplitJoin(fields: seq<string>, sep: char)
    requires |fields| >= 1
    requires forall j :: 0 <= j < |fields| ==> sep !in fields[j]
    ensures Split(Join(fields, sep), sep) == fields
  {
    var f := fields[0];
    if |fields| == 1 {
      SplitNone(f, sep);
    } else {
      var tail := fields[1..];
      assert forall j :: 0 <= j < |tail| ==> tail[j] == fields[j + 1];
      SplitJoin(tail, sep);
      assert [f] + tail == fields;
      SplitJoinStep(f, tail, sep);
    }
  }

  lemma SplitJoinStep(f: string, tail: seq<string>, sep: char)
    requires |tail| >= 1 && sep !in f
    requires Split(Join(tail, sep), sep) == tail
    ensures Split(Join([f] + tail, sep), sep) == [f] + tail
  {
    var fields := [f] + tail;
    assert fields[0] == f && fields[1..] == tail;
    assert Join(fields, sep) == f + ([sep] + Join(tail, sep));
    SplitCons(f, Join(tail, sep), sep);
  }

  /** Text without the separator splits into itself. */
  lemma SplitNone(s: string, sep: char)
    requires sep !in s
    ensures Split(s, sep) == [s]
  {
    IndexOfFirst(s, [], sep);
    assert s + [] == s;
  }

  /** A field without the separator, then the separator, splits off as the first field. */
  lemma SplitCons(f: string, rest: string, sep: char)
    requires sep !in f
    ensures Split(f + ([sep] + rest), sep) == [f] + Split(rest, sep)
  {
    var s := f + ([sep] + rest);
    IndexOfFirst(f, [sep] + rest, sep);
    assert s[..|f|] == f && s[|f| + 1..] == rest;
  }

  /** The first separator of x + y is the one that starts y, when x has none. */
  lemma {:induction false} IndexOfFirst(x: string, y: string, sep: char)
    requires sep !in x
    requires y == [] || y[0] == sep
    ensures IndexOf(x + y, sep) == |x|
  {
    if x != [] {
      assert (x + y)[1..] == x[1..] + y;
      IndexOfFirst(x[1..], y, sep);
    } else {
      assert x + y == y;
    }
  }

  /** s.split(sep) has one field more than s has separators. */
  lemma {:induction false} SplitCount(s: string, sep: char)
    ensures |Split(s, sep)| == Count(s, sep) + 1
    decreases |s|
  {
    var i := IndexOf(s, sep);
    CountNone(s[..i], sep);
    if i == |s| {
      assert s[..i] == s;
    } else {
      SplitCount(s[i + 1..], sep);
      assert s == s[..i] + ([sep] + s[i + 1..]);
      CountAppend(s[..i], [sep] + s[i + 1..], sep);
      assert ([sep] + s[i + 1..])[1..] == s[i + 1..];
    }
  }

  lemma {:induction false} CountNone(s: string, c: char)
    requires c !in s
    ensures Count(s, c) == 0
  {
    if s != [] {
      CountNone(s[1..], c);
    }
  }

  lemma {:induction false} CountAppend(a: string, b: string, c: char)
    ensures Count(a + b, c) == Count(a, c) + Count(b, c)
  {
    if a == [] {
      assert a + b == b;
    } else {
      assert (a + b)[1..] == a[1..] + b;
      CountAppend(a[1..], b, c);
    }
  }

  /** Joining one more field appends the separator and that field. */
  lemma {:induction false} JoinSnoc(fields: seq<string>, x: string, sep: char)
    requires |fields| >= 1
    ensures Join(fields + [x], sep) == Join(fields, sep) + [sep] + x
  {
    if |fields| > 1 {
      assert (fields + [x])[1..] == fields[1..] + [x];
      JoinSnoc(fields[1..], x, sep);
    }
  }

  /** Total number of occurrences of c in all the fields. */
  function CountAll(fields: seq<string>, c: char): nat {
    if fields == [] then 0 else Count(fields[0], c) + CountAll(fields[1..], c)
  }

  /** Joined text holds the fields' own separators plus one between each two fields. */
  lemma {:induction false} CountJoin(fields: seq<string>, sep: char)
    requires |fields| >= 1
    ensures Count(Join(fields, sep), sep) == CountAll(fields, sep) + |fields| - 1
  {
    if |fields| == 1 {
      assert fields[1..] == [];
    } else {
      CountJoin(fields[1..], sep);
      CountAppend(fields[0], [sep], sep);
      CountAppend(fields[0] + [sep], Join(fields[1..], sep), sep);
      assert Count([sep], sep) == 1;
    }
  }

  lemma CountAllFrom(fields: seq<string>, i: nat, c: char)
    requires i < |fields|
    ensures CountAll(fields[i..], c) == Count(fields[i], c) + CountAll(fields[i + 1..], c)
  {
    assert fields[i..][1..] == fields[i + 1..];
  }

  /** A character other than the separator is in a join only if some field holds it. */
  lemma {:induction false} JoinAvoids(fields: seq<string>, sep: char, c: char)
    requires c != sep
    requires forall j :: 0 <= j < |fields| ==> c !in fields[j]
    ensures c !in Join(fields, sep)
  {
    if |fields| > 1 {
      JoinAvoids(fields[1..], sep, c);
    }
  }
}
