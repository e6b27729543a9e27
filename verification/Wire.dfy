/** Text on the wire: numbers, fixed-point prices, and lines of space-separated fields. */
module Wire {

  // ----- lines and fields

  /** Unicode white space, as the trimming and splitting routines see it. */
  predicate IsSpace(c: char) {
    || '\t' <= c <= '\r' || c == ' ' || c == '\U{85}' || c == '\U{A0}' || c == '\U{1680}'
    || '\U{2000}' <= c <= '\U{200A}' || c == '\U{2028}' || c == '\U{2029}' || c == '\U{202F}'
    || c == '\U{205F}' || c == '\U{3000}'
  }

  /** A field that survives the trip: not empty, no white space in it. */
  predicate Word(s: string) {
    s != [] && forall i :: 0 <= i < |s| ==> !IsSpace(s[i])
  }

  function Index(s: string, c: char): nat {
    if s == [] || s[0] == c then 0 else 1 + Index(s[1..], c)
  }

  lemma {:induction false} IndexBound(s: string, c: char)
    ensures Index(s, c) <= |s|
    ensures Index(s, c) < |s| ==> s[Index(s, c)] == c
  {
    if s != [] && s[0] != c {
      IndexBound(s[1..], c);
    }
  }

  /** Cut at every single space. */
  function Split(s: string): seq<string>
    decreases |s|
  {
    IndexBound(s, ' ');
    var i := Index(s, ' ');
    if i == |s| then [s] else [s[..i]] + Split(s[i+1..])
  }

  function WordLen(s: string): nat {
    if s == [] || IsSpace(s[0]) then 0 else 1 + WordLen(s[1..])
  }

  lemma {:induction false} WordLenBound(s: string)
    ensures WordLen(s) <= |s|
  {
    if s != [] && !IsSpace(s[0]) {
      WordLenBound(s[1..]);
    }
  }

  /** The maximal runs without white space. */
  function Fields(s: string): seq<string>
    decreases |s|
  {
    if s == [] then []
    else if IsSpace(s[0]) then Fields(s[1..])
    else
      WordLenBound(s);
      [s[..WordLen(s)]] + Fields(s[WordLen(s)..])
  }

  function TrimLeft(s: string): string {
    if s != [] && IsSpace(s[0]) then TrimLeft(s[1..]) else s
  }

  function TrimRight(s: string): string {
    if s != [] && IsSpace(s[|s| - 1]) then TrimRight(s[..|s| - 1]) else s
  }

  function TrimSpace(s: string): string {
    TrimRight(TrimLeft(s))
  }

  function Join(fields: seq<string>): string
    requires fields != []
  {
    if |fields| == 1 then fields[0] else fields[0] + " " + Join(fields[1..])
  }

  ghost predicate Words(fields: seq<string>) {
    fields != [] && forall i :: 0 <= i < |fields| ==> Word(fields[i])
  }

  lemma {:induction false} IndexSkips(w: string, rest: string, c: char)
    requires forall i :: 0 <= i < |w| ==> w[i] != c
    ensures Index(w + rest, c) == |w| + Index(rest, c)
  {
    if w == [] {
      assert w + rest == rest;
    } else {
      assert (w + rest)[0] == w[0] && (w + rest)[1..] == w[1..] + rest;
      IndexSkips(w[1..], rest, c);
    }
  }

  lemma {:induction false} WordLenSkips(w: string, rest: string)
    requires forall i :: 0 <= i < |w| ==> !IsSpace(w[i])
    ensures WordLen(w + rest) == |w| + WordLen(rest)
  {
    if w == [] {
      assert w + rest == rest;
    } else {
      assert (w + rest)[0] == w[0] && (w + rest)[1..] == w[1..] + rest;
      WordLenSkips(w[1..], rest);
    }
  }

  /** Fields without the single space that separates them; they may be empty. */
  ghost predicate Unspaced(fields: seq<string>) {
    fields != [] && forall i, j :: 0 <= i < |fields| && 0 <= j < |fields[i]| ==> fields[i][j] != ' '
  }

  /** Cutting at every single space undoes joining. */
  lemma {:induction false} SplitUnspaced(fields: seq<string>)
    requires Unspaced(fields)
    ensures Split(Join(fields)) == fields
  {
    var w, s := fields[0], Join(fields);
    if |fields| == 1 {
      IndexSkips(w, "", ' ');
      assert w + "" == w;
      assert fields == [w];
    } else {
      var rest := Join(fields[1..]);
      assert s == w + (" " + rest);
      IndexSkips(w, " " + rest, ' ');
      SplitUnspaced(fields[1..]);
      assert s[..|w|] == w && s[|w|+1..] == rest;
      assert fields == [w] + fields[1..];
    }
  }

  lemma SplitJoin(fields: seq<string>)
    requires Words(fields)
    ensures Split(Join(fields)) == fields
  {
    assert forall i :: 0 <= i < |fields| ==> Word(fields[i]);
    SplitUnspaced(fields);
  }

  lemma {:induction false} FieldsJoin(fields: seq<string>)
    requires Words(fields)
    ensures Fields(Join(fields)) == fields
  {
    var w, s := fields[0], Join(fields);
    assert Word(w);
    if |fields| == 1 {
      WordLenSkips(w, "");
      assert w + "" == w;
      assert s[|w|..] == "";
      assert fields == [w] + [];
    } else {
      var rest := Join(fields[1..]);
      assert s == w + (" " + rest);
      WordLenSkips(w, " " + rest);
      assert Words(fields[1..]);
      FieldsJoin(fields[1..]);
      assert s[..|w|] == w && s[|w|..] == " " + rest;
      assert (" " + rest)[1..] == rest;
      assert fields == [w] + fields[1..];
    }
  }

  lemma {:induction false} JoinEnds(fields: seq<string>)
    requires Words(fields)
    ensures Join(fields) != [] && !IsSpace(Join(fields)[0]) && !IsSpace(Join(fields)[|Join(fields)| - 1])
  {
    assert Word(fields[0]);
    if |fields| > 1 {
      assert Words(fields[1..]);
      JoinEnds(fields[1..]);
    }
  }

  /** A line of proper words goes through trimming and either way of splitting unharmed. */
  lemma LineRoundTrip(fields: seq<string>)
    requires Words(fields)
    ensures TrimSpace(Join(fields)) == Join(fields) && Join(fields) != []
    ensures Split(Join(fields)) == fields && Fields(Join(fields)) == fields
  {
    JoinEnds(fields);
    SplitJoin(fields);
    FieldsJoin(fields);
  }

  // ----- any line, proper or not

  /** And joining undoes cutting, of any string. */
  lemma {:induction false} SplitExact(s: string)
    ensures Unspaced(Split(s)) && Join(Split(s)) == s
    decreases |s|
  {
    IndexBound(s, ' ');
    IndexFirst(s, ' ');
    var i := Index(s, ' ');
    if i == |s| {
      assert Split(s) == [s];
    } else {
      SplitExact(s[i+1..]);
      var rest := Split(s[i+1..]);
      assert Split(s) == [s[..i]] + rest;
      assert (([s[..i]] + rest)[1..]) == rest;
      assert s == s[..i] + " " + s[i+1..];
    }
  }

  lemma {:induction false} IndexFirst(s: string, c: char)
    ensures forall j :: 0 <= j < Index(s, c) && j < |s| ==> s[j] != c
  {
    if s != [] && s[0] != c {
      IndexFirst(s[1..], c);
    }
  }

  /** White space separates and is dropped, any amount of it; a run without any is one field. */
  lemma {:induction false} FieldsExact(a: string, c: char, b: string)
    requires IsSpace(c)
    ensures Fields(a + [c] + b) == Fields(a) + Fields(b)
    ensures Word(a) ==> Fields(a) == [a]
    ensures Fields("") == []
    decreases |a|
  {
    var s := a + [c] + b;
    if a == [] {
      assert s[1..] == b;
      assert [] + Fields(b) == Fields(b);
    } else if IsSpace(a[0]) {
      assert s[1..] == a[1..] + [c] + b;
      FieldsExact(a[1..], c, b);
    } else {
      WordLenBound(a);
      WordEnds(a);
      var n := WordLen(a);
      WordLenSkips(a[..n], a[n..] + [c] + b);
      assert s == a[..n] + (a[n..] + [c] + b);
      assert WordLen(a[n..] + [c] + b) == 0 by {
        assert a[n..] != [] ==> (a[n..] + [c] + b)[0] == a[n];
        assert a[n..] == [] ==> (a[n..] + [c] + b)[0] == c;
      }
      assert s[..n] == a[..n] && s[n..] == a[n..] + [c] + b;
      FieldsExact(a[n..], c, b);
      assert Fields(a) == [a[..n]] + Fields(a[n..]);
      if Word(a) {
        WordLenSkips(a, "");
        assert a + "" == a && a[n..] == [];
      }
    }
  }

  lemma {:induction false} WordEnds(s: string)
    ensures var n := WordLen(s); n <= |s| && (forall i :: 0 <= i < n ==> !IsSpace(s[i])) && (n < |s| ==> IsSpace(s[n]))
  {
    if s != [] && !IsSpace(s[0]) {
      WordEnds(s[1..]);
    }
  }

  ghost predicate Blank(s: string) {
    forall i :: 0 <= i < |s| ==> IsSpace(s[i])
  }

  lemma {:induction false} TrimLeftExact(l: string, s: string)
    requires Blank(l) && (s == [] || !IsSpace(s[0]))
    ensures TrimLeft(l + s) == s
  {
    if l == [] {
      assert l + s == s;
    } else {
      assert (l + s)[1..] == l[1..] + s;
      TrimLeftExact(l[1..], s);
    }
  }

  lemma {:induction false} TrimRightExact(s: string, r: string)
    requires Blank(r) && (s == [] || !IsSpace(s[|s| - 1]))
    ensures TrimRight(s + r) == s
  {
    if r == [] {
      assert s + r == s;
    } else {
      assert (s + r)[..|s + r| - 1] == s + r[..|r| - 1];
      TrimRightExact(s, r[..|r| - 1]);
    }
  }

  /** Trimming takes away the white space around, all of it and nothing else. */
  lemma TrimExact(l: string, s: string, r: string)
    requires Blank(l) && Blank(r) && (s != [] ==> !IsSpace(s[0]) && !IsSpace(s[|s| - 1]))
    ensures TrimSpace(l + s + r) == s
  {
    if s == [] {
      assert l + s + r == (l + r) + "";
      TrimLeftExact(l + r, "");
    } else {
      assert l + s + r == l + (s + r);
      TrimLeftExact(l, s + r);
      TrimRightExact(s, r);
    }
  }

  // ----- integers

  const MAX_UINT64 := 0x1_0000_0000_0000_0000 - 1
  const MAX_INT64 := 0x8000_0000_0000_0000 - 1
  const MIN_INT64 := -0x8000_0000_0000_0000

  predicate Int64(n: int) {
    MIN_INT64 <= n <= MAX_INT64
  }

  /** Two's-complement wrap-around of a 64-bit result. */
  function Wrap64(n: int): int {
    (n + 0x8000_0000_0000_0000) % 0x1_0000_0000_0000_0000 - 0x8000_0000_0000_0000
  }

  function Digit(d: int): char
    requires 0 <= d < 10
  {
    ['0', '1', '2', '3', '4', '5', '6', '7', '8', '9'][d]
  }

  predicate IsDigit(c: char) {
    '0' <= c <= '9'
  }

  function DigitValue(c: char): int {
    c as int - '0' as int
  }

  function FormatNat(n: nat): string {
    if n < 10 then [Digit(n)] else FormatNat(n / 10) + [Digit(n % 10)]
  }

  function FormatInt(n: int): string {
    if n < 0 then "-" + FormatNat(-n) else FormatNat(n)
  }

  datatype Parsed = Parsed(value: int) | BadSyntax | OutOfRange(clamped: int) {
    /** The number a caller sees who ignores the error. */
    function Value(): int {
      match this
      case Parsed(v) => v
      case BadSyntax => 0
      case OutOfRange(c) => c
    }
  }

  /** Digits from left to right; the first bad character or overflow decides. */
  function Scan(s: string, acc: int): Parsed {
    if s == [] then Parsed(acc)
    else if !IsDigit(s[0]) then BadSyntax
    else
      var next := acc * 10 + DigitValue(s[0]);
      if next > MAX_UINT64 then OutOfRange(MAX_UINT64) else Scan(s[1..], next)
  }

  /** A signed 64-bit decimal number. */
  function ParseInt(s: string): Parsed {
    if s == [] then BadSyntax
    else
      var neg := s[0] == '-';
      var digits := if s[0] == '-' || s[0] == '+' then s[1..] else s;
      if digits == [] then BadSyntax
      else
        match Scan(digits, 0)
        case BadSyntax => BadSyntax
        case OutOfRange(_) => OutOfRange(if neg then MIN_INT64 else MAX_INT64)
        case Parsed(u) =>
          if !neg && u > MAX_INT64 then OutOfRange(MAX_INT64)
          else if neg && u > MAX_INT64 + 1 then OutOfRange(MIN_INT64)
          else Parsed(if neg then -u else u)
  }

  ghost predicate AllDigits(s: string) {
    forall i :: 0 <= i < |s| ==> IsDigit(s[i])
  }

  /** The number a string of digits denotes. */
  ghost function Value(s: string): int {
    if s == [] then 0 else Value(s[..|s| - 1]) * 10 + DigitValue(s[|s| - 1])
  }

  lemma {:induction false} ValueBound(s: string)
    requires AllDigits(s)
    ensures 0 <= Value(s) < Pow10(|s|)
  {
    if s != [] {
      ValueBound(s[..|s| - 1]);
    }
  }

  ghost function Pow10(n: nat): int {
    if n == 0 then 1 else 10 * Pow10(n - 1)
  }

  lemma {:induction false} ScanSnoc(s: string, d: char, acc: int)
    requires Scan(s, acc).Parsed?
    ensures Scan(s + [d], acc) ==
      if !IsDigit(d) then BadSyntax
      else if Scan(s, acc).value * 10 + DigitValue(d) > MAX_UINT64 then OutOfRange(MAX_UINT64)
      else Parsed(Scan(s, acc).value * 10 + DigitValue(d))
  {
    if s == [] {
      assert s + [d] == [d];
    } else {
      assert (s + [d])[0] == s[0] && (s + [d])[1..] == s[1..] + [d];
      ScanSnoc(s[1..], d, acc * 10 + DigitValue(s[0]));
    }
  }

  lemma {:induction false} ScanIsValue(s: string)
    requires AllDigits(s) && Value(s) <= MAX_UINT64
    ensures Scan(s, 0) == Parsed(Value(s))
  {
    if s != [] {
      var p := s[..|s| - 1];
      assert AllDigits(p);
      ValueBound(p);
      ScanIsValue(p);
      ScanSnoc(p, s[|s| - 1], 0);
      assert s == p + [s[|s| - 1]];
    }
  }

  lemma {:induction false} ScanStops(s: string, d: char, acc: int)
    requires Scan(s, acc).OutOfRange?
    ensures Scan(s + [d], acc).OutOfRange?
  {
    if s == [] {
      assert false;
    } else {
      assert (s + [d])[0] == s[0] && (s + [d])[1..] == s[1..] + [d];
      if acc * 10 + DigitValue(s[0]) <= MAX_UINT64 {
        ScanStops(s[1..], d, acc * 10 + DigitValue(s[0]));
      }
    }
  }

  lemma {:induction false} ScanOverflows(s: string)
    requires AllDigits(s) && Value(s) > MAX_UINT64
    ensures Scan(s, 0).OutOfRange?
  {
    if s != [] {
      var p := s[..|s| - 1];
      assert s == p + [s[|s| - 1]];
      assert AllDigits(p) && IsDigit(s[|s| - 1]);
      ValueBound(p);
      if Value(p) <= MAX_UINT64 {
        ScanIsValue(p);
        ScanSnoc(p, s[|s| - 1], 0);
      } else {
        ScanOverflows(p);
        ScanStops(p, s[|s| - 1], 0);
      }
    }
  }

  lemma {:induction false} FormatNatIs(n: nat)
    ensures AllDigits(FormatNat(n)) && FormatNat(n) != [] && Value(FormatNat(n)) == n
    ensures n > 0 ==> FormatNat(n)[0] != '0'
    ensures forall k: nat :: n < Pow10(k) && k > 0 ==> |FormatNat(n)| <= k
  {
    if n >= 10 {
      FormatNatIs(n / 10);
      var p := FormatNat(n / 10);
      assert FormatNat(n)[..|p|] == p;
      assert Pow10(1) == 10 * Pow10(0);
      forall k: nat | n < Pow10(k) && k > 0
        ensures |FormatNat(n)| <= k
      {
        assert k > 1 && n / 10 < Pow10(k - 1);
      }
    } else {
      assert FormatNat(n)[..0] == [];
    }
  }

  lemma IntRoundTrip(n: int)
    requires Int64(n)
    ensures ParseInt(FormatInt(n)) == Parsed(n)
  {
    var u := if n < 0 then -n else n;
    FormatNatIs(u);
    ScanIsValue(FormatNat(u));
    if n < 0 {
      assert FormatInt(n)[1..] == FormatNat(u);
    } else {
      assert IsDigit(FormatInt(n)[0]);
    }
  }

  lemma {:induction false} ScanOn(s: string, rest: string, acc: int)
    ensures Scan(s, acc).Parsed? ==> Scan(s + rest, acc) == Scan(rest, Scan(s, acc).value)
    ensures Scan(s, acc).OutOfRange? ==> Scan(s + rest, acc) == Scan(s, acc)
  {
    if s == [] {
      assert s + rest == rest;
    } else {
      assert (s + rest)[0] == s[0] && (s + rest)[1..] == s[1..] + rest;
      ScanOn(s[1..], rest, acc * 10 + DigitValue(s[0]));
    }
  }

  lemma ScanExact(d: string, rest: string)
    requires AllDigits(d) && (rest != [] ==> !IsDigit(rest[0]))
    ensures Value(d) <= MAX_UINT64 ==> Scan(d + rest, 0) == if rest == [] then Parsed(Value(d)) else BadSyntax
    ensures Value(d) > MAX_UINT64 ==> Scan(d + rest, 0).OutOfRange?
  {
    ScanOn(d, rest, 0);
    if Value(d) <= MAX_UINT64 {
      ScanIsValue(d);
    } else {
      ScanOverflows(d);
    }
  }

  /** Any string at all is an optional sign, some digits and a rest that does not begin with a digit: what it
      reads as. A rest is only noticed if the digits have not overflowed 64 unsigned bits before it. */
  lemma ParseIntExact(sign: string, d: string, rest: string)
    requires sign == "" || sign == "-" || sign == "+"
    requires AllDigits(d) && (rest != "" ==> !IsDigit(rest[0]))
    requires sign == "" && d == "" && rest != "" ==> rest[0] != '-' && rest[0] != '+'
    ensures var r, v := ParseInt(sign + d + rest), if sign == "-" then -Value(d) else Value(d);
      if d == "" || (rest != "" && Value(d) <= MAX_UINT64) then r == BadSyntax && r.Value() == 0
      else if MIN_INT64 <= v <= MAX_INT64 then r == Parsed(v) && r.Value() == v
      else var bound := if sign == "-" then MIN_INT64 else MAX_INT64; r == OutOfRange(bound) && r.Value() == bound
  {
    ValueBound(d);
    ScanExact(d, rest);
    var s := sign + d + rest;
    if sign == "" {
      assert s == d + rest;
      if d != "" {
        assert s[0] == d[0] && IsDigit(d[0]);
      }
    } else {
      assert s[0] == sign[0] && s[1..] == d + rest;
    }
  }

  lemma IntIsWord(n: int)
    ensures Word(FormatInt(n))
  {
    FormatNatIs(if n < 0 then -n else n);
  }
}
