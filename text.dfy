/** The string building the Go code does with fmt.Sprintf and `+=`: comma
    lists, bracketed groups, and the %d and %f renderings of numbers. Each
    builder comes with the parser that reads it back. */
module Text {

  /** A body between a header and a trailer is recovered by cutting both off. */
  lemma Unwrap(header: string, body: string, trailer: string)
    ensures var s := header + body + trailer;
      && |s| >= |header| + |trailer|
      && s[..|header|] == header
      && s[|s| - |trailer|..] == trailer
      && s[|header|..|s| - |trailer|] == body
  {
  }

  // ----- Comma-separated lists -----

  /** `items` separated by single commas, with no trailing comma. */
  function Join(items: seq<string>): string
    decreases |items|
  {
    if |items| == 0 then ""
    else if |items| == 1 then items[0]
    else Join(items[..|items| - 1]) + "," + items[|items| - 1]
  }

  /** Every item followed by a comma, as a loop that always appends "x," builds. */
  function Terminated(items: seq<string>): string
    decreases |items|
  {
    if |items| == 0 then "" else Terminated(items[..|items| - 1]) + items[|items| - 1] + ","
  }

  /** Joining one more item adds a comma and the item, unless it is the first. */
  lemma JoinAppend(items: seq<string>, i: nat)
    requires i < |items|
    ensures Join(items[..i + 1]) == if i == 0 then items[0] else Join(items[..i]) + "," + items[i]
  {
    assert items[..i + 1][..i] == items[..i];
  }

  /** A list built by appending items one at a time, with a comma before
      every item but the first, is the joined list. */
  lemma JoinExtend(header: string, items: seq<string>, i: nat, out: string)
    requires i < |items|
    requires out == header + Join(items[..i]) + (if 0 < i then "," else "")
    ensures out + items[i] == header + Join(items[..i + 1])
  {
    JoinAppend(items, i);
  }

  /** Cutting the last character of a non-empty comma-terminated list leaves
      the joined list: no element is lost and none is empty by accident. */
  lemma {:induction false} TerminatedIsJoinThenComma(items: seq<string>)
    requires |items| > 0
    ensures Terminated(items) == Join(items) + ","
    decreases |items|
  {
    var n := |items|;
    if n > 1 {
      TerminatedIsJoinThenComma(items[..n - 1]);
      assert items[..n - 1][..n - 2] == items[..n - 2];
    } else {
      assert Terminated(items[..0]) == "";
    }
  }

  /** One turn of a loop that appends "x,": the list grows by one item. */
  lemma TerminatedExtend(header: string, items: seq<string>, i: nat, out: string)
    requires i < |items|
    requires out == header + Terminated(items[..i])
    ensures out + (items[i] + ",") == header + Terminated(items[..i + 1])
  {
    assert items[..i + 1][..i] == items[..i];
  }

  /** Appending a second comma-terminated list continues the first. */
  lemma {:induction false} TerminatedThenMore(header: string, first: seq<string>, second: seq<string>, out: string)
    requires out == header + Terminated(first)
    ensures out + Terminated(second) == header + Terminated(first + second)
    decreases |second|
  {
    var n := |second|;
    if n > 0 {
      TerminatedThenMore(header, first, second[..n - 1], out);
      var all := first + second;
      assert all[..|all| - 1] == first + second[..n - 1];
      assert Terminated(all) == Terminated(first + second[..n - 1]) + second[n - 1] + ",";
      assert Terminated(second) == Terminated(second[..n - 1]) + second[n - 1] + ",";
      calc {
        out + Terminated(second);
        out + (Terminated(second[..n - 1]) + second[n - 1] + ",");
        (out + Terminated(second[..n - 1])) + second[n - 1] + ",";
        (header + Terminated(first + second[..n - 1])) + second[n - 1] + ",";
        header + (Terminated(first + second[..n - 1]) + second[n - 1] + ",");
        header + Terminated(all);
      }
    } else {
      assert first + second == first;
    }
  }

  /** Cutting the trailing comma off a comma-terminated list that follows a
      header leaves the header and the joined list. */
  lemma DropLastComma(header: string, items: seq<string>, out: string)
    requires |items| > 0
    requires out == header + Terminated(items)
    ensures |out| > 0 && out[..|out| - 1] == header + Join(items)
  {
    TerminatedIsJoinThenComma(items);
    assert out == (header + Join(items)) + ",";
  }

  lemma {:induction false} JoinCons(w: string, rest: seq<string>)
    requires |rest| > 0
    ensures Join([w] + rest) == w + "," + Join(rest)
    decreases |rest|
  {
    var all := [w] + rest;
    var n := |rest|;
    if n == 1 {
      assert all[..1] == [w];
    } else {
      assert all[..n] == [w] + rest[..n - 1];
      JoinCons(w, rest[..n - 1]);
    }
  }

  /** A character other than the comma that no item contains is not in the
      joined list either. */
  lemma {:induction false} JoinAvoids(items: seq<string>, c: char)
    requires c != ','
    requires forall i :: 0 <= i < |items| ==> c !in items[i]
    ensures c !in Join(items)
    decreases |items|
  {
    if |items| > 1 {
      JoinAvoids(items[..|items| - 1], c);
    }
  }

  /** Splits at every comma (the inverse of Join). */
  function Split(s: string): (parts: seq<string>)
    ensures |parts| > 0
    decreases |s|
  {
    if |s| == 0 then [""]
    else
      var rest := Split(s[1..]);
      if s[0] == ',' then [""] + rest else [[s[0]] + rest[0]] + rest[1..]
  }

  lemma {:induction false} SplitWord(w: string, rest: string)
    requires ',' !in w
    ensures Split(w + "," + rest) == [w] + Split(rest)
    decreases |w|
  {
    var s := w + "," + rest;
    if |w| == 0 {
      assert s == [','] + rest;
      assert s[1..] == rest;
    } else {
      assert s[0] == w[0];
      assert s[1..] == w[1..] + "," + rest;
      SplitWord(w[1..], rest);
      assert [w[0]] + w[1..] == w;
    }
  }

  lemma {:induction false} SplitNoComma(w: string)
    requires ',' !in w
    ensures Split(w) == [w]
    decreases |w|
  {
    if |w| > 0 {
      SplitNoComma(w[1..]);
      assert [w[0]] + w[1..] == w;
    }
  }

  /** Round trip: splitting a joined list of comma-free items gives the
      items back, in order. */
  lemma {:induction false} SplitJoin(items: seq<string>)
    requires |items| > 0
    requires forall i :: 0 <= i < |items| ==> ',' !in items[i]
    ensures Split(Join(items)) == items
    decreases |items|
  {
    if |items| == 1 {
      SplitNoComma(items[0]);
    } else {
      var rest := items[1..];
      assert [items[0]] + rest == items;
      JoinCons(items[0], rest);
      SplitWord(items[0], Join(rest));
      SplitJoin(rest);
    }
  }

  // ----- Bracketed groups "[a],[b],..." -----

  function Bracket(body: string): string {
    "[" + body + "]"
  }

  function Bracketed(bodies: seq<string>): (groups: seq<string>)
    ensures |groups| == |bodies|
  {
    seq(|bodies|, i requires 0 <= i < |bodies| => Bracket(bodies[i]))
  }

  /** Position of the first `c` in `s`, or |s| when there is none. */
  function IndexOf(s: string, c: char): (i: nat)
    ensures i <= |s|
    ensures i < |s| ==> s[i] == c
    ensures forall j :: 0 <= j < i ==> s[j] != c
    decreases |s|
  {
    if |s| == 0 then 0 else if s[0] == c then 0 else 1 + IndexOf(s[1..], c)
  }

  /** Reads "[b0],[b1],...,[bn]" back into [b0, ..., bn]. */
  function Groups(s: string): seq<string>
    decreases |s|
  {
    if |s| == 0 || s[0] != '[' then []
    else
      var k := 1 + IndexOf(s[1..], ']');
      if k == |s| then []
      else [s[1..k]] + (if k + 1 < |s| && s[k + 1] == ',' then Groups(s[k + 2..]) else [])
  }

  lemma GroupsFirst(body: string, tail: string)
    requires ']' !in body
    ensures var s := Bracket(body) + tail;
      1 + IndexOf(s[1..], ']') == |body| + 1 && s[1..|body| + 1] == body
  {
    var s := Bracket(body) + tail;
    assert s[1..] == body + "]" + tail;
    var k := IndexOf(s[1..], ']');
    assert s[1..][|body|] == ']';
    assert forall j :: 0 <= j < |body| ==> s[1..][j] == body[j];
    assert k == |body|;
  }

  lemma {:induction false} GroupsJoin(bodies: seq<string>)
    requires forall i :: 0 <= i < |bodies| ==> ']' !in bodies[i]
    ensures Groups(Join(Bracketed(bodies))) == bodies
    decreases |bodies|
  {
    var groups := Bracketed(bodies);
    if |bodies| == 1 {
      assert Join(groups) == Bracket(bodies[0]) + "";
      GroupsFirst(bodies[0], "");
    } else if |bodies| > 1 {
      var rest := bodies[1..];
      assert groups == [Bracket(bodies[0])] + Bracketed(rest);
      JoinCons(Bracket(bodies[0]), Bracketed(rest));
      GroupsStep(bodies[0], Join(Bracketed(rest)));
      GroupsJoin(rest);
    }
  }

  /** One group, then a comma and the rest. */
  lemma GroupsStep(body: string, tail: string)
    requires ']' !in body
    ensures Groups(Bracket(body) + "," + tail) == [body] + Groups(tail)
  {
    var s := Bracket(body) + "," + tail;
    assert s == Bracket(body) + ("," + tail);
    GroupsFirst(body, "," + tail);
    var k := |body| + 1;
    assert s[k + 1] == ',';
    assert s[k + 2..] == tail;
  }

  // ----- Numbers: Go's %d and %f -----

  predicate IsDigit(c: char) {
    '0' <= c <= '9'
  }

  /** The characters %d and %f write for a finite number. */
  predicate IsNumeral(s: string) {
    |s| > 0 && forall i :: 0 <= i < |s| ==> IsDigit(s[i]) || s[i] == '-' || s[i] == '.'
  }

  lemma NumeralHasNoDelimiter(s: string)
    requires IsNumeral(s)
    ensures ',' !in s && '[' !in s && ']' !in s
  {
    forall i | 0 <= i < |s|
      ensures s[i] != ',' && s[i] != '[' && s[i] != ']'
    {
    }
  }

  function DigitChar(d: int): (c: char)
    requires 0 <= d < 10
    ensures IsDigit(c)
  {
    ('0' as int + d) as char
  }

  function DigitValue(c: char): int {
    c as int - '0' as int
  }

  /** The decimal digits of `n`, without leading zeros. */
  function Digits(n: nat): (s: string)
    ensures |s| > 0 && forall i :: 0 <= i < |s| ==> IsDigit(s[i])
    decreases n
  {
    if n < 10 then [DigitChar(n)] else Digits(n / 10) + [DigitChar(n % 10)]
  }

  /** The value of a string of decimal digits. */
  function DigitsValue(s: string): int
    decreases |s|
  {
    if |s| == 0 then 0 else 10 * DigitsValue(s[..|s| - 1]) + DigitValue(s[|s| - 1])
  }

  lemma {:induction false} DigitsRoundTrip(n: nat)
    ensures DigitsValue(Digits(n)) == n
    decreases n
  {
    if n >= 10 {
      DigitsRoundTrip(n / 10);
      var s := Digits(n);
      assert s[..|s| - 1] == Digits(n / 10);
    }
  }

  /** fmt's %d. */
  function Decimal(n: int): (s: string)
    ensures IsNumeral(s)
  {
    if n < 0 then "-" + Digits(-n) else Digits(n)
  }

  /** Reads a %d rendering back. */
  function ParseDecimal(s: string): int {
    if |s| > 0 && s[0] == '-' then -DigitsValue(s[1..]) else DigitsValue(s)
  }

  lemma DecimalRoundTrip(n: int)
    ensures ParseDecimal(Decimal(n)) == n
  {
    if n < 0 {
      DigitsRoundTrip(-n);
      assert ("-" + Digits(-n))[1..] == Digits(-n);
    } else {
      DigitsRoundTrip(n);
      assert IsDigit(Digits(n)[0]);
    }
  }

  /** Rounds to the nearest integer, ties to even (as strconv does on an
      exact halfway value). */
  function RoundHalfEven(y: real): (n: int)
    ensures -0.5 <= n as real - y <= 0.5
    ensures y >= 0.0 ==> n >= 0
  {
    var fl := y.Floor;
    var frac := y - fl as real;
    if frac < 0.5 then fl
    else if frac > 0.5 then fl + 1
    else if fl % 2 == 0 then fl else fl + 1
  }

  /** The low `width` decimal digits of `n`, zero-padded. */
  function FixedDigits(n: nat, width: nat): (s: string)
    ensures |s| == width && forall i :: 0 <= i < |s| ==> IsDigit(s[i])
    decreases width
  {
    if width == 0 then "" else FixedDigits(n / 10, width - 1) + [DigitChar(n % 10)]
  }

  lemma {:induction false} FixedDigitsRoundTrip(n: nat, width: nat, bound: nat)
    requires bound == Pow10(width) && n < bound
    ensures DigitsValue(FixedDigits(n, width)) == n
    decreases width
  {
    if width > 0 {
      var s := FixedDigits(n, width);
      assert s[..|s| - 1] == FixedDigits(n / 10, width - 1);
      FixedDigitsRoundTrip(n / 10, width - 1, Pow10(width - 1));
    }
  }

  function Pow10(k: nat): (p: nat)
    ensures p > 0
  {
    if k == 0 then 1 else 10 * Pow10(k - 1)
  }

  const Million: nat := 1000000

  function Abs(x: real): real {
    if x < 0.0 then -x else x
  }

  /** The number of millionths %f rounds |x| to. */
  function Millionths(x: real): (m: nat)
    ensures -0.5 <= m as real - Abs(x) * Million as real <= 0.5
  {
    RoundHalfEven(Abs(x) * Million as real)
  }

  /** fmt's %f (and %0.6f): sign, integer part, point, six decimals. */
  function Fixed6(x: real): (s: string)
    ensures IsNumeral(s)
  {
    var m := Millionths(x);
    (if x < 0.0 then "-" else "") + Digits(m / Million) + "." + FixedDigits(m % Million, 6)
  }

  /** Reads a %f rendering back, as a number of millionths with its sign. */
  function ParseFixed6(s: string): real {
    var negative := |s| > 0 && s[0] == '-';
    var body := if negative then s[1..] else s;
    var dot := IndexOf(body, '.');
    var whole := DigitsValue(body[..dot]);
    var fraction := if dot < |body| then DigitsValue(body[dot + 1..]) else 0;
    var magnitude := (whole * Million + fraction) as real / Million as real;
    if negative then -magnitude else magnitude
  }

  /** Every field of a list read back as a %f rendering. */
  function ParseFixed6s(fields: seq<string>): (values: seq<real>)
    ensures |values| == |fields|
  {
    seq(|fields|, k requires 0 <= k < |fields| => ParseFixed6(fields[k]))
  }

  /** Every field of a list read back as a %d rendering. */
  function ParseDecimals(fields: seq<string>): (values: seq<int>)
    ensures |values| == |fields|
  {
    seq(|fields|, k requires 0 <= k < |fields| => ParseDecimal(fields[k]))
  }

  /** %f renders x to within half a millionth, and a negative x keeps its sign. */
  lemma Fixed6RoundTrip(x: real)
    ensures var v := ParseFixed6(Fixed6(x));
      -0.0000005 <= v - x <= 0.0000005
  {
    var m := Millionths(x);
    var body := Digits(m / Million) + "." + FixedDigits(m % Million, 6);
    var s := Fixed6(x);
    assert s == (if x < 0.0 then "-" else "") + body;
    assert IsDigit(body[0]);
    assert (if |s| > 0 && s[0] == '-' then s[1..] else s) == body;
    UnsignedRoundTrip(m);
    assert ParseFixed6(s) == (if x < 0.0 then -(m as real / Million as real) else m as real / Million as real);
  }

  /** The digits, point and six decimals of m millionths read back as m / 10^6. */
  lemma UnsignedRoundTrip(m: nat)
    ensures var body := Digits(m / Million) + "." + FixedDigits(m % Million, 6);
      var dot := IndexOf(body, '.');
      && dot < |body|
      && (DigitsValue(body[..dot]) * Million + DigitsValue(body[dot + 1..])) as real / Million as real
           == m as real / Million as real
  {
    var q, r := m / Million, m % Million;
    GroupsDot(Digits(q), FixedDigits(r, 6));
    DigitsRoundTrip(q);
    assert Pow10(6) == Million;
    FixedDigitsRoundTrip(r, 6, Million);
    assert q * Million + r == m;
  }

  lemma GroupsDot(whole: string, fraction: string)
    requires forall i :: 0 <= i < |whole| ==> IsDigit(whole[i])
    ensures var s := whole + "." + fraction;
      IndexOf(s, '.') == |whole| && s[..|whole|] == whole && s[|whole| + 1..] == fraction
  {
    var s := whole + "." + fraction;
    assert s[|whole|] == '.';
    assert forall j :: 0 <= j < |whole| ==> s[j] == whole[j] && s[j] != '.';
  }
}
