/** The text `json.dumps(fields, separators=(",", ":"))` produces for a flat list of
    strings, integers and nulls, and the proof that it can be read back in one way
    only. Strings are sequences of Unicode scalar values; escaping follows section 7
    of RFC 8259 with every character outside printable ASCII escaped. */
module CanonicalJson {
  import opened Common

  datatype Scalar = Null | Int(n: int) | Str(s: string)

  const BACKSLASH: byte := 92
  const CLOSE: byte := 93
  const COMMA: byte := 44
  const OPEN: byte := 91
  const QUOTE: byte := 34

  function HexDigit(d: nat): byte
    requires d < 16
  {
    if d < 10 then 48 + d else 87 + d
  }

  /** `\uXXXX`, four lower-case hexadecimal digits. */
  function UnicodeEscape(u: nat): seq<byte>
    requires u < 0x1_0000
  {
    [BACKSLASH, 117, HexDigit(u / 4096), HexDigit(u / 256 % 16), HexDigit(u / 16 % 16), HexDigit(u % 16)]
  }

  function EscapeCode(u: nat): seq<byte>
    requires u < 0x11_0000
  {
    if u == 34 then [BACKSLASH, 34]
    else if u == 92 then [BACKSLASH, 92]
    else if u == 8 then [BACKSLASH, 98]
    else if u == 9 then [BACKSLASH, 116]
    else if u == 10 then [BACKSLASH, 110]
    else if u == 12 then [BACKSLASH, 102]
    else if u == 13 then [BACKSLASH, 114]
    else if 32 <= u <= 126 then [u]
    else if u < 0x1_0000 then UnicodeEscape(u)
    else UnicodeEscape(0xD800 + (u - 0x1_0000) / 0x400) + UnicodeEscape(0xDC00 + (u - 0x1_0000) % 0x400)
  }

  function EscapeString(s: string): seq<byte> {
    if s == [] then [] else EscapeCode(s[0] as int) + EscapeString(s[1..])
  }

  function Digits(n: nat): (r: seq<byte>)
    ensures |r| > 0 && forall i :: 0 <= i < |r| ==> 48 <= r[i] <= 57
  {
    if n < 10 then [48 + n] else Digits(n / 10) + [48 + n % 10]
  }

  function EncodeScalar(a: Scalar): seq<byte> {
    match a
    case Null => [110, 117, 108, 108]
    case Int(n) => if n < 0 then [45] + Digits(-n) else Digits(n)
    case Str(s) => [QUOTE] + EscapeString(s) + [QUOTE]
  }

  function EncodeItems(xs: seq<Scalar>): seq<byte> {
    if |xs| == 0 then []
    else if |xs| == 1 then EncodeScalar(xs[0])
    else EncodeScalar(xs[0]) + [COMMA] + EncodeItems(xs[1..])
  }

  function EncodeArray(xs: seq<Scalar>): seq<byte> {
    [OPEN] + EncodeItems(xs) + [CLOSE]
  }

  // ---- a reader of JSON arrays, after sections 5 to 7 of RFC 8259 ----

  function HexValue(b: byte): Option<nat> {
    if 48 <= b <= 57 then Some(b - 48)
    else if 97 <= b <= 102 then Some(b - 87)
    else if 65 <= b <= 70 then Some(b - 55)
    else None
  }

  /** The UTF-16 unit that `\uXXXX` stands for. */
  function ReadUnit(t: seq<byte>): Option<nat> {
    if |t| < 6 || t[0] != BACKSLASH || t[1] != 117 then None
    else
      var a, b, c, d := HexValue(t[2]), HexValue(t[3]), HexValue(t[4]), HexValue(t[5]);
      if a.None? || b.None? || c.None? || d.None? then None
      else Some(a.value * 4096 + b.value * 256 + c.value * 16 + d.value)
  }

  /** The two-character escapes. */
  function ShortEscape(b: byte): Option<char> {
    if b == 34 then Some('"')
    else if b == 92 then Some('\\')
    else if b == 47 then Some('/')
    else if b == 98 then Some(8 as char)
    else if b == 102 then Some(12 as char)
    else if b == 110 then Some(10 as char)
    else if b == 114 then Some(13 as char)
    else if b == 116 then Some(9 as char)
    else None
  }

  /** One character of an ASCII string, and how many bytes it took. */
  function ReadChar(t: seq<byte>): (r: Option<(char, nat)>)
    ensures r.Some? ==> 0 < r.value.1 <= |t|
  {
    if t == [] || t[0] == QUOTE || t[0] < 32 || t[0] > 126 then None
    else if t[0] != BACKSLASH then Some((t[0] as char, 1))
    else if |t| >= 2 && t[1] != 117 then
      var c := ShortEscape(t[1]);
      if c.None? then None else Some((c.value, 2))
    else
      var u := ReadUnit(t);
      if u.None? || 0xDC00 <= u.value < 0xE000 || u.value >= 0x1_0000 then None
      else if u.value < 0xD800 || u.value >= 0xE000 then Some((u.value as char, 6))
      else
        var l := ReadUnit(t[6..]);
        if l.None? || !(0xDC00 <= l.value < 0xE000) then None
        else Some(((0x1_0000 + (u.value - 0xD800) * 0x400 + (l.value - 0xDC00)) as char, 12))
  }

  /** The string up to its closing quote, and what follows the quote. */
  function ReadString(t: seq<byte>): (r: Option<(string, seq<byte>)>)
    ensures r.Some? ==> |r.value.1| < |t|
    decreases |t|
  {
    if t == [] then None
    else if t[0] == QUOTE then Some(("", t[1..]))
    else
      var c := ReadChar(t);
      if c.None? then None
      else
        var rest := ReadString(t[c.value.1..]);
        if rest.None? then None else Some(([c.value.0] + rest.value.0, rest.value.1))
  }

  /** The decimal number that goes on from `acc`, and what follows its last digit. */
  function ReadDigits(acc: nat, t: seq<byte>): (r: (nat, seq<byte>))
    ensures |r.1| <= |t|
    decreases |t|
  {
    if t == [] || t[0] < 48 || t[0] > 57 then (acc, t) else ReadDigits(acc * 10 + (t[0] - 48), t[1..])
  }

  function ReadScalar(t: seq<byte>): (r: Option<(Scalar, seq<byte>)>)
    ensures r.Some? ==> |r.value.1| < |t|
  {
    if t == [] then None
    else if t[0] == QUOTE then
      var s := ReadString(t[1..]);
      if s.None? then None else Some((Str(s.value.0), s.value.1))
    else if t[0] == 45 && |t| > 1 && 48 <= t[1] <= 57 then
      var n := ReadDigits(0, t[1..]);
      Some((Int(0 - n.0), n.1))
    else if 48 <= t[0] <= 57 then
      var n := ReadDigits(t[0] - 48, t[1..]);
      Some((Int(n.0), n.1))
    else if |t| >= 4 && t[..4] == [110, 117, 108, 108] then Some((Null, t[4..]))
    else None
  }

  /** The scalars up to the closing bracket, which ends the text. */
  function ReadItems(t: seq<byte>): Option<seq<Scalar>>
    decreases |t|
  {
    var a := ReadScalar(t);
    if a.None? then None
    else if a.value.1 == [CLOSE] then Some([a.value.0])
    else if a.value.1 == [] || a.value.1[0] != COMMA then None
    else
      var rest := ReadItems(a.value.1[1..]);
      if rest.None? then None else Some([a.value.0] + rest.value)
  }

  function ReadArray(t: seq<byte>): Option<seq<Scalar>> {
    if t == [] || t[0] != OPEN then None
    else if t[1..] == [CLOSE] then Some([])
    else ReadItems(t[1..])
  }

  // ---- reading back ----

  lemma Nibbles(a: nat)
    requires a < 0x1_0000
    ensures a == a / 4096 * 4096 + a / 256 % 16 * 256 + a / 16 % 16 * 16 + a % 16
    ensures a / 4096 < 16
  {
    var b := a / 16;
    var c := b / 16;
    var d := c / 16;
    assert a == b * 16 + a % 16 && b == c * 16 + b % 16 && c == d * 16 + c % 16;
    assert c == a / 256 && d == a / 4096;
  }

  lemma UnitReadsBack(u: nat, x: seq<byte>)
    requires u < 0x1_0000
    ensures ReadUnit(UnicodeEscape(u) + x) == Some(u)
  {
    Nibbles(u);
  }

  /** What kind of escape a code point gets, read off its first bytes. */
  lemma EscapeHead(u: nat)
    requires u < 0x11_0000
    ensures EscapeCode(u)[0] != QUOTE
    ensures EscapeCode(u)[0] != BACKSLASH ==> EscapeCode(u) == [u] && 32 <= u <= 126
    ensures EscapeCode(u)[0] == BACKSLASH ==> |EscapeCode(u)| == 2 || |EscapeCode(u)| == 6 || |EscapeCode(u)| == 12
    ensures EscapeCode(u)[0] == BACKSLASH && EscapeCode(u)[1] != 117 ==> |EscapeCode(u)| == 2
    ensures EscapeCode(u)[0] == BACKSLASH && EscapeCode(u)[1] == 117 ==> |EscapeCode(u)| == 6 || |EscapeCode(u)| == 12
  {}

  lemma PairReadsBack(u: nat, x: seq<byte>)
    requires 0x1_0000 <= u < 0x11_0000
    ensures ReadChar(EscapeCode(u) + x) == Some((u as char, 12))
  {
    var h, l := 0xD800 + (u - 0x1_0000) / 0x400, 0xDC00 + (u - 0x1_0000) % 0x400;
    var t := EscapeCode(u) + x;
    assert t == UnicodeEscape(h) + (UnicodeEscape(l) + x);
    UnitReadsBack(h, UnicodeEscape(l) + x);
    assert t[6..] == UnicodeEscape(l) + x;
    UnitReadsBack(l, x);
  }

  lemma CharReadsBack(c: char, x: seq<byte>)
    ensures ReadChar(EscapeCode(c as int) + x) == Some((c, |EscapeCode(c as int)|))
  {
    var u := c as int;
    if u >= 0x1_0000 {
      PairReadsBack(u, x);
    } else if EscapeCode(u) == UnicodeEscape(u) {
      UnitReadsBack(u, x);
    }
  }

  /** A character in front of a string that reads back. */
  lemma CharThenString(c: char, t: seq<byte>)
    requires ReadString(t).Some?
    ensures ReadString(EscapeCode(c as int) + t) == Some(([c] + ReadString(t).value.0, ReadString(t).value.1))
  {
    hide ReadChar;
    var e := EscapeCode(c as int);
    EscapeHead(c as int);
    CharReadsBack(c, t);
    assert (e + t)[0] == e[0] && (e + t)[|e|..] == t;
  }

  lemma StringStep(s: string, x: seq<byte>)
    requires s != []
    ensures EscapeString(s) + [QUOTE] + x == EscapeCode(s[0] as int) + (EscapeString(s[1..]) + [QUOTE] + x)
  {
    hide EscapeCode;
  }

  lemma {:induction false} StringReadsBack(s: string, x: seq<byte>)
    ensures ReadString(EscapeString(s) + [QUOTE] + x) == Some((s, x))
    decreases s
  {
    hide EscapeCode, ReadString;
    if s == [] {
      EmptyReadsBack(x);
    } else {
      StringStep(s, x);
      StringReadsBack(s[1..], x);
      CharThenString(s[0], EscapeString(s[1..]) + [QUOTE] + x);
      assert s == [s[0]] + s[1..];
    }
  }

  lemma EmptyReadsBack(x: seq<byte>)
    ensures EscapeString("") + [QUOTE] + x == [QUOTE] + x && ReadString([QUOTE] + x) == Some(("", x))
  {
    assert ([QUOTE] + x)[1..] == x;
  }

  lemma {:induction false} DigitsReadBack(n: nat, x: seq<byte>)
    ensures ReadDigits(0, Digits(n) + x) == ReadDigits(n, x)
  {
    var d := [48 + n % 10];
    if n < 10 {
      assert (Digits(n) + x)[1..] == x;
    } else {
      assert Digits(n) + x == Digits(n / 10) + (d + x);
      DigitsReadBack(n / 10, d + x);
      assert (d + x)[1..] == x;
    }
  }

  predicate Delimited(x: seq<byte>) { |x| > 0 && (x[0] == COMMA || x[0] == CLOSE) }

  lemma StrReadsBack(s: string, x: seq<byte>)
    ensures ReadScalar(EncodeScalar(Str(s)) + x) == Some((Str(s), x))
  {
    var t := EncodeScalar(Str(s)) + x;
    assert t[1..] == EscapeString(s) + [QUOTE] + x;
    StringReadsBack(s, x);
  }

  lemma NatReadsBack(n: nat, x: seq<byte>)
    requires Delimited(x)
    ensures ReadScalar(Digits(n) + x) == Some((Int(n), x))
    ensures n > 0 ==> ReadScalar([45] + (Digits(n) + x)) == Some((Int(0 - n), x))
  {
    hide Digits;
    var t := Digits(n) + x;
    assert t[0] == Digits(n)[0];
    DigitsReadBack(n, x);
    assert ReadDigits(n, x) == (n, x);
    assert ([45] + t)[1..] == t;
  }

  lemma IntReadsBack(n: int, x: seq<byte>)
    requires Delimited(x)
    ensures ReadScalar(EncodeScalar(Int(n)) + x) == Some((Int(n), x))
  {
    hide Digits, ReadScalar;
    if n < 0 {
      NatReadsBack(-n, x);
      assert EncodeScalar(Int(n)) + x == [45] + (Digits(-n) + x);
    } else {
      NatReadsBack(n, x);
    }
  }

  lemma NullReadsBack(x: seq<byte>)
    ensures ReadScalar(EncodeScalar(Null) + x) == Some((Null, x))
  {
    var t := EncodeScalar(Null) + x;
    assert t[..4] == [110, 117, 108, 108] && t[4..] == x;
  }

  lemma ScalarReadsBack(a: Scalar, x: seq<byte>)
    requires Delimited(x)
    ensures ReadScalar(EncodeScalar(a) + x) == Some((a, x))
  {
    match a {
      case Null => NullReadsBack(x);
      case Str(s) => StrReadsBack(s, x);
      case Int(n) => IntReadsBack(n, x);
    }
  }

  /** What follows the first scalar of a list: the close, or a comma and the rest. */
  function AfterFirst(xs: seq<Scalar>): seq<byte>
    requires |xs| > 0
  {
    if |xs| == 1 then [CLOSE] else [COMMA] + (EncodeItems(xs[1..]) + [CLOSE])
  }

  lemma FirstThenRest(xs: seq<Scalar>)
    requires |xs| > 0
    ensures EncodeItems(xs) + [CLOSE] == EncodeScalar(xs[0]) + AfterFirst(xs)
    ensures Delimited(AfterFirst(xs))
    ensures |xs| == 1 ==> AfterFirst(xs) == [CLOSE]
    ensures |xs| > 1 ==> |AfterFirst(xs)| > 1 && AfterFirst(xs)[0] == COMMA
    ensures |xs| > 1 ==> AfterFirst(xs)[1..] == EncodeItems(xs[1..]) + [CLOSE]
  {
    hide EncodeScalar, EncodeItems;
    ItemsStep(xs);
    if |xs| > 1 {
      Regroup(EncodeScalar(xs[0]), EncodeItems(xs[1..]));
    }
  }

  lemma ItemsStep(xs: seq<Scalar>)
    requires |xs| > 0
    ensures |xs| == 1 ==> EncodeItems(xs) == EncodeScalar(xs[0])
    ensures |xs| > 1 ==> EncodeItems(xs) == EncodeScalar(xs[0]) + [COMMA] + EncodeItems(xs[1..])
  {}

  lemma Regroup(a: seq<byte>, b: seq<byte>)
    ensures a + [COMMA] + b + [CLOSE] == a + ([COMMA] + (b + [CLOSE]))
    ensures ([COMMA] + (b + [CLOSE]))[1..] == b + [CLOSE]
  {}

  lemma {:induction false} ItemsReadBack(xs: seq<Scalar>)
    requires |xs| > 0
    ensures ReadItems(EncodeItems(xs) + [CLOSE]) == Some(xs)
  {
    hide EncodeItems, EncodeScalar, AfterFirst, ReadScalar;
    FirstThenRest(xs);
    ScalarReadsBack(xs[0], AfterFirst(xs));
    if |xs| > 1 {
      ItemsReadBack(xs[1..]);
      assert xs == [xs[0]] + xs[1..];
    } else {
      assert xs == [xs[0]];
    }
  }

  lemma ScalarHead(a: Scalar)
    ensures |EncodeScalar(a)| > 0 && EncodeScalar(a)[0] != CLOSE
  {}

  /** Canonical bytes read back to the very fields, in order. */
  lemma ArrayReadsBack(xs: seq<Scalar>)
    ensures ReadArray(EncodeArray(xs)) == Some(xs)
  {
    hide EncodeItems, EncodeScalar, AfterFirst, ReadItems;
    var body := EncodeItems(xs) + [CLOSE];
    assert EncodeArray(xs)[1..] == body;
    if xs != [] {
      ScalarHead(xs[0]);
      FirstThenRest(xs);
      assert body[0] == EncodeScalar(xs[0])[0];
      ItemsReadBack(xs);
    } else {
      EmptyItems();
    }
  }

  lemma EmptyItems()
    ensures EncodeItems([]) == []
  {}

  /** Equal canonical bytes, equal fields in equal order. */
  lemma EncodeArrayInjective(xs: seq<Scalar>, ys: seq<Scalar>)
    requires EncodeArray(xs) == EncodeArray(ys)
    ensures xs == ys
  {
    ArrayReadsBack(xs);
    ArrayReadsBack(ys);
  }

  // ---- no canonical array ends another one ----

  /** Where a left-to-right scan of an array is: before it, between strings, inside a
      string, just after a backslash, or past something no array contains. */
  datatype Scan = Start | Out | In | Esc | Bad

  function Next(st: Scan, b: byte): Scan {
    match st
    case Start => if b == OPEN then Out else Bad
    case Out => if b == QUOTE then In else if b == OPEN || b == BACKSLASH then Bad else Out
    case In => if b == QUOTE then Out else if b == BACKSLASH then Esc else In
    case Esc => if b == OPEN then Bad else In
    case Bad => Bad
  }

  function Run(st: Scan, bs: seq<byte>): Scan
    decreases bs
  {
    if bs == [] then st else Run(Next(st, bs[0]), bs[1..])
  }

  lemma {:induction false} RunConcat(st: Scan, a: seq<byte>, b: seq<byte>)
    ensures Run(st, a + b) == Run(Run(st, a), b)
    decreases a
  {
    if a == [] {
      assert a + b == b;
    } else {
      assert (a + b)[1..] == a[1..] + b;
      RunConcat(Next(st, a[0]), a[1..], b);
    }
  }

  lemma RunBad(bs: seq<byte>)
    ensures Run(Bad, bs) == Bad
  {}

  /** Once a byte has been read the scan is past the start. */
  lemma {:induction false} RunLeavesStart(st: Scan, bs: seq<byte>)
    requires st != Start || |bs| > 0
    ensures Run(st, bs) != Start
    decreases bs
  {
    if bs != [] {
      RunLeavesStart(Next(st, bs[0]), bs[1..]);
    }
  }

  lemma {:induction false} RunPlain(bs: seq<byte>)
    requires forall i :: 0 <= i < |bs| ==> bs[i] != QUOTE && bs[i] != BACKSLASH && bs[i] != OPEN
    ensures Run(Out, bs) == Out && Run(In, bs) == In
  {
    if bs != [] {
      RunPlain(bs[1..]);
    }
  }

  lemma RunEscapeCode(u: nat)
    requires u < 0x11_0000
    ensures Run(In, EscapeCode(u)) == In
  {
    var e := EscapeCode(u);
    EscapeHead(u);
    if |e| == 2 {
      assert e == [e[0], e[1]] && e[1..] == [e[1]];
      assert Run(In, e) == Run(Next(In, e[0]), e[1..]) == Next(Esc, e[1]);
    } else if |e| == 6 {
      RunUnicodeEscape(u);
    } else if |e| == 12 {
      var h, l := 0xD800 + (u - 0x1_0000) / 0x400, 0xDC00 + (u - 0x1_0000) % 0x400;
      RunUnicodeEscape(h);
      RunUnicodeEscape(l);
      RunConcat(In, UnicodeEscape(h), UnicodeEscape(l));
    } else {
      assert e == [u];
      assert e[1..] == [];
      assert Run(In, e) == Run(Next(In, u), []);
    }
  }

  lemma RunUnicodeEscape(u: nat)
    requires u < 0x1_0000
    ensures Run(In, UnicodeEscape(u)) == In
  {
    var e := UnicodeEscape(u);
    var hex := e[2..];
    assert e == [BACKSLASH, 117] + hex;
    assert [BACKSLASH, 117][1..] == [117] && [117][1..] == [];
    assert Run(In, [BACKSLASH, 117]) == Run(Esc, [117]) == Run(In, []) == In;
    RunPlain(hex);
    RunConcat(In, [BACKSLASH, 117], hex);
  }

  lemma {:induction false} RunEscapeString(s: string)
    ensures Run(In, EscapeString(s)) == In
  {
    if s != [] {
      RunEscapeCode(s[0] as int);
      RunEscapeString(s[1..]);
      RunConcat(In, EscapeCode(s[0] as int), EscapeString(s[1..]));
    }
  }

  lemma RunScalar(a: Scalar)
    ensures Run(Out, EncodeScalar(a)) == Out
  {
    match a {
      case Null => RunPlain(EncodeScalar(a));
      case Int(n) => RunPlain(EncodeScalar(a));
      case Str(s) =>
        assert Run(Out, [QUOTE]) == Run(In, [QUOTE][1..]) == In;
        assert Run(In, [QUOTE]) == Run(Out, [QUOTE][1..]) == Out;
        RunEscapeString(s);
        RunConcat(Out, [QUOTE], EscapeString(s));
        RunConcat(Out, [QUOTE] + EscapeString(s), [QUOTE]);
    }
  }

  lemma {:induction false} RunItems(xs: seq<Scalar>)
    ensures Run(Out, EncodeItems(xs)) == Out
  {
    if |xs| > 0 {
      RunScalar(xs[0]);
    }
    if |xs| > 1 {
      RunPlain([COMMA]);
      RunItems(xs[1..]);
      RunConcat(Out, EncodeScalar(xs[0]), [COMMA]);
      RunConcat(Out, EncodeScalar(xs[0]) + [COMMA], EncodeItems(xs[1..]));
    }
  }

  /** A text that is balanced when read from between strings is unbalanced when read
      from inside one: every quote is taken the other way round. */
  lemma {:induction false} Flip(bs: seq<byte>)
    ensures Run(Out, bs) == Out ==> Run(In, bs) == In || Run(In, bs) == Bad
    ensures Run(In, bs) == Out ==> Run(Out, bs) == In || Run(Out, bs) == Bad
  {
    if bs != [] {
      var b, rest := bs[0], bs[1..];
      RunBad(rest);
      Flip(rest);
    }
  }

  /** No canonical array is another one with bytes put in front, so the hash input
      "previous hash followed by canonical bytes" has one reading. */
  lemma NoCanonicalSuffix(p: seq<byte>, xs: seq<Scalar>, ys: seq<Scalar>)
    requires |p| > 0
    ensures p + EncodeArray(xs) != EncodeArray(ys)
  {
    var st := Run(Start, p);
    RunLeavesStart(Start, p);
    var body := EncodeItems(xs) + [CLOSE];
    assert EncodeArray(xs) == [OPEN] + body && ([OPEN] + body)[1..] == body;
    RunConcat(Start, p, EncodeArray(xs));
    BalancedBody(xs);
    BalancedBody(ys);
    assert Run(Start, EncodeArray(ys)) == Out by {
      var other := EncodeItems(ys) + [CLOSE];
      assert EncodeArray(ys) == [OPEN] + other && ([OPEN] + other)[1..] == other;
    }
    RunBad(body);
    Flip(body);
    assert Run(st, EncodeArray(xs)) == Run(Next(st, OPEN), body);
  }

  lemma BalancedBody(xs: seq<Scalar>)
    ensures Run(Out, EncodeItems(xs) + [CLOSE]) == Out
  {
    RunItems(xs);
    RunPlain([CLOSE]);
    RunConcat(Out, EncodeItems(xs), [CLOSE]);
  }
}
