/** Kubernetes quantities, `parse` in `crates/kubernation-core/src/k8s/quantity.rs`: a byte scanner
    that splits a number from its suffix. Values are real numbers. */
module Quantity {
  import opened Prelude
  import opened Text

  // ---- Characters ----------------------------------------------------------

  predicate IsSign(c: char) {
    c == '+' || c == '-'
  }

  predicate IsExp(c: char) {
    c == 'e' || c == 'E'
  }

  predicate AllDigits(s: string) {
    forall i :: 0 <= i < |s| ==> IsDigit(s[i])
  }

  // ---- Literals ------------------------------------------------------------

  datatype Exponent = Exponent(letter: char, sign: string, digits: string)

  predicate GoodExponent(e: Exponent) {
    IsExp(e.letter) && SignOk(e.sign) && AllDigits(e.digits) && e.digits != ""
  }

  /** A number as written: sign, digits, point, digits, exponent. */
  datatype Number = Number(sign: string, whole: string, dot: bool, frac: string, exp: Option<Exponent>) {
    predicate Valid() {
      && SignOk(sign) && AllDigits(whole) && AllDigits(frac) && (!dot ==> frac == "") && whole + frac != ""
      && (exp.Some? ==> GoodExponent(exp.value))
    }

    function Mantissa(): string {
      whole + (if dot then "." + frac else "")
    }

    function Tail(): string {
      match exp
      case None => ""
      case Some(e) => [e.letter] + e.sign + e.digits
    }

    function Print(): string {
      sign + Mantissa() + Tail()
    }

    /** The number it denotes, exactly. */
    function Value(): real {
      var magnitude := DigitsValue(whole + frac) as real / Pow10(|frac|);
      var scaled := match exp
        case None => magnitude
        case Some(e) =>
          if e.sign == "-" then magnitude / Pow10(DigitsValue(e.digits))
          else magnitude * Pow10(DigitsValue(e.digits));
      if sign == "-" then -scaled else scaled
    }
  }

  predicate SignOk(s: string) {
    s == "" || s == "+" || s == "-"
  }

  function DigitsValue(s: string): nat {
    if s == "" then 0
    else 10 * DigitsValue(s[..|s| - 1]) + (if IsDigit(s[|s| - 1]) then s[|s| - 1] as int - '0' as int else 0)
  }

  function Pow10(k: nat): (r: real)
    ensures r > 0.0
  {
    if k == 0 then 1.0 else 10.0 * Pow10(k - 1)
  }

  function Pow1024(k: nat): real {
    if k == 0 then 1.0 else 1024.0 * Pow1024(k - 1)
  }

  /** The suffix table. */
  function Multiplier(suffix: string): Option<real> {
    match suffix
    case "" => Some(1.0)
    case "n" => Some(1.0 / Pow10(9))
    case "u" => Some(1.0 / Pow10(6))
    case "m" => Some(1.0 / Pow10(3))
    case "k" => Some(Pow10(3))
    case "M" => Some(Pow10(6))
    case "G" => Some(Pow10(9))
    case "T" => Some(Pow10(12))
    case "P" => Some(Pow10(15))
    case "E" => Some(Pow10(18))
    case "Ki" => Some(1024.0)
    case "Mi" => Some(Pow1024(2))
    case "Gi" => Some(Pow1024(3))
    case "Ti" => Some(Pow1024(4))
    case "Pi" => Some(Pow1024(5))
    case "Ei" => Some(Pow1024(6))
    case _ => None
  }

  function Scaled(v: real, m: real): real {
    v * m
  }

  /** A quantity: a number and a suffix of the table. */
  datatype Literal = Literal(number: Number, suffix: string) {
    predicate Valid() {
      number.Valid() && Multiplier(suffix).Some?
    }

    function Print(): string {
      number.Print() + suffix
    }

    function Value(): real
      requires Valid()
    {
      Scaled(number.Value(), Multiplier(suffix).value)
    }
  }

  // ---- Reading a number ----------------------------------------------------

  /** What a reader took from the front of a text, and what it left. */
  type Taken = (string, string)

  ghost predicate Splits(s: string, t: Taken) {
    s == t.0 + t.1
  }

  function TakeSign(s: string): (t: Taken)
    ensures Splits(s, t) && SignOk(t.0)
  {
    if s != "" && IsSign(s[0]) then
      assert s == [s[0]] + s[1..];
      ([s[0]], s[1..])
    else ("", s)
  }

  predicate MantissaChar(c: char) {
    IsDigit(c) || c == '.'
  }

  /** The longest front whose characters satisfy `p`. */
  function TakeWhile(s: string, p: char -> bool): (t: Taken)
    ensures Splits(s, t) && (forall i :: 0 <= i < |t.0| ==> p(t.0[i])) && (t.1 != "" ==> !p(t.1[0]))
  {
    if s != "" && p(s[0]) then
      var t := TakeWhile(s[1..], p);
      assert s == [s[0]] + s[1..];
      ([s[0]] + t.0, t.1)
    else ("", s)
  }

  lemma {:induction false} TakeAll(front: string, rest: string, p: char -> bool)
    requires forall i :: 0 <= i < |front| ==> p(front[i])
    requires rest != "" ==> !p(rest[0])
    ensures TakeWhile(front + rest, p) == (front, rest)
    decreases |front|
  {
    if front == "" {
      assert front + rest == rest;
    } else {
      assert (front + rest)[1..] == front[1..] + rest;
      TakeAll(front[1..], rest, p);
      assert [front[0]] + front[1..] == front;
    }
  }

  lemma TakeSignOf(sign: string, rest: string)
    requires SignOk(sign) && (rest != "" ==> !IsSign(rest[0]))
    ensures TakeSign(sign + rest) == (sign, rest)
  {
    if sign == "" {
      assert sign + rest == rest;
    } else {
      assert (sign + rest)[1..] == rest;
    }
  }

  /** An exponent starts here only if a digit or a sign follows the letter. */
  predicate ExponentAhead(s: string) {
    1 < |s| && IsExp(s[0]) && (IsDigit(s[1]) || IsSign(s[1]))
  }

  /** How far the scanner's number part reaches: a sign, digits and points in any mixture, and an
      exponent if one starts there. */
  function NumberEnd(q: string): (i: nat)
    ensures i <= |q|
  {
    var (sign, afterSign) := TakeSign(q);
    var (mantissa, tail) := TakeWhile(afterSign, MantissaChar);
    if ExponentAhead(tail) then
      var (es, afterEs) := TakeSign(tail[1..]);
      var (ed, rest) := TakeWhile(afterEs, IsDigit);
      |sign| + |mantissa| + 1 + |es| + |ed|
    else |sign| + |mantissa|
  }

  function TakeExponent(s: string): (Option<Exponent>, string) {
    if s != "" && IsExp(s[0]) then
      var (es, afterEs) := TakeSign(s[1..]);
      var (ed, rest) := TakeWhile(afterEs, IsDigit);
      if ed != "" then (Some(Exponent(s[0], es, ed)), rest) else (None, s)
    else (None, s)
  }

  /** The number a text begins with, by the grammar of `str::parse::<f64>`, and what follows. */
  function ReadNumber(q: string): Option<(Number, string)> {
    var (sign, afterSign) := TakeSign(q);
    var (whole, afterWhole) := TakeWhile(afterSign, IsDigit);
    var dot := afterWhole != "" && afterWhole[0] == '.';
    var (frac, tail) := if dot then TakeWhile(afterWhole[1..], IsDigit) else ("", afterWhole);
    if whole + frac == "" then None
    else
      var (exp, rest) := TakeExponent(tail);
      Some((Number(sign, whole, dot, frac, exp), rest))
  }

  /** `num.parse::<f64>().ok()`. The scanner never hands it a letter but the exponent's, so the
      spellings of infinity and NaN cannot occur. */
  function ParseF64(s: string): Option<real> {
    match ReadNumber(s)
    case Some((n, rest)) => if rest == "" then Some(n.Value()) else None
    case None => None
  }

  /** What may follow a complete number: nothing the scanner would take as part of it. */
  predicate Stops(rest: string) {
    (rest != "" ==> !MantissaChar(rest[0])) && !ExponentAhead(rest)
  }

  lemma SuffixStops(suffix: string)
    requires Multiplier(suffix).Some?
    ensures Stops(suffix)
    ensures suffix != "" ==> !IsSpace(suffix[0]) && !IsSpace(suffix[|suffix| - 1])
  {
  }

  lemma Regroup(a: string, b: string, c: string, d: string, e: string)
    ensures a + (b + (c + (d + e))) == ((a + (b + c)) + d) + e
    ensures a + (b + c) == (a + b) + c
    ensures a + (b + (c + d)) == ((a + b) + c) + d
  {
  }

  lemma ExponentIsSound(s: string)
    ensures var (exp, rest) := TakeExponent(s);
      && s == Number("", "", false, "", exp).Tail() + rest
      && (exp.Some? ==> GoodExponent(exp.value))
  {
    hide TakeWhile, TakeSign;
    if s != "" && IsExp(s[0]) {
      var (es, afterEs) := TakeSign(s[1..]);
      var (ed, rest) := TakeWhile(afterEs, IsDigit);
      assert s == [s[0]] + s[1..];
      Regroup([s[0]], es, ed, rest, "");
    }
  }

  /** Reading is sound: what was read is a valid number, and the text is its print and the rest. */
  lemma ReadIsSound(q: string)
    ensures ReadNumber(q).Some? ==> var (n, rest) := ReadNumber(q).value; n.Valid() && q == n.Print() + rest
  {
    hide TakeWhile, TakeSign, TakeExponent, Number.Tail;
    var (sign, afterSign) := TakeSign(q);
    var (whole, afterWhole) := TakeWhile(afterSign, IsDigit);
    var dot := afterWhole != "" && afterWhole[0] == '.';
    var (frac, tail) := if dot then TakeWhile(afterWhole[1..], IsDigit) else ("", afterWhole);
    var point := if dot then "." + frac else "";
    assert afterWhole == point + tail by {
      if dot {
        assert afterWhole == "." + afterWhole[1..];
        Regroup(".", frac, tail, "", "");
      }
    }
    var (exp, rest) := TakeExponent(tail);
    ExponentIsSound(tail);
    SameTail(Number(sign, whole, dot, frac, exp), Number("", "", false, "", exp));
    Regroup(sign, whole, point, Number(sign, whole, dot, frac, exp).Tail(), rest);
  }

  lemma SameTail(n: Number, m: Number)
    requires n.exp == m.exp
    ensures n.Tail() == m.Tail()
  {
  }

  lemma NoExponentIsRead(rest: string)
    requires Stops(rest)
    ensures TakeExponent(rest) == (None, rest)
  {
    if rest != "" && IsExp(rest[0]) && |rest| > 1 {
      assert rest[1..][0] == rest[1];
    }
  }

  lemma TailIsExponent(n: Number, rest: string)
    requires n.Valid() && n.exp.Some? && Stops(rest)
    ensures TakeExponent(n.Tail() + rest) == (n.exp, rest)
    ensures ExponentAhead(n.Tail() + rest) && !MantissaChar((n.Tail() + rest)[0])
    ensures var e := n.exp.value; (n.Tail() + rest)[1..] == e.sign + (e.digits + rest)
  {
    hide TakeWhile, TakeSign;
    var e := n.exp.value;
    var s := n.Tail() + rest;
    Regroup([e.letter], e.sign, e.digits, rest, "");
    assert s[1..] == e.sign + (e.digits + rest);
    TakeSignOf(e.sign, e.digits + rest);
    TakeAll(e.digits, rest, IsDigit);
    assert s[1] == (e.sign + (e.digits + rest))[0];
  }

  /** What follows the mantissa of a printed number. */
  lemma AfterMantissa(n: Number, rest: string)
    requires n.Valid() && Stops(rest)
    ensures TakeExponent(n.Tail() + rest) == (n.exp, rest)
    ensures n.Tail() + rest != "" ==> !MantissaChar((n.Tail() + rest)[0])
    ensures ExponentAhead(n.Tail() + rest) <==> n.exp.Some?
  {
    if n.exp.Some? {
      TailIsExponent(n, rest);
    } else {
      assert n.Tail() + rest == rest;
      NoExponentIsRead(rest);
    }
  }

  lemma PrintParts(n: Number, rest: string)
    requires n.Valid()
    ensures n.Print() + rest == n.sign + (n.Mantissa() + (n.Tail() + rest))
    ensures n.Mantissa() != "" && MantissaChar(n.Mantissa()[0]) && forall i :: 0 <= i < |n.Mantissa()| ==>
      MantissaChar(n.Mantissa()[i])
    ensures |n.Print()| == |n.sign| + |n.Mantissa()| + |n.Tail()| > 0
  {
    hide Number.Tail;
    Regroup(n.sign, n.Mantissa(), n.Tail(), rest, "");
  }

  /** Reading is complete: a printed number is read back exactly, whatever stops it. */
  lemma ReadIsComplete(n: Number, rest: string)
    requires n.Valid() && Stops(rest)
    ensures ReadNumber(n.Print() + rest) == Some((n, rest))
  {
    hide TakeWhile, TakeSign, TakeExponent, Number.Tail, Number.Print, Stops;
    var tail := n.Tail() + rest;
    AfterMantissa(n, rest);
    PrintParts(n, rest);
    TakeSignOf(n.sign, n.Mantissa() + tail);
    if n.dot {
      Regroup(n.whole, ".", n.frac, tail, "");
      assert n.Mantissa() + tail == n.whole + ("." + (n.frac + tail));
      TakeAll(n.whole, "." + (n.frac + tail), IsDigit);
      assert ("." + (n.frac + tail))[1..] == n.frac + tail;
      TakeAll(n.frac, tail, IsDigit);
    } else {
      assert n.Mantissa() + tail == n.whole + tail;
      TakeAll(n.whole, tail, IsDigit);
    }
  }

  /** The scanner splits a printed number from what stops it at exactly that point. */
  lemma ScanFindsEnd(n: Number, rest: string)
    requires n.Valid() && Stops(rest)
    ensures NumberEnd(n.Print() + rest) == |n.Print()|
  {
    hide TakeWhile, TakeSign, TakeExponent, Number.Tail, Number.Print, Number.Mantissa, ExponentAhead;
    var tail := n.Tail() + rest;
    AfterMantissa(n, rest);
    PrintParts(n, rest);
    TakeSignOf(n.sign, n.Mantissa() + tail);
    TakeAll(n.Mantissa(), tail, MantissaChar);
    if n.exp.Some? {
      var e := n.exp.value;
      TailIsExponent(n, rest);
      TakeSignOf(e.sign, e.digits + rest);
      TakeAll(e.digits, rest, IsDigit);
      assert |tail[1..]| == |tail| - 1;
    } else {
      NoTail(n);
    }
  }

  lemma NoTail(n: Number)
    requires n.exp == None
    ensures n.Tail() == ""
  {
  }

  // ---- Parsing -------------------------------------------------------------

  /** The parser as a function of the trimmed text. */
  function ParseTrimmed(q: string): Option<real> {
    if q == "" then None
    else
      var i := NumberEnd(q);
      match ParseF64(q[..i])
      case None => None
      case Some(v) =>
        match Multiplier(q[i..])
        case None => None
        case Some(m) => Some(Scaled(v, m))
  }

  /** Every printed literal parses to its exact value. */
  lemma ParsePrinted(lit: Literal)
    requires lit.Valid()
    ensures ParseTrimmed(lit.Print()) == Some(lit.Value())
  {
    hide Scaled, NumberEnd, ReadNumber, Number.Print, Number.Value, Multiplier, Stops;
    SuffixStops(lit.suffix);
    EmptyStops();
    ScanFindsEnd(lit.number, lit.suffix);
    PrintParts(lit.number, lit.suffix);
    var q, i := lit.Print(), |lit.number.Print()|;
    assert q[..i] == lit.number.Print() && q[i..] == lit.suffix;
    assert lit.number.Print() + "" == lit.number.Print();
    ReadIsComplete(lit.number, "");
    assert NumberEnd(q) == i;
    assert ReadNumber(q[..i]) == Some((lit.number, ""));
    assert ParseF64(q[..i]) == Some(lit.number.Value());
  }

  lemma EmptyStops()
    ensures Stops("")
  {
  }

  /** Whatever parses is the print of a literal, whose value was found. */
  lemma ParsedIsPrinted(q: string) returns (lit: Literal)
    requires ParseTrimmed(q).Some?
    ensures lit.Valid() && q == lit.Print() && ParseTrimmed(q) == Some(lit.Value())
    ensures |lit.number.Print()| == NumberEnd(q)
  {
    hide Scaled, NumberEnd, ReadNumber, Number.Print, Number.Value, Number.Valid, Multiplier;
    var i := NumberEnd(q);
    ReadIsSound(q[..i]);
    var (n, rest) := ReadNumber(q[..i]).value;
    lit := Literal(n, q[i..]);
    assert n.Print() + "" == n.Print();
    assert q == q[..i] + q[i..];
  }

  /** An accepted text is one literal only: its number, its exponent and its suffix are unique. */
  lemma LiteralIsUnique(a: Literal, b: Literal)
    requires a.Valid() && b.Valid() && a.Print() == b.Print()
    ensures a == b
  {
    hide ReadNumber, Number.Print, Number.Valid, Multiplier, Stops;
    SuffixStops(a.suffix);
    SuffixStops(b.suffix);
    ReadIsComplete(a.number, a.suffix);
    ReadIsComplete(b.number, b.suffix);
  }

  /** In an accepted text, the letter after the digits is an exponent exactly when a digit or a
      sign follows it; otherwise it begins the suffix. */
  lemma ExponentOrExa(lit: Literal)
    requires lit.Valid()
    ensures var tail := lit.Print()[|lit.number.sign + lit.number.Mantissa()|..];
      lit.number.exp.Some? <==> ExponentAhead(tail)
  {
    hide Multiplier, Stops, ExponentAhead, Number.Mantissa, Number.Tail, MantissaChar;
    var n := lit.number;
    SuffixStops(lit.suffix);
    AfterMantissa(n, lit.suffix);
    var front, tail := n.sign + n.Mantissa(), n.Tail() + lit.suffix;
    Regroup(n.sign + n.Mantissa(), n.Tail(), lit.suffix, "", "");
    assert lit.Print() == front + tail;
    assert (front + tail)[|front|..] == tail;
  }

  // ---- Trimming ------------------------------------------------------------

  predicate AllSpace(s: string) {
    forall i :: 0 <= i < |s| ==> IsSpace(s[i])
  }

  predicate Trimmed(s: string) {
    s != "" ==> !IsSpace(s[0]) && !IsSpace(s[|s| - 1])
  }

  function TrimEnd(s: string): (r: string)
    ensures r <= s && AllSpace(s[|r|..]) && (r != "" ==> !IsSpace(r[|r| - 1]))
  {
    if s != "" && IsSpace(s[|s| - 1]) then TrimEnd(s[..|s| - 1]) else s
  }

  /** `s.trim()`. */
  function Trim(s: string): (r: string)
    ensures Trimmed(r)
  {
    TrimEnd(TakeWhile(s, IsSpace).1)
  }

  lemma {:induction false} TrimEndOf(s: string, post: string)
    requires AllSpace(post) && (s != "" ==> !IsSpace(s[|s| - 1]))
    ensures TrimEnd(s + post) == s
    decreases |post|
  {
    if post == "" {
      assert s + post == s;
    } else {
      assert (s + post)[..|s + post| - 1] == s + post[..|post| - 1];
      TrimEndOf(s, post[..|post| - 1]);
    }
  }

  /** Trimming takes off exactly the white space around a text that has none at its ends. */
  lemma TrimOf(pre: string, s: string, post: string)
    requires AllSpace(pre) && AllSpace(post) && Trimmed(s) && s != ""
    ensures Trim(pre + s + post) == s
  {
    assert pre + s + post == pre + (s + post);
    TakeAll(pre, s + post, IsSpace);
    TrimEndOf(s, post);
  }

  lemma TrimIsSound(s: string) returns (pre: string, post: string)
    ensures AllSpace(pre) && AllSpace(post) && s == pre + Trim(s) + post
  {
    hide TakeWhile, TrimEnd, IsSpace;
    var t := TakeWhile(s, IsSpace);
    pre, post := t.0, t.1[|TrimEnd(t.1)|..];
    assert t.1 == TrimEnd(t.1) + post;
  }

  lemma PrintIsTrimmed(lit: Literal)
    requires lit.Valid()
    ensures lit.Print() != "" && Trimmed(lit.Print())
  {
    hide Multiplier, Number.Mantissa, Stops, IsSpace;
    var n := lit.number;
    SuffixStops(lit.suffix);
    PrintParts(n, lit.suffix);
    NumbersHaveNoSpace();
    if n.exp.Some? {
      assert n.Tail()[|n.Tail()| - 1] == n.exp.value.digits[|n.exp.value.digits| - 1];
    }
  }

  lemma NumbersHaveNoSpace()
    ensures forall c :: MantissaChar(c) || IsSign(c) ==> !IsSpace(c)
  {
  }

  /** The parser as a function of the text. */
  function Parsed(s: string): Option<real> {
    ParseTrimmed(Trim(s))
  }

  /** A literal worth `v`, with white space around it. */
  ghost predicate Spells(s: string, v: real, pre: string, lit: Literal, post: string) {
    AllSpace(pre) && AllSpace(post) && lit.Valid() && s == pre + lit.Print() + post && lit.Value() == v
  }

  /** Soundness and completeness for the whole parser: a text is accepted with value v exactly
      when it spells a literal of the grammar worth v, with any white space around it. */
  lemma ParsesIffSpelled(s: string, v: real)
    ensures Parsed(s) == Some(v) <==> exists pre, lit, post :: Spells(s, v, pre, lit, post)
  {
    hide ParseTrimmed, Literal.Print, Literal.Value, Literal.Valid, Trim, AllSpace;
    if Parsed(s) == Some(v) {
      var pre, post := TrimIsSound(s);
      var lit := ParsedIsPrinted(Trim(s));
      assert Spells(s, v, pre, lit, post);
    }
    if exists pre, lit, post :: Spells(s, v, pre, lit, post) {
      var pre, lit, post :| Spells(s, v, pre, lit, post);
      PrintIsTrimmed(lit);
      TrimOf(pre, lit.Print(), post);
      ParsePrinted(lit);
    }
  }

  lemma WrittenParses(lit: Literal)
    requires lit.Valid()
    ensures Parsed(lit.Print()) == Some(lit.Value())
  {
    hide ParseTrimmed, Trim, Literal.Print, Literal.Value, Literal.Valid;
    assert lit.Print() == "" + lit.Print() + "";
    PrintIsTrimmed(lit);
    TrimOf("", lit.Print(), "");
    ParsePrinted(lit);
  }

  // ---- What the numbers are worth ------------------------------------------

  function Plain(digits: string): Number {
    Number("", digits, false, "", None)
  }

  function DigitOf(c: char): int
    requires IsDigit(c)
  {
    c as int - '0' as int
  }

  /** A digit is worth its distance from zero, and one more digit makes v into 10v + d. */
  lemma DigitsAddUp(digits: string, d: char)
    requires AllDigits(digits) && IsDigit(d)
    ensures Plain([d]).Value() == DigitOf(d) as real
    ensures digits != "" ==> Plain(digits + [d]).Value() == 10.0 * Plain(digits).Value() + DigitOf(d) as real
  {
    DigitAppended("", d);
    DigitAppended(digits, d);
    assert "" + [d] == [d];
    assert digits + "" == digits && (digits + [d]) + "" == digits + [d] && [d] + "" == [d];
  }

  lemma DigitAppended(digits: string, d: char)
    requires IsDigit(d)
    ensures DigitsValue(digits + [d]) == 10 * DigitsValue(digits) + DigitOf(d)
  {
    assert (digits + [d])[..|digits|] == digits;
  }

  /** The point one place to the left is a tenth; a point with nothing after it changes nothing. */
  lemma PointDivides(n: Number, d: char)
    requires n.Valid() && IsDigit(d)
    ensures n.(whole := n.whole + [d], dot := true).Value()
         == 10.0 * n.(dot := true, frac := [d] + n.frac).Value()
    ensures n.frac == "" ==> n.(dot := true).Value() == n.(dot := false).Value()
  {
    hide DigitsValue, Pow10, GoodExponent;
    assert n.whole + ([d] + n.frac) == n.whole + [d] + n.frac;
    var v := DigitsValue(n.whole + [d] + n.frac) as real;
    OneMoreTen(v, |n.frac|);
    if n.exp.Some? {
      OneMoreTen(v, |n.frac|);
      Commutes(v / Pow10(|n.frac|), v / Pow10(|n.frac| + 1), Pow10(DigitsValue(n.exp.value.digits)));
    }
  }

  lemma OneMoreTen(v: real, k: nat)
    ensures v / Pow10(k) == 10.0 * (v / Pow10(k + 1))
  {
    TenTimes(v, Pow10(k), Pow10(k + 1));
  }

  lemma TenTimes(v: real, p: real, q: real)
    requires p > 0.0 && q == 10.0 * p
    ensures v / p == 10.0 * (v / q)
  {
    assert v / q * q == v;
    assert (10.0 * (v / q)) * p == v;
  }

  lemma Commutes(a: real, b: real, p: real)
    requires a == 10.0 * b && p > 0.0
    ensures a * p == 10.0 * (b * p) && a / p == 10.0 * (b / p)
  {
    assert b / p * p == b;
  }

  /** A minus negates, a plus does nothing. */
  lemma SignsNegate(n: Number)
    ensures n.(sign := "-").Value() == -n.(sign := "").Value() && n.(sign := "+").Value() == n.(sign := "").Value()
  {
  }

  /** An exponent of zero changes nothing, */
  lemma ExponentOfZero(n: Number, e: Exponent)
    requires Plain(e.digits).Value() == 0.0
    ensures n.(exp := Some(e)).Value() == n.(exp := None).Value()
  {
    hide Pow10, DigitsValue;
    PlainValue(e.digits);
    Powers(DigitsValue(n.whole + n.frac) as real / Pow10(|n.frac|), 0);
  }

  /** and one more is ten times as much, or under a minus a tenth. */
  lemma ExponentScales(n: Number, e: Exponent, f: Exponent)
    requires e.sign == f.sign && Plain(f.digits).Value() == Plain(e.digits).Value() + 1.0
    ensures var v, w := n.(exp := Some(e)).Value(), n.(exp := Some(f)).Value();
      if e.sign == "-" then v == 10.0 * w else w == 10.0 * v
  {
    hide Pow10, DigitsValue;
    PlainValue(e.digits);
    PlainValue(f.digits);
    Powers(DigitsValue(n.whole + n.frac) as real / Pow10(|n.frac|), DigitsValue(e.digits));
  }

  lemma PlainValue(digits: string)
    ensures Plain(digits).Value() == DigitsValue(digits) as real
  {
    assert digits + "" == digits && Pow10(0) == 1.0;
  }

  lemma Powers(m: real, k: nat)
    ensures m * Pow10(0) == m == m / Pow10(0)
    ensures m * Pow10(k + 1) == 10.0 * (m * Pow10(k)) && m / Pow10(k) == 10.0 * (m / Pow10(k + 1))
  {
    var p, q := Pow10(k), Pow10(k + 1);
    assert q == 10.0 * p;
    TenTimes(m, p, q);
    Associates(m, p, q);
  }

  lemma Associates(m: real, p: real, q: real)
    requires q == 10.0 * p
    ensures m * q == 10.0 * (m * p)
  {
  }

  // ---- What the suffixes are worth -----------------------------------------

  lemma Under(n: Number, suffix: string)
    requires n.Valid() && Multiplier(suffix).Some?
    ensures Parsed(n.Print() + suffix) == Some(Scaled(n.Value(), Multiplier(suffix).value))
  {
    hide Parsed, Multiplier, Number.Value, Number.Print, Number.Valid;
    WrittenParses(Literal(n, suffix));
  }

  lemma UnderNone(n: Number)
    requires n.Valid()
    ensures Parsed(n.Print()) == Some(n.Value()) && Multiplier("") == Some(1.0)
  {
    hide Parsed, Number.Value, Number.Print, Number.Valid;
    Under(n, "");
    assert n.Print() + "" == n.Print();
  }

  lemma Multiplies(v: real, k: real, m: real)
    ensures Scaled(v, k * m) == k * Scaled(v, m)
  {
  }

  /** The suffixes in order of size, decimal and binary. */
  const DECIMAL: seq<string> := ["n", "u", "m", "", "k", "M", "G", "T", "P", "E"]
  const BINARY: seq<string> := ["", "Ki", "Mi", "Gi", "Ti", "Pi", "Ei"]

  lemma TableIs(suffix: string)
    ensures Multiplier(suffix).Some? <==> suffix in DECIMAL || suffix in BINARY
  {
    if suffix in DECIMAL {
      var i :| 0 <= i < |DECIMAL| && DECIMAL[i] == suffix;
    }
    if suffix in BINARY {
      var i :| 0 <= i < |BINARY| && BINARY[i] == suffix;
    }
    assert DECIMAL[0] == "n" && DECIMAL[1] == "u" && DECIMAL[2] == "m" && DECIMAL[3] == "" && DECIMAL[4] == "k";
    assert DECIMAL[5] == "M" && DECIMAL[6] == "G" && DECIMAL[7] == "T" && DECIMAL[8] == "P" && DECIMAL[9] == "E";
    assert BINARY[1] == "Ki" && BINARY[2] == "Mi" && BINARY[3] == "Gi" && BINARY[4] == "Ti" && BINARY[5] == "Pi";
    assert BINARY[6] == "Ei";
  }

  lemma TensAre()
    ensures Pow10(3) == 1000.0 && Pow10(6) == 1000000.0 && Pow10(9) == 1000000000.0
    ensures Pow10(12) == 1000.0 * Pow10(9) && Pow10(15) == 1000.0 * Pow10(12) && Pow10(18) == 1000.0 * Pow10(15)
  {
    ThreeTens(0);
    ThreeTens(3);
    ThreeTens(6);
    ThreeTens(9);
    ThreeTens(12);
    ThreeTens(15);
  }

  lemma ThreeTens(k: nat)
    ensures Pow10(k + 3) == 1000.0 * Pow10(k) && Pow10(0) == 1.0
  {
    assert Pow10(k + 3) == 10.0 * Pow10(k + 2);
    assert Pow10(k + 2) == 10.0 * Pow10(k + 1);
  }

  lemma DecimalSteps(i: nat)
    requires 0 < i < |DECIMAL|
    ensures Multiplier(DECIMAL[i]).Some? && Multiplier(DECIMAL[i - 1]).Some?
    ensures Multiplier(DECIMAL[i]).value == 1000.0 * Multiplier(DECIMAL[i - 1]).value
  {
    hide Pow10;
    TensAre();
  }

  lemma BinarySteps(i: nat)
    requires 0 < i < |BINARY|
    ensures Multiplier(BINARY[i]).Some? && Multiplier(BINARY[i - 1]).Some?
    ensures Multiplier(BINARY[i]).value == 1024.0 * Multiplier(BINARY[i - 1]).value
  {
    assert Pow1024(1) == 1024.0;
    assert i > 1 ==> Pow1024(i) == 1024.0 * Pow1024(i - 1);
  }

  /** A literal is a number and one of those suffixes. */
  lemma SuffixesAre(lit: Literal)
    ensures lit.Valid() <==> lit.number.Valid() && (lit.suffix in DECIMAL || lit.suffix in BINARY)
  {
    hide Multiplier;
    TableIs(lit.suffix);
  }

  /** Any number under the decimal suffixes: its own value under none, and under each a thousand times
      what it is under the one before. */
  lemma DecimalSuffixes(n: Number, i: nat)
    requires n.Valid() && 0 < i < |DECIMAL|
    ensures Parsed(n.Print() + "") == Some(n.Value())
    ensures Parsed(n.Print() + DECIMAL[i]).Some? && Parsed(n.Print() + DECIMAL[i - 1]).Some?
    ensures Parsed(n.Print() + DECIMAL[i]).value == 1000.0 * Parsed(n.Print() + DECIMAL[i - 1]).value
  {
    hide Parsed, Number.Value, Number.Print, Number.Valid, Multiplier, Scaled;
    UnderNone(n);
    assert n.Print() + "" == n.Print();
    DecimalSteps(i);
    Under(n, DECIMAL[i]);
    Under(n, DECIMAL[i - 1]);
    Multiplies(n.Value(), 1000.0, Multiplier(DECIMAL[i - 1]).value);
  }

  /** And under the binary ones, 1024 times. */
  lemma BinarySuffixes(n: Number, i: nat)
    requires n.Valid() && 0 < i < |BINARY|
    ensures Parsed(n.Print() + BINARY[i]).Some? && Parsed(n.Print() + BINARY[i - 1]).Some?
    ensures Parsed(n.Print() + BINARY[i]).value == 1024.0 * Parsed(n.Print() + BINARY[i - 1]).value
  {
    hide Parsed, Number.Value, Number.Print, Number.Valid, Multiplier, Scaled;
    BinarySteps(i);
    Under(n, BINARY[i]);
    Under(n, BINARY[i - 1]);
    Multiplies(n.Value(), 1024.0, Multiplier(BINARY[i - 1]).value);
  }

  lemma SmallNumbers()
    ensures DigitsValue("2") == 2 && DigitsValue("1") == 1 && DigitsValue("3") == 3 && DigitsValue("05") == 5
    ensures Pow10(0) == 1.0 && Pow10(1) == 10.0 && Pow10(3) == 1000.0
  {
    assert "05"[..1] == "0" && DigitsValue("0") == 0;
  }

  lemma WorthItself(n: Number, v: real, s: string)
    requires n.Valid() && n.Value() == v && s == n.Print()
    ensures Parsed(s) == Some(v)
  {
    hide Parsed, Number.Value, Number.Print, Number.Valid, Multiplier;
    UnderNone(n);
  }

  /** Numbers as they are written. */
  lemma WrittenNumbers()
    ensures Parsed("2") == Some(2.0) && Parsed("0.5") == Some(0.5) && Parsed("-1") == Some(-1.0)
    ensures Parsed("1e3") == Some(1000.0) && Parsed("1e-3") == Some(0.001)
  {
    hide Parsed, Multiplier, Pow10, DigitsValue;
    SmallNumbers();
    assert "2" + "" == "2" && "1" + "" == "1" && "0" + "5" == "05";
    WorthItself(Plain("2"), 2.0, "2");
    WorthItself(Number("", "0", true, "5", None), 0.5, "0.5");
    WorthItself(Number("-", "1", false, "", None), -1.0, "-1");
    WorthItself(Number("", "1", false, "", Some(Exponent('e', "", "3"))), 1000.0, "1e3");
    WorthItself(Number("", "1", false, "", Some(Exponent('e', "-", "3"))), 0.001, "1e-3");
  }

  lemma ThreeDigits(digits: string, suffix: string, v: real, m: real)
    requires |digits| == 3 && AllDigits(digits) && Multiplier(suffix) == Some(m)
    requires v == (100 * DigitOf(digits[0]) + 10 * DigitOf(digits[1]) + DigitOf(digits[2])) as real
    ensures Parsed(digits + suffix) == Some(v * m)
  {
    hide Parsed, Multiplier, Number.Print, Number.Value, DigitsValue, Scaled;
    DigitsOfThree(digits);
    PlainValue(digits);
    PlainPrint(digits);
    var n := Plain(digits);
    assert n.Value() == v;
    Under(n, suffix);
    ScaledIs(v, m);
  }

  lemma ScaledIs(v: real, m: real)
    ensures Scaled(v, m) == v * m
  {
  }

  lemma OneUnder(suffix: string, m: real)
    requires Multiplier(suffix) == Some(m)
    ensures Parsed("1" + suffix) == Some(m)
  {
    hide Parsed, Multiplier, Number.Print, Number.Value;
    PlainValue("1");
    PlainPrint("1");
    assert DigitsValue("1") == 1;
    Under(Plain("1"), suffix);
    assert Scaled(1.0, m) == m;
  }

  lemma DecimalMultipliers()
    ensures Multiplier("n") == Some(0.000000001) && Multiplier("u") == Some(0.000001) && Multiplier("m") == Some(0.001)
    ensures Multiplier("k") == Some(1000.0) && Multiplier("M") == Some(1000000.0)
    ensures Multiplier("G") == Some(1000000000.0) && Multiplier("T") == Some(1000000000000.0)
    ensures Multiplier("P") == Some(1000000000000000.0) && Multiplier("E") == Some(1000000000000000000.0)
  {
    hide Pow10;
    TensAre();
  }

  lemma BinaryMultipliers()
    ensures Multiplier("Ki") == Some(1024.0) && Multiplier("Mi") == Some(1048576.0)
    ensures Multiplier("Gi") == Some(1073741824.0) && Multiplier("Ti") == Some(1099511627776.0)
    ensures Multiplier("Pi") == Some(1125899906842624.0) && Multiplier("Ei") == Some(1152921504606846976.0)
  {
    assert Pow1024(1) == 1024.0 && Pow1024(2) == 1048576.0 && Pow1024(3) == 1073741824.0;
    assert Pow1024(4) == 1024.0 * Pow1024(3);
    assert Pow1024(5) == 1024.0 * Pow1024(4);
    assert Pow1024(6) == 1024.0 * Pow1024(5);
  }

  /** What one is worth under each suffix. */
  lemma OnesAre()
    ensures Parsed("1n") == Some(0.000000001) && Parsed("1u") == Some(0.000001) && Parsed("1m") == Some(0.001)
    ensures Parsed("1k") == Some(1000.0) && Parsed("1M") == Some(1000000.0) && Parsed("1G") == Some(1000000000.0)
    ensures Parsed("1T") == Some(1000000000000.0) && Parsed("1P") == Some(1000000000000000.0)
    ensures Parsed("1E") == Some(1000000000000000000.0)
  {
    hide Parsed, Multiplier;
    DecimalMultipliers();
    OneUnder("n", 0.000000001);
    OneUnder("u", 0.000001);
    OneUnder("m", 0.001);
    OneUnder("k", 1000.0);
    OneUnder("M", 1000000.0);
    OneUnder("G", 1000000000.0);
    OneUnder("T", 1000000000000.0);
    OneUnder("P", 1000000000000000.0);
    OneUnder("E", 1000000000000000000.0);
    assert "1" + "n" == "1n" && "1" + "u" == "1u" && "1" + "m" == "1m" && "1" + "k" == "1k" && "1" + "M" == "1M";
    assert "1" + "G" == "1G" && "1" + "T" == "1T" && "1" + "P" == "1P" && "1" + "E" == "1E";
  }

  lemma BinaryOnesAre()
    ensures Parsed("1Ki") == Some(1024.0) && Parsed("1Mi") == Some(1048576.0) && Parsed("1Gi") == Some(1073741824.0)
    ensures Parsed("1Ti") == Some(1099511627776.0) && Parsed("1Pi") == Some(1125899906842624.0)
    ensures Parsed("1Ei") == Some(1152921504606846976.0)
  {
    hide Parsed, Multiplier;
    BinaryMultipliers();
    OneUnder("Ki", 1024.0);
    OneUnder("Mi", 1048576.0);
    OneUnder("Gi", 1073741824.0);
    OneUnder("Ti", 1099511627776.0);
    OneUnder("Pi", 1125899906842624.0);
    OneUnder("Ei", 1152921504606846976.0);
    assert "1" + "Ki" == "1Ki" && "1" + "Mi" == "1Mi" && "1" + "Gi" == "1Gi";
    assert "1" + "Ti" == "1Ti" && "1" + "Pi" == "1Pi" && "1" + "Ei" == "1Ei";
  }

  /** Quantities as they are written, in cores and in bytes. */
  lemma WrittenQuantities()
    ensures Parsed("250m") == Some(0.25) && Parsed("500u") == Some(0.0005) && Parsed("100n") == Some(0.0000001)
    ensures Parsed("128Mi") == Some(134217728.0) && Parsed("100G") == Some(100000000000.0)
  {
    hide Parsed, Multiplier;
    DecimalMultipliers();
    BinaryMultipliers();
    ThreeDigits("250", "m", 250.0, 0.001);
    ThreeDigits("500", "u", 500.0, 0.000001);
    ThreeDigits("100", "n", 100.0, 0.000000001);
    ThreeDigits("128", "Mi", 128.0, 1048576.0);
    ThreeDigits("100", "G", 100.0, 1000000000.0);
    assert "250" + "m" == "250m" && "500" + "u" == "500u" && "100" + "n" == "100n";
    assert "128" + "Mi" == "128Mi" && "100" + "G" == "100G";
  }

  lemma PlainPrint(digits: string)
    ensures Plain(digits).Print() == digits
  {
  }

  lemma DigitsOfThree(s: string)
    requires |s| == 3 && AllDigits(s)
    ensures DigitsValue(s) == 100 * DigitOf(s[0]) + 10 * DigitOf(s[1]) + DigitOf(s[2])
  {
    assert s == [s[0]] + [s[1]] + [s[2]];
    DigitAppended([s[0]] + [s[1]], s[2]);
    DigitAppended([s[0]], s[1]);
    DigitAppended("", s[0]);
    assert "" + [s[0]] == [s[0]];
  }

  /** A suffix may follow an exponent. */
  lemma SuffixAfterExponent()
    ensures Parsed("1e3Ki") == Some(1024000.0)
  {
    hide Parsed;
    var lit := Literal(Number("", "1", false, "", Some(Exponent('e', "", "3"))), "Ki");
    assert lit.Print() == "1e3Ki";
    WrittenParses(lit);
    assert DigitsValue("1") == 1 && DigitsValue("3") == 3;
    assert lit.number.Value() == 1000.0;
  }

  // ---- Bytes ---------------------------------------------------------------

  function Utf8Char(c: char): (b: seq<Byte>)
    ensures 1 <= |b| <= 4
    ensures c < '\U{80}' ==> b == [c as int]
    ensures c >= '\U{80}' ==> forall i :: 0 <= i < |b| ==> b[i] >= 0x80
  {
    var x := c as int;
    if x < 0x80 then [x]
    else if x < 0x800 then [0xC0 + x / 0x40, 0x80 + x % 0x40]
    else if x < 0x1_0000 then [0xE0 + x / 0x1000, 0x80 + x / 0x40 % 0x40, 0x80 + x % 0x40]
    else [0xF0 + x / 0x4_0000, 0x80 + x / 0x1000 % 0x40, 0x80 + x / 0x40 % 0x40, 0x80 + x % 0x40]
  }

  /** The encoding of section 3 of RFC 3629: a character's number is what is left of its bytes without the
      marks that they begin with, six bits to each byte after the first. */
  lemma Utf8Is(c: char)
    ensures var x, b := c as int, Utf8Char(c);
      && |b| == (if x < 128 then 1 else if x < 2048 then 2 else if x < 65536 then 3 else 4)
      && (forall i :: 1 <= i < |b| ==> 128 <= b[i] < 192)
      && x == match |b|
              case 1 => b[0]
              case 2 => 64 * (b[0] as int - 192) + (b[1] as int - 128)
              case 3 => 4096 * (b[0] as int - 224) + 64 * (b[1] as int - 128) + (b[2] as int - 128)
              case _ => 262144 * (b[0] as int - 240) + 4096 * (b[1] as int - 128) + 64 * (b[2] as int - 128)
                        + (b[3] as int - 128)
  {
    var x := c as int;
    SixBits(x, 1);
    SixBits(x, 64);
    SixBits(x, 4096);
  }

  lemma SixBits(x: nat, unit: nat)
    requires unit in {1, 64, 4096}
    ensures x / unit == x / (unit * 64) * 64 + x / unit % 64
  {
  }

  /** `q.as_bytes()`. */
  function Utf8(q: string): seq<Byte> {
    if q == "" then [] else Utf8Char(q[0]) + Utf8(q[1..])
  }

  /** Byte offset `i` lies between two characters. */
  predicate OnBoundary(q: string, i: nat)
    decreases |q|
  {
    i == 0 || (q != "" && |Utf8Char(q[0])| <= i && OnBoundary(q[1..], i - |Utf8Char(q[0])|))
  }

  /** `q.split_at(i)`, which panics off a character boundary. */
  function SplitAt(q: string, i: nat): (t: Taken)
    requires OnBoundary(q, i)
    ensures Splits(q, t) && |Utf8(t.0)| == i
    decreases |q|
  {
    if i == 0 then ("", q)
    else
      var t := SplitAt(q[1..], i - |Utf8Char(q[0])|);
      assert q == [q[0]] + q[1..];
      assert ([q[0]] + t.0)[1..] == t.0;
      ([q[0]] + t.0, t.1)
  }

  predicate Ascii(q: string) {
    forall i :: 0 <= i < |q| ==> q[i] < '\U{80}'
  }

  /** After an ASCII front, byte offsets are character offsets: the offset is a boundary, it splits
      the text there, and the next byte is the next character or no ASCII character at all. */
  lemma {:induction false} AfterAscii(q: string, i: nat)
    requires i <= |q| && Ascii(q[..i])
    ensures i <= |Utf8(q)| && (i == |Utf8(q)| <==> i == |q|)
    ensures i < |q| ==> Utf8(q)[i] == Utf8Char(q[i])[0]
    ensures OnBoundary(q, i) && SplitAt(q, i) == (q[..i], q[i..])
    decreases i
  {
    if i > 0 {
      assert q[..i][0] == q[0];
      assert q[1..][..i - 1] == q[..i][1..];
      AfterAscii(q[1..], i - 1);
      assert q[..i] == [q[0]] + q[1..][..i - 1];
    }
  }

  lemma AsciiStart(q: string)
    ensures Ascii(q[..0])
  {
  }

  lemma AsciiStep(q: string, i: nat)
    requires i < |q| && Ascii(q[..i]) && (MantissaChar(q[i]) || IsDigit(q[i]) || IsSign(q[i]) || IsExp(q[i]))
    ensures Ascii(q[..i + 1])
  {
  }

  predicate DigitByte(b: Byte) {
    0x30 <= b <= 0x39
  }

  predicate SignByte(b: Byte) {
    b == 0x2B || b == 0x2D
  }

  predicate ExpByte(b: Byte) {
    b == 0x65 || b == 0x45
  }

  /** The scanner's tests of the next byte are tests of the next character. */
  lemma NextByte(q: string, i: nat)
    requires i <= |q| && Ascii(q[..i])
    ensures i <= |Utf8(q)| && (i == |Utf8(q)| <==> i == |q|)
    ensures i < |q| ==> (DigitByte(Utf8(q)[i]) <==> IsDigit(q[i])) && (SignByte(Utf8(q)[i]) <==> IsSign(q[i]))
    ensures i < |q| ==> (ExpByte(Utf8(q)[i]) <==> IsExp(q[i]))
    ensures i < |q| ==>
      && (Utf8(q)[i] == 0x2E <==> q[i] == '.')
      && (DigitByte(Utf8(q)[i]) || Utf8(q)[i] == 0x2E <==> MantissaChar(q[i]))
  {
    hide Utf8, OnBoundary, SplitAt;
    AfterAscii(q, i);
  }

  // ---- The scanner ---------------------------------------------------------

  /** A scan that began at `a` and stands at `i` has as far to go as one that begins there. */
  ghost predicate Along(q: string, a: nat, i: nat, p: char -> bool) {
    a <= i <= |q| && a + |TakeWhile(q[a..], p).0| == i + |TakeWhile(q[i..], p).0|
  }

  lemma AlongStart(q: string, a: nat, p: char -> bool)
    requires a <= |q|
    ensures Along(q, a, a, p)
  {
  }

  lemma StepAlong(q: string, a: nat, i: nat, p: char -> bool)
    requires Along(q, a, i, p) && i < |q| && p(q[i])
    ensures Along(q, a, i + 1, p)
  {
    assert q[i..][1..] == q[i + 1..];
  }

  lemma ScanEnds(q: string, a: nat, i: nat, p: char -> bool)
    requires Along(q, a, i, p) && (i < |q| ==> !p(q[i]))
    ensures TakeWhile(q[a..], p) == (q[a..i], q[i..])
  {
    var t := TakeWhile(q[a..], p);
    assert q[a..] == t.0 + t.1;
    assert TakeWhile(q[i..], p).0 == "";
    assert t.0 == q[a..][..i - a] && t.1 == q[a..][i - a..];
    assert q[a..][..i - a] == q[a..i] && q[a..][i - a..] == q[i..];
  }

  lemma SignStep(q: string, i: nat)
    requires i <= |q|
    ensures var k := if i < |q| && IsSign(q[i]) then i + 1 else i; TakeSign(q[i..]) == (q[i..k], q[k..])
  {
    assert q[i..i] == "";
    if i < |q| {
      assert q[i..][1..] == q[i + 1..] && q[i..i + 1] == [q[i]];
    }
  }

  /** The scanner's test for an exponent, on bytes. */
  lemma ExponentTest(q: string, m: nat)
    requires m <= |q| && Ascii(q[..m])
    ensures var bytes := Utf8(q);
      ExponentAhead(q[m..]) <==>
      m < |bytes| && ExpByte(bytes[m]) && m + 1 < |bytes| && (DigitByte(bytes[m + 1]) || SignByte(bytes[m + 1]))
  {
    hide Utf8, Ascii, IsDigit, IsSign, DigitByte, SignByte, IsExp, ExpByte;
    NextByte(q, m);
    if m < |q| && IsExp(q[m]) {
      AsciiStep(q, m);
      NextByte(q, m + 1);
    }
  }

  lemma PlainEnd(q: string, a: nat, m: nat)
    requires a <= m <= |q|
    requires TakeSign(q) == (q[..a], q[a..]) && TakeWhile(q[a..], MantissaChar) == (q[a..m], q[m..])
    requires !ExponentAhead(q[m..])
    ensures NumberEnd(q) == m
  {
  }

  lemma ExponentEnd(q: string, a: nat, m: nat, b: nat, i: nat)
    requires a <= m < b <= i <= |q|
    requires TakeSign(q) == (q[..a], q[a..]) && TakeWhile(q[a..], MantissaChar) == (q[a..m], q[m..])
    requires ExponentAhead(q[m..])
    requires TakeSign(q[m + 1..]) == (q[m + 1..b], q[b..]) && TakeWhile(q[b..], IsDigit) == (q[b..i], q[i..])
    ensures NumberEnd(q) == i
  {
    hide TakeSign, TakeWhile, ExponentAhead;
    assert q[m..][1..] == q[m + 1..];
  }

  /** The mantissa loop, from byte `a` on. */
  method ScanMantissa(q: string, bytes: seq<Byte>, a: nat) returns (i: nat)
    requires bytes == Utf8(q) && a <= |q| && Ascii(q[..a])
    ensures a <= i <= |q| && Ascii(q[..i]) && TakeWhile(q[a..], MantissaChar) == (q[a..i], q[i..])
  {
    hide Utf8, TakeWhile, Along, Ascii, IsDigit, IsSign, IsExp, DigitByte, SignByte, ExpByte, MantissaChar;
    i := a;
    NextByte(q, i);
    AlongStart(q, a, MantissaChar);
    while i < |bytes| && (DigitByte(bytes[i]) || bytes[i] == 0x2E)
      invariant a <= i <= |q| && Ascii(q[..i]) && Along(q, a, i, MantissaChar)
      invariant i <= |bytes|
    {
      NextByte(q, i);
      AsciiStep(q, i);
      StepAlong(q, a, i, MantissaChar);
      i := i + 1;
      NextByte(q, i);
    }
    NextByte(q, i);
    ScanEnds(q, a, i, MantissaChar);
  }

  /** The exponent's digit loop, from byte `b` on. */
  method ScanDigits(q: string, bytes: seq<Byte>, b: nat) returns (i: nat)
    requires bytes == Utf8(q) && b <= |q| && Ascii(q[..b])
    ensures b <= i <= |q| && Ascii(q[..i]) && TakeWhile(q[b..], IsDigit) == (q[b..i], q[i..])
  {
    hide Utf8, TakeWhile, Along, Ascii, IsDigit, IsSign, IsExp, DigitByte, SignByte, ExpByte, MantissaChar;
    i := b;
    NextByte(q, i);
    AlongStart(q, b, IsDigit);
    while i < |bytes| && DigitByte(bytes[i])
      invariant b <= i <= |q| && Ascii(q[..i]) && Along(q, b, i, IsDigit)
      invariant i <= |bytes|
    {
      NextByte(q, i);
      AsciiStep(q, i);
      StepAlong(q, b, i, IsDigit);
      i := i + 1;
      NextByte(q, i);
    }
    NextByte(q, i);
    ScanEnds(q, b, i, IsDigit);
  }

  /** A sign is stepped over if one stands at byte `a`. */
  method ScanSign(q: string, bytes: seq<Byte>, a: nat) returns (i: nat)
    requires bytes == Utf8(q) && a <= |q| && Ascii(q[..a])
    ensures a <= i <= |q| && Ascii(q[..i]) && TakeSign(q[a..]) == (q[a..i], q[i..])
  {
    hide Utf8, TakeSign, Ascii, IsDigit, IsSign, IsExp, DigitByte, SignByte, ExpByte, MantissaChar;
    i := a;
    NextByte(q, i);
    SignStep(q, i);
    if i < |bytes| && SignByte(bytes[i]) {
      AsciiStep(q, i);
      i := i + 1;
    }
  }

  /** The scan over bytes: it stops where the number ends, and has passed ASCII characters only. */
  method ScanNumber(q: string, bytes: seq<Byte>) returns (i: nat)
    requires bytes == Utf8(q)
    ensures i == NumberEnd(q) && Ascii(q[..i])
  {
    hide Utf8, TakeSign, TakeWhile, Ascii, IsDigit, IsSign, IsExp, DigitByte, SignByte, ExpByte, NumberEnd,
      MantissaChar, ExponentAhead;
    AsciiStart(q);
    var a := ScanSign(q, bytes, 0);
    var m := ScanMantissa(q, bytes, a);
    i := m;
    ExponentTest(q, m);
    assert q[0..] == q && q[0..a] == q[..a];
    if i < |bytes| && ExpByte(bytes[i]) && i + 1 < |bytes| && (DigitByte(bytes[i + 1]) || SignByte(bytes[i + 1])) {
      NextByte(q, i);
      AsciiStep(q, i);
      var b := ScanSign(q, bytes, i + 1);
      i := ScanDigits(q, bytes, b);
      ExponentEnd(q, a, m, b, i);
    } else {
      PlainEnd(q, a, m);
    }
  }

  /** `parse`: a scan over bytes that finds where the number ends, then a split there. The split
      always falls on a character boundary, whatever characters the text holds. */
  method Parse(s: string) returns (r: Option<real>)
    ensures r == Parsed(s)
  {
    hide Trim, Utf8, OnBoundary, SplitAt, TakeSign, TakeWhile, Along, Ascii, MantissaChar, ExponentAhead, NumberEnd,
      ParseF64, Multiplier, Scaled, IsDigit, IsSign, IsExp, DigitByte, SignByte, ExpByte;
    var q := Trim(s);
    if q == "" {
      return None;
    }
    var bytes := Utf8(q);
    var i := ScanNumber(q, bytes);
    AfterAscii(q, i);
    var (num, suffix) := SplitAt(q, i);
    match ParseF64(num)
    case None => return None;
    case Some(v) =>
      match Multiplier(suffix)
      case None => return None;
      case Some(mult) => return Some(Scaled(v, mult));
  }
}
