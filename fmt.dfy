/** The part of Go's `fmt` package the command uses: `Sprintf`/`Printf` with
    the verbs `%d` (decimal integer), `%s` (string, copied verbatim) and `%%`.
    The `%q` verb is not interpreted here; callers take it as a parameter. */
module Fmt {

  datatype Arg = IntArg(i: int) | StrArg(s: string)

  predicate IsDigits(s: string)
  {
    forall i :: 0 <= i < |s| ==> '0' <= s[i] <= '9'
  }

  /** The text `%d` prints: an optional minus sign and digits. */
  predicate IsDecimal(s: string)
  {
    if |s| > 0 && s[0] == '-' then |s| > 1 && IsDigits(s[1..]) else |s| > 0 && IsDigits(s)
  }

  function DigitChar(d: nat): (c: char)
    requires d < 10
    ensures '0' <= c <= '9'
  {
    ('0' as int + d) as char
  }

  /** Decimal digits of a natural number, most significant first. */
  function NatDecimal(n: nat): (s: string)
    ensures |s| > 0 && IsDigits(s)
    ensures s[0] == '0' ==> n == 0 && |s| == 1
    decreases n
  {
    if n < 10 then [DigitChar(n)] else NatDecimal(n / 10) + [DigitChar(n % 10)]
  }

  /** `fmt.Sprintf("%d", i)` */
  function Decimal(i: int): (s: string)
    ensures IsDecimal(s)
  {
    if i < 0 then
      var d := NatDecimal(-i);
      assert ("-" + d)[1..] == d;
      "-" + d
    else NatDecimal(i)
  }

  /** Reading decimal text back, the independent partner of Decimal. */
  function NatValue(s: string): nat
    requires IsDigits(s)
  {
    if s == [] then 0 else NatValue(s[..|s| - 1]) * 10 + (s[|s| - 1] as int - '0' as int)
  }

  function DecimalValue(s: string): int
    requires IsDecimal(s)
  {
    if s[0] == '-' then -(NatValue(s[1..]) as int) else NatValue(s)
  }

  lemma {:induction false} NatDecimalRoundTrip(n: nat)
    ensures NatValue(NatDecimal(n)) == n
    decreases n
  {
    if n >= 10 {
      var d := NatDecimal(n / 10);
      var s := d + [DigitChar(n % 10)];
      assert s[..|s| - 1] == d;
      NatDecimalRoundTrip(n / 10);
    }
  }

  /** `%d` loses nothing: the printed text determines the integer. */
  lemma DecimalRoundTrip(i: int)
    ensures DecimalValue(Decimal(i)) == i
  {
    if i < 0 {
      assert ("-" + NatDecimal(-i))[1..] == NatDecimal(-i);
      NatDecimalRoundTrip(-i);
    } else {
      NatDecimalRoundTrip(i);
    }
  }

  /** The verbs of `format` match `args` one for one, in kind and in number. */
  predicate Fits(format: string, args: seq<Arg>)
    decreases |format|
  {
    if format == [] then args == []
    else if format[0] != '%' then Fits(format[1..], args)
    else if |format| < 2 then false
    else if format[1] == '%' then Fits(format[2..], args)
    else if format[1] == 'd' then args != [] && args[0].IntArg? && Fits(format[2..], args[1..])
    else if format[1] == 's' then args != [] && args[0].StrArg? && Fits(format[2..], args[1..])
    else false
  }

  /** `fmt.Sprintf(format, args...)` for a format whose verbs fit its arguments. */
  function Sprintf(format: string, args: seq<Arg>): string
    requires Fits(format, args)
    decreases |format|
  {
    if format == [] then ""
    else if format[0] != '%' then [format[0]] + Sprintf(format[1..], args)
    else if format[1] == '%' then "%" + Sprintf(format[2..], args)
    else if format[1] == 'd' then Decimal(args[0].i) + Sprintf(format[2..], args[1..])
    else args[0].s + Sprintf(format[2..], args[1..])
  }

  /** Text without `%` is printed as it is. */
  lemma {:induction false} SprintfLiteral(s: string)
    requires '%' !in s
    ensures Fits(s, []) && Sprintf(s, []) == s
  {
    if s != [] {
      SprintfLiteral(s[1..]);
      assert [s[0]] + s[1..] == s;
    }
  }

  lemma SprintfInt(i: int)
    ensures Fits("%d", [IntArg(i)]) && Sprintf("%d", [IntArg(i)]) == Decimal(i)
  {
    assert "%d"[2..] == "";
    assert [IntArg(i)][1..] == [];
  }

  /** A string argument is copied verbatim, whatever it contains (`%` included). */
  lemma SprintfString(s: string)
    ensures Fits("%s", [StrArg(s)]) && Sprintf("%s", [StrArg(s)]) == s
  {
    assert "%s"[2..] == "";
    assert [StrArg(s)][1..] == [];
  }

  /** Text without `%` in front of a format is printed in front of its output. */
  lemma LiteralThen(lit: string, rest: string, args: seq<Arg>)
    requires '%' !in lit && Fits(rest, args)
    ensures Fits(lit + rest, args) && Sprintf(lit + rest, args) == lit + Sprintf(rest, args)
  {
    SprintfLiteral(lit);
    SprintfAppend(lit, [], rest, args);
    assert [] + args == args;
  }

  /** A leading `%d` prints the first argument in decimal. */
  lemma IntThen(i: int, rest: string, args: seq<Arg>)
    requires Fits(rest, args)
    ensures Fits("%d" + rest, [IntArg(i)] + args)
    ensures Sprintf("%d" + rest, [IntArg(i)] + args) == Decimal(i) + Sprintf(rest, args)
  {
    SprintfInt(i);
    SprintfAppend("%d", [IntArg(i)], rest, args);
  }

  /** A leading `%s` copies the first argument. */
  lemma StringThen(s: string, rest: string, args: seq<Arg>)
    requires Fits(rest, args)
    ensures Fits("%s" + rest, [StrArg(s)] + args)
    ensures Sprintf("%s" + rest, [StrArg(s)] + args) == s + Sprintf(rest, args)
  {
    SprintfString(s);
    SprintfAppend("%s", [StrArg(s)], rest, args);
  }

  /** Formatting distributes over concatenating formats and their arguments. */
  lemma {:induction false} SprintfAppend(a: string, xs: seq<Arg>, b: string, ys: seq<Arg>)
    requires Fits(a, xs) && Fits(b, ys)
    ensures Fits(a + b, xs + ys)
    ensures Sprintf(a + b, xs + ys) == Sprintf(a, xs) + Sprintf(b, ys)
    decreases |a|
  {
    if a == [] {
      assert a + b == b;
      assert xs + ys == ys;
    } else if a[0] != '%' {
      SprintfAppend(a[1..], xs, b, ys);
      SprintfAppendChar(a, xs, b, ys);
    } else if a[1] == '%' {
      SprintfAppend(a[2..], xs, b, ys);
      SprintfAppendPercent(a, xs, b, ys);
    } else {
      SprintfAppend(a[2..], xs[1..], b, ys);
      SprintfAppendVerb(a, xs, b, ys);
    }
  }

  /** The step of SprintfAppend where `a` starts with an ordinary character. */
  lemma SprintfAppendChar(a: string, xs: seq<Arg>, b: string, ys: seq<Arg>)
    requires |a| >= 1 && a[0] != '%'
    requires Fits(a, xs) && Fits(b, ys)
    requires Fits(a[1..] + b, xs + ys)
    requires Sprintf(a[1..] + b, xs + ys) == Sprintf(a[1..], xs) + Sprintf(b, ys)
    ensures Fits(a + b, xs + ys)
    ensures Sprintf(a + b, xs + ys) == Sprintf(a, xs) + Sprintf(b, ys)
  {
    var p, q := Sprintf(a[1..], xs), Sprintf(b, ys);
    assert Fits(a + b, xs + ys) && Sprintf(a + b, xs + ys) == [a[0]] + (p + q) by {
      assert (a + b)[0] == a[0];
      assert (a + b)[1..] == a[1..] + b;
    }
    assert Sprintf(a, xs) == [a[0]] + p;
  }

  /** The step of SprintfAppend where `a` starts with `%%`. */
  lemma SprintfAppendPercent(a: string, xs: seq<Arg>, b: string, ys: seq<Arg>)
    requires |a| >= 2 && a[0] == '%' && a[1] == '%'
    requires Fits(a, xs) && Fits(b, ys)
    requires Fits(a[2..] + b, xs + ys)
    requires Sprintf(a[2..] + b, xs + ys) == Sprintf(a[2..], xs) + Sprintf(b, ys)
    ensures Fits(a + b, xs + ys)
    ensures Sprintf(a + b, xs + ys) == Sprintf(a, xs) + Sprintf(b, ys)
  {
    var p, q := Sprintf(a[2..], xs), Sprintf(b, ys);
    assert Fits(a + b, xs + ys) && Sprintf(a + b, xs + ys) == "%" + (p + q) by {
      assert (a + b)[0] == '%' && (a + b)[1] == '%';
      assert (a + b)[2..] == a[2..] + b;
    }
    assert Sprintf(a, xs) == "%" + p;
  }

  /** The step of SprintfAppend where `a` starts with `%d` or `%s`. */
  lemma SprintfAppendVerb(a: string, xs: seq<Arg>, b: string, ys: seq<Arg>)
    requires |a| >= 2 && a[0] == '%' && a[1] != '%'
    requires Fits(a, xs) && Fits(b, ys)
    requires Fits(a[2..] + b, xs[1..] + ys)
    requires Sprintf(a[2..] + b, xs[1..] + ys) == Sprintf(a[2..], xs[1..]) + Sprintf(b, ys)
    ensures Fits(a + b, xs + ys)
    ensures Sprintf(a + b, xs + ys) == Sprintf(a, xs) + Sprintf(b, ys)
  {
    assert Fits(a + b, xs + ys) by {
      var ab, args := a + b, xs + ys;
      assert ab[0] == '%' && ab[1] == a[1];
      assert ab[2..] == a[2..] + b;
      assert args[0] == xs[0];
      assert args[1..] == xs[1..] + ys;
    }
    if a[1] == 'd' {
      SprintfAppendHead(a, xs, b, ys, Decimal(xs[0].i));
    } else {
      SprintfAppendHead(a, xs, b, ys, xs[0].s);
    }
  }

  lemma SprintfAppendHead(a: string, xs: seq<Arg>, b: string, ys: seq<Arg>, head: string)
    requires |a| >= 2 && a[0] == '%' && a[1] != '%'
    requires Fits(a, xs) && Fits(b, ys) && Fits(a + b, xs + ys)
    requires head == if a[1] == 'd' then Decimal(xs[0].i) else xs[0].s
    requires Fits(a[2..] + b, xs[1..] + ys)
    requires Sprintf(a[2..] + b, xs[1..] + ys) == Sprintf(a[2..], xs[1..]) + Sprintf(b, ys)
    ensures Sprintf(a + b, xs + ys) == Sprintf(a, xs) + Sprintf(b, ys)
  {
    var p, q := Sprintf(a[2..], xs[1..]), Sprintf(b, ys);
    assert Sprintf(a + b, xs + ys) == head + (p + q) by {
      var ab, args := a + b, xs + ys;
      assert ab[0] == '%' && ab[1] == a[1];
      assert ab[2..] == a[2..] + b;
      assert args[0] == xs[0];
      assert args[1..] == xs[1..] + ys;
    }
    assert Sprintf(a, xs) == head + p;
  }
}
