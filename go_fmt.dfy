/** The part of Go's `fmt.Sprintf` that the services use to fill their URL templates. */
module GoFmt {

  /** `Sprintf(format, args...)` with string arguments: each `%s` takes the
      next argument, `%%` is one percent sign, a `%s` with no argument left
      prints `%!s(MISSING)` and a lone trailing `%` prints `%!(NOVERB)`. */
  function Sprintf(format: string, args: seq<string>): (out: string)
    ensures '%' !in format ==> out == format
    decreases |format|
  {
    if |format| == 0 then []
    else if format[0] != '%' then [format[0]] + Sprintf(format[1..], args)
    else if |format| == 1 then "%!(NOVERB)"
    else if format[1] == 's' then
      if |args| == 0 then "%!s(MISSING)" + Sprintf(format[2..], args)
      else args[0] + Sprintf(format[2..], args[1..])
    else if format[1] == '%' then "%" + Sprintf(format[2..], args)
    else [format[0]] + Sprintf(format[1..], args)
  }

  /** A character other than `%` is copied through. */
  lemma SprintfChar(c: char, rest: string, args: seq<string>)
    requires c != '%'
    ensures Sprintf([c] + rest, args) == [c] + Sprintf(rest, args)
  {
    var s := [c] + rest;
    assert s[0] == c && s[1..] == rest;
  }

  /** Text without a percent sign is copied through and consumes no argument. */
  lemma {:induction false} SprintfLiteral(lit: string, rest: string, args: seq<string>)
    requires '%' !in lit
    ensures Sprintf(lit + rest, args) == lit + Sprintf(rest, args)
    decreases |lit|
  {
    if lit == [] {
      assert lit + rest == rest;
    } else {
      var c, tail := lit[0], lit[1..];
      assert lit == [c] + tail;
      assert '%' !in tail;
      calc {
        Sprintf(lit + rest, args);
        { assert lit + rest == [c] + (tail + rest); }
        Sprintf([c] + (tail + rest), args);
        { SprintfChar(c, tail + rest, args); }
        [c] + Sprintf(tail + rest, args);
        { SprintfLiteral(tail, rest, args); }
        [c] + (tail + Sprintf(rest, args));
        { assert lit == [c] + tail; }
        lit + Sprintf(rest, args);
      }
    }
  }

  /** A `%s` verb is replaced by the first argument. */
  lemma SprintfVerb(rest: string, arg: string, args: seq<string>)
    ensures Sprintf("%s" + rest, [arg] + args) == arg + Sprintf(rest, args)
  {
    var s := "%s" + rest;
    assert s[0] == '%' && s[1] == 's' && s[2..] == rest;
    assert ([arg] + args)[1..] == args;
  }

  /** The shape of both service templates: literal, `%s`, literal. */
  lemma SprintfOne(before: string, after: string, arg: string, args: seq<string>)
    requires '%' !in before && '%' !in after
    ensures Sprintf(before + "%s" + after, [arg] + args) == before + arg + after
  {
    calc {
      Sprintf(before + "%s" + after, [arg] + args);
      { assert before + "%s" + after == before + ("%s" + after); }
      Sprintf(before + ("%s" + after), [arg] + args);
      { SprintfLiteral(before, "%s" + after, [arg] + args); }
      before + Sprintf("%s" + after, [arg] + args);
      { SprintfVerb(after, arg, args); }
      before + (arg + Sprintf(after, args));
      before + arg + after;
    }
  }

  /** The shape of a two-verb template: literal, `%s`, literal, `%s`, literal. */
  lemma SprintfTwo(a: string, b: string, c: string, x: string, y: string)
    requires '%' !in a && '%' !in b && '%' !in c
    ensures Sprintf(a + ("%s" + (b + ("%s" + c))), [x, y]) == a + (x + (b + (y + c)))
  {
    var args := [x, y];
    calc {
      Sprintf(a + ("%s" + (b + ("%s" + c))), args);
      { SprintfLiteral(a, "%s" + (b + ("%s" + c)), args); }
      a + Sprintf("%s" + (b + ("%s" + c)), args);
      { assert args == [x] + [y]; SprintfVerb(b + ("%s" + c), x, [y]); }
      a + (x + Sprintf(b + ("%s" + c), [y]));
      { SprintfLiteral(b, "%s" + c, [y]); }
      a + (x + (b + Sprintf("%s" + c, [y])));
      { assert [y] == [y] + []; SprintfVerb(c, y, []); }
      a + (x + (b + (y + Sprintf(c, []))));
      a + (x + (b + (y + c)));
    }
  }

  /** A two-verb template whose head is given in two literal pieces. */
  lemma SprintfTwoAfter(h: string, a: string, b: string, c: string, x: string, y: string)
    requires '%' !in h && '%' !in a && '%' !in b && '%' !in c
    ensures Sprintf(h + (a + ("%s" + (b + ("%s" + c)))), [x, y]) == h + (a + (x + (b + (y + c))))
  {
    SprintfLiteral(h, a + ("%s" + (b + ("%s" + c))), [x, y]);
    SprintfTwo(a, b, c, x, y);
  }
}
