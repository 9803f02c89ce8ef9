/** The library's exception type: a list of error messages, the first given
    when it is made and more appended as it travels up, and a backtrace that
    numbers them from one. */
module Exceptions {

  function DigitChar(d: nat): char
    requires d < 10
  {
    (48 + d) as char
  }

  predicate IsDigit(c: char)
  {
    '0' <= c <= '9'
  }

  /** The decimal form of a number, as `int_to_str` writes it. */
  function NatToString(n: nat): (s: string)
    ensures |s| >= 1 && forall i :: 0 <= i < |s| ==> IsDigit(s[i])
    decreases n
  {
    if n < 10 then [DigitChar(n)] else NatToString(n / 10) + [DigitChar(n % 10)]
  }

  /** The number a string of decimal digits stands for. */
  function DigitsValue(s: string): nat
    requires forall i :: 0 <= i < |s| ==> IsDigit(s[i])
  {
    if s == [] then 0
    else
      var c := s[|s| - 1];
      assert IsDigit(c);
      DigitsValue(s[..|s| - 1]) * 10 + (c as int - '0' as int)
  }

  /** Reading the decimal form back gives the number, and it has no
      leading zero. */
  lemma {:induction false} NatToStringRoundTrip(n: nat)
    ensures DigitsValue(NatToString(n)) == n
    ensures n > 0 ==> NatToString(n)[0] != '0'
    decreases n
  {
    var s := NatToString(n);
    if n >= 10 {
      NatToStringRoundTrip(n / 10);
      assert s[..|s| - 1] == NatToString(n / 10);
      assert s[0] == NatToString(n / 10)[0];
    }
  }

  /** One line of the backtrace. */
  function Entry(index: nat, message: string): string
  {
    NatToString(index) + ". " + message + "\n"
  }

  /** The numbered lines for the messages. */
  function Entries(errors: seq<string>): string
  {
    if errors == [] then "" else Entries(errors[..|errors| - 1]) + Entry(|errors|, errors[|errors| - 1])
  }

  function Backtrace(errors: seq<string>): string
  {
    "Backtrace:\n" + Entries(errors)
  }

  function CountChar(s: string, c: char): nat
  {
    if s == [] then 0 else CountChar(s[..|s| - 1], c) + (if s[|s| - 1] == c then 1 else 0)
  }

  lemma {:induction false} CountCharAppend(a: string, b: string, c: char)
    ensures CountChar(a + b, c) == CountChar(a, c) + CountChar(b, c)
    decreases |b|
  {
    if b == [] {
      assert a + b == a;
    } else {
      assert (a + b)[..|a + b| - 1] == a + b[..|b| - 1];
      CountCharAppend(a, b[..|b| - 1], c);
    }
  }

  lemma {:induction false} CountAbsent(s: string, c: char)
    requires forall i :: 0 <= i < |s| ==> s[i] != c
    ensures CountChar(s, c) == 0
  {
    if s != [] {
      CountAbsent(s[..|s| - 1], c);
    }
  }

  /** When no message holds a line break, the backtrace has one line for the
      heading and one per message, so its lines count the errors. */
  lemma {:induction false} BacktraceLines(errors: seq<string>)
    requires forall i :: 0 <= i < |errors| ==> CountChar(errors[i], '\n') == 0
    ensures CountChar(Backtrace(errors), '\n') == |errors| + 1
    decreases |errors|
  {
    if errors == [] {
      assert Backtrace(errors) == "Backtrace:" + "\n";
      CountAbsent("Backtrace:", '\n');
      CountCharAppend("Backtrace:", "\n", '\n');
    } else {
      var init := errors[..|errors| - 1];
      var m := errors[|errors| - 1];
      assert forall i :: 0 <= i < |init| ==> init[i] == errors[i];
      BacktraceLines(init);
      EntryLine(|errors|, m);
      assert Entries(errors) == Entries(init) + Entry(|errors|, m);
      assert "Backtrace:\n" + (Entries(init) + Entry(|errors|, m))
          == ("Backtrace:\n" + Entries(init)) + Entry(|errors|, m);
      CountCharAppend(Backtrace(init), Entry(|errors|, m), '\n');
    }
  }

  /** An entry for a message without line breaks is one line. */
  lemma EntryLine(index: nat, message: string)
    requires CountChar(message, '\n') == 0
    ensures CountChar(Entry(index, message), '\n') == 1
  {
    var digits := NatToString(index);
    CountAbsent(digits, '\n');
    CountCharAppend(digits, ". ", '\n');
    CountCharAppend(digits + ". ", message, '\n');
    CountCharAppend(digits + ". " + message, "\n", '\n');
  }

  /** Appending a message extends the backtrace by that message's line,
      numbered one past the previous count; everything before it stays. */
  lemma BacktraceAppend(errors: seq<string>, message: string)
    ensures Backtrace(errors + [message]) == Backtrace(errors) + Entry(|errors| + 1, message)
  {
    assert (errors + [message])[..|errors|] == errors;
  }

  class Exception {
    var errors: seq<string>

    constructor ()
      ensures errors == []
    {
      errors := [];
    }

    constructor WithMessage(firstErrorMessage: string)
      ensures errors == [firstErrorMessage]
    {
      errors := [firstErrorMessage];
    }

    /** The copy has its own list, equal to the original's. */
    constructor Copy(ex: Exception)
      ensures errors == ex.errors
    {
      errors := ex.errors;
    }

    method Assign(ex: Exception)
      modifies this
      ensures errors == old(ex.errors)
    {
      errors := ex.errors;
    }

    method GetBacktrace() returns (backtrace: string)
      ensures backtrace == Backtrace(errors)
    {
      backtrace := "Backtrace:\n";
      var index := 1;
      for i := 0 to |errors|
        invariant index == i + 1
        invariant backtrace == "Backtrace:\n" + Entries(errors[..i])
      {
        assert errors[..i + 1][..i] == errors[..i];
        backtrace := backtrace + NatToString(index) + ". " + errors[i] + "\n";
        index := index + 1;
      }
      assert errors[..|errors|] == errors;
    }

    method AppendError(errorMessage: string)
      modifies this
      ensures errors == old(errors) + [errorMessage]
    {
      errors := errors + [errorMessage];
    }

    method GetErrorCount() returns (n: nat)
      ensures n == |errors|
    {
      n := |errors|;
    }
  }
}
